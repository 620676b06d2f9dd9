/** The commands that change the lease file. A command reads its clock, then takes the lock; a
    refused one saves nothing; a granted one prunes and saves. */
module LeaseCommands {
  import opened Seqs
  import opened Leases
  import opened Pruning

  const GOVERNOR_PREFIX := "pace-"
  const GOVERNOR_MAX_AGE := 180 * 60
  const PROXY_SESSIONS := {"", "manual", "dashboard", "mcp"}

  datatype Change = Renew(duration: int) | EndAs(status: Status)

  /** Who is asking, and what the row will carry. `allowed` is false when the terminal-task guard
      or the branch and worktree set-up stops the command. */
  datatype Holder = Holder(
    agent: string, session: string, branch: string, worktree: string, duration: int, allowed: bool)

  /** A FREE task offered to claim-next; `skip` when it is delegable or not ready. */
  datatype Candidate = Candidate(title: Label, id: Option<Id>, skip: bool)

  datatype Selector = Selector(claimId: string, all: bool, agent: string, governorAlive: bool, worktreePrefix: string)

  datatype Command =
    | Checkout(issue: nat, title: Label, steal: bool, holder: Holder)
    | Claim(title: Label, claimId: string, holder: Holder)
    | ClaimNext(candidates: seq<Candidate>, allowMulti: bool, lockNow: int, claimId: string, holder: Holder)
    | Unclaim(claimId: string)
    | Mutate(issue: nat, change: Change, token: Option<nat>, branch: string)
    | Reap(orphans: bool, olderThan: Option<int>)
    | ExtendLease(selector: Selector, duration: int, due: bool)
    | AutoReap

  // ----- what each command looks for and what it does to a row

  predicate HoldsIssue(r: Row, issue: nat, now: int) {
    IsLive(r, now) && (ForIssue(r, issue) || (IssueId(issue).Some? && TaskOf(r) == Some(issue)))
  }

  function BlocksCheckout(issue: nat, now: int): Row -> bool { (r: Row) => HoldsIssue(r, issue, now) }

  function BlocksClaim(title: Label, now: int): Row -> bool {
    (r: Row) => IsLive(r, now)
      && ((r.issue.None? && r.title.text == title.text)
          || (title.Names().Some? && TaskOf(r) == NumberOf(title.Names())))
  }

  function Ended(r: Row, s: Status, now: int): Row { r.(status := s, endedAt := Some(now)) }

  function StealIf(issue: nat, now: int): Row -> Row {
    (r: Row) => if HoldsIssue(r, issue, now) then Ended(r, Stolen, now) else r
  }

  function NewRow(issue: Option<nat>, taskId: Option<Id>, title: Label, claimId: string, h: Holder, token: nat,
                  now: int): Row
  {
    Row(issue, taskId, title, claimId, h.agent, h.session, CheckedOut, h.branch, h.worktree, token, 0,
        now, now + h.duration, now, None)
  }

  function HasClaim(claimId: string): Row -> bool {
    (r: Row) => claimId != "" && r.claimId == claimId && Open(r)
  }

  function CandidateTask(c: Candidate): Option<Id> {
    if c.id.Some? then Resolve(c.id.value) else c.title.Names()
  }

  predicate Taken(rows: seq<Row>, c: Candidate, now: int) {
    exists i :: 0 <= i < |rows| && IsLive(rows[i], now)
      && (rows[i].title.text == c.title.text
          || (CandidateTask(c).Some? && TaskOf(rows[i]) == NumberOf(CandidateTask(c))))
  }

  predicate SessionBusy(rows: seq<Row>, session: string, lockNow: int) {
    session != "" && session != "manual"
    && exists i :: 0 <= i < |rows| && IsLive(rows[i], lockNow) && rows[i].session == session
  }

  /** The first candidate that nobody holds and that may be worked here. */
  function Picked(rows: seq<Row>, cs: seq<Candidate>, now: int): Option<Candidate> {
    if cs == [] then None
    else if !Taken(rows, cs[0], now) && !cs[0].skip then Some(cs[0])
    else Picked(rows, cs[1..], now)
  }

  function WithToken(issue: nat, token: nat): Row -> bool {
    (r: Row) => ForIssue(r, issue) && r.fence == token
  }

  function OpenOnBranch(issue: nat, branch: string): Row -> bool {
    (r: Row) => ForIssue(r, issue) && Open(r) && (branch == "" || r.branch == branch)
  }

  predicate Superseded(rows: seq<Row>, issue: nat, token: nat) {
    exists i :: 0 <= i < |rows| && ForIssue(rows[i], issue) && rows[i].fence > token
  }

  /** The row an issue command writes to, if it may write. */
  function Target(rows: seq<Row>, issue: nat, token: Option<nat>, branch: string): Option<nat> {
    if token.Some? then
      if Superseded(rows, issue, token.value) then None
      else
        var k := LastIndex(rows, WithToken(issue, token.value));
        if k.Some? && Open(rows[k.value]) then k else None
    else
      LastIndex(rows, OpenOnBranch(issue, branch))
  }

  function Changed(r: Row, c: Change, now: int): Row {
    match c
    case Renew(duration) => r.(expires := now + duration, renewedAt := now)
    case EndAs(status) => Ended(r, status, now)
  }

  predicate StartsWith(s: string, prefix: string) { prefix <= s }

  /** A governor's lease older than any dispatch. */
  predicate IsAgedGovernor(r: Row, now: int) {
    StartsWith(r.session, GOVERNOR_PREFIX) && now - r.startedAt > GOVERNOR_MAX_AGE
  }

  function ExpireStale(now: int): Row -> Row {
    (r: Row) => if r.status == CheckedOut && !IsLive(r, now) then Ended(r, Expired, now) else r
  }

  function ExpireOrphan(now: int): Row -> Row {
    (r: Row) => if r.status == CheckedOut && IsAgedGovernor(r, now)
                then Ended(r, Expired, now) else r
  }

  function NotOlder(cutoff: int): Row -> bool {
    (r: Row) => !(Retired(r.status) && (if r.endedAt.Some? then r.endedAt.value else r.startedAt) < cutoff)
  }

  function Reaped(rows: seq<Row>, orphans: bool, olderThan: Option<int>, now: int): seq<Row> {
    var once := Map(rows, ExpireStale(now));
    var twice := if orphans then Map(once, ExpireOrphan(now)) else once;
    if olderThan.Some? then Filter(twice, NotOlder(now - olderThan.value)) else twice
  }

  /** Which leases a heartbeat may renew. */
  predicate Matches(s: Selector, now: int, r: Row) {
    Open(r)
    && ((s.claimId != "" && r.claimId == s.claimId)
        || (s.all && r.agent == s.agent
            && r.session !in PROXY_SESSIONS
            && !(StartsWith(r.session, GOVERNOR_PREFIX)
                 && (!s.governorAlive || now - r.startedAt > GOVERNOR_MAX_AGE))
            && StartsWith(r.worktree, s.worktreePrefix)))
  }

  function Extend(s: Selector, duration: int, now: int): Row -> Row {
    (r: Row) =>
      if Matches(s, now, r) then
        r.(expires := if r.expires > now + duration then r.expires else now + duration, renewedAt := now)
      else r
  }

  // ----- what a command does to the file, before pruning; None when it is refused

  ghost function Granted(f: File, rows: seq<Row>, row: Row): File {
    File(rows + [row.(fence := f.counter + 1)], f.counter + 1)
  }

  ghost function Effect(f: File, c: Command, now: int): Option<File> {
    match c
    case Checkout(issue, title, steal, h) =>
      if !h.allowed || (!steal && LastIndex(f.rows, BlocksCheckout(issue, now)).Some?) then None
      else Some(Granted(f, Map(f.rows, StealIf(issue, now)), NewRow(Some(issue), IssueId(issue), title, "", h, 0, now)))
    case Claim(title, claimId, h) =>
      if !h.allowed || LastIndex(f.rows, BlocksClaim(title, now)).Some? then None
      else Some(Granted(f, f.rows, NewRow(None, title.Names(), title, claimId, h, 0, now)))
    case ClaimNext(cs, allowMulti, lockNow, claimId, h) =>
      if !allowMulti && SessionBusy(f.rows, h.session, lockNow) then None
      else
        var p := Picked(f.rows, cs, now);
        if p.None? then Some(f)
        else if !h.allowed then None
        else Some(Granted(f, f.rows, NewRow(None, CandidateTask(p.value), p.value.title, claimId, h, 0, now)))
    case Unclaim(claimId) =>
      var k := LastIndex(f.rows, HasClaim(claimId));
      if k.None? then None else Some(f.(rows := f.rows[k.value := Ended(f.rows[k.value], Released, now)]))
    case Mutate(issue, change, token, branch) =>
      var k := Target(f.rows, issue, token, branch);
      if k.None? then None else Some(f.(rows := f.rows[k.value := Changed(f.rows[k.value], change, now)]))
    case Reap(orphans, olderThan) =>
      Some(f.(rows := Reaped(f.rows, orphans, olderThan, now)))
    case ExtendLease(s, duration, due) =>
      if !due then None else Some(f.(rows := Map(f.rows, Extend(s, duration, now))))
    case AutoReap => Some(f.(rows := Map(f.rows, ExpireStale(now))))
  }

  /** One command on the file: the load raises a lagging counter, the save prunes. The work
      reader's own expiry pass is saved without either. */
  ghost function After(f: File, c: Command, now: int, pruneNow: int): File {
    if c.AutoReap? then f.(rows := Map(f.rows, ExpireStale(now)))
    else
      var e := Effect(Backfilled(f), c, now);
      if e.None? then f else e.value.(rows := Pruned(e.value.rows, pruneNow))
  }
}
