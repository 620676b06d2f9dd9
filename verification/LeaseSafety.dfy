/** Mutual exclusion over whole runs, although every command read its clock before its lock. */
module LeaseSafety {
  import opened Seqs
  import opened Leases
  import opened Pruning
  import opened LeaseCommands

  /** Rows carry their task in the issue number or the stored id, as every command writes them. */
  predicate IsStamped(r: Row) {
    && (r.issue.Some? ==> r.taskId == IssueId(r.issue.value))
    && (r.issue.None? && r.taskId.None? && r.title.Names().Some? ==> r.title.Names().value.short)
  }

  ghost predicate Stamped(rows: seq<Row>) { forall i :: 0 <= i < |rows| ==> IsStamped(rows[i]) }

  ghost predicate Orderly(rows: seq<Row>) { TokensIncrease(rows) && Stamped(rows) }

  /** No open row of the same task comes after a live row. */
  ghost predicate LiveIsLast(rows: seq<Row>, t: int) {
    forall i, j :: 0 <= i < j < |rows| && SameTask(rows[i], rows[j]) && Open(rows[j]) ==> !IsLive(rows[i], t)
  }

  lemma LiveIsLastExcludes(rows: seq<Row>, t: int, t': int)
    requires LiveIsLast(rows, t) && t <= t'
    ensures LiveIsLast(rows, t') && Exclusive(rows, t')
  {
  }

  /** `k` is the last open row of its task. */
  ghost predicate LastOpen(rows: seq<Row>, k: nat)
    requires k < |rows|
  {
    forall j :: k < j < |rows| && SameTask(rows[k], rows[j]) ==> !Open(rows[j])
  }

  ghost predicate SafeToExtend(rows: seq<Row>, k: nat, t: int)
    requires k < |rows|
  {
    IsLive(rows[k], t) || LastOpen(rows, k)
  }

  /** The side condition, at present time `t`: a heartbeat, or a renewal that only names a branch,
      extends rows that are still live or are their task's last open one. */
  ghost predicate Safe(f: File, c: Command, now: int, t: int) {
    match c
    case ExtendLease(s, _, due) =>
      due ==> forall k :: 0 <= k < |f.rows| && Matches(s, now, f.rows[k]) ==> SafeToExtend(f.rows, k, t)
    case Mutate(issue, Renew(_), None, branch) =>
      var k := Target(f.rows, issue, None, branch);
      branch != "" && k.Some? ==> SafeToExtend(f.rows, k.value, t)
    case _ => true
  }

  /** Task ids on offer have the two digits that the id pattern needs, leading zeros included. */
  ghost predicate TwoDigitIds(c: Command) {
    c.ClaimNext? ==> forall x :: x in c.candidates && x.id.Some? ==> !x.id.value.short
  }

  // ----- what preserves the invariant

  /** `r'` is `r`, or `r` retired. */
  predicate RetiresOnly(r: Row, r': Row) {
    r'.fence == r.fence && r'.issue == r.issue && r'.taskId == r.taskId && r'.title == r.title
    && (r' == r || Retired(r'.status))
  }

  lemma RetiringKeeps(rows: seq<Row>, rows': seq<Row>, t: int)
    requires |rows'| == |rows| && forall i :: 0 <= i < |rows| ==> RetiresOnly(rows[i], rows'[i])
    requires Orderly(rows) && LiveIsLast(rows, t)
    ensures Orderly(rows') && LiveIsLast(rows', t)
  {
  }

  lemma SublistKeeps(rows: seq<Row>, p: Row -> bool, t: int)
    requires Orderly(rows) && LiveIsLast(rows, t)
    ensures Orderly(Filter(rows, p)) && LiveIsLast(Filter(rows, p), t)
  {
    var kept := Filter(rows, p);
    forall i, j | 0 <= i < j < |kept|
      ensures kept[i].fence < kept[j].fence
      ensures SameTask(kept[i], kept[j]) && Open(kept[j]) ==> !IsLive(kept[i], t)
    {
      var i', j' := FilterPositions(rows, p, i, j);
    }
    forall i | 0 <= i < |kept| ensures IsStamped(kept[i]) {
      var k := FilterSource(rows, p, i);
    }
  }

  lemma PrunedOrderly(rows: seq<Row>, now: int)
    requires Orderly(rows)
    ensures Orderly(Pruned(rows, now))
  {
    var kept, recent := Pruned(rows, now), Recent(rows);
    forall i, j | 0 <= i < j < |kept| ensures kept[i].fence < kept[j].fence {
      var i', j' := KeptPositions(rows, recent, now, |rows|, i, j);
    }
    KeptMembers(rows, recent, now, |rows|);
    forall i | 0 <= i < |kept| ensures IsStamped(kept[i]) {
      assert kept[i] in kept;
    }
  }

  /** The order among open rows is all that the invariant reads. */
  lemma OnlyOpenRowsMatter(rows: seq<Row>, t: int)
    ensures LiveIsLast(rows, t) <==> LiveIsLast(Filter(rows, IsOpen()), t)
  {
    var open := Filter(rows, IsOpen());
    if LiveIsLast(rows, t) {
      forall i, j | 0 <= i < j < |open| && SameTask(open[i], open[j]) && Open(open[j]) ensures !IsLive(open[i], t) {
        var i', j' := FilterPositions(rows, IsOpen(), i, j);
      }
    }
    if LiveIsLast(open, t) {
      forall i, j | 0 <= i < j < |rows| && SameTask(rows[i], rows[j]) && Open(rows[j]) ensures !IsLive(rows[i], t) {
        if IsLive(rows[i], t) {
          var i', j' := FilterFinds(rows, IsOpen(), i, j);
          assert false;
        }
      }
    }
  }

  lemma PruningMattersNot(rows: seq<Row>, now: int, t: int)
    ensures LiveIsLast(Pruned(rows, now), t) <==> LiveIsLast(rows, t)
  {
    OnlyOpenRowsMatter(rows, t);
    OnlyOpenRowsMatter(Pruned(rows, now), t);
    PruningKeepsOpenRows(rows, now);
  }

  lemma AppendKeeps(rows: seq<Row>, row: Row, t: int)
    requires Orderly(rows) && LiveIsLast(rows, t) && IsStamped(row)
    requires forall i :: 0 <= i < |rows| ==> rows[i].fence < row.fence
    requires forall i :: 0 <= i < |rows| && SameTask(rows[i], row) ==> !IsLive(rows[i], t)
    ensures Orderly(rows + [row]) && LiveIsLast(rows + [row], t)
  {
  }

  /** Extending some open rows keeps the invariant when each of them is safe to extend. */
  lemma ExtendingKeeps(rows: seq<Row>, rows': seq<Row>, t: int)
    requires |rows'| == |rows|
    requires forall i :: 0 <= i < |rows| ==>
      rows'[i] == rows[i].(expires := rows'[i].expires, renewedAt := rows'[i].renewedAt)
    requires forall i :: 0 <= i < |rows| && rows'[i] != rows[i] ==> SafeToExtend(rows, i, t)
    requires Orderly(rows) && LiveIsLast(rows, t)
    ensures Orderly(rows') && LiveIsLast(rows', t)
  {
  }

  lemma TokensBelow(f: File)
    ensures forall i :: 0 <= i < |f.rows| ==> f.rows[i].fence <= Backfilled(f).counter
  {
    assert forall i :: 0 <= i < |f.rows| ==> f.rows[i] in f.rows && f.rows[i].fence in Tokens(f.rows);
  }

  /** On rows as commands write them, an issue number selects every row that holds the task by an
      id that resolves, and from 10 on no other row. */
  lemma IssueIsTask(r: Row, issue: nat)
    requires IsStamped(r)
    ensures Resolves(r) && TaskOf(r) == Some(issue) ==> ForIssue(r, issue)
    ensures issue >= 10 && ForIssue(r, issue) ==> Resolves(r) && TaskOf(r) == Some(issue)
  {
  }

  // ----- one command

  ghost predicate Invariant(f: File, t: int) { Orderly(f.rows) && LiveIsLast(f.rows, t) }

  lemma CheckoutKeeps(f: File, c: Command, now: int, t: int)
    requires c.Checkout? && Invariant(f, t) && now <= t && Effect(Backfilled(f), c, now).Some?
    ensures Invariant(Effect(Backfilled(f), c, now).value, t)
  {
    var rows := Map(f.rows, StealIf(c.issue, now));
    TokensBelow(f);
    forall i | 0 <= i < |rows|
      ensures RetiresOnly(f.rows[i], rows[i])
      ensures IssueId(c.issue).Some? && TaskOf(rows[i]) == Some(c.issue) ==> !IsLive(rows[i], t)
    {
      StolenRow(f.rows[i], c.issue, now, t);
    }
    RetiringKeeps(f.rows, rows, t);
    var token := Backfilled(f).counter + 1;
    var row := NewRow(Some(c.issue), IssueId(c.issue), c.title, "", c.holder, 0, now).(fence := token);
    assert TaskOf(row) == NumberOf(IssueId(c.issue));
    AppendKeeps(rows, row, t);
  }

  /** After a steal no row of the task is live. */
  lemma StolenRow(r: Row, issue: nat, now: int, t: int)
    requires now <= t
    ensures var r' := StealIf(issue, now)(r);
      && RetiresOnly(r, r')
      && (IssueId(issue).Some? && TaskOf(r') == Some(issue) ==> !IsLive(r', t))
  {
  }

  lemma ClaimKeeps(f: File, c: Command, now: int, t: int)
    requires TwoDigitIds(c) && (c.Claim? || c.ClaimNext?)
    requires Invariant(f, t) && now <= t && Effect(Backfilled(f), c, now).Some?
    ensures Invariant(Effect(Backfilled(f), c, now).value, t)
  {
    TokensBelow(f);
    if c.Claim? {
      var token := Backfilled(f).counter + 1;
      var row := NewRow(None, c.title.Names(), c.title, c.claimId, c.holder, 0, now).(fence := token);
      forall i | 0 <= i < |f.rows| && SameTask(f.rows[i], row) ensures !IsLive(f.rows[i], t) {
        assert !BlocksClaim(c.title, now)(f.rows[i]);
      }
      AppendKeeps(f.rows, row, t);
    } else if Picked(f.rows, c.candidates, now).Some? {
      PickedIsFree(f.rows, c.candidates, now);
      PickedKeeps(f, Picked(f.rows, c.candidates, now).value, c.claimId, c.holder, now, t);
    }
  }

  lemma PickedKeeps(f: File, p: Candidate, claimId: string, h: Holder, now: int, t: int)
    requires Invariant(f, t) && now <= t && !Taken(f.rows, p, now) && (p.id.Some? ==> !p.id.value.short)
    requires forall i :: 0 <= i < |f.rows| ==> f.rows[i].fence <= Backfilled(f).counter
    ensures Invariant(Granted(Backfilled(f), f.rows, NewRow(None, CandidateTask(p), p.title, claimId, h, 0, now)), t)
  {
    var row := NewRow(None, CandidateTask(p), p.title, claimId, h, 0, now).(fence := Backfilled(f).counter + 1);
    forall i | 0 <= i < |f.rows| && SameTask(f.rows[i], row) ensures !IsLive(f.rows[i], t) {
      assert Resolves(row) ==> TaskOf(row) == NumberOf(CandidateTask(p));
    }
    AppendKeeps(f.rows, row, t);
  }

  lemma {:induction false} PickedIsFree(rows: seq<Row>, cs: seq<Candidate>, now: int)
    ensures Picked(rows, cs, now).Some? ==>
      Picked(rows, cs, now).value in cs && !Taken(rows, Picked(rows, cs, now).value, now)
  {
    if cs != [] && (Taken(rows, cs[0], now) || cs[0].skip) {
      PickedIsFree(rows, cs[1..], now);
    }
  }

  lemma RetirementKeeps(f: File, c: Command, now: int, t: int)
    requires c.Unclaim? || c.Reap? || c.AutoReap? || (c.Mutate? && c.change.EndAs?)
    requires c.Mutate? ==> Retired(c.change.status)
    requires Invariant(f, t) && Effect(Backfilled(f), c, now).Some?
    ensures Invariant(Effect(Backfilled(f), c, now).value, t)
  {
    if c.Reap? {
      ReapKeeps(f.rows, c.orphans, c.olderThan, now, t);
    } else if c.AutoReap? {
      var once := Map(f.rows, ExpireStale(now));
      forall i | 0 <= i < |once| ensures RetiresOnly(f.rows[i], once[i]) {
        ExpiredRow(f.rows[i], now);
      }
      RetiringKeeps(f.rows, once, t);
    } else {
      RetiringKeeps(f.rows, Effect(Backfilled(f), c, now).value.rows, t);
    }
  }

  lemma ExpiredRow(r: Row, now: int)
    ensures RetiresOnly(r, ExpireStale(now)(r)) && RetiresOnly(r, ExpireOrphan(now)(r))
  {
  }

  lemma ReapKeeps(rows: seq<Row>, orphans: bool, olderThan: Option<int>, now: int, t: int)
    requires Orderly(rows) && LiveIsLast(rows, t)
    ensures var reaped := Reaped(rows, orphans, olderThan, now); Orderly(reaped) && LiveIsLast(reaped, t)
  {
    var once := Map(rows, ExpireStale(now));
    forall i | 0 <= i < |once| ensures RetiresOnly(rows[i], once[i]) {
      ExpiredRow(rows[i], now);
    }
    RetiringKeeps(rows, once, t);
    var twice := if orphans then Map(once, ExpireOrphan(now)) else once;
    forall i | 0 <= i < |twice| ensures RetiresOnly(once[i], twice[i]) {
      ExpiredRow(once[i], now);
    }
    RetiringKeeps(once, twice, t);
    if olderThan.Some? {
      SublistKeeps(twice, NotOlder(now - olderThan.value), t);
    }
  }

  /** A renewal that proves its token, or names neither token nor branch, reaches the last open row. */
  lemma RenewalTarget(f: File, issue: nat, token: Option<nat>, branch: string)
    requires Orderly(f.rows) && Target(f.rows, issue, token, branch).Some? && (token.Some? || branch == "")
    ensures LastOpen(f.rows, Target(f.rows, issue, token, branch).value)
  {
    var k := Target(f.rows, issue, token, branch).value;
    forall j | k < j < |f.rows| && SameTask(f.rows[k], f.rows[j]) ensures !Open(f.rows[j]) {
      StampedTask(f.rows[k], issue);
      IssueIsTask(f.rows[j], issue);
      assert f.rows[k].fence < f.rows[j].fence;
    }
  }

  /** A row that an issue selects holds that issue's task, or no resolvable one. */
  lemma StampedTask(r: Row, issue: nat)
    requires IsStamped(r) && ForIssue(r, issue) && Resolves(r)
    ensures TaskOf(r) == Some(issue)
  {
  }

  lemma ExtensionKeeps(f: File, c: Command, now: int, t: int)
    requires c.ExtendLease? || (c.Mutate? && c.change.Renew?)
    requires Invariant(f, t) && Safe(f, c, now, t) && Effect(Backfilled(f), c, now).Some?
    ensures Invariant(Effect(Backfilled(f), c, now).value, t)
  {
    if c.Mutate? && (c.token.Some? || c.branch == "") {
      RenewalTarget(f, c.issue, c.token, c.branch);
    }
    ExtendingKeeps(f.rows, Effect(Backfilled(f), c, now).value.rows, t);
  }

  /** What an end command may write: the statuses the command line offers. */
  predicate EndsProperly(c: Command) {
    c.Mutate? && c.change.EndAs? ==> Retired(c.change.status)
  }

  ghost predicate Proper(c: Command) { EndsProperly(c) && TwoDigitIds(c) }

  /** One command, at present time `t`, with a clock read no later than that. */
  lemma CommandKeeps(f: File, c: Command, now: int, pruneNow: int, t: int)
    requires Invariant(f, t) && now <= t && Proper(c) && Safe(f, c, now, t)
    ensures Invariant(After(f, c, now, pruneNow), t)
  {
    if Effect(Backfilled(f), c, now).Some? {
      match c {
        case Checkout(_, _, _, _) => CheckoutKeeps(f, c, now, t);
        case Claim(_, _, _) => ClaimKeeps(f, c, now, t);
        case ClaimNext(_, _, _, _, _) => ClaimKeeps(f, c, now, t);
        case Unclaim(_) => RetirementKeeps(f, c, now, t);
        case Reap(_, _) => RetirementKeeps(f, c, now, t);
        case AutoReap => RetirementKeeps(f, c, now, t);
        case ExtendLease(_, _, _) => ExtensionKeeps(f, c, now, t);
        case Mutate(_, change, _, _) =>
          if change.Renew? {
            ExtensionKeeps(f, c, now, t);
          } else {
            RetirementKeeps(f, c, now, t);
          }
      }
      var g := Effect(Backfilled(f), c, now).value;
      PrunedOrderly(g.rows, pruneNow);
      PruningMattersNot(g.rows, pruneNow, t);
    }
  }

  // ----- whole runs

  /** A command in lock order: `now` is the clock it read before waiting for the lock, `at` the
      time at which it held the lock, `pruneNow` whatever clock the pruning read. */
  datatype Event = Event(command: Command, now: int, at: int, pruneNow: int)

  ghost function Run(f: File, es: seq<Event>): File {
    if es == [] then f
    else
      var e := es[|es| - 1];
      After(Run(f, es[..|es| - 1]), e.command, e.now, e.pruneNow)
  }

  /** The time of the last event, or `start`. */
  function End(start: int, es: seq<Event>): int { if es == [] then start else es[|es| - 1].at }

  /** Lock times do not decrease, clocks were read no later, and extensions meet the side
      condition. The clocks themselves need not be in order. */
  ghost predicate Lawful(f: File, start: int, es: seq<Event>) {
    es == []
    || (var front, e := es[..|es| - 1], es[|es| - 1];
        && Lawful(f, start, front)
        && End(start, front) <= e.at && e.now <= e.at
        && Proper(e.command) && Safe(Run(f, front), e.command, e.now, e.at))
  }

  lemma {:induction false} RunKeeps(f: File, start: int, es: seq<Event>)
    requires Invariant(f, start) && Lawful(f, start, es)
    ensures Invariant(Run(f, es), End(start, es)) && start <= End(start, es)
  {
    if es != [] {
      var front, e := es[..|es| - 1], es[|es| - 1];
      RunKeeps(f, start, front);
      LiveIsLastExcludes(Run(f, front).rows, End(start, front), e.at);
      CommandKeeps(Run(f, front), e.command, e.now, e.pruneNow, e.at);
    }
  }

  /** At every present time, after any run, at most one lease is live per task. */
  lemma MutualExclusion(f: File, start: int, es: seq<Event>, present: int)
    requires Invariant(f, start) && Lawful(f, start, es) && End(start, es) <= present
    ensures Exclusive(Run(f, es).rows, present)
  {
    RunKeeps(f, start, es);
    LiveIsLastExcludes(Run(f, es).rows, End(start, es), present);
  }

  // ----- the side condition is exactly right

  /** `c` extends rows, its new expiry lies past the present, and row `k` is among them. */
  ghost predicate Reaches(f: File, c: Command, now: int, t: int, k: nat)
    requires k < |f.rows|
  {
    || (c.ExtendLease? && c.due && now + c.duration > t && Matches(c.selector, now, f.rows[k]))
    || (c.Mutate? && c.change.Renew? && c.token.None? && c.branch != "" && now + c.change.duration > t
        && Target(f.rows, c.issue, None, c.branch) == Some(k))
  }

  /** The extension itself: `k` becomes live, every other row keeps its status and task. */
  lemma ReachedRow(f: File, c: Command, now: int, t: int, k: nat, j: nat)
    requires k < |f.rows| && j < |f.rows| && Reaches(f, c, now, t, k) && Open(f.rows[k])
    requires Effect(Backfilled(f), c, now).Some?
    ensures var rows := Effect(Backfilled(f), c, now).value.rows;
      && |rows| == |f.rows| && IsLive(rows[k], t) && Open(rows[j]) == Open(f.rows[j])
      && TaskOf(rows[j]) == TaskOf(f.rows[j]) && Resolves(rows[j]) == Resolves(f.rows[j])
      && TaskOf(rows[k]) == TaskOf(f.rows[k]) && Resolves(rows[k]) == Resolves(f.rows[k])
  {
  }

  lemma ReachedIsOpen(f: File, c: Command, now: int, t: int, k: nat)
    requires k < |f.rows| && Reaches(f, c, now, t, k)
    ensures Open(f.rows[k]) && Effect(Backfilled(f), c, now).Some?
  {
  }

  lemma UnsafeExtensionLosesIt(f: File, c: Command, now: int, pruneNow: int, t: int, k: nat)
    requires k < |f.rows| && Reaches(f, c, now, t, k) && !SafeToExtend(f.rows, k, t)
    ensures !LiveIsLast(After(f, c, now, pruneNow).rows, t)
  {
    ReachedIsOpen(f, c, now, t, k);
    var j :| k < j < |f.rows| && SameTask(f.rows[k], f.rows[j]) && Open(f.rows[j]);
    ReachedRow(f, c, now, t, k, j);
    PruningMattersNot(Effect(Backfilled(f), c, now).value.rows, pruneNow, t);
  }

  /** A heartbeat or a branch-only renewal that reaches past the present keeps the invariant
      exactly when every row it extends is still live or the last open row of its task. */
  lemma SafeIsExact(f: File, c: Command, now: int, pruneNow: int, t: int)
    requires Invariant(f, t) && now <= t
    requires c.ExtendLease? || (c.Mutate? && c.change.Renew? && c.token.None? && c.branch != "")
    requires now + (if c.ExtendLease? then c.duration else c.change.duration) > t
    ensures Invariant(After(f, c, now, pruneNow), t) <==> Safe(f, c, now, t)
  {
    if Safe(f, c, now, t) {
      CommandKeeps(f, c, now, pruneNow, t);
    } else {
      var k :| 0 <= k < |f.rows| && !SafeToExtend(f.rows, k, t) && Reaches(f, c, now, t, k);
      UnsafeExtensionLosesIt(f, c, now, pruneNow, t, k);
    }
  }

  /** Once the invariant is lost, one plain renewal of the task makes two leases live at once.
      Below 10 an issue number also selects rows whose id does not resolve; there must be none. */
  lemma LostInvariantBreaksExclusion(f: File, t: int, k: nat, j: nat, now: int, pruneNow: int, duration: int)
    requires Orderly(f.rows) && k < j < |f.rows|
    requires SameTask(f.rows[k], f.rows[j]) && Open(f.rows[j]) && IsLive(f.rows[k], t)
    requires TaskOf(f.rows[k]).value >= 10
          || forall i :: 0 <= i < |f.rows| && ForIssue(f.rows[i], TaskOf(f.rows[k]).value) ==> Resolves(f.rows[i])
    requires now + duration > t
    ensures !Exclusive(After(f, Mutate(TaskOf(f.rows[k]).value, Renew(duration), None, ""), now, pruneNow).rows, t)
  {
    var issue := TaskOf(f.rows[k]).value;
    var c := Mutate(issue, Renew(duration), None, "");
    IssueIsTask(f.rows[j], issue);
    var m := LastIndex(f.rows, OpenOnBranch(issue, "")).value;
    assert j <= m;
    var g := Effect(Backfilled(f), c, now).value;
    IssueIsTask(f.rows[m], issue);
    StampedTask(f.rows[m], issue);
    assert IsLive(g.rows[k], t) && IsLive(g.rows[m], t) && SameTask(g.rows[k], g.rows[m]);
    var k', m' := FilterFinds(g.rows, IsOpen(), k, m);
    PruningKeepsOpenRows(g.rows, pruneNow);
    var k'', m'' := FilterPositions(Pruned(g.rows, pruneNow), IsOpen(), k', m');
  }
}
