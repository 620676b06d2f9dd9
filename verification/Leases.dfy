/** Lease rows, the lease file's contents, and what makes a lease live. */
module Leases {
  import opened Seqs

  datatype Status =
    | CheckedOut | Done | Released | Blocked | Expired | Stolen
    | OtherStatus(name: string)

  /** The retiring events. Anything else, known or not, has not been retired. */
  predicate Retired(s: Status) { s in {Done, Released, Blocked, Expired, Stolen} }

  /** A task id as the fixed task list spells it: its number, and whether one digit is all there
      is. `#5` is short; `#005` and `#12` are not. */
  datatype Spelling = Spelling(number: nat, short: bool)

  type Id = i: Spelling | i.short ==> i.number < 10 witness Spelling(0, true)

  /** A lower-cased claim label: the id it embeds, if any, and the task whose title it is, if any.
      It names the embedded id before the title's task. */
  datatype Label = Label(text: string, embedded: Option<Id>, titled: Option<Id>) {
    function Names(): Option<Id> { if embedded.Some? then embedded else titled }
  }

  /** Times are seconds. `ownCounter` is the row's own `fenceCounter` key, 0 when absent. */
  datatype Row = Row(
    issue: Option<nat>,
    taskId: Option<Id>,
    title: Label,
    claimId: string,
    agent: string,
    session: string,
    status: Status,
    branch: string,
    worktree: string,
    fence: nat,
    ownCounter: nat,
    startedAt: int,
    expires: int,
    renewedAt: int,
    endedAt: Option<int>)

  datatype File = File(rows: seq<Row>, counter: nat)

  predicate Open(r: Row) { !Retired(r.status) }

  predicate IsLive(r: Row, now: int) { Open(r) && r.expires > now }

  /** The id pattern needs two digits, leading zeros included; a short id resolves to nothing. */
  function Resolve(id: Id): Option<Id> { if id.short then None else Some(id) }

  /** An issue number is printed without leading zeros. */
  function IssueId(issue: nat): Option<Id> { if issue >= 10 then Some(Spelling(issue, false)) else None }

  function NumberOf(id: Option<Id>): Option<nat> { if id.Some? then Some(id.value.number) else None }

  /** The task a row holds: its stored id, else its issue number, else what its title names. */
  function TaskOf(r: Row): Option<nat> {
    NumberOf(if r.taskId.Some? then Resolve(r.taskId.value)
             else if r.issue.Some? then IssueId(r.issue.value)
             else r.title.Names())
  }

  /** Rows that an issue number selects, whatever the spelling of their stored id. */
  predicate ForIssue(r: Row, issue: nat) {
    if r.issue.Some? then r.issue.value == issue else NumberOf(r.taskId) == Some(issue)
  }

  ghost function Tokens(rows: seq<Row>): set<nat> { set r | r in rows :: r.fence }

  /** Loading raises a counter that lags its rows. */
  ghost function Backfilled(f: File): File {
    f.(counter := if MaxId(Tokens(f.rows)) > f.counter then MaxId(Tokens(f.rows)) else f.counter)
  }

  ghost predicate TokensIncrease(rows: seq<Row>) {
    forall i, j :: 0 <= i < j < |rows| ==> rows[i].fence < rows[j].fence
  }

  /** The row holds a task by an id with the two digits that the id pattern needs. */
  predicate Resolves(r: Row) {
    TaskOf(r).Some? && (r.taskId.Some? || r.issue.Some? || !r.title.Names().value.short)
  }

  /** Both rows hold one task, by ids that resolve. */
  predicate SameTask(r: Row, s: Row) { Resolves(r) && Resolves(s) && TaskOf(r) == TaskOf(s) }

  /** At most one live row per task. */
  ghost predicate Exclusive(rows: seq<Row>, now: int) {
    forall i, j :: 0 <= i < j < |rows| && IsLive(rows[i], now) && IsLive(rows[j], now) ==>
      !SameTask(rows[i], rows[j])
  }
}
