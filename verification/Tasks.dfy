/** The governed task record, a task document (`tasks.json`) and the choice between two copies
    of one task.

    Ids are the numbers of their `#n` spelling. A missing creation stamp is 0, which like the
    source's empty string is falsy and sorts first; a missing title is the empty string. */
module Tasks {

  import opened Seqs

  datatype State =
    | Queued | InProgress | Done | Archived | Dropped | Moot | Cancelled | Rejected
    | OtherState(name: string)

  /** Fields the merge carries along without reading them. */
  datatype Details = Details(
    prerequisites: seq<nat>,
    otherRefs: seq<nat>,
    project: string,
    milestone: string,
    owner: string,
    priority: nat,
    blocker: string,
    rest: string)

  datatype Task = Task(
    id: nat,
    createdAt: nat,
    title: string,
    state: State,
    revision: int,
    updatedAt: int,
    dedupedFrom: set<nat>,
    renumberedFrom: Option<nat>,
    details: Details)

  datatype Doc = Doc(tasks: seq<Task>, archivedIds: set<nat>, version: int, updatedAt: int)

  type LogicalKey = (nat, string)

  function Key(t: Task): LogicalKey { (t.createdAt, t.title) }

  /** Both fields that identify a logical task are present. */
  predicate IsKeyed(t: Task) { t.createdAt != 0 && t.title != "" }

  ghost function Ids(ts: seq<Task>): set<nat> { set t | t in ts :: t.id }

  ghost function Keys(ts: seq<Task>): set<LogicalKey> { set t | t in ts :: Key(t) }

  ghost function Stamps(ts: seq<Task>): set<nat> { set t | t in ts :: t.createdAt }

  ghost predicate UniqueIds(ts: seq<Task>) {
    forall i, j :: 0 <= i < j < |ts| ==> ts[i].id != ts[j].id
  }

  ghost predicate UniqueStamps(ts: seq<Task>) {
    forall i, j :: 0 <= i < j < |ts| ==> ts[i].createdAt != ts[j].createdAt
  }

  ghost predicate AllKeyed(ts: seq<Task>) {
    forall t :: t in ts ==> IsKeyed(t)
  }

  /** The states that outrank every other one in a merge. */
  predicate Completed(t: Task) { t.state == Done || t.state == Archived }

  /** `y` is at least as progressed as `x`: completion first, then revision, then update time. */
  predicate RankLe(x: Task, y: Task) {
    if Completed(x) != Completed(y) then Completed(y)
    else if x.revision != y.revision then x.revision < y.revision
    else x.updatedAt <= y.updatedAt
  }

  predicate RankTied(x: Task, y: Task) { RankLe(x, y) && RankLe(y, x) }

  /** The copy a merge keeps: a completed one over an open one, then the higher revision, then
      the later update, and the incoming copy `b` on a full tie. */
  function Pick(a: Task, b: Task): (r: Task)
    ensures r == a || r == b
    ensures RankLe(a, r) && RankLe(b, r)
    ensures RankTied(a, b) ==> r == b
    ensures a.state in {Done, Archived} && b.state !in {Done, Archived} ==> r == a
    ensures a.state !in {Done, Archived} && b.state in {Done, Archived} ==> r == b
  {
    if Completed(a) != Completed(b) then (if Completed(a) then a else b)
    else if a.revision != b.revision then (if a.revision > b.revision then a else b)
    else if a.updatedAt > b.updatedAt then a else b
  }

  /** A record without the parts that only say where it sits. */
  function Erase(t: Task): Task {
    t.(id := 0, dedupedFrom := {}, renumberedFrom := None)
  }

  ghost function ErasedSet(ts: seq<Task>): set<Task> { set t | t in ts :: Erase(t) }

  lemma SameIdSameTask(ts: seq<Task>, x: Task, y: Task)
    requires UniqueIds(ts) && x in ts && y in ts && x.id == y.id
    ensures x == y
  {
    var i :| 0 <= i < |ts| && ts[i] == x;
    var j :| 0 <= j < |ts| && ts[j] == y;
  }

  /** Building a dictionary by id: a later record with the same id replaces the earlier one. */
  function ById(ts: seq<Task>): map<nat, Task> {
    if ts == [] then map[] else ById(ts[..|ts| - 1])[ts[|ts| - 1].id := ts[|ts| - 1]]
  }

  /** The dictionary holds a record of `ts` at its own id, for every id of `ts`. */
  lemma {:induction false} ByIdHolds(ts: seq<Task>)
    ensures forall n :: n in ById(ts) ==> ById(ts)[n] in ts && ById(ts)[n].id == n
    ensures forall t :: t in ts ==> t.id in ById(ts)
    ensures ById(ts).Keys == Ids(ts)
  {
    if ts != [] {
      ByIdHolds(ts[..|ts| - 1]);
      assert ts == ts[..|ts| - 1] + [ts[|ts| - 1]];
    }
  }

  lemma ByIdAt(ts: seq<Task>, n: nat)
    requires n in ById(ts)
    ensures ById(ts)[n] in ts && ById(ts)[n].id == n
  {
    ByIdHolds(ts);
  }

  /** The dictionary's keys in insertion order. */
  function IdOrder(ts: seq<Task>): seq<nat> {
    if ts == [] then []
    else
      var last := ts[|ts| - 1];
      var front := IdOrder(ts[..|ts| - 1]);
      if last.id in ById(ts[..|ts| - 1]) then front else front + [last.id]
  }

  lemma {:induction false} IdOrderHolds(ts: seq<Task>)
    ensures forall n :: n in IdOrder(ts) <==> n in ById(ts)
  {
    if ts != [] {
      IdOrderHolds(ts[..|ts| - 1]);
    }
  }

  lemma {:induction false} IdOrderDistinct(ts: seq<Task>)
    ensures forall i, j :: 0 <= i < j < |IdOrder(ts)| ==> IdOrder(ts)[i] != IdOrder(ts)[j]
  {
    if ts != [] {
      IdOrderDistinct(ts[..|ts| - 1]);
      IdOrderHolds(ts[..|ts| - 1]);
    }
  }

  lemma {:induction false} ByIdFinds(ts: seq<Task>, t: Task)
    requires UniqueIds(ts) && t in ts
    ensures t.id in ById(ts) && ById(ts)[t.id] == t
  {
    var last := ts[|ts| - 1];
    if t != last {
      ByIdFinds(ts[..|ts| - 1], t);
      var i :| 0 <= i < |ts| && ts[i] == t;
      assert ts[i].id != ts[|ts| - 1].id;
    }
  }

  method IndexById(ts: seq<Task>) returns (index: map<nat, Task>, order: seq<nat>)
    ensures index == ById(ts) && order == IdOrder(ts)
  {
    index, order := map[], [];
    for i := 0 to |ts|
      invariant index == ById(ts[..i]) && order == IdOrder(ts[..i])
    {
      assert ts[..i + 1][..i] == ts[..i];
      if ts[i].id !in index {
        order := order + [ts[i].id];
      }
      index := index[ts[i].id := ts[i]];
    }
    assert ts[..|ts|] == ts;
  }
}
