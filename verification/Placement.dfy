/** First half of the task merge: every id that neither side has tombstoned keeps one record,
    and a record that lost its id to a different task moves to a fresh one. */
module Placement {
  import opened Seqs
  import opened Tasks

  type Side = map<nat, Task>

  /** The same id holds two different tasks: both creation stamps are known and differ. */
  predicate IsCollision(x: Task, y: Task) {
    x.createdAt != 0 && y.createdAt != 0 && x.createdAt != y.createdAt
  }

  predicate Collides(a: Side, b: Side, n: nat) {
    n in a && n in b && IsCollision(a[n], b[n])
  }

  /** The record that stays at id `n`. */
  function Kept(a: Side, b: Side, n: nat): Task
    requires n in a || n in b
  {
    if Collides(a, b, n) then (if a[n].createdAt <= b[n].createdAt then a[n] else b[n])
    else if n !in a then b[n]
    else if n !in b then a[n]
    else Pick(a[n], b[n])
  }

  /** The record that a collision pushes off id `n`. */
  function Displaced(a: Side, b: Side, n: nat): Task
    requires Collides(a, b, n)
  {
    if a[n].createdAt <= b[n].createdAt then b[n] else a[n]
  }

  function Moved(a: Side, b: Side, n: nat, newId: nat): Task
    requires Collides(a, b, n)
  {
    Displaced(a, b, n).(id := newId, renumberedFrom := Some(n))
  }

  function OutsideSet(s: set<nat>): nat -> bool { (n: nat) => n !in s }

  function Colliding(a: Side, b: Side): nat -> bool { (n: nat) => Collides(a, b, n) }

  /** Ids of both sides, ours first. */
  ghost function Order(a: Doc, b: Doc): seq<nat> {
    IdOrder(a.tasks) + Filter(IdOrder(b.tasks), OutsideSet(ById(a.tasks).Keys))
  }

  ghost function Tombstones(a: Doc, b: Doc): set<nat> { a.archivedIds + b.archivedIds }

  ghost function LiveOrder(a: Doc, b: Doc): (r: seq<nat>)
    ensures forall n :: n in r <==> (n in ById(a.tasks) || n in ById(b.tasks)) && n !in Tombstones(a, b)
  {
    IdOrderHolds(a.tasks);
    IdOrderHolds(b.tasks);
    FilterMembers(IdOrder(b.tasks), OutsideSet(ById(a.tasks).Keys));
    FilterMembers(Order(a, b), OutsideSet(Tombstones(a, b)));
    Filter(Order(a, b), OutsideSet(Tombstones(a, b)))
  }

  /** Every id a fresh number has to clear: both sides' active ids and every tombstone. */
  ghost function TakenIds(a: Doc, b: Doc): set<nat> {
    ById(a.tasks).Keys + ById(b.tasks).Keys + Tombstones(a, b)
  }

  ghost function Primary(a: Side, b: Side, live: seq<nat>): seq<Task>
    requires forall n :: n in live ==> n in a || n in b
  {
    if live == [] then []
    else
      assert live[|live| - 1] in live;
      Primary(a, b, live[..|live| - 1]) + [Kept(a, b, live[|live| - 1])]
  }

  lemma {:induction false} PrimaryAt(a: Side, b: Side, live: seq<nat>)
    requires forall n :: n in live ==> n in a || n in b
    ensures |Primary(a, b, live)| == |live|
    ensures forall i :: 0 <= i < |live| ==> Primary(a, b, live)[i] == Kept(a, b, live[i])
  {
    if live != [] {
      PrimaryAt(a, b, live[..|live| - 1]);
    }
  }

  lemma PrimarySnoc(a: Side, b: Side, live: seq<nat>, n: nat)
    requires forall m :: m in live ==> m in a || m in b
    requires n in a || n in b
    ensures Primary(a, b, live + [n]) == Primary(a, b, live) + [Kept(a, b, n)]
  {
    assert (live + [n])[..|live|] == live;
  }

  /** Displaced records take the numbers right above `top`, in the order of their collisions. */
  ghost function Renumbered(a: Side, b: Side, colliding: seq<nat>, top: nat): seq<Task>
    requires forall n :: n in colliding ==> Collides(a, b, n)
  {
    if colliding == [] then []
    else
      var last := |colliding| - 1;
      assert colliding[last] in colliding;
      Renumbered(a, b, colliding[..last], top) + [Moved(a, b, colliding[last], top + 1 + last)]
  }

  lemma {:induction false} RenumberedAt(a: Side, b: Side, colliding: seq<nat>, top: nat)
    requires forall n :: n in colliding ==> Collides(a, b, n)
    ensures |Renumbered(a, b, colliding, top)| == |colliding|
    ensures forall i :: 0 <= i < |colliding| ==>
      Renumbered(a, b, colliding, top)[i] == Moved(a, b, colliding[i], top + 1 + i)
  {
    if colliding != [] {
      RenumberedAt(a, b, colliding[..|colliding| - 1], top);
    }
  }

  lemma RenumberedSnoc(a: Side, b: Side, colliding: seq<nat>, top: nat, n: nat)
    requires forall m :: m in colliding ==> Collides(a, b, m)
    requires Collides(a, b, n)
    ensures Renumbered(a, b, colliding + [n], top)
         == Renumbered(a, b, colliding, top) + [Moved(a, b, n, top + 1 + |colliding|)]
  {
    assert (colliding + [n])[..|colliding|] == colliding;
  }

  ghost function CollisionOrder(a: Doc, b: Doc): (r: seq<nat>)
    ensures forall n :: n in r <==> n !in Tombstones(a, b) && Collides(ById(a.tasks), ById(b.tasks), n)
  {
    FilterMembers(LiveOrder(a, b), Colliding(ById(a.tasks), ById(b.tasks)));
    Filter(LiveOrder(a, b), Colliding(ById(a.tasks), ById(b.tasks)))
  }

  ghost function Placed(a: Doc, b: Doc): seq<Task> {
    Primary(ById(a.tasks), ById(b.tasks), LiveOrder(a, b))
    + Renumbered(ById(a.tasks), ById(b.tasks), CollisionOrder(a, b), MaxId(TakenIds(a, b)))
  }

  lemma LiveOrderDistinct(a: Doc, b: Doc)
    ensures Distinct(LiveOrder(a, b)) && Distinct(CollisionOrder(a, b))
  {
    IdOrderDistinct(a.tasks);
    IdOrderDistinct(b.tasks);
    IdOrderHolds(a.tasks);
    FilterMembers(IdOrder(b.tasks), OutsideSet(ById(a.tasks).Keys));
    FilterDistinct(IdOrder(b.tasks), OutsideSet(ById(a.tasks).Keys));
    var order := Order(a, b);
    forall i, j | 0 <= i < j < |order| ensures order[i] != order[j] {
      if i < |IdOrder(a.tasks)| <= j {
        assert order[i] in IdOrder(a.tasks);
        assert order[j] in Filter(IdOrder(b.tasks), OutsideSet(ById(a.tasks).Keys));
      }
    }
    FilterDistinct(order, OutsideSet(Tombstones(a, b)));
    FilterDistinct(LiveOrder(a, b), Colliding(ById(a.tasks), ById(b.tasks)));
  }

  /** No two placed records share an id, and none sits on a tombstone. */
  lemma PlacedIds(a: Doc, b: Doc)
    ensures UniqueIds(Placed(a, b))
    ensures Ids(Placed(a, b)) !! Tombstones(a, b)
  {
    LiveOrderDistinct(a, b);
    ByIdHolds(a.tasks);
    ByIdHolds(b.tasks);
    var live, top := LiveOrder(a, b), MaxId(TakenIds(a, b));
    assert forall n :: n in live ==> n in TakenIds(a, b);
    DistinctPlacement(ById(a.tasks), ById(b.tasks), live, CollisionOrder(a, b), top);
  }

  lemma DistinctPlacement(a: Side, b: Side, live: seq<nat>, colls: seq<nat>, top: nat)
    requires forall n :: n in a ==> a[n].id == n
    requires forall n :: n in b ==> b[n].id == n
    requires forall n :: n in live ==> (n in a || n in b) && n <= top
    requires forall n :: n in colls ==> Collides(a, b, n)
    requires Distinct(live)
    ensures UniqueIds(Primary(a, b, live) + Renumbered(a, b, colls, top))
    ensures forall p :: p in Primary(a, b, live) + Renumbered(a, b, colls, top) ==> p.id in live || p.id > top
  {
    var prim, ren := Primary(a, b, live), Renumbered(a, b, colls, top);
    PrimaryAt(a, b, live);
    RenumberedAt(a, b, colls, top);
    forall i | 0 <= i < |prim| ensures prim[i].id == live[i] && live[i] in live {
    }
    forall i | 0 <= i < |ren| ensures ren[i].id == top + 1 + i {
    }
  }

  /** Where a placed record comes from: it was kept at its id, or displaced from id `n`. */
  ghost predicate ComesFrom(a: Doc, b: Doc, p: Task, n: nat) {
    var sa, sb := ById(a.tasks), ById(b.tasks);
    && n in LiveOrder(a, b)
    && (n in sa || n in sb)
    && (|| p == Kept(sa, sb, n)
        || (Collides(sa, sb, n) && p == Moved(sa, sb, n, p.id) && p.id !in TakenIds(a, b)))
  }

  lemma OriginOf(a: Side, b: Side, live: seq<nat>, colls: seq<nat>, top: nat, p: Task) returns (n: nat)
    requires forall m :: m in live ==> m in a || m in b
    requires forall m :: m in colls ==> Collides(a, b, m)
    requires p in Primary(a, b, live) + Renumbered(a, b, colls, top)
    ensures || (n in live && p == Kept(a, b, n))
            || (n in colls && p.id > top && p == Moved(a, b, n, p.id))
  {
    PrimaryAt(a, b, live);
    RenumberedAt(a, b, colls, top);
    if p in Primary(a, b, live) {
      var i :| 0 <= i < |live| && Primary(a, b, live)[i] == p;
      n := live[i];
    } else {
      assert p in Renumbered(a, b, colls, top);
      var i :| 0 <= i < |colls| && Renumbered(a, b, colls, top)[i] == p;
      n := colls[i];
    }
  }

  lemma PlacedOrigin(a: Doc, b: Doc, p: Task) returns (n: nat)
    requires p in Placed(a, b)
    ensures ComesFrom(a, b, p, n)
  {
    n := OriginOf(ById(a.tasks), ById(b.tasks), LiveOrder(a, b), CollisionOrder(a, b), MaxId(TakenIds(a, b)), p);
  }

  lemma KeptIsPlaced(a: Doc, b: Doc, n: nat)
    requires n in LiveOrder(a, b)
    ensures Kept(ById(a.tasks), ById(b.tasks), n) in Placed(a, b)
  {
    var live := LiveOrder(a, b);
    var kept := Primary(ById(a.tasks), ById(b.tasks), live);
    PrimaryAt(ById(a.tasks), ById(b.tasks), live);
    var i :| 0 <= i < |live| && live[i] == n;
    assert kept[i] in kept;
  }

  lemma KeptSource(a: Doc, b: Doc, n: nat)
    requires n in LiveOrder(a, b)
    ensures var t := Kept(ById(a.tasks), ById(b.tasks), n); t.id == n && (t in a.tasks || t in b.tasks)
  {
    ByIdHolds(a.tasks);
    ByIdHolds(b.tasks);
  }

  /** The only placed record at an id that was in use is the one kept there. */
  lemma PlacedAtOldId(a: Doc, b: Doc, p: Task)
    requires p in Placed(a, b) && p.id in TakenIds(a, b)
    ensures p.id in LiveOrder(a, b) && p == Kept(ById(a.tasks), ById(b.tasks), p.id)
  {
    var n := PlacedOrigin(a, b, p);
    KeptSource(a, b, n);
  }

  lemma DisplacedIsPlaced(a: Doc, b: Doc, n: nat) returns (p: Task)
    requires n in CollisionOrder(a, b)
    ensures p in Placed(a, b) && p == Moved(ById(a.tasks), ById(b.tasks), n, p.id)
    ensures p.renumberedFrom == Some(n) && p.id !in TakenIds(a, b)
    ensures p.(id := n, renumberedFrom := None) in {ById(a.tasks)[n].(id := n, renumberedFrom := None),
                                                    ById(b.tasks)[n].(id := n, renumberedFrom := None)}
  {
    var colls := CollisionOrder(a, b);
    var i :| 0 <= i < |colls| && colls[i] == n;
    var moved := Renumbered(ById(a.tasks), ById(b.tasks), colls, MaxId(TakenIds(a, b)));
    RenumberedAt(ById(a.tasks), ById(b.tasks), colls, MaxId(TakenIds(a, b)));
    p := moved[i];
    assert p in moved;
  }

  /** One more than the largest id in use. */
  method NextFreeId(existing: set<nat>) returns (n: nat)
    ensures n == MaxId(existing) + 1
  {
    var top := LargestId(existing);
    n := top + 1;
  }

  /** Append to `first` the ids of `second` that `seen` does not hold. */
  method AppendUnseen(first: seq<nat>, second: seq<nat>, seen: set<nat>) returns (order: seq<nat>)
    ensures order == first + Filter(second, OutsideSet(seen))
  {
    order := first;
    for j := 0 to |second|
      invariant order == first + Filter(second[..j], OutsideSet(seen))
    {
      FilterStep(second, j, OutsideSet(seen));
      if second[j] !in seen {
        order := order + [second[j]];
      }
    }
    assert second[..|second|] == second;
  }

  method PlaceTasks(a: Doc, b: Doc) returns (primary: seq<Task>, renumbered: seq<Task>)
    ensures primary + renumbered == Placed(a, b)
  {
    var oi, oOrder := IndexById(a.tasks);
    var ti, tOrder := IndexById(b.tasks);
    var order := AppendUnseen(oOrder, tOrder, oi.Keys);
    FilterMembers(tOrder, OutsideSet(oi.Keys));
    IdOrderHolds(a.tasks);
    IdOrderHolds(b.tasks);
    var archived := a.archivedIds + b.archivedIds;
    var existing := oi.Keys + ti.Keys + archived;
    primary, renumbered := PlaceLoop(oi, ti, order, archived, existing);
  }

  /** The copy that stays at `tid`, and the different task it pushes away, if any: of two different
      tasks the earlier-created stays and the other moves; of two copies the more progressed stays. */
  method SettleId(oi: Side, ti: Side, tid: nat) returns (keep: Task, move: Option<Task>)
    requires tid in oi || tid in ti
    ensures keep == Kept(oi, ti, tid)
    ensures move == if Collides(oi, ti, tid) then Some(Displaced(oi, ti, tid)) else None
    ensures move.Some? ==>
      tid in oi && tid in ti && multiset{keep, move.value} == multiset{oi[tid], ti[tid]}
      && 0 < keep.createdAt < move.value.createdAt
    ensures move.None? && tid in oi && tid in ti ==>
      keep in {oi[tid], ti[tid]} && RankLe(oi[tid], keep) && RankLe(ti[tid], keep)
  {
    move := None;
    if tid in oi && tid in ti && IsCollision(oi[tid], ti[tid]) {
      if oi[tid].createdAt <= ti[tid].createdAt {
        keep, move := oi[tid], Some(ti[tid]);
      } else {
        keep, move := ti[tid], Some(oi[tid]);
      }
    } else if tid !in oi {
      keep := ti[tid];
    } else if tid !in ti {
      keep := oi[tid];
    } else {
      keep := Pick(oi[tid], ti[tid]);
    }
  }

  /** Give a displaced record the next free number and mark that number as taken. */
  method Renumber(existing: set<nat>, renumbered: seq<Task>, move: Task,
                  ghost oi: Side, ghost ti: Side, tid: nat, ghost colls: seq<nat>, ghost top: nat)
    returns (existing': set<nat>, renumbered': seq<Task>)
    requires forall n :: n in colls ==> Collides(oi, ti, n)
    requires Collides(oi, ti, tid) && move == Displaced(oi, ti, tid)
    requires renumbered == Renumbered(oi, ti, colls, top)
    requires MaxId(existing) == top + |colls|
    ensures renumbered' == Renumbered(oi, ti, colls + [tid], top)
    ensures MaxId(existing') == top + 1 + |colls|
  {
    RenumberedSnoc(oi, ti, colls, top, tid);
    var newId := NextFreeId(existing);
    MaxIdIs(existing + {newId}, newId);
    existing' := existing + {newId};
    renumbered' := renumbered + [move.(id := newId, renumberedFrom := Some(tid))];
  }

  /** The loop over both sides' ids, with `existing` growing by every fresh number it hands out. */
  method PlaceLoop(oi: Side, ti: Side, order: seq<nat>, archived: set<nat>, taken: set<nat>)
    returns (primary: seq<Task>, renumbered: seq<Task>)
    requires forall n :: n in order ==> n in oi || n in ti
    ensures var live := Filter(order, OutsideSet(archived));
            && (forall n :: n in live ==> n in oi || n in ti)
            && (forall n :: n in Filter(live, Colliding(oi, ti)) ==> Collides(oi, ti, n))
            && primary == Primary(oi, ti, live)
            && renumbered == Renumbered(oi, ti, Filter(live, Colliding(oi, ti)), MaxId(taken))
  {
    var existing := taken;
    ghost var isLive, hits, top := OutsideSet(archived), Colliding(oi, ti), MaxId(taken);
    ghost var live: seq<nat>, colls: seq<nat> := [], [];
    primary, renumbered := [], [];
    for i := 0 to |order|
      invariant live == Filter(order[..i], isLive)
      invariant forall n :: n in live ==> n in oi || n in ti
      invariant forall n :: n in colls ==> Collides(oi, ti, n)
      invariant primary == Primary(oi, ti, live)
      invariant colls == Filter(live, hits)
      invariant renumbered == Renumbered(oi, ti, colls, top)
      invariant MaxId(existing) == top + |colls|
    {
      var tid := order[i];
      FilterStep(order, i, isLive);
      if tid !in archived {
        FilterSnoc(live, tid, hits);
        PrimarySnoc(oi, ti, live, tid);
        var keep, move := SettleId(oi, ti, tid);
        live, primary := live + [tid], primary + [keep];
        if move.Some? {
          existing, renumbered := Renumber(existing, renumbered, move.value, oi, ti, tid, colls, top);
          colls := colls + [tid];
        }
      }
    }
    assert order[..|order|] == order;
  }
}
