/** Merges with nothing to resolve: two disjoint documents, and a document with its own past. */
module PlainMerges {
  import opened Seqs
  import opened Tasks
  import opened Placement
  import opened Converge
  import opened Merge

  lemma {:induction false} IdOrderIs(ts: seq<Task>)
    requires UniqueIds(ts)
    ensures |IdOrder(ts)| == |ts| && forall i :: 0 <= i < |ts| ==> IdOrder(ts)[i] == ts[i].id
  {
    if ts != [] {
      var front := ts[..|ts| - 1];
      IdOrderIs(front);
      ByIdHolds(front);
      forall t | t in front ensures t.id != ts[|ts| - 1].id {
        var i :| 0 <= i < |front| && front[i] == t;
        assert ts[i].id != ts[|ts| - 1].id;
      }
    }
  }

  lemma IndexedAt(ts: seq<Task>, i: nat)
    requires UniqueIds(ts) && i < |ts|
    ensures ts[i].id in ById(ts) && ById(ts)[ts[i].id] == ts[i]
  {
    ByIdFinds(ts, ts[i]);
  }

  ghost predicate NoClones(ts: seq<Task>) {
    forall i, j :: 0 <= i < j < |ts| ==> !Clones(ts[i], ts[j])
  }

  lemma NoClonesNoFold(ts: seq<Task>)
    requires NoClones(ts) && UniqueIds(ts)
    ensures Folded(ts) == ts
  {
    forall t | t in ts ensures !HasClone(ts, t) {
      if HasClone(ts, t) {
        var u :| u in ts && Clones(u, t) && u.id != t.id;
        ClonesAt(ts, u, t);
      }
    }
    FoldedFixed(ts, |ts|);
    assert ts[..|ts|] == ts;
  }

  lemma ClonesAt(ts: seq<Task>, u: Task, t: Task)
    requires NoClones(ts) && u in ts && t in ts && Clones(u, t)
    ensures u == t
  {
    var i :| 0 <= i < |ts| && ts[i] == u;
    var j :| 0 <= j < |ts| && ts[j] == t;
    assert Clones(t, u);
    assert i == j;
  }

  lemma OnlyPrimary(a: Doc, b: Doc, ts: seq<Task>)
    requires |LiveOrder(a, b)| == |ts|
    requires forall i :: 0 <= i < |ts| ==>
      LiveOrder(a, b)[i] in LiveOrder(a, b) && Kept(ById(a.tasks), ById(b.tasks), LiveOrder(a, b)[i]) == ts[i]
    requires forall n :: n in LiveOrder(a, b) ==> !Collides(ById(a.tasks), ById(b.tasks), n)
    ensures Placed(a, b) == ts
  {
    var live := LiveOrder(a, b);
    PrimaryAt(ById(a.tasks), ById(b.tasks), live);
    FilterNone(live, Colliding(ById(a.tasks), ById(b.tasks)));
    assert Primary(ById(a.tasks), ById(b.tasks), live) == ts;
  }

  // ----- two disjoint documents

  lemma DisjointOrder(a: Doc, b: Doc)
    requires UniqueIds(a.tasks) && UniqueIds(b.tasks) && Ids(a.tasks) !! Ids(b.tasks)
    requires Ids(a.tasks) + Ids(b.tasks) !! Tombstones(a, b)
    ensures LiveOrder(a, b) == IdOrder(a.tasks) + IdOrder(b.tasks)
  {
    ByIdHolds(a.tasks);
    ByIdHolds(b.tasks);
    IdOrderHolds(a.tasks);
    IdOrderHolds(b.tasks);
    FilterAll(IdOrder(b.tasks), OutsideSet(ById(a.tasks).Keys));
    FilterAll(Order(a, b), OutsideSet(Tombstones(a, b)));
  }

  lemma DisjointKept(a: Doc, b: Doc, i: nat)
    requires UniqueIds(a.tasks) && UniqueIds(b.tasks) && Ids(a.tasks) !! Ids(b.tasks)
    requires i < |a.tasks + b.tasks|
    ensures var t, sa, sb := (a.tasks + b.tasks)[i], ById(a.tasks), ById(b.tasks);
      (t.id in sa || t.id in sb) && Kept(sa, sb, t.id) == t && !Collides(sa, sb, t.id)
  {
    ByIdHolds(a.tasks);
    ByIdHolds(b.tasks);
    if i < |a.tasks| {
      IndexedAt(a.tasks, i);
      assert a.tasks[i] in a.tasks;
    } else {
      IndexedAt(b.tasks, i - |a.tasks|);
      assert b.tasks[i - |a.tasks|] in b.tasks;
    }
  }

  /** Documents that share no id and no logical task are put one after the other, ours first. */
  lemma DisjointMergeAppends(a: Doc, b: Doc)
    requires UniqueIds(a.tasks) && UniqueIds(b.tasks) && Ids(a.tasks) !! Ids(b.tasks)
    requires Ids(a.tasks) + Ids(b.tasks) !! a.archivedIds + b.archivedIds && NoClones(a.tasks + b.tasks)
    ensures MergeDocs(a, b).tasks == a.tasks + b.tasks && MergeDocs(a, b).archivedIds == a.archivedIds + b.archivedIds
  {
    var ts, live := a.tasks + b.tasks, LiveOrder(a, b);
    DisjointOrder(a, b);
    IdOrderIs(a.tasks);
    IdOrderIs(b.tasks);
    forall i | 0 <= i < |ts|
      ensures live[i] in live && live[i] == ts[i].id && Kept(ById(a.tasks), ById(b.tasks), live[i]) == ts[i]
      ensures !Collides(ById(a.tasks), ById(b.tasks), live[i])
    {
      DisjointKept(a, b, i);
    }
    OnlyPrimary(a, b, ts);
    PlacedIds(a, b);
    NoClonesNoFold(ts);
  }

  // ----- a document and its own past

  /** `t` is `s`, or an earlier copy of it: `s` is finished and `t` is not, or neither or both are
      and `s` has the higher revision, or the same revision and a later update. */
  predicate IsPast(t: Task, s: Task) {
    t.id == s.id && t.createdAt == s.createdAt
    && (|| t == s
        || (s.state in {Done, Archived} && t.state !in {Done, Archived})
        || ((s.state in {Done, Archived} <==> t.state in {Done, Archived})
            && (t.revision < s.revision || (t.revision == s.revision && t.updatedAt < s.updatedAt))))
  }

  ghost predicate IsKnown(t: Task, ts: seq<Task>) { exists s :: s in ts && IsPast(t, s) }

  /** Every record and tombstone of `b` is one of `a` or an earlier copy. */
  ghost predicate IsPastDoc(b: Doc, a: Doc) {
    (forall t :: t in b.tasks ==> IsKnown(t, a.tasks))
    && b.archivedIds <= a.archivedIds && b.version <= a.version && b.updatedAt <= a.updatedAt
  }

  lemma PastKept(a: Doc, b: Doc, s: Task)
    requires UniqueIds(a.tasks) && UniqueIds(b.tasks) && s in a.tasks && IsPastDoc(b, a)
    ensures var sa, sb := ById(a.tasks), ById(b.tasks);
      s.id in sa && Kept(sa, sb, s.id) == s && !Collides(sa, sb, s.id)
  {
    ByIdFinds(a.tasks, s);
    if s.id in ById(b.tasks) {
      ByIdAt(b.tasks, s.id);
      var t := ById(b.tasks)[s.id];
      assert IsKnown(t, a.tasks);
      var s' :| s' in a.tasks && IsPast(t, s');
      SameIdSameTask(a.tasks, s, s');
    }
  }

  lemma PastOrder(a: Doc, b: Doc)
    requires UniqueIds(a.tasks) && IsPastDoc(b, a) && Ids(a.tasks) !! a.archivedIds
    ensures LiveOrder(a, b) == IdOrder(a.tasks)
  {
    ByIdHolds(a.tasks);
    ByIdHolds(b.tasks);
    IdOrderHolds(a.tasks);
    IdOrderHolds(b.tasks);
    FilterNone(IdOrder(b.tasks), OutsideSet(ById(a.tasks).Keys));
    assert Tombstones(a, b) == a.archivedIds && Order(a, b) == IdOrder(a.tasks);
    FilterAll(Order(a, b), OutsideSet(Tombstones(a, b)));
  }

  lemma PastPlaced(a: Doc, b: Doc)
    requires UniqueIds(a.tasks) && UniqueIds(b.tasks) && Ids(a.tasks) !! a.archivedIds && IsPastDoc(b, a)
    ensures Placed(a, b) == a.tasks
  {
    var live := LiveOrder(a, b);
    PastOrder(a, b);
    IdOrderIs(a.tasks);
    forall i | 0 <= i < |a.tasks|
      ensures live[i] in live && live[i] == a.tasks[i].id && Kept(ById(a.tasks), ById(b.tasks), live[i]) == a.tasks[i]
      ensures !Collides(ById(a.tasks), ById(b.tasks), live[i])
    {
      PastKept(a, b, a.tasks[i]);
    }
    OnlyPrimary(a, b, a.tasks);
  }

  /** Merging a document with its own past, itself included, changes nothing. */
  lemma PastChangesNothing(a: Doc, b: Doc)
    requires UniqueIds(a.tasks) && UniqueIds(b.tasks) && Ids(a.tasks) !! a.archivedIds && NoClones(a.tasks)
    requires IsPastDoc(b, a)
    ensures MergeDocs(a, b) == a
  {
    PastPlaced(a, b);
    NoClonesNoFold(a.tasks);
    assert a.archivedIds + b.archivedIds == a.archivedIds;
  }
}
