/** The task-document merge: place every live record, then fold clones. What it keeps, whatever
    ids move. */
module Merge {
  import opened Seqs
  import opened Tasks
  import opened Placement
  import opened Converge

  function Max(x: int, y: int): int { if x >= y then x else y }

  ghost function MergeDocs(ours: Doc, theirs: Doc): Doc {
    Doc(Folded(Placed(ours, theirs)), Tombstones(ours, theirs),
        Max(ours.version, theirs.version), Max(ours.updatedAt, theirs.updatedAt))
  }

  method MergeTasks(ours: Doc, theirs: Doc) returns (out: Doc)
    ensures out == MergeDocs(ours, theirs)
    ensures ours.version <= out.version && theirs.version <= out.version
    ensures out.version in {ours.version, theirs.version}
    ensures ours.updatedAt <= out.updatedAt && theirs.updatedAt <= out.updatedAt
    ensures out.updatedAt in {ours.updatedAt, theirs.updatedAt}
  {
    var primary, renumbered := PlaceTasks(ours, theirs);
    PlacedIds(ours, theirs);
    var tasks := ConvergeDuplicateTasks(primary + renumbered);
    out := Doc(tasks, ours.archivedIds + theirs.archivedIds,
               Max(ours.version, theirs.version),
               if ours.updatedAt > theirs.updatedAt then ours.updatedAt else theirs.updatedAt);
  }

  /** Distinct ids, and both identifying fields on every record. */
  ghost predicate WellFormed(d: Doc) { UniqueIds(d.tasks) && AllKeyed(d.tasks) }

  /** The content `x` of live id `n` survives placement, at `n` or at a fresh id. */
  ghost predicate Contributes(a: Doc, b: Doc, n: nat, x: Task) {
    var sa, sb := ById(a.tasks), ById(b.tasks);
    && n in LiveOrder(a, b)
    && (n in sa || n in sb)
    && (x == Kept(sa, sb, n) || (Collides(sa, sb, n) && x == Displaced(sa, sb, n)))
  }

  lemma PlacedContent(a: Doc, b: Doc, p: Task) returns (n: nat, x: Task)
    requires p in Placed(a, b)
    ensures Contributes(a, b, n, x) && Erase(p) == Erase(x)
  {
    n := PlacedOrigin(a, b, p);
    var sa, sb := ById(a.tasks), ById(b.tasks);
    x := if p == Kept(sa, sb, n) then p else Displaced(sa, sb, n);
  }

  lemma ContentPlaced(a: Doc, b: Doc, n: nat, x: Task) returns (p: Task)
    requires Contributes(a, b, n, x)
    ensures p in Placed(a, b) && Erase(p) == Erase(x)
  {
    if x == Kept(ById(a.tasks), ById(b.tasks), n) {
      KeptIsPlaced(a, b, n);
      p := x;
    } else {
      p := DisplacedIsPlaced(a, b, n);
    }
  }

  lemma EraseKeeps(x: Task, y: Task)
    requires Erase(x) == Erase(y)
    ensures Key(x) == Key(y) && Completed(x) == Completed(y) && RankTied(x, y)
    ensures forall z :: RankLe(x, z) == RankLe(y, z) && RankLe(z, x) == RankLe(z, y)
  {
    assert x.createdAt == Erase(x).createdAt && x.title == Erase(x).title && x.state == Erase(x).state
        && x.revision == Erase(x).revision && x.updatedAt == Erase(x).updatedAt;
  }

  /** A contributed record comes from one of the sides, at that id. */
  lemma ContributorSource(a: Doc, b: Doc, n: nat, x: Task)
    requires Contributes(a, b, n, x)
    ensures x.id == n && n !in Tombstones(a, b) && (x in a.tasks || x in b.tasks)
  {
    if n in ById(a.tasks) {
      ByIdAt(a.tasks, n);
    }
    if n in ById(b.tasks) {
      ByIdAt(b.tasks, n);
    }
  }

  /** Every live record is represented by a contribution at least as progressed, same stamp. */
  lemma LiveContributes(a: Doc, b: Doc, t: Task) returns (x: Task)
    requires WellFormed(a) && WellFormed(b)
    requires (t in a.tasks || t in b.tasks) && t.id !in Tombstones(a, b)
    ensures Contributes(a, b, t.id, x) && x.createdAt == t.createdAt && RankLe(t, x)
  {
    var sa, sb, n := ById(a.tasks), ById(b.tasks), t.id;
    if t in a.tasks {
      ByIdFinds(a.tasks, t);
    } else {
      ByIdFinds(b.tasks, t);
    }
    x := if Collides(sa, sb, n) then t else Kept(sa, sb, n);
    if n in sa && n in sb {
      ByIdAt(a.tasks, n);
      ByIdAt(b.tasks, n);
      SameRecord(a.tasks, t, n);
      SameRecord(b.tasks, t, n);
    }
  }

  lemma SameRecord(ts: seq<Task>, t: Task, n: nat)
    requires UniqueIds(ts) && n in ById(ts)
    ensures t in ts && t.id == n ==> ById(ts)[n] == t
  {
    if t in ts && t.id == n {
      ByIdFinds(ts, t);
    }
  }

  /** No copy of live work is lost and none loses progress: finished work stays finished, and a
      record that is not newly finished has no lower revision and no earlier update. */
  lemma NothingRegresses(a: Doc, b: Doc, t: Task) returns (r: Task)
    requires WellFormed(a) && WellFormed(b)
    requires (t in a.tasks || t in b.tasks) && t.id !in Tombstones(a, b)
    ensures r in MergeDocs(a, b).tasks && r.createdAt == t.createdAt && RankLe(t, r)
    ensures t.state in {Done, Archived} ==> r.state in {Done, Archived}
    ensures t.state in {Done, Archived} || r.state !in {Done, Archived} ==>
      t.revision < r.revision || (t.revision == r.revision && t.updatedAt <= r.updatedAt)
  {
    var x := LiveContributes(a, b, t);
    var p := ContentPlaced(a, b, t.id, x);
    EraseKeeps(p, x);
    PlacedIds(a, b);
    r := FoldKeepsEveryTask(Placed(a, b), p);
  }

  ghost function LiveStamps(d: Doc, tombstones: set<nat>): set<nat> {
    set t | t in d.tasks && t.id !in tombstones :: t.createdAt
  }

  /** The creation stamps of a merge are exactly those of both sides' tasks whose id is not
      tombstoned; its ids are distinct and clear of the tombstones. */
  lemma NoWorkDropped(a: Doc, b: Doc)
    requires WellFormed(a) && WellFormed(b)
    ensures Stamps(MergeDocs(a, b).tasks) == LiveStamps(a, Tombstones(a, b)) + LiveStamps(b, Tombstones(a, b))
  {
    var m, dead := MergeDocs(a, b).tasks, Tombstones(a, b);
    forall s | s in Stamps(m) ensures s in LiveStamps(a, dead) + LiveStamps(b, dead) {
      var r :| r in m && r.createdAt == s;
      PlacedIds(a, b);
      var p := FoldedSource(Placed(a, b), r);
      var n, x := PlacedContent(a, b, p);
      EraseKeeps(p, x);
      ContributorSource(a, b, n, x);
    }
    forall s | s in LiveStamps(a, dead) + LiveStamps(b, dead) ensures s in Stamps(m) {
      var t :| (t in a.tasks || t in b.tasks) && t.id !in dead && t.createdAt == s;
      var r := NothingRegresses(a, b, t);
    }
  }

  /** Whatever the inputs, a merge has distinct ids, no tombstoned id and no clone. */
  lemma MergeIsConverged(a: Doc, b: Doc)
    ensures var m := MergeDocs(a, b);
            && UniqueIds(m.tasks) && Ids(m.tasks) !! m.archivedIds
            && forall x, y :: x in m.tasks && y in m.tasks && Clones(x, y) ==> x == y
  {
    PlacedIds(a, b);
    FoldedIsConverged(Placed(a, b));
  }

  /** An id that folds away stays on record at the survivor, with everything it had absorbed. */
  lemma FoldsAreRecorded(a: Doc, b: Doc, p: Task) returns (r: Task)
    requires p in Placed(a, b)
    ensures r in MergeDocs(a, b).tasks && Key(r) == Key(p) && RankLe(p, r)
    ensures r.id == p.id || p.id in r.dedupedFrom
    ensures p.dedupedFrom <= r.dedupedFrom
  {
    PlacedIds(a, b);
    r := FoldKeepsEveryTask(Placed(a, b), p);
  }

  /** Well-formedness survives a merge. */
  lemma MergeWellFormed(a: Doc, b: Doc)
    requires AllKeyed(a.tasks) && AllKeyed(b.tasks)
    ensures WellFormed(MergeDocs(a, b))
  {
    MergeIsConverged(a, b);
    forall r | r in MergeDocs(a, b).tasks ensures IsKeyed(r) {
      PlacedIds(a, b);
      var p := FoldedSource(Placed(a, b), r);
      var n, x := PlacedContent(a, b, p);
      EraseKeeps(p, x);
      ContributorSource(a, b, n, x);
    }
  }

  /** The logical tasks of a merge are those placement kept. */
  lemma MergeKeys(a: Doc, b: Doc)
    ensures Keys(MergeDocs(a, b).tasks) == Keys(Placed(a, b))
  {
    var m, ps := MergeDocs(a, b).tasks, Placed(a, b);
    PlacedIds(a, b);
    forall k | k in Keys(m) ensures k in Keys(ps) {
      var r :| r in m && Key(r) == k;
      var t := FoldedSource(ps, r);
    }
    forall k | k in Keys(ps) ensures k in Keys(m) {
      var p :| p in ps && Key(p) == k;
      var r := FoldKeepsEveryTask(ps, p);
    }
  }

  /** A creation stamp of either side is gone after a merge if and only if every record that carries
      it sits at a tombstoned id. */
  lemma StampIsSwallowedExactly(a: Doc, b: Doc, s: nat)
    requires WellFormed(a) && WellFormed(b) && s in Stamps(a.tasks) + Stamps(b.tasks)
    ensures s !in Stamps(MergeDocs(a, b).tasks) <==>
      forall t :: (t in a.tasks || t in b.tasks) && t.createdAt == s ==> t.id in Tombstones(a, b)
  {
    NoWorkDropped(a, b);
    StampIsLive(a, Tombstones(a, b), s);
    StampIsLive(b, Tombstones(a, b), s);
  }

  lemma StampIsLive(d: Doc, dead: set<nat>, s: nat)
    ensures s in LiveStamps(d, dead) <==> exists t :: t in d.tasks && t.createdAt == s && t.id !in dead
  {
  }
}
