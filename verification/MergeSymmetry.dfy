/** Which machine merges does not matter, except for the ids and id trails of the result. */
module MergeSymmetry {
  import opened Seqs
  import opened Tasks
  import opened Placement
  import opened Converge
  import opened Merge

  /** Copies of one task that tie on completion, revision and update time are equal. */
  ghost predicate TieFree(a: Doc, b: Doc) {
    forall x, y :: (x in a.tasks || x in b.tasks) && (y in a.tasks || y in b.tasks)
      && (Clones(x, y) || (x.id == y.id && x.createdAt == y.createdAt)) && RankTied(x, y)
      ==> Erase(x) == Erase(y)
  }

  /** `e` is the most progressed record of its key. */
  ghost predicate IsBest(es: set<Task>, e: Task) {
    e in es && forall f :: f in es && Key(f) == Key(e) ==> RankLe(f, e)
  }

  ghost function BestOf(es: set<Task>): set<Task> { set e | e in es && IsBest(es, e) }

  ghost predicate Untied(ts: seq<Task>) {
    forall x, y :: x in ts && y in ts && Clones(x, y) && RankTied(x, y) ==> Erase(x) == Erase(y)
  }

  lemma SurvivorIsBest(ts: seq<Task>, r: Task)
    requires UniqueIds(ts) && AllKeyed(ts) && r in Folded(ts)
    ensures IsBest(ErasedSet(ts), Erase(r))
  {
    var t := FoldedSource(ts, r);
    var src := SurvivorOf(ts, t);
    var es := ErasedSet(ts);
    assert Erase(src) in es;
    forall f | f in es && Key(f) == Key(Erase(r)) ensures RankLe(f, Erase(r)) {
      var u :| u in ts && Erase(u) == f;
      EraseKeeps(u, f);
      EraseKeeps(r, Erase(r));
      assert u == t || Clones(u, t);
    }
  }

  lemma BestSurvives(ts: seq<Task>, t: Task) returns (r: Task)
    requires UniqueIds(ts) && AllKeyed(ts) && Untied(ts)
    requires t in ts && IsBest(ErasedSet(ts), Erase(t))
    ensures r in Folded(ts) && Erase(r) == Erase(t)
  {
    var c := LowestClone(ts, t);
    r := StayerSurvives(ts, c);
    FoldedMembers(ts);
    var src := SurvivorOf(ts, c);
    r := Survivor(ts, c);
    assert t == c || Clones(t, c);
    assert RankLe(t, r);
    EraseKeeps(r, src);
    EraseKeeps(t, Erase(t));
    EraseKeeps(src, Erase(src));
    assert Erase(src) in ErasedSet(ts);
    assert Clones(src, t);
  }

  /** Folding leaves, up to naming, exactly the best record of each logical task. */
  lemma FoldedIsBest(ts: seq<Task>)
    requires UniqueIds(ts) && AllKeyed(ts) && Untied(ts)
    ensures ErasedSet(Folded(ts)) == BestOf(ErasedSet(ts))
  {
    forall e | e in ErasedSet(Folded(ts)) ensures e in BestOf(ErasedSet(ts)) {
      var r :| r in Folded(ts) && Erase(r) == e;
      SurvivorIsBest(ts, r);
    }
    forall e | e in BestOf(ErasedSet(ts)) ensures e in ErasedSet(Folded(ts)) {
      var t :| t in ts && Erase(t) == e;
      var r := BestSurvives(ts, t);
    }
  }

  lemma ContributesEitherWay(a: Doc, b: Doc, n: nat, x: Task) returns (y: Task)
    requires UniqueIds(a.tasks) && UniqueIds(b.tasks) && TieFree(a, b) && AllKeyed(a.tasks) && AllKeyed(b.tasks)
    requires Contributes(a, b, n, x)
    ensures Contributes(b, a, n, y) && Erase(y) == Erase(x)
  {
    var sa, sb := ById(a.tasks), ById(b.tasks);
    assert n in LiveOrder(b, a);
    if Collides(sa, sb, n) {
      y := x;
    } else {
      y := Kept(sb, sa, n);
      if n in sa && n in sb {
        SameId(a, b, n);
        PickEitherWay(sa[n], sb[n]);
      }
    }
  }

  lemma SameId(a: Doc, b: Doc, n: nat)
    requires TieFree(a, b) && AllKeyed(a.tasks) && AllKeyed(b.tasks) && n in ById(a.tasks) && n in ById(b.tasks)
    ensures var x, y := ById(a.tasks)[n], ById(b.tasks)[n];
      x.createdAt == y.createdAt && RankTied(x, y) ==> Erase(x) == Erase(y)
    ensures ById(a.tasks)[n].createdAt != 0 && ById(b.tasks)[n].createdAt != 0
  {
    ByIdAt(a.tasks, n);
    ByIdAt(b.tasks, n);
  }

  lemma PickEitherWay(x: Task, y: Task)
    ensures Pick(x, y) == Pick(y, x) || RankTied(x, y)
  {
  }

  lemma PlacedEitherWay(a: Doc, b: Doc, p: Task) returns (q: Task)
    requires WellFormed(a) && WellFormed(b) && TieFree(a, b)
    requires p in Placed(a, b)
    ensures q in Placed(b, a) && Erase(q) == Erase(p)
  {
    var n, x := PlacedContent(a, b, p);
    var y := ContributesEitherWay(a, b, n, x);
    q := ContentPlaced(b, a, n, y);
  }

  lemma PlacedSource(a: Doc, b: Doc, p: Task) returns (x: Task)
    requires p in Placed(a, b)
    ensures (x in a.tasks || x in b.tasks) && Erase(x) == Erase(p) && Key(x) == Key(p) && RankTied(x, p)
    ensures forall z :: RankLe(x, z) == RankLe(p, z) && RankLe(z, x) == RankLe(z, p)
  {
    var n;
    n, x := PlacedContent(a, b, p);
    EraseKeeps(x, p);
    ContributorSource(a, b, n, x);
  }

  lemma PlacedPairUntied(a: Doc, b: Doc, p: Task, q: Task)
    requires TieFree(a, b) && p in Placed(a, b) && q in Placed(a, b) && Clones(p, q) && RankTied(p, q)
    ensures Erase(p) == Erase(q)
  {
    var x := PlacedSource(a, b, p);
    var y := PlacedSource(a, b, q);
    assert Clones(x, y) && RankTied(x, y);
  }

  lemma PlacedIsPlain(a: Doc, b: Doc)
    requires WellFormed(a) && WellFormed(b) && TieFree(a, b)
    ensures UniqueIds(Placed(a, b)) && AllKeyed(Placed(a, b)) && Untied(Placed(a, b))
  {
    PlacedIds(a, b);
    forall p | p in Placed(a, b) ensures IsKeyed(p) {
      var x := PlacedSource(a, b, p);
    }
    forall p, q | p in Placed(a, b) && q in Placed(a, b) && Clones(p, q) && RankTied(p, q)
      ensures Erase(p) == Erase(q)
    {
      PlacedPairUntied(a, b, p, q);
    }
  }

  lemma SameTasksEitherWay(a: Doc, b: Doc)
    requires WellFormed(a) && WellFormed(b) && TieFree(a, b)
    ensures ErasedSet(MergeDocs(a, b).tasks) == ErasedSet(MergeDocs(b, a).tasks)
  {
    assert TieFree(b, a);
    PlacedIsPlain(a, b);
    PlacedIsPlain(b, a);
    FoldedIsBest(Placed(a, b));
    FoldedIsBest(Placed(b, a));
    SamePlacement(a, b);
  }

  /** Both merge directions have the same tombstones and, once ids and id trails are erased, the
      same tasks, however many collisions and clone clusters there are. */
  lemma MergeIsSymmetric(a: Doc, b: Doc)
    requires WellFormed(a) && WellFormed(b) && TieFree(a, b)
    ensures MergeDocs(a, b).archivedIds == MergeDocs(b, a).archivedIds
    ensures ErasedSet(MergeDocs(a, b).tasks) == ErasedSet(MergeDocs(b, a).tasks)
    ensures |MergeDocs(a, b).tasks| == |MergeDocs(b, a).tasks|
    ensures MergeDocs(a, b).version == MergeDocs(b, a).version
    ensures MergeDocs(a, b).updatedAt == MergeDocs(b, a).updatedAt
  {
    SameTasksEitherWay(a, b);
    OneRecordPerTask(a, b);
    OneRecordPerTask(b, a);
  }

  /** Record by record: whatever one direction leaves, the other leaves with the same content. */
  lemma SameRecordsEitherWay(a: Doc, b: Doc, r: Task) returns (r': Task)
    requires WellFormed(a) && WellFormed(b) && TieFree(a, b) && r in MergeDocs(a, b).tasks
    ensures r' in MergeDocs(b, a).tasks
    ensures r'.createdAt == r.createdAt && r'.title == r.title && r'.state == r.state && r'.revision == r.revision
    ensures r'.updatedAt == r.updatedAt && r'.details == r.details
  {
    SameTasksEitherWay(a, b);
    assert Erase(r) in ErasedSet(MergeDocs(a, b).tasks);
    r' :| r' in MergeDocs(b, a).tasks && Erase(r') == Erase(r);
    assert Erase(r).(id := r'.id, dedupedFrom := r'.dedupedFrom, renumberedFrom := r'.renumberedFrom) == r';
  }

  lemma SamePlacement(a: Doc, b: Doc)
    requires WellFormed(a) && WellFormed(b) && TieFree(a, b)
    ensures ErasedSet(Placed(a, b)) == ErasedSet(Placed(b, a))
  {
    assert TieFree(b, a);
    forall e | e in ErasedSet(Placed(a, b)) ensures e in ErasedSet(Placed(b, a)) {
      var p :| p in Placed(a, b) && Erase(p) == e;
      var q := PlacedEitherWay(a, b, p);
    }
    forall e | e in ErasedSet(Placed(b, a)) ensures e in ErasedSet(Placed(a, b)) {
      var p :| p in Placed(b, a) && Erase(p) == e;
      var q := PlacedEitherWay(b, a, p);
    }
  }

  lemma SameErasedAreClones(x: Task, y: Task)
    ensures IsKeyed(x) && Erase(x) == Erase(y) ==> Clones(x, y)
  {
    if Erase(x) == Erase(y) {
      EraseKeeps(x, y);
    }
  }

  /** A merge has as many records as erased records: erasing never makes two of them equal. */
  lemma OneRecordPerTask(a: Doc, b: Doc)
    requires WellFormed(a) && WellFormed(b)
    ensures |MergeDocs(a, b).tasks| == |ErasedSet(MergeDocs(a, b).tasks)|
  {
    MergeIsConverged(a, b);
    MergeWellFormed(a, b);
    var ts := MergeDocs(a, b).tasks;
    forall i, j | 0 <= i < j < |ts| ensures Erase(ts[i]) != Erase(ts[j]) {
      assert ts[i] in ts && ts[j] in ts;
      SameErasedAreClones(ts[i], ts[j]);
    }
    CountErased(ts);
  }

  lemma {:induction false} CountErased(ts: seq<Task>)
    requires forall i, j :: 0 <= i < j < |ts| ==> Erase(ts[i]) != Erase(ts[j])
    ensures |ErasedSet(ts)| == |ts|
  {
    if ts != [] {
      var n := |ts| - 1;
      CountErased(ts[..n]);
      assert ErasedSet(ts) == ErasedSet(ts[..n]) + {Erase(ts[n])};
    }
  }
}
