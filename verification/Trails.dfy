/** The trail of folded ids that a record carries: what a merge makes of it. */
module Trails {
  import opened Seqs
  import opened Tasks
  import opened Placement
  import opened Converge
  import opened Merge

  /** `p` is a record of the same cluster as `r`: `r`'s own id, or a clone of it. */
  ghost predicate SameCluster(p: Task, r: Task) { p.id == r.id || Clones(p, r) }

  /** Id `i` comes from `p`: it is on `p`'s trail, or it is `p`'s own id and `p` folds onto `r`. */
  ghost predicate Leaves(p: Task, r: Task, i: nat) { i in p.dedupedFrom || (p.id == i && i != r.id) }

  lemma FoldedTrail(ts: seq<Task>, t: Task, i: nat)
    requires UniqueIds(ts) && t in ts
    ensures i in Survivor(ts, t).dedupedFrom <==> exists p :: p in ts && SameCluster(p, t) && Leaves(p, t, i)
  {
    if HasClone(ts, t) {
      ClonedTrail(ts, t, i);
    } else {
      forall p | p in ts && SameCluster(p, t) ensures p == t {
        if p.id == t.id {
          SameIdSameTask(ts, p, t);
        }
      }
      assert SameCluster(t, t);
    }
  }

  lemma ClonedTrail(ts: seq<Task>, t: Task, i: nat)
    requires UniqueIds(ts) && t in ts && HasClone(ts, t)
    ensures i in Survivor(ts, t).dedupedFrom <==> exists p :: p in ts && SameCluster(p, t) && Leaves(p, t, i)
  {
    var ms := Cluster(ts, Key(t));
    ClusterMembers(ts, Key(t));
    forall p | p in ts ensures SameCluster(p, t) <==> p in ms {
      if p.id == t.id {
        SameIdSameTask(ts, p, t);
      }
    }
    assert i in Survivor(ts, t).dedupedFrom <==> (i in Ids(ms) && i != t.id) || i in PriorFolds(ms);
    if exists p :: p in ts && SameCluster(p, t) && Leaves(p, t, i) {
      var p :| p in ts && SameCluster(p, t) && Leaves(p, t, i);
      assert p in ms;
    }
    if i in PriorFolds(ms) {
      var p :| p in ms && i in p.dedupedFrom;
      assert Leaves(p, t, i) && SameCluster(p, t);
    }
    if i in Ids(ms) && i != t.id {
      var p :| p in ms && p.id == i;
      assert Leaves(p, t, i) && SameCluster(p, t);
    }
  }

  /** The trail of a merged record is exactly what the placed records of its cluster leave: their
      own trails and the ids that fold onto it. */
  lemma MergedTrailIsExact(a: Doc, b: Doc, r: Task, i: nat)
    requires r in MergeDocs(a, b).tasks
    ensures i in r.dedupedFrom <==> exists p :: p in Placed(a, b) && SameCluster(p, r) && Leaves(p, r, i)
  {
    PlacedIds(a, b);
    var t := FoldedSource(Placed(a, b), r);
    FoldedTrail(Placed(a, b), t, i);
    SameClusterAs(Placed(a, b), t, r);
  }

  lemma SameClusterAs(ts: seq<Task>, t: Task, r: Task)
    requires UniqueIds(ts) && t in ts && r == Survivor(ts, t)
    ensures forall p, i :: p in ts ==>
      (SameCluster(p, t) <==> SameCluster(p, r)) && (Leaves(p, t, i) <==> Leaves(p, r, i))
  {
    var src := SurvivorOf(ts, t);
    forall p | p in ts ensures SameCluster(p, t) <==> SameCluster(p, r) {
      assert !IsKeyed(t) ==> !HasClone(ts, t);
      assert IsKeyed(t) <==> IsKeyed(r);
    }
  }

  // ----- copies of one task at one id

  /** The other side's copy at the same live id is picked over this one. */
  ghost predicate LosesAtItsId(a: Doc, b: Doc, t: Task) {
    var sa, sb := ById(a.tasks), ById(b.tasks);
    t.id in sa && t.id in sb && !Collides(sa, sb, t.id) && Pick(sa[t.id], sb[t.id]) != t
  }

  /** A copy is placed, with its trail, if and only if it is not the one that loses at its id. */
  lemma PlacedUnlessItLoses(a: Doc, b: Doc, t: Task)
    requires WellFormed(a) && WellFormed(b) && (t in a.tasks || t in b.tasks) && t.id !in Tombstones(a, b)
    ensures Contributes(a, b, t.id, t) <==> !LosesAtItsId(a, b, t)
  {
    var sa, sb := ById(a.tasks), ById(b.tasks);
    if t in a.tasks {
      ByIdFinds(a.tasks, t);
    } else {
      ByIdFinds(b.tasks, t);
    }
    assert t.id in LiveOrder(a, b);
  }

  lemma ContributedTrail(a: Doc, b: Doc, n: nat, x: Task) returns (p: Task)
    requires Contributes(a, b, n, x)
    ensures p in Placed(a, b) && Erase(p) == Erase(x) && p.dedupedFrom == x.dedupedFrom
  {
    if x == Kept(ById(a.tasks), ById(b.tasks), n) {
      KeptIsPlaced(a, b, n);
      p := x;
    } else {
      p := DisplacedIsPlaced(a, b, n);
    }
  }

  /** Every copy that does not lose at its own id leaves its whole trail in the result. */
  lemma TrailSurvives(a: Doc, b: Doc, t: Task) returns (r: Task)
    requires WellFormed(a) && WellFormed(b) && (t in a.tasks || t in b.tasks) && t.id !in Tombstones(a, b)
    requires !LosesAtItsId(a, b, t)
    ensures r in MergeDocs(a, b).tasks && Key(r) == Key(t) && t.dedupedFrom <= r.dedupedFrom
  {
    PlacedUnlessItLoses(a, b, t);
    var p := ContributedTrail(a, b, t.id, t);
    EraseKeeps(p, t);
    r := FoldsAreRecorded(a, b, p);
  }

  /** The trail of a copy that loses at its own id is not merged in: at an id whose winner has no
      clone, it survives if and only if the winner's trail has it all. */
  lemma LosersTrailSurvivesExactly(a: Doc, b: Doc, t: Task) returns (r: Task)
    requires WellFormed(a) && WellFormed(b) && (t in a.tasks || t in b.tasks) && t.id !in Tombstones(a, b)
    requires LosesAtItsId(a, b, t)
    requires var w := Pick(ById(a.tasks)[t.id], ById(b.tasks)[t.id]); !HasClone(Placed(a, b), w)
    ensures r in MergeDocs(a, b).tasks && r == Pick(ById(a.tasks)[t.id], ById(b.tasks)[t.id]) && r.id == t.id
    ensures t.dedupedFrom <= r.dedupedFrom <==>
      t.dedupedFrom <= Pick(ById(a.tasks)[t.id], ById(b.tasks)[t.id]).dedupedFrom
  {
    r := Pick(ById(a.tasks)[t.id], ById(b.tasks)[t.id]);
    assert t.id in LiveOrder(a, b);
    KeptIsPlaced(a, b, t.id);
    KeptSource(a, b, t.id);
    LoneRecordStays(Placed(a, b), r);
    FoldedMembers(Placed(a, b));
    assert Survivor(Placed(a, b), r) == r;
  }

  /** The failing side: two copies that differ in their trails alone. Whichever comes in from the
      other side wins the tie, so one direction of the merge keeps the trail and the other loses it. */
  lemma TiedTrailIsLost(t: Task, trail: set<nat>)
    requires IsKeyed(t) && trail != {}
    ensures var with, without := t.(dedupedFrom := trail), t.(dedupedFrom := {});
      var a, b := Doc([with], {}, 1, 0), Doc([without], {}, 1, 0);
      && MergeDocs(a, b).tasks == [without] && MergeDocs(b, a).tasks == [with]
  {
    MergeOfCopies(t.(dedupedFrom := trail), t.(dedupedFrom := {}));
    MergeOfCopies(t.(dedupedFrom := {}), t.(dedupedFrom := trail));
  }

  lemma MergeOfCopies(x: Task, y: Task)
    requires IsKeyed(x) && x.id == y.id && Key(x) == Key(y)
    ensures MergeDocs(Doc([x], {}, 1, 0), Doc([y], {}, 1, 0)).tasks == [Pick(x, y)]
  {
    var ts := Placed(Doc([x], {}, 1, 0), Doc([y], {}, 1, 0));
    PlacedCopies(Doc([x], {}, 1, 0), Doc([y], {}, 1, 0), x, y);
    FoldedFixed(ts, 1);
    assert ts[..1] == ts;
  }

  lemma PlacedCopies(a: Doc, b: Doc, x: Task, y: Task)
    requires a.tasks == [x] && b.tasks == [y] && a.archivedIds == b.archivedIds == {}
    requires IsKeyed(x) && x.id == y.id && Key(x) == Key(y)
    ensures Placed(a, b) == [Pick(x, y)]
  {
    OrderOfCopies(a, b, x, y);
    OneIndexed(x);
    OneIndexed(y);
    PrimaryAt(ById(a.tasks), ById(b.tasks), [x.id]);
  }

  lemma OrderOfCopies(a: Doc, b: Doc, x: Task, y: Task)
    requires a.tasks == [x] && b.tasks == [y] && a.archivedIds == b.archivedIds == {}
    requires x.id == y.id && Key(x) == Key(y)
    ensures LiveOrder(a, b) == [x.id] && CollisionOrder(a, b) == []
  {
    OneIndexed(x);
    OneIndexed(y);
    FilterNone([y.id], OutsideSet(ById(a.tasks).Keys));
    assert Order(a, b) == [x.id] + [] == [x.id];
    FilterAll([x.id], OutsideSet(Tombstones(a, b)));
    FilterNone([x.id], Colliding(ById(a.tasks), ById(b.tasks)));
  }

  lemma OneIndexed(t: Task)
    ensures ById([t]) == map[t.id := t] && IdOrder([t]) == [t.id]
  {
    assert [t][..0] == [] && ById([]) == map[] && IdOrder([]) == [];
  }
}
