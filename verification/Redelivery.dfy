/** Merging the same incoming document twice. */
module Redelivery {
  import opened Seqs
  import opened Tasks
  import opened Placement
  import opened Converge
  import opened Merge

  /** Live id `n` holds one task under two titles, and ours wins it. */
  ghost predicate OursRetitles(a: Doc, b: Doc, n: nat) {
    var sa, sb := ById(a.tasks), ById(b.tasks);
    && n in sa && n in sb && n !in Tombstones(a, b)
    && sa[n].createdAt == sb[n].createdAt && sa[n].title != sb[n].title
    && Pick(sa[n], sb[n]) == sa[n]
  }

  /** A clone of `t` is kept at a lower id. */
  ghost predicate LowerCloneKept(a: Doc, b: Doc, t: Task) {
    exists m :: m < t.id && m in LiveOrder(a, b) && Clones(Kept(ById(a.tasks), ById(b.tasks), m), t)
  }

  ghost predicate NobodyContributes(a: Doc, b: Doc, k: LogicalKey) {
    forall m, z :: Contributes(a, b, m, z) ==> Key(z) != k
  }

  /** Live id `n` is one task under two titles, ours won, and theirs' title is kept nowhere;
      yet a clone of ours sits at a lower id, so `n` itself folds away. */
  ghost predicate RetitledThenFolded(a: Doc, b: Doc, n: nat) {
    && OursRetitles(a, b, n)
    && LowerCloneKept(a, b, ById(a.tasks)[n])
    && NobodyContributes(a, b, Key(ById(b.tasks)[n]))
  }

  lemma PickedFirst(x: Task, y: Task, m: Task)
    requires Pick(x, y) == x && x != y && RankLe(x, m)
    ensures Pick(m, y) == m
  {
  }

  lemma ContributedKey(a: Doc, b: Doc, n: nat, x: Task)
    requires Contributes(a, b, n, x)
    ensures Key(x) in Keys(MergeDocs(a, b).tasks)
  {
    var p := ContentPlaced(a, b, n, x);
    EraseKeeps(p, x);
    MergeKeys(a, b);
  }

  /** A record of the merge at an id that either side used descends from the one kept there. */
  lemma MergedAtOldId(a: Doc, b: Doc, m: Task)
    requires m in MergeDocs(a, b).tasks && m.id in TakenIds(a, b)
    ensures m.id in LiveOrder(a, b)
    ensures var t := Kept(ById(a.tasks), ById(b.tasks), m.id); Key(m) == Key(t) && RankLe(t, m)
    ensures !FoldsAway(Placed(a, b), Kept(ById(a.tasks), ById(b.tasks), m.id))
  {
    PlacedIds(a, b);
    var t := FoldedSource(Placed(a, b), m);
    PlacedAtOldId(a, b, t);
  }

  /** Merging again loses no logical task. */
  lemma KeyStays(a: Doc, b: Doc, m: Task)
    requires WellFormed(a) && WellFormed(b)
    requires m in MergeDocs(a, b).tasks
    ensures Key(m) in Keys(MergeDocs(MergeDocs(a, b), b).tasks)
  {
    var mm, n := MergeDocs(a, b), m.id;
    var sa, sb, sm := ById(a.tasks), ById(b.tasks), ById(mm.tasks);
    MergeIsConverged(a, b);
    MergeWellFormed(a, b);
    ByIdFinds(mm.tasks, m);
    assert n in Ids(mm.tasks);
    var x := if n in sb && !Collides(sm, sb, n) then Pick(m, sb[n]) else m;
    if Key(x) != Key(m) {
      ByIdAt(b.tasks, n);
      MergedAtOldId(a, b, m);
      PickedFirst(sa[n], sb[n], m);
    }
    ContributedKey(mm, b, n, x);
  }

  /** A logical task that the second merge adds is contributed by theirs. */
  lemma NewKeyIsTheirs(a: Doc, b: Doc, r: Task) returns (n: nat)
    requires WellFormed(a) && WellFormed(b)
    requires r in MergeDocs(MergeDocs(a, b), b).tasks && Key(r) !in Keys(MergeDocs(a, b).tasks)
    ensures n in ById(b.tasks) && Key(ById(b.tasks)[n]) == Key(r)
    ensures Contributes(MergeDocs(a, b), b, n, ById(b.tasks)[n])
  {
    var mm := MergeDocs(a, b);
    PlacedIds(mm, b);
    var p := FoldedSource(Placed(mm, b), r);
    var x;
    n, x := PlacedContent(mm, b, p);
    EraseKeeps(p, x);
    ContributorSource(mm, b, n, x);
    ByIdFinds(b.tasks, x);
  }

  /** It lost its title in the first merge. */
  lemma NewKeyWasRetitled(a: Doc, b: Doc, n: nat)
    requires WellFormed(a) && WellFormed(b)
    requires n in ById(b.tasks) && n !in Tombstones(a, b)
    requires Key(ById(b.tasks)[n]) !in Keys(MergeDocs(a, b).tasks)
    ensures var sa, sb := ById(a.tasks), ById(b.tasks);
      && n in sa && sa[n].createdAt == sb[n].createdAt && sa[n].title != sb[n].title
      && n in LiveOrder(a, b) && Kept(sa, sb, n) == sa[n] == Pick(sa[n], sb[n])
      && NobodyContributes(a, b, Key(sb[n]))
  {
    var sa, sb := ById(a.tasks), ById(b.tasks);
    forall i, z | Contributes(a, b, i, z) ensures Key(z) != Key(sb[n]) {
      ContributedKey(a, b, i, z);
    }
    assert n in LiveOrder(a, b);
    assert Contributes(a, b, n, Kept(sa, sb, n));
    ByIdAt(b.tasks, n);
    if n in sa {
      ByIdAt(a.tasks, n);
    }
    assert Collides(sa, sb, n) ==> Contributes(a, b, n, Displaced(sa, sb, n));
  }

  lemma NewKeyMeansFoldedAway(a: Doc, b: Doc, n: nat)
    requires WellFormed(a) && WellFormed(b)
    requires n in ById(b.tasks) && Key(ById(b.tasks)[n]) !in Keys(MergeDocs(a, b).tasks)
    requires Contributes(MergeDocs(a, b), b, n, ById(b.tasks)[n])
    ensures RetitledThenFolded(a, b, n)
  {
    var sa, sb, sm := ById(a.tasks), ById(b.tasks), ById(MergeDocs(a, b).tasks);
    ContributorSource(MergeDocs(a, b), b, n, sb[n]);
    NewKeyWasRetitled(a, b, n);
    KeptIsPlaced(a, b, n);
    ByIdAt(a.tasks, n);
    if !FoldsAway(Placed(a, b), sa[n]) {
      var m := StayedAt(a, b, sa[n]);
      PickedFirst(sa[n], sb[n], m);
      assert false;
    }
    LowerKept(a, b, sa[n]);
  }

  /** A placed record that does not fold away leaves a record at its own id. */
  lemma StayedAt(a: Doc, b: Doc, t: Task) returns (r: Task)
    requires t in Placed(a, b) && !FoldsAway(Placed(a, b), t)
    ensures t.id in ById(MergeDocs(a, b).tasks) && r == ById(MergeDocs(a, b).tasks)[t.id]
    ensures Key(r) == Key(t) && RankLe(t, r)
  {
    PlacedIds(a, b);
    r := StayerSurvives(Placed(a, b), t);
    FoundAt(MergeDocs(a, b), r);
  }

  lemma FoundAt(d: Doc, r: Task)
    requires r in d.tasks && (exists a, b :: d == MergeDocs(a, b))
    ensures r.id in ById(d.tasks) && ById(d.tasks)[r.id] == r
  {
    var a, b :| d == MergeDocs(a, b);
    MergeIsConverged(a, b);
    ByIdFinds(d.tasks, r);
  }

  /** What makes an old id fold away is a clone kept at a lower old id. */
  lemma LowerKept(a: Doc, b: Doc, t: Task)
    requires t.id in TakenIds(a, b) && FoldsAway(Placed(a, b), t)
    ensures LowerCloneKept(a, b, t)
  {
    var u :| u in Placed(a, b) && Clones(u, t) && u.id < t.id;
    var n := PlacedOrigin(a, b, u);
    assert u.id in TakenIds(a, b) by {
      if u.id !in TakenIds(a, b) {
        FreshIdsAreHigh(a, b, u);
      }
    }
    PlacedAtOldId(a, b, u);
  }

  lemma FreshIdsAreHigh(a: Doc, b: Doc, p: Task)
    requires p in Placed(a, b) && p.id !in TakenIds(a, b)
    ensures forall i :: i in TakenIds(a, b) ==> i < p.id
  {
    var n := OriginOf(ById(a.tasks), ById(b.tasks), LiveOrder(a, b), CollisionOrder(a, b), MaxId(TakenIds(a, b)), p);
    if n in LiveOrder(a, b) {
      KeptSource(a, b, n);
    }
  }

  /** Conversely a clone kept at a lower id frees this one. */
  lemma LowerKeptFrees(a: Doc, b: Doc, m: nat, n: nat)
    requires m < n && m in LiveOrder(a, b) && n in LiveOrder(a, b)
    requires Clones(Kept(ById(a.tasks), ById(b.tasks), m), Kept(ById(a.tasks), ById(b.tasks), n))
    ensures n !in ById(MergeDocs(a, b).tasks)
  {
    KeptIsPlaced(a, b, m);
    KeptSource(a, b, m);
    KeptSource(a, b, n);
    assert FoldsAway(Placed(a, b), Kept(ById(a.tasks), ById(b.tasks), n));
    if n in ById(MergeDocs(a, b).tasks) {
      ByIdAt(MergeDocs(a, b).tasks, n);
      MergedAtOldId(a, b, ById(MergeDocs(a, b).tasks)[n]);
      assert false;
    }
  }

  lemma UncontributedKey(a: Doc, b: Doc, k: LogicalKey)
    requires NobodyContributes(a, b, k)
    ensures k !in Keys(MergeDocs(a, b).tasks)
  {
    MergeKeys(a, b);
    forall p | p in Placed(a, b) ensures Key(p) != k {
      var i, z := PlacedContent(a, b, p);
      EraseKeeps(p, z);
    }
  }

  /** An overwritten title whose id folded away comes back as a separate task. */
  lemma FoldedAwayComesBack(a: Doc, b: Doc, n: nat)
    requires WellFormed(a) && WellFormed(b) && RetitledThenFolded(a, b, n)
    ensures Key(ById(b.tasks)[n]) in Keys(MergeDocs(MergeDocs(a, b), b).tasks) - Keys(MergeDocs(a, b).tasks)
  {
    var sa, sb := ById(a.tasks), ById(b.tasks);
    UncontributedKey(a, b, Key(sb[n]));
    ByIdAt(a.tasks, n);
    var m :| m < n && m in LiveOrder(a, b) && Clones(Kept(sa, sb, m), sa[n]);
    LowerKeptFrees(a, b, m, n);
    assert Contributes(MergeDocs(a, b), b, n, sb[n]);
    ContributedKey(MergeDocs(a, b), b, n, sb[n]);
  }

  /** A second delivery of the same document is absorbed exactly when the first did not retitle an
      id, fold it away and keep theirs' title nowhere: the logical tasks are then the same after it. */
  lemma RedeliveryIsAbsorbed(a: Doc, b: Doc)
    requires WellFormed(a) && WellFormed(b)
    ensures Keys(MergeDocs(MergeDocs(a, b), b).tasks) == Keys(MergeDocs(a, b).tasks)
       <==> !exists n :: RetitledThenFolded(a, b, n)
  {
    var once, twice := MergeDocs(a, b).tasks, MergeDocs(MergeDocs(a, b), b).tasks;
    forall k | k in Keys(once) ensures k in Keys(twice) {
      var m :| m in once && Key(m) == k;
      KeyStays(a, b, m);
    }
    if n :| RetitledThenFolded(a, b, n) {
      FoldedAwayComesBack(a, b, n);
    } else {
      forall k | k in Keys(twice) ensures k in Keys(once) {
        var r :| r in twice && Key(r) == k;
        if k !in Keys(once) {
          var i := NewKeyIsTheirs(a, b, r);
          NewKeyMeansFoldedAway(a, b, i);
        }
      }
    }
  }

  /** With one record per creation stamp on each side, a second delivery is always absorbed. */
  lemma UniqueStampsAbsorb(a: Doc, b: Doc)
    requires WellFormed(a) && WellFormed(b)
    requires UniqueStamps(a.tasks) && UniqueStamps(b.tasks)
    ensures Keys(MergeDocs(MergeDocs(a, b), b).tasks) == Keys(MergeDocs(a, b).tasks)
  {
    forall n ensures !RetitledThenFolded(a, b, n) {
      if OursRetitles(a, b, n) {
        NoLowerClone(a, b, n);
      }
    }
    RedeliveryIsAbsorbed(a, b);
  }

  /** Only ids `n` itself can carry the stamp that both sides have at `n`. */
  lemma StampHasOneId(a: Doc, b: Doc, n: nat, z: Task)
    requires UniqueStamps(a.tasks) && UniqueStamps(b.tasks)
    requires n in ById(a.tasks) && n in ById(b.tasks)
    requires ById(a.tasks)[n].createdAt == ById(b.tasks)[n].createdAt == z.createdAt
    requires z in a.tasks || z in b.tasks
    ensures z.id == n
  {
    ByIdAt(a.tasks, n);
    ByIdAt(b.tasks, n);
    if z in a.tasks {
      SameStampSameTask(a.tasks, z, ById(a.tasks)[n]);
    } else {
      SameStampSameTask(b.tasks, z, ById(b.tasks)[n]);
    }
  }

  lemma NoLowerClone(a: Doc, b: Doc, n: nat)
    requires UniqueStamps(a.tasks) && UniqueStamps(b.tasks) && OursRetitles(a, b, n)
    ensures !LowerCloneKept(a, b, ById(a.tasks)[n])
  {
    var sa, sb := ById(a.tasks), ById(b.tasks);
    ByIdAt(a.tasks, n);
    if LowerCloneKept(a, b, sa[n]) {
      var m :| m < n && m in LiveOrder(a, b) && Clones(Kept(sa, sb, m), sa[n]);
      KeptSource(a, b, m);
      StampHasOneId(a, b, n, Kept(sa, sb, m));
    }
  }

  lemma SameStampSameTask(ts: seq<Task>, x: Task, y: Task)
    requires UniqueStamps(ts) && x in ts && y in ts && x.createdAt == y.createdAt
    ensures x == y
  {
    var i :| 0 <= i < |ts| && ts[i] == x;
    var j :| 0 <= j < |ts| && ts[j] == y;
  }

  /** The case that is not absorbed: ours holds one task at 3 and 5, theirs renamed it at 5. The
      first merge keeps ours at 3; the second finds 5 free and brings the old title back. */
  lemma RedeliveryCanAddATask(details: Details)
    ensures var a := Doc([Task(3, 1, "X", Queued, 2, 0, {}, None, details),
                          Task(5, 1, "X", Queued, 2, 0, {}, None, details)], {}, 1, 0);
            var b := Doc([Task(5, 1, "Y", Queued, 1, 0, {}, None, details)], {}, 1, 0);
            && WellFormed(a) && WellFormed(b) && RetitledThenFolded(a, b, 5)
            && Keys(MergeDocs(MergeDocs(a, b), b).tasks) != Keys(MergeDocs(a, b).tasks)
  {
    var x3, x5 := Task(3, 1, "X", Queued, 2, 0, {}, None, details), Task(5, 1, "X", Queued, 2, 0, {}, None, details);
    var y5 := Task(5, 1, "Y", Queued, 1, 0, {}, None, details);
    assert "X"[0] != "Y"[0];
    RetitleWitness(Doc([x3, x5], {}, 1, 0), Doc([y5], {}, 1, 0), x3, x5, y5);
    RedeliveryIsAbsorbed(Doc([x3, x5], {}, 1, 0), Doc([y5], {}, 1, 0));
  }

  lemma RetitleWitness(a: Doc, b: Doc, x: Task, x': Task, y: Task)
    requires a.tasks == [x, x'] && b.tasks == [y] && a.archivedIds == b.archivedIds == {}
    requires x.id < x'.id == y.id && Clones(x, x') && x'.createdAt == y.createdAt && x'.title != y.title
    requires Pick(x', y) == x'
    ensures RetitledThenFolded(a, b, y.id)
  {
    ByIdFinds(a.tasks, x);
    ByIdFinds(a.tasks, x');
    ByIdFinds(b.tasks, y);
    assert x.id in LiveOrder(a, b) && Clones(Kept(ById(a.tasks), ById(b.tasks), x.id), x');
  }
}
