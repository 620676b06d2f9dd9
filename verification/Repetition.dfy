/** Merging the same incoming document any number of times. */
module Repetition {
  import opened Seqs
  import opened Tasks
  import opened Placement
  import opened Converge
  import opened Merge
  import opened Redelivery

  /** `ds` is ours after 0, 1, 2, ... deliveries of `b`. */
  ghost predicate IsChain(ds: seq<Doc>, b: Doc) {
    WellFormed(b) && ds != [] && WellFormed(ds[0])
    && forall i {:trigger MergeDocs(ds[i], b)} :: 0 <= i < |ds| - 1 ==> ds[i + 1] == MergeDocs(ds[i], b)
  }

  /** No id is retitled by merging `b` into `d`, then folded away, with theirs' title kept nowhere. */
  ghost predicate Quiet(d: Doc, b: Doc) { !exists n :: RetitledThenFolded(d, b, n) }

  lemma StepWellFormed(ds: seq<Doc>, b: Doc, i: nat)
    requires IsChain(ds, b) && i + 1 < |ds| && WellFormed(ds[i])
    ensures WellFormed(ds[i + 1])
  {
    assert ds[i + 1] == MergeDocs(ds[i], b);
    MergeWellFormed(ds[i], b);
  }

  lemma {:induction false} ChainWellFormed(ds: seq<Doc>, b: Doc, i: nat)
    requires IsChain(ds, b) && i < |ds|
    ensures WellFormed(ds[i])
  {
    if i > 0 {
      ChainWellFormed(ds, b, i - 1);
      StepWellFormed(ds, b, i - 1);
    }
  }

  /** A delivery after the first adds no logical task if and only if the one before it was quiet. */
  lemma EachDeliveryIsExact(ds: seq<Doc>, b: Doc, i: nat)
    requires IsChain(ds, b) && i + 2 < |ds|
    ensures Keys(ds[i + 2].tasks) == Keys(ds[i + 1].tasks) <==> Quiet(ds[i], b)
  {
    ChainWellFormed(ds, b, i);
    assert ds[i + 1] == MergeDocs(ds[i], b);
    assert ds[i + 2] == MergeDocs(ds[i + 1], b);
    RedeliveryIsAbsorbed(ds[i], b);
  }

  lemma StepKeepsKeys(d: Doc, b: Doc)
    requires WellFormed(d) && WellFormed(b)
    ensures Keys(MergeDocs(d, b).tasks) <= Keys(MergeDocs(MergeDocs(d, b), b).tasks)
  {
    forall x | x in Keys(MergeDocs(d, b).tasks) ensures x in Keys(MergeDocs(MergeDocs(d, b), b).tasks) {
      var m :| m in MergeDocs(d, b).tasks && Key(m) == x;
      KeyStays(d, b, m);
    }
  }

  lemma StepAddsTheirs(d: Doc, b: Doc)
    requires WellFormed(d) && WellFormed(b)
    ensures Keys(MergeDocs(MergeDocs(d, b), b).tasks) <= Keys(MergeDocs(d, b).tasks) + Keys(b.tasks)
  {
    forall x | x in Keys(MergeDocs(MergeDocs(d, b), b).tasks) ensures x in Keys(MergeDocs(d, b).tasks) + Keys(b.tasks) {
      if x !in Keys(MergeDocs(d, b).tasks) {
        var r :| r in MergeDocs(MergeDocs(d, b), b).tasks && Key(r) == x;
        var n := NewKeyIsTheirs(d, b, r);
        ByIdAt(b.tasks, n);
      }
    }
  }

  lemma StepKeys(ds: seq<Doc>, b: Doc, i: nat)
    requires IsChain(ds, b) && i + 2 < |ds|
    ensures Keys(ds[i + 1].tasks) <= Keys(ds[i + 2].tasks) <= Keys(ds[i + 1].tasks) + Keys(b.tasks)
  {
    ChainWellFormed(ds, b, i);
    assert ds[i + 1] == MergeDocs(ds[i], b);
    assert ds[i + 2] == MergeDocs(ds[i + 1], b);
    StepKeepsKeys(ds[i], b);
    StepAddsTheirs(ds[i], b);
  }

  /** However often a document is delivered, no delivery after the first loses a logical task, and
      all that they can ever add are the document's own. */
  lemma {:induction false} KeysGrowWithinTheirs(ds: seq<Doc>, b: Doc, i: nat, j: nat)
    requires IsChain(ds, b) && 1 <= i <= j < |ds|
    ensures Keys(ds[i].tasks) <= Keys(ds[j].tasks) <= Keys(ds[i].tasks) + Keys(b.tasks)
    decreases j
  {
    if i < j {
      KeysGrowWithinTheirs(ds, b, i, j - 1);
      StepKeys(ds, b, j - 2);
    }
  }

  /** From delivery `i` on, the logical tasks stay the same. */
  ghost predicate SettledFrom(ds: seq<Doc>, i: nat)
    requires i < |ds|
  {
    forall j :: i <= j < |ds| ==> Keys(ds[j].tasks) == Keys(ds[i].tasks)
  }

  lemma {:induction false} QuietSettles(ds: seq<Doc>, b: Doc, i: nat, j: nat)
    requires IsChain(ds, b) && 1 <= i <= j < |ds|
    requires forall k :: i - 1 <= k < j - 1 ==> Quiet(ds[k], b)
    ensures Keys(ds[j].tasks) == Keys(ds[i].tasks)
    decreases j
  {
    if i < j {
      QuietSettles(ds, b, i, j - 1);
      assert Quiet(ds[j - 2], b);
      EachDeliveryIsExact(ds, b, j - 2);
    }
  }

  /** All deliveries after the first are absorbed if and only if each delivery that another one
      follows was quiet. */
  lemma EveryRepetitionIsAbsorbed(ds: seq<Doc>, b: Doc)
    requires IsChain(ds, b) && |ds| >= 2
    ensures SettledFrom(ds, 1) <==> forall k :: 0 <= k < |ds| - 2 ==> Quiet(ds[k], b)
  {
    if SettledFrom(ds, 1) {
      forall k | 0 <= k < |ds| - 2 ensures Quiet(ds[k], b) {
        assert Keys(ds[k + 2].tasks) == Keys(ds[k + 1].tasks);
        EachDeliveryIsExact(ds, b, k);
      }
    }
    if forall k :: 0 <= k < |ds| - 2 ==> Quiet(ds[k], b) {
      forall j | 1 <= j < |ds| ensures Keys(ds[j].tasks) == Keys(ds[1].tasks) {
        QuietSettles(ds, b, 1, j);
      }
    }
  }

  // ----- what can be told from the two documents

  lemma LowerCopyIsTheirs(m: Doc, b: Doc, n: nat)
    requires WellFormed(b) && UniqueStamps(b.tasks) && OursRetitles(m, b, n)
    requires forall x, y :: x in m.tasks && y in m.tasks && Clones(x, y) ==> x == y
    ensures !LowerCloneKept(m, b, ById(m.tasks)[n])
  {
    var sm, sb := ById(m.tasks), ById(b.tasks);
    ByIdAt(m.tasks, n);
    ByIdAt(b.tasks, n);
    if LowerCloneKept(m, b, sm[n]) {
      var i :| i < n && i in LiveOrder(m, b) && Clones(Kept(sm, sb, i), sm[n]);
      KeptSource(m, b, i);
      OnlyAt(m, b, n, Kept(sm, sb, i));
    }
  }

  /** In a document without clones, and one without shared stamps, a copy of `n`'s task is at `n`. */
  lemma OnlyAt(m: Doc, b: Doc, n: nat, t: Task)
    requires UniqueStamps(b.tasks) && n in ById(m.tasks) && n in ById(b.tasks)
    requires forall x, y :: x in m.tasks && y in m.tasks && Clones(x, y) ==> x == y
    requires ById(m.tasks)[n].createdAt == ById(b.tasks)[n].createdAt
    requires (t in m.tasks || t in b.tasks) && Clones(t, ById(m.tasks)[n])
    ensures t.id == n
  {
    ByIdAt(m.tasks, n);
    ByIdAt(b.tasks, n);
    if t in b.tasks {
      SameStampSameTask(b.tasks, t, ById(b.tasks)[n]);
    }
  }

  /** A merge holds no clones, so a second record of the stamp would have to be theirs. */
  lemma QuietAfterAMerge(x: Doc, b: Doc)
    requires WellFormed(b) && UniqueStamps(b.tasks)
    ensures Quiet(MergeDocs(x, b), b)
  {
    MergeIsConverged(x, b);
    forall n ensures !RetitledThenFolded(MergeDocs(x, b), b, n) {
      if OursRetitles(MergeDocs(x, b), b, n) {
        LowerCopyIsTheirs(MergeDocs(x, b), b, n);
      }
    }
  }

  lemma QuietLater(ds: seq<Doc>, b: Doc, k: nat)
    requires IsChain(ds, b) && UniqueStamps(b.tasks) && 1 <= k < |ds|
    ensures Quiet(ds[k], b)
  {
    assert ds[k] == MergeDocs(ds[k - 1], b);
    QuietAfterAMerge(ds[k - 1], b);
  }

  /** When theirs has one record per creation stamp, the first delivery decides: all later ones are
      absorbed if and only if it was quiet, and nothing changes from the second on. */
  lemma FirstDeliveryDecides(ds: seq<Doc>, b: Doc)
    requires IsChain(ds, b) && UniqueStamps(b.tasks) && |ds| >= 3
    ensures SettledFrom(ds, 1) <==> Quiet(ds[0], b)
    ensures SettledFrom(ds, 2)
  {
    forall k | 1 <= k < |ds| ensures Quiet(ds[k], b) {
      QuietLater(ds, b, k);
    }
    EveryRepetitionIsAbsorbed(ds, b);
    forall j | 2 <= j < |ds| ensures Keys(ds[j].tasks) == Keys(ds[2].tasks) {
      QuietSettles(ds, b, 2, j);
    }
  }

  /** With one record per creation stamp on each side, every repetition is absorbed. */
  lemma UniqueStampsAbsorbEvery(ds: seq<Doc>, b: Doc)
    requires IsChain(ds, b) && UniqueStamps(ds[0].tasks) && UniqueStamps(b.tasks) && |ds| >= 3
    ensures SettledFrom(ds, 1)
  {
    assert ds[1] == MergeDocs(ds[0], b);
    assert ds[2] == MergeDocs(ds[1], b);
    UniqueStampsAbsorb(ds[0], b);
    EachDeliveryIsExact(ds, b, 0);
    FirstDeliveryDecides(ds, b);
  }

  // ----- a task that only the third delivery adds

  /** Ours holds one task twice, at `x.id` and `x'.id`, and another at `y.id`; theirs renamed both
      at the higher ids, the first of them to ours' other title. */
  ghost predicate IsCase(a: Doc, b: Doc, x: Task, x': Task, y: Task, y': Task, z: Task) {
    && a.tasks == [x, x', y] && b.tasks == [y', z] && a.archivedIds == b.archivedIds == {}
    && x.id < x'.id == y'.id < y.id == z.id
    && x.createdAt == x'.createdAt == y.createdAt == y'.createdAt == z.createdAt
    && AllKeyed(a.tasks) && AllKeyed(b.tasks)
    && x.title == x'.title && y.title == y'.title && x.title != y.title && y.title != z.title && x.title != z.title
    && Pick(x', y') == x' && Pick(y, z) == y
  }

  lemma CaseIndex(a: Doc, b: Doc, x: Task, x': Task, y: Task, y': Task, z: Task)
    requires IsCase(a, b, x, x', y, y', z)
    ensures WellFormed(a) && WellFormed(b) && Tombstones(a, b) == {}
    ensures ById(a.tasks) == map[x.id := x, x'.id := x', y.id := y] && ById(b.tasks) == map[y'.id := y', z.id := z]
  {
    ByIdOne(x);
    ByIdSnoc([x], x');
    ByIdSnoc([x, x'], y);
    assert [x] + [x'] == [x, x'] && [x, x'] + [y] == a.tasks;
    ByIdOne(y');
    ByIdSnoc([y'], z);
    assert [y'] + [z] == b.tasks;
  }

  lemma ByIdSnoc(ts: seq<Task>, t: Task)
    ensures ById(ts + [t]) == ById(ts)[t.id := t]
  {
    assert (ts + [t])[..|ts|] == ts;
  }

  lemma ByIdOne(t: Task)
    ensures ById([t]) == map[t.id := t]
  {
    ByIdSnoc([], t);
    assert [] + [t] == [t];
  }

  lemma CaseKept(a: Doc, b: Doc, x: Task, x': Task, y: Task, y': Task, z: Task)
    requires IsCase(a, b, x, x', y, y', z)
    ensures forall n :: n in LiveOrder(a, b) <==> n in {x.id, x'.id, y.id}
    ensures var sa, sb := ById(a.tasks), ById(b.tasks);
      && x.id in sa && x'.id in sa && y.id in sa
      && Kept(sa, sb, x.id) == x && Kept(sa, sb, x'.id) == x' && Kept(sa, sb, y.id) == y
      && forall n :: !Collides(sa, sb, n)
  {
    CaseIndex(a, b, x, x', y, y', z);
  }

  /** The first delivery is quiet: theirs' new title for the folded id is kept elsewhere. */
  lemma CaseIsQuiet(a: Doc, b: Doc, x: Task, x': Task, y: Task, y': Task, z: Task)
    requires IsCase(a, b, x, x', y, y', z)
    ensures !LowerCloneKept(a, b, y) && Quiet(a, b)
  {
    CaseIndex(a, b, x, x', y, y', z);
    CaseKept(a, b, x, x', y, y', z);
    assert Contributes(a, b, y.id, y);
    forall n ensures !RetitledThenFolded(a, b, n) {
      if OursRetitles(a, b, n) {
        assert n == x'.id || n == y.id;
      }
    }
  }

  /** Why it matters where theirs' title goes: here an id is retitled and folded away, and the next
      delivery still adds nothing, because another id keeps the title. */
  lemma RetitledAndFoldedYetAbsorbed(a: Doc, b: Doc, x: Task, x': Task, y: Task, y': Task, z: Task)
    requires IsCase(a, b, x, x', y, y', z)
    ensures OursRetitles(a, b, x'.id) && LowerCloneKept(a, b, ById(a.tasks)[x'.id])
    ensures x'.id !in ById(MergeDocs(a, b).tasks)
    ensures Keys(MergeDocs(MergeDocs(a, b), b).tasks) == Keys(MergeDocs(a, b).tasks)
  {
    CaseIndex(a, b, x, x', y, y', z);
    CaseKept(a, b, x, x', y, y', z);
    assert x.id in LiveOrder(a, b) && Clones(Kept(ById(a.tasks), ById(b.tasks), x.id), x');
    CaseIsQuiet(a, b, x, x', y, y', z);
    LowerKeptFrees(a, b, x.id, x'.id);
    RedeliveryIsAbsorbed(a, b);
  }

  lemma CaseDropsZ(a: Doc, b: Doc, x: Task, x': Task, y: Task, y': Task, z: Task)
    requires IsCase(a, b, x, x', y, y', z)
    ensures Key(z) !in Keys(MergeDocs(a, b).tasks)
  {
    CaseKept(a, b, x, x', y, y', z);
    UncontributedKey(a, b, Key(z));
  }

  /** After it, the folded id is free and the other still has ours' title. */
  lemma CaseAfterOne(a: Doc, b: Doc, x: Task, x': Task, y: Task, y': Task, z: Task) returns (r: Task)
    requires IsCase(a, b, x, x', y, y', z)
    ensures var m := MergeDocs(a, b);
      && x'.id !in ById(m.tasks) && y.id in ById(m.tasks) && ById(m.tasks)[y.id] == r
      && Key(r) == Key(y) && Pick(r, z) == r
  {
    CaseKept(a, b, x, x', y, y', z);
    CaseIsQuiet(a, b, x, x', y, y', z);
    LowerKeptFrees(a, b, x.id, x'.id);
    KeptIsPlaced(a, b, y.id);
    CaseIndex(a, b, x, x', y, y', z);
    if FoldsAway(Placed(a, b), y) {
      LowerKept(a, b, y);
    }
    r := StayedAt(a, b, y);
    PickedFirst(y, z, r);
  }

  /** The second delivery is not quiet, from any document in which `y'.id` is free. */
  lemma LaterCaseIsNotQuiet(m: Doc, b: Doc, r: Task, y': Task, z: Task)
    requires b.tasks == [y', z] && UniqueIds(b.tasks) && Tombstones(m, b) == {} && AllKeyed(b.tasks)
    requires y'.id < z.id && y'.id !in ById(m.tasks) && z.id in ById(m.tasks) && ById(m.tasks)[z.id] == r
    requires Key(r) == Key(y') && r.createdAt == z.createdAt && r.title != z.title && Pick(r, z) == r
    requires Key(z) !in Keys(m.tasks)
    ensures RetitledThenFolded(m, b, z.id)
  {
    var sm, sb := ById(m.tasks), ById(b.tasks);
    ByIdFinds(b.tasks, y');
    ByIdFinds(b.tasks, z);
    ByIdAt(m.tasks, z.id);
    assert y' in b.tasks && z in b.tasks;
    assert y'.id in LiveOrder(m, b) && Clones(Kept(sm, sb, y'.id), r);
    assert Kept(sm, sb, z.id) == r;
    forall i, t | Contributes(m, b, i, t) ensures Key(t) != Key(z) {
      ContributorSource(m, b, i, t);
      if t in m.tasks {
        assert Key(t) in Keys(m.tasks);
      } else {
        assert t == y' || (i == z.id && t == r);
      }
    }
  }

  lemma CaseAfterTwo(a: Doc, b: Doc, x: Task, x': Task, y: Task, y': Task, z: Task)
    requires IsCase(a, b, x, x', y, y', z)
    ensures !Quiet(MergeDocs(a, b), b)
  {
    var r := CaseAfterOne(a, b, x, x', y, y', z);
    CaseDropsZ(a, b, x, x', y, y', z);
    CaseIndex(a, b, x, x', y, y', z);
    LaterCaseIsNotQuiet(MergeDocs(a, b), b, r, y', z);
  }

  /** Absorbed once does not mean absorbed ever after: here the second delivery adds nothing and
      the third adds a task. */
  lemma ThirdDeliveryCanAddATask(ds: seq<Doc>, details: Details)
    requires |ds| == 4
    requires var b := Doc([Task(5, 1, "Y", Queued, 1, 0, {}, None, details),
                           Task(7, 1, "Z", Queued, 1, 0, {}, None, details)], {}, 1, 0);
      && ds[0] == Doc([Task(3, 1, "X", Queued, 2, 0, {}, None, details),
                       Task(5, 1, "X", Queued, 2, 0, {}, None, details),
                       Task(7, 1, "Y", Queued, 2, 0, {}, None, details)], {}, 1, 0)
      && IsChain(ds, b)
    ensures Keys(ds[2].tasks) == Keys(ds[1].tasks) && Keys(ds[3].tasks) != Keys(ds[2].tasks)
  {
    var x, x' := Task(3, 1, "X", Queued, 2, 0, {}, None, details), Task(5, 1, "X", Queued, 2, 0, {}, None, details);
    var y, y' := Task(7, 1, "Y", Queued, 2, 0, {}, None, details), Task(5, 1, "Y", Queued, 1, 0, {}, None, details);
    var z := Task(7, 1, "Z", Queued, 1, 0, {}, None, details);
    var b := Doc([y', z], {}, 1, 0);
    assert "X"[0] != "Y"[0] && "Y"[0] != "Z"[0] && "X"[0] != "Z"[0];
    ThirdAdds(ds, b, x, x', y, y', z);
  }

  lemma CaseNextIsNotQuiet(ds: seq<Doc>, b: Doc, x: Task, x': Task, y: Task, y': Task, z: Task)
    requires |ds| > 1 && IsChain(ds, b) && IsCase(ds[0], b, x, x', y, y', z)
    ensures !Quiet(ds[1], b)
  {
    assert ds[1] == MergeDocs(ds[0], b);
    CaseAfterTwo(ds[0], b, x, x', y, y', z);
  }

  lemma ThirdAdds(ds: seq<Doc>, b: Doc, x: Task, x': Task, y: Task, y': Task, z: Task)
    requires |ds| == 4 && IsChain(ds, b) && IsCase(ds[0], b, x, x', y, y', z)
    ensures Keys(ds[2].tasks) == Keys(ds[1].tasks) && Keys(ds[3].tasks) != Keys(ds[2].tasks)
  {
    CaseIsQuiet(ds[0], b, x, x', y, y', z);
    EachDeliveryIsExact(ds, b, 0);
    CaseNextIsNotQuiet(ds, b, x, x', y, y', z);
    EachDeliveryIsExact(ds, b, 1);
  }
}
