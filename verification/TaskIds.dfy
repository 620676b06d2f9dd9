/** The id counter: merging it, healing it, and allocating blocks of ids from it. */
module TaskIds {
  import opened Seqs
  import opened Tasks
  import opened Placement
  import opened Converge
  import opened Merge

  /** The highest id in a document, tombstones included, or 0. */
  ghost function MaxTaskId(d: Doc): nat { MaxId(Ids(d.tasks) + d.archivedIds) }

  function MergedCounter(ours: nat, theirs: nat, tasksMax: nat): nat { MaxNat(MaxNat(ours, theirs), tasksMax) }

  /** Ids handed out by one allocation and the counter value it leaves. */
  datatype Block = Block(ids: seq<nat>, highWater: nat)

  /** What the block function promises: `n` ids, increasing, above the counter `c`, and a high
      water mark at the last of them. */
  ghost predicate IsBlock(c: nat, n: nat, b: Block) {
    && |b.ids| == n && n >= 1
    && (forall i, j :: 0 <= i < j < n ==> b.ids[i] < b.ids[j])
    && (forall i :: 0 <= i < n ==> c < b.ids[i] <= b.highWater)
    && b.highWater == b.ids[n - 1]
  }

  /** A block function: legacy sequential, or one machine's residue lane. */
  type Blocks = (nat, nat) -> Block

  ghost predicate ValidBlocks(f: Blocks) {
    forall c, n :: n >= 1 ==> IsBlock(c, n, f(c, n))
  }

  /** The sequential fallback. */
  function SequentialBlock(c: nat, n: nat): Block
    requires n >= 1
  {
    Block(seq(n, i requires 0 <= i < n => c + 1 + i), c + n)
  }

  function CountOf(count: int): nat { if count >= 1 then count else 1 }

  /** Any id that was taken before a merge stays below every id the merge hands out, and the
      highest id of the result is at most one per collision above the merged counter. */
  lemma MergeIdBound(a: Doc, b: Doc, ours: nat, theirs: nat)
    ensures var c := MergedCounter(ours, theirs, MaxNat(MaxTaskId(a), MaxTaskId(b)));
      && ours <= c && theirs <= c
      && (forall n :: n in Ids(a.tasks) + a.archivedIds + Ids(b.tasks) + b.archivedIds ==> n <= c)
      && MaxTaskId(MergeDocs(a, b)) <= c + |CollisionOrder(a, b)|
  {
    var m, top := MergeDocs(a, b), MaxId(TakenIds(a, b));
    TakenIsBoth(a, b);
    forall n | n in Ids(m.tasks) ensures n <= top + |CollisionOrder(a, b)| {
      MergedIdBound(a, b, n);
    }
    BoundedMax(Ids(m.tasks) + m.archivedIds, top + |CollisionOrder(a, b)|);
  }

  lemma BoundedMax(s: set<nat>, bound: nat)
    requires forall n :: n in s ==> n <= bound
    ensures MaxId(s) <= bound
  {
  }

  lemma TakenIsBoth(a: Doc, b: Doc)
    ensures TakenIds(a, b) == Ids(a.tasks) + a.archivedIds + Ids(b.tasks) + b.archivedIds
    ensures MaxId(TakenIds(a, b)) == MaxNat(MaxTaskId(a), MaxTaskId(b))
  {
    IndexIds(a);
    IndexIds(b);
  }

  lemma MergedIdBound(a: Doc, b: Doc, n: nat)
    requires n in Ids(MergeDocs(a, b).tasks)
    ensures n <= MaxId(TakenIds(a, b)) + |CollisionOrder(a, b)|
  {
    var r :| r in MergeDocs(a, b).tasks && r.id == n;
    PlacedIds(a, b);
    var p := FoldedSource(Placed(a, b), r);
    PlacedIdBound(a, b, p);
  }

  lemma IndexIds(d: Doc)
    ensures ById(d.tasks).Keys == Ids(d.tasks)
  {
    ByIdHolds(d.tasks);
  }

  lemma PlacedIdBound(a: Doc, b: Doc, p: Task)
    requires p in Placed(a, b)
    ensures p.id <= MaxId(TakenIds(a, b)) + |CollisionOrder(a, b)|
  {
    var live := LiveOrder(a, b);
    assert forall n :: n in live ==> n in TakenIds(a, b);
    ByIdHolds(a.tasks);
    ByIdHolds(b.tasks);
    NumberBound(ById(a.tasks), ById(b.tasks), live, CollisionOrder(a, b), MaxId(TakenIds(a, b)), p);
  }

  lemma NumberBound(a: Side, b: Side, live: seq<nat>, colls: seq<nat>, top: nat, p: Task)
    requires (forall n :: n in a ==> a[n].id == n) && (forall n :: n in b ==> b[n].id == n)
    requires forall n :: n in live ==> (n in a || n in b) && n <= top
    requires forall n :: n in colls ==> Collides(a, b, n)
    requires p in Primary(a, b, live) + Renumbered(a, b, colls, top)
    ensures p.id <= top + |colls|
  {
    PrimaryAt(a, b, live);
    RenumberedAt(a, b, colls, top);
    if p in Primary(a, b, live) {
      var i :| 0 <= i < |live| && Primary(a, b, live)[i] == p;
      assert live[i] in live;
    } else {
      assert p in Renumbered(a, b, colls, top);
      var i :| 0 <= i < |colls| && Renumbered(a, b, colls, top)[i] == p;
    }
  }

  method MaxExistingTaskId(d: Doc) returns (m: nat)
    ensures m == MaxTaskId(d)
  {
    m := LargestId((set t: Task | t in d.tasks :: t.id) + d.archivedIds);
  }

  class TaskCounter {
    var lastAssigned: nat

    constructor (start: nat)
      ensures lastAssigned == start
    {
      lastAssigned := start;
    }

    /** Floor the counter at the highest existing id, fold in the host's high water mark, hand
        out a block and persist its high water mark. */
    method AllocId(d: Doc, count: int, hostFloor: nat, blocks: Blocks) returns (ids: seq<nat>)
      requires ValidBlocks(blocks)
      modifies this
      ensures var eff := MaxNat(MaxNat(old(lastAssigned), MaxTaskId(d)), hostFloor);
              ids == blocks(eff, CountOf(count)).ids && lastAssigned == blocks(eff, CountOf(count)).highWater
      ensures |ids| == if count > 1 then count else 1
      ensures forall i :: 0 <= i < |ids| ==> old(lastAssigned) < ids[i] <= lastAssigned
      ensures forall i, n :: 0 <= i < |ids| && n in Ids(d.tasks) + d.archivedIds ==> n < ids[i]
    {
      var maxId := MaxExistingTaskId(d);
      var current := MaxNat(lastAssigned, maxId);
      var eff := MaxNat(current, hostFloor);
      var n := CountOf(count);
      var block := blocks(eff, n);
      assert IsBlock(eff, n, block);
      lastAssigned := block.highWater;
      ids := block.ids;
    }

    method MergeWith(theirs: nat, tasksMax: nat)
      modifies this
      ensures lastAssigned == MergedCounter(old(lastAssigned), theirs, tasksMax)
      ensures old(lastAssigned) <= lastAssigned && theirs <= lastAssigned && tasksMax <= lastAssigned
      ensures lastAssigned in {old(lastAssigned), theirs, tasksMax}
    {
      lastAssigned := MaxNat(MaxNat(lastAssigned, theirs), tasksMax);
    }

    /** Raise a counter that lags the document; never lower one. */
    method Heal(d: Doc) returns (healed: bool)
      modifies this
      ensures lastAssigned == MaxNat(old(lastAssigned), MaxTaskId(d))
      ensures healed <==> old(lastAssigned) < MaxTaskId(d)
    {
      var maxId := MaxExistingTaskId(d);
      healed := false;
      if lastAssigned < maxId {
        lastAssigned := maxId;
        healed := true;
      }
    }
  }

  /** What happens to one machine's counter; documents change freely in between. */
  datatype Event =
    | Alloc(doc: Doc, count: int, hostFloor: nat)
    | Merged(theirs: nat, tasksMax: nat)
    | Healed(doc: Doc)

  ghost function Allocated(c: nat, e: Event, blocks: Blocks): Block
    requires e.Alloc?
  {
    blocks(MaxNat(MaxNat(c, MaxTaskId(e.doc)), e.hostFloor), CountOf(e.count))
  }

  ghost function CounterAfter(c: nat, e: Event, blocks: Blocks): nat {
    match e
    case Alloc(_, _, _) => Allocated(c, e, blocks).highWater
    case Merged(theirs, tasksMax) => MergedCounter(c, theirs, tasksMax)
    case Healed(d) => MaxNat(c, MaxTaskId(d))
  }

  ghost function CounterAt(start: nat, es: seq<Event>, k: nat, blocks: Blocks): nat
    requires k <= |es|
  {
    if k == 0 then start else CounterAfter(CounterAt(start, es, k - 1, blocks), es[k - 1], blocks)
  }

  ghost function BlockAt(start: nat, es: seq<Event>, k: nat, blocks: Blocks): Block
    requires k < |es| && es[k].Alloc?
  {
    Allocated(CounterAt(start, es, k, blocks), es[k], blocks)
  }

  lemma OneEventRaises(c: nat, e: Event, blocks: Blocks)
    requires ValidBlocks(blocks)
    ensures c <= CounterAfter(c, e, blocks)
  {
    if e.Alloc? {
      var eff := MaxNat(MaxNat(c, MaxTaskId(e.doc)), e.hostFloor);
      assert IsBlock(eff, CountOf(e.count), blocks(eff, CountOf(e.count)));
    }
  }

  lemma {:induction false} CounterNeverDrops(start: nat, es: seq<Event>, i: nat, j: nat, blocks: Blocks)
    requires ValidBlocks(blocks) && i <= j <= |es|
    ensures CounterAt(start, es, i, blocks) <= CounterAt(start, es, j, blocks)
    decreases j
  {
    if i < j {
      CounterNeverDrops(start, es, i, j - 1, blocks);
      OneEventRaises(CounterAt(start, es, j - 1, blocks), es[j - 1], blocks);
    }
  }

  /** No id is ever issued twice: a block lies above every id of the document it was allocated
      against and above every block allocated before it, whatever merges and heals come between. */
  lemma IdsAreNeverReissued(start: nat, es: seq<Event>, i: nat, j: nat, blocks: Blocks)
    requires ValidBlocks(blocks) && i < j < |es| && es[i].Alloc? && es[j].Alloc?
    ensures forall x, y :: x in BlockAt(start, es, i, blocks).ids && y in BlockAt(start, es, j, blocks).ids ==> x < y
    ensures forall n, y ::
      n in Ids(es[j].doc.tasks) + es[j].doc.archivedIds && y in BlockAt(start, es, j, blocks).ids ==> n < y
  {
    CounterNeverDrops(start, es, i + 1, j, blocks);
    BlockIsAbove(CounterAt(start, es, i, blocks), es[i], blocks);
    BlockIsAbove(CounterAt(start, es, j, blocks), es[j], blocks);
  }

  lemma BlockIsAbove(c: nat, e: Event, blocks: Blocks)
    requires ValidBlocks(blocks) && e.Alloc?
    ensures forall y :: y in Allocated(c, e, blocks).ids ==>
      MaxNat(c, MaxTaskId(e.doc)) < y <= Allocated(c, e, blocks).highWater
  {
    var eff := MaxNat(MaxNat(c, MaxTaskId(e.doc)), e.hostFloor);
    assert IsBlock(eff, CountOf(e.count), blocks(eff, CountOf(e.count)));
  }

  /** The sequential fallback is such a block function. */
  lemma SequentialIsValid(c: nat, n: nat)
    requires n >= 1
    ensures IsBlock(c, n, SequentialBlock(c, n))
  {
  }
}
