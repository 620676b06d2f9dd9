/** Which tasks are claimable: the tasks loop of the work aggregator. */
module FreeWork {
  import opened Seqs
  import opened Tasks
  import ArchiveDone

  /** What the aggregator reads besides the task list: titles under a live lease, owners that
      count as this machine's, and tasks another session has announced. */
  datatype View = View(leased: string -> bool, mine: string -> bool, announced: (string, nat) -> bool)

  datatype Bucket = ByLease | Elsewhere | Blocked | Announced | Free | Unlisted

  /** Some prerequisite that is in the active list is not done. */
  predicate HasUnmet(byId: map<nat, Task>, t: Task) {
    exists n :: n in t.details.prerequisites && n in byId && byId[n].state != Done
  }

  predicate NamesBlocker(blocker: string) { blocker !in {"", "none", "None"} }

  predicate IsBlocked(byId: map<nat, Task>, t: Task) {
    NamesBlocker(t.details.blocker) || HasUnmet(byId, t)
  }

  function BucketOf(v: View, byId: map<nat, Task>, t: Task): Bucket {
    if v.leased(t.title) then ByLease
    else if t.state == InProgress && !v.mine(t.details.owner) then Elsewhere
    else if IsBlocked(byId, t) then Blocked
    else if t.state == Queued && v.mine(t.details.owner) then
      (if v.announced(t.title, t.id) then Announced else Free)
    else Unlisted
  }

  function InBuckets(v: View, byId: map<nat, Task>, bs: set<Bucket>): Task -> bool {
    (t: Task) => BucketOf(v, byId, t) in bs
  }

  function Rank(t: Task): nat { if t.details.priority < 2 then t.details.priority else 2 }

  function HasRank(r: nat): Task -> bool { (t: Task) => Rank(t) == r }

  /** A stable sort by a three-valued rank. */
  function ByRank(ts: seq<Task>): seq<Task> {
    Filter(ts, HasRank(0)) + Filter(ts, HasRank(1)) + Filter(ts, HasRank(2))
  }

  const CLAIMED := {ByLease, Elsewhere, Announced}

  ghost function FreeList(v: View, ts: seq<Task>): seq<Task> {
    ByRank(Filter(ts, InBuckets(v, ById(ts), {Free})))
  }

  lemma SameWithinRank(ts: seq<Task>, r: nat)
    requires r <= 2
    ensures Filter(ByRank(ts), HasRank(r)) == Filter(ts, HasRank(r))
  {
    var f0, f1, f2 := Filter(ts, HasRank(0)), Filter(ts, HasRank(1)), Filter(ts, HasRank(2));
    RankOnly(ts, 0, r);
    RankOnly(ts, 1, r);
    RankOnly(ts, 2, r);
    FilterSplit(f0 + f1, f2, HasRank(r));
    FilterSplit(f0, f1, HasRank(r));
  }

  /** `ByRank` is the stable sort: within a rank the records and their order are those of the
      input, and ranks never decrease. */
  lemma ByRankIsStableSort(ts: seq<Task>)
    ensures forall r {:trigger HasRank(r)} :: 0 <= r <= 2 ==> Filter(ByRank(ts), HasRank(r)) == Filter(ts, HasRank(r))
    ensures forall i, j :: 0 <= i < j < |ByRank(ts)| ==> Rank(ByRank(ts)[i]) <= Rank(ByRank(ts)[j])
    ensures forall i, j :: 0 <= i < j < |ByRank(ts)| && ByRank(ts)[j].details.priority < 2 ==>
      ByRank(ts)[i].details.priority <= ByRank(ts)[j].details.priority
  {
    forall r {:trigger HasRank(r)} | 0 <= r <= 2 ensures Filter(ByRank(ts), HasRank(r)) == Filter(ts, HasRank(r)) {
      SameWithinRank(ts, r);
    }
    RankOnly(ts, 0, 0);
    RankOnly(ts, 1, 1);
    RankOnly(ts, 2, 2);
    ThreeRuns(Filter(ts, HasRank(0)), Filter(ts, HasRank(1)), Filter(ts, HasRank(2)));
  }

  lemma ThreeRuns(f0: seq<Task>, f1: seq<Task>, f2: seq<Task>)
    requires forall i :: 0 <= i < |f0| ==> Rank(f0[i]) == 0
    requires forall i :: 0 <= i < |f1| ==> Rank(f1[i]) == 1
    requires forall i :: 0 <= i < |f2| ==> Rank(f2[i]) == 2
    ensures forall i, j :: 0 <= i < j < |f0 + f1 + f2| ==> Rank((f0 + f1 + f2)[i]) <= Rank((f0 + f1 + f2)[j])
  {
    var all := f0 + f1 + f2;
    forall i | 0 <= i < |all| ensures Rank(all[i]) == if i < |f0| then 0 else if i < |f0| + |f1| then 1 else 2 {
    }
  }

  lemma RankOnly(ts: seq<Task>, k: nat, r: nat)
    ensures forall i :: 0 <= i < |Filter(ts, HasRank(k))| ==> Rank(Filter(ts, HasRank(k))[i]) == k
    ensures Filter(Filter(ts, HasRank(k)), HasRank(r)) == if k == r then Filter(ts, HasRank(k)) else []
  {
    var f := Filter(ts, HasRank(k));
    FilterMembers(ts, HasRank(k));
    forall i | 0 <= i < |f| ensures Rank(f[i]) == k {
      assert f[i] in f;
    }
    if k == r {
      FilterAll(f, HasRank(r));
    } else {
      FilterNone(f, HasRank(r));
    }
  }

  method Classify(v: View, byId: map<nat, Task>, t: Task) returns (b: Bucket)
    ensures b == BucketOf(v, byId, t)
    ensures b == Free <==>
      && t.state == Queued && v.mine(t.details.owner) && !v.leased(t.title) && !v.announced(t.title, t.id)
      && t.details.blocker in {"", "none", "None"}
      && forall n :: n in t.details.prerequisites && n in byId ==> byId[n].state == Done
    ensures b == Blocked <==>
      && !v.leased(t.title) && (t.state == InProgress ==> v.mine(t.details.owner))
      && (t.details.blocker !in {"", "none", "None"}
          || exists n :: n in t.details.prerequisites && n in byId && byId[n].state != Done)
  {
    if v.leased(t.title) {
      return ByLease;
    }
    var blocked := NamesBlocker(t.details.blocker);
    var prereqs := t.details.prerequisites;
    for j := 0 to |prereqs|
      invariant blocked == (NamesBlocker(t.details.blocker)
        || exists i :: 0 <= i < j && prereqs[i] in byId && byId[prereqs[i]].state != Done)
    {
      if prereqs[j] in byId && byId[prereqs[j]].state != Done {
        blocked := true;
      }
    }
    assert HasUnmet(byId, t) ==> exists i :: 0 <= i < |prereqs| && prereqs[i] in byId && byId[prereqs[i]].state != Done;
    if t.state == InProgress && !v.mine(t.details.owner) {
      return Elsewhere;
    } else if blocked {
      return Blocked;
    } else if t.state == Queued && v.mine(t.details.owner) {
      return if v.announced(t.title, t.id) then Announced else Free;
    }
    return Unlisted;
  }

  lemma BucketStep(v: View, byId: map<nat, Task>, ts: seq<Task>, i: nat, bs: set<Bucket>)
    requires i < |ts|
    ensures Filter(ts[..i + 1], InBuckets(v, byId, bs))
         == Filter(ts[..i], InBuckets(v, byId, bs)) + if BucketOf(v, byId, ts[i]) in bs then [ts[i]] else []
  {
    FilterStep(ts, i, InBuckets(v, byId, bs));
  }

  /** The tasks loop of the aggregator, and the final sort of each bucket. */
  method AggregateTasks(v: View, ts: seq<Task>) returns (claimed: seq<Task>, blocked: seq<Task>, free: seq<Task>)
    ensures claimed == ByRank(Filter(ts, InBuckets(v, ById(ts), CLAIMED)))
    ensures blocked == ByRank(Filter(ts, InBuckets(v, ById(ts), {Blocked})))
    ensures free == FreeList(v, ts)
  {
    var byId, order := IndexById(ts);
    claimed, blocked, free := [], [], [];
    for i := 0 to |ts|
      invariant claimed == Filter(ts[..i], InBuckets(v, byId, CLAIMED))
      invariant blocked == Filter(ts[..i], InBuckets(v, byId, {Blocked}))
      invariant free == Filter(ts[..i], InBuckets(v, byId, {Free}))
    {
      BucketStep(v, byId, ts, i, CLAIMED);
      BucketStep(v, byId, ts, i, {Blocked});
      BucketStep(v, byId, ts, i, {Free});
      var b := Classify(v, byId, ts[i]);
      if b == Free {
        free := free + [ts[i]];
      } else if b == Blocked {
        blocked := blocked + [ts[i]];
      } else if b != Unlisted {
        claimed := claimed + [ts[i]];
      }
    }
    assert ts[..|ts|] == ts;
    claimed, blocked, free := ByRank(claimed), ByRank(blocked), ByRank(free);
  }

  lemma {:induction false} ByRankMembers(ts: seq<Task>, t: Task)
    ensures t in ByRank(ts) <==> t in ts
  {
    FilterMembers(ts, HasRank(0));
    FilterMembers(ts, HasRank(1));
    FilterMembers(ts, HasRank(2));
    assert HasRank(Rank(t))(t);
  }

  /** What FREE means: queued here, claimed by nobody, named as blocked by nothing, and with every
      listed prerequisite that is active done. */
  lemma FreeMeans(v: View, ts: seq<Task>, t: Task)
    requires UniqueIds(ts)
    ensures t in FreeList(v, ts) <==>
      && t in ts && t.state == Queued && v.mine(t.details.owner)
      && !v.leased(t.title) && !v.announced(t.title, t.id) && t.details.blocker in {"", "none", "None"}
      && forall p :: p in ts && p.id in t.details.prerequisites ==> p.state == Done
  {
    var free := InBuckets(v, ById(ts), {Free});
    ByRankMembers(Filter(ts, free), t);
    FilterMembers(ts, free);
    UnmetMeans(ts, t);
  }

  lemma UnmetMeans(ts: seq<Task>, t: Task)
    requires UniqueIds(ts)
    ensures HasUnmet(ById(ts), t) <==> exists p :: p in ts && p.id in t.details.prerequisites && p.state != Done
  {
    ByIdHolds(ts);
    if p :| p in ts && p.id in t.details.prerequisites && p.state != Done {
      ByIdFinds(ts, p);
    }
  }

  /** What the blocked list means: not leased, not in progress elsewhere, and stopped by a named
      blocker or by an active prerequisite that is not done. */
  lemma BlockedMeans(v: View, ts: seq<Task>, t: Task)
    requires UniqueIds(ts)
    ensures t in ByRank(Filter(ts, InBuckets(v, ById(ts), {Blocked}))) <==>
      && t in ts && !v.leased(t.title) && (t.state == InProgress ==> v.mine(t.details.owner))
      && (t.details.blocker !in {"", "none", "None"}
          || exists p :: p in ts && p.id in t.details.prerequisites && p.state != Done)
  {
    var blocked := InBuckets(v, ById(ts), {Blocked});
    ByRankMembers(Filter(ts, blocked), t);
    FilterMembers(ts, blocked);
    UnmetMeans(ts, t);
  }

  /** What the claimed list means: leased, in progress elsewhere, or otherwise FREE but announced. */
  lemma ClaimedMeans(v: View, ts: seq<Task>, t: Task)
    requires UniqueIds(ts)
    ensures t in ByRank(Filter(ts, InBuckets(v, ById(ts), CLAIMED))) <==>
      && t in ts
      && (|| v.leased(t.title)
          || (t.state == InProgress && !v.mine(t.details.owner))
          || (t.state == Queued && v.mine(t.details.owner) && v.announced(t.title, t.id)
              && t.details.blocker in {"", "none", "None"}
              && forall p :: p in ts && p.id in t.details.prerequisites ==> p.state == Done))
  {
    var claimed := InBuckets(v, ById(ts), CLAIMED);
    ByRankMembers(Filter(ts, claimed), t);
    FilterMembers(ts, claimed);
    UnmetMeans(ts, t);
  }

  /** A dependency of an open task looks the same before and after an archiving run. */
  lemma SameDependency(d: Doc, t: Task, n: nat)
    requires UniqueIds(d.tasks) && t in ArchiveDone.ArchivedDoc(d).tasks && !ArchiveDone.IsTerminal(t)
    requires n in ArchiveDone.Refs(t)
    ensures var m, m' := ById(d.tasks), ById(ArchiveDone.ArchivedDoc(d).tasks);
            (n in m <==> n in m') && (n in m ==> m[n] == m'[n])
  {
    var ts, ts' := d.tasks, ArchiveDone.ArchivedDoc(d).tasks;
    FilterMembers(ts, ArchiveDone.IdOutside(Ids(ArchiveDone.ToArchive(ts))));
    StillUnique(d);
    if n in ById(ts) {
      ByIdAt(ts, n);
      ArchiveDone.DependenciesStay(d, t, ById(ts)[n]);
      ByIdFinds(ts', ById(ts)[n]);
    } else if n in ById(ts') {
      ByIdAt(ts', n);
      ByIdFinds(ts, ById(ts')[n]);
    }
  }

  ghost predicate AgreeOn(m: map<nat, Task>, m': map<nat, Task>, n: nat) {
    (n in m <==> n in m') && (n in m ==> m[n] == m'[n])
  }

  lemma SameUnmet(m: map<nat, Task>, m': map<nat, Task>, t: Task)
    requires forall n :: n in t.details.prerequisites ==> AgreeOn(m, m', n)
    ensures HasUnmet(m, t) == HasUnmet(m', t)
  {
    if n :| n in t.details.prerequisites && n in m && m[n].state != Done {
      assert AgreeOn(m, m', n);
    }
    if n :| n in t.details.prerequisites && n in m' && m'[n].state != Done {
      assert AgreeOn(m, m', n);
    }
  }

  /** An archiving run does not change which bucket an open task falls in. */
  lemma SameBucket(v: View, d: Doc, t: Task)
    requires UniqueIds(d.tasks) && t in ArchiveDone.ArchivedDoc(d).tasks && !ArchiveDone.IsTerminal(t)
    ensures BucketOf(v, ById(ArchiveDone.ArchivedDoc(d).tasks), t) == BucketOf(v, ById(d.tasks), t)
  {
    var m, m' := ById(d.tasks), ById(ArchiveDone.ArchivedDoc(d).tasks);
    forall n | n in t.details.prerequisites ensures AgreeOn(m, m', n) {
      assert n in ArchiveDone.Refs(t);
      SameDependency(d, t, n);
    }
    SameUnmet(m, m', t);
  }

  lemma StillUnique(d: Doc)
    requires UniqueIds(d.tasks)
    ensures UniqueIds(ArchiveDone.ArchivedDoc(d).tasks)
  {
    var ts, p := d.tasks, ArchiveDone.IdOutside(Ids(ArchiveDone.ToArchive(d.tasks)));
    var ts' := Filter(ts, p);
    forall i, j | 0 <= i < j < |ts'| ensures ts'[i].id != ts'[j].id {
      var i', j' := FilterPositions(ts, p, i, j);
    }
  }

  lemma FreeStays(v: View, byId: map<nat, Task>, d: Doc, t: Task)
    requires UniqueIds(d.tasks) && t in d.tasks && BucketOf(v, byId, t) == Free
    ensures t.id !in Ids(ArchiveDone.ToArchive(d.tasks))
  {
    ArchiveDone.WhoStays(d.tasks, t);
  }

  lemma FreeAgrees(v: View, d: Doc, t: Task)
    requires UniqueIds(d.tasks) && t in ArchiveDone.ArchivedDoc(d).tasks
    ensures (BucketOf(v, ById(ArchiveDone.ArchivedDoc(d).tasks), t) == Free) == (BucketOf(v, ById(d.tasks), t) == Free)
  {
    if !ArchiveDone.IsTerminal(t) {
      SameBucket(v, d, t);
    }
  }

  /** Archiving leaves the FREE list equal as a sequence. */
  lemma ArchivingKeepsFreeList(v: View, d: Doc)
    requires UniqueIds(d.tasks)
    ensures FreeList(v, ArchiveDone.ArchivedDoc(d).tasks) == FreeList(v, d.tasks)
  {
    var ts, ts' := d.tasks, ArchiveDone.ArchivedDoc(d).tasks;
    var stays := ArchiveDone.IdOutside(Ids(ArchiveDone.ToArchive(ts)));
    var free, free' := InBuckets(v, ById(ts), {Free}), InBuckets(v, ById(ts'), {Free});
    forall t | t in ts ensures free(t) == (stays(t) && free(t)) {
      if free(t) {
        FreeStays(v, ById(ts), d, t);
      }
    }
    FilterTwice(ts, stays, free, free);
    forall t | t in ts' ensures free'(t) == free(t) {
      FreeAgrees(v, d, t);
    }
    FilterAgree(ts', free', free);
  }
}
