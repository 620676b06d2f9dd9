/** Second half of the task merge: records that share (createdAt, title) at different ids are
    clones of one logical task and fold onto the lowest id. */
module Converge {
  import opened Seqs
  import opened Tasks

  function InCluster(k: LogicalKey): Task -> bool { (t: Task) => IsKeyed(t) && Key(t) == k }

  /** All records of one logical task, in list order. */
  function Cluster(ts: seq<Task>, k: LogicalKey): seq<Task> { Filter(ts, InCluster(k)) }

  ghost predicate Clones(x: Task, y: Task) { IsKeyed(x) && IsKeyed(y) && Key(x) == Key(y) }

  /** `t` is not the lowest id of its cluster, so its id folds away. */
  ghost predicate FoldsAway(ts: seq<Task>, t: Task) {
    exists u :: u in ts && Clones(u, t) && u.id < t.id
  }

  ghost predicate HasClone(ts: seq<Task>, t: Task) {
    exists u :: u in ts && Clones(u, t) && u.id != t.id
  }

  /** The most progressed record of a non-empty cluster, later ones winning ties. */
  function FoldPick(ms: seq<Task>): Task
    requires ms != []
  {
    if |ms| == 1 then ms[0] else Pick(FoldPick(ms[..|ms| - 1]), ms[|ms| - 1])
  }

  function PriorFolds(ms: seq<Task>): set<nat> {
    set m, i | m in ms && i in m.dedupedFrom :: i
  }

  /** The merged record a cluster leaves at its lowest id. */
  ghost function Merged(ts: seq<Task>, t: Task): Task
    requires t in ts && IsKeyed(t)
  {
    var ms := Cluster(ts, Key(t));
    FilterMembers(ts, InCluster(Key(t)));
    FoldPick(ms).(id := t.id, dedupedFrom := Ids(ms) - {t.id} + PriorFolds(ms))
  }

  /** What a record that does not fold away becomes. */
  ghost function Survivor(ts: seq<Task>, t: Task): Task
    requires t in ts
  {
    if HasClone(ts, t) then Merged(ts, t) else t
  }

  /** The folded list, over the first `n` records. */
  ghost function FoldedUpTo(ts: seq<Task>, n: nat): seq<Task>
    requires n <= |ts|
  {
    if n == 0 then []
    else
      var front := FoldedUpTo(ts, n - 1);
      if FoldsAway(ts, ts[n - 1]) then front else front + [Survivor(ts, ts[n - 1])]
  }

  ghost function Folded(ts: seq<Task>): seq<Task> { FoldedUpTo(ts, |ts|) }

  lemma {:induction false} FoldPickIsBest(ms: seq<Task>)
    requires ms != []
    ensures FoldPick(ms) in ms
    ensures forall m :: m in ms ==> RankLe(m, FoldPick(ms))
  {
    if |ms| > 1 {
      FoldPickIsBest(ms[..|ms| - 1]);
      assert ms == ms[..|ms| - 1] + [ms[|ms| - 1]];
    }
  }

  lemma {:induction false} FoldedUpToMembers(ts: seq<Task>, n: nat)
    requires n <= |ts|
    ensures forall r :: r in FoldedUpTo(ts, n) <==> IsEmitted(ts, n, r)
  {
    if n > 0 {
      FoldedUpToMembers(ts, n - 1);
      forall r
        ensures IsEmitted(ts, n, r) <==>
          IsEmitted(ts, n - 1, r) || (!FoldsAway(ts, ts[n - 1]) && r == Survivor(ts, ts[n - 1]))
      {
        EmitOneMore(ts, n - 1, r);
      }
    }
  }

  ghost predicate IsEmitted(ts: seq<Task>, n: nat, r: Task)
    requires n <= |ts|
  {
    exists i :: 0 <= i < n && !FoldsAway(ts, ts[i]) && r == Survivor(ts, ts[i])
  }

  lemma EmitOneMore(ts: seq<Task>, n: nat, r: Task)
    requires n < |ts|
    ensures IsEmitted(ts, n + 1, r) <==> IsEmitted(ts, n, r) || (!FoldsAway(ts, ts[n]) && r == Survivor(ts, ts[n]))
  {
  }

  /** The result holds exactly the survivors of the records that do not fold away. */
  lemma FoldedMembers(ts: seq<Task>)
    ensures forall r :: r in Folded(ts) <==> exists t :: t in ts && !FoldsAway(ts, t) && r == Survivor(ts, t)
  {
    FoldedUpToMembers(ts, |ts|);
    forall t | t in ts && !FoldsAway(ts, t) ensures Survivor(ts, t) in Folded(ts) {
      var i :| 0 <= i < |ts| && ts[i] == t;
      assert IsEmitted(ts, |ts|, Survivor(ts, t));
    }
    forall r | r in Folded(ts) ensures exists t :: t in ts && !FoldsAway(ts, t) && r == Survivor(ts, t) {
      assert IsEmitted(ts, |ts|, r);
      var i :| 0 <= i < |ts| && !FoldsAway(ts, ts[i]) && r == Survivor(ts, ts[i]);
      assert ts[i] in ts;
    }
  }

  /** A survivor keeps its id and key, and its progress is the best of its cluster. */
  lemma SurvivorOf(ts: seq<Task>, t: Task) returns (src: Task)
    requires t in ts && UniqueIds(ts)
    ensures var r := Survivor(ts, t);
            && r.id == t.id && Key(r) == Key(t) && (IsKeyed(t) ==> IsKeyed(r))
            && src in ts && (src == t || Clones(src, t)) && Erase(r) == Erase(src) && RankLe(t, r)
            && (forall u :: u in ts && Clones(u, t) ==> RankLe(u, r))
    ensures !HasClone(ts, t) ==> Survivor(ts, t) == t
  {
    if HasClone(ts, t) {
      FilterMembers(ts, InCluster(Key(t)));
      FoldPickIsBest(Cluster(ts, Key(t)));
      src := FoldPick(Cluster(ts, Key(t)));
    } else {
      src := t;
      forall u | u in ts && Clones(u, t) ensures RankLe(u, t) {
        SameIdSameTask(ts, u, t);
      }
    }
  }

  /** Every record has a lowest-id clone, which stays. */
  lemma {:induction false} LowestClone(ts: seq<Task>, t: Task) returns (c: Task)
    requires t in ts
    ensures c in ts && c.id <= t.id && (c == t || Clones(c, t)) && !FoldsAway(ts, c)
    decreases t.id
  {
    c := t;
    if FoldsAway(ts, t) {
      var u :| u in ts && Clones(u, t) && u.id < t.id;
      c := LowestClone(ts, u);
    }
  }

  /** Folding drops no logical task and no creation stamp, and records every id it folds. */
  lemma FoldKeepsEveryTask(ts: seq<Task>, t: Task) returns (r: Task)
    requires t in ts && UniqueIds(ts)
    ensures r in Folded(ts) && Key(r) == Key(t) && RankLe(t, r)
    ensures r.createdAt == t.createdAt && r.title == t.title
    ensures r.id == t.id || t.id in r.dedupedFrom
    ensures t.dedupedFrom <= r.dedupedFrom
  {
    var c := LowestClone(ts, t);
    r := Survivor(ts, c);
    FoldedMembers(ts);
    var src := SurvivorOf(ts, c);
    if c != t && c.id == t.id {
      SameIdSameTask(ts, c, t);
    }
    FilterMembers(ts, InCluster(Key(c)));
    if HasClone(ts, c) {
      assert t in Cluster(ts, Key(c));
    } else {
      assert c == t;
    }
  }

  /** A record of the result sits at an id that was there, under the same key. */
  lemma FoldedSource(ts: seq<Task>, r: Task) returns (t: Task)
    requires r in Folded(ts) && UniqueIds(ts)
    ensures t in ts && !FoldsAway(ts, t) && r == Survivor(ts, t) && r.id == t.id && Key(r) == Key(t) && RankLe(t, r)
    ensures IsKeyed(t) ==> IsKeyed(r)
  {
    FoldedMembers(ts);
    t :| t in ts && !FoldsAway(ts, t) && r == Survivor(ts, t);
    var src := SurvivorOf(ts, t);
  }

  /** A record that does not fold away leaves a record at its own id. */
  lemma StayerSurvives(ts: seq<Task>, t: Task) returns (r: Task)
    requires t in ts && UniqueIds(ts) && !FoldsAway(ts, t)
    ensures r in Folded(ts) && r.id == t.id && Key(r) == Key(t) && RankLe(t, r)
  {
    FoldedMembers(ts);
    var src := SurvivorOf(ts, t);
    r := Survivor(ts, t);
  }

  lemma {:induction false} FoldedUpToIds(ts: seq<Task>, n: nat)
    requires n <= |ts| && UniqueIds(ts)
    ensures UniqueIds(FoldedUpTo(ts, n))
    ensures forall r :: r in FoldedUpTo(ts, n) ==> IdAmong(ts, n, r.id)
  {
    if n > 0 {
      FoldedUpToIds(ts, n - 1);
      var src := SurvivorOf(ts, ts[n - 1]);
      AppendAtNewId(ts, n - 1, FoldedUpTo(ts, n - 1), Survivor(ts, ts[n - 1]));
    }
  }

  ghost predicate IdAmong(ts: seq<Task>, n: nat, id: nat)
    requires n <= |ts|
  {
    exists i :: 0 <= i < n && ts[i].id == id
  }

  lemma AppendAtNewId(ts: seq<Task>, n: nat, front: seq<Task>, r: Task)
    requires n < |ts| && UniqueIds(ts) && UniqueIds(front) && r.id == ts[n].id
    requires forall x :: x in front ==> IdAmong(ts, n, x.id)
    ensures UniqueIds(front + [r])
    ensures forall x :: x in front + [r] ==> IdAmong(ts, n + 1, x.id)
    ensures forall x :: x in front ==> IdAmong(ts, n + 1, x.id)
  {
    forall x | x in front ensures x.id != r.id && IdAmong(ts, n + 1, x.id) {
      var i :| 0 <= i < n && ts[i].id == x.id;
    }
    forall k | 0 <= k < |front| ensures front[k].id != r.id {
      assert front[k] in front;
    }
  }

  /** After folding, ids are still distinct and no two records are clones. */
  lemma FoldedIsConverged(ts: seq<Task>)
    requires UniqueIds(ts)
    ensures UniqueIds(Folded(ts)) && Ids(Folded(ts)) <= Ids(ts)
    ensures forall x, y :: x in Folded(ts) && y in Folded(ts) && Clones(x, y) ==> x == y
  {
    FoldedUpToIds(ts, |ts|);
    forall x, y | x in Folded(ts) && y in Folded(ts) && Clones(x, y) ensures x == y {
      var tx := FoldedSource(ts, x);
      var ty := FoldedSource(ts, y);
      assert Clones(tx, ty) && Clones(ty, tx);
      SameIdSameTask(ts, tx, ty);
    }
  }

  /** No two records of the result share both a creation stamp and a title. */
  lemma TwinsFold(ts: seq<Task>, x: Task, y: Task)
    requires UniqueIds(ts) && x in Folded(ts) && y in Folded(ts)
    requires x.createdAt == y.createdAt != 0 && x.title == y.title != ""
    ensures x == y
  {
    FoldedIsConverged(ts);
    assert Clones(x, y);
  }

  /** A record without a creation stamp or a title is left as it was, and so is one that shares
      them with no other. */
  lemma OthersAreLeftAlone(ts: seq<Task>, t: Task)
    requires UniqueIds(ts) && t in ts
    requires t.createdAt == 0 || t.title == ""
      || forall u :: u in ts && u.createdAt == t.createdAt && u.title == t.title ==> u.id == t.id
    ensures t in Folded(ts)
  {
    FoldedMembers(ts);
    LoneRecordStays(ts, t);
    assert Survivor(ts, t) == t;
  }

  method LowestId(ids: set<nat>) returns (m: nat)
    requires ids != {}
    ensures m in ids && forall i :: i in ids ==> m <= i
  {
    m :| m in ids;
    var todo := ids - {m};
    ghost var done := {m};
    while todo != {}
      invariant ids == done + todo && m in done
      invariant forall i :: i in done ==> m <= i
      decreases todo
    {
      var x :| x in todo;
      if x < m {
        m := x;
      }
      todo, done := todo - {x}, done + {x};
    }
  }

  /** Fold one cluster: the merged record at its lowest id, and the ids that fold away. */
  method FoldCluster(members: seq<Task>) returns (merged: Task, dropped: set<nat>)
    requires members != []
    ensures merged.id in Ids(members) && forall i :: i in Ids(members) ==> merged.id <= i
    ensures dropped == Ids(members) - {merged.id}
    ensures merged == FoldPick(members).(id := merged.id, dedupedFrom := dropped + PriorFolds(members))
  {
    var ids := set m: Task | m in members :: m.id;
    assert members[0].id in ids;
    var canonical := LowestId(ids);
    merged := members[0];
    var prior := members[0].dedupedFrom;
    for j := 1 to |members|
      invariant merged == FoldPick(members[..j])
      invariant prior == PriorFolds(members[..j])
    {
      assert members[..j + 1][..j] == members[..j];
      merged := Pick(merged, members[j]);
      prior := prior + members[j].dedupedFrom;
    }
    assert members[..|members|] == members;
    dropped := ids - {canonical};
    merged := merged.(id := canonical, dedupedFrom := dropped + prior);
  }

  /** Collect the keyed records by (createdAt, title), keys in order of first appearance. */
  method GroupClones(ts: seq<Task>) returns (groups: map<LogicalKey, seq<Task>>, order: seq<LogicalKey>)
    ensures Distinct(order) && forall k :: k in groups <==> k in order
    ensures forall k :: k in groups ==> groups[k] == Cluster(ts, k) && groups[k] != []
    ensures forall t :: t in ts && IsKeyed(t) ==> Key(t) in groups
  {
    groups, order := map[], [];
    for i := 0 to |ts|
      invariant Distinct(order) && forall k :: k in groups <==> k in order
      invariant forall k :: k in groups ==> groups[k] != []
      invariant forall k :: (if k in groups then groups[k] else []) == Cluster(ts[..i], k)
    {
      var t := ts[i];
      forall k ensures Cluster(ts[..i + 1], k) == Cluster(ts[..i], k) + if InCluster(k)(t) then [t] else [] {
        FilterStep(ts, i, InCluster(k));
      }
      if IsKeyed(t) {
        var k := Key(t);
        if k !in groups {
          order := order + [k];
        }
        groups := groups[k := (if k in groups then groups[k] else []) + [t]];
      }
    }
    assert ts[..|ts|] == ts;
    forall t | t in ts && IsKeyed(t) ensures Key(t) in groups {
      FilterMembers(ts, InCluster(Key(t)));
    }
  }

  lemma ClusterMembers(ts: seq<Task>, k: LogicalKey)
    ensures forall u :: u in Cluster(ts, k) <==> u in ts && IsKeyed(u) && Key(u) == k
  {
    FilterMembers(ts, InCluster(k));
  }

  /** A record has clones exactly when its cluster spans more than one id. */
  lemma ManyIds(ts: seq<Task>, t: Task)
    requires t in ts && IsKeyed(t)
    ensures t in Cluster(ts, Key(t))
    ensures HasClone(ts, t) <==> |Ids(Cluster(ts, Key(t)))| > 1
  {
    ClusterMembers(ts, Key(t));
    var ids := Ids(Cluster(ts, Key(t)));
    var others := ids - {t.id};
    assert ids == others + {t.id};
    if HasClone(ts, t) {
      var u :| u in ts && Clones(u, t) && u.id != t.id;
      assert u.id in others;
    } else if others != {} {
      var i :| i in others;
      var u :| u in Cluster(ts, Key(t)) && u.id == i;
      assert Clones(u, t);
    }
  }

  /** An id folds away exactly when its cluster has a lower one. */
  lemma LowerId(ts: seq<Task>, t: Task)
    requires t in ts && IsKeyed(t)
    ensures FoldsAway(ts, t) <==> exists i :: i in Ids(Cluster(ts, Key(t))) && i < t.id
  {
    ClusterMembers(ts, Key(t));
    if FoldsAway(ts, t) {
      var u :| u in ts && Clones(u, t) && u.id < t.id;
      assert u.id in Ids(Cluster(ts, Key(t)));
    }
  }

  /** The bookkeeping for `t` after the clusters in `done` have been folded. */
  ghost predicate SettledFor(ts: seq<Task>, winners: map<nat, Task>, drop: set<nat>, done: seq<LogicalKey>, t: Task)
    requires t in ts
  {
    if IsKeyed(t) && Key(t) in done then
      && (t.id in drop <==> FoldsAway(ts, t))
      && (t.id in winners <==> HasClone(ts, t) && !FoldsAway(ts, t))
      && (t.id in winners ==> winners[t.id] == Merged(ts, t))
    else
      t.id !in drop && t.id !in winners
  }

  ghost predicate Settled(ts: seq<Task>, winners: map<nat, Task>, drop: set<nat>, done: seq<LogicalKey>) {
    forall t :: t in ts ==> SettledFor(ts, winners, drop, done, t)
  }

  ghost predicate IsClusterFold(ms: seq<Task>, merged: Task, dropped: set<nat>) {
    && ms != []
    && merged.id in Ids(ms) && (forall i :: i in Ids(ms) ==> merged.id <= i)
    && dropped == Ids(ms) - {merged.id}
    && merged == FoldPick(ms).(id := merged.id, dedupedFrom := dropped + PriorFolds(ms))
  }

  lemma SettleMember(ts: seq<Task>, t: Task, merged: Task, dropped: set<nat>)
    requires UniqueIds(ts) && t in ts && IsKeyed(t)
    requires IsClusterFold(Cluster(ts, Key(t)), merged, dropped)
    ensures FoldsAway(ts, t) <==> t.id in dropped
    ensures t.id == merged.id ==> !FoldsAway(ts, t) && merged == Merged(ts, t)
    ensures t.id in Ids(Cluster(ts, Key(t)))
  {
    LowerId(ts, t);
    ClusterMembers(ts, Key(t));
    assert t.id in Ids(Cluster(ts, Key(t)));
  }

  lemma SettleStranger(ts: seq<Task>, t: Task, k: LogicalKey)
    requires UniqueIds(ts) && t in ts && !(IsKeyed(t) && Key(t) == k)
    ensures t.id !in Ids(Cluster(ts, k))
  {
    ClusterMembers(ts, k);
    if t.id in Ids(Cluster(ts, k)) {
      var u :| u in Cluster(ts, k) && u.id == t.id;
      SameIdSameTask(ts, t, u);
    }
  }

  lemma SettleCluster(ts: seq<Task>, winners: map<nat, Task>, drop: set<nat>, done: seq<LogicalKey>,
                      k: LogicalKey, merged: Task, dropped: set<nat>)
    requires UniqueIds(ts) && Settled(ts, winners, drop, done) && k !in done
    requires |Ids(Cluster(ts, k))| > 1 && IsClusterFold(Cluster(ts, k), merged, dropped)
    ensures Settled(ts, winners[merged.id := merged], drop + dropped, done + [k])
  {
    forall t | t in ts ensures SettledFor(ts, winners[merged.id := merged], drop + dropped, done + [k], t) {
      assert SettledFor(ts, winners, drop, done, t);
      if IsKeyed(t) && Key(t) == k {
        ManyIds(ts, t);
        SettleMember(ts, t, merged, dropped);
      } else {
        SettleStranger(ts, t, k);
      }
    }
  }

  lemma SettleSingle(ts: seq<Task>, winners: map<nat, Task>, drop: set<nat>, done: seq<LogicalKey>, k: LogicalKey)
    requires Settled(ts, winners, drop, done) && k !in done
    requires |Ids(Cluster(ts, k))| <= 1
    ensures Settled(ts, winners, drop, done + [k])
  {
    forall t | t in ts ensures SettledFor(ts, winners, drop, done + [k], t) {
      assert SettledFor(ts, winners, drop, done, t);
      if IsKeyed(t) && Key(t) == k {
        ManyIds(ts, t);
        LoneRecordStays(ts, t);
      }
    }
  }

  lemma LoneRecordStays(ts: seq<Task>, t: Task)
    requires !HasClone(ts, t)
    ensures !FoldsAway(ts, t)
  {
  }

  /** A list without clones is already converged. */
  lemma {:induction false} FoldedFixed(ts: seq<Task>, n: nat)
    requires n <= |ts| && forall t :: t in ts ==> !HasClone(ts, t)
    ensures FoldedUpTo(ts, n) == ts[..n]
  {
    if n > 0 {
      FoldedFixed(ts, n - 1);
      assert ts[..n] == ts[..n - 1] + [ts[n - 1]];
      LoneRecordStays(ts, ts[n - 1]);
    }
  }

  lemma UnkeyedStays(ts: seq<Task>, t: Task)
    ensures !IsKeyed(t) ==> !HasClone(ts, t) && !FoldsAway(ts, t)
    ensures FoldsAway(ts, t) ==> HasClone(ts, t)
  {
  }

  /** The converge pass. With no cluster of two ids it returns the list it was given. */
  method ConvergeDuplicateTasks(ts: seq<Task>) returns (out: seq<Task>)
    requires UniqueIds(ts)
    ensures out == Folded(ts)
  {
    var groups, order := GroupClones(ts);
    var divergent := false;
    for j := 0 to |order|
      invariant !divergent ==> forall i :: 0 <= i < j ==> |Ids(Cluster(ts, order[i]))| <= 1
    {
      assert order[j] in order;
      divergent := divergent || |(set m: Task | m in groups[order[j]] :: m.id)| > 1;
    }
    if !divergent {
      forall t | t in ts ensures !HasClone(ts, t) {
        if IsKeyed(t) {
          ManyIds(ts, t);
        }
      }
      FoldedFixed(ts, |ts|);
      return ts;
    }
    var winners: map<nat, Task>, drop: set<nat> := map[], {};
    for j := 0 to |order|
      invariant Settled(ts, winners, drop, order[..j])
    {
      var k := order[j];
      assert k in order && order[..j + 1] == order[..j] + [k];
      if |(set m: Task | m in groups[k] :: m.id)| > 1 {
        var merged, dropped := FoldCluster(groups[k]);
        SettleCluster(ts, winners, drop, order[..j], k, merged, dropped);
        winners, drop := winners[merged.id := merged], drop + dropped;
      } else {
        SettleSingle(ts, winners, drop, order[..j], k);
      }
    }
    assert order[..|order|] == order;
    out := EmitFolded(ts, winners, drop, order);
  }

  lemma EmitStep(ts: seq<Task>, winners: map<nat, Task>, drop: set<nat>, order: seq<LogicalKey>, i: nat)
    requires i < |ts| && SettledFor(ts, winners, drop, order, ts[i])
    requires IsKeyed(ts[i]) ==> Key(ts[i]) in order
    ensures FoldedUpTo(ts, i + 1) == FoldedUpTo(ts, i)
      + if ts[i].id in drop then [] else if ts[i].id in winners then [winners[ts[i].id]] else [ts[i]]
  {
    UnkeyedStays(ts, ts[i]);
  }

  method EmitFolded(ts: seq<Task>, winners: map<nat, Task>, drop: set<nat>, ghost order: seq<LogicalKey>)
    returns (out: seq<Task>)
    requires UniqueIds(ts) && Settled(ts, winners, drop, order)
    requires forall t :: t in ts && IsKeyed(t) ==> Key(t) in order
    ensures out == Folded(ts)
  {
    out := [];
    var emitted: set<nat> := {};
    for i := 0 to |ts|
      invariant out == FoldedUpTo(ts, i)
      invariant forall j :: i <= j < |ts| ==> ts[j].id !in emitted
    {
      var tid := ts[i].id;
      EmitStep(ts, winners, drop, order, i);
      if tid in drop {
        continue;
      }
      if tid in winners {
        if tid !in emitted {
          out := out + [winners[tid]];
          emitted := emitted + {tid};
        }
      } else {
        out := out + [ts[i]];
      }
    }
  }
}
