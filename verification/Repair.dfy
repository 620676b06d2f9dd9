/** Repair of the two lease invariants: no live lease on a finished task, and one live lease per
    task. Planning never trusts a fuzzy title match; applying goes through `unclaim`. */
module Repair {
  import opened Seqs
  import opened Leases
  import opened Pruning
  import opened LeaseCommands
  import T = Tasks

  type TaskMap = map<nat, T.Task>

  datatype Invariant = I1 | I2

  /** A planned release. A lease without a claim id cannot be released and yields none. */
  datatype Release = Release(inv: Invariant, claimId: string)

  /** The governed task a lease names explicitly. */
  function Strict(byId: TaskMap, r: Row): Option<nat> {
    if r.title.embedded.Some? && !r.title.embedded.value.short && r.title.embedded.value.number in byId
    then NumberOf(r.title.embedded) else None
  }

  predicate IsFinished(byId: TaskMap, r: Row) {
    Strict(byId, r).Some? && byId[Strict(byId, r).value].state == T.Done
  }

  /** The key as coded: the row's own `fenceCounter`, then its expiry. */
  predicate KeyLess(r: Row, s: Row) {
    r.ownCounter < s.ownCounter || (r.ownCounter == s.ownCounter && r.expires < s.expires)
  }

  predicate Rivals(byId: TaskMap, r: Row, s: Row) { Strict(byId, r).Some? && Strict(byId, r) == Strict(byId, s) }

  /** The first lease with the largest key among those of its task. */
  predicate IsWinner(byId: TaskMap, leases: seq<Row>, w: nat)
    requires w < |leases|
  {
    Strict(byId, leases[w]).Some?
    && forall j :: 0 <= j < |leases| && Rivals(byId, leases[w], leases[j]) ==>
         !KeyLess(leases[w], leases[j]) && (!KeyLess(leases[j], leases[w]) ==> w <= j)
  }

  predicate IsLoser(byId: TaskMap, leases: seq<Row>, i: nat)
    requires i < |leases|
  {
    Strict(byId, leases[i]).Some? && !IsWinner(byId, leases, i)
  }

  predicate FinishedRelease(byId: TaskMap, r: Row, a: Release) {
    IsFinished(byId, r) && r.claimId != "" && a == Release(I1, r.claimId)
  }

  predicate LoserRelease(byId: TaskMap, leases: seq<Row>, i: nat, a: Release)
    requires i < |leases|
  {
    IsLoser(byId, leases, i) && leases[i].claimId != "" && a == Release(I2, leases[i].claimId)
  }

  /** The lease's label embeds the two-digit id of a task on the list that is done. */
  ghost predicate ClaimsDoneTask(tasks: seq<T.Task>, r: Row) {
    exists t :: t in tasks && t.state == T.Done
      && r.title.embedded.Some? && r.title.embedded.value.number == t.id && !r.title.embedded.value.short
  }

  lemma FinishedMeans(tasks: seq<T.Task>, r: Row)
    requires T.UniqueIds(tasks)
    ensures IsFinished(T.ById(tasks), r) <==> ClaimsDoneTask(tasks, r)
  {
    T.ByIdHolds(tasks);
    if t :| t in tasks && t.state == T.Done
            && r.title.embedded.Some? && r.title.embedded.value.number == t.id && !r.title.embedded.value.short {
      T.ByIdFinds(tasks, t);
    }
  }

  method PlanI1Fixes(leases: seq<Row>, tasks: seq<T.Task>) returns (out: seq<Release>)
    ensures forall a :: a in out <==> exists i :: 0 <= i < |leases| && FinishedRelease(T.ById(tasks), leases[i], a)
    ensures T.UniqueIds(tasks) ==> forall c :: Release(I1, c) in out <==>
      c != "" && exists i :: 0 <= i < |leases| && leases[i].claimId == c && ClaimsDoneTask(tasks, leases[i])
  {
    var byId, order := T.IndexById(tasks);
    out := [];
    for i := 0 to |leases|
      invariant forall a :: a in out <==> exists k :: 0 <= k < i && FinishedRelease(byId, leases[k], a)
    {
      if IsFinished(byId, leases[i]) && leases[i].claimId != "" {
        out := out + [Release(I1, leases[i].claimId)];
      }
    }
    if T.UniqueIds(tasks) {
      DoneReleases(tasks, leases, out);
    }
  }

  lemma DoneReleases(tasks: seq<T.Task>, leases: seq<Row>, out: seq<Release>)
    requires T.UniqueIds(tasks)
    requires forall a :: a in out <==> exists i :: 0 <= i < |leases| && FinishedRelease(T.ById(tasks), leases[i], a)
    ensures forall c :: Release(I1, c) in out <==>
      c != "" && exists i :: 0 <= i < |leases| && leases[i].claimId == c && ClaimsDoneTask(tasks, leases[i])
  {
    forall i | 0 <= i < |leases| ensures IsFinished(T.ById(tasks), leases[i]) <==> ClaimsDoneTask(tasks, leases[i]) {
      FinishedMeans(tasks, leases[i]);
    }
    forall c
      ensures Release(I1, c) in out <==>
        c != "" && exists i :: 0 <= i < |leases| && leases[i].claimId == c && ClaimsDoneTask(tasks, leases[i])
    {
      if i :| 0 <= i < |leases| && leases[i].claimId == c && c != "" && ClaimsDoneTask(tasks, leases[i]) {
        assert FinishedRelease(T.ById(tasks), leases[i], Release(I1, c));
      }
    }
  }

  /** A lease that names a governed task loses it if and only if another lease names the same task
      and has a higher counter of its own, or the same one and a later expiry, or both alike and
      comes first. */
  lemma LoserIsBeaten(byId: TaskMap, leases: seq<Row>, i: nat)
    requires i < |leases|
    ensures var e := leases[i].title.embedded;
      IsLoser(byId, leases, i) <==>
        && e.Some? && !e.value.short && e.value.number in byId
        && exists j :: 0 <= j < |leases| && Beats(leases, j, i)
  {
    if IsLoser(byId, leases, i) {
      var j :| 0 <= j < |leases| && Rivals(byId, leases[i], leases[j])
               && (KeyLess(leases[i], leases[j]) || (!KeyLess(leases[j], leases[i]) && j < i));
      assert Beats(leases, j, i);
    }
    if j :| 0 <= j < |leases| && Beats(leases, j, i) && Strict(byId, leases[i]).Some? {
      assert Rivals(byId, leases[i], leases[j]);
    }
  }

  /** Both labels embed one two-digit id, and lease `j` is the one to keep. */
  predicate Beats(leases: seq<Row>, j: nat, i: nat)
    requires i < |leases| && j < |leases|
  {
    var r, s := leases[i], leases[j];
    && r.title.embedded.Some? && s.title.embedded.Some? && !s.title.embedded.value.short
    && s.title.embedded.value.number == r.title.embedded.value.number
    && (|| r.ownCounter < s.ownCounter
        || (r.ownCounter == s.ownCounter && r.expires < s.expires)
        || (r.ownCounter == s.ownCounter && r.expires == s.expires && j < i))
  }

  /** The first `n` leases of task `id`, by position. */
  function GroupUpTo(leases: seq<Row>, byId: TaskMap, id: nat, n: nat): seq<nat>
    requires n <= |leases|
  {
    if n == 0 then []
    else
      var front := GroupUpTo(leases, byId, id, n - 1);
      if Strict(byId, leases[n - 1]) == Some(id) then front + [n - 1] else front
  }

  predicate Ascending(s: seq<nat>) { forall p, q :: 0 <= p < q < |s| ==> s[p] < s[q] }

  lemma {:induction false} GroupMembers(leases: seq<Row>, byId: TaskMap, id: nat, n: nat)
    requires n <= |leases|
    ensures Ascending(GroupUpTo(leases, byId, id, n))
    ensures forall p :: 0 <= p < |GroupUpTo(leases, byId, id, n)| ==>
      GroupUpTo(leases, byId, id, n)[p] < n && Strict(byId, leases[GroupUpTo(leases, byId, id, n)[p]]) == Some(id)
    ensures forall k: nat :: k < n && Strict(byId, leases[k]) == Some(id) ==> k in GroupUpTo(leases, byId, id, n)
  {
    if n > 0 {
      GroupMembers(leases, byId, id, n - 1);
    }
  }

  /** Positions of the leases of each task, and the tasks in order of first appearance. */
  method GroupByTask(leases: seq<Row>, byId: TaskMap) returns (groups: map<nat, seq<nat>>, order: seq<nat>)
    ensures forall id :: id in groups <==> id in order
    ensures forall id: nat :: (if id in groups then groups[id] else []) == GroupUpTo(leases, byId, id, |leases|)
    ensures forall id :: id in groups ==> groups[id] != []
  {
    groups, order := map[], [];
    for i := 0 to |leases|
      invariant forall id :: id in groups <==> id in order
      invariant forall id: nat :: (if id in groups then groups[id] else []) == GroupUpTo(leases, byId, id, i)
      invariant forall id :: id in groups ==> groups[id] != []
    {
      var t := Strict(byId, leases[i]);
      if t.Some? {
        if t.value !in groups {
          order := order + [t.value];
        }
        groups := groups[t.value := (if t.value in groups then groups[t.value] else []) + [i]];
      }
    }
  }

  /** The first position with the largest key. */
  method BestOf(leases: seq<Row>, group: seq<nat>) returns (w: nat)
    requires group != [] && Ascending(group) && forall p :: 0 <= p < |group| ==> group[p] < |leases|
    ensures exists p :: 0 <= p < |group| && group[p] == w
    ensures w < |leases| && forall p :: 0 <= p < |group| ==>
      !KeyLess(leases[w], leases[group[p]]) && (!KeyLess(leases[group[p]], leases[w]) ==> w <= group[p])
  {
    var best := 0;
    for p := 1 to |group|
      invariant 0 <= best < p <= |group|
      invariant forall q :: 0 <= q < p ==> !KeyLess(leases[group[best]], leases[group[q]])
      invariant forall q :: 0 <= q < p && !KeyLess(leases[group[q]], leases[group[best]]) ==> best <= q
    {
      if KeyLess(leases[group[best]], leases[group[p]]) {
        best := p;
      }
    }
    w := group[best];
  }

  method EmitOthers(leases: seq<Row>, group: seq<nat>, winner: nat) returns (out: seq<Release>)
    requires forall p :: 0 <= p < |group| ==> group[p] < |leases|
    ensures forall a :: a in out <==> exists p :: 0 <= p < |group| && OtherRelease(leases, group[p], winner, a)
  {
    out := [];
    for p := 0 to |group|
      invariant forall a :: a in out <==> exists q :: 0 <= q < p && OtherRelease(leases, group[q], winner, a)
    {
      if group[p] != winner && leases[group[p]].claimId != "" {
        out := out + [Release(I2, leases[group[p]].claimId)];
      }
    }
  }

  predicate OtherRelease(leases: seq<Row>, k: nat, winner: nat, a: Release)
    requires k < |leases|
  {
    k != winner && leases[k].claimId != "" && a == Release(I2, leases[k].claimId)
  }

  predicate TaskLoserRelease(byId: TaskMap, leases: seq<Row>, id: nat, k: nat, a: Release)
    requires k < |leases|
  {
    Strict(byId, leases[k]) == Some(id) && LoserRelease(byId, leases, k, a)
  }

  /** The releases of one group: everybody but the winner. */
  method LosersOf(leases: seq<Row>, byId: TaskMap, id: nat, group: seq<nat>) returns (out: seq<Release>)
    requires group != [] && group == GroupUpTo(leases, byId, id, |leases|)
    ensures forall a :: a in out <==> exists k :: 0 <= k < |leases| && TaskLoserRelease(byId, leases, id, k, a)
  {
    GroupMembers(leases, byId, id, |leases|);
    var winner := BestOf(leases, group);
    out := EmitOthers(leases, group, winner);
    forall a ensures a in out <==> exists k :: 0 <= k < |leases| && TaskLoserRelease(byId, leases, id, k, a) {
      GroupReleases(byId, leases, id, group, winner, a);
    }
  }

  lemma GroupReleases(byId: TaskMap, leases: seq<Row>, id: nat, group: seq<nat>, winner: nat, a: Release)
    requires group == GroupUpTo(leases, byId, id, |leases|)
    requires winner < |leases| && Strict(byId, leases[winner]) == Some(id)
    requires forall p :: 0 <= p < |group| ==> group[p] < |leases|
    requires forall p :: 0 <= p < |group| ==>
      !KeyLess(leases[winner], leases[group[p]]) && (!KeyLess(leases[group[p]], leases[winner]) ==> winner <= group[p])
    ensures (exists p :: 0 <= p < |group| && OtherRelease(leases, group[p], winner, a))
       <==> (exists k :: 0 <= k < |leases| && TaskLoserRelease(byId, leases, id, k, a))
  {
    GroupMembers(leases, byId, id, |leases|);
    if p :| 0 <= p < |group| && OtherRelease(leases, group[p], winner, a) {
      OneWinner(byId, leases, id, group, winner, group[p]);
      assert TaskLoserRelease(byId, leases, id, group[p], a);
    }
    if k :| 0 <= k < |leases| && TaskLoserRelease(byId, leases, id, k, a) {
      OneWinner(byId, leases, id, group, winner, k);
      assert k in group;
      var p :| 0 <= p < |group| && group[p] == k;
      assert OtherRelease(leases, group[p], winner, a);
    }
  }

  lemma OneWinner(byId: TaskMap, leases: seq<Row>, id: nat, group: seq<nat>, winner: nat, k: nat)
    requires group == GroupUpTo(leases, byId, id, |leases|)
    requires winner < |leases| && Strict(byId, leases[winner]) == Some(id)
    requires forall p :: 0 <= p < |group| ==> group[p] < |leases|
    requires forall p :: 0 <= p < |group| ==>
      !KeyLess(leases[winner], leases[group[p]]) && (!KeyLess(leases[group[p]], leases[winner]) ==> winner <= group[p])
    requires k < |leases| && Strict(byId, leases[k]) == Some(id)
    ensures IsLoser(byId, leases, k) <==> k != winner
  {
    GroupMembers(leases, byId, id, |leases|);
    forall j: nat | j < |leases| && Strict(byId, leases[j]) == Some(id)
      ensures !KeyLess(leases[winner], leases[j]) && (!KeyLess(leases[j], leases[winner]) ==> winner <= j)
    {
      var p :| 0 <= p < |group| && group[p] == j;
    }
    assert IsWinner(byId, leases, winner);
    if k != winner && IsWinner(byId, leases, k) {
      assert Rivals(byId, leases[k], leases[winner]);
      assert false;
    }
  }

  method PlanI2Fixes(leases: seq<Row>, tasks: seq<T.Task>) returns (out: seq<Release>)
    ensures forall a :: a in out <==> exists i :: 0 <= i < |leases| && LoserRelease(T.ById(tasks), leases, i, a)
  {
    var byId, tOrder := T.IndexById(tasks);
    var groups, order := GroupByTask(leases, byId);
    out := [];
    for n := 0 to |order|
      invariant forall a :: a in out <==> PlannedFor(byId, leases, order[..n], a)
    {
      assert order[n] in groups && order[..n + 1] == order[..n] + [order[n]];
      var losers := LosersOf(leases, byId, order[n], groups[order[n]]);
      forall a
        ensures PlannedFor(byId, leases, order[..n + 1], a) <==> PlannedFor(byId, leases, order[..n], a) || a in losers
      {
        PlannedForOneMore(byId, leases, order[..n], order[n], a);
      }
      out := out + losers;
    }
    assert order[..|order|] == order;
    forall k: nat | k < |leases| && Strict(byId, leases[k]).Some? ensures Strict(byId, leases[k]).value in order {
      GroupMembers(leases, byId, Strict(byId, leases[k]).value, |leases|);
    }
    forall a
      ensures PlannedFor(byId, leases, order, a) <==> exists i :: 0 <= i < |leases| && LoserRelease(byId, leases, i, a)
    {
      PlannedForAll(byId, leases, order, a);
    }
  }

  /** Release `a` is planned for one of the tasks `ids`. */
  ghost predicate PlannedFor(byId: TaskMap, leases: seq<Row>, ids: seq<nat>, a: Release) {
    exists k :: 0 <= k < |leases| && InTasks(byId, leases[k], ids) && LoserRelease(byId, leases, k, a)
  }

  predicate InTasks(byId: TaskMap, r: Row, ids: seq<nat>) { Strict(byId, r).Some? && Strict(byId, r).value in ids }

  lemma PlannedForOneMore(byId: TaskMap, leases: seq<Row>, ids: seq<nat>, id: nat, a: Release)
    ensures PlannedFor(byId, leases, ids + [id], a)
       <==> (PlannedFor(byId, leases, ids, a)
             || exists k :: 0 <= k < |leases| && TaskLoserRelease(byId, leases, id, k, a))
  {
    if k :| 0 <= k < |leases| && InTasks(byId, leases[k], ids + [id]) && LoserRelease(byId, leases, k, a) {
      assert InTasks(byId, leases[k], ids) || TaskLoserRelease(byId, leases, id, k, a);
    }
    if k :| 0 <= k < |leases| && InTasks(byId, leases[k], ids) && LoserRelease(byId, leases, k, a) {
      assert InTasks(byId, leases[k], ids + [id]);
    }
    if k :| 0 <= k < |leases| && TaskLoserRelease(byId, leases, id, k, a) {
      assert InTasks(byId, leases[k], ids + [id]);
    }
  }

  lemma PlannedForAll(byId: TaskMap, leases: seq<Row>, ids: seq<nat>, a: Release)
    requires forall k: nat :: k < |leases| && Strict(byId, leases[k]).Some? ==> Strict(byId, leases[k]).value in ids
    ensures PlannedFor(byId, leases, ids, a) <==> exists i :: 0 <= i < |leases| && LoserRelease(byId, leases, i, a)
  {
    if i :| 0 <= i < |leases| && LoserRelease(byId, leases, i, a) {
      assert InTasks(byId, leases[i], ids);
    }
  }

  // ----- applying a plan

  function LiveAt(now: int): Row -> bool { (r: Row) => IsLive(r, now) }

  /** The live leases the planner sees. */
  function LiveLeases(f: File, now: int): seq<Row> { Filter(f.rows, LiveAt(now)) }

  function OpenRows(f: File): seq<Row> { Filter(f.rows, IsOpen()) }

  function NotClaimed(claims: seq<string>): Row -> bool { (r: Row) => r.claimId !in claims }

  /** Open rows are distinct, and no two share a claim id. */
  ghost predicate Sane(f: File) {
    TokensIncrease(f.rows)
    && forall i, j :: 0 <= i < j < |f.rows| && Open(f.rows[i]) && Open(f.rows[j]) && f.rows[i].claimId != "" ==>
         f.rows[i].claimId != f.rows[j].claimId
  }

  /** Clocks that one `unclaim` reads. */
  datatype Clock = Clock(now: int, pruneNow: int)

  ghost function ApplyReleases(f: File, claims: seq<string>, clocks: seq<Clock>): File
    requires |claims| == |clocks|
  {
    if claims == [] then f
    else
      var n := |claims| - 1;
      After(ApplyReleases(f, claims[..n], clocks[..n]), Unclaim(claims[n]), clocks[n].now, clocks[n].pruneNow)
  }

  lemma PrunedSane(f: File, now: int)
    requires Sane(f)
    ensures Sane(f.(rows := Pruned(f.rows, now)))
  {
    var kept := Pruned(f.rows, now);
    forall i, j | 0 <= i < j < |kept|
      ensures kept[i].fence < kept[j].fence
      ensures Open(kept[i]) && Open(kept[j]) && kept[i].claimId != "" ==> kept[i].claimId != kept[j].claimId
    {
      var i', j' := KeptPositions(f.rows, Recent(f.rows), now, |f.rows|, i, j);
    }
  }

  /** No other open row of `rows` carries the claim id `c`. */
  ghost predicate OnlyAt(rows: seq<Row>, k: nat, c: string) {
    forall i :: 0 <= i < |rows| && i != k && Open(rows[i]) ==> rows[i].claimId != c
  }

  lemma OthersStay(front: seq<Row>, c: string)
    requires forall i :: 0 <= i < |front| && Open(front[i]) ==> front[i].claimId != c
    ensures Filter(Filter(front, IsOpen()), NotClaimed([c])) == Filter(front, IsOpen())
  {
    FilterMembers(front, IsOpen());
    forall r | r in Filter(front, IsOpen()) ensures NotClaimed([c])(r) {
      var i :| 0 <= i < |front| && front[i] == r;
    }
    FilterAll(Filter(front, IsOpen()), NotClaimed([c]));
  }

  lemma OneMoreRow(front: seq<Row>, front': seq<Row>, x: Row, c: string)
    requires Filter(front', IsOpen()) == Filter(Filter(front, IsOpen()), NotClaimed([c]))
    requires Open(x) ==> x.claimId != c
    ensures Filter(front' + [x], IsOpen()) == Filter(Filter(front + [x], IsOpen()), NotClaimed([c]))
  {
    FilterSnoc(front', x, IsOpen());
    FilterSnoc(front, x, IsOpen());
    FilterSnoc(Filter(front, IsOpen()), x, NotClaimed([c]));
  }

  lemma OneFewerRow(front: seq<Row>, x: Row, row: Row)
    requires Open(x) && !Open(row) && forall i :: 0 <= i < |front| && Open(front[i]) ==> front[i].claimId != x.claimId
    ensures Filter(front + [row], IsOpen()) == Filter(Filter(front + [x], IsOpen()), NotClaimed([x.claimId]))
  {
    FilterSnoc(front, row, IsOpen());
    FilterSnoc(front, x, IsOpen());
    FilterSnoc(Filter(front, IsOpen()), x, NotClaimed([x.claimId]));
    OthersStay(front, x.claimId);
  }

  lemma {:induction false} ReplaceThenFilter(rows: seq<Row>, k: nat, row: Row)
    requires k < |rows| && Open(rows[k]) && !Open(row) && OnlyAt(rows, k, rows[k].claimId)
    ensures Filter(rows[k := row], IsOpen()) == Filter(Filter(rows, IsOpen()), NotClaimed([rows[k].claimId]))
  {
    var n := |rows| - 1;
    var front := rows[..n];
    assert rows == front + [rows[n]];
    if k == n {
      assert rows[k := row] == front + [row];
      OneFewerRow(front, rows[n], row);
    } else {
      assert rows[k := row] == front[k := row] + [rows[n]];
      ReplaceThenFilter(front, k, row);
      OneMoreRow(front, front[k := row], rows[n], rows[k].claimId);
    }
  }

  lemma UnclaimHit(f: File, k: nat, now: int, pruneNow: int)
    requires Sane(f) && k < |f.rows| && Open(f.rows[k]) && f.rows[k].claimId != ""
    ensures var rows := f.rows[k := Ended(f.rows[k], Released, now)];
      && Sane(f.(rows := Pruned(rows, pruneNow)))
      && Filter(Pruned(rows, pruneNow), IsOpen()) == Filter(OpenRows(f), NotClaimed([f.rows[k].claimId]))
  {
    var rows := f.rows[k := Ended(f.rows[k], Released, now)];
    ReplaceThenFilter(f.rows, k, Ended(f.rows[k], Released, now));
    PruningKeepsOpenRows(rows, pruneNow);
    PrunedSane(f.(rows := rows), pruneNow);
  }

  lemma UnclaimMiss(f: File, claimId: string)
    requires LastIndex(f.rows, HasClaim(claimId)).None? && claimId != ""
    ensures OpenRows(f) == Filter(OpenRows(f), NotClaimed([claimId]))
  {
    FilterMembers(f.rows, IsOpen());
    forall r | r in OpenRows(f) ensures NotClaimed([claimId])(r) {
      var i :| 0 <= i < |f.rows| && f.rows[i] == r;
      assert !HasClaim(claimId)(f.rows[i]);
    }
    FilterAll(OpenRows(f), NotClaimed([claimId]));
  }

  /** One release takes exactly the open rows with that claim id out, whatever its clocks. */
  lemma UnclaimOpenRows(f: File, claimId: string, now: int, pruneNow: int)
    requires Sane(f) && claimId != ""
    ensures var g := After(f, Unclaim(claimId), now, pruneNow);
            Sane(g) && OpenRows(g) == Filter(OpenRows(f), NotClaimed([claimId]))
  {
    var k := LastIndex(f.rows, HasClaim(claimId));
    if k.None? {
      UnclaimMiss(f, claimId);
    } else {
      UnclaimHit(f, k.value, now, pruneNow);
    }
  }

  lemma NotClaimedSnoc(rows: seq<Row>, claims: seq<string>, c: string)
    ensures Filter(Filter(rows, NotClaimed(claims)), NotClaimed([c])) == Filter(rows, NotClaimed(claims + [c]))
  {
    FilterTwice(rows, NotClaimed(claims), NotClaimed([c]), NotClaimed(claims + [c]));
  }

  lemma {:induction false} ApplyOpenRows(f: File, claims: seq<string>, clocks: seq<Clock>)
    requires |claims| == |clocks| && Sane(f) && "" !in claims
    ensures Sane(ApplyReleases(f, claims, clocks))
    ensures OpenRows(ApplyReleases(f, claims, clocks)) == Filter(OpenRows(f), NotClaimed(claims))
  {
    if claims == [] {
      FilterAll(OpenRows(f), NotClaimed(claims));
    } else {
      var n := |claims| - 1;
      var before := ApplyReleases(f, claims[..n], clocks[..n]);
      assert claims == claims[..n] + [claims[n]];
      ApplyOpenRows(f, claims[..n], clocks[..n]);
      UnclaimOpenRows(before, claims[n], clocks[n].now, clocks[n].pruneNow);
      NotClaimedSnoc(OpenRows(f), claims[..n], claims[n]);
    }
  }

  // ----- planning again

  /** `claims` lists the claim ids of everything planned for `leases`. */
  ghost predicate IsPlan(byId: TaskMap, leases: seq<Row>, claims: seq<string>) {
    forall c :: c in claims <==> exists i :: 0 <= i < |leases| && IsTargeted(byId, leases, i) && leases[i].claimId == c
  }

  /** I1 or I2 plans a release of lease `i`. */
  predicate IsTargeted(byId: TaskMap, leases: seq<Row>, i: nat)
    requires i < |leases|
  {
    leases[i].claimId != "" && (IsFinished(byId, leases[i]) || IsLoser(byId, leases, i))
  }

  function ClaimsOf(plan: seq<Release>): seq<string> { seq(|plan|, i requires 0 <= i < |plan| => plan[i].claimId) }

  lemma ReleasesArePlan(byId: TaskMap, leases: seq<Row>, i1: seq<Release>, i2: seq<Release>)
    requires forall a :: a in i1 <==> exists i :: 0 <= i < |leases| && FinishedRelease(byId, leases[i], a)
    requires forall a :: a in i2 <==> exists i :: 0 <= i < |leases| && LoserRelease(byId, leases, i, a)
    ensures IsPlan(byId, leases, ClaimsOf(i1 + i2))
  {
    var plan := i1 + i2;
    forall c | c in ClaimsOf(plan)
      ensures exists i :: 0 <= i < |leases| && IsTargeted(byId, leases, i) && leases[i].claimId == c
    {
      var k :| 0 <= k < |plan| && ClaimsOf(plan)[k] == c;
      assert plan[k] in i1 || plan[k] in i2;
    }
    forall i | 0 <= i < |leases| && IsTargeted(byId, leases, i) ensures leases[i].claimId in ClaimsOf(plan) {
      var inv := if IsFinished(byId, leases[i]) then I1 else I2;
      var a := Release(inv, leases[i].claimId);
      assert FinishedRelease(byId, leases[i], a) || LoserRelease(byId, leases, i, a);
      assert a in plan;
      var k :| 0 <= k < |plan| && plan[k] == a;
      assert ClaimsOf(plan)[k] == a.claimId;
    }
  }

  /** Both invariants' releases, I1 first; a claim may be named by both. */
  method PlanFixes(leases: seq<Row>, tasks: seq<T.Task>) returns (plan: seq<Release>)
    ensures IsPlan(T.ById(tasks), leases, ClaimsOf(plan))
    ensures forall a ::
      a in plan <==> exists i :: 0 <= i < |leases| && (FinishedRelease(T.ById(tasks), leases[i], a)
                                                       || LoserRelease(T.ById(tasks), leases, i, a))
  {
    var i1 := PlanI1Fixes(leases, tasks);
    var i2 := PlanI2Fixes(leases, tasks);
    plan := i1 + i2;
    ReleasesArePlan(T.ById(tasks), leases, i1, i2);
  }

  /** With tokens rising along the list, winning is a property of the row, not of its position. */
  predicate Wins(byId: TaskMap, leases: seq<Row>, r: Row) {
    Strict(byId, r).Some?
    && forall j :: 0 <= j < |leases| && Rivals(byId, r, leases[j]) ==>
         !KeyLess(r, leases[j]) && (!KeyLess(leases[j], r) ==> r.fence <= leases[j].fence)
  }

  lemma WinnerByToken(byId: TaskMap, leases: seq<Row>, w: nat)
    requires TokensIncrease(leases) && w < |leases|
    ensures IsWinner(byId, leases, w) <==> Wins(byId, leases, leases[w])
  {
  }

  lemma SublistTokens(leases: seq<Row>, p: Row -> bool)
    requires TokensIncrease(leases)
    ensures TokensIncrease(Filter(leases, p))
  {
    forall i, j | 0 <= i < j < |Filter(leases, p)| ensures Filter(leases, p)[i].fence < Filter(leases, p)[j].fence {
      var i', j' := FilterPositions(leases, p, i, j);
    }
  }

  /** What a sublist still targets, the whole list targeted. */
  lemma TargetedBefore(byId: TaskMap, leases: seq<Row>, p: Row -> bool, i: nat) returns (k: nat)
    requires TokensIncrease(leases) && i < |Filter(leases, p)| && IsTargeted(byId, Filter(leases, p), i)
    ensures k < |leases| && leases[k] == Filter(leases, p)[i] && IsTargeted(byId, leases, k)
  {
    var sub := Filter(leases, p);
    k := FilterSource(leases, p, i);
    SublistTokens(leases, p);
    WinnerByToken(byId, sub, i);
    WinnerByToken(byId, leases, k);
    if Wins(byId, leases, leases[k]) {
      forall j | 0 <= j < |sub| && Rivals(byId, sub[i], sub[j])
        ensures !KeyLess(sub[i], sub[j]) && (!KeyLess(sub[j], sub[i]) ==> sub[i].fence <= sub[j].fence)
      {
        var j' := FilterSource(leases, p, j);
      }
      assert Wins(byId, sub, sub[i]);
    }
  }

  function Survives(claims: seq<string>, later: int): Row -> bool {
    (r: Row) => r.claimId !in claims && IsLive(r, later)
  }

  /** The live leases after the releases, at any later time, are a sublist of those planned on. */
  lemma LaterLeases(f: File, claims: seq<string>, clocks: seq<Clock>, now: int, later: int)
    requires |claims| == |clocks| && Sane(f) && "" !in claims && now <= later
    ensures LiveLeases(ApplyReleases(f, claims, clocks), later) == Filter(LiveLeases(f, now), Survives(claims, later))
  {
    var g := ApplyReleases(f, claims, clocks);
    ApplyOpenRows(f, claims, clocks);
    FilterTwice(g.rows, IsOpen(), LiveAt(later), LiveAt(later));
    FilterTwice(OpenRows(f), NotClaimed(claims), LiveAt(later), Survives(claims, later));
    FilterTwice(f.rows, IsOpen(), Survives(claims, later), Survives(claims, later));
    FilterTwice(f.rows, LiveAt(now), Survives(claims, later), Survives(claims, later));
  }

  /** After every planned release is applied, planning again at any later time finds nothing. */
  lemma RepairReachesFixedPoint(f: File, byId: TaskMap, claims: seq<string>, clocks: seq<Clock>, now: int, later: int)
    requires |claims| == |clocks| && Sane(f) && now <= later
    requires IsPlan(byId, LiveLeases(f, now), claims)
    ensures var again := LiveLeases(ApplyReleases(f, claims, clocks), later);
      forall i :: 0 <= i < |again| ==> !IsTargeted(byId, again, i)
  {
    var leases := LiveLeases(f, now);
    PlanNamesClaims(byId, leases, claims);
    LaterLeases(f, claims, clocks, now, later);
    SublistTokens(f.rows, LiveAt(now));
    var again := Filter(leases, Survives(claims, later));
    FilterMembers(leases, Survives(claims, later));
    forall i | 0 <= i < |again| ensures !IsTargeted(byId, again, i) {
      if IsTargeted(byId, again, i) {
        var k := TargetedBefore(byId, leases, Survives(claims, later), i);
        SurvivorUnclaimed(leases, claims, later, i);
      }
    }
  }

  lemma SurvivorUnclaimed(leases: seq<Row>, claims: seq<string>, later: int, i: nat)
    requires i < |Filter(leases, Survives(claims, later))|
    ensures Filter(leases, Survives(claims, later))[i].claimId !in claims
  {
    FilterMembers(leases, Survives(claims, later));
    assert Filter(leases, Survives(claims, later))[i] in Filter(leases, Survives(claims, later));
  }

  lemma PlanNamesClaims(byId: TaskMap, leases: seq<Row>, claims: seq<string>)
    requires IsPlan(byId, leases, claims)
    ensures "" !in claims
  {
  }

  /** A lease that the plan does not target is still open afterwards: in particular the winner of
      every open task, and every lease that names no governed task explicitly. */
  lemma UntargetedStays(f: File, byId: TaskMap, claims: seq<string>, clocks: seq<Clock>, now: int, w: nat)
    requires |claims| == |clocks| && Sane(f) && IsPlan(byId, LiveLeases(f, now), claims)
    requires w < |LiveLeases(f, now)|
    requires var leases := LiveLeases(f, now);
      || (leases[w].title.embedded.None? || leases[w].title.embedded.value.short
          || leases[w].title.embedded.value.number !in byId)
      || (byId[leases[w].title.embedded.value.number].state != T.Done
          && forall j :: 0 <= j < |leases| ==> !Beats(leases, j, w))
    ensures LiveLeases(f, now)[w] in OpenRows(ApplyReleases(f, claims, clocks))
  {
    var leases := LiveLeases(f, now);
    PlanNamesClaims(byId, leases, claims);
    ApplyOpenRows(f, claims, clocks);
    LoserIsBeaten(byId, leases, w);
    if leases[w].claimId in claims {
      var i :| 0 <= i < |leases| && IsTargeted(byId, leases, i) && leases[i].claimId == leases[w].claimId;
      ClaimsDiffer(f, now, i, w);
    }
    FilterMembers(f.rows, LiveAt(now));
    assert leases[w] in leases;
    FilterMembers(f.rows, IsOpen());
    FilterMembers(OpenRows(f), NotClaimed(claims));
  }

  lemma ClaimsDiffer(f: File, now: int, i: nat, j: nat)
    requires Sane(f) && i < |LiveLeases(f, now)| && j < |LiveLeases(f, now)|
    requires LiveLeases(f, now)[i].claimId == LiveLeases(f, now)[j].claimId != ""
    ensures i == j
  {
    FilterMembers(f.rows, LiveAt(now));
    var leases := LiveLeases(f, now);
    assert leases[i] in leases && leases[j] in leases;
    if i < j {
      var i', j' := FilterPositions(f.rows, LiveAt(now), i, j);
    } else if j < i {
      var j', i' := FilterPositions(f.rows, LiveAt(now), j, i);
    }
  }

  /** The rows that commands write carry no `fenceCounter` of their own, so among them the winner
      is the lease that expires last, whatever its fence token. */
  lemma WinnerExpiresLast(byId: TaskMap, leases: seq<Row>, w: nat)
    requires w < |leases| && forall i :: 0 <= i < |leases| ==> leases[i].ownCounter == 0
    ensures IsWinner(byId, leases, w) <==>
      (Strict(byId, leases[w]).Some?
       && forall j :: 0 <= j < |leases| && Rivals(byId, leases[w], leases[j]) ==>
            leases[j].expires < leases[w].expires || (leases[j].expires == leases[w].expires && w <= j))
  {
  }

  /** The rival that the documentation would keep: no lease of its task has a higher token. */
  ghost predicate HasTopToken(byId: TaskMap, leases: seq<Row>, h: nat)
    requires h < |leases|
  {
    Strict(byId, leases[h]).Some?
    && forall j :: 0 <= j < |leases| && Rivals(byId, leases[h], leases[j]) ==> leases[j].fence <= leases[h].fence
  }

  lemma LowerTokenIsEarlier(leases: seq<Row>, j: nat, h: nat)
    requires TokensIncrease(leases) && j < |leases| && h < |leases| && j != h
    requires leases[j].fence <= leases[h].fence
    ensures j < h
  {
  }

  /** The lease with the highest token is kept if and only if every other lease of its task
      expires strictly earlier; in every other case the repair releases the newest lease. */
  lemma TopTokenWinsExactly(byId: TaskMap, leases: seq<Row>, h: nat)
    requires TokensIncrease(leases) && h < |leases| && HasTopToken(byId, leases, h)
    requires forall i :: 0 <= i < |leases| ==> leases[i].ownCounter == 0
    ensures IsWinner(byId, leases, h) <==>
      forall j :: 0 <= j < |leases| && j != h && Rivals(byId, leases[h], leases[j]) ==>
        leases[j].expires < leases[h].expires
  {
    forall j | 0 <= j < |leases| && j != h && Rivals(byId, leases[h], leases[j]) ensures j < h {
      LowerTokenIsEarlier(leases, j, h);
    }
    WinnerExpiresLast(byId, leases, h);
  }

  /** A case: the task was leased again for a shorter time, and the newer lease is the one released. */
  lemma NewerLeaseIsReleased(byId: TaskMap, r: Row, older: string, newer: string, token: nat)
    requires Strict(byId, r).Some? && newer != ""
    ensures var leases := [r.(claimId := older, fence := token, ownCounter := 0, expires := 20),
                           r.(claimId := newer, fence := token + 1, ownCounter := 0, expires := 10)];
      && TokensIncrease(leases) && HasTopToken(byId, leases, 1)
      && IsWinner(byId, leases, 0) && LoserRelease(byId, leases, 1, Release(I2, newer))
  {
    var leases := [r.(claimId := older, fence := token, ownCounter := 0, expires := 20),
                   r.(claimId := newer, fence := token + 1, ownCounter := 0, expires := 10)];
    TopTokenWinsExactly(byId, leases, 1);
    assert Rivals(byId, leases[1], leases[0]);
    WinnerExpiresLast(byId, leases, 0);
  }
}
