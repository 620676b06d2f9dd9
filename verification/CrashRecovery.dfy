/** Crash-recovery sweeps: requeue or park a task that is in progress without a live lease. */
module CrashRecovery {
  import opened Seqs
  import opened Leases
  import T = Tasks

  const GRACE := 30 * 60
  const RETRY_CAP := 3

  /** What one sweep reads. `task` maps a lease record to the task it resolves to, if any, under
      this sweep's task list. */
  datatype Sweep = Sweep(checkouts: seq<Row>, leases: seq<Row>, tasks: seq<T.Task>, now: int, task: Row -> Option<nat>)

  /** The machine-local record of one orphan. */
  datatype Strike = Strike(seenAt: Option<int>, recoveries: nat)

  type Strikes = map<nat, Strike>

  datatype Action = Requeue(taskId: nat) | Park(taskId: nat)

  ghost function LeasedIds(w: Sweep): set<nat> {
    set r | r in w.leases && w.task(r).Some? :: w.task(r).value
  }

  ghost predicate IsOrphan(w: Sweep, t: T.Task) { t.state == T.InProgress && t.id !in LeasedIds(w) }

  ghost predicate OrphanIn(w: Sweep, id: nat) { exists t :: t in w.tasks && t.id == id && IsOrphan(w, t) }

  function RecordOf(w: Sweep, id: nat): Row -> bool { (r: Row) => w.task(r) == Some(id) }

  function Records(w: Sweep, id: nat): seq<Row> { Filter(w.checkouts, RecordOf(w, id)) }

  predicate OlderRecord(r: Row, s: Row) { r.fence < s.fence || (r.fence == s.fence && r.expires < s.expires) }

  /** The record with the highest token, the later expiry on ties. */
  function Newest(rs: seq<Row>): Row
    requires rs != []
  {
    if |rs| == 1 then rs[0]
    else
      var best := Newest(rs[..|rs| - 1]);
      if OlderRecord(best, rs[|rs| - 1]) then rs[|rs| - 1] else best
  }

  /** The latest sign of life: end, expiry or last renewal. */
  function LastAlive(r: Row): int {
    var m := if r.expires >= r.renewedAt then r.expires else r.renewedAt;
    if r.endedAt.Some? && r.endedAt.value > m then r.endedAt.value else m
  }

  /** There is enough evidence that the task's session is gone. */
  predicate MayAct(w: Sweep, id: nat, s: Strike) {
    var rs := Records(w, id);
    if rs != [] then w.now - LastAlive(Newest(rs)) >= GRACE else s.seenAt.Some?
  }

  function StrikeOf(strikes: Strikes, id: nat): Strike { if id in strikes then strikes[id] else Strike(None, 0) }

  function ActionFor(id: nat, s: Strike): Action { if s.recoveries >= RETRY_CAP then Park(id) else Requeue(id) }

  /** An orphan's strike after the sweep. */
  function NextStrike(w: Sweep, id: nat, s: Strike): Strike {
    if MayAct(w, id, s) then Strike(None, if s.recoveries >= RETRY_CAP then s.recoveries else s.recoveries + 1)
    else if Records(w, id) == [] then s.(seenAt := Some(w.now))
    else s
  }

  ghost function ActionsUpTo(w: Sweep, strikes: Strikes, n: nat): seq<Action>
    requires n <= |w.tasks|
  {
    if n == 0 then []
    else
      var front, t := ActionsUpTo(w, strikes, n - 1), w.tasks[n - 1];
      if IsOrphan(w, t) && MayAct(w, t.id, StrikeOf(strikes, t.id))
      then front + [ActionFor(t.id, StrikeOf(strikes, t.id))]
      else front
  }

  ghost function Actions(w: Sweep, strikes: Strikes): seq<Action> { ActionsUpTo(w, strikes, |w.tasks|) }

  /** Strikes are kept for this sweep's orphans only. */
  ghost function StrikesAfterSweep(w: Sweep, strikes: Strikes): Strikes {
    map t | t in w.tasks && IsOrphan(w, t) :: t.id := NextStrike(w, t.id, StrikeOf(strikes, t.id))
  }

  method LeasedTaskIds(w: Sweep) returns (ids: set<nat>)
    ensures ids == LeasedIds(w)
  {
    ids := {};
    for i := 0 to |w.leases|
      invariant ids == set r | r in w.leases[..i] && w.task(r).Some? :: w.task(r).value
    {
      assert w.leases[..i + 1] == w.leases[..i] + [w.leases[i]];
      if w.task(w.leases[i]).Some? {
        ids := ids + {w.task(w.leases[i]).value};
      }
    }
    assert w.leases[..|w.leases|] == w.leases;
  }

  method RecordsByTask(w: Sweep) returns (records: map<nat, seq<Row>>)
    ensures forall id: nat :: (if id in records then records[id] else []) == Records(w, id)
  {
    records := map[];
    for i := 0 to |w.checkouts|
      invariant forall id: nat ::
        (if id in records then records[id] else []) == Filter(w.checkouts[..i], RecordOf(w, id))
    {
      var r := w.checkouts[i];
      forall id: nat
        ensures Filter(w.checkouts[..i + 1], RecordOf(w, id))
             == Filter(w.checkouts[..i], RecordOf(w, id)) + if w.task(r) == Some(id) then [r] else []
      {
        FilterStep(w.checkouts, i, RecordOf(w, id));
      }
      if w.task(r).Some? {
        var id := w.task(r).value;
        records := records[id := (if id in records then records[id] else []) + [r]];
      }
    }
    assert w.checkouts[..|w.checkouts|] == w.checkouts;
  }

  /** One orphan: what is done about it, and its strike from here on. */
  method Judge(w: Sweep, id: nat, records: seq<Row>, entry: Strike) returns (act: Option<Action>, entry': Strike)
    requires records == Records(w, id)
    ensures act == if MayAct(w, id, entry) then Some(ActionFor(id, entry)) else None
    ensures entry' == NextStrike(w, id, entry)
  {
    if records != [] {
      if w.now - LastAlive(Newest(records)) < GRACE {
        return None, entry;
      }
    } else if entry.seenAt.None? {
      return None, entry.(seenAt := Some(w.now));
    }
    if entry.recoveries >= RETRY_CAP {
      return Some(Park(id)), entry.(seenAt := None);
    }
    return Some(Requeue(id)), Strike(None, entry.recoveries + 1);
  }

  /** The working copy after the first `n` tasks: this sweep's orphans have their new strike,
      every other entry is still the caller's. */
  ghost predicate Worked(w: Sweep, strikes: Strikes, n: nat, working: Strikes)
    requires n <= |w.tasks|
  {
    && (forall i :: 0 <= i < n && IsOrphan(w, w.tasks[i]) ==>
          w.tasks[i].id in working
          && working[w.tasks[i].id] == NextStrike(w, w.tasks[i].id, StrikeOf(strikes, w.tasks[i].id)))
    && (forall i :: n <= i < |w.tasks| ==> StrikeOf(working, w.tasks[i].id) == StrikeOf(strikes, w.tasks[i].id))
  }

  /** Ids whose strikes outlive the sweep. */
  method LiveOrphans(w: Sweep, leased: set<nat>) returns (orphans: set<nat>)
    requires leased == LeasedIds(w)
    ensures forall id :: id in orphans <==> OrphanIn(w, id)
  {
    orphans := set t: T.Task | t in w.tasks && t.state == T.InProgress && t.id !in leased :: t.id;
  }

  lemma WorkedOrphan(w: Sweep, strikes: Strikes, n: nat, working: Strikes, entry: Strike)
    requires n < |w.tasks| && T.UniqueIds(w.tasks) && Worked(w, strikes, n, working)
    requires entry == NextStrike(w, w.tasks[n].id, StrikeOf(strikes, w.tasks[n].id))
    ensures Worked(w, strikes, n + 1, working[w.tasks[n].id := entry])
  {
  }

  method PlanI5Fixes(w: Sweep, strikes: Strikes) returns (actions: seq<Action>, strikes': Strikes)
    requires T.UniqueIds(w.tasks)
    ensures actions == Actions(w, strikes) && strikes' == StrikesAfterSweep(w, strikes)
  {
    var leased := LeasedTaskIds(w);
    var records := RecordsByTask(w);
    var working: Strikes := strikes;
    actions := [];
    for i := 0 to |w.tasks|
      invariant Worked(w, strikes, i, working)
      invariant actions == ActionsUpTo(w, strikes, i)
    {
      var t := w.tasks[i];
      if t.state != T.InProgress || t.id in leased {
        continue;
      }
      var act, entry := Judge(w, t.id, if t.id in records then records[t.id] else [], StrikeOf(working, t.id));
      if act.Some? {
        actions := actions + [act.value];
      }
      WorkedOrphan(w, strikes, i, working, entry);
      working := working[t.id := entry];
    }
    var orphans := LiveOrphans(w, leased);
    OrphansAreWorked(w, strikes, working, orphans);
    strikes' := map id | id in working && id in orphans :: working[id];
  }

  lemma OrphansAreWorked(w: Sweep, strikes: Strikes, working: Strikes, orphans: set<nat>)
    requires Worked(w, strikes, |w.tasks|, working)
    requires forall id :: id in orphans <==> OrphanIn(w, id)
    ensures (map id | id in working && id in orphans :: working[id]) == StrikesAfterSweep(w, strikes)
  {
    forall id ensures id in orphans <==> id in StrikesAfterSweep(w, strikes) {
      StrikeKeys(w, strikes, id);
    }
    forall id | id in orphans ensures id in working && working[id] == StrikesAfterSweep(w, strikes)[id] {
      StrikeKeys(w, strikes, id);
      var t :| t in w.tasks && t.id == id && IsOrphan(w, t);
      var j :| 0 <= j < |w.tasks| && w.tasks[j] == t;
    }
  }

  // ----- one sweep

  lemma {:induction false} ActionsAre(w: Sweep, strikes: Strikes, n: nat)
    requires n <= |w.tasks|
    ensures forall a :: a in ActionsUpTo(w, strikes, n) <==>
      exists i :: 0 <= i < n && ActsOn(w, strikes, w.tasks[i], a)
  {
    if n > 0 {
      ActionsAre(w, strikes, n - 1);
    }
  }

  ghost predicate ActsOn(w: Sweep, strikes: Strikes, t: T.Task, a: Action) {
    IsOrphan(w, t) && MayAct(w, t.id, StrikeOf(strikes, t.id)) && a == ActionFor(t.id, StrikeOf(strikes, t.id))
  }

  /** A task is acted on exactly when it is an orphan and either its newest record was last alive
      at least the grace period ago, or it has no record and a strike already marks it as seen. */
  lemma WhoIsActedOn(w: Sweep, strikes: Strikes, a: Action)
    ensures a in Actions(w, strikes) <==> exists t :: t in w.tasks && ActsOn(w, strikes, t, a)
  {
    ActionsAre(w, strikes, |w.tasks|);
    if t :| t in w.tasks && ActsOn(w, strikes, t, a) {
      var i :| 0 <= i < |w.tasks| && w.tasks[i] == t;
    }
  }

  /** The record judged has the highest token and, on ties, the latest expiry; of records alike in
      both it is the first. */
  lemma {:induction false} NewestIsNewest(rs: seq<Row>) returns (k: nat)
    requires rs != []
    ensures k < |rs| && rs[k] == Newest(rs)
    ensures forall j :: 0 <= j < |rs| ==>
      rs[j].fence < rs[k].fence || (rs[j].fence == rs[k].fence && rs[j].expires <= rs[k].expires)
    ensures forall j :: 0 <= j < k ==> rs[j].fence != rs[k].fence || rs[j].expires != rs[k].expires
  {
    k := 0;
    if |rs| > 1 {
      k := NewestIsNewest(rs[..|rs| - 1]);
      if OlderRecord(rs[k], rs[|rs| - 1]) {
        k := |rs| - 1;
      }
    }
  }

  /** Every sign of life is at least half an hour old. */
  predicate IsQuiet(r: Row, now: int) {
    r.expires <= now - 30 * 60 && r.renewedAt <= now - 30 * 60 && (r.endedAt.Some? ==> r.endedAt.value <= now - 30 * 60)
  }

  /** A sweep acts on a task if and only if it is in progress, no live lease resolves to it, and its
      newest record has been quiet for half an hour or, without any record, a strike marks it. */
  lemma ActedOnExactly(w: Sweep, strikes: Strikes, id: nat)
    ensures Requeue(id) in Actions(w, strikes) || Park(id) in Actions(w, strikes) <==>
      && (exists t :: t in w.tasks && t.id == id && t.state == T.InProgress)
      && (forall l :: l in w.leases ==> w.task(l) != Some(id))
      && (if Records(w, id) == [] then id in strikes && strikes[id].seenAt.Some?
          else IsQuiet(Newest(Records(w, id)), w.now))
  {
    ActionOnId(w, strikes, id);
    OrphanMeans(w, id);
  }

  lemma OrphanMeans(w: Sweep, id: nat)
    ensures OrphanIn(w, id) <==>
      (exists t :: t in w.tasks && t.id == id && t.state == T.InProgress)
      && forall l :: l in w.leases ==> w.task(l) != Some(id)
  {
    if t :| t in w.tasks && t.id == id && t.state == T.InProgress {
      assert IsOrphan(w, t) <==> id !in LeasedIds(w);
    }
  }

  // ----- whole runs of sweeps, strikes threaded from empty

  ghost function StrikesAfter(ws: seq<Sweep>): Strikes {
    if ws == [] then map[] else StrikesAfterSweep(ws[|ws| - 1], StrikesAfter(ws[..|ws| - 1]))
  }

  /** What the last sweep of `ws` plans. */
  ghost function LastActions(ws: seq<Sweep>): seq<Action>
    requires ws != []
  {
    Actions(ws[|ws| - 1], StrikesAfter(ws[..|ws| - 1]))
  }

  /** Requeues of the task in its current unbroken streak of orphan sweeps. */
  ghost function StreakRequeues(ws: seq<Sweep>, id: nat): nat {
    if ws == [] || !OrphanIn(ws[|ws| - 1], id) then 0
    else StreakRequeues(ws[..|ws| - 1], id) + if Requeue(id) in LastActions(ws) then 1 else 0
  }

  lemma StrikeKeys(w: Sweep, strikes: Strikes, id: nat)
    ensures id in StrikesAfterSweep(w, strikes) <==> OrphanIn(w, id)
    ensures OrphanIn(w, id) ==> StrikesAfterSweep(w, strikes)[id] == NextStrike(w, id, StrikeOf(strikes, id))
  {
  }

  lemma ActionOnId(w: Sweep, strikes: Strikes, id: nat)
    ensures Requeue(id) in Actions(w, strikes) <==>
      OrphanIn(w, id) && MayAct(w, id, StrikeOf(strikes, id)) && StrikeOf(strikes, id).recoveries < RETRY_CAP
    ensures Park(id) in Actions(w, strikes) <==>
      OrphanIn(w, id) && MayAct(w, id, StrikeOf(strikes, id)) && StrikeOf(strikes, id).recoveries >= RETRY_CAP
  {
    WhoIsActedOn(w, strikes, Requeue(id));
    WhoIsActedOn(w, strikes, Park(id));
    if OrphanIn(w, id) {
      var t :| t in w.tasks && t.id == id && IsOrphan(w, t);
      assert ActsOn(w, strikes, t, ActionFor(id, StrikeOf(strikes, id))) <==> MayAct(w, id, StrikeOf(strikes, id));
    }
  }

  /** The strike counts the requeues of the unbroken streak, and never passes the cap. */
  lemma {:induction false} RecoveriesCountRequeues(ws: seq<Sweep>, id: nat)
    ensures StrikeOf(StrikesAfter(ws), id).recoveries == StreakRequeues(ws, id) <= RETRY_CAP
  {
    if ws != [] {
      var front, w := ws[..|ws| - 1], ws[|ws| - 1];
      RecoveriesCountRequeues(front, id);
      StrikeKeys(w, StrikesAfter(front), id);
      ActionOnId(w, StrikesAfter(front), id);
    }
  }

  /** Over any run, at most the cap of requeues fall into one unbroken orphan streak, and an
      action beyond that parks the task. */
  lemma StreakIsCapped(ws: seq<Sweep>, id: nat)
    requires ws != []
    ensures StreakRequeues(ws, id) <= 3
    ensures Park(id) in LastActions(ws) ==> StreakRequeues(ws[..|ws| - 1], id) == 3
    ensures Requeue(id) in LastActions(ws) ==> StreakRequeues(ws[..|ws| - 1], id) < 3
  {
    RecoveriesCountRequeues(ws, id);
    RecoveriesCountRequeues(ws[..|ws| - 1], id);
    ActionOnId(ws[|ws| - 1], StrikesAfter(ws[..|ws| - 1]), id);
  }

  /** A sweep that acts on a task parks it if and only if the cap of requeues has gone into the
      streak, as the stored counter says, and requeues it if and only if fewer have. */
  lemma ParkIsExact(ws: seq<Sweep>, id: nat)
    requires ws != [] && (Park(id) in LastActions(ws) || Requeue(id) in LastActions(ws))
    ensures Park(id) in LastActions(ws) <==> StreakRequeues(ws[..|ws| - 1], id) == 3
    ensures Requeue(id) in LastActions(ws) <==> StreakRequeues(ws[..|ws| - 1], id) < 3
    ensures StrikeOf(StrikesAfter(ws[..|ws| - 1]), id).recoveries == StreakRequeues(ws[..|ws| - 1], id)
  {
    RecoveriesCountRequeues(ws[..|ws| - 1], id);
    ActionOnId(ws[|ws| - 1], StrikesAfter(ws[..|ws| - 1]), id);
  }

  /** Over any run an action hits only a task in progress that no live lease resolves to. With
      records, the newest was last alive at least the grace period ago; without any, the sweep
      just before saw the task as an orphan too. */
  lemma SweepsAreSafe(ws: seq<Sweep>, a: Action)
    requires ws != [] && a in LastActions(ws)
    ensures var w := ws[|ws| - 1];
      && (exists t :: t in w.tasks && t.id == a.taskId && t.state == T.InProgress)
      && (forall l :: l in w.leases ==> w.task(l) != Some(a.taskId))
      && (Records(w, a.taskId) != [] ==> IsQuiet(Newest(Records(w, a.taskId)), w.now))
      && (Records(w, a.taskId) == [] ==> |ws| > 1 && OrphanIn(ws[|ws| - 2], a.taskId))
  {
    var front, w := ws[..|ws| - 1], ws[|ws| - 1];
    OrphanMeans(w, a.taskId);
    ActionOnId(w, StrikesAfter(front), a.taskId);
    WhoIsActedOn(w, StrikesAfter(front), a);
    if front != [] {
      StrikeKeys(front[|front| - 1], StrikesAfter(front[..|front| - 1]), a.taskId);
    }
  }

  /** The other side of two strikes: an orphan without any record that two sweeps in a row see is
      acted on by the second of them, or was by the first. */
  lemma SecondSightingActs(ws: seq<Sweep>, id: nat)
    requires |ws| >= 2
    requires forall k :: |ws| - 2 <= k < |ws| ==> OrphanIn(ws[k], id) && Records(ws[k], id) == []
    ensures var front := ws[..|ws| - 1];
      || Requeue(id) in LastActions(ws) || Park(id) in LastActions(ws)
      || Requeue(id) in LastActions(front) || Park(id) in LastActions(front)
  {
    var front := ws[..|ws| - 1];
    var before := StrikesAfter(front[..|front| - 1]);
    ActionOnId(ws[|ws| - 1], StrikesAfter(front), id);
    ActionOnId(front[|front| - 1], before, id);
    StrikeKeys(front[|front| - 1], before, id);
  }

  /** Every requeue takes effect: the next sweep does not see the task as an orphan. */
  ghost predicate RequeuesTakeEffect(ws: seq<Sweep>, id: nat) {
    ws == []
    || (var front := ws[..|ws| - 1];
        RequeuesTakeEffect(front, id)
        && (front != [] && Requeue(id) in LastActions(front) ==> !OrphanIn(ws[|ws| - 1], id)))
  }

  /** The cap is not a lifetime cap: a task whose requeues take effect is never parked, however
      often it crashes. */
  lemma {:induction false} EffectiveRequeuesNeverPark(ws: seq<Sweep>, id: nat)
    requires RequeuesTakeEffect(ws, id)
    ensures StreakRequeues(ws, id) <= 1
    ensures ws != [] && StreakRequeues(ws, id) == 1 ==> Requeue(id) in LastActions(ws)
    ensures ws != [] ==> Park(id) !in LastActions(ws)
  {
    if ws != [] {
      EffectiveRequeuesNeverPark(ws[..|ws| - 1], id);
      StreakIsCapped(ws, id);
    }
  }

  // ----- crashing more often than the cap

  /** All requeues of a run, streak or not. */
  ghost function Requeues(ws: seq<Sweep>, id: nat): nat {
    if ws == [] then 0 else Requeues(ws[..|ws| - 1], id) + if Requeue(id) in LastActions(ws) then 1 else 0
  }

  lemma LastStep(ws: seq<Sweep>, w: Sweep, id: nat)
    ensures StrikesAfter(ws + [w]) == StrikesAfterSweep(w, StrikesAfter(ws))
    ensures LastActions(ws + [w]) == Actions(w, StrikesAfter(ws))
    ensures Requeues(ws + [w], id) == Requeues(ws, id) + if Requeue(id) in LastActions(ws + [w]) then 1 else 0
    ensures RequeuesTakeEffect(ws + [w], id) <==>
      RequeuesTakeEffect(ws, id) && (ws != [] && Requeue(id) in LastActions(ws) ==> !OrphanIn(w, id))
  {
    assert (ws + [w])[..|ws|] == ws;
  }

  lemma CrashStep(ws: seq<Sweep>, w: Sweep, id: nat)
    requires OrphanIn(w, id) && Records(w, id) != [] && LastAlive(Newest(Records(w, id))) <= w.now - GRACE
    requires id !in StrikesAfter(ws)
    ensures Requeue(id) in LastActions(ws + [w])
  {
    LastStep(ws, w, id);
    ActionOnId(w, StrikesAfter(ws), id);
  }

  lemma HealthyStep(ws: seq<Sweep>, w: Sweep, id: nat)
    requires !OrphanIn(w, id)
    ensures Requeue(id) !in LastActions(ws + [w]) && id !in StrikesAfter(ws + [w])
  {
    LastStep(ws, w, id);
    ActionOnId(w, StrikesAfter(ws), id);
    StrikeKeys(w, StrikesAfter(ws), id);
  }

  /** After `n` cycles: so many requeues, all effective, and no strike left. */
  ghost predicate Cycled(ws: seq<Sweep>, id: nat, n: nat) {
    Requeues(ws, id) == n && RequeuesTakeEffect(ws, id) && id !in StrikesAfter(ws)
    && (ws != [] ==> Requeue(id) !in LastActions(ws))
  }

  lemma CrashCounts(ws: seq<Sweep>, w: Sweep, id: nat, n: nat)
    requires Cycled(ws, id, n)
    requires OrphanIn(w, id) && Records(w, id) != [] && LastAlive(Newest(Records(w, id))) <= w.now - GRACE
    ensures Requeues(ws + [w], id) == n + 1 && RequeuesTakeEffect(ws + [w], id)
  {
    CrashStep(ws, w, id);
    LastStep(ws, w, id);
  }

  lemma HealthyCounts(ws: seq<Sweep>, w: Sweep, id: nat, n: nat)
    requires Requeues(ws, id) == n && RequeuesTakeEffect(ws, id) && !OrphanIn(w, id)
    ensures Cycled(ws + [w], id, n)
  {
    HealthyStep(ws, w, id);
    LastStep(ws, w, id);
  }

  lemma OneCycle(ws: seq<Sweep>, crashed: Sweep, healthy: Sweep, id: nat, n: nat) returns (ws': seq<Sweep>)
    requires OrphanIn(crashed, id) && !OrphanIn(healthy, id) && Cycled(ws, id, n)
    requires Records(crashed, id) != [] && LastAlive(Newest(Records(crashed, id))) <= crashed.now - GRACE
    ensures Cycled(ws', id, n + 1)
  {
    CrashCounts(ws, crashed, id, n);
    HealthyCounts(ws + [crashed], healthy, id, n + 1);
    ws' := ws + [crashed] + [healthy];
  }

  /** `n` times a sweep that finds the task crashed, then one that finds it healthy. */
  lemma {:induction false} Cycles(crashed: Sweep, healthy: Sweep, id: nat, n: nat) returns (ws: seq<Sweep>)
    requires OrphanIn(crashed, id) && !OrphanIn(healthy, id)
    requires Records(crashed, id) != [] && LastAlive(Newest(Records(crashed, id))) <= crashed.now - GRACE
    ensures Cycled(ws, id, n)
  {
    ws := [];
    if n > 0 {
      var before := Cycles(crashed, healthy, id, n - 1);
      ws := OneCycle(before, crashed, healthy, id, n - 1);
    }
  }

  lemma {:induction false} PrefixTakesEffect(ws: seq<Sweep>, id: nat, k: nat)
    requires RequeuesTakeEffect(ws, id) && k <= |ws|
    ensures RequeuesTakeEffect(ws[..k], id)
    decreases |ws|
  {
    if k < |ws| {
      PrefixTakesEffect(ws[..|ws| - 1], id, k);
      assert ws[..|ws| - 1][..k] == ws[..k];
    } else {
      assert ws[..k] == ws;
    }
  }

  /** No sweep of the run parks the task. */
  ghost predicate NeverParked(ws: seq<Sweep>, id: nat) {
    forall k :: 1 <= k <= |ws| ==> Park(id) !in LastActions(ws[..k])
  }

  /** For every `n` there is a run with exactly `n` requeues of one task and no park: with any task
      in progress and any dead lease record of it, crashed and requeued again and again. */
  lemma RequeuedAnyNumberOfTimes(t: T.Task, dead: Row, n: nat) returns (ws: seq<Sweep>)
    requires t.state == T.InProgress
    ensures Requeues(ws, t.id) == n && RequeuesTakeEffect(ws, t.id) && NeverParked(ws, t.id)
  {
    var crashed := Sweep([dead], [], [t], LastAlive(dead) + GRACE, (r: Row) => Some(t.id));
    var healthy := Sweep([dead], [], [t.(state := T.Queued)], crashed.now, (r: Row) => Some(t.id));
    assert t in crashed.tasks && IsOrphan(crashed, t);
    FilterAll([dead], RecordOf(crashed, t.id));
    ws := Cycles(crashed, healthy, t.id, n);
    forall k | 1 <= k <= |ws| ensures Park(t.id) !in LastActions(ws[..k]) {
      PrefixTakesEffect(ws, t.id, k);
      EffectiveRequeuesNeverPark(ws[..k], t.id);
    }
  }
}
