/** The heartbeat over whole runs: a lease stays live from tick to tick while other commands come
    and go in between. */
module LiveRuns {
  import opened Seqs
  import opened Leases
  import opened Pruning
  import opened LeaseCommands
  import opened LeaseSafety
  import opened Fencing
  import Heartbeat

  /** The row of `r`'s token is there, is `r` but for its expiry, and lasts until `d`. */
  ghost predicate Held(rows: seq<Row>, r: Row, d: int) {
    && (exists i :: 0 <= i < |rows| && rows[i].fence == r.fence)
    && forall i :: 0 <= i < |rows| && rows[i].fence == r.fence ==>
         Heartbeat.Prolonged(r, rows[i]) && rows[i].expires >= d
  }

  // ----- what other commands leave alone

  /** The command names row `i` to end it or to rewrite it. */
  predicate Targets(rows: seq<Row>, c: Command, now: int, i: nat)
    requires i < |rows|
  {
    match c
    case Checkout(issue, _, steal, _) => steal && HoldsIssue(rows[i], issue, now)
    case Unclaim(claimId) => LastIndex(rows, HasClaim(claimId)) == Some(i)
    case Mutate(issue, _, token, branch) => Target(rows, issue, token, branch) == Some(i)
    case Reap(orphans, _) => orphans && IsAgedGovernor(rows[i], now)
    case _ => false
  }

  ghost predicate Spares(rows: seq<Row>, c: Command, now: int, token: nat) {
    forall i :: 0 <= i < |rows| && rows[i].fence == token ==> !Targets(rows, c, now, i)
  }

  lemma UpdateHolds(rows: seq<Row>, rows': seq<Row>, r: Row, d: int)
    requires Held(rows, r, d) && |rows'| == |rows|
    requires forall i :: 0 <= i < |rows| ==> rows'[i].fence == rows[i].fence
    requires forall i :: 0 <= i < |rows| && rows[i].fence == r.fence ==> Heartbeat.Prolonged(rows[i], rows'[i])
    ensures Held(rows', r, d)
  {
    var i :| 0 <= i < |rows| && rows[i].fence == r.fence;
    assert rows'[i].fence == r.fence;
  }

  lemma SelectionHolds(rows: seq<Row>, rows': seq<Row>, r: Row, d: int)
    requires Held(rows, r, d) && Open(r)
    requires (forall x :: x in rows' ==> x in rows) && (forall x :: x in rows && Open(x) ==> x in rows')
    ensures Held(rows', r, d)
  {
    var i :| 0 <= i < |rows| && rows[i].fence == r.fence;
    assert rows[i] in rows';
    var k :| 0 <= k < |rows'| && rows'[k] == rows[i];
    forall j | 0 <= j < |rows'| && rows'[j].fence == r.fence
      ensures Heartbeat.Prolonged(r, rows'[j]) && rows'[j].expires >= d
    {
      assert rows'[j] in rows;
    }
  }

  lemma AppendHolds(rows: seq<Row>, row: Row, r: Row, d: int)
    requires Held(rows, r, d) && row.fence != r.fence
    ensures Held(rows + [row], r, d)
  {
    var i :| 0 <= i < |rows| && rows[i].fence == r.fence;
    assert (rows + [row])[i].fence == r.fence;
  }

  lemma GrantHolds(f: File, rows: seq<Row>, row: Row, r: Row, d: int)
    requires Held(rows, r, d) && r.fence <= f.counter
    ensures Held(Granted(f, rows, row).rows, r, d)
  {
    AppendHolds(rows, row.(fence := f.counter + 1), r, d);
  }

  lemma RowByRow(r: Row, issue: nat, now: int, s: Selector, duration: int)
    ensures StealIf(issue, now)(r).fence == r.fence && ExpireStale(now)(r).fence == r.fence
    ensures ExpireOrphan(now)(r).fence == r.fence && Extend(s, duration, now)(r).fence == r.fence
    ensures Heartbeat.Prolonged(r, Extend(s, duration, now)(r))
    ensures !HoldsIssue(r, issue, now) ==> StealIf(issue, now)(r) == r
    ensures r.expires > now && Open(r) ==> ExpireStale(now)(r) == r
    ensures !IsAgedGovernor(r, now) ==> ExpireOrphan(now)(r) == r
  {
  }

  lemma StealHolds(rows: seq<Row>, issue: nat, now: int, r: Row, d: int)
    requires Held(rows, r, d)
    requires forall i :: 0 <= i < |rows| && rows[i].fence == r.fence ==> !HoldsIssue(rows[i], issue, now)
    ensures Held(Map(rows, StealIf(issue, now)), r, d)
  {
    forall i | 0 <= i < |rows|
      ensures Map(rows, StealIf(issue, now))[i].fence == rows[i].fence
      ensures rows[i].fence == r.fence ==> Heartbeat.Prolonged(rows[i], Map(rows, StealIf(issue, now))[i])
    {
      RowByRow(rows[i], issue, now, Selector("", false, "", false, ""), 0);
    }
    UpdateHolds(rows, Map(rows, StealIf(issue, now)), r, d);
  }

  lemma ExpiryHolds(rows: seq<Row>, now: int, r: Row, d: int)
    requires Held(rows, r, d) && Open(r) && now < d
    ensures Held(Map(rows, ExpireStale(now)), r, d)
    ensures forall i :: 0 <= i < |rows| && rows[i].fence == r.fence ==> Map(rows, ExpireStale(now))[i] == rows[i]
  {
    forall i | 0 <= i < |rows|
      ensures Map(rows, ExpireStale(now))[i].fence == rows[i].fence
      ensures rows[i].fence == r.fence ==> Map(rows, ExpireStale(now))[i] == rows[i]
    {
      RowByRow(rows[i], 0, now, Selector("", false, "", false, ""), 0);
    }
    UpdateHolds(rows, Map(rows, ExpireStale(now)), r, d);
  }

  lemma OrphanHolds(rows: seq<Row>, now: int, r: Row, d: int)
    requires Held(rows, r, d) && !IsAgedGovernor(r, now)
    ensures Held(Map(rows, ExpireOrphan(now)), r, d)
  {
    forall i | 0 <= i < |rows|
      ensures Map(rows, ExpireOrphan(now))[i].fence == rows[i].fence
      ensures rows[i].fence == r.fence ==> Map(rows, ExpireOrphan(now))[i] == rows[i]
    {
      RowByRow(rows[i], 0, now, Selector("", false, "", false, ""), 0);
    }
    UpdateHolds(rows, Map(rows, ExpireOrphan(now)), r, d);
  }

  /** A sweep never expires a lease that is live by the sweep's own clock. */
  lemma ReapHolds(rows: seq<Row>, orphans: bool, olderThan: Option<int>, now: int, r: Row, d: int)
    requires Held(rows, r, d) && Open(r) && now < d && Spares(rows, Reap(orphans, olderThan), now, r.fence)
    ensures Held(Reaped(rows, orphans, olderThan, now), r, d)
  {
    var once := Map(rows, ExpireStale(now));
    ExpiryHolds(rows, now, r, d);
    var i :| 0 <= i < |rows| && rows[i].fence == r.fence;
    if orphans {
      assert !Targets(rows, Reap(orphans, olderThan), now, i);
      OrphanHolds(once, now, r, d);
    }
    var twice := if orphans then Map(once, ExpireOrphan(now)) else once;
    if olderThan.Some? {
      FilterMembers(twice, NotOlder(now - olderThan.value));
      SelectionHolds(twice, Filter(twice, NotOlder(now - olderThan.value)), r, d);
    }
  }

  lemma ExtendHolds(rows: seq<Row>, s: Selector, duration: int, now: int, r: Row, d: int)
    requires Held(rows, r, d)
    ensures Held(Map(rows, Extend(s, duration, now)), r, d)
    ensures Matches(s, now, r) ==> Held(Map(rows, Extend(s, duration, now)), r, now + duration)
  {
    var rows' := Map(rows, Extend(s, duration, now));
    forall i | 0 <= i < |rows|
      ensures rows'[i].fence == rows[i].fence && Heartbeat.Prolonged(rows[i], rows'[i])
      ensures rows[i].fence == r.fence && Matches(s, now, r) ==> rows'[i].expires >= now + duration
    {
      RowByRow(rows[i], 0, now, s, duration);
      if rows[i].fence == r.fence {
        Heartbeat.MatchIgnoresExpiry(s, now, r, rows[i]);
      }
    }
    UpdateHolds(rows, rows', r, d);
  }

  lemma ReplaceHolds(rows: seq<Row>, k: nat, row: Row, r: Row, d: int)
    requires Held(rows, r, d) && k < |rows| && rows[k].fence != r.fence && row.fence == rows[k].fence
    ensures Held(rows[k := row], r, d)
  {
    UpdateHolds(rows, rows[k := row], r, d);
  }

  lemma EffectHolds(f: File, c: Command, now: int, r: Row, d: int)
    requires Held(f.rows, r, d) && Open(r) && r.fence <= f.counter && now < d
    requires Spares(f.rows, c, now, r.fence) && Effect(f, c, now).Some?
    ensures Held(Effect(f, c, now).value.rows, r, d)
  {
    match c
    case Checkout(issue, title, steal, h) =>
      forall i | 0 <= i < |f.rows| && f.rows[i].fence == r.fence ensures !HoldsIssue(f.rows[i], issue, now) {
        assert !Targets(f.rows, c, now, i);
        assert !steal ==> !BlocksCheckout(issue, now)(f.rows[i]);
      }
      StealHolds(f.rows, issue, now, r, d);
      GrantHolds(f, Map(f.rows, StealIf(issue, now)), NewRow(Some(issue), IssueId(issue), title, "", h, 0, now), r, d);
    case Claim(title, claimId, h) =>
      GrantHolds(f, f.rows, NewRow(None, title.Names(), title, claimId, h, 0, now), r, d);
    case ClaimNext(cs, _, _, claimId, h) =>
      var p := Picked(f.rows, cs, now);
      if p.Some? {
        GrantHolds(f, f.rows, NewRow(None, CandidateTask(p.value), p.value.title, claimId, h, 0, now), r, d);
      }
    case Unclaim(claimId) =>
      var k := LastIndex(f.rows, HasClaim(claimId)).value;
      assert Targets(f.rows, c, now, k);
      ReplaceHolds(f.rows, k, Ended(f.rows[k], Released, now), r, d);
    case Mutate(issue, change, token, branch) =>
      var k := Target(f.rows, issue, token, branch).value;
      assert Targets(f.rows, c, now, k);
      ReplaceHolds(f.rows, k, Changed(f.rows[k], change, now), r, d);
    case Reap(orphans, olderThan) =>
      ReapHolds(f.rows, orphans, olderThan, now, r, d);
    case ExtendLease(s, duration, _) =>
      ExtendHolds(f.rows, s, duration, now, r, d);
    case AutoReap =>
      ExpiryHolds(f.rows, now, r, d);
  }

  lemma PruningHolds(rows: seq<Row>, pruneNow: int, r: Row, d: int)
    requires Held(rows, r, d) && Open(r)
    ensures Held(Pruned(rows, pruneNow), r, d)
  {
    KeptMembers(rows, Recent(rows), pruneNow, |rows|);
    PruningKeepsOpenRows(rows, pruneNow);
    FilterMembers(rows, IsOpen());
    FilterMembers(Pruned(rows, pruneNow), IsOpen());
    forall x | x in rows && Open(x) ensures x in Pruned(rows, pruneNow) {
      assert x in Filter(rows, IsOpen());
    }
    forall x | x in Pruned(rows, pruneNow) ensures x in rows {
    }
    SelectionHolds(rows, Pruned(rows, pruneNow), r, d);
  }

  lemma TokenBelow(f: File, r: Row, d: int)
    requires Held(f.rows, r, d)
    ensures r.fence <= Backfilled(f).counter
  {
    TokensBelow(f);
  }

  /** Any command that does not name the row, read by a clock at which the row is live, leaves it. */
  lemma CommandHolds(f: File, c: Command, now: int, pruneNow: int, r: Row, d: int)
    requires Held(f.rows, r, d) && Open(r) && now < d && Spares(f.rows, c, now, r.fence)
    ensures Held(After(f, c, now, pruneNow).rows, r, d)
  {
    TokenBelow(f, r, d);
    if c.AutoReap? {
      ExpiryHolds(f.rows, now, r, d);
    } else if Effect(Backfilled(f), c, now).Some? {
      EffectHolds(Backfilled(f), c, now, r, d);
      PruningHolds(Effect(Backfilled(f), c, now).value.rows, pruneNow, r, d);
    }
  }

  // ----- ticks among other events

  /** A heartbeat's settings: what it matches, how far it extends, how close to expiry it writes. */
  datatype Pulse = Pulse(s: Selector, h: int, m: int)

  /** The last event is a heartbeat that looked at the file as it was after the first `l` events,
      before it waited for the lock. */
  ghost predicate LookedAt(f: File, es: seq<Event>, p: Pulse, l: nat)
    requires l < |es|
  {
    var e := es[|es| - 1];
    e.command == ExtendLease(p.s, p.h, Heartbeat.Due(Run(f, es[..l]).rows, p.s, p.m, e.now))
  }

  ghost predicate EndsInTick(f: File, es: seq<Event>, p: Pulse) {
    exists l :: 0 <= l < |es| && LookedAt(f, es, p, l)
  }

  /** Until when the ticks so far, or the grant before them, keep the lease live. */
  ghost function Deadline(f: File, es: seq<Event>, p: Pulse, first: int): int {
    if es == [] then first
    else
      var n := |es| - 1;
      var d := Deadline(f, es[..n], p, first);
      if EndsInTick(f, es, p) && es[n].now + p.m > d then es[n].now + p.m else d
  }

  /** Each event takes the lock before the deadline, with a clock read no later, and does not name
      the lease; ticks match it. So ticks come less than the window apart, clock to lock. */
  ghost predicate WellKept(f: File, es: seq<Event>, p: Pulse, r: Row, first: int) {
    es == []
    || (var n := |es| - 1;
        && WellKept(f, es[..n], p, r, first)
        && es[n].now <= es[n].at < Deadline(f, es[..n], p, first)
        && Spares(Run(f, es[..n]).rows, es[n].command, es[n].now, r.fence)
        && (EndsInTick(f, es, p) ==> Matches(p.s, es[n].now, r)))
  }

  lemma {:induction false} WellKeptPrefix(f: File, es: seq<Event>, p: Pulse, r: Row, first: int, n: nat)
    requires WellKept(f, es, p, r, first) && n <= |es|
    ensures WellKept(f, es[..n], p, r, first)
    ensures n < |es| ==> es[n].at < Deadline(f, es[..n], p, first)
    decreases |es|
  {
    if n == |es| {
      assert es[..n] == es;
    } else if n < |es| - 1 {
      WellKeptPrefix(f, es[..|es| - 1], p, r, first, n);
      assert es[..|es| - 1][..n] == es[..n];
    }
  }

  lemma HeldBoth(rows: seq<Row>, r: Row, d: int, x: int)
    requires Held(rows, r, d)
    ensures Held(rows, r, x) ==> Held(rows, r, if x > d then x else d)
    ensures x <= d ==> Held(rows, r, x)
  {
  }

  /** A look that finds nothing due has seen the lease more than the window away from expiry. */
  lemma NotDueHolds(rows: seq<Row>, p: Pulse, now: int, r: Row, d: int)
    requires Held(rows, r, d) && Matches(p.s, now, r) && !Heartbeat.Due(rows, p.s, p.m, now)
    ensures Held(rows, r, now + p.m)
  {
    forall i | 0 <= i < |rows| && rows[i].fence == r.fence ensures rows[i].expires >= now + p.m {
      Heartbeat.MatchIgnoresExpiry(p.s, now, r, rows[i]);
    }
  }

  lemma WriteHolds(f: File, p: Pulse, now: int, pruneNow: int, r: Row, d: int)
    requires Held(f.rows, r, d) && Open(r) && Matches(p.s, now, r)
    ensures Held(After(f, ExtendLease(p.s, p.h, true), now, pruneNow).rows, r, now + p.h)
  {
    ExtendHolds(f.rows, p.s, p.h, now, r, d);
    PruningHolds(Map(f.rows, Extend(p.s, p.h, now)), pruneNow, r, now + p.h);
  }

  /** What the last event does to a row that is held until `d` and until `x`. */
  lemma EventHolds(f: File, es: seq<Event>, p: Pulse, r: Row, first: int, x: int)
    requires es != [] && WellKept(f, es, p, r, first) && Open(r)
    requires var n := |es| - 1;
      Held(Run(f, es[..n]).rows, r, Deadline(f, es[..n], p, first)) && Held(Run(f, es[..n]).rows, r, x)
    ensures Held(Run(f, es).rows, r, x) && Held(Run(f, es).rows, r, Deadline(f, es[..|es| - 1], p, first))
  {
    var n := |es| - 1;
    var g, d := Run(f, es[..n]), Deadline(f, es[..n], p, first);
    HeldBoth(g.rows, r, d, x);
    CommandHolds(g, es[n].command, es[n].now, es[n].pruneNow, r, if x > d then x else d);
    HeldBoth(Run(f, es).rows, r, if x > d then x else d, x);
    HeldBoth(Run(f, es).rows, r, if x > d then x else d, d);
  }

  lemma HeldAtEnd(f: File, es: seq<Event>, p: Pulse, r: Row, first: int)
    requires p.m <= p.h && Open(r) && Held(f.rows, r, first) && WellKept(f, es, p, r, first)
    ensures Held(Run(f, es).rows, r, Deadline(f, es, p, first)) && Held(Run(f, es).rows, r, first)
    decreases |es|, 2
  {
    assert es[..0] == [];
    HeldOn(f, es, p, r, first, 0, first);
  }

  lemma PrefixOfPrefix<T>(s: seq<T>, n: nat, l: nat)
    requires l <= n <= |s|
    ensures s[..n][..l] == s[..l]
  {
  }

  lemma DeadlineHolds(f: File, es: seq<Event>, p: Pulse, first: int, rows: seq<Row>, r: Row)
    requires es != [] && Held(rows, r, Deadline(f, es[..|es| - 1], p, first))
    requires EndsInTick(f, es, p) ==> Held(rows, r, es[|es| - 1].now + p.m)
    ensures Held(rows, r, Deadline(f, es, p, first))
  {
  }

  /** A row held after `l` events is held ever after, until every deadline that ticks have set. */
  lemma {:induction false} HeldOn(f: File, es: seq<Event>, p: Pulse, r: Row, first: int, l: nat, x: int)
    requires p.m <= p.h && Open(r) && Held(f.rows, r, first) && WellKept(f, es, p, r, first) && l <= |es|
    requires Held(Run(f, es[..l]).rows, r, x)
    ensures Held(Run(f, es).rows, r, x) && Held(Run(f, es).rows, r, Deadline(f, es, p, first))
    decreases |es|, 1
  {
    if es == [] {
      assert es[..l] == es;
    } else {
      HeldThrough(f, es, p, r, first, l, x);
      if EndsInTick(f, es, p) {
        TickHolds(f, es, p, r, first);
      }
      DeadlineHolds(f, es, p, first, Run(f, es).rows, r);
    }
  }

  lemma {:induction false} HeldThrough(f: File, es: seq<Event>, p: Pulse, r: Row, first: int, l: nat, x: int)
    requires p.m <= p.h && Open(r) && Held(f.rows, r, first) && WellKept(f, es, p, r, first)
    requires es != [] && l <= |es| && Held(Run(f, es[..l]).rows, r, x)
    ensures Held(Run(f, es).rows, r, x)
    ensures Held(Run(f, es).rows, r, Deadline(f, es[..|es| - 1], p, first))
    decreases |es|, 0
  {
    var n := |es| - 1;
    HeldAtEnd(f, es[..n], p, r, first);
    if l <= n {
      PrefixOfPrefix(es, n, l);
      HeldOn(f, es[..n], p, r, first, l, x);
      EventHolds(f, es, p, r, first, x);
    } else {
      assert es[..l] == es;
      EventHolds(f, es, p, r, first, Deadline(f, es[..n], p, first));
    }
  }

  lemma DueTickHolds(f: File, es: seq<Event>, p: Pulse, r: Row, d: int)
    requires es != [] && p.m <= p.h && Open(r) && Held(Run(f, es[..|es| - 1]).rows, r, d)
    requires var e := es[|es| - 1]; e.command == ExtendLease(p.s, p.h, true) && Matches(p.s, e.now, r)
    ensures Held(Run(f, es).rows, r, es[|es| - 1].now + p.m)
  {
    var e := es[|es| - 1];
    WriteHolds(Run(f, es[..|es| - 1]), p, e.now, e.pruneNow, r, d);
    HeldBoth(Run(f, es).rows, r, e.now + p.h, e.now + p.m);
  }

  lemma IdleTick(f: File, es: seq<Event>)
    requires es != [] && es[|es| - 1].command.ExtendLease? && !es[|es| - 1].command.due
    ensures Run(f, es) == Run(f, es[..|es| - 1])
  {
  }

  /** A tick keeps the lease for at least the window from its clock, however late its lock came. */
  lemma {:induction false} TickHolds(f: File, es: seq<Event>, p: Pulse, r: Row, first: int)
    requires p.m <= p.h && Open(r) && Held(f.rows, r, first) && WellKept(f, es, p, r, first)
    requires EndsInTick(f, es, p)
    ensures Held(Run(f, es).rows, r, es[|es| - 1].now + p.m)
    decreases |es|, 0
  {
    var n := |es| - 1;
    var l :| 0 <= l < |es| && LookedAt(f, es, p, l);
    if es[n].command.due {
      HeldAtEnd(f, es[..n], p, r, first);
      DueTickHolds(f, es, p, r, first);
    } else {
      IdleTick(f, es);
      PrefixOfPrefix(es, n, l);
      LookHolds(f, es[..n], p, r, first, l, es[n].now);
    }
  }

  /** What a look that found nothing due saw still holds when the lock comes. */
  lemma {:induction false} LookHolds(f: File, es: seq<Event>, p: Pulse, r: Row, first: int, l: nat, now: int)
    requires p.m <= p.h && Open(r) && Held(f.rows, r, first) && WellKept(f, es, p, r, first) && l <= |es|
    requires Matches(p.s, now, r) && !Heartbeat.Due(Run(f, es[..l]).rows, p.s, p.m, now)
    ensures Held(Run(f, es).rows, r, now + p.m)
    decreases |es|, 3
  {
    WellKeptPrefix(f, es, p, r, first, l);
    HeldAtEnd(f, es[..l], p, r, first);
    NotDueHolds(Run(f, es[..l]).rows, p, now, r, first);
    HeldOn(f, es, p, r, first, l, now + p.m);
  }

  /** Over any run in which no other command names the lease, with ticks less than the window
      apart and the window at most the extension, the lease is live at every instant: after `n`
      events, up to the lock time of the next one, and at the end up to the deadline. */
  lemma LiveAtEveryInstant(f: File, es: seq<Event>, p: Pulse, r: Row, first: int, n: nat, instant: int)
    requires p.m <= p.h && Open(r) && Held(f.rows, r, first) && WellKept(f, es, p, r, first) && n <= |es|
    requires if n < |es| then instant <= es[n].at else instant < Deadline(f, es, p, first)
    ensures exists i :: 0 <= i < |Run(f, es[..n]).rows|
                        && Run(f, es[..n]).rows[i].fence == r.fence && IsLive(Run(f, es[..n]).rows[i], instant)
  {
    var head := es[..n];
    WellKeptPrefix(f, es, p, r, first, n);
    assert n == |es| ==> head == es;
    HeldAtEnd(f, head, p, r, first);
    var i :| 0 <= i < |Run(f, head).rows| && Run(f, head).rows[i].fence == r.fence;
    assert IsLive(Run(f, head).rows[i], instant);
  }
}
