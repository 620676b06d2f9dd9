/** What the other commands write: who may write to a lease, what a write changes, which rows a sweep
    ends or drops, and which a heartbeat renews. */
module LeaseWrites {
  import opened Seqs
  import opened Leases
  import opened Pruning
  import opened LeaseCommands
  import opened LeaseGrants

  predicate IsOver(r: Row) { r.status in {Done, Released, Status.Blocked, Expired, Stolen} }

  // ----- saving

  /** A refused command leaves the file as it was, down to a counter that lags. */
  lemma RefusalWritesNothing(f: File, c: Command, now: int, pruneNow: int)
    requires !c.AutoReap? && Effect(Backfilled(f), c, now).None?
    ensures After(f, c, now, pruneNow) == f
  {
  }

  /** An accepted one bounds the file: every open row stays, and no more than 40 retired rows are left
      unless all that are left ended within the hour. */
  lemma SaveIsBounded(f: File, c: Command, now: int, pruneNow: int)
    requires !c.AutoReap? && Effect(Backfilled(f), c, now).Some?
    ensures var e, g := Effect(Backfilled(f), c, now).value, After(f, c, now, pruneNow);
      && g.counter == e.counter
      && (forall r :: r in e.rows && !IsOver(r) ==> r in g.rows)
      && (RetiredCount(g.rows) <= 40
          || forall r :: r in g.rows && IsOver(r) ==>
               pruneNow - 60 * 60 < if r.endedAt.Some? then r.endedAt.value else r.expires)
  {
    var rows := Effect(Backfilled(f), c, now).value.rows;
    forall r | r in rows && !IsOver(r) ensures r in Pruned(rows, pruneNow) {
      var k :| 0 <= k < |rows| && rows[k] == r;
      assert MayStay(rows, pruneNow, k);
      KeptExactly(rows, pruneNow, r);
    }
    BoundedOrYoung(rows, pruneNow);
  }

  lemma BoundedOrYoung(rows: seq<Row>, now: int)
    ensures RetiredCount(Pruned(rows, now)) <= 40
      || forall r :: r in Pruned(rows, now) && IsOver(r) ==>
           now - 60 * 60 < if r.endedAt.Some? then r.endedAt.value else r.expires
  {
    var kept := Pruned(rows, now);
    if RetiredCount(rows) <= KEEP_RECENT {
      SmallFileUntouched(rows, now);
    } else {
      PruningIsExact(rows, now);
      if YoungCount(rows, now) > KEEP_RECENT {
        OnlyYoungLeft(rows, now);
        forall r | r in kept && IsOver(r)
          ensures now - 60 * 60 < if r.endedAt.Some? then r.endedAt.value else r.expires
        {
          var i :| 0 <= i < |kept| && kept[i] == r;
          assert Younger(kept[i], now);
        }
      }
    }
  }

  // ----- writes to an issue

  /** A write that carries a token is accepted if and only if the last lease of the issue with that
      token is open and no lease of the issue has a higher one; it goes to that lease. */
  lemma CurrentTokenIsAccepted(rows: seq<Row>, issue: nat, token: nat, branch: string, k: nat)
    ensures Target(rows, issue, Some(token), branch) == Some(k) <==>
      && k < |rows| && IsFor(rows[k], issue) && rows[k].fence == token && !IsOver(rows[k])
      && (forall j :: k < j < |rows| && IsFor(rows[j], issue) ==> rows[j].fence != token)
      && forall j :: 0 <= j < |rows| && IsFor(rows[j], issue) ==> rows[j].fence <= token
  {
    forall j | 0 <= j < |rows| ensures ForIssue(rows[j], issue) <==> IsFor(rows[j], issue) {
      RowMeans(rows[j], issue, 0);
    }
  }

  /** A write without a token goes to the last open lease of the issue, or of the named branch on
      it; there is none if and only if no such lease is open. */
  lemma LastOpenIsWritten(rows: seq<Row>, issue: nat, branch: string, k: nat)
    ensures Target(rows, issue, None, branch) == Some(k) <==>
      && k < |rows| && IsFor(rows[k], issue) && !IsOver(rows[k]) && (branch == "" || rows[k].branch == branch)
      && forall j :: k < j < |rows| && IsFor(rows[j], issue) && (branch == "" || rows[j].branch == branch) ==>
           IsOver(rows[j])
  {
    forall j | 0 <= j < |rows| ensures ForIssue(rows[j], issue) <==> IsFor(rows[j], issue) {
      RowMeans(rows[j], issue, 0);
    }
  }

  /** What an accepted write changes: a renewal moves the expiry to its duration from now, an end
      stamps the status and the time, and no other row changes. */
  lemma WriteChanges(f: File, issue: nat, change: Change, token: Option<nat>, branch: string, now: int, k: nat)
    requires Target(f.rows, issue, token, branch) == Some(k)
    ensures var g := Effect(Backfilled(f), Mutate(issue, change, token, branch), now);
      && g.Some? && |g.value.rows| == |f.rows|
      && (forall j :: 0 <= j < |f.rows| && j != k ==> g.value.rows[j] == f.rows[j])
      && (change.Renew? ==>
            g.value.rows[k] == f.rows[k].(expires := now + change.duration, renewedAt := now))
      && (change.EndAs? ==>
            g.value.rows[k] == f.rows[k].(status := change.status, endedAt := Some(now)))
  {
  }

  /** A release by claim id ends the last open lease with that id, and is refused if and only if
      there is none; no other row changes. */
  lemma UnclaimReleases(f: File, claimId: string, now: int, k: nat)
    requires claimId != "" && k < |f.rows| && f.rows[k].claimId == claimId && !IsOver(f.rows[k])
    requires forall j :: k < j < |f.rows| && f.rows[j].claimId == claimId ==> IsOver(f.rows[j])
    ensures Effect(Backfilled(f), Unclaim(claimId), now)
         == Some(File(f.rows[k := f.rows[k].(status := Released, endedAt := Some(now))], Backfilled(f).counter))
  {
    assert LastIndex(f.rows, HasClaim(claimId)) == Some(k);
  }

  lemma NothingToUnclaim(f: File, claimId: string, now: int)
    requires claimId == "" || forall j :: 0 <= j < |f.rows| && f.rows[j].claimId == claimId ==> IsOver(f.rows[j])
    ensures Effect(Backfilled(f), Unclaim(claimId), now).None?
  {
  }

  // ----- sweeps

  /** Checked out, and past its time. */
  predicate IsStale(r: Row, now: int) { r.status == CheckedOut && r.expires <= now }

  /** A governor's lease, still checked out three hours after it started. */
  predicate IsLeftover(r: Row, now: int) {
    r.status == CheckedOut && |r.session| >= 5 && r.session[..5] == "pace-" && now - r.startedAt > 3 * 60 * 60
  }

  lemma GovernorMeans(r: Row, now: int)
    ensures IsAgedGovernor(r, now) <==>
      |r.session| >= 5 && r.session[..5] == "pace-" && now - r.startedAt > 3 * 60 * 60
  {
  }

  /** Every row of a file after the reader's pass: a stale one is expired now, any other is as it
      was. So nothing stale is left. */
  lemma ReaderExpiresStale(f: File, now: int, i: nat)
    requires i < |f.rows|
    ensures var g := After(f, AutoReap, now, now);
      && |g.rows| == |f.rows| && g.counter == f.counter && !IsStale(g.rows[i], now)
      && (IsStale(f.rows[i], now) ==> g.rows[i] == f.rows[i].(status := Expired, endedAt := Some(now)))
      && (!IsStale(f.rows[i], now) ==> g.rows[i] == f.rows[i])
  {
  }

  /** What a reap makes of one row: a stale one, and with `orphans` a left-over one, is expired now. */
  function Swept(r: Row, orphans: bool, now: int): Row {
    if IsStale(r, now) || (orphans && IsLeftover(r, now)) then r.(status := Expired, endedAt := Some(now)) else r
  }

  /** A reap sweeps every row, and drops those that were over before the cutoff: by their end stamp,
      or by their start when they have none. */
  lemma ReapSweeps(rows: seq<Row>, orphans: bool, olderThan: Option<int>, now: int, r: Row)
    ensures r in Reaped(rows, orphans, olderThan, now) <==>
      && (exists i :: 0 <= i < |rows| && r == Swept(rows[i], orphans, now))
      && (olderThan.Some? && IsOver(r) ==>
            now - olderThan.value <= if r.endedAt.Some? then r.endedAt.value else r.startedAt)
  {
    var once := Map(rows, ExpireStale(now));
    var twice := if orphans then Map(once, ExpireOrphan(now)) else once;
    forall i | 0 <= i < |rows| ensures twice[i] == Swept(rows[i], orphans, now) {
      GovernorMeans(rows[i], now);
      GovernorMeans(once[i], now);
    }
    if olderThan.Some? {
      FilterMembers(twice, NotOlder(now - olderThan.value));
    }
  }

  // ----- heartbeats

  /** A heartbeat moves the expiry of each lease it renews to at least its duration from now, never
      back, and changes no other row. */
  lemma ExtensionRenews(f: File, s: Selector, duration: int, now: int, i: nat)
    requires i < |f.rows|
    ensures var g := Effect(Backfilled(f), ExtendLease(s, duration, true), now);
      && g.Some? && |g.value.rows| == |f.rows|
      && (Matches(s, now, f.rows[i]) ==>
            && now + duration <= g.value.rows[i].expires && f.rows[i].expires <= g.value.rows[i].expires
            && g.value.rows[i].expires in {f.rows[i].expires, now + duration}
            && g.value.rows[i] == f.rows[i].(expires := g.value.rows[i].expires, renewedAt := now))
      && (!Matches(s, now, f.rows[i]) ==> g.value.rows[i] == f.rows[i])
  {
  }

  /** A lease that is over is never renewed, and an open one is whenever its claim id is asked for. */
  lemma ExplicitRenewal(s: Selector, now: int, r: Row)
    ensures IsOver(r) ==> !Matches(s, now, r)
    ensures !IsOver(r) && s.claimId != "" && s.claimId == r.claimId ==> Matches(s, now, r)
    ensures !s.all && (s.claimId == "" || s.claimId != r.claimId) ==> !Matches(s, now, r)
  {
  }

  /** The blanket heartbeat renews exactly the open leases of its agent and place that a session of
      their own holds: no proxy session, and a governor's only while a governor is alive and for
      three hours from its start. */
  lemma BlanketRenewal(s: Selector, now: int, r: Row)
    requires s.all && s.claimId == ""
    ensures Matches(s, now, r) <==>
      && !IsOver(r) && r.agent == s.agent && r.session !in {"", "manual", "dashboard", "mcp"}
      && |s.worktreePrefix| <= |r.worktree| && r.worktree[..|s.worktreePrefix|] == s.worktreePrefix
      && (|r.session| >= 5 && r.session[..5] == "pace-" ==>
            s.governorAlive && now - r.startedAt <= 3 * 60 * 60)
  {
  }
}
