/** What a grant gives and what it keeps out: the new lease, its lifetime, and the exact conditions
    under which the next checkout or claim is refused. */
module LeaseGrants {
  import opened Seqs
  import opened Leases
  import opened Pruning
  import opened LeaseCommands
  import opened LeaseSafety
  import opened LiveRuns
  import Heartbeat

  // ----- reading a row

  /** The row has not been retired, and its time has not come. */
  predicate Lives(r: Row, instant: int) {
    r.status !in {Done, Released, Status.Blocked, Expired, Stolen} && instant < r.expires
  }

  /** The row holds task `n`: by a stored id of two digits, else by its issue number from 10 on,
      else by the id that its title embeds or by the task whose title it is. */
  predicate Holds(r: Row, n: nat) {
    || (r.taskId.Some? && r.taskId.value.number == n && !r.taskId.value.short)
    || (r.taskId.None? && r.issue == Some(n) && n >= 10)
    || (r.taskId.None? && r.issue.None? && Labels(r.title, n))
  }

  /** The label embeds the number, or embeds none and is the title of that task. */
  predicate Labels(l: Label, n: nat) {
    || (l.embedded.Some? && l.embedded.value.number == n)
    || (l.embedded.None? && l.titled.Some? && l.titled.value.number == n)
  }

  /** The row was checked out for issue `n`, or claims the task stored under that number. */
  predicate IsFor(r: Row, n: nat) {
    r.issue == Some(n) || (r.issue.None? && r.taskId.Some? && r.taskId.value.number == n)
  }

  lemma RowMeans(r: Row, n: nat, instant: int)
    ensures IsLive(r, instant) <==> Lives(r, instant)
    ensures TaskOf(r) == Some(n) <==> Holds(r, n)
    ensures ForIssue(r, n) <==> IsFor(r, n)
    ensures NumberOf(r.title.Names()) == Some(n) <==> Labels(r.title, n)
  {
  }

  // ----- when a lease is granted

  /** A live row keeps a checkout of issue `n` out. */
  predicate Occupies(r: Row, n: nat, now: int) {
    Lives(r, now) && (IsFor(r, n) || (n >= 10 && Holds(r, n)))
  }

  lemma OccupiesMeans(r: Row, n: nat, now: int)
    ensures HoldsIssue(r, n, now) <==> Occupies(r, n, now)
  {
    RowMeans(r, n, now);
  }

  /** A checkout is granted if and only if nothing stops its set-up and, unless it steals, no live
      lease is for the issue or holds the task of that number. */
  lemma CheckoutIsGrantedExactly(f: File, issue: nat, title: Label, steal: bool, h: Holder, now: int)
    ensures Effect(Backfilled(f), Checkout(issue, title, steal, h), now).Some? <==>
      h.allowed && (steal || forall i :: 0 <= i < |f.rows| ==> !Occupies(f.rows[i], issue, now))
  {
    forall i | 0 <= i < |f.rows| ensures BlocksCheckout(issue, now)(f.rows[i]) <==> Occupies(f.rows[i], issue, now) {
      OccupiesMeans(f.rows[i], issue, now);
    }
  }

  /** A live row keeps a claim with this label out: a claim with the same words, or any lease that
      holds the task which the label names. */
  predicate Contests(r: Row, title: Label, now: int) {
    Lives(r, now)
    && ((r.issue.None? && r.title.text == title.text)
        || (title.embedded.Some? && Holds(r, title.embedded.value.number))
        || (title.embedded.None? && title.titled.Some? && Holds(r, title.titled.value.number)))
  }

  lemma ContestsMeans(r: Row, title: Label, now: int)
    ensures BlocksClaim(title, now)(r) <==> Contests(r, title, now)
  {
    RowMeans(r, 0, now);
    if title.Names().Some? {
      RowMeans(r, title.Names().value.number, now);
    }
  }

  /** A claim is granted if and only if nothing stops its set-up and no live lease has its words or
      holds its task; a label that names no task is still exclusive. */
  lemma ClaimIsGrantedExactly(f: File, title: Label, claimId: string, h: Holder, now: int)
    ensures Effect(Backfilled(f), Claim(title, claimId, h), now).Some? <==>
      h.allowed && forall i :: 0 <= i < |f.rows| ==> !Contests(f.rows[i], title, now)
  {
    forall i | 0 <= i < |f.rows| ensures BlocksClaim(title, now)(f.rows[i]) <==> Contests(f.rows[i], title, now) {
      ContestsMeans(f.rows[i], title, now);
    }
  }

  /** A live row takes a candidate: it has its words, or holds the task of its id, or, when it has
      no id, of its label. */
  predicate TakesCandidate(r: Row, c: Candidate, now: int) {
    Lives(r, now)
    && (|| r.title.text == c.title.text
        || (c.id.Some? && !c.id.value.short && Holds(r, c.id.value.number))
        || (c.id.None? && c.title.embedded.Some? && Holds(r, c.title.embedded.value.number))
        || (c.id.None? && c.title.embedded.None? && c.title.titled.Some? && Holds(r, c.title.titled.value.number)))
  }

  lemma TakesMeans(r: Row, c: Candidate, now: int)
    ensures TakesCandidate(r, c, now) <==>
      IsLive(r, now) && (r.title.text == c.title.text
                         || (CandidateTask(c).Some? && TaskOf(r) == NumberOf(CandidateTask(c))))
  {
    RowMeans(r, 0, now);
    if CandidateTask(c).Some? {
      RowMeans(r, CandidateTask(c).value.number, now);
    }
  }

  predicate IsOpenTo(rows: seq<Row>, c: Candidate, now: int) {
    !c.skip && forall i :: 0 <= i < |rows| ==> !TakesCandidate(rows[i], c, now)
  }

  lemma TakenMeans(rows: seq<Row>, c: Candidate, now: int)
    ensures !Taken(rows, c, now) && !c.skip <==> IsOpenTo(rows, c, now)
  {
    forall i | 0 <= i < |rows|
      ensures TakesCandidate(rows[i], c, now) <==>
        IsLive(rows[i], now) && (rows[i].title.text == c.title.text
                                 || (CandidateTask(c).Some? && TaskOf(rows[i]) == NumberOf(CandidateTask(c))))
    {
      TakesMeans(rows[i], c, now);
    }
  }

  /** Claim-next takes the first candidate that is workable and that no live lease takes; it passes
      over every earlier one, and finds none only when there is none. */
  lemma {:induction false} FirstOpenCandidate(rows: seq<Row>, cs: seq<Candidate>, now: int) returns (k: nat)
    ensures k <= |cs| && forall j :: 0 <= j < k ==> !IsOpenTo(rows, cs[j], now)
    ensures k < |cs| ==> IsOpenTo(rows, cs[k], now)
    ensures Picked(rows, cs, now) == if k < |cs| then Some(cs[k]) else None
    decreases |cs|
  {
    k := 0;
    if cs != [] {
      TakenMeans(rows, cs[0], now);
      if !IsOpenTo(rows, cs[0], now) {
        k := FirstOpenCandidate(rows, cs[1..], now);
        k := k + 1;
      }
    }
  }

  /** A session that holds a live lease gets no further one unless it asks for several; an unknown
      session is never counted. */
  lemma OneLeasePerSession(f: File, cs: seq<Candidate>, allowMulti: bool, lockNow: int, claimId: string, h: Holder,
                           now: int)
    ensures !allowMulti && h.session !in {"", "manual"}
      && (exists i :: 0 <= i < |f.rows| && Lives(f.rows[i], lockNow) && f.rows[i].session == h.session)
      ==> Effect(Backfilled(f), ClaimNext(cs, allowMulti, lockNow, claimId, h), now).None?
    ensures Effect(Backfilled(f), ClaimNext(cs, allowMulti, lockNow, claimId, h), now).None? ==>
      || !h.allowed
      || (!allowMulti && h.session !in {"", "manual"}
          && exists i :: 0 <= i < |f.rows| && Lives(f.rows[i], lockNow) && f.rows[i].session == h.session)
  {
    forall i | 0 <= i < |f.rows| ensures IsLive(f.rows[i], lockNow) <==> Lives(f.rows[i], lockNow) {
      RowMeans(f.rows[i], 0, lockNow);
    }
  }

  // ----- what is granted

  lemma LastRowStays(rows: seq<Row>, row: Row, pruneNow: int)
    requires Open(row)
    ensures Pruned(rows + [row], pruneNow) != []
    ensures Pruned(rows + [row], pruneNow)[|Pruned(rows + [row], pruneNow)| - 1] == row
  {
    assert (rows + [row])[|rows|] == row;
  }

  /** The last row is a lease of this holder from `now` on, with the token that the counter shows:
      live at every instant before its time is over and at none from then on. */
  ghost predicate IsNewLease(f: File, h: Holder, now: int) {
    f.rows != []
    && (var r := f.rows[|f.rows| - 1];
        && r.agent == h.agent && r.session == h.session && r.branch == h.branch && r.worktree == h.worktree
        && r.status == CheckedOut && r.endedAt.None? && r.ownCounter == 0 && r.fence == f.counter
        && r.startedAt == r.renewedAt == now && r.expires == now + h.duration
        && forall instant :: Lives(r, instant) <==> instant < now + h.duration)
  }

  lemma GrantIsNewLease(f: File, rows: seq<Row>, row: Row, h: Holder, now: int, pruneNow: int)
    requires row == NewRow(row.issue, row.taskId, row.title, row.claimId, h, 0, now)
    ensures var g := Granted(f, rows, row).(rows := Pruned(Granted(f, rows, row).rows, pruneNow));
      IsNewLease(g, h, now) && g.rows[|g.rows| - 1] == row.(fence := f.counter + 1)
  {
    LastRowStays(rows, row.(fence := f.counter + 1), pruneNow);
  }

  /** A granted checkout: a new lease for the issue. */
  lemma CheckoutGives(f: File, issue: nat, title: Label, steal: bool, h: Holder, now: int, pruneNow: int)
    requires Effect(Backfilled(f), Checkout(issue, title, steal, h), now).Some?
    ensures var g := After(f, Checkout(issue, title, steal, h), now, pruneNow);
      && IsNewLease(g, h, now)
      && (var r := g.rows[|g.rows| - 1];
          && r.issue == Some(issue) && r.title == title && r.claimId == ""
          && r.taskId == if issue >= 10 then Some(Spelling(issue, false)) else None)
  {
    GrantIsNewLease(Backfilled(f), Map(f.rows, StealIf(issue, now)),
                    NewRow(Some(issue), IssueId(issue), title, "", h, 0, now), h, now, pruneNow);
  }

  /** A granted claim: a new lease with the label, and with the id that it names. */
  lemma ClaimGives(f: File, title: Label, claimId: string, h: Holder, now: int, pruneNow: int)
    requires Effect(Backfilled(f), Claim(title, claimId, h), now).Some?
    ensures var g := After(f, Claim(title, claimId, h), now, pruneNow);
      && IsNewLease(g, h, now)
      && (var r := g.rows[|g.rows| - 1];
          && r.issue.None? && r.title == title && r.claimId == claimId
          && r.taskId == if title.embedded.Some? then title.embedded else title.titled)
  {
    GrantIsNewLease(Backfilled(f), f.rows, NewRow(None, title.Names(), title, claimId, h, 0, now), h, now, pruneNow);
  }

  /** A granted claim-next: a new lease with the candidate's label, and with its id when it has one
      of two digits. */
  lemma ClaimNextGives(f: File, cs: seq<Candidate>, allowMulti: bool, lockNow: int, claimId: string, h: Holder,
                       now: int, pruneNow: int)
    requires Effect(Backfilled(f), ClaimNext(cs, allowMulti, lockNow, claimId, h), now).Some?
    requires Picked(f.rows, cs, now).Some?
    ensures var g, p := After(f, ClaimNext(cs, allowMulti, lockNow, claimId, h), now, pruneNow),
                        Picked(f.rows, cs, now).value;
      && IsNewLease(g, h, now)
      && (var r := g.rows[|g.rows| - 1];
          && r.issue.None? && r.title == p.title && r.claimId == claimId
          && r.taskId == if p.id.Some? then (if p.id.value.short then None else p.id)
                         else if p.title.embedded.Some? then p.title.embedded else p.title.titled)
  {
    var p := Picked(f.rows, cs, now).value;
    GrantIsNewLease(Backfilled(f), f.rows, NewRow(None, CandidateTask(p), p.title, claimId, h, 0, now), h, now,
                    pruneNow);
  }

  /** A steal ends every lease that was live for the issue or held its task, and no other. */
  lemma StealEnds(r: Row, issue: nat, now: int)
    ensures Occupies(r, issue, now) ==> StealIf(issue, now)(r) == r.(status := Stolen, endedAt := Some(now))
    ensures Occupies(r, issue, now) ==> forall instant :: !Lives(StealIf(issue, now)(r), instant)
    ensures !Occupies(r, issue, now) ==> StealIf(issue, now)(r) == r
  {
    OccupiesMeans(r, issue, now);
  }

  lemma AllButLast(rows: seq<Row>, row: Row, pruneNow: int)
    requires Open(row)
    ensures var kept := Pruned(rows + [row], pruneNow);
      kept != [] && forall i :: 0 <= i < |kept| - 1 ==> kept[i] in rows
  {
    var all := rows + [row];
    KeptMembers(all, Recent(all), pruneNow, |rows|);
    assert all[|rows|] == row;
    var front := KeptUpTo(all, Recent(all), pruneNow, |rows|);
    forall i | 0 <= i < |front| ensures front[i] in rows {
      assert front[i] in front;
    }
  }

  /** After a granted checkout, stolen or not, no other lease is live for the issue or its task, now
      or later. */
  lemma CheckoutIsAlone(f: File, issue: nat, title: Label, steal: bool, h: Holder, now: int, pruneNow: int, i: nat,
                        instant: int)
    requires Effect(Backfilled(f), Checkout(issue, title, steal, h), now).Some? && now <= instant
    requires i < |After(f, Checkout(issue, title, steal, h), now, pruneNow).rows| - 1
    ensures !Occupies(After(f, Checkout(issue, title, steal, h), now, pruneNow).rows[i], issue, instant)
  {
    var rows := Map(f.rows, StealIf(issue, now));
    var row := NewRow(Some(issue), IssueId(issue), title, "", h, 0, now).(fence := Backfilled(f).counter + 1);
    AllButLast(rows, row, pruneNow);
    var r := Pruned(rows + [row], pruneNow)[i];
    var k :| 0 <= k < |rows| && rows[k] == r;
    StealEnds(f.rows[k], issue, now);
  }

  // ----- until its time is over, a granted lease keeps the others out

  /** The `k`-th event does not name the lease, and its clock is read before the lease is over. */
  ghost predicate LeavesAlone(f: File, es: seq<Event>, k: nat, token: nat, end: int)
    requires k < |es|
  {
    es[k].now < end && Spares(Run(f, es[..k]).rows, es[k].command, es[k].now, token)
  }

  ghost predicate Unchallenged(f: File, es: seq<Event>, token: nat, end: int) {
    forall k :: 0 <= k < |es| ==> LeavesAlone(f, es, k, token, end)
  }

  lemma {:induction false} HeldOverRun(f: File, es: seq<Event>, r: Row, d: int)
    requires Held(f.rows, r, d) && Open(r) && Unchallenged(f, es, r.fence, d)
    ensures Held(Run(f, es).rows, r, d)
  {
    if es != [] {
      var n := |es| - 1;
      forall k | 0 <= k < n ensures LeavesAlone(f, es[..n], k, r.fence, d) {
        assert LeavesAlone(f, es, k, r.fence, d) && es[..n][..k] == es[..k];
      }
      HeldOverRun(f, es[..n], r, d);
      assert LeavesAlone(f, es, n, r.fence, d);
      CommandHolds(Run(f, es[..n]), es[n].command, es[n].now, es[n].pruneNow, r, d);
    }
  }

  lemma GrantIsHeld(f: File, rows: seq<Row>, row: Row, pruneNow: int)
    requires Open(row) && row.fence == f.counter + 1 && forall i :: 0 <= i < |rows| ==> rows[i].fence <= f.counter
    ensures var kept := Pruned(rows + [row], pruneNow);
      kept != [] && kept[|kept| - 1] == row && Held(kept, row, row.expires)
  {
    LastRowStays(rows, row, pruneNow);
    AllButLast(rows, row, pruneNow);
  }

  /** A checkout, a claim, or a claim-next that found a candidate. */
  ghost predicate Grants(f: File, c: Command, now: int) {
    Effect(Backfilled(f), c, now).Some?
    && (c.Checkout? || c.Claim? || (c.ClaimNext? && Picked(f.rows, c.candidates, now).Some?))
  }

  lemma StolenTokens(f: File, issue: nat, now: int)
    ensures forall i :: 0 <= i < |f.rows| ==> Map(f.rows, StealIf(issue, now))[i].fence <= Backfilled(f).counter
  {
    TokensBelow(f);
  }

  lemma AfterCheckout(f: File, c: Command, now: int, pruneNow: int, row: Row)
    requires c.Checkout? && Grants(f, c, now)
    requires row == NewRow(Some(c.issue), IssueId(c.issue), c.title, "", c.holder, Backfilled(f).counter + 1, now)
    ensures After(f, c, now, pruneNow).rows == Pruned(Map(f.rows, StealIf(c.issue, now)) + [row], pruneNow)
  {
  }

  lemma CheckoutIsHeld(f: File, c: Command, now: int, pruneNow: int)
    requires c.Checkout? && Grants(f, c, now)
    ensures NewAndHeld(After(f, c, now, pruneNow), c.holder, now)
  {
    var b := Backfilled(f);
    StolenTokens(f, c.issue, now);
    CheckoutGives(f, c.issue, c.title, c.steal, c.holder, now, pruneNow);
    var row := NewRow(Some(c.issue), IssueId(c.issue), c.title, "", c.holder, b.counter + 1, now);
    AfterCheckout(f, c, now, pruneNow, row);
    GrantIsHeld(b, Map(f.rows, StealIf(c.issue, now)), row, pruneNow);
  }

  lemma ClaimIsHeld(f: File, c: Command, now: int, pruneNow: int)
    requires c.Claim? && Grants(f, c, now)
    ensures NewAndHeld(After(f, c, now, pruneNow), c.holder, now)
  {
    var b := Backfilled(f);
    TokensBelow(f);
    ClaimGives(f, c.title, c.claimId, c.holder, now, pruneNow);
    var row := NewRow(None, c.title.Names(), c.title, c.claimId, c.holder, 0, now).(fence := b.counter + 1);
    GrantIsHeld(b, f.rows, row, pruneNow);
  }

  lemma ClaimNextIsHeld(f: File, c: Command, now: int, pruneNow: int)
    requires c.ClaimNext? && Grants(f, c, now)
    ensures NewAndHeld(After(f, c, now, pruneNow), c.holder, now)
  {
    var b, p := Backfilled(f), Picked(f.rows, c.candidates, now).value;
    TokensBelow(f);
    ClaimNextGives(f, c.candidates, c.allowMulti, c.lockNow, c.claimId, c.holder, now, pruneNow);
    var row := NewRow(None, CandidateTask(p), p.title, c.claimId, c.holder, 0, now).(fence := b.counter + 1);
    GrantIsHeld(b, f.rows, row, pruneNow);
  }

  ghost predicate NewAndHeld(g: File, h: Holder, now: int) {
    IsNewLease(g, h, now) && Held(g.rows, g.rows[|g.rows| - 1], now + h.duration)
  }

  lemma NewLeaseIsHeld(f: File, c: Command, now: int, pruneNow: int)
    requires Grants(f, c, now)
    ensures NewAndHeld(After(f, c, now, pruneNow), c.holder, now)
  {
    if c.Checkout? {
      CheckoutIsHeld(f, c, now, pruneNow);
    } else if c.Claim? {
      ClaimIsHeld(f, c, now, pruneNow);
    } else {
      ClaimNextIsHeld(f, c, now, pruneNow);
    }
  }

  /** Some row with the token is live. */
  ghost predicate LiveByToken(rows: seq<Row>, token: nat, instant: int) {
    exists i :: 0 <= i < |rows| && rows[i].fence == token && Lives(rows[i], instant)
  }

  /** The command asks, without a steal, for what row `r` is a lease of: its issue, its task, or the
      words of its label. */
  predicate AsksFor(c: Command, r: Row) {
    || (c.Checkout? && !c.steal && (IsFor(r, c.issue) || (c.issue >= 10 && Holds(r, c.issue))))
    || (c.Claim? && r.issue.None? && r.title.text == c.title.text)
    || (c.Claim? && c.title.embedded.Some? && Holds(r, c.title.embedded.value.number))
    || (c.Claim? && c.title.embedded.None? && c.title.titled.Some? && Holds(r, c.title.titled.value.number))
  }

  ghost predicate Refuses(f: File, c: Command, now: int) { Effect(Backfilled(f), c, now).None? }

  lemma LiveRowRefuses(g: File, k: nat, c: Command, instant: int)
    requires k < |g.rows| && Lives(g.rows[k], instant) && AsksFor(c, g.rows[k])
    ensures Refuses(g, c, instant)
  {
    if c.Checkout? {
      assert Occupies(g.rows[k], c.issue, instant);
      CheckoutIsGrantedExactly(g, c.issue, c.title, c.steal, c.holder, instant);
    } else {
      assert Contests(g.rows[k], c.title, instant);
      ClaimIsGrantedExactly(g, c.title, c.claimId, c.holder, instant);
    }
  }

  /** Until its time is over, and over any run that does not name it, a granted lease is live and
      nobody else gets its issue, its task or its label. */
  lemma GrantLasts(f: File, c: Command, now: int, pruneNow: int, g: File, es: seq<Event>, instant: int, other: Command)
    returns (r: Row)
    requires Grants(f, c, now) && g == After(f, c, now, pruneNow) && instant < now + c.holder.duration
    requires Unchallenged(g, es, g.counter, now + c.holder.duration)
    ensures g.rows != [] && r == g.rows[|g.rows| - 1] && r.fence == g.counter
    ensures LiveByToken(Run(g, es).rows, r.fence, instant)
    ensures AsksFor(other, r) ==> Refuses(Run(g, es), other, instant)
  {
    NewLeaseIsHeld(f, c, now, pruneNow);
    r := g.rows[|g.rows| - 1];
    LastsFrom(g, c.holder, now, es, instant, other);
  }

  /** In particular two claims with the same words, whether or not these name any task: the second is
      refused until the first is over. */
  lemma SameWordsAreRefused(f: File, c: Command, now: int, pruneNow: int, other: Command, instant: int)
    requires c.Claim? && Grants(f, c, now) && other.Claim? && other.title.text == c.title.text
    requires instant < now + c.holder.duration
    ensures Refuses(After(f, c, now, pruneNow), other, instant)
  {
    var g := After(f, c, now, pruneNow);
    ClaimGives(f, c.title, c.claimId, c.holder, now, pruneNow);
    LiveRowRefuses(g, |g.rows| - 1, other, instant);
  }

  lemma LastsFrom(g: File, h: Holder, now: int, es: seq<Event>, instant: int, other: Command)
    requires NewAndHeld(g, h, now) && instant < now + h.duration
    requires Unchallenged(g, es, g.counter, now + h.duration)
    ensures var r, later := g.rows[|g.rows| - 1], Run(g, es);
      && LiveByToken(later.rows, r.fence, instant)
      && (AsksFor(other, r) ==> Refuses(later, other, instant))
  {
    var r := g.rows[|g.rows| - 1];
    assert Lives(r, now + h.duration - 1);
    HeldOverRun(g, es, r, now + h.duration);
    HeldExcludes(Run(g, es), r, now + h.duration, instant, other);
  }

  lemma HeldExcludes(g: File, r: Row, end: int, instant: int, other: Command)
    requires Held(g.rows, r, end) && Open(r) && instant < end
    ensures LiveByToken(g.rows, r.fence, instant)
    ensures AsksFor(other, r) ==> Refuses(g, other, instant)
  {
    var k :| 0 <= k < |g.rows| && g.rows[k].fence == r.fence;
    assert Lives(g.rows[k], instant);
    if AsksFor(other, r) {
      LiveRowRefuses(g, k, other, instant);
    }
  }

  // ----- mutual exclusion, read off the rows

  /** After any run, of two rows that commands wrote and that hold one task at most one is live. */
  lemma NoTaskIsLeasedTwice(f: File, start: int, es: seq<Event>, present: int, i: nat, j: nat, n: nat)
    requires Invariant(f, start) && Lawful(f, start, es) && End(start, es) <= present
    requires i < j < |Run(f, es).rows|
    requires var r, s := Run(f, es).rows[i], Run(f, es).rows[j];
      Holds(r, n) && Holds(s, n) && (r.taskId.Some? || r.issue.Some?) && (s.taskId.Some? || s.issue.Some?)
    ensures !Lives(Run(f, es).rows[i], present) || !Lives(Run(f, es).rows[j], present)
  {
    MutualExclusion(f, start, es, present);
    var r, s := Run(f, es).rows[i], Run(f, es).rows[j];
    RowMeans(r, n, present);
    RowMeans(s, n, present);
    assert SameTask(r, s);
  }
}
