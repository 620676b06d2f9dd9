/** The lease file as an object: each command loads a working copy under the lock, changes it in
    place, and either saves it or leaves the file as it was. */
module LeaseFiles {
  import opened Seqs
  import opened Leases
  import opened Pruning
  import opened LeaseCommands
  import Heartbeat
  import opened LeaseGrants

  class LeaseFile {
    var checkouts: seq<Row>
    var fenceCounter: nat

    constructor ()
      ensures State() == File([], 0)
    {
      checkouts, fenceCounter := [], 0;
    }

    function State(): File
      reads this
    {
      File(checkouts, fenceCounter)
    }

    /** Read the file, raising a counter that lags its rows. */
    method Load() returns (rows: seq<Row>, counter: nat)
      ensures File(rows, counter) == Backfilled(State())
    {
      rows := checkouts;
      var existingMax := LargestId(set r: Row | r in rows :: r.fence);
      counter := if existingMax > fenceCounter then existingMax else fenceCounter;
    }

    /** Prune and write. */
    method Save(rows: seq<Row>, counter: nat, pruneNow: int)
      modifies this
      ensures State() == File(Pruned(rows, pruneNow), counter)
    {
      checkouts := PruneTerminalRows(rows, pruneNow);
      fenceCounter := counter;
    }

    method Checkout(issue: nat, title: Label, steal: bool, h: Holder, now: int, pruneNow: int)
      returns (granted: bool, token: nat)
      modifies this
      ensures State() == After(old(State()), Command.Checkout(issue, title, steal, h), now, pruneNow)
      ensures granted <==> Effect(Backfilled(old(State())), Command.Checkout(issue, title, steal, h), now).Some?
      ensures granted ==> token == Backfilled(old(State())).counter + 1 && IsNewLease(State(), h, now)
    {
      token := 0;
      ghost var before := State();
      var rows, counter := Load();
      var held := LastIndex(rows, BlocksCheckout(issue, now));
      if !h.allowed || (held.Some? && !steal) {
        return false, token;
      }
      rows := StealRows(rows, issue, now);
      token := counter + 1;
      rows := rows + [NewRow(Some(issue), IssueId(issue), title, "", h, token, now)];
      Save(rows, token, pruneNow);
      CheckoutGives(before, issue, title, steal, h, now, pruneNow);
      granted := true;
    }

    method Claim(title: Label, claimId: string, h: Holder, now: int, pruneNow: int) returns (granted: bool, token: nat)
      modifies this
      ensures State() == After(old(State()), Command.Claim(title, claimId, h), now, pruneNow)
      ensures granted <==> Effect(Backfilled(old(State())), Command.Claim(title, claimId, h), now).Some?
      ensures granted ==> token == Backfilled(old(State())).counter + 1 && IsNewLease(State(), h, now)
    {
      token := 0;
      ghost var before := State();
      if !h.allowed {
        return false, token;
      }
      var rows, counter := Load();
      for i := 0 to |rows|
        invariant forall k :: 0 <= k < i ==> !BlocksClaim(title, now)(rows[k])
      {
        if BlocksClaim(title, now)(rows[i]) {
          return false, token;
        }
      }
      token := counter + 1;
      Save(rows + [NewRow(None, title.Names(), title, claimId, h, token, now)], token, pruneNow);
      ClaimGives(before, title, claimId, h, now, pruneNow);
      granted := true;
    }

    method ClaimNext(cs: seq<Candidate>, allowMulti: bool, lockNow: int, claimId: string, h: Holder, now: int,
                     pruneNow: int)
      returns (picked: Option<Candidate>)
      modifies this
      ensures State() == After(old(State()), Command.ClaimNext(cs, allowMulti, lockNow, claimId, h), now, pruneNow)
      ensures picked.Some? ==> picked == LeaseCommands.Picked(old(State()).rows, cs, now) && IsNewLease(State(), h, now)
    {
      ghost var before := State();
      var rows, counter := Load();
      picked := None;
      if !allowMulti && SessionBusy(rows, h.session, lockNow) {
        return;
      }
      var i := 0;
      while i < |cs| && (Taken(rows, cs[i], now) || cs[i].skip)
        invariant 0 <= i <= |cs|
        invariant LeaseCommands.Picked(rows, cs, now) == LeaseCommands.Picked(rows, cs[i..], now)
      {
        assert cs[i..][1..] == cs[i + 1..];
        i := i + 1;
      }
      if i == |cs| {
        Save(rows, counter, pruneNow);
        return;
      }
      assert cs[i..][0] == cs[i];
      if !h.allowed {
        return;
      }
      picked := Some(cs[i]);
      rows := rows + [NewRow(None, CandidateTask(cs[i]), cs[i].title, claimId, h, counter + 1, now)];
      Save(rows, counter + 1, pruneNow);
      ClaimNextGives(before, cs, allowMulti, lockNow, claimId, h, now, pruneNow);
    }

    method Unclaim(claimId: string, now: int, pruneNow: int) returns (released: bool)
      modifies this
      ensures State() == After(old(State()), Command.Unclaim(claimId), now, pruneNow)
      ensures released <==> LastIndex(old(State()).rows, HasClaim(claimId)).Some?
    {
      var rows, counter := Load();
      var k := LastIndex(rows, HasClaim(claimId));
      if k.None? {
        return false;
      }
      rows := rows[k.value := Ended(rows[k.value], Released, now)];
      Save(rows, counter, pruneNow);
      released := true;
    }

    /** Renew, block, release or finish the lease on an issue. */
    method MutateIssue(issue: nat, change: Change, token: Option<nat>, branch: string, now: int, pruneNow: int)
      returns (written: bool)
      modifies this
      ensures State() == After(old(State()), Mutate(issue, change, token, branch), now, pruneNow)
      ensures written <==> Target(old(State()).rows, issue, token, branch).Some?
    {
      var rows, counter := Load();
      var k := ChooseRow(rows, issue, token, branch);
      if k.None? {
        return false;
      }
      rows := rows[k.value := Changed(rows[k.value], change, now)];
      Save(rows, counter, pruneNow);
      written := true;
    }

    method Reap(orphans: bool, olderThan: Option<int>, now: int, pruneNow: int)
      modifies this
      ensures State() == After(old(State()), Command.Reap(orphans, olderThan), now, pruneNow)
    {
      var rows, counter := Load();
      rows := ReapRows(rows, orphans, olderThan, now);
      Save(rows, counter, pruneNow);
    }

    method ExtendLeases(s: Selector, duration: int, due: bool, now: int, pruneNow: int)
      modifies this
      ensures State() == After(old(State()), Command.ExtendLease(s, duration, due), now, pruneNow)
    {
      if !due {
        return;
      }
      var rows, counter := Load();
      rows := UpdateRows(rows, Extend(s, duration, now));
      Save(rows, counter, pruneNow);
    }

    /** The heartbeat: a look at a snapshot read before the lock, and no write unless some lease
        that matches there is close to expiry. The locked file may have moved on since. */
    method Beat(snapshot: seq<Row>, s: Selector, duration: int, within: int, now: int, pruneNow: int)
      returns (wrote: bool)
      modifies this
      ensures wrote <==> Heartbeat.Due(snapshot, s, within, now)
      ensures State() == After(old(State()), Command.ExtendLease(s, duration, wrote), now, pruneNow)
    {
      wrote := false;
      for i := 0 to |snapshot|
        invariant wrote <==>
          exists k :: 0 <= k < i && Matches(s, now, snapshot[k]) && snapshot[k].expires <= now + within
      {
        if Matches(s, now, snapshot[i]) && snapshot[i].expires <= now + within {
          wrote := true;
        }
      }
      ExtendLeases(s, duration, wrote, now, pruneNow);
    }

    /** The work reader's own pass: it saves only when something expired. */
    method AutoReap(now: int) returns (count: nat)
      modifies this
      ensures State() == After(old(State()), Command.AutoReap, now, now)
    {
      var rows := checkouts;
      count := 0;
      for i := 0 to |rows|
        invariant |rows| == |checkouts| && (count == 0 ==> rows == checkouts)
        invariant forall k :: 0 <= k < i ==> rows[k] == ExpireStale(now)(checkouts[k])
        invariant forall k :: i <= k < |rows| ==> rows[k] == checkouts[k]
      {
        if rows[i].status == CheckedOut && rows[i].expires <= now {
          rows := rows[i := Ended(rows[i], Expired, now)];
          count := count + 1;
        }
      }
      assert rows == Map(checkouts, ExpireStale(now));
      if count > 0 {
        checkouts := rows;
      }
    }
  }

  /** The row a write may go to: the one its token proves, unless that is superseded or over; or the
      last open one. */
  method ChooseRow(rows: seq<Row>, issue: nat, token: Option<nat>, branch: string) returns (k: Option<nat>)
    ensures k == Target(rows, issue, token, branch)
  {
    if token.Some? {
      for i := 0 to |rows|
        invariant forall k :: 0 <= k < i ==> !(ForIssue(rows[k], issue) && rows[k].fence > token.value)
      {
        if ForIssue(rows[i], issue) && rows[i].fence > token.value {
          return None;
        }
      }
    }
    k := LastIndex(rows, if token.Some? then WithToken(issue, token.value) else OpenOnBranch(issue, branch));
    if k.Some? && Retired(rows[k.value].status) {
      k := None;
    }
  }

  method StealRows(before: seq<Row>, issue: nat, now: int) returns (rows: seq<Row>)
    ensures rows == Map(before, StealIf(issue, now))
  {
    rows := before;
    for i := 0 to |rows|
      invariant |rows| == |before|
      invariant forall k :: 0 <= k < i ==> rows[k] == StealIf(issue, now)(before[k])
      invariant forall k :: i <= k < |rows| ==> rows[k] == before[k]
    {
      if HoldsIssue(rows[i], issue, now) {
        rows := rows[i := Ended(rows[i], Stolen, now)];
      }
    }
  }

  method ReapRows(before: seq<Row>, orphans: bool, olderThan: Option<int>, now: int) returns (rows: seq<Row>)
    ensures rows == Reaped(before, orphans, olderThan, now)
  {
    rows := UpdateRows(before, ExpireStale(now));
    if orphans {
      rows := UpdateRows(rows, ExpireOrphan(now));
    }
    if olderThan.Some? {
      rows := Filter(rows, NotOlder(now - olderThan.value));
    }
  }

  /** Update every row of a working copy in place. */
  method UpdateRows(before: seq<Row>, f: Row -> Row) returns (rows: seq<Row>)
    ensures rows == Map(before, f)
  {
    rows := before;
    for i := 0 to |rows|
      invariant |rows| == |before|
      invariant forall k :: 0 <= k < i ==> rows[k] == f(before[k])
      invariant forall k :: i <= k < |rows| ==> rows[k] == before[k]
    {
      rows := rows[i := f(rows[i])];
    }
  }
}
