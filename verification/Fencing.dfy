/** Fence tokens over whole runs: they only grow, and a dead one stays dead. */
module Fencing {
  import opened Seqs
  import opened Leases
  import opened Pruning
  import opened LeaseCommands
  import opened LeaseSafety

  /** The counter as the next command will see it. */
  ghost function Floor(f: File): nat { Backfilled(f).counter }

  /** No token above the floor's past is reused and no retired row is reopened: every row of `g`
      either has a token above `f`'s floor, or continues a row of `f` with its token. */
  ghost predicate Continues(f: File, g: File) {
    && Floor(f) <= Floor(g)
    && forall i :: 0 <= i < |g.rows| ==> g.rows[i].fence > Floor(f) || HasAncestor(f.rows, g.rows[i])
  }

  ghost predicate HasAncestor(rows: seq<Row>, r: Row) {
    exists j :: 0 <= j < |rows| && rows[j].fence == r.fence && (Retired(rows[j].status) ==> Retired(r.status))
  }

  lemma FloorBounds(f: File)
    ensures f.counter <= Floor(f)
    ensures forall i :: 0 <= i < |f.rows| ==> f.rows[i].fence <= Floor(f)
  {
    TokensBelow(f);
  }

  /** A file whose rows have known tokens has a known floor. */
  lemma FloorAtLeast(f: File, g: File)
    requires g.counter >= f.counter
    requires forall r :: r in f.rows ==>
      r.fence <= g.counter || exists i :: 0 <= i < |g.rows| && g.rows[i].fence == r.fence
    ensures Floor(f) <= Floor(g)
  {
    FloorBounds(g);
    var m := MaxId(Tokens(f.rows));
    if m > f.counter {
      var r :| r in f.rows && r.fence == m;
    }
  }

  lemma ContinuesTransitive(f: File, g: File, h: File)
    requires Continues(f, g) && Continues(g, h)
    ensures Continues(f, h)
  {
    forall i | 0 <= i < |h.rows| && h.rows[i].fence <= Floor(f) ensures HasAncestor(f.rows, h.rows[i]) {
      var j :| 0 <= j < |g.rows| && g.rows[j].fence == h.rows[i].fence
               && (Retired(g.rows[j].status) ==> Retired(h.rows[i].status));
      assert HasAncestor(f.rows, g.rows[j]);
    }
  }

  /** Row by row, an update that keeps tokens and never reopens a row. */
  predicate Sticky(r: Row, r': Row) {
    r'.fence == r.fence && (Retired(r.status) ==> Retired(r'.status))
  }

  lemma UpdateContinues(f: File, g: File)
    requires |f.rows| == |g.rows| && f.counter <= g.counter
    requires forall i :: 0 <= i < |f.rows| ==> Sticky(f.rows[i], g.rows[i])
    ensures Continues(f, g)
  {
    FloorAtLeast(f, g);
  }

  lemma SelectionContinues(f: File, g: File)
    requires Floor(f) <= g.counter && forall r :: r in g.rows ==> r in f.rows
    ensures Continues(f, g)
  {
    FloorBounds(g);
    forall i | 0 <= i < |g.rows| ensures HasAncestor(f.rows, g.rows[i]) {
      assert g.rows[i] in f.rows;
    }
  }

  lemma GrantContinues(f: File, rows: seq<Row>, row: Row)
    requires f == Backfilled(f) && |rows| == |f.rows| && forall i :: 0 <= i < |rows| ==> Sticky(f.rows[i], rows[i])
    ensures Continues(f, Granted(f, rows, row))
  {
    var g := Granted(f, rows, row);
    FloorBounds(g);
    forall i | 0 <= i < |g.rows| && g.rows[i].fence <= Floor(f) ensures HasAncestor(f.rows, g.rows[i]) {
      assert g.rows[i] == rows[i];
    }
  }

  lemma BackfillIsStable(f: File)
    ensures Backfilled(Backfilled(f)) == Backfilled(f) && Floor(Backfilled(f)) == Floor(f)
  {
  }

  lemma RowUpdatesAreSticky(r: Row, issue: nat, now: int, s: Selector, duration: int)
    ensures Sticky(r, StealIf(issue, now)(r)) && Sticky(r, ExpireStale(now)(r)) && Sticky(r, ExpireOrphan(now)(r))
    ensures Sticky(r, Extend(s, duration, now)(r))
  {
  }

  lemma MapContinues(f: File, op: Row -> Row)
    requires forall i :: 0 <= i < |f.rows| ==> Sticky(f.rows[i], op(f.rows[i]))
    ensures Continues(f, f.(rows := Map(f.rows, op)))
  {
    UpdateContinues(f, f.(rows := Map(f.rows, op)));
  }

  /** The two expiry passes of a reap. */
  lemma ExpiryContinues(f: File, rows: seq<Row>, orphans: bool, now: int)
    requires var once := Map(f.rows, ExpireStale(now)); rows == if orphans then Map(once, ExpireOrphan(now)) else once
    ensures Continues(f, f.(rows := rows)) && Floor(f.(rows := rows)) == Floor(f)
  {
    var once := Map(f.rows, ExpireStale(now));
    forall i | 0 <= i < |rows| ensures Sticky(f.rows[i], rows[i]) {
      RowUpdatesAreSticky(f.rows[i], 0, now, Selector("", false, "", false, ""), 0);
      RowUpdatesAreSticky(once[i], 0, now, Selector("", false, "", false, ""), 0);
    }
    UpdateContinues(f, f.(rows := rows));
    SameTokensSameFloor(f, f.(rows := rows));
  }

  lemma ReapContinues(f: File, orphans: bool, olderThan: Option<int>, now: int)
    requires f == Backfilled(f)
    ensures Continues(f, f.(rows := Reaped(f.rows, orphans, olderThan, now)))
  {
    var expired := Reaped(f.rows, orphans, None, now);
    ExpiryContinues(f, expired, orphans, now);
    if olderThan.Some? {
      var p := NotOlder(now - olderThan.value);
      FilterMembers(expired, p);
      SelectionContinues(f.(rows := expired), f.(rows := Filter(expired, p)));
      ContinuesTransitive(f, f.(rows := expired), f.(rows := Filter(expired, p)));
    }
  }

  lemma SameTokensSameFloor(f: File, g: File)
    requires f.counter == g.counter && |f.rows| == |g.rows|
    requires forall i :: 0 <= i < |f.rows| ==> f.rows[i].fence == g.rows[i].fence
    ensures Floor(f) == Floor(g)
  {
    assert Tokens(f.rows) == Tokens(g.rows) by {
      forall n | n in Tokens(f.rows) ensures n in Tokens(g.rows) {
        var i :| 0 <= i < |f.rows| && f.rows[i].fence == n;
        assert g.rows[i] in g.rows;
      }
      forall n | n in Tokens(g.rows) ensures n in Tokens(f.rows) {
        var i :| 0 <= i < |g.rows| && g.rows[i].fence == n;
        assert f.rows[i] in f.rows;
      }
    }
  }

  lemma EffectContinues(f: File, c: Command, now: int)
    requires f == Backfilled(f) && EndsProperly(c) && Effect(f, c, now).Some?
    ensures Continues(f, Effect(f, c, now).value)
  {
    var g := Effect(f, c, now).value;
    match c
    case Checkout(issue, title, _, h) =>
      var rows := Map(f.rows, StealIf(issue, now));
      forall i | 0 <= i < |rows| ensures Sticky(f.rows[i], rows[i]) {
        RowUpdatesAreSticky(f.rows[i], issue, now, Selector("", false, "", false, ""), 0);
      }
      GrantContinues(f, rows, NewRow(Some(issue), IssueId(issue), title, "", h, 0, now));
    case Claim(title, claimId, h) =>
      GrantContinues(f, f.rows, NewRow(None, title.Names(), title, claimId, h, 0, now));
    case ClaimNext(cs, _, _, claimId, h) =>
      var p := Picked(f.rows, cs, now);
      if p.Some? {
        GrantContinues(f, f.rows, NewRow(None, CandidateTask(p.value), p.value.title, claimId, h, 0, now));
      } else {
        UpdateContinues(f, g);
      }
    case Unclaim(_) => UpdateContinues(f, g);
    case Mutate(_, _, _, _) => UpdateContinues(f, g);
    case Reap(orphans, olderThan) => ReapContinues(f, orphans, olderThan, now);
    case ExtendLease(s, duration, _) =>
      forall i | 0 <= i < |f.rows| ensures Sticky(f.rows[i], Extend(s, duration, now)(f.rows[i])) {
        RowUpdatesAreSticky(f.rows[i], 0, now, s, duration);
      }
      MapContinues(f, Extend(s, duration, now));
    case AutoReap => ExpiryPassContinues(f, now);
  }

  lemma SelectedContinues(f: File, g: File, rows: seq<Row>)
    requires Continues(f, g) && Floor(f) <= g.counter && forall r :: r in rows ==> r in g.rows
    ensures Continues(f, g.(rows := rows))
  {
    FloorBounds(g.(rows := rows));
    forall i | 0 <= i < |rows| ensures rows[i].fence > Floor(f) || HasAncestor(f.rows, rows[i]) {
      assert rows[i] in g.rows;
    }
  }

  lemma GrantedContinues(f: File, c: Command, now: int, pruneNow: int)
    requires f == Backfilled(f) && EndsProperly(c) && Effect(f, c, now).Some?
    ensures var g := Effect(f, c, now).value; Continues(f, g.(rows := Pruned(g.rows, pruneNow)))
  {
    var g := Effect(f, c, now).value;
    EffectContinues(f, c, now);
    KeptMembers(g.rows, Recent(g.rows), pruneNow, |g.rows|);
    SelectedContinues(f, g, Pruned(g.rows, pruneNow));
  }

  lemma ExpiryPassContinues(f: File, now: int)
    ensures Continues(f, f.(rows := Map(f.rows, ExpireStale(now))))
  {
    forall i | 0 <= i < |f.rows| ensures Sticky(f.rows[i], ExpireStale(now)(f.rows[i])) {
      RowUpdatesAreSticky(f.rows[i], 0, now, Selector("", false, "", false, ""), 0);
    }
    MapContinues(f, ExpireStale(now));
  }

  /** One command, granted or refused, from any file and whatever its clocks. */
  lemma CommandContinues(f: File, c: Command, now: int, pruneNow: int)
    requires EndsProperly(c)
    ensures Continues(f, After(f, c, now, pruneNow))
  {
    if c.AutoReap? {
      ExpiryPassContinues(f, now);
    } else {
      var b := Backfilled(f);
      BackfillIsStable(f);
      UpdateContinues(f, b);
      if Effect(b, c, now).Some? {
        GrantedContinues(b, c, now, pruneNow);
        ContinuesTransitive(f, b, After(f, c, now, pruneNow));
      } else {
        UpdateContinues(f, f);
      }
    }
  }

  /** Only statuses that the command line offers are written. No clock is constrained. */
  ghost predicate AllEndProperly(es: seq<Event>) {
    forall i :: 0 <= i < |es| ==> EndsProperly(es[i].command)
  }

  lemma {:induction false} RunContinues(f: File, es: seq<Event>)
    requires AllEndProperly(es)
    ensures Continues(f, Run(f, es))
  {
    if es == [] {
      UpdateContinues(f, f);
    } else {
      var front, e := es[..|es| - 1], es[|es| - 1];
      RunContinues(f, front);
      CommandContinues(Run(f, front), e.command, e.now, e.pruneNow);
      ContinuesTransitive(f, Run(f, front), Run(f, es));
    }
  }

  /** Token `k` has been minted and no row holds it open: it was retired, or pruned away. */
  ghost predicate Dead(f: File, k: nat) {
    k <= Floor(f) && forall i :: 0 <= i < |f.rows| && f.rows[i].fence == k ==> Retired(f.rows[i].status)
  }

  /** With distinct tokens, retiring the row that carries one kills it. */
  lemma RetiredTokenIsDead(f: File, i: nat)
    requires TokensIncrease(f.rows) && i < |f.rows| && Retired(f.rows[i].status)
    ensures Dead(f, f.rows[i].fence)
  {
    FloorBounds(f);
  }

  /** In any run whatever, a dead token stays dead, so no later write that carries it is accepted,
      for any issue. */
  lemma DeadTokenStaysDead(f: File, es: seq<Event>, k: nat, issue: nat, branch: string)
    requires AllEndProperly(es) && Dead(f, k)
    ensures Dead(Run(f, es), k)
    ensures Target(Run(f, es).rows, issue, Some(k), branch) == None
  {
    RunContinues(f, es);
    var g := Run(f, es);
    forall i | 0 <= i < |g.rows| && g.rows[i].fence == k ensures Retired(g.rows[i].status) {
      assert HasAncestor(f.rows, g.rows[i]);
    }
  }

  /** The token a command mints, if it grants a lease. */
  ghost predicate Mints(f: File, e: Event, token: nat) {
    (e.command.Checkout? || e.command.Claim? || e.command.ClaimNext?)
    && Effect(Backfilled(f), e.command, e.now).Some?
    && Effect(Backfilled(f), e.command, e.now).value.counter == token > Floor(f)
  }

  lemma MintRaisesFloor(f: File, e: Event, token: nat)
    requires Mints(f, e, token)
    ensures token == Floor(f) + 1 && token <= Floor(After(f, e.command, e.now, e.pruneNow))
  {
    FloorBounds(After(f, e.command, e.now, e.pruneNow));
  }

  /** Tokens minted in a run strictly increase, even across prunings that drop the highest row. */
  lemma MintedTokensIncrease(f: File, es: seq<Event>, i: nat, j: nat, x: nat, y: nat)
    requires AllEndProperly(es) && i < j < |es|
    requires Mints(Run(f, es[..i]), es[i], x) && Mints(Run(f, es[..j]), es[j], y)
    ensures x < y
  {
    MintRaisesFloor(Run(f, es[..i]), es[i], x);
    MintRaisesFloor(Run(f, es[..j]), es[j], y);
    FloorNeverDrops(f, es, i, j);
  }

  /** The floor after event `i` is a lower bound for the floor before any later event. */
  lemma FloorNeverDrops(f: File, es: seq<Event>, i: nat, j: nat)
    requires AllEndProperly(es) && i < j <= |es|
    ensures Floor(After(Run(f, es[..i]), es[i].command, es[i].now, es[i].pruneNow)) <= Floor(Run(f, es[..j]))
  {
    var head, rest := es[..i + 1], es[i + 1..j];
    assert head[..i] == es[..i] && head + rest == es[..j];
    RunSplits(f, head, rest);
    RunContinues(Run(f, head), rest);
  }

  lemma {:induction false} RunSplits(f: File, es: seq<Event>, more: seq<Event>)
    ensures Run(f, es + more) == Run(Run(f, es), more)
  {
    if more == [] {
      assert es + more == es;
    } else {
      RunSplits(f, es, more[..|more| - 1]);
      assert (es + more)[..|es + more| - 1] == es + more[..|more| - 1];
    }
  }
}
