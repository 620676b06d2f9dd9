/** What the lease protocol does not exclude: short ids, and extensions that are not safe. */
module LeaseGaps {
  import opened Seqs
  import opened Leases
  import opened Pruning
  import opened LeaseCommands
  import opened LeaseSafety

  // ----- which ids are outside the protocol

  /** The file after one granted command on an empty file. */
  lemma FirstGrant(c: Command, row: Row)
    requires Effect(File([], 0), c, 0) == Some(Granted(File([], 0), [], row)) && Open(row) && !c.AutoReap?
    ensures After(File([], 0), c, 0, 0) == File([row.(fence := 1)], 1)
    ensures Backfilled(File([row.(fence := 1)], 1)) == File([row.(fence := 1)], 1)
  {
    var f := File([row.(fence := 1)], 1);
    NothingToPrune(f.rows, 0);
    assert f.rows[0] in f.rows;
    MaxIdIs(Tokens(f.rows), 1);
    assert Backfilled(File([], 0)) == File([], 0);
  }

  lemma ClaimAgainst(row: Row, title: Label, claimId: string, h: Holder)
    requires h.allowed
    ensures Effect(File([row], 1), Claim(title, claimId, h), 0).Some? <==> !BlocksClaim(title, 0)(row)
  {
    assert [row][0] == row;
  }

  /** Two claims of one task by different words are both granted if and only if its id is spelled
      with one digit; `#005` is refused like any other id. */
  lemma ShortIdsAreLeasedTwice(id: Id, h: Holder, words: string, others: string)
    requires h.allowed && h.duration > 0 && words != others
    ensures var f := After(File([], 0), Claim(Label(words, None, Some(id)), "a", h), 0, 0);
      && IsLive(f.rows[0], 0) && f.rows[0].taskId == Some(id)
      && (Effect(Backfilled(f), Claim(Label(others, None, Some(id)), "b", h), 0).Some? <==> id.short)
  {
    var c := Claim(Label(words, None, Some(id)), "a", h);
    var row := NewRow(None, Some(id), c.title, "a", h, 0, 0);
    FirstGrant(c, row);
    ClaimAgainst(row.(fence := 1), Label(others, None, Some(id)), "b", h);
  }

  lemma IssueThenClaim(id: Id, h: Holder, title: Label, words: string)
    requires h.allowed && h.duration > 0
    ensures var f := After(File([], 0), Checkout(id.number, title, false, h), 0, 0);
      && IsLive(f.rows[0], 0)
      && (Effect(Backfilled(f), Claim(Label(words, None, Some(id)), "b", h), 0).Some? <==> id.number < 10)
  {
    var row := NewRow(Some(id.number), IssueId(id.number), title, "", h, 0, 0);
    FirstGrant(Checkout(id.number, title, false, h), row);
    ClaimAgainst(row.(fence := 1), Label(words, None, Some(id)), "b", h);
  }

  lemma ClaimThenIssue(id: Id, h: Holder, title: Label, words: string)
    requires h.allowed && h.duration > 0
    ensures var f := After(File([], 0), Claim(Label(words, None, Some(id)), "b", h), 0, 0);
      Effect(Backfilled(f), Checkout(id.number, title, false, h), 0).None?
  {
    var c := Claim(Label(words, None, Some(id)), "b", h);
    FirstGrant(c, NewRow(None, Some(id), c.title, "b", h, 0, 0));
  }

  /** An issue number is printed without leading zeros, so a checkout of issue `n` keeps a claim of
      task `n` out if and only if `n` has two digits; the claim keeps the checkout out for every id. */
  lemma ShortIssuesAreLeasedTwice(id: Id, h: Holder, title: Label, words: string)
    requires h.allowed && h.duration > 0
    ensures var f := After(File([], 0), Checkout(id.number, title, false, h), 0, 0);
      && IsLive(f.rows[0], 0)
      && (Effect(Backfilled(f), Claim(Label(words, None, Some(id)), "b", h), 0).Some? <==> id.number < 10)
    ensures var f := After(File([], 0), Claim(Label(words, None, Some(id)), "b", h), 0, 0);
      Effect(Backfilled(f), Checkout(id.number, title, false, h), 0).None?
  {
    IssueThenClaim(id, h, title, words);
    ClaimThenIssue(id, h, title, words);
  }

  predicate NoRetired(rows: seq<Row>) { forall i :: 0 <= i < |rows| ==> Open(rows[i]) }

  lemma NothingToPrune(rows: seq<Row>, now: int)
    requires NoRetired(rows)
    ensures Pruned(rows, now) == rows
  {
    KeptAll(rows, Recent(rows), now, |rows|);
    assert rows[..|rows|] == rows;
  }

  // ----- an unsafe extension

  lemma {:induction false} TopToken(rows: seq<Row>, top: nat)
    requires rows != [] && rows[|rows| - 1].fence == top && forall i :: 0 <= i < |rows| ==> rows[i].fence <= top
    ensures Backfilled(File(rows, top)) == File(rows, top)
  {
    assert rows[|rows| - 1] in rows;
    MaxIdIs(Tokens(rows), top);
  }

  /** A checkout that finds nobody live on its issue. */
  lemma FreeCheckout(f: File, issue: nat, title: Label, h: Holder, now: int)
    requires Backfilled(f) == f && NoRetired(f.rows) && h.allowed
    requires forall i :: 0 <= i < |f.rows| ==> f.rows[i].expires <= now
    ensures var row := NewRow(Some(issue), IssueId(issue), title, "", h, 0, now).(fence := f.counter + 1);
      After(f, Checkout(issue, title, false, h), now, now) == File(f.rows + [row], f.counter + 1)
  {
    assert Map(f.rows, StealIf(issue, now)) == f.rows;
    var row := NewRow(Some(issue), IssueId(issue), title, "", h, 0, now).(fence := f.counter + 1);
    NothingToPrune(f.rows + [row], now);
  }

  /** A renewal that names only the branch of the first of two open rows extends that one. */
  lemma BranchRenewal(f: File, issue: nat, branch: string, duration: int, now: int)
    requires Backfilled(f) == f && |f.rows| == 2 && NoRetired(f.rows) && branch != ""
    requires ForIssue(f.rows[0], issue) && f.rows[0].branch == branch && f.rows[1].branch != branch
    ensures var c := Mutate(issue, Renew(duration), None, branch);
      After(f, c, now, now).rows == [f.rows[0].(expires := now + duration, renewedAt := now), f.rows[1]]
    ensures Target(f.rows, issue, None, branch) == Some(0)
  {
    var rows := [f.rows[0].(expires := now + duration, renewedAt := now), f.rows[1]];
    assert LastIndex(f.rows, OpenOnBranch(issue, branch)) == Some(0);
    assert f.rows[0 := Changed(f.rows[0], Renew(duration), now)] == rows;
    NothingToPrune(rows, now);
  }

  lemma OneMore(f: File, start: int, es: seq<Event>, e: Event)
    ensures Run(f, es + [e]) == After(Run(f, es), e.command, e.now, e.pruneNow)
    ensures Lawful(f, start, es + [e]) <==>
      && Lawful(f, start, es) && End(start, es) <= e.at && e.now <= e.at
      && Proper(e.command) && Safe(Run(f, es), e.command, e.now, e.at)
  {
    assert (es + [e])[..|es|] == es;
  }

  /** The row of the first checkout of an issue, and of its second, once the first has run out. */
  function Lapsed(issue: nat, title: Label, h: Holder): Row {
    NewRow(Some(issue), IssueId(issue), title, "", h, 0, 0).(fence := 1)
  }

  function Regranted(issue: nat, title: Label, h: Holder, now: int): Row {
    NewRow(Some(issue), IssueId(issue), title, "", h, 0, now).(fence := 2)
  }

  /** A lease runs out and its task is leased again. */
  function Relet(issue: nat, title: Label, first: Holder, second: Holder): seq<Event> {
    [Event(Checkout(issue, title, false, first), 0, 0, 0)]
    + [Event(Checkout(issue, title, false, second), first.duration, first.duration, first.duration)]
  }

  /** The first holder then renews, naming only its branch. */
  function LateRenewal(issue: nat, first: Holder): Event {
    Event(Mutate(issue, Renew(1), None, first.branch), first.duration, first.duration, first.duration)
  }

  lemma OneCheckout(issue: nat, title: Label, h: Holder)
    requires h.allowed
    ensures var e := Event(Checkout(issue, title, false, h), 0, 0, 0);
      Run(File([], 0), [e]) == File([Lapsed(issue, title, h)], 1) && Lawful(File([], 0), 0, [e])
  {
    var f, r0, e := File([], 0), Lapsed(issue, title, h), Event(Checkout(issue, title, false, h), 0, 0, 0);
    assert Backfilled(f) == f;
    FreeCheckout(f, issue, title, h, 0);
    assert [] + [r0] == [r0] && [] + [e] == [e];
    OneMore(f, 0, [], e);
  }

  lemma TwoCheckouts(issue: nat, title: Label, first: Holder, second: Holder)
    requires first.allowed && second.allowed && 0 < first.duration
    ensures var es, f := Relet(issue, title, first, second), File([], 0);
      && Run(f, es) == File([Lapsed(issue, title, first), Regranted(issue, title, second, first.duration)], 2)
      && Lawful(f, 0, es)
  {
    var r0, t := Lapsed(issue, title, first), first.duration;
    var e, e' := Event(Checkout(issue, title, false, first), 0, 0, 0),
      Event(Checkout(issue, title, false, second), t, t, t);
    OneCheckout(issue, title, first);
    TopToken([r0], 1);
    FreeCheckout(File([r0], 1), issue, title, second, t);
    OneMore(File([], 0), 0, [e], e');
  }

  /** After a renewal of the first of two leases of a task, by branch alone, both are live. */
  lemma BothLive(g: File, issue: nat, title: Label, first: Holder, second: Holder)
    requires issue >= 10 && 0 < first.duration && 0 < second.duration
    requires first.branch != "" && first.branch != second.branch
    requires g == File([Lapsed(issue, title, first), Regranted(issue, title, second, first.duration)], 2)
    ensures var e := LateRenewal(issue, first);
      && !Safe(g, e.command, e.now, e.at)
      && !Exclusive(After(g, e.command, e.now, e.pruneNow).rows, e.at)
  {
    var t := first.duration;
    TopToken(g.rows, 2);
    BranchRenewal(g, issue, first.branch, 1, t);
    assert SameTask(g.rows[0], g.rows[1]) && !SafeToExtend(g.rows, 0, t);
    var rows := [g.rows[0].(expires := t + 1, renewedAt := t), g.rows[1]];
    assert IsLive(rows[0], t) && IsLive(rows[1], t) && SameTask(rows[0], rows[1]);
  }

  /** From an empty file: every step but the last is lawful; the last is an extension that is not
      safe, and after it two leases of the task are live. */
  lemma UnsafeExtensionEndsExclusion(issue: nat, title: Label, first: Holder, second: Holder)
    requires issue >= 10 && first.allowed && second.allowed && 0 < first.duration && 0 < second.duration
    requires first.branch != "" && first.branch != second.branch
    ensures var f, es, e := File([], 0), Relet(issue, title, first, second), LateRenewal(issue, first);
      && Lawful(f, 0, es) && End(0, es) <= e.at && e.now <= e.at && Proper(e.command)
      && !Safe(Run(f, es), e.command, e.now, e.at)
      && !Exclusive(Run(f, es + [e]).rows, e.at)
  {
    var es, e := Relet(issue, title, first, second), LateRenewal(issue, first);
    TwoCheckouts(issue, title, first, second);
    BothLive(Run(File([], 0), es), issue, title, first, second);
    OneMore(File([], 0), 0, es, e);
  }
}
