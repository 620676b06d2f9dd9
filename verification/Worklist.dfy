/** The self-heal worklist: counters kept from run to run, and the history they summarize. */
module Worklist {
  import opened Seqs

  const RECUR_THRESHOLD: nat := 2
  const RECUR_WINDOW: nat := 21 * 24 * 60 * 60

  datatype Item = Item(
    key: string, firstSeen: int, lastSeen: int, occurrences: nat, reappearances: nat, recurring: bool)
  datatype Tally = Tally(resolved: nat, reappearances: nat, lastResolved: int)

  // ----- one run

  function ByKey(items: seq<Item>): map<string, Item> {
    if items == [] then map[] else ByKey(items[..|items| - 1])[items[|items| - 1].key := items[|items| - 1]]
  }

  /** A finding that was cleared inside the window and is not carried over has come back. */
  predicate ComesBack(k: string, existing: map<string, Item>, ledger: map<string, Tally>, now: int) {
    k in ledger && k !in existing && ledger[k].lastResolved >= now - RECUR_WINDOW
  }

  function Bump(t: Tally): Tally { t.(reappearances := t.reappearances + 1) }

  /** The ledger once the findings have been looked at, in order. */
  function Bumped(existing: map<string, Item>, ledger: map<string, Tally>, findings: seq<string>, now: int)
    : map<string, Tally>
  {
    if findings == [] then ledger
    else
      var k := findings[|findings| - 1];
      var l := Bumped(existing, ledger, findings[..|findings| - 1], now);
      if ComesBack(k, existing, l, now) then l[k := Bump(l[k])] else l
  }

  function Entry(k: string, existing: map<string, Item>, ledger: map<string, Tally>, now: int): Item {
    var r := if k in ledger then ledger[k].reappearances else 0;
    Item(k, if k in existing then existing[k].firstSeen else now, now,
         if k in existing then existing[k].occurrences + 1 else 1, r, r >= RECUR_THRESHOLD)
  }

  function Listed(existing: map<string, Item>, ledger: map<string, Tally>, findings: seq<string>, now: int): seq<Item> {
    if findings == [] then []
    else
      Listed(existing, ledger, findings[..|findings| - 1], now)
      + [Entry(findings[|findings| - 1], existing, Bumped(existing, ledger, findings, now), now)]
  }

  /** One more clear, now. */
  function Resolve(ledger: map<string, Tally>, k: string, now: int): Tally {
    if k in ledger then Tally(ledger[k].resolved + 1, ledger[k].reappearances, now) else Tally(1, 0, now)
  }

  function Resolved(ledger: map<string, Tally>, gone: set<string>, now: int): map<string, Tally> {
    map k | k in ledger.Keys + gone :: if k in gone then Resolve(ledger, k, now) else ledger[k]
  }

  /** Drop what was resolved outside the window, unless it fails now. */
  function Pruned(ledger: map<string, Tally>, current: set<string>, now: int): map<string, Tally> {
    map k | k in ledger && (k in current || ledger[k].lastResolved >= now - RECUR_WINDOW) :: ledger[k]
  }

  function Names(findings: seq<string>): set<string> { set k | k in findings }

  function NextLedger(items: seq<Item>, ledger: map<string, Tally>, findings: seq<string>, now: int)
    : map<string, Tally>
  {
    var existing := ByKey(items);
    var bumped := Bumped(existing, ledger, findings, now);
    Pruned(Resolved(bumped, existing.Keys - Names(findings), now), Names(findings), now)
  }

  /** One entry per current finding; a return is tallied once, when it happens. */
  method Upsert(existing: map<string, Item>, ledger: map<string, Tally>, findings: seq<string>, now: int)
    returns (open: seq<Item>, led: map<string, Tally>)
    ensures open == Listed(existing, ledger, findings, now)
    ensures led == Bumped(existing, ledger, findings, now)
  {
    open, led := [], ledger;
    var i := 0;
    while i < |findings|
      invariant 0 <= i <= |findings|
      invariant led == Bumped(existing, ledger, findings[..i], now)
      invariant open == Listed(existing, ledger, findings[..i], now)
    {
      var k := findings[i];
      assert findings[..i + 1][..i] == findings[..i];
      if k in led && k !in existing && led[k].lastResolved >= now - RECUR_WINDOW {
        led := led[k := led[k].(reappearances := led[k].reappearances + 1)];
      }
      var r := if k in led then led[k].reappearances else 0;
      open := open + [Item(k, if k in existing then existing[k].firstSeen else now, now,
                           if k in existing then existing[k].occurrences + 1 else 1, r, r >= RECUR_THRESHOLD)];
      i := i + 1;
    }
    assert findings[..i] == findings;
  }

  lemma ResolveOneMore(ledger: map<string, Tally>, done: set<string>, k: string, now: int)
    requires k !in done
    ensures var led := Resolved(ledger, done, now);
      Resolved(ledger, done + {k}, now) == led[k := Resolve(led, k, now)]
  {
  }

  lemma ResolveNone(ledger: map<string, Tally>, now: int)
    ensures Resolved(ledger, {}, now) == ledger
  {
  }

  ghost predicate Splits(gone: set<string>, todo: set<string>, done: set<string>) {
    todo + done == gone && todo !! done
  }

  lemma SplitsOneMore(gone: set<string>, todo: set<string>, done: set<string>, k: string)
    requires Splits(gone, todo, done) && k in todo
    ensures k !in done && Splits(gone, todo - {k}, done + {k})
  {
  }

  /** Tally the entries that are gone, in any order. */
  method TallyCleared(ledger: map<string, Tally>, gone: set<string>, now: int) returns (led: map<string, Tally>)
    ensures led == Resolved(ledger, gone, now)
  {
    led := ledger;
    var todo := gone;
    ghost var done: set<string> := {};
    ResolveNone(ledger, now);
    while todo != {}
      invariant Splits(gone, todo, done)
      invariant led == Resolved(ledger, done, now)
      decreases todo
    {
      var k :| k in todo;
      SplitsOneMore(gone, todo, done, k);
      ResolveOneMore(ledger, done, k, now);
      led := led[k := Resolve(led, k, now)];
      todo, done := todo - {k}, done + {k};
    }
    assert done == gone;
  }

  /** The worklist file. */
  class WorklistFile {
    var items: seq<Item>
    var ledger: map<string, Tally>

    constructor ()
      ensures items == [] && ledger == map[]
    {
      items, ledger := [], map[];
    }

    method Existing() returns (existing: map<string, Item>)
      ensures existing == ByKey(items)
    {
      existing := map[];
      var i := 0;
      while i < |items|
        invariant 0 <= i <= |items| && existing == ByKey(items[..i])
      {
        assert items[..i + 1][..i] == items[..i];
        existing := existing[items[i].key := items[i]];
        i := i + 1;
      }
      assert items[..i] == items;
    }

    /** Bring the list up to date with the current findings; write only when asked to. */
    method Sync(findings: seq<string>, now: int, apply: bool) returns (open: seq<Item>, cleared: set<string>)
      modifies this
      ensures open == Listed(ByKey(old(items)), old(ledger), findings, now)
      ensures cleared == ByKey(old(items)).Keys - Names(findings)
      ensures items == if apply then open else old(items)
      ensures ledger == if apply then NextLedger(old(items), old(ledger), findings, now) else old(ledger)
    {
      var existing := Existing();
      var led;
      open, led := Upsert(existing, ledger, findings, now);
      cleared := existing.Keys - Names(findings);
      led := TallyCleared(led, cleared, now);
      led := map k | k in led && (k in findings || led[k].lastResolved >= now - RECUR_WINDOW) :: led[k];
      if apply {
        items, ledger := open, led;
      }
    }
  }

  // ----- one finding through a run

  /** What the file holds about one check. */
  datatype View = View(item: Option<Item>, tally: Option<Tally>)

  function At<T>(m: map<string, T>, k: string): Option<T> { if k in m then Some(m[k]) else None }

  function ViewOf(items: seq<Item>, ledger: map<string, Tally>, k: string): View {
    View(At(ByKey(items), k), At(ledger, k))
  }

  function TallyFailing(v: View, now: int): Option<Tally> {
    if v.tally.Some? && v.item.None? && v.tally.value.lastResolved >= now - RECUR_WINDOW
    then Some(Bump(v.tally.value)) else v.tally
  }

  function TallyPassing(v: View, now: int): Option<Tally> {
    if v.item.Some? then
      Some(if v.tally.Some? then Tally(v.tally.value.resolved + 1, v.tally.value.reappearances, now)
           else Tally(1, 0, now))
    else if v.tally.Some? && v.tally.value.lastResolved >= now - RECUR_WINDOW then v.tally
    else None
  }

  function Step(v: View, k: string, failing: bool, now: int): View {
    if failing then
      var t := TallyFailing(v, now);
      var r := if t.Some? then t.value.reappearances else 0;
      View(Some(Item(k, if v.item.Some? then v.item.value.firstSeen else now, now,
                     if v.item.Some? then v.item.value.occurrences + 1 else 1, r, r >= RECUR_THRESHOLD)), t)
    else View(None, TallyPassing(v, now))
  }

  lemma {:induction false} BumpedAt(existing: map<string, Item>, ledger: map<string, Tally>, findings: seq<string>,
                                    now: int, k: string)
    requires Distinct(findings)
    ensures At(Bumped(existing, ledger, findings, now), k)
         == if k in findings then TallyFailing(View(At(existing, k), At(ledger, k)), now) else At(ledger, k)
  {
    if findings != [] {
      var front := findings[..|findings| - 1];
      assert findings == front + [findings[|findings| - 1]];
      BumpedAt(existing, ledger, front, now, k);
    }
  }

  lemma ByKeySnoc(items: seq<Item>, e: Item, k: string)
    ensures At(ByKey(items + [e]), k) == if k == e.key then Some(e) else At(ByKey(items), k)
  {
    assert (items + [e])[..|items|] == items;
  }

  lemma {:induction false} ListedAt(existing: map<string, Item>, ledger: map<string, Tally>, findings: seq<string>,
                                    now: int, k: string)
    requires Distinct(findings)
    ensures At(ByKey(Listed(existing, ledger, findings, now)), k)
         == if k in findings then Step(View(At(existing, k), At(ledger, k)), k, true, now).item else None
  {
    if findings != [] {
      var front, last := findings[..|findings| - 1], findings[|findings| - 1];
      assert findings == front + [last];
      ListedAt(existing, ledger, front, now, k);
      var entry := Entry(last, existing, Bumped(existing, ledger, findings, now), now);
      ByKeySnoc(Listed(existing, ledger, front, now), entry, k);
      if k == last {
        EntryAt(existing, ledger, findings, now, k);
      }
    }
  }

  lemma EntryAt(existing: map<string, Item>, ledger: map<string, Tally>, findings: seq<string>, now: int, k: string)
    requires Distinct(findings) && k in findings
    ensures Some(Entry(k, existing, Bumped(existing, ledger, findings, now), now))
         == Step(View(At(existing, k), At(ledger, k)), k, true, now).item
  {
    BumpedAt(existing, ledger, findings, now, k);
  }

  /** A check that comes back is tallied once for each time the run names it: exactly once
      only when it is named once. */
  lemma {:induction false} EachMentionIsTallied(existing: map<string, Item>, ledger: map<string, Tally>,
                                                findings: seq<string>, now: int, k: string)
    requires ComesBack(k, existing, ledger, now)
    ensures At(Bumped(existing, ledger, findings, now), k)
         == Some(ledger[k].(reappearances := ledger[k].reappearances + multiset(findings)[k]))
  {
    if findings != [] {
      var front, last := findings[..|findings| - 1], findings[|findings| - 1];
      assert findings == front + [last];
      EachMentionIsTallied(existing, ledger, front, now, k);
    }
  }

  /** A run over distinct findings changes what is kept about each check by itself. */
  lemma SyncIsStep(items: seq<Item>, ledger: map<string, Tally>, findings: seq<string>, now: int, k: string)
    requires Distinct(findings)
    ensures ViewOf(Listed(ByKey(items), ledger, findings, now), NextLedger(items, ledger, findings, now), k)
         == Step(ViewOf(items, ledger, k), k, k in findings, now)
  {
    ListedAt(ByKey(items), ledger, findings, now, k);
    BumpedAt(ByKey(items), ledger, findings, now, k);
  }

  // ----- whole histories

  datatype Run = Run(findings: seq<string>, now: int)

  /** The file after runs applied from an empty start, oldest first. */
  function Items(runs: seq<Run>): seq<Item>
    decreases |runs|, 0
  {
    if runs == [] then []
    else
      var front, r := runs[..|runs| - 1], runs[|runs| - 1];
      Listed(ByKey(Items(front)), Ledger(front), r.findings, r.now)
  }

  function Ledger(runs: seq<Run>): map<string, Tally>
    decreases |runs|, 0
  {
    if runs == [] then map[]
    else
      var front, r := runs[..|runs| - 1], runs[|runs| - 1];
      NextLedger(Items(front), Ledger(front), r.findings, r.now)
  }

  ghost predicate Proper(runs: seq<Run>) { forall i :: 0 <= i < |runs| ==> Distinct(runs[i].findings) }

  predicate Fails(runs: seq<Run>, i: int, k: string) { 0 <= i < |runs| && k in runs[i].findings }

  /** The number of runs, up to and including the last, in which `k` has failed without a break. */
  function Streak(runs: seq<Run>, k: string): (n: nat)
    ensures n <= |runs|
  {
    if runs == [] || !Fails(runs, |runs| - 1, k) then 0 else 1 + Streak(runs[..|runs| - 1], k)
  }

  /** How often `k` failed in one run and passed in the next. */
  function Clears(runs: seq<Run>, k: string): nat {
    if runs == [] then 0
    else
      var n := |runs| - 1;
      Clears(runs[..n], k) + if !Fails(runs, n, k) && Fails(runs, n - 1, k) then 1 else 0
  }

  /** How often `k` passed in one run and failed in the next, after having been cleared. */
  function Returns(runs: seq<Run>, k: string): nat {
    if runs == [] then 0
    else
      var n := |runs| - 1;
      Returns(runs[..n], k) + if Fails(runs, n, k) && !Fails(runs, n - 1, k) && Clears(runs[..n], k) > 0 then 1 else 0
  }

  function ViewAfter(runs: seq<Run>, k: string): View { ViewOf(Items(runs), Ledger(runs), k) }

  lemma ViewStep(runs: seq<Run>, k: string)
    requires runs != [] && Proper(runs)
    ensures Proper(runs[..|runs| - 1])
    ensures ViewAfter(runs, k)
         == Step(ViewAfter(runs[..|runs| - 1], k), k, Fails(runs, |runs| - 1, k), runs[|runs| - 1].now)
  {
    var front, r := runs[..|runs| - 1], runs[|runs| - 1];
    SyncIsStep(Items(front), Ledger(front), r.findings, r.now, k);
  }

  /** An entry is listed exactly while its check fails; `occurrences` is the length of the
      current streak and `firstSeen` the time of its first run. */
  lemma {:induction false} EntriesMatchStreaks(runs: seq<Run>, k: string)
    requires Proper(runs)
    ensures var item, n := ViewAfter(runs, k).item, Streak(runs, k);
      && (item.Some? <==> n > 0)
      && (n > 0 ==> item.value.key == k && item.value.occurrences == n
                    && item.value.firstSeen == runs[|runs| - n].now && item.value.lastSeen == runs[|runs| - 1].now)
  {
    if runs != [] {
      EntriesMatchStreaks(runs[..|runs| - 1], k);
      ViewStep(runs, k);
    }
  }

  /** When `k` was last cleared. */
  function LastClear(runs: seq<Run>, k: string): Option<int> {
    if runs == [] then None
    else
      var n := |runs| - 1;
      if !Fails(runs, n, k) && Fails(runs, n - 1, k) then Some(runs[n].now) else LastClear(runs[..n], k)
  }

  /** What the ledger may say after a history: it may have forgotten, but it never invents. */
  ghost predicate TallyAgrees(tally: Option<Tally>, failing: bool, clears: nat, returned: nat, last: Option<int>) {
    tally.Some? ==>
      && Some(tally.value.lastResolved) == last
      && tally.value.resolved <= clears && tally.value.reappearances <= returned
      && tally.value.reappearances + (if failing then 0 else 1) <= tally.value.resolved
  }

  lemma StepAgrees(v: View, k: string, failing: bool, now: int, before: bool, clears: nat, returned: nat,
                   last: Option<int>)
    requires TallyAgrees(v.tally, before, clears, returned, last) && (v.item.Some? <==> before)
    ensures TallyAgrees(Step(v, k, failing, now).tally, failing,
                        clears + if !failing && before then 1 else 0,
                        returned + if failing && !before && clears > 0 then 1 else 0,
                        if !failing && before then Some(now) else last)
  {
  }

  /** `reappearances` never exceeds `resolved`, and is below it while the check passes; neither
      exceeds what the history holds. */
  lemma {:induction false} TalliesMatchHistory(runs: seq<Run>, k: string)
    requires Proper(runs)
    ensures TallyAgrees(ViewAfter(runs, k).tally, Fails(runs, |runs| - 1, k),
                        Clears(runs, k), Returns(runs, k), LastClear(runs, k))
    ensures Clears(runs, k) > 0 <==> LastClear(runs, k).Some?
  {
    if runs != [] {
      var front := runs[..|runs| - 1];
      TalliesMatchHistory(front, k);
      EntriesMatchStreaks(front, k);
      ViewStep(runs, k);
      StepAgrees(ViewAfter(front, k), k, Fails(runs, |front|, k), runs[|front|].now, Fails(front, |front| - 1, k),
                 Clears(front, k), Returns(front, k), LastClear(front, k));
    }
  }

  /** While a check keeps failing, its tally does not move: one return is counted once. */
  lemma OngoingFailureIsCountedOnce(runs: seq<Run>, k: string)
    requires Proper(runs) && Streak(runs, k) >= 2
    ensures ViewAfter(runs, k).tally == ViewAfter(runs[..|runs| - 1], k).tally
  {
    EntriesMatchStreaks(runs[..|runs| - 1], k);
    ViewStep(runs, k);
  }

  /** No run finds `k` cleared and its last clear outside the window. */
  ghost predicate WithinWindow(runs: seq<Run>, k: string) {
    runs == []
    || (var n := |runs| - 1; var last := LastClear(runs[..n], k);
        && WithinWindow(runs[..n], k)
        && (last.Some? && !Fails(runs, n - 1, k) ==> last.value >= runs[n].now - RECUR_WINDOW))
  }

  /** The tally that a history calls for when nothing is ever forgotten. */
  function FullTally(clears: nat, returned: nat, last: Option<int>): Option<Tally> {
    if last.None? then None else Some(Tally(clears, returned, last.value))
  }

  lemma StepIsHistory(v: View, k: string, failing: bool, now: int, before: bool, clears: nat, returned: nat,
                      last: Option<int>)
    requires v.tally == FullTally(clears, returned, last) && (v.item.Some? <==> before) && (clears > 0 <==> last.Some?)
    requires clears == 0 ==> returned == 0
    requires last.Some? && !before ==> last.value >= now - RECUR_WINDOW
    ensures Step(v, k, failing, now).tally
         == FullTally(clears + if !failing && before then 1 else 0,
                      returned + if failing && !before && clears > 0 then 1 else 0,
                      if !failing && before then Some(now) else last)
  {
  }

  /** As long as nothing leaves the window, the ledger is the history. */
  lemma {:induction false} LedgerIsHistoryWithinWindow(runs: seq<Run>, k: string)
    requires Proper(runs) && WithinWindow(runs, k)
    ensures ViewAfter(runs, k).tally == FullTally(Clears(runs, k), Returns(runs, k), LastClear(runs, k))
    ensures Clears(runs, k) > 0 <==> LastClear(runs, k).Some?
  {
    if runs != [] {
      var front := runs[..|runs| - 1];
      LedgerIsHistoryWithinWindow(front, k);
      EntriesMatchStreaks(front, k);
      ViewStep(runs, k);
      NoReturnWithoutClear(front, k);
      StepIsHistory(ViewAfter(front, k), k, Fails(runs, |front|, k), runs[|front|].now, Fails(front, |front| - 1, k),
                    Clears(front, k), Returns(front, k), LastClear(front, k));
    }
  }

  lemma {:induction false} NoReturnWithoutClear(runs: seq<Run>, k: string)
    ensures Clears(runs, k) == 0 ==> Returns(runs, k) == 0
  {
    if runs != [] {
      NoReturnWithoutClear(runs[..|runs| - 1], k);
    }
  }

  lemma EscalationIs(runs: seq<Run>, k: string)
    requires Proper(runs) && Fails(runs, |runs| - 1, k)
    ensures var v := ViewAfter(runs, k);
      v.item.Some? && (v.item.value.recurring <==> v.tally.Some? && v.tally.value.reappearances >= RECUR_THRESHOLD)
  {
    ViewStep(runs, k);
  }

  /** What three weeks decide: a check that comes back is tallied if and only if it was cleared within
      them, and the tally of a check that goes on passing is forgotten if and only if it was not. */
  lemma ThreeWeeksDecide(runs: seq<Run>, k: string)
    requires runs != [] && Proper(runs) && !Fails(runs, |runs| - 2, k)
    requires ViewAfter(runs[..|runs| - 1], k).tally.Some?
    ensures var t, now := ViewAfter(runs[..|runs| - 1], k).tally.value, runs[|runs| - 1].now;
      var recent := now - 21 * 24 * 60 * 60 <= t.lastResolved;
      ViewAfter(runs, k).tally ==
      if Fails(runs, |runs| - 1, k) then Some(t.(reappearances := t.reappearances + if recent then 1 else 0))
      else if recent then Some(t) else None
  {
    EntriesMatchStreaks(runs[..|runs| - 1], k);
    ViewStep(runs, k);
  }

  /** An entry is marked recurring only after that many clears and that many returns; within
      the window, exactly when the check has come back that often. */
  lemma RecurringMeansReturned(runs: seq<Run>, k: string)
    requires Proper(runs) && Fails(runs, |runs| - 1, k)
    ensures ViewAfter(runs, k).item.Some?
    ensures ViewAfter(runs, k).item.value.recurring ==> Clears(runs, k) >= 2 && Returns(runs, k) >= 2
    ensures WithinWindow(runs, k) ==> (ViewAfter(runs, k).item.value.recurring <==> Returns(runs, k) >= 2)
  {
    EntriesMatchStreaks(runs, k);
    EscalationIs(runs, k);
    TalliesMatchHistory(runs, k);
    NoReturnWithoutClear(runs, k);
    if WithinWindow(runs, k) {
      LedgerIsHistoryWithinWindow(runs, k);
    }
  }

  /** A run that names a check twice: cleared once, it comes back once, yet two returns are tallied
      and the entry is marked recurring. */
  lemma DoubledFindingIsTalliedTwice(k: string)
    ensures var runs := [Run([k], 0), Run([], 1), Run([k, k], 2)];
      && Clears(runs, k) == 1 && Returns(runs, k) == 1
      && ViewAfter(runs, k).tally == Some(Tally(1, 2, 1))
  {
    var one, two, all := [Run([k], 0)], [Run([k], 0), Run([], 1)], [Run([k], 0), Run([], 1), Run([k, k], 2)];
    assert one[..0] == [] && two[..1] == one && all[..2] == two;
    FirstClear(two, k);
    DoubledReturn(Items(two), Ledger(two), k, 2);
    assert Clears([], k) == Clears(one, k) == 0 && Returns([], k) == Returns(one, k) == Returns(two, k) == 0;
    assert Fails(all, 2, k) && !Fails(all, 1, k);
  }

  lemma FirstClear(runs: seq<Run>, k: string)
    requires runs == [Run([k], 0), Run([], 1)]
    ensures ViewAfter(runs, k) == View(None, Some(Tally(1, 0, 1))) && Clears(runs, k) == 1
  {
    var one := [Run([k], 0)];
    assert runs[..1] == one && one[..0] == [];
    assert Fails(one, 0, k) && Fails(runs, 0, k) && !Fails(runs, 1, k);
    ViewStep(one, k);
    ViewStep(runs, k);
    assert ViewAfter([], k) == View(None, None);
    assert Clears([], k) == Clears(one, k) == 0;
  }

  lemma DoubledReturn(items: seq<Item>, ledger: map<string, Tally>, k: string, now: int)
    requires k !in ByKey(items) && k in ledger && ledger[k].lastResolved >= now - RECUR_WINDOW
    ensures At(NextLedger(items, ledger, [k, k], now), k)
         == Some(ledger[k].(reappearances := ledger[k].reappearances + 2))
  {
    EachMentionIsTallied(ByKey(items), ledger, [k, k], now, k);
    assert multiset([k, k])[k] == 2;
  }
}
