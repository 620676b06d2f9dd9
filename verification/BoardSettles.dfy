/** What an applied run of the board archive keeps, and when a second run changes nothing. */
module BoardSettles {
  import opened Seqs
  import opened BoardArchive

  // ----- conservation

  function IsTextLine(): string -> bool { l => IsText(l) }

  /** The lines that are not blank. */
  function Visible(ls: seq<string>): seq<string> { Filter(ls, IsTextLine()) }

  lemma {:induction false} CollapseKeepsText(ls: seq<string>)
    ensures Visible(Collapse(ls)) == Visible(ls)
  {
    if ls != [] {
      var k := |ls| - 1;
      CollapseKeepsText(ls[..k]);
      FilterSnoc(Collapse(ls[..k]), ls[k], IsTextLine());
      assert Collapse(ls[..k]) + [] == Collapse(ls[..k]);
    }
  }

  /** The visible lines, whatever their order. */
  function Bag(ls: seq<string>): multiset<string> { multiset(Visible(ls)) }

  lemma BagAppend(a: seq<string>, b: seq<string>)
    ensures Bag(a + b) == Bag(a) + Bag(b)
  {
    FilterSplit(a, b, IsTextLine());
  }

  /** Moving lines are text, so blank lines do not matter to them. */
  lemma MovedIsVisible(ls: seq<string>, n: nat, m: nat)
    requires m <= |ls|
    ensures Visible(Part(ls, n, m, true)) == Part(ls, n, m, true)
  {
    PartMembers(ls, n, m, true);
    forall l | l in Part(ls, n, m, true) ensures IsText(l) {
      var k :| 0 <= k < m && ls[k] == l && Moves(ls, n, k);
      MovingLine(ls, n, k);
    }
    FilterAll(Part(ls, n, m, true), IsTextLine());
  }

  ghost predicate MakesUp(kept: seq<string>, text: seq<string>, whole: seq<string>) {
    Bag(kept) + Bag(text) == Bag(whole)
  }

  lemma KeepOne(kept: seq<string>, text: seq<string>, whole: seq<string>, x: string)
    requires MakesUp(kept, text, whole)
    ensures MakesUp(kept + [x], text + [], whole + [x])
  {
    BagAppend(kept, [x]);
    BagAppend(whole, [x]);
    assert text + [] == text;
  }

  lemma MoveOne(kept: seq<string>, text: seq<string>, whole: seq<string>, x: string)
    requires MakesUp(kept, text, whole)
    ensures MakesUp(kept + [], text + [x], whole + [x])
  {
    BagAppend(text, [x]);
    BagAppend(whole, [x]);
    assert kept + [] == kept;
  }

  lemma {:induction false} PartsMakeUp(ls: seq<string>, n: nat, m: nat)
    requires m <= |ls|
    ensures MakesUp(Part(ls, n, m, false), Part(ls, n, m, true), ls[..m])
  {
    if m > 0 {
      PartsMakeUp(ls, n, m - 1);
      assert ls[..m] == ls[..m - 1] + [ls[m - 1]];
      if Moves(ls, n, m - 1) {
        MoveOne(Part(ls, n, m - 1, false), Part(ls, n, m - 1, true), ls[..m - 1], ls[m - 1]);
      } else {
        KeepOne(Part(ls, n, m - 1, false), Part(ls, n, m - 1, true), ls[..m - 1], ls[m - 1]);
      }
    } else {
      assert ls[..m] == [] && Bag([]) == multiset{};
    }
  }

  lemma {:induction false} PartPrefix(ls: seq<string>, n: nat, m: nat, m': nat)
    requires m <= m' <= |ls|
    ensures Part(ls, n, m, true) <= Part(ls, n, m', true)
    ensures |Part(ls, n, m, true)| == |Part(ls, n, m', true)| <==> NoneIn(ls, n, m, m')
  {
    if m < m' {
      PartPrefix(ls, n, m, m' - 1);
      assert NoneIn(ls, n, m, m') <==> NoneIn(ls, n, m, m' - 1) && !Moves(ls, n, m' - 1);
    }
  }

  /** Nothing moves from line `m` up to line `m'`. */
  ghost predicate NoneIn(ls: seq<string>, n: nat, m: nat, m': nat)
    requires m' <= |ls|
  {
    forall k :: m <= k < m' ==> !Moves(ls, n, k)
  }

  lemma SumUp(kept: multiset<string>, text: multiset<string>, rest: multiset<string>, early: multiset<string>,
              front: multiset<string>, whole: multiset<string>)
    requires kept + early == front && front + rest == whole
    ensures (kept + text + rest) + early == whole + text
  {
  }

  lemma BagOfThree(a: seq<string>, b: seq<string>, c: seq<string>)
    ensures Bag(a + b + c) == Bag(a) + Bag(b) + Bag(c)
  {
    BagAppend(a + b, c);
    BagAppend(a, b);
  }

  lemma BagCut(ls: seq<string>, at: nat)
    requires at <= |ls|
    ensures Bag(ls[..at]) + Bag(ls[at..]) == Bag(ls)
  {
    BagAppend(ls[..at], ls[at..]);
    assert ls[..at] + ls[at..] == ls;
  }

  lemma BagMoved(ls: seq<string>, n: nat, m: nat)
    requires m <= |ls|
    ensures Bag(Part(ls, n, m, true)) == multiset(Part(ls, n, m, true))
  {
    MovedIsVisible(ls, n, m);
  }

  lemma BagCollapse(ls: seq<string>)
    ensures Bag(Collapse(ls)) == Bag(ls)
  {
    CollapseKeepsText(ls);
  }

  /** What a rewrite adds to the visible lines: the moving lines at or after the insertion. */
  lemma RewriteBalance(ls: seq<string>, n: nat, at: nat)
    requires at <= |ls|
    ensures Bag(Collapse(Rewritten(ls, n, at))) + multiset(Part(ls, n, at, true))
         == Bag(ls) + multiset(Part(ls, n, |ls|, true))
  {
    var kept, text, early := Part(ls, n, at, false), Part(ls, n, |ls|, true), Part(ls, n, at, true);
    BagCollapse(Rewritten(ls, n, at));
    BagOfThree(kept, text, ls[at..]);
    PartsMakeUp(ls, n, at);
    BagCut(ls, at);
    SumUp(Bag(kept), Bag(text), Bag(ls[at..]), Bag(early), Bag(ls[..at]), Bag(ls));
    BagMoved(ls, n, |ls|);
    BagMoved(ls, n, at);
  }

  predicate HasSections(ls: seq<string>) { Find(ls, IsHeader, 0).Some? && Find(ls, IsMarker, 0).Some? }

  function HeaderOf(ls: seq<string>): (n: nat)
    requires HasSections(ls)
    ensures HeaderAt(ls, n)
  {
    Find(ls, IsHeader, 0).value
  }

  function MarkerOf(ls: seq<string>): (s: nat)
    requires HasSections(ls)
    ensures s < |ls| && IsMarker(ls[s]) && s != HeaderOf(ls)
  {
    var s := Find(ls, IsMarker, 0).value;
    assert ls[s][0] == '<' && ls[HeaderOf(ls)][0] == '#';
    s
  }

  predicate InOrder(ls: seq<string>)
    requires HasSections(ls)
  {
    HeaderOf(ls) < MarkerOf(ls)
  }

  function Insertion(ls: seq<string>): nat
    requires HasSections(ls)
  {
    InsertAt(ls, HeaderOf(ls), MarkerOf(ls))
  }

  /** A moving line has a checked line at or above it, below any line that stays. */
  lemma {:induction false} CheckedAbove(ls: seq<string>, n: nat, s: nat, k: nat) returns (c: nat)
    requires s <= k < |ls| && Moves(ls, n, k) && (s == 0 || !Moves(ls, n, s - 1))
    ensures s <= c <= k && c < n && Checked(ls[c])
  {
    if Checked(ls[k]) {
      c := k;
    } else {
      c := CheckedAbove(ls, n, s, k - 1);
    }
  }

  /** From line `s` on, something moves if and only if some entry there is checked. */
  lemma NoneFrom(ls: seq<string>, n: nat, s: nat)
    requires s <= |ls| && n <= |ls| && (s == 0 || !Moves(ls, n, s - 1))
    ensures NoneIn(ls, n, s, |ls|) <==> forall k :: s <= k < n ==> !Checked(ls[k])
  {
    if k :| s <= k < |ls| && Moves(ls, n, k) {
      var c := CheckedAbove(ls, n, s, k);
    }
    forall k | s <= k < n && Checked(ls[k]) ensures Moves(ls, n, k) {
    }
  }

  /** No checked entry lies between the marker and the header. */
  predicate NoneBetween(ls: seq<string>)
    requires HasSections(ls)
  {
    forall k :: MarkerOf(ls) < k < HeaderOf(ls) ==> !Checked(ls[k])
  }

  lemma MarkerStays(ls: seq<string>, n: nat, s: nat)
    requires s < |ls| && IsMarker(ls[s])
    ensures !Moves(ls, n, s)
  {
    if Moves(ls, n, s) {
      MovingLine(ls, n, s);
    }
  }

  lemma NoneBelowHeader(ls: seq<string>, n: nat, at: nat)
    requires n <= at <= |ls|
    ensures NoneIn(ls, n, at, |ls|)
  {
  }

  lemma LateMoves(ls: seq<string>)
    requires HasSections(ls)
    ensures NoneIn(ls, HeaderOf(ls), Insertion(ls), |ls|) <==> InOrder(ls) || NoneBetween(ls)
  {
    var n, s, at := HeaderOf(ls), MarkerOf(ls), Insertion(ls);
    if n < s {
      NoneBelowHeader(ls, n, at);
    } else {
      MarkerStays(ls, n, s);
      NoneFrom(ls, n, s + 1);
      assert NoneIn(ls, n, s, |ls|) <==> NoneIn(ls, n, s + 1, |ls|);
    }
  }

  lemma SameBag<T>(a: seq<T>, b: seq<T>)
    requires a <= b
    ensures multiset(a) == multiset(b) <==> |a| == |b|
  {
    assert |multiset(a)| == |a| && |multiset(b)| == |b|;
    assert |a| == |b| ==> a == b;
  }

  lemma Cancel(after: multiset<string>, early: multiset<string>, whole: multiset<string>, text: multiset<string>)
    requires after + early == whole + text
    ensures after == whole <==> early == text
  {
    if after == whole {
      assert forall l :: after[l] + early[l] == (after + early)[l] == (whole + text)[l] == whole[l] + text[l];
      assert forall l :: early[l] == text[l];
    }
    if early == text {
      assert forall l :: after[l] + early[l] == (after + early)[l] == (whole + text)[l] == whole[l] + text[l];
      assert forall l :: after[l] == whole[l];
    }
  }

  /** An applied run keeps every visible line exactly once if and only if the Resolved header
      comes before the marker, or no checked entry lies between the marker and the header. */
  lemma ConservationIsExact(ls: seq<string>)
    requires HasSections(ls)
    ensures Bag(After(ls)) == Bag(ls) <==> InOrder(ls) || NoneBetween(ls)
  {
    var n, at := HeaderOf(ls), Insertion(ls);
    var all, early := Part(ls, n, |ls|, true), Part(ls, n, at, true);
    LateMoves(ls);
    PartPrefix(ls, n, at, |ls|);
    SameBag(early, all);
    if all != [] {
      RewriteBalance(ls, n, at);
      Cancel(Bag(After(ls)), multiset(early), Bag(ls), multiset(all));
    }
  }

  /** Kept lines stay in order, and the moved lines are one run of their own. */
  lemma MoveKeepsOrder(ls: seq<string>)
    requires HasSections(ls) && InOrder(ls)
    ensures Visible(After(ls)) == Visible(Part(ls, HeaderOf(ls), Insertion(ls), false))
                                  + Part(ls, HeaderOf(ls), |ls|, true) + Visible(ls[Insertion(ls)..])
    ensures Part(ls, HeaderOf(ls), |ls|, false) == Part(ls, HeaderOf(ls), Insertion(ls), false) + ls[Insertion(ls)..]
  {
    KeptCut(ls, HeaderOf(ls), Insertion(ls));
    VisibleAfter(ls, HeaderOf(ls), Insertion(ls));
  }

  lemma KeptCut(ls: seq<string>, n: nat, at: nat)
    requires n <= at <= |ls|
    ensures Part(ls, n, |ls|, false) == Part(ls, n, at, false) + ls[at..]
  {
    PartBeyond(ls, n, at);
    PartBeyond(ls, n, |ls|);
    SplitBeyond(ls, n, at, Part(ls, n, n, false));
  }

  lemma VisibleAfter(ls: seq<string>, n: nat, at: nat)
    requires HasSections(ls) && n == HeaderOf(ls) && at == Insertion(ls)
    ensures Visible(After(ls)) == Visible(Part(ls, n, at, false)) + Part(ls, n, |ls|, true) + Visible(ls[at..])
  {
    VisibleRewritten(ls, n, at);
    if Part(ls, n, |ls|, true) == [] {
      NoneMoves(ls, n, at);
      assert ls[..at] + [] + ls[at..] == ls;
    } else {
      CollapseKeepsText(Rewritten(ls, n, at));
    }
  }

  lemma SplitBeyond<T>(s: seq<T>, n: nat, at: nat, kept: seq<T>)
    requires n <= at <= |s|
    ensures kept + s[n..] == kept + s[n..at] + s[at..]
    ensures s[n..] == s[n..|s|]
  {
    assert s[n..at] + s[at..] == s[n..];
  }

  lemma VisibleRewritten(ls: seq<string>, n: nat, at: nat)
    requires at <= |ls|
    ensures Visible(Rewritten(ls, n, at))
         == Visible(Part(ls, n, at, false)) + Part(ls, n, |ls|, true) + Visible(ls[at..])
  {
    var kept, text := Part(ls, n, at, false), Part(ls, n, |ls|, true);
    FilterSplit(kept + text, ls[at..], IsTextLine());
    FilterSplit(kept, text, IsTextLine());
    MovedIsVisible(ls, n, |ls|);
  }

  lemma {:induction false} NoneMoves(ls: seq<string>, n: nat, m: nat)
    requires m <= |ls| && Part(ls, n, |ls|, true) == []
    ensures Part(ls, n, m, false) == ls[..m]
  {
    if m > 0 {
      NoneMoves(ls, n, m - 1);
      PartPrefix(ls, n, 0, |ls|);
      assert !Moves(ls, n, m - 1);
      assert ls[..m] == ls[..m - 1] + [ls[m - 1]];
    }
  }

  /** No two blank lines are adjacent after a collapse. */
  lemma {:induction false} NoAdjacentBlanks(ls: seq<string>)
    ensures forall k :: 0 <= k < |Collapse(ls)| - 1 ==> !(IsBlank(Collapse(ls)[k]) && IsBlank(Collapse(ls)[k + 1]))
    ensures ls != [] ==> Collapse(ls) != [] && (IsBlank(Collapse(ls)[|Collapse(ls)| - 1]) <==> IsBlank(ls[|ls| - 1]))
  {
    if ls != [] {
      NoAdjacentBlanks(ls[..|ls| - 1]);
    }
  }

  ghost predicate Spaced(ls: seq<string>) {
    forall k :: 0 <= k < |ls| - 1 ==> !(IsBlank(ls[k]) && IsBlank(ls[k + 1]))
  }

  /** A run that moves something leaves no two blank lines adjacent; one that moves nothing
      leaves the spacing alone. */
  lemma SpacingAfterARun(ls: seq<string>)
    requires HasSections(ls)
    ensures Spaced(After(ls)) <==> Spaced(ls) || Moved(ls) != Some([])
  {
    EntriesAndLines(ls, HeaderOf(ls));
    NoAdjacentBlanks(Rewritten(ls, HeaderOf(ls), Insertion(ls)));
  }

  // ----- a second run

  /** No checked line above the first header. */
  predicate Settled(ls: seq<string>) {
    ls == [] || IsHeader(ls[0]) || (!Checked(ls[0]) && Settled(ls[1..]))
  }

  lemma {:induction false} SettledFrom(ls: seq<string>, i: nat)
    requires i <= |ls|
    ensures var at := Find(ls, IsHeader, i);
      Settled(ls[i..]) <==> forall k :: i <= k < (if at.Some? then at.value else |ls|) ==> !Checked(ls[k])
    decreases |ls| - i
  {
    if i < |ls| {
      assert ls[i..][1..] == ls[i + 1..];
      SettledFrom(ls, i + 1);
      assert IsHeader(ls[i]) ==> !Checked(ls[i]) by {
        if IsHeader(ls[i]) {
          assert ls[i][0] == '#';
        }
      }
    }
  }

  /** A run has nothing to move exactly on a settled board. */
  lemma SettledMovesNothing(ls: seq<string>)
    requires HasSections(ls)
    ensures Moved(ls) == Some([]) <==> Settled(ls)
    ensures Part(ls, HeaderOf(ls), |ls|, true) == [] <==> Settled(ls)
  {
    var n := HeaderOf(ls);
    EntriesAndLines(ls, n);
    SettledFrom(ls, 0);
    assert ls[0..] == ls;
    PartPrefix(ls, n, 0, |ls|);
    NoneFrom(ls, n, 0);
  }

  lemma EntriesAndLines(ls: seq<string>, n: nat)
    requires HeaderAt(ls, n)
    ensures Filter(Entries(ls, 0), Due(n)) == [] <==> Part(ls, n, |ls|, true) == []
  {
    MovedText(ls, n, 0);
    FlatEmpty(Entries(ls, 0), n);
  }

  lemma {:induction false} SettledVisible(ls: seq<string>)
    ensures Settled(Visible(ls)) <==> Settled(ls)
  {
    if ls != [] {
      var l, rest := ls[0], ls[1..];
      SettledVisible(rest);
      FilterSplit([l], rest, IsTextLine());
      assert [l] + rest == ls && [l][..0] == [];
      FilterSnoc([], l, IsTextLine());
      assert [] + [l] == [l];
      if IsText(l) {
        assert Visible(ls) == [l] + Visible(rest) && ([l] + Visible(rest))[1..] == Visible(rest);
      } else {
        assert Visible(ls) == Visible(rest);
        BlankIsPlain(l);
      }
    }
  }

  lemma BlankIsPlain(l: string)
    ensures IsHeader(l) || IsMarker(l) || Checked(l) ==> IsText(l)
  {
    if IsHeader(l) || IsMarker(l) || Checked(l) {
      assert l[0] in {'#', '<', '-'} && !IsSpace(l[0]);
    }
  }

  lemma {:induction false} SettledPast(a: seq<string>, b: seq<string>)
    requires forall l :: l in a ==> !IsHeader(l) && !Checked(l)
    ensures Settled(a + b) <==> Settled(b)
  {
    if a == [] {
      assert a + b == b;
    } else {
      assert (a + b)[1..] == a[1..] + b && a[0] in a;
      SettledPast(a[1..], b);
    }
  }

  lemma {:induction false} FirstMovedIsChecked(ls: seq<string>, n: nat, m: nat)
    requires m <= |ls| && Part(ls, n, m, true) != []
    ensures Checked(Part(ls, n, m, true)[0])
  {
    if Part(ls, n, m - 1, true) != [] {
      FirstMovedIsChecked(ls, n, m - 1);
    } else {
      PartPrefix(ls, n, 0, m - 1);
    }
  }

  /** What stays above the header is neither checked nor a header. */
  lemma StaysUnchecked(ls: seq<string>, m: nat)
    requires HasSections(ls) && m <= HeaderOf(ls)
    ensures forall l :: l in Part(ls, HeaderOf(ls), m, false) ==> !IsHeader(l) && !Checked(l)
  {
    PartMembers(ls, HeaderOf(ls), m, false);
  }

  lemma RewrittenSettles(ls: seq<string>)
    requires HasSections(ls) && Part(ls, HeaderOf(ls), |ls|, true) != []
    ensures Settled(Rewritten(ls, HeaderOf(ls), Insertion(ls))) <==> InOrder(ls)
  {
    if InOrder(ls) {
      InOrderSettles(ls, HeaderOf(ls), Insertion(ls));
    } else {
      OutOfOrderDoesNot(ls, HeaderOf(ls), Insertion(ls));
    }
  }

  lemma InOrderSettles(ls: seq<string>, n: nat, at: nat)
    requires HasSections(ls) && n == HeaderOf(ls) && n < at <= |ls|
    ensures Settled(Rewritten(ls, n, at))
  {
    var kept, more := Part(ls, n, n, false), Part(ls, n, |ls|, true) + ls[at..];
    StaysUnchecked(ls, n);
    PartBeyond(ls, n, at);
    Associates(Part(ls, n, at, false), Part(ls, n, |ls|, true), ls[at..]);
    Associates(kept, ls[n..at], more);
    assert (ls[n..at] + more)[0] == ls[n];
    SettledPast(kept, ls[n..at] + more);
  }

  lemma OutOfOrderDoesNot(ls: seq<string>, n: nat, at: nat)
    requires HasSections(ls) && n == HeaderOf(ls) && at <= n && Part(ls, n, |ls|, true) != []
    ensures !Settled(Rewritten(ls, n, at))
  {
    var kept, text := Part(ls, n, at, false), Part(ls, n, |ls|, true);
    StaysUnchecked(ls, at);
    FirstMovedIsChecked(ls, n, |ls|);
    Associates(kept, text, ls[at..]);
    assert (text + ls[at..])[0] == text[0];
    CheckedIsNoHeader(text[0]);
    SettledPast(kept, text + ls[at..]);
  }

  lemma CheckedIsNoHeader(l: string)
    ensures Checked(l) ==> !IsHeader(l)
  {
    if Checked(l) {
      assert l[0] == '-';
    }
  }

  lemma VisibleSurvives(ls: seq<string>, k: nat)
    requires HasSections(ls) && k < |ls| && !Moves(ls, HeaderOf(ls), k) && IsText(ls[k])
    ensures ls[k] in After(ls)
  {
    var n, at := HeaderOf(ls), Insertion(ls);
    var r := Rewritten(ls, n, at);
    assert ls[k] in r by {
      if k < at {
        PartMembers(ls, n, at, false);
        assert ls[k] in Part(ls, n, at, false);
      } else {
        assert ls[at..][k - at] == ls[k];
      }
    }
    CollapseKeepsText(r);
    FilterMembers(r, IsTextLine());
    FilterMembers(Collapse(r), IsTextLine());
    assert ls[k] in Visible(r);
  }

  lemma SectionStays(ls: seq<string>, k: nat)
    requires HasSections(ls) && k < |ls| && (IsHeader(ls[k]) || IsMarker(ls[k]))
    ensures ls[k] in After(ls)
  {
    BlankIsPlain(ls[k]);
    if Moves(ls, HeaderOf(ls), k) {
      MovingLine(ls, HeaderOf(ls), k);
    } else {
      VisibleSurvives(ls, k);
    }
  }

  lemma SectionsSurvive(ls: seq<string>)
    requires HasSections(ls)
    ensures HasSections(After(ls))
  {
    var n, s := HeaderOf(ls), MarkerOf(ls);
    SectionStays(ls, n);
    SectionStays(ls, s);
  }

  /** A second run is a no-op if and only if the sections were in order or the first run had
      nothing to move; with the marker above the header, entries move again and again. */
  lemma SecondRunIsNoOpExactly(ls: seq<string>)
    requires HasSections(ls)
    ensures Moved(After(ls)) == Some([]) <==> InOrder(ls) || Moved(ls) == Some([])
    ensures Moved(After(ls)) == Some([]) <==> Settled(After(ls))
    ensures Moved(After(ls)) == Some([]) ==> After(After(ls)) == After(ls)
  {
    SectionsSurvive(ls);
    SettledMovesNothing(ls);
    SettledMovesNothing(After(ls));
    if Part(ls, HeaderOf(ls), |ls|, true) != [] {
      var r := Rewritten(ls, HeaderOf(ls), Insertion(ls));
      RewrittenSettles(ls);
      CollapseKeepsText(r);
      SettledVisible(r);
      SettledVisible(Collapse(r));
    }
  }

  /** The failing side: a marker, a checked entry and the header, in this order. The entry's line
      is not conserved, and a second run has it to move again. */
  lemma MarkerFirstRepeats(marker: string, entry: string, header: string)
    requires IsMarker(marker) && Checked(entry) && IsHeader(header)
    ensures var ls := [marker, entry, header];
      && HasSections(ls) && !InOrder(ls)
      && Bag(After(ls)) != Bag(ls) && Moved(After(ls)) != Some([]) && HasSections(After(ls))
  {
    var ls := [marker, entry, header];
    assert marker[0] == '<' && entry[0] == '-' && header[0] == '#';
    FoundAt(ls, IsMarker, 0);
    FoundAt(ls, IsHeader, 2);
    assert !NoneBetween(ls) by {
      assert MarkerOf(ls) < 1 < HeaderOf(ls) && Checked(ls[1]);
    }
    ConservationIsExact(ls);
    SettledMovesNothing(ls);
    assert !Settled(ls) by {
      assert ls[1..] == [entry, header];
    }
    SecondRunIsNoOpExactly(ls);
    SectionsSurvive(ls);
  }

  lemma FoundAt(ls: seq<string>, p: string -> bool, at: nat)
    requires at < |ls| && p(ls[at]) && forall k :: 0 <= k < at ==> !p(ls[k])
    ensures Find(ls, p, 0) == Some(at)
  {
  }

  /** One such board. */
  lemma ABoardThatRepeats()
    ensures var ls := ["<!-- SELF-REVIEW:START -->", "- [a] [x]", "## Resolved"];
      HasSections(ls) && Bag(After(ls)) != Bag(ls) && Moved(After(ls)) != Some([])
  {
    var entry := "- [a] [x]";
    assert CloseBracket(entry, 3) == 4 by {
      assert CloseBracket(entry, 4) == 4;
    }
    assert entry[4..7] == "] [" && Mark(entry) == Some('x');
    MarkerFirstRepeats("<!-- SELF-REVIEW:START -->", entry, "## Resolved");
  }
}
