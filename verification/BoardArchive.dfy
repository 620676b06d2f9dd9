/** Moving the checked entries of the task board into its Resolved section. */
module BoardArchive {
  import opened Seqs

  // ----- lines of the board

  predicate IsSpace(c: char) {
    || '\t' <= c <= '\r' || '\U{1C}' <= c <= ' ' || c in {'\U{85}', '\U{A0}', '\U{1680}'}
    || '\U{2000}' <= c <= '\U{200A}' || c in {'\U{2028}', '\U{2029}', '\U{202F}', '\U{205F}', '\U{3000}'}
  }

  predicate IsBlank(l: string) { forall i :: 0 <= i < |l| ==> IsSpace(l[i]) }
  predicate IsText(l: string) { !IsBlank(l) }
  predicate IsHeader(l: string) { "## Resolved" <= l }
  predicate IsMarker(l: string) { "<!-- SELF-REVIEW:START -->" <= l }

  /** The position of the first `]` from `i` on. */
  function CloseBracket(l: string, i: nat): (k: nat)
    requires i <= |l|
    ensures i <= k <= |l|
    decreases |l| - i
  {
    if i == |l| || l[i] == ']' then i else CloseBracket(l, i + 1)
  }

  /** The mark of a board entry: `c` in `- [label] [c]`. */
  function Mark(l: string): Option<char> {
    if !("- [" <= l) then None
    else
      var k := CloseBracket(l, 3);
      if k + 4 < |l| && l[k..k + 3] == "] [" && l[k + 3] != '\n' && l[k + 4] == ']' then Some(l[k + 3]) else None
  }

  predicate Checked(l: string) { Mark(l) == Some('x') }

  lemma {:induction false} CloseBracketAt(l: string, i: nat, k: nat)
    requires i <= k < |l| && l[k] == ']' && forall j :: i <= j < k ==> l[j] != ']'
    ensures CloseBracket(l, i) == k
    decreases k - i
  {
    if i < k {
      CloseBracketAt(l, i + 1, k);
    }
  }

  /** The form of an entry: a label without a closing bracket, and the mark in brackets of its own. */
  lemma MarkOfEntry(name: string, c: char, rest: string)
    requires (forall j :: 0 <= j < |name| ==> name[j] != ']') && c != '\n'
    ensures Mark("- [" + name + "] [" + [c] + "]" + rest) == Some(c)
    ensures Checked("- [" + name + "] [" + [c] + "]" + rest) <==> c == 'x'
  {
    var l, k := "- [" + name + "] [" + [c] + "]" + rest, 3 + |name|;
    assert forall j :: 0 <= j < |name| ==> l[3 + j] == name[j];
    CloseBracketAt(l, 3, k);
    assert l[k..k + 3] == "] [" && l[k + 3] == c && l[k + 4] == ']';
  }

  /** And no other line is one. */
  lemma OnlyEntriesAreMarked(l: string) returns (name: string, rest: string)
    requires Mark(l).Some?
    ensures l == "- [" + name + "] [" + [Mark(l).value] + "]" + rest
    ensures Mark(l).value != '\n' && forall j :: 0 <= j < |name| ==> name[j] != ']'
  {
    var k := CloseBracket(l, 3);
    BracketMeans(l, 3);
    name, rest := l[3..k], l[k + 5..];
    assert l == l[..3] + name + l[k..k + 3] + [l[k + 3]] + [l[k + 4]] + rest;
  }

  lemma {:induction false} BracketMeans(l: string, i: nat)
    requires i <= |l|
    ensures forall j :: i <= j < CloseBracket(l, i) ==> l[j] != ']'
    decreases |l| - i
  {
    if i < |l| && l[i] != ']' {
      BracketMeans(l, i + 1);
    }
  }

  /** An indented line with text belongs to the entry above it. */
  predicate Continues(l: string) { l != "" && l[0] in {' ', '\t'} && !IsBlank(l) }

  // ----- which lines move

  /** Line `k` moves: above line `n`, and a checked entry or a continuation of a line that moves. */
  predicate Moves(ls: seq<string>, n: nat, k: nat)
    requires k < |ls|
  {
    k < n && (Checked(ls[k]) || (Continues(ls[k]) && k > 0 && Moves(ls, n, k - 1)))
  }

  /** Lines below the checked entry at `c`, down to `k`, are its indented lines of text. */
  predicate BelongsTo(ls: seq<string>, c: nat, k: nat)
    requires c <= k < |ls|
  {
    Checked(ls[c]) && forall j :: c < j <= k ==> ls[j] != "" && ls[j][0] in {' ', '\t'} && IsText(ls[j])
  }

  /** The lines that move: above line `n`, a checked entry with the indented lines of text right
      below it. */
  lemma {:induction false} MovesExactly(ls: seq<string>, n: nat, k: nat)
    requires k < |ls|
    ensures Moves(ls, n, k) <==> k < n && exists c :: 0 <= c <= k && BelongsTo(ls, c, k)
  {
    if k > 0 {
      var above := k - 1;
      MovesExactly(ls, n, above);
      if c :| 0 <= c <= above && BelongsTo(ls, c, above) && Continues(ls[k]) {
        assert BelongsTo(ls, c, k);
      }
      if c :| 0 <= c <= k && BelongsTo(ls, c, k) && c < k {
        assert BelongsTo(ls, c, above);
      }
    }
    assert Checked(ls[k]) ==> BelongsTo(ls, k, k);
  }

  /** The lines among the first `m` that move, or those that do not. */
  function Part(ls: seq<string>, n: nat, m: nat, moving: bool): seq<string>
    requires m <= |ls|
  {
    if m == 0 then []
    else Part(ls, n, m - 1, moving) + if Moves(ls, n, m - 1) == moving then [ls[m - 1]] else []
  }

  lemma {:induction false} PartMembers(ls: seq<string>, n: nat, m: nat, moving: bool)
    requires m <= |ls|
    ensures forall l ::
      l in Part(ls, n, m, moving) <==> exists k :: 0 <= k < m && ls[k] == l && Moves(ls, n, k) == moving
  {
    if m > 0 {
      PartMembers(ls, n, m - 1, moving);
    }
  }

  lemma MovingLine(ls: seq<string>, n: nat, k: nat)
    requires k < |ls| && Moves(ls, n, k)
    ensures IsText(ls[k]) && !IsHeader(ls[k]) && !IsMarker(ls[k])
  {
    if Checked(ls[k]) {
      assert ls[k][0] == '-' && !IsSpace('-');
    } else {
      assert ls[k][0] in {' ', '\t'};
    }
  }

  /** From line `n` on nothing moves. */
  lemma {:induction false} PartBeyond(ls: seq<string>, n: nat, m: nat)
    requires n <= m <= |ls|
    ensures Part(ls, n, m, true) == Part(ls, n, n, true)
    ensures Part(ls, n, m, false) == Part(ls, n, n, false) + ls[n..m]
  {
    if n < m {
      PartBeyond(ls, n, m - 1);
      assert ls[n..m] == ls[n..m - 1] + [ls[m - 1]];
    }
  }

  // ----- entries as blocks

  datatype Entry = Entry(start: nat, text: seq<string>)

  /** The first line from `j` on that does not continue an entry. */
  function RunEnd(ls: seq<string>, j: nat): (e: nat)
    requires j <= |ls|
    ensures j <= e <= |ls|
    ensures forall k :: j <= k < e ==> Continues(ls[k])
    ensures e < |ls| ==> !Continues(ls[e])
    decreases |ls| - j
  {
    if j < |ls| && Continues(ls[j]) then RunEnd(ls, j + 1) else j
  }

  function Entries(ls: seq<string>, i: nat): seq<Entry>
    requires i <= |ls|
    decreases |ls| - i
  {
    if i == |ls| then []
    else if Mark(ls[i]).Some? then
      var e := RunEnd(ls, i + 1);
      [Entry(i, ls[i..e])] + Entries(ls, e)
    else Entries(ls, i + 1)
  }

  lemma {:induction false} RunEndIs(ls: seq<string>, j: nat, e: nat)
    requires j <= e <= |ls| && (forall k :: j <= k < e ==> Continues(ls[k])) && (e < |ls| ==> !Continues(ls[e]))
    ensures RunEnd(ls, j) == e
    decreases e - j
  {
    if j < e {
      RunEndIs(ls, j + 1, e);
    }
  }

  /** Scan for entries; inside an entry, scan for its continuation lines. */
  method BoardEntries(ls: seq<string>) returns (found: seq<Entry>)
    ensures found == Entries(ls, 0)
  {
    found := [];
    var i := 0;
    while i < |ls|
      invariant 0 <= i <= |ls| && Entries(ls, 0) == found + Entries(ls, i)
      decreases |ls| - i
    {
      if Mark(ls[i]).Some? {
        var text, j := [ls[i]], i + 1;
        while j < |ls| && Continues(ls[j])
          invariant i < j <= |ls| && text == ls[i..j]
          invariant forall k :: i < k < j ==> Continues(ls[k])
        {
          text, j := text + [ls[j]], j + 1;
        }
        RunEndIs(ls, i + 1, j);
        Associates(found, [Entry(i, text)], Entries(ls, j));
        found, i := found + [Entry(i, text)], j;
      } else {
        i := i + 1;
      }
    }
  }

  // ----- the entries that move, and the lines that move

  predicate IsDue(e: Entry, n: nat) { e.start < n && e.text != [] && Checked(e.text[0]) }
  function Due(n: nat): Entry -> bool { e => IsDue(e, n) }

  function Flat(es: seq<Entry>): seq<string> {
    if es == [] then [] else Flat(es[..|es| - 1]) + es[|es| - 1].text
  }

  lemma {:induction false} FlatAppend(a: seq<Entry>, b: seq<Entry>)
    ensures Flat(a + b) == Flat(a) + Flat(b)
  {
    if b == [] {
      assert a + b == a;
    } else {
      var b', e := b[..|b| - 1], b[|b| - 1];
      FlatAppend(a, b');
      assert (a + b)[..|a + b| - 1] == a + b' && (a + b)[|a + b| - 1] == e;
      Associates(Flat(a), Flat(b'), e.text);
    }
  }

  lemma FlatOne(e: Entry, n: nat, rest: seq<Entry>)
    ensures Flat(Filter([e] + rest, Due(n))) == (if IsDue(e, n) then e.text else []) + Flat(Filter(rest, Due(n)))
  {
    FilterSplit([e], rest, Due(n));
    FilterSnoc([], e, Due(n));
    assert [] + [e] == [e];
    FlatAppend(Filter([e], Due(n)), Filter(rest, Due(n)));
    assert [e][..0] == [] && [] + e.text == e.text;
  }

  /** An entry's lines move together. */
  lemma {:induction false} RunMoves(ls: seq<string>, n: nat, i: nat, e: nat)
    requires i < e <= |ls| && Mark(ls[i]).Some? && (forall k :: i < k < e ==> Continues(ls[k]))
    requires i < n ==> e <= n
    ensures forall k :: i <= k < e ==> Moves(ls, n, k) == (i < n && Checked(ls[i]))
    ensures Part(ls, n, e, true) == Part(ls, n, i, true) + if i < n && Checked(ls[i]) then ls[i..e] else []
    decreases e
  {
    assert !Continues(ls[i]) by { assert ls[i][0] == '-'; }
    if e == i + 1 {
      assert ls[i..e] == [ls[i]];
    } else {
      RunMoves(ls, n, i, e - 1);
      assert Mark(ls[e - 1]).None? by { assert ls[e - 1][0] in {' ', '\t'}; }
      assert ls[i..e] == ls[i..e - 1] + [ls[e - 1]];
    }
  }

  /** Nothing above line `i` carries over into it. */
  ghost predicate Boundary(ls: seq<string>, n: nat, i: nat)
    requires i <= |ls|
  {
    0 < i < |ls| && Continues(ls[i]) ==> !Moves(ls, n, i - 1)
  }

  ghost predicate HeaderAt(ls: seq<string>, n: nat) { n < |ls| && IsHeader(ls[n]) }

  lemma EntryText(ls: seq<string>, n: nat, i: nat, e: nat)
    requires HeaderAt(ls, n) && i < e <= |ls| && Mark(ls[i]).Some? && e == RunEnd(ls, i + 1)
    ensures Part(ls, n, e, true) == Part(ls, n, i, true) + if IsDue(Entry(i, ls[i..e]), n) then ls[i..e] else []
    ensures Boundary(ls, n, e)
  {
    HeaderStops(ls, n, i, e);
    RunMoves(ls, n, i, e);
    assert ls[i..e][0] == ls[i];
  }

  /** The moving lines are the checked entries' lines, in order. */
  lemma {:induction false} MovedText(ls: seq<string>, n: nat, i: nat)
    requires i <= |ls| && HeaderAt(ls, n) && Boundary(ls, n, i)
    ensures Part(ls, n, |ls|, true) == Part(ls, n, i, true) + Flat(Filter(Entries(ls, i), Due(n)))
    decreases |ls| - i
  {
    if i < |ls| {
      if Mark(ls[i]).Some? {
        var e := RunEnd(ls, i + 1);
        var entry, rest := Entry(i, ls[i..e]), Entries(ls, e);
        EntryText(ls, n, i, e);
        MovedText(ls, n, e);
        FlatOne(entry, n, rest);
        Associates(Part(ls, n, i, true), if IsDue(entry, n) then ls[i..e] else [], Flat(Filter(rest, Due(n))));
      } else {
        assert !Moves(ls, n, i);
        MovedText(ls, n, i + 1);
      }
    }
  }

  lemma HeaderStops(ls: seq<string>, n: nat, i: nat, e: nat)
    requires HeaderAt(ls, n) && i < e <= |ls| && Mark(ls[i]).Some? && forall k :: i < k < e ==> Continues(ls[k])
    ensures i < n ==> e <= n
  {
    assert ls[n][0] == '#' && ls[i][0] == '-';
    assert !Continues(ls[n]);
  }

  predicate Covers(e: Entry, k: int) { e.start <= k < e.start + |e.text| }
  ghost predicate Covered(es: seq<Entry>, n: nat, k: int) {
    exists j :: 0 <= j < |es| && IsDue(es[j], n) && Covers(es[j], k)
  }

  lemma CoveredCons(e: Entry, rest: seq<Entry>, n: nat, k: int)
    ensures Covered([e] + rest, n, k) <==> (IsDue(e, n) && Covers(e, k)) || Covered(rest, n, k)
  {
    var es := [e] + rest;
    assert es[0] == e && forall j :: 0 <= j < |rest| ==> es[j + 1] == rest[j];
    if Covered(rest, n, k) {
      var j :| 0 <= j < |rest| && IsDue(rest[j], n) && Covers(rest[j], k);
      assert es[j + 1] == rest[j];
    }
    if Covered(es, n, k) {
      var j :| 0 <= j < |es| && IsDue(es[j], n) && Covers(es[j], k);
      if j > 0 {
        assert es[j] == rest[j - 1];
      }
    }
  }

  /** The indices the checked entries cover are the lines that move. */
  lemma {:induction false} CoveredMoves(ls: seq<string>, n: nat, i: nat, k: nat)
    requires i <= |ls| && HeaderAt(ls, n) && Boundary(ls, n, i)
    ensures Covered(Entries(ls, i), n, k) <==> i <= k < |ls| && Moves(ls, n, k)
    decreases |ls| - i
  {
    if i < |ls| {
      if Mark(ls[i]).Some? {
        var e := RunEnd(ls, i + 1);
        HeaderStops(ls, n, i, e);
        RunMoves(ls, n, i, e);
        CoveredMoves(ls, n, e, k);
        CoveredCons(Entry(i, ls[i..e]), Entries(ls, e), n, k);
      } else {
        assert !Moves(ls, n, i);
        CoveredMoves(ls, n, i + 1, k);
      }
    }
  }

  // ----- the rewrite

  function Find(ls: seq<string>, p: string -> bool, i: nat): (at: Option<nat>)
    requires i <= |ls|
    ensures at.Some? ==> i <= at.value < |ls| && p(ls[at.value])
    ensures forall k :: i <= k < (if at.Some? then at.value else |ls|) ==> !p(ls[k])
    decreases |ls| - i
  {
    if i == |ls| then None else if p(ls[i]) then Some(i) else Find(ls, p, i + 1)
  }

  method Index(ls: seq<string>, p: string -> bool) returns (at: Option<nat>)
    ensures at == Find(ls, p, 0)
  {
    var i := 0;
    while i < |ls|
      invariant 0 <= i <= |ls| && Find(ls, p, 0) == Find(ls, p, i)
    {
      if p(ls[i]) {
        return Some(i);
      }
      i := i + 1;
    }
    at := None;
  }

  /** The end of the Resolved section, before the blank lines that precede the marker. */
  function InsertAt(ls: seq<string>, n: nat, s: nat): (at: nat)
    requires s <= |ls|
    ensures at <= s && (n < s ==> n < at) && (s <= n ==> at == s)
    ensures forall k :: at <= k < s ==> IsBlank(ls[k])
    ensures n < s ==> at == n + 1 || !IsBlank(ls[at - 1])
  {
    if s > n + 1 && IsBlank(ls[s - 1]) then InsertAt(ls, n, s - 1) else s
  }

  function Rewritten(ls: seq<string>, n: nat, at: nat): seq<string>
    requires at <= |ls|
  {
    Part(ls, n, at, false) + Part(ls, n, |ls|, true) + ls[at..]
  }

  /** Each blank line that follows a blank line is dropped. */
  function Collapse(ls: seq<string>): seq<string> {
    if ls == [] then []
    else
      var k := |ls| - 1;
      Collapse(ls[..k]) + if k > 0 && IsBlank(ls[k]) && IsBlank(ls[k - 1]) then [] else [ls[k]]
  }

  method CollapseBlanks(ls: seq<string>) returns (out: seq<string>)
    ensures out == Collapse(ls)
  {
    out := [];
    var blank, k := false, 0;
    while k < |ls|
      invariant 0 <= k <= |ls| && out == Collapse(ls[..k])
      invariant blank == (k > 0 && IsBlank(ls[k - 1]))
    {
      assert ls[..k + 1][..k] == ls[..k];
      var isBlank := IsBlank(ls[k]);
      if !(isBlank && blank) {
        out, blank := out + [ls[k]], isBlank;
      }
      k := k + 1;
    }
    assert ls[..k] == ls;
  }

  /** The board after an applied run. */
  function After(ls: seq<string>): seq<string> {
    var header, marker := Find(ls, IsHeader, 0), Find(ls, IsMarker, 0);
    if header.None? || marker.None? || Part(ls, header.value, |ls|, true) == [] then ls
    else Collapse(Rewritten(ls, header.value, InsertAt(ls, header.value, marker.value)))
  }

  /** The entries an applied run moves; none when a section is missing. */
  function Moved(ls: seq<string>): Option<seq<Entry>> {
    var header, marker := Find(ls, IsHeader, 0), Find(ls, IsMarker, 0);
    if header.None? || marker.None? then None else Some(Filter(Entries(ls, 0), Due(header.value)))
  }

  /** The lines before `at` without the dropped ones, and all lines from `at` on. */
  method DropLines(out: seq<string>, at: nat, drop: set<int>, ghost ls: seq<string>, ghost n: nat)
    returns (kept: seq<string>)
    requires at <= |out| && at <= |ls| && out[..at] == ls[..at]
    requires forall k: nat :: k < at ==> (k in drop <==> Moves(ls, n, k))
    ensures kept == Part(ls, n, at, false) + out[at..]
  {
    kept := [];
    var k := 0;
    while k < |out|
      invariant 0 <= k <= |out|
      invariant kept == if k <= at then Part(ls, n, k, false) else Part(ls, n, at, false) + out[at..k]
    {
      assert k < at ==> out[..at][k] == ls[..at][k];
      if k >= at || k !in drop {
        kept := kept + [out[k]];
      }
      k := k + 1;
    }
  }

  /** The entries to move, their lines, and the indices those lines have on the board. */
  method Collect(ls: seq<string>, n: nat) returns (moved: seq<Entry>, text: seq<string>, drop: set<int>)
    requires HeaderAt(ls, n)
    ensures moved == Filter(Entries(ls, 0), Due(n)) && text == Part(ls, n, |ls|, true)
    ensures forall k: nat :: k < |ls| ==> (k in drop <==> Moves(ls, n, k))
  {
    var entries := BoardEntries(ls);
    moved, text, drop := [], [], {};
    var j := 0;
    while j < |entries|
      invariant 0 <= j <= |entries|
      invariant moved == Filter(entries[..j], Due(n)) && text == Flat(moved)
      invariant forall k :: k in drop <==> Covered(entries[..j], n, k)
    {
      var e := entries[j];
      FilterStep(entries, j, Due(n));
      CoveredSnoc(entries, j, n);
      if e.start < n && e.text != [] && Mark(e.text[0]) == Some('x') {
        assert (moved + [e])[..|moved|] == moved;
        moved, text := moved + [e], text + e.text;
        drop := drop + set k | e.start <= k < e.start + |e.text| && Covers(e, k);
      }
      j := j + 1;
    }
    assert entries[..j] == entries;
    MovedText(ls, n, 0);
    forall k: nat | k < |ls| ensures k in drop <==> Moves(ls, n, k) {
      CoveredMoves(ls, n, 0, k);
    }
  }

  lemma CoveredSnoc(es: seq<Entry>, j: nat, n: nat)
    requires j < |es|
    ensures forall k :: Covered(es[..j + 1], n, k) <==> Covered(es[..j], n, k) || (IsDue(es[j], n) && Covers(es[j], k))
  {
    forall k ensures Covered(es[..j + 1], n, k) <==> Covered(es[..j], n, k) || (IsDue(es[j], n) && Covers(es[j], k)) {
      if Covered(es[..j], n, k) {
        var i :| 0 <= i < j && IsDue(es[..j][i], n) && Covers(es[..j][i], k);
        assert es[..j + 1][i] == es[..j][i];
      }
      if IsDue(es[j], n) && Covers(es[j], k) {
        assert es[..j + 1][j] == es[j];
      }
      if Covered(es[..j + 1], n, k) {
        var i :| 0 <= i <= j && IsDue(es[..j + 1][i], n) && Covers(es[..j + 1][i], k);
        if i < j {
          assert es[..j][i] == es[..j + 1][i];
        }
      }
    }
  }

  lemma FlatEmpty(es: seq<Entry>, n: nat)
    ensures Flat(Filter(es, Due(n))) == [] <==> Filter(es, Due(n)) == []
  {
    FilterMembers(es, Due(n));
    var due := Filter(es, Due(n));
    if due != [] {
      assert due[|due| - 1] in due;
      assert due[|due| - 1].text != [];
    }
  }

  /** Back over the blank lines before the marker, but not past the header. */
  method InsertPoint(ls: seq<string>, n: nat, s: nat) returns (at: nat)
    requires s <= |ls|
    ensures at == InsertAt(ls, n, s)
  {
    at := s;
    while at > n + 1 && IsBlank(ls[at - 1])
      invariant at <= s && InsertAt(ls, n, s) == InsertAt(ls, n, at)
    {
      at := at - 1;
    }
  }

  /** Insert first, then drop by index: indices before the insertion have not shifted. */
  method Rewrite(ls: seq<string>, n: nat, at: nat, text: seq<string>, drop: set<int>) returns (out: seq<string>)
    requires at <= |ls| && text == Part(ls, n, |ls|, true)
    requires forall k: nat :: k < |ls| ==> (k in drop <==> Moves(ls, n, k))
    ensures out == Collapse(Rewritten(ls, n, at))
  {
    out := ls[..at] + text + ls[at..];
    assert out[..at] == ls[..at] && out[at..] == text + ls[at..];
    out := DropLines(out, at, drop, ls, n);
    Associates(Part(ls, n, at, false), text, ls[at..]);
    out := CollapseBlanks(out);
  }

  /** The board file. */
  class Board {
    var lines: seq<string>

    constructor (ls: seq<string>)
      ensures lines == ls
    {
      lines := ls;
    }

    /** Plan the move, and write it when asked to; without both sections the run stops. */
    method Process(apply: bool) returns (moved: Option<seq<Entry>>)
      modifies this
      ensures moved == Moved(old(lines))
      ensures lines == if apply then After(old(lines)) else old(lines)
    {
      var header := Index(lines, IsHeader);
      if header.None? {
        return None;
      }
      var marker := Index(lines, IsMarker);
      if marker.None? {
        return None;
      }
      var entries, text, drop := Collect(lines, header.value);
      FlatEmpty(Entries(lines, 0), header.value);
      MovedText(lines, header.value, 0);
      moved := Some(entries);
      if !apply || entries == [] {
        return;
      }
      var at := InsertPoint(lines, header.value, marker.value);
      lines := Rewrite(lines, header.value, at, text, drop);
    }
  }
}
