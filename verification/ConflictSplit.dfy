/** Splitting a file with conflict markers into plain segments and conflicts, and back. */
module ConflictSplit {
  import opened Seqs

  // ----- lines

  /** Characters that end a line. */
  predicate IsBreak(c: char) {
    c in {'\n', '\r', '\U{0B}', '\U{0C}', '\U{1C}', '\U{1D}', '\U{1E}', '\U{85}', '\U{2028}', '\U{2029}'}
  }

  /** The length of the first line from position `i` on, its terminator included. */
  function LineEnd(t: string, i: nat): (n: nat)
    requires i < |t|
    ensures i < n <= |t|
    decreases |t| - i
  {
    if t[i] == '\r' && i + 1 < |t| && t[i + 1] == '\n' then i + 2
    else if IsBreak(t[i]) || i + 1 == |t| then i + 1
    else LineEnd(t, i + 1)
  }

  function SplitLines(t: string): seq<string> {
    if t == "" then []
    else
      var n := LineEnd(t, 0);
      [t[..n]] + SplitLines(t[n..])
  }

  function Join(ls: seq<string>): string {
    if ls == [] then "" else ls[0] + Join(ls[1..])
  }

  lemma {:induction false} JoinSplit(t: string)
    ensures Join(SplitLines(t)) == t
    ensures forall l :: l in SplitLines(t) ==> l != ""
    decreases |t|
  {
    if t != "" {
      var n := LineEnd(t, 0);
      JoinSplit(t[n..]);
      assert SplitLines(t)[1..] == SplitLines(t[n..]);
      assert t == t[..n] + t[n..];
    }
  }

  /** Each string is the first line of what it starts. */
  ghost predicate IsLineList(ls: seq<string>) {
    ls == [] || (ls[0] != "" && LineEnd(Join(ls), 0) == |ls[0]| && IsLineList(ls[1..]))
  }

  lemma {:induction false} SplitJoin(ls: seq<string>)
    requires IsLineList(ls)
    ensures SplitLines(Join(ls)) == ls
  {
    if ls != [] {
      SplitJoin(ls[1..]);
      assert Join(ls)[..|ls[0]|] == ls[0] && Join(ls)[|ls[0]|..] == Join(ls[1..]);
    }
  }

  /** Strings that end in their only line break form a line list; the last may lack one. */
  ghost predicate Terminated(ls: seq<string>) {
    forall i :: 0 <= i < |ls| ==>
      ls[i] != "" && (forall j :: 0 <= j < |ls[i]| - 1 ==> !IsBreak(ls[i][j]))
      && (i < |ls| - 1 ==> ls[i][|ls[i]| - 1] == '\n')
      && ls[i][|ls[i]| - 1] != '\r'
  }

  lemma {:induction false} LineEndAt(t: string, i: nat, n: nat)
    requires i < n <= |t| && (forall j :: i <= j < n - 1 ==> !IsBreak(t[j]))
    requires n == |t| || t[n - 1] == '\n'
    ensures LineEnd(t, i) == n
    decreases n - i
  {
    if i < n - 1 {
      assert t[i] != '\r';
      LineEndAt(t, i + 1, n);
    }
  }

  lemma {:induction false} TerminatedIsLineList(ls: seq<string>)
    requires Terminated(ls)
    ensures IsLineList(ls)
  {
    if ls != [] {
      assert forall i :: 0 <= i < |ls[1..]| ==> ls[1..][i] == ls[i + 1];
      TerminatedIsLineList(ls[1..]);
      var t := Join(ls);
      assert t[..|ls[0]|] == ls[0];
      forall j | 0 <= j < |ls[0]| ensures t[j] == ls[0][j] {
      }
      if |ls| == 1 {
        assert t == ls[0];
      }
      LineEndAt(t, 0, |ls[0]|);
    }
  }

  /** Where a line ends: at its first break, at both characters of a carriage return and line feed,
      or at the end of the text. */
  lemma {:induction false} LineEndMeans(t: string, i: nat)
    requires i < |t|
    ensures var n := LineEnd(t, i);
      && (forall k :: i <= k < n - 1 ==> !EndsLine(t[k]) || (k == n - 2 && t[k] == '\r' && t[n - 1] == '\n'))
      && (n < |t| ==> EndsLine(t[n - 1]) && !(t[n - 1] == '\r' && t[n] == '\n'))
    decreases |t| - i
  {
    if !IsBreak(t[i]) && i + 1 < |t| {
      LineEndMeans(t, i + 1);
    }
  }

  /** Line feed, carriage return, vertical tab, form feed, the three separators, next line, and the
      Unicode line and paragraph separators. */
  predicate EndsLine(c: char) {
    c == '\n' || c == '\r' || '\U{0B}' <= c <= '\U{0C}' || '\U{1C}' <= c <= '\U{1E}' || c == '\U{85}'
    || '\U{2028}' <= c <= '\U{2029}'
  }

  /** The lines of a text: each holds its own break last and no other, only the last may lack one,
      and a carriage return is never cut off from its line feed. */
  lemma {:induction false} LinesEndAtBreaks(t: string, m: nat)
    requires m < |SplitLines(t)|
    ensures var l := SplitLines(t)[m]; var n := |l|;
      && n > 0
      && (forall k :: 0 <= k < n - 1 ==> !EndsLine(l[k]) || (k == n - 2 && l[k] == '\r' && l[n - 1] == '\n'))
      && (m < |SplitLines(t)| - 1 ==>
            && EndsLine(l[n - 1])
            && SplitLines(t)[m + 1] != "" && !(l[n - 1] == '\r' && SplitLines(t)[m + 1][0] == '\n'))
    decreases m
  {
    var n := LineEnd(t, 0);
    JoinSplit(t[n..]);
    LineEndMeans(t, 0);
    if m > 0 {
      LinesEndAtBreaks(t[n..], m - 1);
    } else if |SplitLines(t)| > 1 {
      var next := LineEnd(t[n..], 0);
      assert SplitLines(t)[1] == t[n..][..next] && t[n..][..next][0] == t[n];
    }
  }

  // ----- blocks of lines

  predicate Opens(l: string) { "<<<<<<< " <= l }
  predicate Divides(l: string) { "=======" <= l }
  predicate Closes(l: string) { ">>>>>>> " <= l }

  /** A conflict's divider or closing line is missing when the file ends first. */
  datatype Block =
    | Plain(lines: seq<string>)
    | Conflict(open: string, ours: seq<string>, divider: Option<string>, theirs: seq<string>, close: Option<string>)

  function Opt(l: Option<string>): seq<string> { if l.Some? then [l.value] else [] }

  function Raw(b: Block): seq<string> {
    match b
    case Plain(lines) => lines
    case Conflict(open, ours, divider, theirs, close) => [open] + ours + Opt(divider) + theirs + Opt(close)
  }

  function Render(bs: seq<Block>): seq<string> {
    if bs == [] then [] else Raw(bs[0]) + Render(bs[1..])
  }

  /** A plain block is non-empty and has no opening line; a conflict's parts stop at their
      markers; a conflict that is cut off is the last block. */
  ghost predicate GoodBlock(b: Block, last: bool) {
    match b
    case Plain(lines) => lines != [] && forall l :: l in lines ==> !Opens(l)
    case Conflict(open, ours, divider, theirs, close) =>
      && Opens(open)
      && (forall l :: l in ours ==> !Divides(l)) && (forall l :: l in theirs ==> !Closes(l))
      && (divider.Some? ==> Divides(divider.value)) && (close.Some? ==> Closes(close.value))
      && (divider.None? ==> theirs == [] && close.None?)
      && (close.None? ==> last)
  }

  ghost predicate WellFormed(bs: seq<Block>) {
    bs == []
    || (GoodBlock(bs[0], |bs| == 1)
        && (|bs| > 1 && bs[0].Plain? ==> bs[1].Conflict?)
        && WellFormed(bs[1..]))
  }

  function Until(ls: seq<string>, stop: string -> bool): (n: nat)
    ensures n <= |ls|
    ensures forall i :: 0 <= i < n ==> !stop(ls[i])
    ensures n < |ls| ==> stop(ls[n])
  {
    if ls == [] || stop(ls[0]) then 0 else 1 + Until(ls[1..], stop)
  }

  lemma UntilIs(ls: seq<string>, stop: string -> bool, n: nat)
    requires n <= |ls| && (forall i :: 0 <= i < n ==> !stop(ls[i])) && (n < |ls| ==> stop(ls[n]))
    ensures Until(ls, stop) == n
  {
  }

  /** From a divider on: theirs, and the closing line if there is one. */
  function Theirs(rest: seq<string>): (p: (seq<string>, Option<string>))
    requires rest != []
    ensures |p.0| + |Opt(p.1)| < |rest|
  {
    var t := Until(rest[1..], Closes);
    (rest[1..1 + t], if 1 + t < |rest| then Some(rest[1 + t]) else None)
  }

  lemma TheirsRaw(rest: seq<string>)
    requires rest != []
    ensures var p := Theirs(rest); var n := 1 + |p.0| + |Opt(p.1)|;
      && [rest[0]] + p.0 + Opt(p.1) == rest[..n]
      && (forall l :: l in p.0 ==> !Closes(l)) && (p.1.Some? ==> Closes(p.1.value)) && (p.1.None? ==> n == |rest|)
  {
    var t := Until(rest[1..], Closes);
    forall l | l in Theirs(rest).0 ensures !Closes(l) {
      var i :| 0 <= i < t && rest[1..][i] == l;
    }
  }

  function ParseConflict(ls: seq<string>): (b: Block)
    requires ls != []
    ensures b.Conflict?
  {
    var o := Until(ls[1..], Divides);
    if 1 + o == |ls| then Conflict(ls[0], ls[1..], None, [], None)
    else
      var p := Theirs(ls[1 + o..]);
      Conflict(ls[0], ls[1..1 + o], Some(ls[1 + o]), p.0, p.1)
  }

  lemma Regroup<T>(a: seq<T>, b: seq<T>, c: seq<T>, d: seq<T>, e: seq<T>)
    ensures a + b + c + d + e == a + b + (c + d + e)
  {
  }

  lemma SlicesMeet<T>(s: seq<T>, i: nat, n: nat)
    requires 1 <= i <= i + n <= |s|
    ensures [s[0]] + s[1..i] + s[i..][..n] == s[..i + n]
  {
  }

  /** The three parts of a finished conflict are consecutive. */
  lemma PartsMeet<T>(s: seq<T>, i: nat, theirs: seq<T>, close: seq<T>)
    requires 1 <= i < |s|
    requires var n := 1 + |theirs| + |close|; i + n <= |s| && [s[i]] + theirs + close == s[i..][..n]
    ensures var raw := [s[0]] + s[1..i] + [s[i]] + theirs + close;
      0 < |raw| <= |s| && raw == s[..|raw|]
  {
    Regroup([s[0]], s[1..i], [s[i]], theirs, close);
    SlicesMeet(s, i, 1 + |theirs| + |close|);
  }

  lemma RawConflict(ls: seq<string>)
    requires ls != []
    ensures 0 < |Raw(ParseConflict(ls))| <= |ls| && Raw(ParseConflict(ls)) == ls[..|Raw(ParseConflict(ls))|]
  {
    var i := 1 + Until(ls[1..], Divides);
    if i == |ls| {
      RawCutOff(ls);
    } else {
      RawDivided(ls, i);
    }
  }

  lemma RawDivided(ls: seq<string>, i: nat)
    requires 1 <= i < |ls|
    ensures var p := Theirs(ls[i..]); var raw := Raw(Conflict(ls[0], ls[1..i], Some(ls[i]), p.0, p.1));
      0 < |raw| <= |ls| && raw == ls[..|raw|]
  {
    var p := Theirs(ls[i..]);
    TheirsRaw(ls[i..]);
    PartsMeet(ls, i, p.0, Opt(p.1));
  }

  lemma RawCutOff(ls: seq<string>)
    requires ls != []
    ensures Raw(Conflict(ls[0], ls[1..], None, [], None)) == ls
  {
  }

  lemma GoodConflict(ls: seq<string>)
    requires ls != [] && Opens(ls[0])
    ensures GoodBlock(ParseConflict(ls), |Raw(ParseConflict(ls))| == |ls|)
  {
    var o := Until(ls[1..], Divides);
    RawConflict(ls);
    forall l | l in ParseConflict(ls).ours ensures !Divides(l) {
      var i :| 0 <= i < o && ls[1..][i] == l;
    }
    if 1 + o < |ls| {
      TheirsRaw(ls[1 + o..]);
    }
  }

  function Parse(ls: seq<string>): seq<Block>
    decreases |ls|
  {
    if ls == [] then []
    else if Opens(ls[0]) then
      var b := ParseConflict(ls);
      RawConflict(ls);
      [b] + Parse(ls[|Raw(b)|..])
    else
      var n := Until(ls, Opens);
      [Plain(ls[..n])] + Parse(ls[n..])
  }

  function FirstBlock(ls: seq<string>): Block
    requires ls != []
  {
    if Opens(ls[0]) then ParseConflict(ls) else Plain(ls[..Until(ls, Opens)])
  }

  lemma FirstBlockIs(ls: seq<string>)
    requires ls != []
    ensures var b := FirstBlock(ls); var n := |Raw(b)|;
      && 0 < n <= |ls| && Raw(b) == ls[..n] && Parse(ls) == [b] + Parse(ls[n..])
      && GoodBlock(b, n == |ls|) && (b.Conflict? <==> Opens(ls[0]))
      && (b.Plain? && n < |ls| ==> Opens(ls[n]))
  {
    if Opens(ls[0]) {
      RawConflict(ls);
      GoodConflict(ls);
    } else {
      PlainPrefix(ls);
    }
  }

  lemma RenderCons(b: Block, bs: seq<Block>)
    ensures Render([b] + bs) == Raw(b) + Render(bs)
  {
    assert ([b] + bs)[1..] == bs;
  }

  lemma WellFormedCons(b: Block, bs: seq<Block>)
    requires GoodBlock(b, bs == []) && WellFormed(bs) && (bs != [] && b.Plain? ==> bs[0].Conflict?)
    ensures WellFormed([b] + bs)
  {
    assert ([b] + bs)[1..] == bs;
  }

  /** Parsing yields a well-formed block list that renders back to the lines. */
  lemma {:induction false} ParseIsFaithful(ls: seq<string>)
    ensures Render(Parse(ls)) == ls && WellFormed(Parse(ls))
    ensures ls != [] ==> Parse(ls) != [] && (Parse(ls)[0].Conflict? <==> Opens(ls[0]))
    ensures ls == [] ==> Parse(ls) == []
    decreases |ls|
  {
    if ls != [] {
      var b, n := FirstBlock(ls), |Raw(FirstBlock(ls))|;
      FirstBlockIs(ls);
      ParseIsFaithful(ls[n..]);
      RenderCons(b, Parse(ls[n..]));
      WellFormedCons(b, Parse(ls[n..]));
      Slices(ls, n);
    }
  }

  lemma Slices<T>(s: seq<T>, n: nat)
    requires n <= |s|
    ensures s[..n] + s[n..] == s
  {
  }

  lemma PlainPrefix(ls: seq<string>)
    requires ls != [] && !Opens(ls[0])
    ensures var n := Until(ls, Opens); 0 < n && (forall l :: l in ls[..n] ==> !Opens(l)) && (n < |ls| ==> Opens(ls[n]))
  {
    var n := Until(ls, Opens);
    forall l | l in ls[..n] ensures !Opens(l) {
      var i :| 0 <= i < n && ls[i] == l;
    }
  }

  lemma RawNonEmpty(b: Block, last: bool)
    requires GoodBlock(b, last)
    ensures Raw(b) != [] && (Opens(Raw(b)[0]) <==> b.Conflict?)
  {
    if b.Plain? {
      assert b.lines[0] in b.lines;
    }
  }

  lemma Pieces<T>(x: T, a: seq<T>, b: seq<T>)
    ensures ([x] + a + b)[0] == x && ([x] + a + b)[1..] == a + b
    ensures ([x] + a + b)[1..1 + |a|] == a && ([x] + a + b)[1 + |a|..] == b
  {
  }

  lemma AppendTo<T>(a: seq<T>, b: seq<T>, c: seq<T>, d: seq<T>, e: seq<T>, f: seq<T>)
    ensures a + b + c + d + e + f == a + b + (c + d + e + f)
  {
  }

  lemma UntilParts(a: seq<string>, b: seq<string>, stop: string -> bool)
    requires (forall l :: l in a ==> !stop(l)) && (b != [] ==> stop(b[0]))
    ensures Until(a + b, stop) == |a|
  {
    assert forall i :: 0 <= i < |a| ==> (a + b)[i] == a[i] && a[i] in a;
    UntilIs(a + b, stop, |a|);
  }

  /** A well-formed conflict followed by anything its cut-off rule allows is parsed as itself. */
  lemma ParseConflictBack(b: Block, rest: seq<string>)
    requires b.Conflict? && GoodBlock(b, rest == [])
    ensures ParseConflict(Raw(b) + rest) == b
  {
    var tail := Opt(b.divider) + b.theirs + Opt(b.close) + rest;
    AppendTo([b.open], b.ours, Opt(b.divider), b.theirs, Opt(b.close), rest);
    Pieces(b.open, b.ours, tail);
    UntilParts(b.ours, tail, Divides);
    if b.divider.Some? {
      TheirsBack(b, rest);
      assert tail == [b.divider.value] + b.theirs + Opt(b.close) + rest;
    } else {
      assert tail == [];
    }
  }

  lemma TheirsBack(b: Block, rest: seq<string>)
    requires b.Conflict? && GoodBlock(b, rest == []) && b.divider.Some?
    ensures Theirs([b.divider.value] + b.theirs + Opt(b.close) + rest) == (b.theirs, b.close)
  {
    var ls := [b.divider.value] + b.theirs + Opt(b.close) + rest;
    assert ls == [b.divider.value] + b.theirs + (Opt(b.close) + rest);
    Pieces(b.divider.value, b.theirs, Opt(b.close) + rest);
    UntilParts(b.theirs, Opt(b.close) + rest, Closes);
    assert b.close.Some? ==> ls[1 + |b.theirs|] == b.close.value;
  }

  lemma ParsePlainBack(b: Block, rest: seq<string>)
    requires b.Plain? && GoodBlock(b, rest == []) && (rest != [] ==> Opens(rest[0]))
    ensures Parse(Raw(b) + rest) == [b] + Parse(rest)
  {
    var ls := b.lines + rest;
    assert forall i :: 0 <= i < |b.lines| ==> ls[i] == b.lines[i] && b.lines[i] in b.lines;
    UntilIs(ls, Opens, |b.lines|);
    assert ls[..|b.lines|] == b.lines && ls[|b.lines|..] == rest;
  }

  lemma ParseOneBack(b: Block, rest: seq<string>)
    requires b.Conflict? && GoodBlock(b, rest == [])
    ensures Parse(Raw(b) + rest) == [b] + Parse(rest)
  {
    var ls := Raw(b) + rest;
    RawNonEmpty(b, rest == []);
    ParseConflictBack(b, rest);
    assert ls[0] == Raw(b)[0] && ls[|Raw(b)|..] == rest;
  }

  lemma RenderStarts(bs: seq<Block>)
    requires WellFormed(bs)
    ensures bs == [] <==> Render(bs) == []
    ensures bs != [] ==> (Opens(Render(bs)[0]) <==> bs[0].Conflict?)
  {
    if bs != [] {
      RawNonEmpty(bs[0], |bs| == 1);
    }
  }

  lemma ParseCons(b: Block, rest: seq<Block>)
    requires GoodBlock(b, rest == []) && WellFormed(rest) && (rest != [] && b.Plain? ==> rest[0].Conflict?)
    ensures Parse(Raw(b) + Render(rest)) == [b] + Parse(Render(rest))
  {
    RenderStarts(rest);
    if b.Conflict? {
      ParseOneBack(b, Render(rest));
    } else {
      ParsePlainBack(b, Render(rest));
    }
  }

  /** Parsing the rendering of any well-formed block list gives that list back. */
  lemma {:induction false} ParseRender(bs: seq<Block>)
    requires WellFormed(bs)
    ensures Parse(Render(bs)) == bs
  {
    if bs != [] {
      ParseRender(bs[1..]);
      ParseCons(bs[0], bs[1..]);
      assert bs == [bs[0]] + bs[1..];
    }
  }

  // ----- segments of text

  datatype Segment = PlainText(text: string) | ConflictText(ours: string, theirs: string, raw: string)

  function ToSegment(b: Block): Segment {
    match b
    case Plain(lines) => PlainText(Join(lines))
    case Conflict(_, ours, _, theirs, _) => ConflictText(Join(ours), Join(theirs), Join(Raw(b)))
  }

  function ToSegments(bs: seq<Block>): seq<Segment> {
    if bs == [] then [] else ToSegments(bs[..|bs| - 1]) + [ToSegment(bs[|bs| - 1])]
  }

  function Conflicts(bs: seq<Block>): nat {
    if bs == [] then 0 else Conflicts(bs[..|bs| - 1]) + if bs[|bs| - 1].Conflict? then 1 else 0
  }

  function Text(s: Segment): string { if s.PlainText? then s.text else s.raw }

  function TextOf(segs: seq<Segment>): string {
    if segs == [] then "" else TextOf(segs[..|segs| - 1]) + Text(segs[|segs| - 1])
  }

  /** Collect lines up to the first one that stops the run, or the end of the file. */
  method TakeUntil(lines: seq<string>, start: nat, stop: string -> bool) returns (run: seq<string>, i: nat)
    requires start <= |lines|
    ensures var n := Until(lines[start..], stop); i == start + n && run == lines[start..][..n]
  {
    run, i := [], start;
    while i < |lines| && !stop(lines[i])
      invariant start <= i <= |lines| && run == lines[start..i]
      invariant forall k :: start <= k < i ==> !stop(lines[k])
    {
      run, i := run + [lines[i]], i + 1;
    }
    UntilIs(lines[start..], stop, i - start);
  }

  method TakeTheirs(lines: seq<string>, divider: nat) returns (theirs: seq<string>, close: Option<string>, i: nat)
    requires divider < |lines|
    ensures (theirs, close) == Theirs(lines[divider..]) && i == divider + 1 + |theirs| + |Opt(close)| <= |lines|
  {
    theirs, i := TakeUntil(lines, divider + 1, Closes);
    ghost var rest, k := lines[divider..], i;
    assert rest[1..] == lines[divider + 1..];
    assert rest[1..][..|theirs|] == rest[1..1 + |theirs|];
    assert k < |lines| ==> rest[1 + |theirs|] == lines[k];
    close := None;
    if i < |lines| {
      close := Some(lines[i]);
      i := i + 1;
    }
  }

  /** One conflict: ours up to the divider, theirs up to the closing line. */
  method TakeConflict(lines: seq<string>, start: nat)
    returns (ours: seq<string>, theirs: seq<string>, raw: seq<string>, i: nat)
    requires start < |lines|
    ensures var b := ParseConflict(lines[start..]);
      ours == b.ours && theirs == b.theirs && raw == Raw(b) && i == start + |raw| <= |lines|
  {
    ours, i := TakeUntil(lines, start + 1, Divides);
    assert lines[start..][1..] == lines[start + 1..];
    theirs, raw := [], [lines[start]] + ours;
    if i < |lines| {
      var divider := i;
      var close;
      theirs, close, i := TakeTheirs(lines, divider);
      raw := raw + [lines[divider]] + theirs + Opt(close);
      assert lines[start..][1 + |ours|..] == lines[divider..];
    }
  }

  /** What the loop has done: `blocks` are parsed off the front, and `segs` are their text. */
  ghost predicate Progress(lines: seq<string>, blocks: seq<Block>, pending: seq<string>, segs: seq<Segment>, n: nat) {
    Parse(lines) == blocks + Parse(pending) && segs == ToSegments(blocks) && n == Conflicts(blocks)
  }

  lemma ProgressBlock(lines: seq<string>, blocks: seq<Block>, pending: seq<string>, segs: seq<Segment>, n: nat,
                      b: Block, rest: seq<string>)
    requires Progress(lines, blocks, pending, segs, n) && Parse(pending) == [b] + Parse(rest)
    ensures Progress(lines, blocks + [b], rest, segs + [ToSegment(b)], n + if b.Conflict? then 1 else 0)
  {
    assert (blocks + [b])[..|blocks|] == blocks;
    Associates(blocks, [b], Parse(rest));
  }

  /** Close the pending plain segment, if any. */
  method Flush(ghost lines: seq<string>, ghost blocks: seq<Block>, buf: seq<string>, ghost rest: seq<string>,
               segs: seq<Segment>, ghost n: nat) returns (segs': seq<Segment>, ghost blocks': seq<Block>)
    requires Progress(lines, blocks, buf + rest, segs, n)
    requires (forall l :: l in buf ==> !Opens(l)) && (rest != [] ==> Opens(rest[0]))
    ensures Progress(lines, blocks', rest, segs', n)
  {
    FlushParse(buf, rest);
    segs', blocks' := segs, blocks;
    if buf != [] {
      ProgressBlock(lines, blocks, buf + rest, segs, n, Plain(buf), rest);
      segs', blocks' := segs + [PlainText(Join(buf))], blocks + [Plain(buf)];
    } else {
      assert buf + rest == rest;
    }
  }

  method AddConflict(lines: seq<string>, i: nat, segs: seq<Segment>, ghost n: nat, ghost blocks: seq<Block>)
    returns (segs': seq<Segment>, next: nat, ghost blocks': seq<Block>)
    requires i < |lines| && Opens(lines[i]) && Progress(lines, blocks, lines[i..], segs, n)
    ensures i < next <= |lines| && Progress(lines, blocks', lines[next..], segs', n + 1)
  {
    ghost var rest := lines[i..];
    var ours, theirs, raw;
    ours, theirs, raw, next := TakeConflict(lines, i);
    FirstBlockIs(rest);
    assert rest[|raw|..] == lines[next..];
    ProgressBlock(lines, blocks, rest, segs, n, ParseConflict(rest), lines[next..]);
    blocks' := blocks + [ParseConflict(rest)];
    segs' := segs + [ConflictText(Join(ours), Join(theirs), Join(raw))];
  }

  /** The loop's state: lines before `i` are in blocks, or pending in the buffer. */
  ghost predicate Pending(lines: seq<string>, i: nat, buf: seq<string>, blocks: seq<Block>, segs: seq<Segment>, n: nat)
    requires i <= |lines|
  {
    Progress(lines, blocks, buf + lines[i..], segs, n) && forall l :: l in buf ==> !Opens(l)
  }

  lemma KeepLine(lines: seq<string>, i: nat, buf: seq<string>, blocks: seq<Block>, segs: seq<Segment>, n: nat)
    requires i < |lines| && Pending(lines, i, buf, blocks, segs, n) && !Opens(lines[i])
    ensures Pending(lines, i + 1, buf + [lines[i]], blocks, segs, n)
  {
    assert buf + [lines[i]] + lines[i + 1..] == buf + lines[i..];
  }

  /** At an opening line: close the buffer, then take the conflict. */
  method TakeBoth(lines: seq<string>, i: nat, buf: seq<string>, segs: seq<Segment>, ghost n: nat,
                  ghost blocks: seq<Block>)
    returns (segs': seq<Segment>, next: nat, ghost blocks': seq<Block>)
    requires i < |lines| && Opens(lines[i]) && Pending(lines, i, buf, blocks, segs, n)
    ensures i < next <= |lines| && Pending(lines, next, [], blocks', segs', n + 1)
  {
    segs', blocks' := Flush(lines, blocks, buf, lines[i..], segs, n);
    segs', next, blocks' := AddConflict(lines, i, segs', n, blocks');
    assert [] + lines[next..] == lines[next..];
  }

  /** The outer loop, on lines: a conflict at an opening line, everything else into the buffer. */
  method SplitFile(lines: seq<string>) returns (segs: seq<Segment>, n: nat)
    ensures segs == ToSegments(Parse(lines)) && n == Conflicts(Parse(lines))
  {
    var buf: seq<string> := [];
    var i := 0;
    ghost var blocks: seq<Block> := [];
    segs, n := [], 0;
    assert buf + lines[0..] == lines && blocks + Parse(lines) == Parse(lines);
    while i < |lines|
      invariant 0 <= i <= |lines| && Pending(lines, i, buf, blocks, segs, n)
      decreases |lines| - i
    {
      if Opens(lines[i]) {
        segs, i, blocks := TakeBoth(lines, i, buf, segs, n, blocks);
        buf, n := [], n + 1;
      } else {
        KeepLine(lines, i, buf, blocks, segs, n);
        buf, i := buf + [lines[i]], i + 1;
      }
    }
    assert lines[i..] == [];
    segs, blocks := Flush(lines, blocks, buf, [], segs, n);
    assert Parse(lines) == blocks;
  }

  /** Pending plain lines are a block of their own as soon as a conflict or the end follows. */
  lemma FlushParse(buf: seq<string>, rest: seq<string>)
    requires (forall l :: l in buf ==> !Opens(l)) && (rest != [] ==> Opens(rest[0]))
    ensures Parse(buf + rest) == (if buf == [] then [] else [Plain(buf)]) + Parse(rest)
  {
    if buf == [] {
      assert buf + rest == rest;
    } else {
      UntilParts(buf, rest, Opens);
      assert buf[0] in buf && (buf + rest)[0] == buf[0];
      assert (buf + rest)[..|buf|] == buf && (buf + rest)[|buf|..] == rest;
    }
  }

  // ----- whole texts

  function Segments(text: string): seq<Segment> { ToSegments(Parse(SplitLines(text))) }

  method SplitConflicts(text: string) returns (segs: seq<Segment>, n: nat)
    ensures segs == Segments(text) && n == Conflicts(Parse(SplitLines(text)))
    ensures n == |ConflictsIn(segs)|
  {
    segs, n := SplitFile(SplitLines(text));
    ConflictCount(Parse(SplitLines(text)));
  }

  ghost function ConflictsIn(segs: seq<Segment>): set<nat> { set i | 0 <= i < |segs| && segs[i].ConflictText? }

  lemma {:induction false} ConflictCount(bs: seq<Block>)
    ensures Conflicts(bs) == |ConflictsIn(ToSegments(bs))|
  {
    if bs != [] {
      var n := |bs| - 1;
      ConflictCount(bs[..n]);
      SegmentAt(bs[..n]);
      OneMoreSegment(ToSegments(bs[..n]), ToSegment(bs[n]));
    }
  }

  lemma OneMoreSegment(segs: seq<Segment>, s: Segment)
    ensures |ConflictsIn(segs + [s])| == |ConflictsIn(segs)| + if s.ConflictText? then 1 else 0
  {
    assert ConflictsIn(segs + [s]) == ConflictsIn(segs) + if s.ConflictText? then {|segs|} else {};
  }

  lemma {:induction false} JoinAppend(a: seq<string>, b: seq<string>)
    ensures Join(a + b) == Join(a) + Join(b)
  {
    if a == [] {
      assert a + b == b;
    } else {
      assert (a + b)[1..] == a[1..] + b;
      JoinAppend(a[1..], b);
    }
  }

  lemma TextOfSegment(b: Block)
    ensures Text(ToSegment(b)) == Join(Raw(b))
  {
  }

  lemma TextOfSnoc(segs: seq<Segment>, s: Segment)
    ensures TextOf(segs + [s]) == TextOf(segs) + Text(s)
  {
    assert (segs + [s])[..|segs|] == segs;
  }

  lemma RenderSnoc(bs: seq<Block>, b: Block)
    ensures Join(Render(bs + [b])) == Join(Render(bs)) + Join(Raw(b))
  {
    RenderAppend(bs, [b]);
    RenderCons(b, []);
    assert [b] + [] == [b] && Raw(b) + [] == Raw(b);
    JoinAppend(Render(bs), Raw(b));
  }

  lemma {:induction false} TextOfRender(bs: seq<Block>)
    ensures TextOf(ToSegments(bs)) == Join(Render(bs))
  {
    if bs != [] {
      var front, b := bs[..|bs| - 1], bs[|bs| - 1];
      assert bs == front + [b];
      TextOfRender(front);
      RenderSnoc(front, b);
      TextOfSegment(b);
      TextOfSnoc(ToSegments(front), ToSegment(b));
    }
  }

  lemma {:induction false} RenderAppend(a: seq<Block>, b: seq<Block>)
    ensures Render(a + b) == Render(a) + Render(b)
  {
    if a == [] {
      assert a + b == b;
    } else {
      assert (a + b)[1..] == a[1..] + b;
      RenderAppend(a[1..], b);
      Associates(Raw(a[0]), Render(a[1..]), Render(b));
    }
  }

  /** For every text, cut-off conflicts included, the segments concatenate to the text. */
  lemma SegmentsConcatenate(text: string)
    ensures TextOf(Segments(text)) == text
  {
    ParseIsFaithful(SplitLines(text));
    TextOfRender(Parse(SplitLines(text)));
    JoinSplit(text);
  }

  /** Splitting the rendering of a well-formed block list gives its segments and conflict count. */
  lemma ResplitIsIdentity(bs: seq<Block>)
    requires WellFormed(bs) && IsLineList(Render(bs))
    ensures Parse(SplitLines(TextOf(ToSegments(bs)))) == bs
    ensures Segments(TextOf(ToSegments(bs))) == ToSegments(bs)
  {
    TextOfRender(bs);
    SplitJoin(Render(bs));
    ParseRender(bs);
  }

  lemma {:induction false} SegmentAt(bs: seq<Block>)
    ensures |ToSegments(bs)| == |bs| && forall i :: 0 <= i < |bs| ==> ToSegments(bs)[i] == ToSegment(bs[i])
  {
    if bs != [] {
      SegmentAt(bs[..|bs| - 1]);
    }
  }

  lemma BlockLines(bs: seq<Block>, i: nat)
    requires i < |bs|
    ensures var k, n := |Render(bs[..i])|, |Raw(bs[i])|;
      k + n <= |Render(bs)| && Render(bs)[k..k + n] == Raw(bs[i])
  {
    var head, rest := bs[..i], bs[i + 1..];
    assert bs == head + ([bs[i]] + rest);
    RenderAppend(head, [bs[i]] + rest);
    RenderCons(bs[i], rest);
  }

  lemma JoinOpt(l: Option<string>)
    ensures Join(Opt(l)) == if l.Some? then l.value else ""
  {
    if l.Some? {
      assert [l.value][1..] == [] && l.value + "" == l.value;
    }
  }

  lemma JoinConflict(open: string, ours: seq<string>, divider: Option<string>, theirs: seq<string>,
                     close: Option<string>)
    ensures Join([open] + ours + Opt(divider) + theirs + Opt(close))
         == open + Join(ours) + Join(Opt(divider)) + Join(theirs) + Join(Opt(close))
  {
    JoinAppend([open] + ours + Opt(divider) + theirs, Opt(close));
    JoinAppend([open] + ours + Opt(divider), theirs);
    JoinAppend([open] + ours, Opt(divider));
    JoinAppend([open], ours);
    JoinOpt(Some(open));
  }

  lemma LastBlockLines(bs: seq<Block>)
    requires bs != []
    ensures |Render(bs)| == |Render(bs[..|bs| - 1])| + |Raw(bs[|bs| - 1])|
  {
    var front, b := bs[..|bs| - 1], bs[|bs| - 1];
    assert bs == front + [b] && [b] + [] == [b];
    RenderAppend(front, [b]);
    RenderCons(b, []);
  }

  lemma BlockSlice(bs: seq<Block>, i: nat, ls: seq<string>)
    requires WellFormed(bs) && i < |bs| && ls == Render(bs)
    ensures var k, n := |Render(bs[..i])|, |Raw(bs[i])|;
      k + n <= |ls| && ls[k..k + n] == Raw(bs[i]) && GoodBlock(bs[i], k + n == |ls|)
  {
    BlockAt(bs, i);
    BlockLines(bs, i);
    if i == |bs| - 1 {
      LastBlockLines(bs);
    }
  }

  lemma SliceOf(bs: seq<Block>, i: nat, ls: seq<string>) returns (b: Block, k: nat)
    requires WellFormed(bs) && i < |bs| && ls == Render(bs)
    ensures b == bs[i]
    ensures k + |Raw(b)| <= |ls| && ls[k..k + |Raw(b)|] == Raw(b) && GoodBlock(b, k + |Raw(b)| == |ls|)
  {
    BlockSlice(bs, i, ls);
    b, k := bs[i], |Render(bs[..i])|;
  }

  lemma TextBlocks(text: string, i: nat) returns (bs: seq<Block>)
    requires i < |Segments(text)|
    ensures WellFormed(bs) && Render(bs) == SplitLines(text) && i < |bs| && Segments(text)[i] == ToSegment(bs[i])
  {
    ParseIsFaithful(SplitLines(text));
    bs := Parse(SplitLines(text));
    SegmentAt(bs);
  }

  /** The block behind segment `i`, and where its lines start. */
  lemma BlockBehind(text: string, ls: seq<string>, i: nat) returns (b: Block, k: nat)
    requires i < |Segments(text)| && ls == SplitLines(text)
    ensures Segments(text)[i] == ToSegment(b)
    ensures k + |Raw(b)| <= |ls| && ls[k..k + |Raw(b)|] == Raw(b) && GoodBlock(b, k + |Raw(b)| == |ls|)
  {
    var bs := TextBlocks(text, i);
    b, k := SliceOf(bs, i, ls);
  }

  lemma PartsInOrder(b: Block)
    requires b.Conflict?
    ensures var s := ToSegment(b);
      && s.ours == Join(b.ours) && s.theirs == Join(b.theirs)
      && s.raw == b.open + s.ours + (if b.divider.Some? then b.divider.value else "") + s.theirs
                  + (if b.close.Some? then b.close.value else "")
  {
    JoinConflict(b.open, b.ours, b.divider, b.theirs, b.close);
    JoinOpt(b.divider);
    JoinOpt(b.close);
  }

  /** What a conflict holds: consecutive lines of the text from an opening line on, ours up to the
      first divider, and theirs from there up to the first closing line; its raw text is these parts
      in order. Divider and closing line are missing only where the text ends first. */
  lemma ConflictParts(text: string, i: nat)
    returns (k: nat, open: string, ours: seq<string>, divider: Option<string>, theirs: seq<string>,
             close: Option<string>)
    requires i < |Segments(text)| && Segments(text)[i].ConflictText?
    ensures var s := Segments(text)[i];
      && s.ours == Join(ours) && s.theirs == Join(theirs)
      && s.raw == open + s.ours + (if divider.Some? then divider.value else "") + s.theirs
                  + (if close.Some? then close.value else "")
    ensures var parts := [open] + ours + Opt(divider) + theirs + Opt(close);
      && k + |parts| <= |SplitLines(text)| && SplitLines(text)[k..k + |parts|] == parts
      && (close.None? ==> k + |parts| == |SplitLines(text)|)
    ensures "<<<<<<< " <= open && (divider.Some? ==> "=======" <= divider.value)
    ensures (close.Some? ==> ">>>>>>> " <= close.value) && (divider.None? ==> theirs == [] && close.None?)
    ensures (forall l :: l in ours ==> !("=======" <= l)) && forall l :: l in theirs ==> !(">>>>>>> " <= l)
  {
    var b;
    b, k := BlockBehind(text, SplitLines(text), i);
    open, ours, divider, theirs, close := b.open, b.ours, b.divider, b.theirs, b.close;
    PartsInOrder(b);
  }

  /** A plain segment is consecutive lines of the text, none of which opens a conflict. */
  lemma PlainParts(text: string, i: nat) returns (k: nat, lines: seq<string>)
    requires i < |Segments(text)| && Segments(text)[i].PlainText?
    ensures k + |lines| <= |SplitLines(text)| && SplitLines(text)[k..k + |lines|] == lines
    ensures Segments(text)[i].text == Join(lines) && forall l :: l in lines ==> !("<<<<<<< " <= l)
  {
    var b;
    b, k := BlockBehind(text, SplitLines(text), i);
    lines := b.lines;
  }

  /** Plain segments are non-empty and never adjacent. */
  lemma PlainSegmentsAreSeparate(text: string)
    ensures forall i :: 0 <= i < |Segments(text)| && Segments(text)[i].PlainText? ==>
      Segments(text)[i].text != "" && (i + 1 < |Segments(text)| ==> Segments(text)[i + 1].ConflictText?)
  {
    var ls := SplitLines(text);
    var bs := Parse(ls);
    JoinSplit(text);
    ParseIsFaithful(ls);
    SegmentAt(bs);
    forall i | 0 <= i < |bs| && bs[i].Plain?
      ensures Join(bs[i].lines) != "" && (i + 1 < |bs| ==> bs[i + 1].Conflict?)
    {
      BlockAt(bs, i);
      assert bs[i].lines[0] in Raw(bs[i]);
    }
  }

  lemma {:induction false} BlockAt(bs: seq<Block>, i: nat)
    requires WellFormed(bs) && i < |bs|
    ensures GoodBlock(bs[i], i == |bs| - 1) && (i + 1 < |bs| && bs[i].Plain? ==> bs[i + 1].Conflict?)
    ensures forall l :: l in Raw(bs[i]) ==> l in Render(bs)
  {
    if i > 0 {
      BlockAt(bs[1..], i - 1);
    }
  }
}
