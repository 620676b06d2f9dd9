/** The bound on what a resolver may change: the plain segments must survive, in order. */
module BlastRadius {
  import opened Seqs
  import opened ConflictSplit

  // ----- leftmost search

  predicate OccursAt(hay: string, needle: string, i: nat) {
    i + |needle| <= |hay| && hay[i..i + |needle|] == needle
  }

  /** The leftmost occurrence from `pos` on. */
  function Find(hay: string, needle: string, pos: nat): (at: Option<nat>)
    ensures at.Some? ==> pos <= at.value && OccursAt(hay, needle, at.value)
    ensures at.Some? ==> forall i :: pos <= i < at.value ==> !OccursAt(hay, needle, i)
    ensures at.None? ==> forall i :: pos <= i ==> !OccursAt(hay, needle, i)
    decreases |hay| - pos
  {
    if pos + |needle| > |hay| then None
    else if OccursAt(hay, needle, pos) then Some(pos)
    else Find(hay, needle, pos + 1)
  }

  /** Greedy: take each plain text where it is found first, and go on after it. */
  predicate Matches(plains: seq<string>, resolved: string, pos: nat) {
    plains == []
    || (var at := Find(resolved, plains[0], pos);
        at.Some? && Matches(plains[1..], resolved, at.value + |plains[0]|))
  }

  /** Starting further left loses nothing: the exchange step behind the greedy choice. */
  lemma {:induction false} EarlierStartIsNoWorse(plains: seq<string>, resolved: string, early: nat, late: nat)
    requires early <= late && Matches(plains, resolved, late)
    ensures Matches(plains, resolved, early)
    decreases |plains|
  {
    if plains != [] {
      var there := Find(resolved, plains[0], late).value;
      var here := Find(resolved, plains[0], early);
      assert OccursAt(resolved, plains[0], there);
      assert here.Some? && here.value <= there;
      EarlierStartIsNoWorse(plains[1..], resolved, here.value + |plains[0]|, there + |plains[0]|);
    }
  }

  // ----- any gaps at all

  /** Gap, plain, gap, plain, ..., gap. */
  function Weave(gaps: seq<string>, plains: seq<string>): string
    requires |gaps| == |plains| + 1
  {
    if plains == [] then gaps[0] else gaps[0] + plains[0] + Weave(gaps[1..], plains[1..])
  }

  ghost predicate Survives(plains: seq<string>, resolved: string) {
    exists gaps :: IsWeave(gaps, plains, resolved)
  }

  ghost predicate IsWeave(gaps: seq<string>, plains: seq<string>, resolved: string) {
    |gaps| == |plains| + 1 && resolved == Weave(gaps, plains)
  }

  lemma RegroupGap<T>(before: seq<T>, gap: seq<T>, p: seq<T>, rest: seq<T>)
    ensures before + (gap + p + rest) == before + gap + p + rest
  {
  }

  lemma OccursBetween(front: string, p: string, rest: string)
    ensures OccursAt(front + p + rest, p, |front|)
  {
    var r := front + p + rest;
    assert forall k :: 0 <= k < |p| ==> r[|front| + k] == p[k];
  }

  lemma MatchesFrom(plains: seq<string>, resolved: string, pos: nat, i: nat)
    requires plains != [] && pos <= i && OccursAt(resolved, plains[0], i)
    requires Matches(plains[1..], resolved, i + |plains[0]|)
    ensures Matches(plains, resolved, pos)
  {
    var at := Find(resolved, plains[0], pos);
    assert at.Some? && at.value <= i;
    EarlierStartIsNoWorse(plains[1..], resolved, at.value + |plains[0]|, i + |plains[0]|);
  }

  /** The next plain text sits right after `front`, wherever the search for it starts. */
  lemma WovenStep(plains: seq<string>, front: string, rest: string, pos: nat)
    requires plains != [] && pos <= |front|
    requires Matches(plains[1..], front + plains[0] + rest, |front| + |plains[0]|)
    ensures Matches(plains, front + plains[0] + rest, pos)
  {
    OccursBetween(front, plains[0], rest);
    MatchesFrom(plains, front + plains[0] + rest, pos, |front|);
  }

  lemma {:induction false} WovenIsAccepted(gaps: seq<string>, plains: seq<string>, before: string)
    requires |gaps| == |plains| + 1
    ensures Matches(plains, before + Weave(gaps, plains), |before|)
    decreases |plains|
  {
    if plains != [] {
      var front, rest := before + gaps[0], Weave(gaps[1..], plains[1..]);
      WovenIsAccepted(gaps[1..], plains[1..], front + plains[0]);
      WovenStep(plains, front, rest, |before|);
      RegroupGap(before, gaps[0], plains[0], rest);
    }
  }

  /** The gaps the greedy match leaves. */
  function Gaps(plains: seq<string>, resolved: string, pos: nat): (gaps: seq<string>)
    requires pos <= |resolved| && Matches(plains, resolved, pos)
    ensures |gaps| == |plains| + 1
  {
    if plains == [] then [resolved[pos..]]
    else
      var at := Find(resolved, plains[0], pos).value;
      [resolved[pos..at]] + Gaps(plains[1..], resolved, at + |plains[0]|)
  }

  lemma {:induction false} AcceptedIsWoven(plains: seq<string>, resolved: string, pos: nat)
    requires pos <= |resolved| && Matches(plains, resolved, pos)
    ensures Weave(Gaps(plains, resolved, pos), plains) == resolved[pos..]
    decreases |plains|
  {
    if plains != [] {
      var at := Find(resolved, plains[0], pos).value;
      var after := at + |plains[0]|;
      AcceptedIsWoven(plains[1..], resolved, after);
      var gaps := Gaps(plains, resolved, pos);
      assert gaps[1..] == Gaps(plains[1..], resolved, after);
      assert resolved[pos..] == resolved[pos..at] + resolved[at..after] + resolved[after..];
    }
  }

  /** The greedy matcher accepts exactly the texts that hold the plain texts in order. */
  lemma GreedyIsExact(plains: seq<string>, resolved: string)
    ensures Matches(plains, resolved, 0) <==> Survives(plains, resolved)
  {
    if Matches(plains, resolved, 0) {
      AcceptedIsWoven(plains, resolved, 0);
      assert resolved[0..] == resolved;
      assert IsWeave(Gaps(plains, resolved, 0), plains, resolved);
    }
    if Survives(plains, resolved) {
      var gaps :| IsWeave(gaps, plains, resolved);
      WovenIsAccepted(gaps, plains, "");
      assert "" + Weave(gaps, plains) == resolved;
    }
  }

  // ----- on segments

  predicate HasText(s: Segment) { s.PlainText? && s.text != "" }

  function PlainTexts(segs: seq<Segment>): seq<string> {
    if segs == [] then []
    else (if HasText(segs[0]) then [segs[0].text] else []) + PlainTexts(segs[1..])
  }

  /** One segment of the loop: what is left to match, and from where. */
  lemma MatchSegment(segs: seq<Segment>, resolved: string, pos: nat)
    requires segs != []
    ensures !HasText(segs[0]) ==> PlainTexts(segs) == PlainTexts(segs[1..])
    ensures HasText(segs[0]) ==>
      var at := Find(resolved, segs[0].text, pos);
      Matches(PlainTexts(segs), resolved, pos)
      <==> at.Some? && Matches(PlainTexts(segs[1..]), resolved, at.value + |segs[0].text|)
  {
    var rest := PlainTexts(segs[1..]);
    if HasText(segs[0]) {
      assert PlainTexts(segs) == [segs[0].text] + rest && ([segs[0].text] + rest)[1..] == rest;
    } else {
      assert PlainTexts(segs) == [] + rest;
    }
  }

  /** The check itself: advance past each plain segment's first occurrence, or give up. */
  method BlastRadiusOk(original: string, resolved: string) returns (ok: bool)
    ensures ok <==> Survives(PlainTexts(Segments(original)), resolved)
  {
    var segs, _ := SplitConflicts(original);
    GreedyIsExact(PlainTexts(segs), resolved);
    SegmentsMatchPlains(segs, resolved, 0, 0);
    assert segs[0..] == segs;
    ok := MatchSegments(segs, resolved);
  }

  /** The greedy match, segment by segment from the `k`-th. */
  predicate SegmentsMatch(segs: seq<Segment>, resolved: string, k: nat, pos: nat)
    requires k <= |segs|
    decreases |segs| - k
  {
    if k == |segs| then true
    else if !HasText(segs[k]) then SegmentsMatch(segs, resolved, k + 1, pos)
    else
      var at := Find(resolved, segs[k].text, pos);
      at.Some? && SegmentsMatch(segs, resolved, k + 1, at.value + |segs[k].text|)
  }

  lemma {:induction false} SegmentsMatchPlains(segs: seq<Segment>, resolved: string, k: nat, pos: nat)
    requires k <= |segs|
    ensures SegmentsMatch(segs, resolved, k, pos) <==> Matches(PlainTexts(segs[k..]), resolved, pos)
    decreases |segs| - k
  {
    if k < |segs| {
      MatchSegment(segs[k..], resolved, pos);
      assert segs[k..][1..] == segs[k + 1..];
      if !HasText(segs[k]) {
        SegmentsMatchPlains(segs, resolved, k + 1, pos);
      } else if Find(resolved, segs[k].text, pos).Some? {
        SegmentsMatchPlains(segs, resolved, k + 1, Find(resolved, segs[k].text, pos).value + |segs[k].text|);
      }
    } else {
      assert segs[k..] == [];
    }
  }

  method MatchSegments(segs: seq<Segment>, resolved: string) returns (ok: bool)
    ensures ok == SegmentsMatch(segs, resolved, 0, 0)
  {
    var pos: nat := 0;
    var k := 0;
    while k < |segs|
      invariant 0 <= k <= |segs|
      invariant SegmentsMatch(segs, resolved, 0, 0) == SegmentsMatch(segs, resolved, k, pos)
    {
      if HasText(segs[k]) {
        var at := Find(resolved, segs[k].text, pos);
        if at.None? {
          return false;
        }
        pos := at.value + |segs[k].text|;
      }
      k := k + 1;
    }
    ok := true;
  }

  /** The text with its k-th conflict replaced by the k-th answer. */
  function Resolved(segs: seq<Segment>, answers: seq<string>): string
    requires |answers| == |segs|
  {
    if segs == [] then ""
    else (if segs[0].PlainText? then segs[0].text else answers[0]) + Resolved(segs[1..], answers[1..])
  }

  /** Whatever goes into the gap before a weave, the result is a weave. */
  lemma WeavePrefix(extra: string, plains: seq<string>, rest: string)
    requires Survives(plains, rest)
    ensures Survives(plains, extra + rest)
  {
    var gaps :| IsWeave(gaps, plains, rest);
    var wider := gaps[0 := extra + gaps[0]];
    assert wider[1..] == gaps[1..];
    assert Weave(wider, plains) == extra + rest by {
      if plains != [] {
        var tail := Weave(gaps[1..], plains[1..]);
        assert (extra + gaps[0]) + plains[0] + tail == extra + (gaps[0] + plains[0] + tail);
      }
    }
    assert IsWeave(wider, plains, extra + rest);
  }

  lemma WeavePlain(p: string, plains: seq<string>, rest: string)
    requires Survives(plains, rest)
    ensures Survives([p] + plains, p + rest)
  {
    var gaps :| IsWeave(gaps, plains, rest);
    assert ([""] + gaps)[1..] == gaps && ([p] + plains)[1..] == plains;
    assert "" + p + rest == p + rest;
    assert IsWeave([""] + gaps, [p] + plains, p + rest);
  }

  lemma {:induction false} ResolvedSurvives(segs: seq<Segment>, answers: seq<string>)
    requires |answers| == |segs|
    ensures Survives(PlainTexts(segs), Resolved(segs, answers))
    decreases |segs|
  {
    if segs == [] {
      assert IsWeave([""], [], "");
    } else {
      var rest := Resolved(segs[1..], answers[1..]);
      ResolvedSurvives(segs[1..], answers[1..]);
      if HasText(segs[0]) {
        WeavePlain(segs[0].text, PlainTexts(segs[1..]), rest);
      } else {
        assert PlainTexts(segs) == PlainTexts(segs[1..]);
        WeavePrefix(if segs[0].PlainText? then segs[0].text else answers[0], PlainTexts(segs[1..]), rest);
      }
    }
  }

  /** Every answer that replaces only the conflicts passes the check. */
  lemma OnlyConflictsReplacedIsAccepted(original: string, answers: seq<string>)
    requires |answers| == |Segments(original)|
    ensures Matches(PlainTexts(Segments(original)), Resolved(Segments(original), answers), 0)
  {
    var segs := Segments(original);
    ResolvedSurvives(segs, answers);
    GreedyIsExact(PlainTexts(segs), Resolved(segs, answers));
  }

  // ----- when acceptance means that nothing but the conflicts changed

  ghost predicate OnlyConflictsChanged(segs: seq<Segment>, resolved: string) {
    exists answers :: IsAnswer(answers, segs, resolved)
  }

  ghost predicate IsAnswer(answers: seq<string>, segs: seq<Segment>, resolved: string) {
    |answers| == |segs| && Resolved(segs, answers) == resolved
  }

  predicate Alternates(segs: seq<Segment>) {
    segs == []
    || ((segs[0].PlainText? ==> segs[0].text != "" && (|segs| > 1 ==> segs[1].ConflictText?))
        && Alternates(segs[1..]))
  }

  /** The file begins and ends in a conflict, so that every gap is a conflict's place. */
  predicate Enclosed(segs: seq<Segment>) {
    segs != [] && segs[0].ConflictText? && segs[|segs| - 1].ConflictText?
  }

  lemma {:induction false} SegmentsAlternate(segs: seq<Segment>)
    requires forall i :: 0 <= i < |segs| && segs[i].PlainText? ==>
      segs[i].text != "" && (i + 1 < |segs| ==> segs[i + 1].ConflictText?)
    ensures Alternates(segs)
  {
    if segs != [] {
      assert forall i :: 0 <= i < |segs[1..]| ==> segs[1..][i] == segs[i + 1];
      SegmentsAlternate(segs[1..]);
    }
  }

  lemma Skip(segs: seq<Segment>, answer: string, resolved: string)
    requires segs != [] && OnlyConflictsChanged(segs[1..], resolved)
    ensures OnlyConflictsChanged(segs, (if segs[0].PlainText? then segs[0].text else answer) + resolved)
  {
    var answers :| IsAnswer(answers, segs[1..], resolved);
    assert ([answer] + answers)[1..] == answers;
    assert IsAnswer([answer] + answers, segs,
                    (if segs[0].PlainText? then segs[0].text else answer) + resolved);
  }

  /** A conflict, a plain segment, and a tail whose conflicts alone changed. */
  lemma GapThenPlain(segs: seq<Segment>, gap: string, tail: string)
    requires |segs| >= 2 && segs[0].ConflictText? && segs[1].PlainText?
    requires OnlyConflictsChanged(segs[2..], tail)
    ensures OnlyConflictsChanged(segs, gap + segs[1].text + tail)
  {
    assert segs[1..][1..] == segs[2..];
    Skip(segs[1..], "", tail);
    Skip(segs, gap, segs[1].text + tail);
    assert gap + segs[1].text + tail == gap + (segs[1].text + tail);
  }

  lemma PlainsOfPair(segs: seq<Segment>)
    requires |segs| >= 2 && segs[0].ConflictText? && HasText(segs[1])
    ensures PlainTexts(segs) == [segs[1].text] + PlainTexts(segs[2..])
  {
    assert segs[1..][1..] == segs[2..];
    assert [] + PlainTexts(segs[1..]) == PlainTexts(segs[1..]);
  }

  lemma {:induction false} GapsAreConflicts(segs: seq<Segment>, gaps: seq<string>)
    requires Alternates(segs) && Enclosed(segs) && |gaps| == |PlainTexts(segs)| + 1
    ensures OnlyConflictsChanged(segs, Weave(gaps, PlainTexts(segs)))
    decreases |segs|
  {
    if |segs| == 1 {
      assert PlainTexts(segs) == [];
      assert IsAnswer(gaps, segs, gaps[0]) by {
        assert gaps[0] + "" == gaps[0];
      }
    } else if segs[1].ConflictText? {
      assert PlainTexts(segs) == PlainTexts(segs[1..]);
      GapsAreConflicts(segs[1..], gaps);
      Skip(segs, "", Weave(gaps, PlainTexts(segs)));
      assert "" + Weave(gaps, PlainTexts(segs)) == Weave(gaps, PlainTexts(segs));
    } else {
      EnclosedTail(segs);
      PlainsOfPair(segs);
      var plains := PlainTexts(segs);
      assert plains[1..] == PlainTexts(segs[2..]);
      GapsAreConflicts(segs[2..], gaps[1..]);
      GapThenPlain(segs, gaps[0], Weave(gaps[1..], plains[1..]));
    }
  }

  lemma EnclosedTail(segs: seq<Segment>)
    requires Alternates(segs) && Enclosed(segs) && |segs| >= 2 && segs[1].PlainText?
    ensures HasText(segs[1]) && |segs| > 2 && Alternates(segs[2..]) && Enclosed(segs[2..])
  {
    assert segs[1..][1..] == segs[2..] && Alternates(segs[1..]);
  }

  /** Text may be added before the file, conflicts or not. */
  lemma PrependedTextIsAccepted(original: string, extra: string)
    ensures Survives(PlainTexts(Segments(original)), extra + original)
  {
    OriginalSurvives(original);
    WeavePrefix(extra, PlainTexts(Segments(original)), original);
  }

  lemma OriginalSurvives(original: string)
    ensures Survives(PlainTexts(Segments(original)), original)
  {
    var segs := Segments(original);
    SegmentsConcatenate(original);
    var raws := seq(|segs|, i requires 0 <= i < |segs| => Text(segs[i]));
    ResolvedRaw(segs, raws);
    ResolvedSurvives(segs, raws);
  }

  /** Text may be added after the file. */
  lemma AppendedTextIsAccepted(original: string, extra: string)
    ensures Survives(PlainTexts(Segments(original)), original + extra)
  {
    var plains := PlainTexts(Segments(original));
    OriginalSurvives(original);
    var gaps :| IsWeave(gaps, plains, original);
    WeaveSuffix(gaps, plains, extra);
  }

  lemma {:induction false} WeaveSuffix(gaps: seq<string>, plains: seq<string>, extra: string)
    requires |gaps| == |plains| + 1
    ensures Survives(plains, Weave(gaps, plains) + extra)
    decreases |plains|
  {
    if plains == [] {
      assert IsWeave([gaps[0] + extra], plains, gaps[0] + extra);
    } else {
      var rest := Weave(gaps[1..], plains[1..]);
      WeaveSuffix(gaps[1..], plains[1..], extra);
      WeavePlain(plains[0], plains[1..], rest + extra);
      assert [plains[0]] + plains[1..] == plains;
      WeavePrefix(gaps[0], plains, plains[0] + (rest + extra));
      assert gaps[0] + (plains[0] + (rest + extra)) == gaps[0] + plains[0] + rest + extra;
    }
  }

  lemma {:induction false} AnswersKeepTheEnd(segs: seq<Segment>, answers: seq<string>)
    requires segs != [] && |answers| == |segs| && segs[|segs| - 1].PlainText?
    ensures var p, r := segs[|segs| - 1].text, Resolved(segs, answers);
      |p| <= |r| && r[|r| - |p|..] == p
    decreases |segs|
  {
    if |segs| > 1 {
      AnswersKeepTheEnd(segs[1..], answers[1..]);
    } else {
      assert Resolved(segs[1..], answers[1..]) == "";
    }
  }

  function Other(c: char): char { if c == 'a' then 'b' else 'a' }

  /** A file that does not begin and end in a conflict lets some further change through. */
  lemma UnenclosedLetsChangesThrough(original: string) returns (resolved: string)
    requires var segs := Segments(original); Alternates(segs) && !Enclosed(segs)
    ensures Survives(PlainTexts(Segments(original)), resolved)
    ensures !OnlyConflictsChanged(Segments(original), resolved)
  {
    var segs := Segments(original);
    var k := |segs| - 1;
    if segs == [] || segs[0].PlainText? {
      var extra := if segs == [] then "a" else [Other(segs[0].text[0])];
      resolved := extra + original;
      PrependedTextIsAccepted(original, extra);
      assert resolved[0] == extra[0];
    } else {
      AlternatesAt(segs, k);
      var c := Other(segs[k].text[|segs[k].text| - 1]);
      resolved := original + [c];
      AppendedTextIsAccepted(original, [c]);
      assert resolved[|resolved| - 1] == c;
      forall answers | |answers| == |segs| ensures Resolved(segs, answers) != resolved {
        AnswersKeepTheEnd(segs, answers);
      }
    }
  }

  lemma {:induction false} AlternatesAt(segs: seq<Segment>, i: nat)
    requires Alternates(segs) && i < |segs|
    ensures segs[i].PlainText? ==> segs[i].text != ""
  {
    if i > 0 {
      AlternatesAt(segs[1..], i - 1);
    }
  }

  /** Acceptance means that only conflicts changed exactly for the files that begin and end
      in a conflict; every other file admits added text at an end that holds none. */
  lemma AcceptanceBoundsTheChange(original: string)
    ensures (forall resolved :: Survives(PlainTexts(Segments(original)), resolved) ==>
               OnlyConflictsChanged(Segments(original), resolved)) <==> Enclosed(Segments(original))
  {
    var segs := Segments(original);
    PlainSegmentsAreSeparate(original);
    SegmentsAlternate(segs);
    if Enclosed(segs) {
      forall resolved | Survives(PlainTexts(segs), resolved) ensures OnlyConflictsChanged(segs, resolved) {
        var gaps :| IsWeave(gaps, PlainTexts(segs), resolved);
        GapsAreConflicts(segs, gaps);
      }
    } else {
      var resolved := UnenclosedLetsChangesThrough(original);
    }
  }

  lemma {:induction false} ResolvedRaw(segs: seq<Segment>, raws: seq<string>)
    requires |raws| == |segs| && forall i :: 0 <= i < |segs| ==> raws[i] == Text(segs[i])
    ensures Resolved(segs, raws) == TextOf(segs)
    decreases |segs|
  {
    if segs != [] {
      ResolvedRaw(segs[1..], raws[1..]);
      TextOfCons(segs);
    }
  }

  lemma {:induction false} TextOfCons(segs: seq<Segment>)
    requires segs != []
    ensures TextOf(segs) == Text(segs[0]) + TextOf(segs[1..])
    decreases |segs|
  {
    if |segs| > 1 {
      var front := segs[..|segs| - 1];
      TextOfCons(front);
      assert front[1..] == segs[1..][..|segs| - 2];
      Associates(Text(segs[0]), TextOf(front[1..]), Text(segs[|segs| - 1]));
    } else {
      assert segs[..0] == [] && segs[1..] == [];
    }
  }
}
