/** When a given resolution that passes the check changes nothing but conflicts. */
module BlastBound {
  import opened Seqs
  import opened ConflictSplit
  import opened BlastRadius

  predicate EndsWith(t: string, p: string) { |p| <= |t| && t[|t| - |p|..] == p }

  /** The resolution keeps what the file has outside its first and last conflict: it begins with a
      leading plain segment, ends with a trailing one, and is the file when there is no conflict. */
  predicate KeepsEnds(segs: seq<Segment>, resolved: string) {
    && (segs == [] || (|segs| == 1 && segs[0].PlainText?) ==> resolved == TextOf(segs))
    && (segs != [] && segs[0].PlainText? ==> segs[0].text <= resolved)
    && (segs != [] && segs[|segs| - 1].PlainText? ==> EndsWith(resolved, segs[|segs| - 1].text))
  }

  lemma AnswersKeepEnds(segs: seq<Segment>, answers: seq<string>)
    requires |answers| == |segs|
    ensures KeepsEnds(segs, Resolved(segs, answers))
  {
    if segs != [] && segs[|segs| - 1].PlainText? {
      AnswersKeepTheEnd(segs, answers);
    }
    if |segs| == 1 && segs[0].PlainText? {
      assert segs[..0] == [] && segs[1..] == [];
      assert Resolved(segs, answers) == segs[0].text + "" == TextOf(segs);
    }
  }

  // ----- taking a plain segment off either end

  /** What is left after a leading plain text that the resolution begins with. */
  lemma DropFirst(p: string, plains: seq<string>, resolved: string)
    requires Survives([p] + plains, resolved) && p <= resolved
    ensures Survives(plains, resolved[|p|..])
  {
    assert ([p] + plains)[1..] == plains && ([p] + plains)[0] == p;
    GreedyIsExact([p] + plains, resolved);
    assert OccursAt(resolved, p, 0) && Find(resolved, p, 0) == Some(0);
    AcceptedIsWoven(plains, resolved, |p|);
    assert IsWeave(Gaps(plains, resolved, |p|), plains, resolved[|p|..]);
  }

  /** A weave ends in its last plain text and a last gap. */
  lemma {:induction false} LastGap(gaps: seq<string>, plains: seq<string>, p: string)
    returns (front: string, gap: string)
    requires |gaps| == |plains| + 2
    ensures Weave(gaps, plains + [p]) == front + p + gap && Survives(plains, front)
    decreases |plains|
  {
    if plains == [] {
      front, gap := gaps[0], gaps[1];
      assert plains + [p] == [p] && [p][1..] == [];
      assert gaps[1..][0] == gap;
      assert IsWeave([front], [], front);
    } else {
      assert (plains + [p])[1..] == plains[1..] + [p];
      var rest;
      rest, gap := LastGap(gaps[1..], plains[1..], p);
      front := gaps[0] + plains[0] + rest;
      assert gaps[0] + plains[0] + (rest + p + gap) == front + p + gap;
      WeavePlain(plains[0], plains[1..], rest);
      assert [plains[0]] + plains[1..] == plains;
      WeavePrefix(gaps[0], plains, plains[0] + rest);
      assert gaps[0] + (plains[0] + rest) == front;
    }
  }

  lemma SurvivesLonger(plains: seq<string>, text: string, extra: string)
    requires Survives(plains, text)
    ensures Survives(plains, text + extra)
  {
    var gaps :| IsWeave(gaps, plains, text);
    WeaveSuffix(gaps, plains, extra);
  }

  /** What is left before a trailing plain text that the resolution ends with. */
  lemma DropLast(p: string, plains: seq<string>, resolved: string)
    requires Survives(plains + [p], resolved) && EndsWith(resolved, p)
    ensures Survives(plains, resolved[..|resolved| - |p|])
  {
    var gaps :| IsWeave(gaps, plains + [p], resolved);
    var front, gap := LastGap(gaps, plains, p);
    var left := resolved[..|resolved| - |p|];
    assert resolved == front + p + gap;
    assert |front| <= |left| && left[..|front|] == front;
    SurvivesLonger(plains, front, left[|front|..]);
    assert front + left[|front|..] == left;
  }

  /** Even a plain text that must still follow fits in what the resolution has left. */
  lemma LastFits(p: string, plains: seq<string>, resolved: string)
    requires Survives(plains + [p], resolved)
    ensures |p| <= |resolved|
  {
    var gaps :| IsWeave(gaps, plains + [p], resolved);
    var front, gap := LastGap(gaps, plains, p);
  }

  // ----- the segments that go with it

  lemma {:induction false} PlainTextsSnoc(segs: seq<Segment>, s: Segment)
    ensures PlainTexts(segs + [s]) == PlainTexts(segs) + if HasText(s) then [s.text] else []
    decreases |segs|
  {
    if segs == [] {
      assert [s][1..] == [] && segs + [s] == [s];
    } else {
      PlainTextsSnoc(segs[1..], s);
      assert (segs + [s])[1..] == segs[1..] + [s];
      var first, last := if HasText(segs[0]) then [segs[0].text] else [], if HasText(s) then [s.text] else [];
      Associates(first, PlainTexts(segs[1..]), last);
    }
  }

  lemma {:induction false} ResolvedSnoc(segs: seq<Segment>, answers: seq<string>, s: Segment, answer: string)
    requires |answers| == |segs|
    ensures Resolved(segs + [s], answers + [answer])
         == Resolved(segs, answers) + if s.PlainText? then s.text else answer
    decreases |segs|
  {
    var last := if s.PlainText? then s.text else answer;
    if segs == [] {
      assert [s][1..] == [] && segs + [s] == [s] && answers + [answer] == [answer];
      assert last + "" == last && "" + last == last;
    } else {
      ResolvedSnoc(segs[1..], answers[1..], s, answer);
      assert (segs + [s])[1..] == segs[1..] + [s] && (answers + [answer])[1..] == answers[1..] + [answer];
      var first := if segs[0].PlainText? then segs[0].text else answers[0];
      Associates(first, Resolved(segs[1..], answers[1..]), last);
    }
  }

  lemma AddLast(segs: seq<Segment>, s: Segment, resolved: string)
    requires s.PlainText? && OnlyConflictsChanged(segs, resolved)
    ensures OnlyConflictsChanged(segs + [s], resolved + s.text)
  {
    var answers :| IsAnswer(answers, segs, resolved);
    ResolvedSnoc(segs, answers, s, "");
    assert IsAnswer(answers + [""], segs + [s], resolved + s.text);
  }

  lemma {:induction false} AlternatesFront(segs: seq<Segment>, s: Segment)
    requires Alternates(segs + [s])
    ensures Alternates(segs) && (segs != [] && s.PlainText? ==> segs[|segs| - 1].ConflictText?)
    ensures s.PlainText? ==> s.text != ""
    decreases |segs|
  {
    if segs != [] {
      assert (segs + [s])[1..] == segs[1..] + [s];
      AlternatesFront(segs[1..], s);
    } else {
      assert segs + [s] == [s];
    }
  }

  lemma EnclosedBound(segs: seq<Segment>, resolved: string)
    requires Alternates(segs) && Enclosed(segs) && Survives(PlainTexts(segs), resolved)
    ensures OnlyConflictsChanged(segs, resolved)
  {
    var gaps :| IsWeave(gaps, PlainTexts(segs), resolved);
    GapsAreConflicts(segs, gaps);
  }

  lemma TrailingPlain(front: seq<Segment>, s: Segment, resolved: string)
    requires front != [] && front[0].ConflictText? && HasText(s) && Alternates(front + [s])
    requires Survives(PlainTexts(front + [s]), resolved) && EndsWith(resolved, s.text)
    ensures OnlyConflictsChanged(front + [s], resolved)
  {
    var left := resolved[..|resolved| - |s.text|];
    AlternatesFront(front, s);
    PlainTextsSnoc(front, s);
    DropLast(s.text, PlainTexts(front), resolved);
    EnclosedBound(front, left);
    AddLast(front, s, left);
    assert left + s.text == resolved;
  }

  /** From a leading conflict on. */
  lemma FromConflict(segs: seq<Segment>, resolved: string)
    requires segs != [] && segs[0].ConflictText? && Alternates(segs)
    requires Survives(PlainTexts(segs), resolved)
    requires segs[|segs| - 1].PlainText? ==> EndsWith(resolved, segs[|segs| - 1].text)
    ensures OnlyConflictsChanged(segs, resolved)
  {
    var front, s := segs[..|segs| - 1], segs[|segs| - 1];
    assert segs == front + [s];
    if s.ConflictText? {
      EnclosedBound(segs, resolved);
    } else {
      AlternatesFront(front, s);
      TrailingPlain(front, s, resolved);
    }
  }

  lemma TailEnds(resolved: string, k: nat, p: string)
    requires k <= |resolved| && EndsWith(resolved, p) && |p| <= |resolved[k..]|
    ensures EndsWith(resolved[k..], p)
  {
  }

  /** Cutting the front off a resolution keeps its end, as long as the last plain text still follows. */
  lemma TailKeepsEnd(front: seq<Segment>, s: Segment, resolved: string, k: nat)
    requires HasText(s) && k <= |resolved| && Survives(PlainTexts(front + [s]), resolved[k..])
    requires EndsWith(resolved, s.text)
    ensures EndsWith(resolved[k..], s.text)
  {
    PlainTextsSnoc(front, s);
    LastFits(s.text, PlainTexts(front), resolved[k..]);
    TailEnds(resolved, k, s.text);
  }

  lemma LeadingPlain(segs: seq<Segment>, p: string, resolved: string)
    requires segs != [] && HasText(segs[0]) && segs[0].text == p && p <= resolved
    requires Survives(PlainTexts(segs), resolved)
    ensures Survives(PlainTexts(segs[1..]), resolved[|p|..])
  {
    assert PlainTexts(segs) == [p] + PlainTexts(segs[1..]);
    DropFirst(p, PlainTexts(segs[1..]), resolved);
  }

  lemma TextSplits(p: string, resolved: string)
    requires p <= resolved
    ensures p + resolved[|p|..] == resolved
  {
  }

  lemma FromPlain(segs: seq<Segment>, resolved: string)
    requires |segs| > 1 && segs[0].PlainText? && Alternates(segs) && KeepsEnds(segs, resolved)
    requires Survives(PlainTexts(segs), resolved)
    ensures OnlyConflictsChanged(segs, resolved)
  {
    var p, rest := segs[0].text, segs[1..];
    var front, s := rest[..|rest| - 1], rest[|rest| - 1];
    assert rest == front + [s];
    LeadingPlain(segs, p, resolved);
    if s.PlainText? {
      AlternatesFront(front, s);
      TailKeepsEnd(front, s, resolved, |p|);
    }
    FromConflict(rest, resolved[|p|..]);
    Skip(segs, "", resolved[|p|..]);
    TextSplits(p, resolved);
  }

  lemma KeptEndsBound(segs: seq<Segment>, resolved: string)
    requires Alternates(segs) && KeepsEnds(segs, resolved) && Survives(PlainTexts(segs), resolved)
    ensures OnlyConflictsChanged(segs, resolved)
  {
    if segs == [] {
      assert IsAnswer([], segs, resolved);
    } else if segs[0].ConflictText? {
      FromConflict(segs, resolved);
    } else if |segs| == 1 {
      assert segs[..0] == [] && segs[1..] == [];
      assert Resolved(segs, [""]) == segs[0].text + "" == resolved;
      assert IsAnswer([""], segs, resolved);
    } else {
      FromPlain(segs, resolved);
    }
  }

  /** A resolution changes nothing but conflicts if and only if it passes the check and keeps the
      file's ends: its leading and trailing plain text, or all of it when there is no conflict. */
  lemma OnlyConflictsChangedExactly(original: string, resolved: string)
    ensures OnlyConflictsChanged(Segments(original), resolved) <==>
      Survives(PlainTexts(Segments(original)), resolved) && KeepsEnds(Segments(original), resolved)
  {
    var segs := Segments(original);
    PlainSegmentsAreSeparate(original);
    SegmentsAlternate(segs);
    if OnlyConflictsChanged(segs, resolved) {
      var answers :| IsAnswer(answers, segs, resolved);
      ResolvedSurvives(segs, answers);
      AnswersKeepEnds(segs, answers);
    }
    if Survives(PlainTexts(segs), resolved) && KeepsEnds(segs, resolved) {
      KeptEndsBound(segs, resolved);
    }
  }
}
