/** Moving terminal entries out of the Inbox of the task queue. What an entry line and a status
    are is left to two parameters, `entry` and `status`. */
module QueueArchive {
  import opened Seqs
  import opened BoardArchive
  import opened BoardSettles

  const TERMINAL: set<string> := {"done", "complete", "cancelled", "canceled", "rejected", "archived"}

  predicate IsInbox(l: string) { "## Inbox" <= l }
  predicate IsGoverned(l: string) { "<!-- GOVERNED:START -->" <= l }

  // ----- cutting the region into a preamble and blocks

  /** A block runs from an entry line up to the next one. */
  function Blocks(region: seq<string>, entry: string -> bool): seq<seq<string>> {
    if region == [] then []
    else
      var l, front := region[|region| - 1], Blocks(region[..|region| - 1], entry);
      if entry(l) then front + [[l]]
      else if front == [] then []
      else front[..|front| - 1] + [front[|front| - 1] + [l]]
  }

  function Preamble(region: seq<string>, entry: string -> bool): seq<string> {
    if region == [] then []
    else
      var l, front := region[|region| - 1], region[..|region| - 1];
      Preamble(front, entry) + if Blocks(front, entry) == [] && !entry(l) then [l] else []
  }

  function Concat(bs: seq<seq<string>>): seq<string> {
    if bs == [] then [] else Concat(bs[..|bs| - 1]) + bs[|bs| - 1]
  }

  method QueueBlocks(region: seq<string>, entry: string -> bool)
    returns (preamble: seq<string>, blocks: seq<seq<string>>)
    ensures preamble == Preamble(region, entry) && blocks == Blocks(region, entry)
  {
    preamble, blocks := [], [];
    var cur: Option<seq<string>> := None;
    var i := 0;
    while i < |region|
      invariant 0 <= i <= |region| && preamble == Preamble(region[..i], entry)
      invariant Blocks(region[..i], entry) == if cur.Some? then blocks + [cur.value] else []
      invariant cur.None? ==> blocks == []
    {
      var l := region[i];
      assert region[..i + 1] == region[..i] + [l];
      if entry(l) {
        StartBlock(region[..i], l, entry);
        if cur.Some? {
          blocks := blocks + [cur.value];
        }
        cur := Some([l]);
      } else if cur.None? {
        assert region[..i + 1][..i] == region[..i];
        preamble := preamble + [l];
      } else {
        ExtendBlock(region[..i], blocks, cur.value, l, entry);
        cur := Some(cur.value + [l]);
      }
      i := i + 1;
    }
    assert region[..i] == region;
    if cur.Some? {
      blocks := blocks + [cur.value];
    }
  }

  ghost predicate IsBlock(b: seq<string>, entry: string -> bool) {
    b != [] && entry(b[0]) && forall j :: 1 <= j < |b| ==> !entry(b[j])
  }

  ghost predicate AllBlocks(bs: seq<seq<string>>, entry: string -> bool) { forall b :: b in bs ==> IsBlock(b, entry) }
  ghost predicate NoEntry(ls: seq<string>, entry: string -> bool) { forall l :: l in ls ==> !entry(l) }

  /** Cutting loses nothing. */
  lemma {:induction false} CutIsFaithful(region: seq<string>, entry: string -> bool)
    ensures Preamble(region, entry) + Concat(Blocks(region, entry)) == region
    ensures Blocks(region, entry) != [] || Preamble(region, entry) == region
  {
    if region != [] {
      var n := |region| - 1;
      var l, p, front := region[n], Preamble(region[..n], entry), Blocks(region[..n], entry);
      CutIsFaithful(region[..n], entry);
      assert region == region[..n] + [l];
      if entry(l) {
        AddLine(p, front, l);
      } else if front != [] {
        GrowLine(p, front, l);
      } else {
        assert p + [] == p;
      }
    }
  }

  lemma AddLine(p: seq<string>, front: seq<seq<string>>, l: string)
    ensures p + [] + Concat(front + [[l]]) == p + Concat(front) + [l]
  {
    assert (front + [[l]])[..|front|] == front;
  }

  lemma GrowLine(p: seq<string>, front: seq<seq<string>>, l: string)
    requires front != []
    ensures p + [] + Concat(front[..|front| - 1] + [front[|front| - 1] + [l]]) == p + Concat(front) + [l]
  {
    var grown := front[..|front| - 1] + [front[|front| - 1] + [l]];
    GrowLast(front, l);
    assert p + [] == p;
    Associates(p, Concat(front), [l]);
    assert p + Concat(grown) == p + (Concat(front) + [l]);
  }

  /** Every block is one entry with its other lines, and none starts before the first entry. */
  lemma {:induction false} CutIsProper(region: seq<string>, entry: string -> bool)
    ensures AllBlocks(Blocks(region, entry), entry) && NoEntry(Preamble(region, entry), entry)
  {
    if region != [] {
      var front := Blocks(region[..|region| - 1], entry);
      CutIsProper(region[..|region| - 1], entry);
      if front != [] {
        assert IsBlock(front[|front| - 1], entry) by { assert front[|front| - 1] in front; }
        assert forall b :: b in front[..|front| - 1] ==> b in front;
      }
    }
  }

  lemma GrowLast(front: seq<seq<string>>, l: string)
    requires front != []
    ensures Concat(front[..|front| - 1] + [front[|front| - 1] + [l]]) == Concat(front) + [l]
  {
    var last := |front| - 1;
    assert (front[..last] + [front[last] + [l]])[..last] == front[..last];
    Associates(Concat(front[..last]), front[last], [l]);
  }

  lemma StartBlock(ls: seq<string>, l: string, entry: string -> bool)
    requires entry(l)
    ensures Blocks(ls + [l], entry) == Blocks(ls, entry) + [[l]] && Preamble(ls + [l], entry) == Preamble(ls, entry)
  {
    assert (ls + [l])[..|ls|] == ls;
    assert Preamble(ls, entry) + [] == Preamble(ls, entry);
  }

  lemma ExtendBlock(ls: seq<string>, front: seq<seq<string>>, b: seq<string>, l: string, entry: string -> bool)
    requires !entry(l) && Blocks(ls, entry) == front + [b]
    ensures Blocks(ls + [l], entry) == front + [b + [l]] && Preamble(ls + [l], entry) == Preamble(ls, entry)
  {
    assert (ls + [l])[..|ls|] == ls;
    assert (front + [b])[..|front|] == front && (front + [b])[|front|] == b;
    assert Preamble(ls, entry) + [] == Preamble(ls, entry);
  }

  lemma {:induction false} AddBlock(ls: seq<string>, b: seq<string>, entry: string -> bool)
    requires IsBlock(b, entry)
    ensures Blocks(ls + b, entry) == Blocks(ls, entry) + [b] && Preamble(ls + b, entry) == Preamble(ls, entry)
    decreases |b|
  {
    if |b| == 1 {
      assert b == [b[0]];
      StartBlock(ls, b[0], entry);
    } else {
      var b', l := b[..|b| - 1], b[|b| - 1];
      assert b == b' + [l];
      AddBlock(ls, b', entry);
      ExtendBlock(ls + b', Blocks(ls, entry), b', l, entry);
      Associates(ls, b', [l]);
    }
  }

  lemma {:induction false} PlainPreamble(p: seq<string>, entry: string -> bool)
    requires NoEntry(p, entry)
    ensures Blocks(p, entry) == [] && Preamble(p, entry) == p
  {
    if p != [] {
      assert p == p[..|p| - 1] + [p[|p| - 1]];
      PlainPreamble(p[..|p| - 1], entry);
    }
  }

  /** Cutting what was put together from a preamble and blocks gives them back. */
  lemma {:induction false} CutBack(p: seq<string>, bs: seq<seq<string>>, entry: string -> bool)
    requires NoEntry(p, entry) && AllBlocks(bs, entry)
    ensures Blocks(p + Concat(bs), entry) == bs && Preamble(p + Concat(bs), entry) == p
  {
    PlainPreamble(p, entry);
    if bs == [] {
      assert p + [] == p;
    } else {
      var front, b := bs[..|bs| - 1], bs[|bs| - 1];
      assert bs == front + [b];
      CutBack(p, front, entry);
      AddBlock(p + Concat(front), b, entry);
      Associates(p, Concat(front), b);
    }
  }

  // ----- which blocks go

  /** The first line that names a status decides. */
  predicate IsTerminal(b: seq<string>, status: string -> Option<string>) {
    if b == [] then false
    else if status(b[0]).Some? then status(b[0]).value in TERMINAL
    else IsTerminal(b[1..], status)
  }

  /** A block goes if and only if its first line with a status names one of the terminal ones. */
  lemma {:induction false} TerminalMeans(b: seq<string>, status: string -> Option<string>)
    ensures IsTerminal(b, status) <==> EndsWithStatus(b, status)
    decreases |b|
  {
    if b != [] {
      if status(b[0]).None? {
        TerminalMeans(b[1..], status);
        if k :| 0 <= k < |b| && FirstStatus(b, status, k) && IsFinal(status(b[k]).value) {
          assert b[1..][k - 1] == b[k];
          assert FirstStatus(b[1..], status, k - 1);
        }
        if k :| 0 <= k < |b[1..]| && FirstStatus(b[1..], status, k) && IsFinal(status(b[1..][k]).value) {
          assert b[k + 1] == b[1..][k];
          assert forall j :: 0 <= j < k + 1 ==> status(b[j]).None? by {
            assert forall j :: 1 <= j < k + 1 ==> b[j] == b[1..][j - 1];
          }
          assert FirstStatus(b, status, k + 1);
        }
      } else {
        assert FirstStatus(b, status, 0);
      }
    }
  }

  predicate IsFinal(s: string) { s in {"done", "complete", "cancelled", "canceled", "rejected", "archived"} }

  /** Line `k` is the first that has a status. */
  predicate FirstStatus(b: seq<string>, status: string -> Option<string>, k: nat)
    requires k < |b|
  {
    status(b[k]).Some? && forall j :: 0 <= j < k ==> status(b[j]).None?
  }

  predicate EndsWithStatus(b: seq<string>, status: string -> Option<string>) {
    exists k :: 0 <= k < |b| && FirstStatus(b, status, k) && IsFinal(status(b[k]).value)
  }

  method IsTerminalQueue(b: seq<string>, status: string -> Option<string>) returns (terminal: bool)
    ensures terminal == IsTerminal(b, status)
  {
    var i := 0;
    assert b[0..] == b;
    while i < |b|
      invariant 0 <= i <= |b| && IsTerminal(b, status) == IsTerminal(b[i..], status)
    {
      assert b[i..][1..] == b[i + 1..];
      if status(b[i]).Some? {
        return status(b[i]).value in TERMINAL;
      }
      i := i + 1;
    }
    terminal := false;
  }

  function Going(status: string -> Option<string>): seq<string> -> bool { b => IsTerminal(b, status) }
  function Staying(status: string -> Option<string>): seq<string> -> bool { b => !IsTerminal(b, status) }

  /** A block for the archive: its trailing blank lines become one. */
  function Trimmed(b: seq<string>): seq<string> {
    if b != [] && IsBlank(b[|b| - 1]) then Trimmed(b[..|b| - 1]) else b
  }

  method NormBlock(b: seq<string>) returns (out: seq<string>)
    ensures out == Trimmed(b) + ["\n"]
    ensures var n := |out| - 1;
      && out[n] == "\n" && n <= |b| && out[..n] == b[..n]
      && (n > 0 ==> IsText(b[n - 1])) && forall k :: n <= k < |b| ==> IsBlank(b[k])
  {
    out := b;
    while out != [] && IsBlank(out[|out| - 1])
      invariant Trimmed(out) == Trimmed(b)
      invariant |out| <= |b| && out == b[..|out|] && forall k :: |out| <= k < |b| ==> IsBlank(b[k])
    {
      out := out[..|out| - 1];
    }
    out := out + ["\n"];
  }

  // ----- a run

  predicate HasInbox(ls: seq<string>) { Find(ls, IsInbox, 0).Some? && Find(ls, IsGoverned, 0).Some? }

  function InboxOf(ls: seq<string>): (i: nat)
    requires HasInbox(ls)
    ensures i < |ls| && IsInbox(ls[i])
  {
    Find(ls, IsInbox, 0).value
  }

  function GovernedOf(ls: seq<string>): (g: nat)
    requires HasInbox(ls)
    ensures g < |ls| && IsGoverned(ls[g])
  {
    Find(ls, IsGoverned, 0).value
  }

  /** The lines between the two markers; none when they are out of order. */
  function Region(ls: seq<string>): seq<string>
    requires HasInbox(ls)
  {
    if InboxOf(ls) < GovernedOf(ls) then ls[InboxOf(ls) + 1..GovernedOf(ls)] else []
  }

  function Archived(ls: seq<string>, entry: string -> bool, status: string -> Option<string>): seq<seq<string>>
    requires HasInbox(ls)
  {
    Filter(Blocks(Region(ls), entry), Going(status))
  }

  function Kept(ls: seq<string>, entry: string -> bool, status: string -> Option<string>): seq<seq<string>>
    requires HasInbox(ls)
  {
    Filter(Blocks(Region(ls), entry), Staying(status))
  }

  function AfterQueue(ls: seq<string>, entry: string -> bool, status: string -> Option<string>): seq<string>
    requires HasInbox(ls)
  {
    if Archived(ls, entry, status) == [] then ls
    else ls[..InboxOf(ls) + 1] + (Preamble(Region(ls), entry) + Concat(Kept(ls, entry, status))) + ls[GovernedOf(ls)..]
  }

  function NormAll(bs: seq<seq<string>>): seq<string> {
    if bs == [] then [] else NormAll(bs[..|bs| - 1]) + (Trimmed(bs[|bs| - 1]) + ["\n"])
  }

  method Partition(blocks: seq<seq<string>>, status: string -> Option<string>)
    returns (kept: seq<seq<string>>, archived: seq<seq<string>>)
    ensures kept == Filter(blocks, Staying(status)) && archived == Filter(blocks, Going(status))
  {
    kept, archived := [], [];
    var i := 0;
    while i < |blocks|
      invariant 0 <= i <= |blocks|
      invariant kept == Filter(blocks[..i], Staying(status)) && archived == Filter(blocks[..i], Going(status))
    {
      FilterStep(blocks, i, Staying(status));
      FilterStep(blocks, i, Going(status));
      var terminal := IsTerminalQueue(blocks[i], status);
      if terminal {
        archived := archived + [blocks[i]];
      } else {
        kept := kept + [blocks[i]];
      }
      i := i + 1;
    }
    assert blocks[..i] == blocks;
  }

  method Join(bs: seq<seq<string>>) returns (ls: seq<string>)
    ensures ls == Concat(bs)
  {
    ls := [];
    var i := 0;
    while i < |bs|
      invariant 0 <= i <= |bs| && ls == Concat(bs[..i])
    {
      assert bs[..i + 1][..i] == bs[..i];
      ls := ls + bs[i];
      i := i + 1;
    }
    assert bs[..i] == bs;
  }

  method NormBlocks(bs: seq<seq<string>>) returns (ls: seq<string>)
    ensures ls == NormAll(bs)
  {
    ls := [];
    var i := 0;
    while i < |bs|
      invariant 0 <= i <= |bs| && ls == NormAll(bs[..i])
    {
      assert bs[..i + 1][..i] == bs[..i];
      var out := NormBlock(bs[i]);
      ls := ls + out;
      i := i + 1;
    }
    assert bs[..i] == bs;
  }

  /** The queue file and the archive file; the archive's own headings are left out. */
  class QueueFiles {
    var queue: seq<string>
    var archive: seq<string>

    constructor (q: seq<string>, a: seq<string>)
      ensures queue == q && archive == a
    {
      queue, archive := q, a;
    }

    method Process(apply: bool, entry: string -> bool, status: string -> Option<string>)
      returns (moved: Option<seq<seq<string>>>)
      modifies this
      ensures moved.Some? <==> HasInbox(old(queue))
      ensures moved.Some? ==> moved.value == Archived(old(queue), entry, status)
      ensures queue == if apply && moved.Some? then AfterQueue(old(queue), entry, status) else old(queue)
      ensures archive == old(archive) + if apply && moved.Some? then NormAll(moved.value) else []
    {
      var inbox := Index(queue, IsInbox);
      if inbox.None? {
        return None;
      }
      var governed := Index(queue, IsGoverned);
      if governed.None? {
        return None;
      }
      var region := if inbox.value < governed.value then queue[inbox.value + 1..governed.value] else [];
      var preamble, blocks := QueueBlocks(region, entry);
      var kept, archived := Partition(blocks, status);
      moved := Some(archived);
      if !apply || archived == [] {
        return;
      }
      var rest := Join(kept);
      queue := queue[..inbox.value + 1] + (preamble + rest) + queue[governed.value..];
      var text := NormBlocks(archived);
      archive := archive + text;
    }
  }

  // ----- what a run keeps

  lemma {:induction false} TrimmedKeepsText(b: seq<string>)
    ensures Visible(Trimmed(b) + ["\n"]) == Visible(b)
  {
    FilterSnoc(Trimmed(b), "\n", IsTextLine());
    if b != [] && IsBlank(b[|b| - 1]) {
      var front := b[..|b| - 1];
      TrimmedKeepsText(front);
      FilterSnoc(Trimmed(front), "\n", IsTextLine());
      FilterSnoc(front, b[|b| - 1], IsTextLine());
      assert b == front + [b[|b| - 1]];
    }
  }

  /** The archive gets every line of text of the moved blocks, in order. */
  lemma {:induction false} ArchiveKeepsText(bs: seq<seq<string>>)
    ensures Visible(NormAll(bs)) == Visible(Concat(bs))
  {
    if bs != [] {
      var front, b := bs[..|bs| - 1], bs[|bs| - 1];
      ArchiveKeepsText(front);
      TrimmedKeepsText(b);
      FilterSplit(NormAll(front), Trimmed(b) + ["\n"], IsTextLine());
      FilterSplit(Concat(front), b, IsTextLine());
    }
  }

  /** Which blocks a run moves: exactly those of the Inbox whose first status is a terminal one. */
  lemma MovedExactly(ls: seq<string>, entry: string -> bool, status: string -> Option<string>, b: seq<string>)
    requires HasInbox(ls)
    ensures b in Archived(ls, entry, status) <==> b in Blocks(Region(ls), entry) && EndsWithStatus(b, status)
    ensures b in Kept(ls, entry, status) <==> b in Blocks(Region(ls), entry) && !EndsWithStatus(b, status)
  {
    FilterMembers(Blocks(Region(ls), entry), Going(status));
    FilterMembers(Blocks(Region(ls), entry), Staying(status));
    TerminalMeans(b, status);
  }

  /** A run goes ahead if and only if both lines are there, in any order. */
  lemma InboxIsFound(ls: seq<string>)
    ensures HasInbox(ls) <==>
      (exists k :: 0 <= k < |ls| && "## Inbox" <= ls[k])
      && exists k :: 0 <= k < |ls| && "<!-- GOVERNED:START -->" <= ls[k]
  {
    if HasInbox(ls) {
      assert IsInbox(ls[InboxOf(ls)]) && IsGoverned(ls[GovernedOf(ls)]);
    }
    if k :| 0 <= k < |ls| && "## Inbox" <= ls[k] {
      assert IsInbox(ls[k]);
    }
    if k :| 0 <= k < |ls| && "<!-- GOVERNED:START -->" <= ls[k] {
      assert IsGoverned(ls[k]);
    }
  }

  /** The Inbox: the lines from the first that starts with its heading up to the first that starts
      with the governed marker. */
  lemma InboxIs(ls: seq<string>, i: nat, g: nat)
    requires i < g < |ls| && "## Inbox" <= ls[i] && "<!-- GOVERNED:START -->" <= ls[g]
    requires forall k :: 0 <= k < i ==> !("## Inbox" <= ls[k])
    requires forall k :: 0 <= k < g ==> !("<!-- GOVERNED:START -->" <= ls[k])
    ensures HasInbox(ls) && InboxOf(ls) == i && GovernedOf(ls) == g && Region(ls) == ls[i + 1..g]
  {
    FirstAt(ls, IsInbox, 0, i);
    FirstAt(ls, IsGoverned, 0, g);
  }

  /** Every block either stays or goes. */
  lemma {:induction false} EveryBlockIsSomewhere(blocks: seq<seq<string>>, status: string -> Option<string>)
    ensures multiset(Filter(blocks, Staying(status))) + multiset(Filter(blocks, Going(status))) == multiset(blocks)
  {
    if blocks != [] {
      EveryBlockIsSomewhere(blocks[..|blocks| - 1], status);
      assert blocks == blocks[..|blocks| - 1] + [blocks[|blocks| - 1]];
    }
  }

  lemma {:induction false} FirstAt(ls: seq<string>, p: string -> bool, i: nat, at: nat)
    requires i <= at < |ls| && p(ls[at]) && forall k :: i <= k < at ==> !p(ls[k])
    ensures Find(ls, p, i) == Some(at)
    decreases at - i
  {
    if i < at {
      FirstAt(ls, p, i + 1, at);
    }
  }

  /** Markers stay where the unchanged lines are, when the new middle holds no marker. */
  lemma MarkersStay(ls: seq<string>, middle: seq<string>)
    requires HasInbox(ls) && InboxOf(ls) < GovernedOf(ls) && forall l :: l in middle ==> !IsGoverned(l)
    ensures var ls' := ls[..InboxOf(ls) + 1] + middle + ls[GovernedOf(ls)..];
      HasInbox(ls') && InboxOf(ls') == InboxOf(ls) && GovernedOf(ls') == InboxOf(ls) + 1 + |middle|
      && Region(ls') == middle && ls'[..InboxOf(ls) + 1] == ls[..InboxOf(ls) + 1]
      && ls'[InboxOf(ls) + 1 + |middle|..] == ls[GovernedOf(ls)..]
  {
    var i, g := InboxOf(ls), GovernedOf(ls);
    var ls' := ls[..i + 1] + middle + ls[g..];
    var g' := i + 1 + |middle|;
    assert ls'[i] == ls[i] && ls'[g'] == ls[g];
    forall k | 0 <= k < g' ensures !IsGoverned(ls'[k]) {
      assert k <= i ==> ls'[k] == ls[k];
      assert i < k ==> ls'[k] in middle;
    }
    assert forall k :: 0 <= k < i ==> ls'[k] == ls[k];
    FirstAt(ls', IsInbox, 0, i);
    FirstAt(ls', IsGoverned, 0, g');
  }

  lemma {:induction false} ConcatMembers(bs: seq<seq<string>>, l: string)
    ensures l in Concat(bs) <==> exists b :: b in bs && l in b
  {
    if bs != [] {
      var front, b := bs[..|bs| - 1], bs[|bs| - 1];
      assert bs == front + [b];
      ConcatMembers(front, l);
    }
  }

  lemma KeptFromRegion(region: seq<string>, entry: string -> bool, status: string -> Option<string>)
    ensures var kept := Filter(Blocks(region, entry), Staying(status));
      AllBlocks(kept, entry) && forall l :: l in Preamble(region, entry) + Concat(kept) ==> l in region
  {
    var blocks := Blocks(region, entry);
    var kept := Filter(blocks, Staying(status));
    CutIsFaithful(region, entry);
    CutIsProper(region, entry);
    FilterMembers(blocks, Staying(status));
    forall l | l in Concat(kept) ensures l in region {
      ConcatMembers(kept, l);
      ConcatMembers(blocks, l);
    }
  }

  function Middle(region: seq<string>, entry: string -> bool, status: string -> Option<string>): seq<string> {
    Preamble(region, entry) + Concat(Filter(Blocks(region, entry), Staying(status)))
  }

  lemma MiddleBack(region: seq<string>, entry: string -> bool, status: string -> Option<string>)
    ensures var m := Middle(region, entry, status);
      && Blocks(m, entry) == Filter(Blocks(region, entry), Staying(status))
      && Preamble(m, entry) == Preamble(region, entry)
      && Filter(Blocks(m, entry), Going(status)) == []
      && forall l :: l in m ==> l in region
  {
    var blocks := Blocks(region, entry);
    var kept := Filter(blocks, Staying(status));
    CutIsProper(region, entry);
    KeptFromRegion(region, entry, status);
    CutBack(Preamble(region, entry), kept, entry);
    FilterMembers(blocks, Staying(status));
    FilterNone(kept, Going(status));
  }

  lemma RegionNotGoverned(ls: seq<string>)
    requires HasInbox(ls)
    ensures forall l :: l in Region(ls) ==> !IsGoverned(l)
  {
  }

  /** An applied run leaves the Inbox with its preamble and exactly the kept blocks, and
      everything outside it as it was; a second run finds nothing to move. */
  lemma QueueSettles(ls: seq<string>, entry: string -> bool, status: string -> Option<string>)
    requires HasInbox(ls)
    ensures HasInbox(AfterQueue(ls, entry, status))
    ensures var ls' := AfterQueue(ls, entry, status);
      && Archived(ls', entry, status) == []
      && Blocks(Region(ls'), entry) == Kept(ls, entry, status)
      && Preamble(Region(ls'), entry) == Preamble(Region(ls), entry)
      && ls'[..InboxOf(ls') + 1] == ls[..InboxOf(ls) + 1] && ls'[GovernedOf(ls')..] == ls[GovernedOf(ls)..]
  {
    if Archived(ls, entry, status) == [] {
      AllStay(Blocks(Region(ls), entry), status);
    } else {
      RegionNotGoverned(ls);
      MiddleBack(Region(ls), entry, status);
      MarkersStay(ls, Middle(Region(ls), entry, status));
    }
  }

  lemma AllStay(blocks: seq<seq<string>>, status: string -> Option<string>)
    requires Filter(blocks, Going(status)) == []
    ensures Filter(blocks, Staying(status)) == blocks
  {
    FilterMembers(blocks, Going(status));
    assert forall b :: b in blocks && Going(status)(b) ==> b in Filter(blocks, Going(status));
    FilterAll(blocks, Staying(status));
  }

  /** The queue is written before the archive. A crash in between leaves the queue without exactly
      the moved blocks while the archive is still the old one, and no later run finds them; the
      queue keeps all its blocks if and only if there was nothing to move. */
  lemma CrashBetweenWritesLosesEntries(ls: seq<string>, entry: string -> bool, status: string -> Option<string>)
    requires HasInbox(ls)
    ensures HasInbox(AfterQueue(ls, entry, status))
    ensures var ls' := AfterQueue(ls, entry, status);
      && multiset(Blocks(Region(ls'), entry)) + multiset(Archived(ls, entry, status))
         == multiset(Blocks(Region(ls), entry))
      && Archived(ls', entry, status) == []
    ensures var ls' := AfterQueue(ls, entry, status);
      multiset(Blocks(Region(ls'), entry)) == multiset(Blocks(Region(ls), entry)) <==> Archived(ls, entry, status) == []
  {
    var blocks, archived := Blocks(Region(ls), entry), Archived(ls, entry, status);
    QueueSettles(ls, entry, status);
    EveryBlockIsSomewhere(blocks, status);
    assert |multiset(Kept(ls, entry, status)) + multiset(archived)| == |multiset(Kept(ls, entry, status))| + |archived|;
  }
}
