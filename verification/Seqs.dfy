/** Stock definitions the other modules share: an option, a filter that keeps order, and the
    largest element of a finite set of ids. */
module Seqs {

  datatype Option<+T> = None | Some(value: T)

  function MaxNat(x: nat, y: nat): nat { if x >= y then x else y }

  /** The elements of `s` that satisfy `p`, in their order in `s`. */
  function Filter<T>(s: seq<T>, p: T -> bool): seq<T> {
    if s == [] then []
    else
      var front := Filter(s[..|s| - 1], p);
      if p(s[|s| - 1]) then front + [s[|s| - 1]] else front
  }

  lemma {:induction false} FilterMembers<T>(s: seq<T>, p: T -> bool)
    ensures |Filter(s, p)| <= |s|
    ensures forall x :: x in Filter(s, p) <==> x in s && p(x)
  {
    if s != [] {
      FilterMembers(s[..|s| - 1], p);
      assert s == s[..|s| - 1] + [s[|s| - 1]];
    }
  }

  lemma FilterStep<T>(s: seq<T>, i: nat, p: T -> bool)
    requires i < |s|
    ensures Filter(s[..i + 1], p) == Filter(s[..i], p) + if p(s[i]) then [s[i]] else []
  {
    assert s[..i + 1][..i] == s[..i];
  }

  lemma FilterSnoc<T>(s: seq<T>, x: T, p: T -> bool)
    ensures Filter(s + [x], p) == Filter(s, p) + if p(x) then [x] else []
  {
    assert (s + [x])[..|s|] == s;
  }

  lemma {:induction false} FilterSplit<T>(s: seq<T>, t: seq<T>, p: T -> bool)
    ensures Filter(s + t, p) == Filter(s, p) + Filter(t, p)
  {
    if t == [] {
      assert s + t == s;
    } else {
      var t', x := t[..|t| - 1], t[|t| - 1];
      FilterSplit(s, t', p);
      FilterSnoc(s + t', x, p);
      FilterSnoc(t', x, p);
      assert s + t == s + t' + [x] && t == t' + [x];
      Associates(Filter(s, p), Filter(t', p), if p(x) then [x] else []);
    }
  }

  lemma Associates<T>(a: seq<T>, b: seq<T>, c: seq<T>)
    ensures a + (b + c) == (a + b) + c
  {
  }

  lemma {:induction false} FilterAll<T>(s: seq<T>, p: T -> bool)
    requires forall x :: x in s ==> p(x)
    ensures Filter(s, p) == s
  {
    if s != [] {
      assert s == s[..|s| - 1] + [s[|s| - 1]];
      FilterAll(s[..|s| - 1], p);
    }
  }

  lemma {:induction false} FilterNone<T>(s: seq<T>, p: T -> bool)
    requires forall x :: x in s ==> !p(x)
    ensures Filter(s, p) == []
  {
    if s != [] {
      FilterNone(s[..|s| - 1], p);
    }
  }

  /** Two tests that agree on the elements of `s` keep the same elements. */
  lemma {:induction false} FilterAgree<T>(s: seq<T>, p: T -> bool, q: T -> bool)
    requires forall x :: x in s ==> p(x) == q(x)
    ensures Filter(s, p) == Filter(s, q)
  {
    if s != [] {
      FilterAgree(s[..|s| - 1], p, q);
    }
  }

  /** Filtering twice is filtering once by both tests. */
  lemma {:induction false} FilterTwice<T>(s: seq<T>, p: T -> bool, q: T -> bool, both: T -> bool)
    requires forall x :: x in s ==> both(x) == (p(x) && q(x))
    ensures Filter(Filter(s, p), q) == Filter(s, both)
  {
    if s != [] {
      var front, x := s[..|s| - 1], s[|s| - 1];
      assert s == front + [x];
      FilterTwice(front, p, q, both);
      FilterSnoc(Filter(front, p), x, q);
    }
  }

  lemma {:induction false} FilterSource<T>(s: seq<T>, p: T -> bool, i: nat) returns (k: nat)
    requires i < |Filter(s, p)|
    ensures k < |s| && s[k] == Filter(s, p)[i]
  {
    var n := |s| - 1;
    if i < |Filter(s[..n], p)| {
      k := FilterSource(s[..n], p, i);
    } else {
      k := n;
    }
  }

  /** A filter keeps relative order: two result positions come from two source positions. */
  lemma {:induction false} FilterPositions<T>(s: seq<T>, p: T -> bool, i: nat, j: nat) returns (i': nat, j': nat)
    requires i < j < |Filter(s, p)|
    ensures i' < j' < |s| && s[i'] == Filter(s, p)[i] && s[j'] == Filter(s, p)[j]
  {
    var n := |s| - 1;
    var front := Filter(s[..n], p);
    if j < |front| {
      i', j' := FilterPositions(s[..n], p, i, j);
    } else {
      j' := n;
      i' := FilterSource(s[..n], p, i);
    }
  }

  /** And two source positions that pass give two result positions. */
  lemma {:induction false} FilterFinds<T>(s: seq<T>, p: T -> bool, i: nat, j: nat) returns (i': nat, j': nat)
    requires i < j < |s| && p(s[i]) && p(s[j])
    ensures i' < j' < |Filter(s, p)| && Filter(s, p)[i'] == s[i] && Filter(s, p)[j'] == s[j]
  {
    var n := |s| - 1;
    if j < n {
      i', j' := FilterFinds(s[..n], p, i, j);
    } else {
      i' := FilterFindsOne(s[..n], p, i);
      j' := |Filter(s, p)| - 1;
    }
  }

  lemma {:induction false} FilterFindsOne<T>(s: seq<T>, p: T -> bool, i: nat) returns (k: nat)
    requires i < |s| && p(s[i])
    ensures k < |Filter(s, p)| && Filter(s, p)[k] == s[i]
  {
    var n := |s| - 1;
    if i < n {
      k := FilterFindsOne(s[..n], p, i);
    } else {
      k := |Filter(s, p)| - 1;
    }
  }

  /** Apply `f` to every element. */
  function Map<T>(s: seq<T>, f: T -> T): (r: seq<T>)
    ensures |r| == |s| && forall i :: 0 <= i < |s| ==> r[i] == f(s[i])
  {
    seq(|s|, i requires 0 <= i < |s| => f(s[i]))
  }

  /** The last position whose element satisfies `p`. */
  function LastIndex<T>(s: seq<T>, p: T -> bool): (k: Option<nat>)
    ensures k.Some? ==> k.value < |s| && p(s[k.value]) && forall i :: k.value < i < |s| ==> !p(s[i])
    ensures k.None? ==> forall i :: 0 <= i < |s| ==> !p(s[i])
  {
    if s == [] then None
    else if p(s[|s| - 1]) then Some(|s| - 1)
    else LastIndex(s[..|s| - 1], p)
  }

  ghost predicate Distinct<T>(s: seq<T>) {
    forall i, j :: 0 <= i < j < |s| ==> s[i] != s[j]
  }

  lemma FilterDistinct<T>(s: seq<T>, p: T -> bool)
    requires Distinct(s)
    ensures Distinct(Filter(s, p))
  {
    forall i, j | 0 <= i < j < |Filter(s, p)| ensures Filter(s, p)[i] != Filter(s, p)[j] {
      var i', j' := FilterPositions(s, p, i, j);
    }
  }

  /** The largest element of a finite set of ids, or 0 for the empty set. */
  ghost function MaxId(s: set<nat>): (m: nat)
    ensures forall x :: x in s ==> x <= m
    ensures s != {} ==> m in s
    ensures s == {} ==> m == 0
  {
    if s == {} then 0
    else
      var x :| x in s;
      var rest := MaxId(s - {x});
      assert forall y :: y in s ==> y == x || y in s - {x};
      if x >= rest then x else rest
  }

  lemma MaxIdIs(s: set<nat>, m: nat)
    requires m in s && forall x :: x in s ==> x <= m
    ensures MaxId(s) == m
  {
  }

  method LargestId(s: set<nat>) returns (best: nat)
    ensures best == MaxId(s)
  {
    best := 0;
    var todo, done: set<nat> := s, {};
    while todo != {}
      invariant s == done + todo
      invariant forall x :: x in done ==> x <= best
      invariant best in done || (best == 0 && done == {})
      decreases todo
    {
      var x :| x in todo;
      if x > best {
        best := x;
      }
      todo, done := todo - {x}, done + {x};
    }
  }
}
