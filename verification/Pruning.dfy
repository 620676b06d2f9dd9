/** Bounding the lease file: which retired rows a mutation drops. */
module Pruning {
  import opened Seqs
  import opened Leases

  const KEEP_RECENT := 40
  const MIN_AGE := 3600

  /** When a retired row ended: its end stamp, else its expiry. */
  function EndOf(r: Row): int { if r.endedAt.Some? then r.endedAt.value else r.expires }

  predicate Younger(r: Row, now: int) { EndOf(r) > now - MIN_AGE }

  /** Put row `k` into a ranking, after every row that ended no earlier. */
  function Insert(rows: seq<Row>, ranked: seq<nat>, k: nat): seq<nat>
    requires k < |rows| && forall i :: 0 <= i < |ranked| ==> ranked[i] < |rows|
  {
    if ranked == [] then [k]
    else
      var n := |ranked| - 1;
      if EndOf(rows[ranked[n]]) < EndOf(rows[k]) then Insert(rows, ranked[..n], k) + [ranked[n]]
      else ranked + [k]
  }

  /** The retired rows among the first `n`, latest end first, file order on ties. */
  function Ranking(rows: seq<Row>, n: nat): (r: seq<nat>)
    requires n <= |rows|
    ensures forall i :: i in r <==> 0 <= i < n && Retired(rows[i].status)
  {
    if n == 0 then []
    else
      var front := Ranking(rows, n - 1);
      assert forall i :: 0 <= i < |front| ==> front[i] in front;
      if Retired(rows[n - 1].status) then
        InsertMembers(rows, front, n - 1);
        Insert(rows, front, n - 1)
      else front
  }

  lemma {:induction false} InsertMembers(rows: seq<Row>, ranked: seq<nat>, k: nat)
    requires k < |rows| && forall i :: 0 <= i < |ranked| ==> ranked[i] < |rows|
    ensures forall i :: i in Insert(rows, ranked, k) <==> i in ranked || i == k
    ensures |Insert(rows, ranked, k)| == |ranked| + 1
  {
    if ranked != [] {
      var n := |ranked| - 1;
      InsertMembers(rows, ranked[..n], k);
      assert ranked == ranked[..n] + [ranked[n]];
    }
  }

  predicate Before(rows: seq<Row>, i: nat, j: nat)
    requires i < |rows| && j < |rows|
  {
    EndOf(rows[i]) > EndOf(rows[j]) || (EndOf(rows[i]) == EndOf(rows[j]) && i < j)
  }

  ghost predicate IsRanked(rows: seq<Row>, ranked: seq<nat>) {
    && (forall i :: 0 <= i < |ranked| ==> ranked[i] < |rows|)
    && forall i, j :: 0 <= i < j < |ranked| ==> Before(rows, ranked[i], ranked[j])
  }

  lemma {:induction false} InsertRanked(rows: seq<Row>, ranked: seq<nat>, k: nat)
    requires k < |rows| && (forall i :: 0 <= i < |ranked| ==> ranked[i] < k) && IsRanked(rows, ranked)
    ensures IsRanked(rows, Insert(rows, ranked, k))
  {
    var r := Insert(rows, ranked, k);
    InsertMembers(rows, ranked, k);
    if ranked != [] {
      var n := |ranked| - 1;
      assert ranked[n] in ranked;
      if EndOf(rows[ranked[n]]) < EndOf(rows[k]) {
        InsertRanked(rows, ranked[..n], k);
        InsertMembers(rows, ranked[..n], k);
        var front := Insert(rows, ranked[..n], k);
        forall i | 0 <= i < |front| ensures Before(rows, front[i], ranked[n]) {
          assert front[i] in front;
          if front[i] != k {
            var j :| 0 <= j < n && ranked[j] == front[i];
          }
        }
      } else {
        forall i | 0 <= i < |ranked| ensures Before(rows, ranked[i], k) {
          assert ranked[i] in ranked;
        }
      }
    }
  }

  lemma RankingBelow(rows: seq<Row>, n: nat)
    requires n <= |rows|
    ensures forall i :: 0 <= i < |Ranking(rows, n)| ==> Ranking(rows, n)[i] < n
  {
    forall i | 0 <= i < |Ranking(rows, n)| ensures Ranking(rows, n)[i] < n {
      assert Ranking(rows, n)[i] in Ranking(rows, n);
    }
  }

  lemma {:induction false} RankingIsRanked(rows: seq<Row>, n: nat)
    requires n <= |rows|
    ensures IsRanked(rows, Ranking(rows, n))
  {
    if n > 0 {
      RankingIsRanked(rows, n - 1);
      RankingBelow(rows, n - 1);
      if Retired(rows[n - 1].status) {
        InsertRanked(rows, Ranking(rows, n - 1), n - 1);
      }
    }
  }

  /** The indices of the most recent retired rows. */
  function Recent(rows: seq<Row>): seq<nat> {
    var ranked := Ranking(rows, |rows|);
    if |ranked| <= KEEP_RECENT then ranked else ranked[..KEEP_RECENT]
  }

  predicate Keeps(rows: seq<Row>, recent: seq<nat>, now: int, k: nat)
    requires k < |rows|
  {
    Open(rows[k]) || k in recent || Younger(rows[k], now)
  }

  function KeptUpTo(rows: seq<Row>, recent: seq<nat>, now: int, n: nat): seq<Row>
    requires n <= |rows|
  {
    if n == 0 then []
    else if Keeps(rows, recent, now, n - 1) then KeptUpTo(rows, recent, now, n - 1) + [rows[n - 1]]
    else KeptUpTo(rows, recent, now, n - 1)
  }

  function Pruned(rows: seq<Row>, now: int): seq<Row> { KeptUpTo(rows, Recent(rows), now, |rows|) }

  /** The retired rows' indices, sorted; then one pass over the file. Nothing is touched while
      the retired rows fit the bound. */
  method PruneTerminalRows(rows: seq<Row>, now: int) returns (kept: seq<Row>)
    ensures kept == Pruned(rows, now)
  {
    var ranked := [];
    for i := 0 to |rows|
      invariant ranked == Ranking(rows, i)
    {
      assert forall j :: 0 <= j < |ranked| ==> ranked[j] in ranked;
      if Retired(rows[i].status) {
        ranked := Insert(rows, ranked, i);
      }
    }
    if |ranked| <= KEEP_RECENT {
      KeptAll(rows, Recent(rows), now, |rows|);
      return rows;
    }
    var recent := ranked[..KEEP_RECENT];
    kept := [];
    for i := 0 to |rows|
      invariant kept == KeptUpTo(rows, recent, now, i)
    {
      if Open(rows[i]) || i in recent || Younger(rows[i], now) {
        kept := kept + [rows[i]];
      }
    }
  }

  lemma {:induction false} KeptAll(rows: seq<Row>, recent: seq<nat>, now: int, n: nat)
    requires n <= |rows| && forall k :: 0 <= k < |rows| ==> Keeps(rows, recent, now, k)
    ensures KeptUpTo(rows, recent, now, n) == rows[..n]
  {
    if n > 0 {
      KeptAll(rows, recent, now, n - 1);
    }
  }

  lemma {:induction false} KeptMembers(rows: seq<Row>, recent: seq<nat>, now: int, n: nat)
    requires n <= |rows|
    ensures |KeptUpTo(rows, recent, now, n)| <= n
    ensures forall r :: r in KeptUpTo(rows, recent, now, n) <==>
      exists k :: 0 <= k < n && Keeps(rows, recent, now, k) && r == rows[k]
  {
    if n > 0 {
      KeptMembers(rows, recent, now, n - 1);
    }
  }

  /** Kept rows keep their order, and every row that has not been retired is kept. */
  lemma {:induction false} KeptPositions(rows: seq<Row>, recent: seq<nat>, now: int, n: nat, i: nat, j: nat)
    returns (i': nat, j': nat)
    requires n <= |rows| && i < j < |KeptUpTo(rows, recent, now, n)|
    ensures i' < j' < n
    ensures rows[i'] == KeptUpTo(rows, recent, now, n)[i] && rows[j'] == KeptUpTo(rows, recent, now, n)[j]
  {
    var front := KeptUpTo(rows, recent, now, n - 1);
    if j < |front| {
      i', j' := KeptPositions(rows, recent, now, n - 1, i, j);
    } else {
      KeptMembers(rows, recent, now, n - 1);
      assert front[i] in front;
      i' :| 0 <= i' < n - 1 && Keeps(rows, recent, now, i') && front[i] == rows[i'];
      j' := n - 1;
    }
  }

  function IsRetired(): Row -> bool { (r: Row) => Retired(r.status) }

  function IsOpen(): Row -> bool { (r: Row) => Open(r) }

  function RetiredCount(rows: seq<Row>): nat { |Filter(rows, IsRetired())| }

  function YoungCount(rows: seq<Row>, now: int): nat { |Filter(rows, IsYoung(now))| }

  function IsYoung(now: int): Row -> bool { (r: Row) => Retired(r.status) && Younger(r, now) }

  /** Indices below `n` whose row passes a test: the set a filter counts. */
  ghost function Where(rows: seq<Row>, n: nat, p: Row -> bool): set<nat>
    requires n <= |rows|
  {
    set k | 0 <= k < n && p(rows[k])
  }

  lemma {:induction false} FilterCounts(rows: seq<Row>, n: nat, p: Row -> bool)
    requires n <= |rows|
    ensures |Filter(rows[..n], p)| == |Where(rows, n, p)|
  {
    if n > 0 {
      FilterCounts(rows, n - 1, p);
      FilterStep(rows, n - 1, p);
      WhereStep(rows, n - 1, p);
    }
  }

  lemma WhereStep(rows: seq<Row>, n: nat, p: Row -> bool)
    requires n < |rows|
    ensures |Where(rows, n + 1, p)| == |Where(rows, n, p)| + if p(rows[n]) then 1 else 0
  {
    assert Where(rows, n + 1, p) == Where(rows, n, p) + if p(rows[n]) then {n} else {};
  }

  /** Counting retired rows of the kept list by the indices they were kept at. */
  lemma {:induction false} KeptCounts(rows: seq<Row>, recent: seq<nat>, now: int, n: nat)
    requires n <= |rows|
    ensures RetiredCount(KeptUpTo(rows, recent, now, n))
         == |set k | 0 <= k < n && Retired(rows[k].status) && Keeps(rows, recent, now, k)|
  {
    var kept := set k | 0 <= k < n && Retired(rows[k].status) && Keeps(rows, recent, now, k);
    if n > 0 {
      KeptCounts(rows, recent, now, n - 1);
      var front := set k | 0 <= k < n - 1 && Retired(rows[k].status) && Keeps(rows, recent, now, k);
      assert kept == front + if n - 1 in kept then {n - 1} else {};
      FilterSnoc(KeptUpTo(rows, recent, now, n - 1), rows[n - 1], IsRetired());
    }
  }

  ghost function Elements(s: seq<nat>): set<nat> { set i | i in s }

  lemma {:induction false} ElementsOf(s: seq<nat>)
    requires Distinct(s)
    ensures |Elements(s)| == |s|
  {
    if s != [] {
      var n := |s| - 1;
      ElementsOf(s[..n]);
      assert s[n] !in Elements(s[..n]);
      assert Elements(s) == Elements(s[..n]) + {s[n]};
    }
  }

  lemma RankingDistinct(rows: seq<Row>)
    ensures Distinct(Ranking(rows, |rows|))
  {
    RankingIsRanked(rows, |rows|);
  }

  lemma RankingCounts(rows: seq<Row>)
    ensures |Ranking(rows, |rows|)| == RetiredCount(rows)
  {
    RankingDistinct(rows);
    ElementsOf(Ranking(rows, |rows|));
    FilterCounts(rows, |rows|, IsRetired());
    assert rows[..|rows|] == rows;
    assert Where(rows, |rows|, IsRetired()) == Elements(Ranking(rows, |rows|));
  }

  /** The young rows come first in the ranking. */
  lemma YoungFirst(rows: seq<Row>, now: int) returns (y: nat)
    ensures var ranked := Ranking(rows, |rows|);
      y <= |ranked|
      && forall i :: 0 <= i < |ranked| ==> ranked[i] < |rows| && (Younger(rows[ranked[i]], now) <==> i < y)
  {
    var ranked := Ranking(rows, |rows|);
    RankingIsRanked(rows, |rows|);
    assert forall i :: 0 <= i < |ranked| ==> ranked[i] in ranked;
    y := 0;
    while y < |ranked| && Younger(rows[ranked[y]], now)
      invariant y <= |ranked| && forall i :: 0 <= i < y ==> Younger(rows[ranked[i]], now)
    {
      y := y + 1;
    }
    forall i | y <= i < |ranked| ensures !Younger(rows[ranked[i]], now) {
      assert y == i || Before(rows, ranked[y], ranked[i]);
    }
  }

  /** The young rows are a prefix of the ranking, as long as their number. */
  lemma YoungPrefix(rows: seq<Row>, now: int)
    ensures YoungCount(rows, now) <= |Ranking(rows, |rows|)|
    ensures var ranked := Ranking(rows, |rows|);
      forall i :: 0 <= i < |ranked| ==>
        ranked[i] < |rows| && (Younger(rows[ranked[i]], now) <==> i < YoungCount(rows, now))
  {
    var ranked := Ranking(rows, |rows|);
    var y := YoungFirst(rows, now);
    RankingIsRanked(rows, |rows|);
    RankingDistinct(rows);
    ElementsOf(ranked[..y]);
    FilterCounts(rows, |rows|, IsYoung(now));
    assert rows[..|rows|] == rows;
    YoungElements(rows, now, y);
  }

  lemma YoungElements(rows: seq<Row>, now: int, y: nat)
    requires y <= |Ranking(rows, |rows|)|
    requires var ranked := Ranking(rows, |rows|);
      forall i :: 0 <= i < |ranked| ==> ranked[i] < |rows| && (Younger(rows[ranked[i]], now) <==> i < y)
    ensures Where(rows, |rows|, IsYoung(now)) == Elements(Ranking(rows, |rows|)[..y])
  {
    var ranked := Ranking(rows, |rows|);
    RankingIsRanked(rows, |rows|);
    assert forall i :: 0 <= i < |ranked| ==> ranked[i] in ranked;
  }

  /** A retired row is kept exactly when its rank is below the bound or it is young. */
  lemma KeptRanks(rows: seq<Row>, now: int)
    requires RetiredCount(rows) > KEEP_RECENT
    ensures var ranked := Ranking(rows, |rows|);
      forall i :: 0 <= i < |ranked| ==>
        ranked[i] < |rows|
        && (Keeps(rows, Recent(rows), now, ranked[i]) <==> i < MaxNat(KEEP_RECENT, YoungCount(rows, now)))
  {
    var ranked := Ranking(rows, |rows|);
    RankingCounts(rows);
    RankingDistinct(rows);
    YoungPrefix(rows, now);
    forall i | 0 <= i < |ranked|
      ensures ranked[i] < |rows|
      ensures Keeps(rows, Recent(rows), now, ranked[i]) <==> i < MaxNat(KEEP_RECENT, YoungCount(rows, now))
    {
      assert ranked[i] in ranked;
      assert ranked[i] in Recent(rows) <==> i < KEEP_RECENT;
    }
  }

  /** With more retired rows than the bound, exactly the larger of the bound and the number of
      young ones is left. */
  lemma PruningIsExact(rows: seq<Row>, now: int)
    requires RetiredCount(rows) > KEEP_RECENT
    ensures RetiredCount(Pruned(rows, now)) == MaxNat(KEEP_RECENT, YoungCount(rows, now))
  {
    var ranked, m := Ranking(rows, |rows|), MaxNat(KEEP_RECENT, YoungCount(rows, now));
    RankingCounts(rows);
    YoungPrefix(rows, now);
    KeptRanks(rows, now);
    RankingDistinct(rows);
    ElementsOf(ranked[..m]);
    KeptCounts(rows, Recent(rows), now, |rows|);
    assert (set k | 0 <= k < |rows| && Retired(rows[k].status) && Keeps(rows, Recent(rows), now, k))
        == Elements(ranked[..m]);
  }

  lemma SmallFileUntouched(rows: seq<Row>, now: int)
    requires RetiredCount(rows) <= KEEP_RECENT
    ensures Pruned(rows, now) == rows
  {
    RankingCounts(rows);
    KeptAll(rows, Recent(rows), now, |rows|);
    assert rows[..|rows|] == rows;
  }

  /** No dropped row ended later than a kept retired one. */
  lemma DroppedEndedEarlier(rows: seq<Row>, now: int, dropped: nat, kept: nat)
    requires dropped < |rows| && !Keeps(rows, Recent(rows), now, dropped)
    requires kept < |rows| && Retired(rows[kept].status) && Keeps(rows, Recent(rows), now, kept)
    ensures EndOf(rows[dropped]) <= EndOf(rows[kept])
  {
    var ranked := Ranking(rows, |rows|);
    RankingCounts(rows);
    if |ranked| > KEEP_RECENT {
      KeptRanks(rows, now);
      RankingIsRanked(rows, |rows|);
      var i :| 0 <= i < |ranked| && ranked[i] == dropped;
      var j :| 0 <= j < |ranked| && ranked[j] == kept;
      assert j < i;
      assert Before(rows, ranked[j], ranked[i]);
    }
  }

  /** Retired rows that ended later than row `k`, or as late and further up in the file; a row
      without an end stamp ended at its expiry. */
  ghost function EndedLater(rows: seq<Row>, k: nat): set<nat>
    requires k < |rows|
  {
    var end := if rows[k].endedAt.Some? then rows[k].endedAt.value else rows[k].expires;
    set j | 0 <= j < |rows| && rows[j].status in {Done, Released, Blocked, Expired, Stolen}
      && (if rows[j].endedAt.Some? then rows[j].endedAt.value else rows[j].expires) >= end + if j < k then 0 else 1
  }

  lemma EndedLaterIsBefore(rows: seq<Row>, k: nat)
    requires k < |rows|
    ensures forall j :: j in EndedLater(rows, k) <==> 0 <= j < |rows| && Retired(rows[j].status) && Before(rows, j, k)
  {
  }

  lemma RankIsCount(rows: seq<Row>, i: nat)
    requires i < |Ranking(rows, |rows|)| && Ranking(rows, |rows|)[i] < |rows|
    ensures |EndedLater(rows, Ranking(rows, |rows|)[i])| == i
  {
    var ranked := Ranking(rows, |rows|);
    RankingIsRanked(rows, |rows|);
    RankingDistinct(rows);
    EndedLaterIsBefore(rows, ranked[i]);
    ElementsOf(ranked[..i]);
    forall j ensures j in EndedLater(rows, ranked[i]) <==> j in Elements(ranked[..i]) {
      if j in EndedLater(rows, ranked[i]) {
        assert j in ranked;
        var p :| 0 <= p < |ranked| && ranked[p] == j;
        assert p < i;
        assert ranked[..i][p] == j;
      }
      if j in ranked[..i] {
        var p :| 0 <= p < i && ranked[p] == j;
        assert Before(rows, ranked[p], ranked[i]) && ranked[p] in ranked;
      }
    }
    assert EndedLater(rows, ranked[i]) == Elements(ranked[..i]);
  }

  /** Row `k` is open, ended within the hour, or fewer than 40 retired rows ended later. */
  ghost predicate MayStay(rows: seq<Row>, now: int, k: nat)
    requires k < |rows|
  {
    || rows[k].status !in {Done, Released, Blocked, Expired, Stolen}
    || now - 60 * 60 < (if rows[k].endedAt.Some? then rows[k].endedAt.value else rows[k].expires)
    || |EndedLater(rows, k)| < 40
  }

  lemma KeepsMeans(rows: seq<Row>, now: int, k: nat)
    requires k < |rows|
    ensures Keeps(rows, Recent(rows), now, k) <==> MayStay(rows, now, k)
  {
    if Retired(rows[k].status) {
      var ranked := Ranking(rows, |rows|);
      assert k in ranked;
      var i :| 0 <= i < |ranked| && ranked[i] == k;
      RankIsCount(rows, i);
      RankingDistinct(rows);
      assert k in Recent(rows) <==> i < KEEP_RECENT;
    }
  }

  /** The rows that pruning leaves: every open one, and of the retired ones exactly those that ended
      within the hour and the 40 that ended last. */
  lemma KeptExactly(rows: seq<Row>, now: int, r: Row)
    ensures r in Pruned(rows, now) <==> exists k :: 0 <= k < |rows| && rows[k] == r && MayStay(rows, now, k)
  {
    KeptMembers(rows, Recent(rows), now, |rows|);
    forall k | 0 <= k < |rows| ensures Keeps(rows, Recent(rows), now, k) <==> MayStay(rows, now, k) {
      KeepsMeans(rows, now, k);
    }
  }

  /** Pruning drops no open row and keeps file order. */
  lemma PruningKeepsOpenRows(rows: seq<Row>, now: int)
    ensures Filter(Pruned(rows, now), IsOpen()) == Filter(rows, IsOpen())
  {
    OpenUpTo(rows, Recent(rows), now, |rows|);
    assert rows[..|rows|] == rows;
  }

  lemma {:induction false} OpenUpTo(rows: seq<Row>, recent: seq<nat>, now: int, n: nat)
    requires n <= |rows|
    ensures Filter(KeptUpTo(rows, recent, now, n), IsOpen()) == Filter(rows[..n], IsOpen())
  {
    if n > 0 {
      OpenUpTo(rows, recent, now, n - 1);
      FilterStep(rows, n - 1, IsOpen());
      FilterSnoc(KeptUpTo(rows, recent, now, n - 1), rows[n - 1], IsOpen());
    }
  }

  /** At a fixed clock a second pruning changes nothing. */
  lemma PruningIsIdempotent(rows: seq<Row>, now: int)
    ensures Pruned(Pruned(rows, now), now) == Pruned(rows, now)
  {
    var once := Pruned(rows, now);
    if RetiredCount(rows) <= KEEP_RECENT {
      SmallFileUntouched(rows, now);
    } else {
      PruningIsExact(rows, now);
      if RetiredCount(once) <= KEEP_RECENT {
        SmallFileUntouched(once, now);
      } else {
        OnlyYoungLeft(rows, now);
        KeptAll(once, Recent(once), now, |once|);
        assert once[..|once|] == once;
      }
    }
  }

  lemma OnlyYoungLeft(rows: seq<Row>, now: int)
    requires RetiredCount(rows) > KEEP_RECENT && YoungCount(rows, now) > KEEP_RECENT
    ensures forall i :: 0 <= i < |Pruned(rows, now)| && Retired(Pruned(rows, now)[i].status) ==>
      Younger(Pruned(rows, now)[i], now)
  {
    var once, ranked := Pruned(rows, now), Ranking(rows, |rows|);
    KeptMembers(rows, Recent(rows), now, |rows|);
    KeptRanks(rows, now);
    YoungPrefix(rows, now);
    forall i | 0 <= i < |once| && Retired(once[i].status) ensures Younger(once[i], now) {
      assert once[i] in once;
      var k :| 0 <= k < |rows| && Keeps(rows, Recent(rows), now, k) && once[i] == rows[k];
      var j :| 0 <= j < |ranked| && ranked[j] == k;
    }
  }
}
