/** The lease heartbeat with its churn guard: it writes only when some matching lease is close to
    expiry, yet no matching lease runs out between ticks. */
module Heartbeat {
  import opened Seqs
  import opened Leases
  import opened LeaseCommands
  import opened Pruning

  /** Some matching lease expires within `m` of the clock. */
  predicate Due(rows: seq<Row>, s: Selector, m: int, now: int) {
    exists k :: 0 <= k < |rows| && Matches(s, now, rows[k]) && rows[k].expires <= now + m
  }

  function Tick(rows: seq<Row>, s: Selector, h: int, m: int, now: int): seq<Row> {
    if Due(rows, s, m, now) then Map(rows, Extend(s, h, now)) else rows
  }

  /** The rows after the ticks of `ts`, with no other command in between. */
  function Beat(rows: seq<Row>, s: Selector, h: int, m: int, ts: seq<int>): (r: seq<Row>)
    ensures |r| == |rows|
  {
    if ts == [] then rows else Tick(Beat(rows, s, h, m, ts[..|ts| - 1]), s, h, m, ts[|ts| - 1])
  }

  /** A tick is the extend command with the churn guard evaluated on the file; the pruning that a
      write brings drops no open row. */
  lemma TickIsCommand(f: File, s: Selector, h: int, m: int, now: int, pruneNow: int)
    ensures Filter(After(f, ExtendLease(s, h, Due(f.rows, s, m, now)), now, pruneNow).rows, IsOpen())
         == Filter(Tick(f.rows, s, h, m, now), IsOpen())
  {
    PruningKeepsOpenRows(Tick(f.rows, s, h, m, now), pruneNow);
  }

  /** `r'` is `r` with a later or equal expiry. */
  predicate Prolonged(r: Row, r': Row) {
    r' == r.(expires := r'.expires, renewedAt := r'.renewedAt) && r.expires <= r'.expires
  }

  lemma {:induction false} BeatProlongs(rows: seq<Row>, s: Selector, h: int, m: int, ts: seq<int>)
    ensures |Beat(rows, s, h, m, ts)| == |rows|
    ensures forall k :: 0 <= k < |rows| ==> Prolonged(rows[k], Beat(rows, s, h, m, ts)[k])
  {
    if ts != [] {
      BeatProlongs(rows, s, h, m, ts[..|ts| - 1]);
    }
  }

  lemma MatchIgnoresExpiry(s: Selector, now: int, r: Row, r': Row)
    requires Prolonged(r, r')
    ensures Matches(s, now, r) == Matches(s, now, r')
  {
  }

  /** After a tick every matching lease runs at least `m` past it. */
  lemma TickTopsUp(rows: seq<Row>, s: Selector, h: int, m: int, now: int, k: nat)
    requires m <= h && k < |rows| && Matches(s, now, rows[k])
    ensures Tick(rows, s, h, m, now)[k].expires >= now + m
    ensures Due(rows, s, m, now) ==> Tick(rows, s, h, m, now)[k].expires >= now + h
  {
    assert !Due(rows, s, m, now) ==> rows[k].expires > now + m;
  }

  /** A lease that keeps matching is live at every instant from a tick up to the next one, when
      ticks come less than the guard window apart. */
  lemma NeverRunsOut(rows: seq<Row>, s: Selector, h: int, m: int, ts: seq<int>, k: nat, instant: int)
    requires m <= h && k < |rows| && ts != []
    requires Matches(s, ts[|ts| - 1], rows[k])
    requires instant < ts[|ts| - 1] + m
    ensures IsLive(Beat(rows, s, h, m, ts)[k], instant)
  {
    var front, last := ts[..|ts| - 1], ts[|ts| - 1];
    BeatProlongs(rows, s, h, m, front);
    BeatProlongs(rows, s, h, m, ts);
    MatchIgnoresExpiry(s, last, rows[k], Beat(rows, s, h, m, front)[k]);
    TickTopsUp(Beat(rows, s, h, m, front), s, h, m, last, k);
  }

  /** Ticks in order and less than `m` apart. */
  ghost predicate Steady(ts: seq<int>, m: int) {
    forall i :: 0 <= i < |ts| - 1 ==> ts[i] <= ts[i + 1] < ts[i] + m
  }

  /** So over a steady run the lease is live at every instant between the first and last tick. */
  lemma LiveThroughout(rows: seq<Row>, s: Selector, h: int, m: int, ts: seq<int>, k: nat, instant: int) returns (n: nat)
    requires 0 < m <= h && k < |rows| && ts != [] && Steady(ts, m)
    requires forall i :: 0 <= i < |ts| ==> Matches(s, ts[i], rows[k])
    requires ts[0] <= instant <= ts[|ts| - 1]
    ensures 1 <= n <= |ts| && ts[n - 1] <= instant && (n < |ts| ==> instant < ts[n])
    ensures IsLive(Beat(rows, s, h, m, ts[..n])[k], instant)
  {
    n := 1;
    while n < |ts| && ts[n] <= instant
      invariant 1 <= n <= |ts| && ts[n - 1] <= instant
    {
      n := n + 1;
    }
    assert n < |ts| ==> ts[n - 1] <= ts[n] < ts[n - 1] + m;
    NeverRunsOut(rows, s, h, m, ts[..n], k, instant);
  }

  ghost predicate Writes(rows: seq<Row>, s: Selector, h: int, m: int, ts: seq<int>, i: nat)
    requires i < |ts|
  {
    Due(Beat(rows, s, h, m, ts[..i]), s, m, ts[i])
  }

  /** The same leases match at every tick. */
  ghost predicate Fixed(rows: seq<Row>, s: Selector, ts: seq<int>) {
    forall k, i, j :: 0 <= k < |rows| && 0 <= i < |ts| && 0 <= j < |ts| ==>
      Matches(s, ts[i], rows[k]) == Matches(s, ts[j], rows[k])
  }

  lemma {:induction false} BeatSplits(rows: seq<Row>, s: Selector, h: int, m: int, ts: seq<int>, us: seq<int>)
    ensures Beat(rows, s, h, m, ts + us) == Beat(Beat(rows, s, h, m, ts), s, h, m, us)
  {
    if us == [] {
      assert ts + us == ts;
    } else {
      BeatSplits(rows, s, h, m, ts, us[..|us| - 1]);
      assert (ts + us)[..|ts + us| - 1] == ts + us[..|us| - 1];
    }
  }

  lemma WriteTopsUp(rows: seq<Row>, s: Selector, h: int, m: int, ts: seq<int>, i: nat, k: nat)
    requires m <= h && i < |ts| && k < |rows| && Writes(rows, s, h, m, ts, i) && Matches(s, ts[i], rows[k])
    ensures Beat(rows, s, h, m, ts[..i + 1])[k].expires >= ts[i] + h
  {
    var before := Beat(rows, s, h, m, ts[..i]);
    assert ts[..i + 1][..i] == ts[..i];
    BeatProlongs(rows, s, h, m, ts[..i]);
    MatchIgnoresExpiry(s, ts[i], rows[k], before[k]);
    TickTopsUp(before, s, h, m, ts[i], k);
  }

  lemma ExpiryOnlyGrows(rows: seq<Row>, s: Selector, h: int, m: int, ts: seq<int>, i: nat, j: nat, k: nat)
    requires i <= j <= |ts| && k < |rows|
    ensures Beat(rows, s, h, m, ts[..i])[k].expires <= Beat(rows, s, h, m, ts[..j])[k].expires
  {
    BeatSplits(rows, s, h, m, ts[..i], ts[i..j]);
    assert ts[..i] + ts[i..j] == ts[..j];
    BeatProlongs(Beat(rows, s, h, m, ts[..i]), s, h, m, ts[i..j]);
  }

  lemma WriteHasCause(rows: seq<Row>, s: Selector, h: int, m: int, ts: seq<int>, j: nat) returns (k: nat)
    requires j < |ts| && Writes(rows, s, h, m, ts, j)
    ensures k < |rows| && Matches(s, ts[j], rows[k]) && Beat(rows, s, h, m, ts[..j])[k].expires <= ts[j] + m
  {
    var later := Beat(rows, s, h, m, ts[..j]);
    k :| 0 <= k < |later| && Matches(s, ts[j], later[k]) && later[k].expires <= ts[j] + m;
    BeatProlongs(rows, s, h, m, ts[..j]);
    MatchIgnoresExpiry(s, ts[j], rows[k], later[k]);
  }

  /** For a fixed set of leases two writes are at least `h - m` apart. */
  lemma WritesAreFarApart(rows: seq<Row>, s: Selector, h: int, m: int, ts: seq<int>, i: nat, j: nat)
    requires m <= h && i < j < |ts| && Fixed(rows, s, ts)
    requires Writes(rows, s, h, m, ts, i) && Writes(rows, s, h, m, ts, j)
    ensures ts[j] - ts[i] >= h - m
  {
    var k := WriteHasCause(rows, s, h, m, ts, j);
    assert Matches(s, ts[i], rows[k]);
    WriteTopsUp(rows, s, h, m, ts, i, k);
    ExpiryOnlyGrows(rows, s, h, m, ts, i + 1, j, k);
  }

  /** The positions `ws` are ticks that write, in order. */
  ghost predicate WritingTicks(rows: seq<Row>, s: Selector, h: int, m: int, ts: seq<int>, ws: seq<nat>) {
    && (forall i :: 0 <= i < |ws| ==> ws[i] < |ts| && Writes(rows, s, h, m, ts, ws[i]))
    && (forall i :: 0 <= i < |ws| - 1 ==> ws[i] < ws[i + 1])
  }

  lemma OneMoreGap(n: int, gap: int)
    ensures n * gap == (n - 1) * gap + gap
  {
  }

  /** So `n` writes, at the ticks `ws`, span at least `(n - 1) * (h - m)`. */
  lemma {:induction false} WriteRate(rows: seq<Row>, s: Selector, h: int, m: int, ts: seq<int>, ws: seq<nat>)
    requires m <= h && Fixed(rows, s, ts) && ws != [] && WritingTicks(rows, s, h, m, ts, ws)
    ensures ts[ws[|ws| - 1]] - ts[ws[0]] >= (|ws| - 1) * (h - m)
  {
    if |ws| > 1 {
      var n := |ws| - 1;
      WriteRate(rows, s, h, m, ts, ws[..n]);
      assert ws[..n][n - 1] == ws[n - 1] && ws[..n][0] == ws[0];
      WritesAreFarApart(rows, s, h, m, ts, ws[n - 1], ws[n]);
      OneMoreGap(n, h - m);
    }
  }
}
