/** The pure reductions behind the dashboard's indicators: the most streamed track and the
    average tempo, with `Math.round` taken on exact rationals. */
module Indicators {
  import opened Cleaning

  /** `Math.round(x)`: the nearest integer, halves rounded up (towards +infinity). */
  function Round(x: real): (r: int)
    ensures x - 0.5 < r as real <= x + 0.5
  {
    (x + 0.5).Floor
  }

  /** Rounding a quotient of integers is integer division: `Math.round(p / q)` is
      `(2p + q) div 2q`, and it is the integer nearest to `p / q` with halves rounded up. */
  lemma RoundQuotient(p: int, q: int)
    requires q > 0
    ensures Round(p as real / q as real) == (2 * p + q) / (2 * q)
    ensures q * (2 * Round(p as real / q as real) - 1) <= 2 * p < q * (2 * Round(p as real / q as real) + 1)
  {
    var k := (2 * p + q) / (2 * q);
    var x := p as real / q as real + 0.5;
    assert 2 * q * k <= 2 * p + q < 2 * q * k + 2 * q;
    assert x == (2 * p + q) as real / (2 * q) as real;
    assert (2 * q * k) as real <= (2 * p + q) as real;
    assert k as real <= x by {
      assert (k as real) * ((2 * q) as real) <= (2 * p + q) as real;
    }
    assert x < (k + 1) as real by {
      assert (2 * p + q) as real < ((k + 1) as real) * ((2 * q) as real);
    }
    assert x.Floor == k;
  }

  // ---------------------------------------------------------------------------------------
  // Top track: the left fold at scriptDATAVIZ.js:213-214, started at the first track; a later
  // track replaces the best one only with strictly more streams.
  // ---------------------------------------------------------------------------------------

  /** The fold from the left, started at `init`: an item replaces the current best only when
      it has strictly more streams. The result is `init` or an item; it has at least as many
      streams as `init` and every item; and when it is an item, it is the first item that
      beats `init` with that many streams. */
  function BestByStreams(init: Track, ts: seq<Track>): (r: Track)
    ensures r.streams >= init.streams
    ensures forall i :: 0 <= i < |ts| ==> ts[i].streams <= r.streams
    ensures || (r == init && forall i :: 0 <= i < |ts| ==> ts[i].streams <= init.streams)
            || exists i :: 0 <= i < |ts| && ts[i] == r && r.streams > init.streams
                            && forall j :: 0 <= j < i ==> ts[j].streams < r.streams
  {
    if ts == [] then init
    else
      var best := BestByStreams(init, ts[..|ts| - 1]);
      var item := ts[|ts| - 1];
      assert forall i :: 0 <= i < |ts| - 1 ==> ts[..|ts| - 1][i] == ts[i];
      if item.streams > best.streams then item else best
  }

  /** The most streamed track of a non-empty set; on ties the first one in set order wins,
      because a later track must have strictly more streams to replace it. */
  function TopTrack(ts: seq<Track>): (r: Track)
    requires ts != []
    ensures forall i :: 0 <= i < |ts| ==> ts[i].streams <= r.streams
    ensures exists i :: 0 <= i < |ts| && ts[i] == r && forall j :: 0 <= j < i ==> ts[j].streams < r.streams
  {
    BestByStreams(ts[0], ts)
  }

  /** The top track of a cleaned set is itself a valid record. */
  lemma TopTrackOfCleaned(rows: seq<RawRow>)
    requires Clean(rows) != []
    ensures Keep(TopTrack(Clean(rows)))
    ensures 0 < TopTrack(Clean(rows)).streams < StreamLimit
  {
  }

  // ---------------------------------------------------------------------------------------
  // Average tempo (scriptDATAVIZ.js:224-226): the tempos summed from the left, divided by the
  // number of tracks, and rounded to the nearest integer, halves up.
  // ---------------------------------------------------------------------------------------

  function SumBpm(ts: seq<Track>): int {
    if ts == [] then 0 else SumBpm(ts[..|ts| - 1]) + ts[|ts| - 1].bpm
  }

  /** The average tempo, rounded with `Math.round`: the integer nearest to the exact mean
      `SumBpm(ts) / |ts|`, halves rounded up. */
  function MeanBpm(ts: seq<Track>): (r: int)
    requires ts != []
    ensures |ts| * (2 * r - 1) <= 2 * SumBpm(ts) < |ts| * (2 * r + 1)
  {
    RoundQuotient(SumBpm(ts), |ts|);
    Round(SumBpm(ts) as real / |ts| as real)
  }

  /** Every tempo of the set lies in [lo, hi]. */
  predicate BpmWithin(ts: seq<Track>, lo: int, hi: int) {
    forall i :: 0 <= i < |ts| ==> lo <= ts[i].bpm <= hi
  }

  lemma {:induction false} SumBpmBounds(ts: seq<Track>, lo: int, hi: int)
    requires BpmWithin(ts, lo, hi)
    ensures |ts| * lo <= SumBpm(ts) <= |ts| * hi
  {
    if ts != [] {
      var init := ts[..|ts| - 1];
      assert BpmWithin(init, lo, hi) by {
        assert forall i :: 0 <= i < |init| ==> init[i] == ts[i];
      }
      SumBpmBounds(init, lo, hi);
      assert |ts| * lo == |init| * lo + lo;
      assert |ts| * hi == |init| * hi + hi;
    }
  }

  /** The rounded average is the integer nearest to the exact mean (halves up), and it lies
      between the smallest and the largest tempo of the set. */
  lemma MeanBpmBounds(ts: seq<Track>, lo: int, hi: int)
    requires ts != []
    requires BpmWithin(ts, lo, hi)
    ensures var n, r := |ts|, MeanBpm(ts);
      n * (2 * r - 1) <= 2 * SumBpm(ts) < n * (2 * r + 1)
    ensures lo <= MeanBpm(ts) <= hi
  {
    var n, s := |ts|, SumBpm(ts);
    RoundQuotient(s, n);
    SumBpmBounds(ts, lo, hi);
    RoundedMeanBetween(s, n, lo, hi);
  }

  lemma RoundedMeanBetween(s: int, n: int, lo: int, hi: int)
    requires n > 0 && n * lo <= s <= n * hi
    ensures lo <= (2 * s + n) / (2 * n) <= hi
  {
    var a, d := 2 * s + n, 2 * n;
    assert d * lo <= a by {
      assert d * lo == 2 * (n * lo);
    }
    assert a < d * (hi + 1) by {
      assert d * (hi + 1) == 2 * (n * hi) + 2 * n;
    }
    DivBetween(a, d, lo, hi);
  }

  /** Bounds on a quotient from bounds on the dividend. */
  lemma DivBetween(a: int, d: int, lo: int, hi: int)
    requires d > 0
    requires d * lo <= a < d * (hi + 1)
    ensures lo <= a / d <= hi
  {
    var q := a / d;
    assert d * q <= a < d * q + d;
    if q < lo {
      MulMonotone(d, q, lo - 1);
    }
    if q > hi {
      MulMonotone(d, hi + 1, q);
    }
  }

  lemma MulMonotone(d: int, x: int, y: int)
    requires d > 0 && x <= y
    ensures d * x <= d * y
  {
    assert d * y - d * x == d * (y - x);
  }

  /** On a cleaned set every tempo is positive, so the average tempo is at least 1. */
  lemma MeanBpmOfCleaned(rows: seq<RawRow>)
    requires Clean(rows) != []
    ensures MeanBpm(Clean(rows)) >= 1
  {
    MeanBpmPositive(Clean(rows));
  }

  /** A set of valid records has a positive average tempo. */
  lemma MeanBpmPositive(ts: seq<Track>)
    requires ts != []
    requires forall i :: 0 <= i < |ts| ==> Keep(ts[i])
    ensures MeanBpm(ts) >= 1
  {
    MeanBpmBounds(ts, 1, MaxBpm(ts));
  }

  /** The largest tempo of a set, with every tempo below it. */
  function MaxBpm(ts: seq<Track>): (m: int)
    requires ts != []
    ensures forall i :: 0 <= i < |ts| ==> ts[i].bpm <= m
    ensures exists i :: 0 <= i < |ts| && ts[i].bpm == m
  {
    if |ts| == 1 then ts[0].bpm
    else
      var m := MaxBpm(ts[1..]);
      assert forall i :: 1 <= i < |ts| ==> ts[i] == ts[1..][i - 1];
      if ts[0].bpm >= m then ts[0].bpm else m
  }
}
