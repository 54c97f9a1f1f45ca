/** The acoustic/energy balance of the mirror chart: the mean acousticness and the mean
    energy, each scaled by 100, renormalised into two rounded percentages of their total. */
module Balance {
  import opened Options
  import opened Cleaning
  import opened Indicators

  /** The two per-track levels the balance adds up. */
  datatype Level = Acoustic | Energetic

  function LevelOf(t: Track, l: Level): int {
    match l
    case Acoustic => t.acousticness
    case Energetic => t.energy
  }

  /** The sum of one level over the set, folded from the left (scriptDATAVIZ.js:471-472). The
      level is already an integer, which the float parse there returns unchanged. */
  function Total(ts: seq<Track>, l: Level): int {
    if ts == [] then 0 else Total(ts[..|ts| - 1], l) + LevelOf(ts[|ts| - 1], l)
  }

  /** The two displayed percentages, acoustic first, computed in the source's order but on
      exact rationals rather than doubles:
      each mean times 100, then each one's share of their sum times 100, rounded.
      `None` when the result is not a finite number: an empty set (0/0) or a zero total
      (NaN, or an infinity when negative levels cancel positive ones). */
  function Percentages(ts: seq<Track>): Option<(int, int)> {
    var nb := |ts|;
    if nb == 0 then None
    else
      var meanA := Total(ts, Acoustic) as real / nb as real * 100.0;
      var meanE := Total(ts, Energetic) as real / nb as real * 100.0;
      var total := meanA + meanE;
      if total == 0.0 then None
      else Some((Round(meanA / total * 100.0), Round(meanE / total * 100.0)))
  }

  /** The count and the factor 100 cancel: each percentage is the rounded share of one
      total in the sum of both totals. */
  lemma PercentagesOfTotals(ts: seq<Track>)
    requires ts != []
    requires Total(ts, Acoustic) + Total(ts, Energetic) != 0
    ensures var a, e := Total(ts, Acoustic), Total(ts, Energetic);
      Percentages(ts) == Some((Round(100.0 * a as real / (a + e) as real),
                               Round(100.0 * e as real / (a + e) as real)))
  {
    var a, e, nb := Total(ts, Acoustic) as real, Total(ts, Energetic) as real, |ts| as real;
    Cancel(a, e, nb);
    Cancel(e, a, nb);
    assert a / nb * 100.0 + e / nb * 100.0 == e / nb * 100.0 + a / nb * 100.0;
  }

  lemma Cancel(x: real, y: real, n: real)
    requires n > 0.0 && x + y != 0.0
    ensures x / n * 100.0 + y / n * 100.0 != 0.0
    ensures (x / n * 100.0) / (x / n * 100.0 + y / n * 100.0) * 100.0 == 100.0 * x / (x + y)
  {
    var k := 100.0 / n;
    assert x / n * 100.0 == x * k;
    assert y / n * 100.0 == y * k;
    assert x * k + y * k == (x + y) * k;
    assert k > 0.0;
    assert (x * k) / ((x + y) * k) == x / (x + y);
  }

  /** Every track's two levels are at least 0 (as in the data set; the cleaning step does not
      check it). */
  predicate NonNegativeLevels(ts: seq<Track>) {
    forall i :: 0 <= i < |ts| ==> ts[i].acousticness >= 0 && ts[i].energy >= 0
  }

  lemma {:induction false} TotalNonNegative(ts: seq<Track>, l: Level)
    requires NonNegativeLevels(ts)
    ensures Total(ts, l) >= 0
  {
    if ts != [] {
      var init := ts[..|ts| - 1];
      assert NonNegativeLevels(init) by {
        assert forall i :: 0 <= i < |init| ==> init[i] == ts[i];
      }
      TotalNonNegative(init, l);
    }
  }

  /** In exact arithmetic, with non-negative levels that are not all 0, both percentages lie
      in [0, 100] and they add up to 100 or 101: independent rounding can push the pair one
      over 100 (at exact halves), never under. The code's doubles can land just below an
      exact half and round down, so there the pair can also add up to 99. */
  lemma PercentagesBounds(ts: seq<Track>)
    requires ts != []
    requires NonNegativeLevels(ts)
    requires Total(ts, Acoustic) + Total(ts, Energetic) > 0
    ensures Percentages(ts).Some?
    ensures var (pa, pe) := Percentages(ts).value;
      && 0 <= pa <= 100 && 0 <= pe <= 100
      && 100 <= pa + pe <= 101
  {
    var a, e := Total(ts, Acoustic), Total(ts, Energetic);
    TotalNonNegative(ts, Acoustic);
    TotalNonNegative(ts, Energetic);
    PercentagesOfTotals(ts);
    SharesBounds(a, e);
  }

  /** The integer core of the bounds: the rounded shares of `a` and `e` in `a + e`. */
  lemma SharesBounds(a: int, e: int)
    requires a >= 0 && e >= 0 && a + e > 0
    ensures var pa, pe := Round(100.0 * a as real / (a + e) as real), Round(100.0 * e as real / (a + e) as real);
      0 <= pa <= 100 && 0 <= pe <= 100 && 100 <= pa + pe <= 101
  {
    var t := a + e;
    RoundedShare(a, t);
    RoundedShare(e, t);
    var pa, pe := (200 * a + t) / (2 * t), (200 * e + t) / (2 * t);
    DivRange(200 * a + t, 2 * t);
    DivRange(200 * e + t, 2 * t);
    RoundedShareBounds(a, t, pa);
    RoundedShareBounds(e, t, pe);
    PairSum(t, pa, pe, 200 * a + t, 200 * e + t);
  }

  /** The rounded percentage share of `x` in `t` is an integer quotient. */
  lemma RoundedShare(x: int, t: int)
    requires t > 0
    ensures Round(100.0 * x as real / t as real) == (200 * x + t) / (2 * t)
  {
    assert 100.0 * x as real / t as real == (100 * x) as real / t as real;
    RoundQuotient(100 * x, t);
    assert 2 * (100 * x) + t == 200 * x + t;
  }

  lemma DivRange(n: int, d: int)
    requires d > 0
    ensures d * (n / d) <= n < d * (n / d) + d
  {
  }

  lemma RoundedShareBounds(x: int, t: int, p: int)
    requires 0 <= x <= t && t > 0
    requires 2 * t * p <= 200 * x + t < 2 * t * p + 2 * t
    ensures 0 <= p <= 100
  {
    if p < 0 {
      MulMonotone(2 * t, p, -1);
    }
    if p > 100 {
      MulMonotone(2 * t, 101, p);
    }
  }

  lemma PairSum(t: int, pa: int, pe: int, u: int, v: int)
    requires t > 0 && u + v == 200 * t + 2 * t
    requires 2 * t * pa <= u < 2 * t * pa + 2 * t
    requires 2 * t * pe <= v < 2 * t * pe + 2 * t
    ensures 100 <= pa + pe <= 101
  {
    assert 2 * t * (pa + pe) <= 202 * t;
    assert 202 * t < 2 * t * (pa + pe + 2);
    if pa + pe > 101 {
      MulMonotone(2 * t, 102, pa + pe);
    }
    if pa + pe < 100 {
      MulMonotone(2 * t, pa + pe + 2, 101);
    }
  }

  /** The pair need not add up to 100: one track with acousticness 1 and energy 7 shows
      12.5% and 87.5%, which round to 13 and 88. */
  lemma PercentagesMaySumTo101()
    ensures Percentages([Track("t", "a", 1, 120, 0, 0, 7, 0, 0, 1)]) == Some((13, 88))
  {
    var ts := [Track("t", "a", 1, 120, 0, 0, 7, 0, 0, 1)];
    assert Total(ts, Acoustic) == 1 && Total(ts, Energetic) == 7 by {
      assert ts[..0] == [];
    }
    PercentagesOfTotals(ts);
    RoundQuotient(100, 8);
    RoundQuotient(700, 8);
    assert 100.0 * 1 as real / 8 as real == 100 as real / 8 as real;
    assert 100.0 * 7 as real / 8 as real == 700 as real / 8 as real;
  }

  /** An empty set, or one whose levels are all 0, has no percentages (NaN in the source). */
  lemma PercentagesUndefined(ts: seq<Track>)
    requires ts == [] || Total(ts, Acoustic) + Total(ts, Energetic) == 0
    ensures Percentages(ts) == None
  {
    if ts != [] {
      var a, e, nb := Total(ts, Acoustic) as real, Total(ts, Energetic) as real, |ts| as real;
      var k := 100.0 / nb;
      assert a / nb * 100.0 == a * k && e / nb * 100.0 == e * k;
      assert a * k + e * k == (a + e) * k;
    }
  }
}
