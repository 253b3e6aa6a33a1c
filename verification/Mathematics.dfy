/** Timestamp arithmetic of libavutil/mathematics.c, on unbounded integers. */
module Mathematics {
  datatype Rational = Rational(num: int, den: int)
  {
    predicate Positive() { num > 0 && den > 0 }

    function Inverse(): Rational { Rational(den, num) }
  }

  /** av_rescale_rnd with AV_ROUND_NEAR_INF: a * b / c to the nearest integer, halves away from zero. */
  function Rescale(a: int, b: int, c: int): int
    requires b >= 0 && c > 0
  {
    if a < 0 then -((-a * b + c / 2) / c) else (a * b + c / 2) / c
  }

  function RescaleQ(a: int, from: Rational, to: Rational): int
    requires from.Positive() && to.Positive()
  {
    Rescale(a, from.num * to.den, to.num * from.den)
  }

  /** av_compare_ts: the sign of ts_a * tb_a - ts_b * tb_b. */
  function CompareTs(tsA: int, tbA: Rational, tsB: int, tbB: Rational): int {
    var a, b := tsA * (tbA.num * tbB.den), tsB * (tbB.num * tbA.den);
    if a < b then -1 else if a > b then 1 else 0
  }

  lemma TimesMonotone(a: int, b: int, c: int)
    requires a <= b && c > 0
    ensures a * c <= b * c
  {
  }

  lemma QuotientIs(x: int, c: int, m: int)
    requires c > 0 && m * c <= x < m * c + c
    ensures x / c == m
  {
    var q := x / c;
    assert q * c <= x < q * c + c;
    if q < m {
      TimesMonotone(q + 1, m, c);
    } else if q > m {
      TimesMonotone(m + 1, q, c);
    }
  }

  lemma RescaleBySame(a: int, c: int)
    requires c > 0
    ensures Rescale(a, c, c) == a
  {
    if a < 0 {
      QuotientIs(-a * c + c / 2, c, -a);
    } else {
      QuotientIs(a * c + c / 2, c, a);
    }
  }

  lemma RescaleUp(a: nat, b: nat, c: nat, r: int)
    requires c > 0 && r == (a * b + c / 2) / c
    ensures 2 * (r * c) - c <= 2 * (a * b) < 2 * (r * c) + c
  {
    var x := a * b + c / 2;
    assert r * c <= x < r * c + c;
  }

  lemma NegatedProduct(a: int, b: int)
    ensures -a * b == -(a * b)
  {
  }

  /** The rescaled value is the nearest integer to a * b / c, and of two nearest ones the one farther from zero. */
  lemma RescaleIsNearest(a: int, b: int, c: int)
    requires b >= 0 && c > 0
    ensures var r := Rescale(a, b, c);
      && 2 * (a * b) - c <= 2 * (r * c) <= 2 * (a * b) + c
      && (2 * (r * c) == 2 * (a * b) - c ==> a < 0)
      && (2 * (r * c) == 2 * (a * b) + c ==> a >= 0)
  {
    var n := if a < 0 then -a else a;
    var m := (n * b + c / 2) / c;
    RescaleUp(n, b, c, m);
    NegatedProduct(m, c);
    NegatedProduct(a, b);
  }

  /** A quotient of two distances that are less than c apart. */
  lemma MultiplesInOrder(m: int, n: int, c: int)
    requires c > 0 && m * c < n * c + c
    ensures m <= n
  {
    if m > n {
      TimesMonotone(n + 1, m, c);
    }
  }

  /** Later timestamps stay later or become equal. */
  lemma RescaleIsMonotone(a: int, a': int, b: int, c: int)
    requires a <= a' && b >= 0 && c > 0
    ensures Rescale(a, b, c) <= Rescale(a', b, c)
  {
    var r, r' := Rescale(a, b, c), Rescale(a', b, c);
    RescaleIsNearest(a, b, c);
    RescaleIsNearest(a', b, c);
    ProductsInOrder(a, a', b);
    assert r * c < r' * c + c;
    MultiplesInOrder(r, r', c);
  }

  lemma ProductsInOrder(a: int, a': int, b: int)
    requires a <= a' && b >= 0
    ensures a * b <= a' * b
  {
  }

  /** b ticks of one time base are as near as possible to a ticks of another: within half a tick. */
  ghost predicate Near(a: int, from: Rational, b: int, to: Rational) {
    var there, here := a * (from.num * to.den), b * (to.num * from.den);
    2 * there - to.num * from.den <= 2 * here <= 2 * there + to.num * from.den
  }

  /** av_rescale_q gives the nearest number of ticks, halves away from zero. */
  lemma RescaleQIsNearest(a: int, from: Rational, to: Rational)
    requires from.Positive() && to.Positive()
    ensures Near(a, from, RescaleQ(a, from, to), to)
    ensures var twice := 2 * (RescaleQ(a, from, to) * (to.num * from.den)) - 2 * (a * (from.num * to.den));
      (twice == -(to.num * from.den) ==> a < 0) && (twice == to.num * from.den ==> a >= 0)
  {
    RescaleIsNearest(a, from.num * to.den, to.num * from.den);
  }

  lemma RescaleQIsMonotone(a: int, a': int, from: Rational, to: Rational)
    requires from.Positive() && to.Positive() && a <= a'
    ensures RescaleQ(a, from, to) <= RescaleQ(a', from, to)
  {
    RescaleIsMonotone(a, a', from.num * to.den, to.num * from.den);
  }

  function ToReal(r: Rational): real
    requires r.den > 0
  {
    r.num as real / r.den as real
  }

  /** A timestamp in seconds. */
  function Seconds(ts: int, tb: Rational): real
    requires tb.den > 0
  {
    ts as real * ToReal(tb)
  }

  lemma SecondsAre(ts: int, tb: Rational, other: int)
    requires tb.den > 0 && other > 0
    ensures Seconds(ts, tb) * (tb.den as real * other as real) == (ts * (tb.num * other)) as real
  {
    var n, d, t, o := tb.num as real, tb.den as real, ts as real, other as real;
    assert ToReal(tb) * d == n;
    assert t * ToReal(tb) * (d * o) == t * (ToReal(tb) * d) * o;
    assert (ts * (tb.num * other)) as real == t * (n * o);
  }

  lemma ScaledInOrder(x: real, y: real, k: real)
    requires k > 0.0
    ensures x < y <==> x * k < y * k
  {
    if x < y {
      assert (y - x) * k > 0.0;
    } else {
      assert (x - y) * k >= 0.0;
    }
  }

  /** av_compare_ts compares the times, whatever the time bases. */
  lemma CompareTsIsTime(a: int, tbA: Rational, b: int, tbB: Rational)
    requires tbA.Positive() && tbB.Positive()
    ensures CompareTs(a, tbA, b, tbB) < 0 <==> Seconds(a, tbA) < Seconds(b, tbB)
    ensures CompareTs(a, tbA, b, tbB) > 0 <==> Seconds(a, tbA) > Seconds(b, tbB)
  {
    var k := tbA.den as real * tbB.den as real;
    assert k > 0.0;
    SecondsAre(a, tbA, tbB.den);
    SecondsAre(b, tbB, tbA.den);
    ScaledInOrder(Seconds(a, tbA), Seconds(b, tbB), k);
    ScaledInOrder(Seconds(b, tbB), Seconds(a, tbA), k);
  }

  /** Within one time base a timestamp is left as it is. */
  lemma RescaleQIdentity(a: int, tb: Rational)
    requires tb.Positive()
    ensures RescaleQ(a, tb, tb) == a
  {
    RescaleBySame(a, tb.num * tb.den);
  }

  /** Timestamps of one time base compare as numbers. */
  lemma CompareTsSame(a: int, b: int, tb: Rational)
    requires tb.Positive()
    ensures CompareTs(a, tb, b, tb) < 0 <==> a < b
  {
    var k := tb.num * tb.den;
    assert k > 0;
    if a < b {
      assert a * k < b * k;
    } else {
      assert a * k >= b * k;
    }
  }
}
