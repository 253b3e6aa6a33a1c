/** av_rescale_rnd and av_compare_ts of libavutil/mathematics.c in 64-bit arithmetic, against exact arithmetic. */
module Rescale64 {
  import opened Wrappers
  import opened Mathematics

  const INT_MAX := 0x7FFF_FFFF
  const INT64_MAX := 0x7FFF_FFFF_FFFF_FFFF
  const INT64_MIN := -INT64_MAX - 1
  const TWO_32 := 0x1_0000_0000
  const TWO_64 := 0x1_0000_0000_0000_0000

  /** int64_t */
  predicate Is64(x: int) { INT64_MIN <= x <= INT64_MAX }

  /** uint64_t arithmetic */
  function Wrap64(x: int): nat { x % TWO_64 }

  /** A uint64_t read as an int64_t. */
  function Signed(x: nat): int { if x > INT64_MAX then x - TWO_64 else x }

  /** AVRounding: towards zero, away from zero, down, up, to the nearest and halves away from zero. */
  datatype Rounding = Zero | Inf | Down | Up | NearInf

  // -------------------------------------------------------------------------------------------- specification

  /** The same rounding seen from the other side of zero. */
  function Flip(rnd: Rounding): Rounding {
    match rnd
    case Down => Up
    case Up => Down
    case _ => rnd
  }

  /** What is added before dividing a number that is not negative by c. */
  function Bias(c: int, rnd: Rounding): (r: int)
    requires c > 0
    ensures 0 <= r < c
  {
    match rnd
    case NearInf => c / 2
    case Inf => c - 1
    case Up => c - 1
    case _ => 0
  }

  /** a * b / c, rounded. */
  function Rounded(a: int, b: int, c: int, rnd: Rounding): int
    requires c > 0
  {
    if a < 0 then -((-a * b + Bias(c, Flip(rnd))) / c) else (a * b + Bias(c, rnd)) / c
  }

  /** A number that has no 64 bits, or is the least that has, is INT64_MIN. */
  function Fit(x: int): int { if -INT64_MAX <= x <= INT64_MAX then x else INT64_MIN }

  lemma QuotientBounds(x: int, c: int, q: int)
    requires c > 0 && q == x / c
    ensures q * c <= x < q * c + c
  {
  }

  /** Rounding of the exact product n, given the result r of a division. */
  ghost predicate IsRounded(n: int, c: int, rnd: Rounding, r: int) {
    match rnd
    case Down => r * c <= n < r * c + c
    case Up => r * c - c < n <= r * c
    case Zero => if n >= 0 then r * c <= n < r * c + c else r * c - c < n <= r * c
    case Inf => if n >= 0 then r * c - c < n <= r * c else r * c <= n < r * c + c
    case NearInf => if n >= 0 then 2 * n - c < 2 * (r * c) <= 2 * n + c else 2 * n - c <= 2 * (r * c) < 2 * n + c
  }

  lemma NaturalIsRounded(n: nat, c: int, rnd: Rounding, r: int)
    requires c > 0 && r == (n + Bias(c, rnd)) / c
    ensures IsRounded(n, c, rnd, r)
  {
    QuotientBounds(n + Bias(c, rnd), c, r);
  }

  lemma NegativeIsRounded(n: int, c: int, rnd: Rounding, r: int)
    requires c > 0 && n >= 0 && IsRounded(n, c, Flip(rnd), r) && (n == 0 ==> r == 0)
    ensures IsRounded(-n, c, rnd, -r)
  {
    assert -r * c == -(r * c);
  }

  lemma ZeroIsRounded(c: int, rnd: Rounding)
    requires c > 0
    ensures (0 + Bias(c, rnd)) / c == 0
  {
  }

  /** Rounded gives a * b / c as the rounding asks for. */
  lemma RoundedIs(a: int, b: int, c: int, rnd: Rounding)
    requires b >= 0 && c > 0
    ensures IsRounded(a * b, c, rnd, Rounded(a, b, c, rnd))
  {
    var n := if a < 0 then -a * b else a * b;
    var way := if a < 0 then Flip(rnd) else rnd;
    NaturalIsRounded(n, c, way, (n + Bias(c, way)) / c);
    if a < 0 {
      assert a * b == -n;
      ZeroIsRounded(c, way);
      NegativeIsRounded(n, c, rnd, (n + Bias(c, way)) / c);
    }
  }

  // ---------------------------------------------------------------------------------------- the long division

  function Pow2(n: nat): (p: nat)
    ensures p > 0
  {
    if n == 0 then 1 else 2 * Pow2(n - 1)
  }

  lemma DoubledFactor(x: int, y: int)
    ensures x * (2 * y) == 2 * (x * y)
  {
  }

  lemma {:induction false} Pow2Sum(m: nat, n: nat)
    ensures Pow2(m + n) == Pow2(m) * Pow2(n)
  {
    if n > 0 {
      Pow2Sum(m, n - 1);
      DoubledFactor(Pow2(m), Pow2(n - 1));
    }
  }

  lemma Squared(m: nat, p: nat, n: nat, q: nat)
    requires Pow2(m) == p && n == m + m && q == p * p
    ensures Pow2(n) == q
  {
    Pow2Sum(m, m);
  }

  lemma Pow2Of(n: nat)
    requires n == 64
    ensures Pow2(n) == TWO_64
  {
    var four := n / 16;
    assert Pow2(four) == 2 * Pow2(four - 1) && Pow2(four - 1) == 2 * Pow2(four - 2);
    Squared(four, 16, 2 * four, 0x100);
    Squared(2 * four, 0x100, 4 * four, 0x1_0000);
    Squared(4 * four, 0x1_0000, 8 * four, TWO_32);
    Squared(8 * four, TWO_32, n, TWO_64);
  }

  /** Bit i of x. */
  function Bit(x: nat, i: nat): (bit: nat)
    ensures bit <= 1
  {
    x / Pow2(i) % 2
  }

  /** The first k bits of a 128-bit number. */
  function Top(hi: nat, lo: nat, k: nat): int
    requires k <= 64
  {
    hi * Pow2(k) + lo / Pow2(64 - k)
  }

  /** A quotient lies where its bounds say. */
  lemma Between(low: int, q: int, high: int, x: int, p: int)
    requires p > 0 && low * p <= x < high * p && q * p <= x < q * p + p
    ensures low <= q < high
  {
    assert q < low ==> (low - 1 - q) * p >= 0;
    assert q >= high ==> (q - high) * p >= 0;
  }

  lemma HalfOf(x: int, p: int, q: int, h: int)
    requires p > 0 && q * p <= x < q * p + p && h * (2 * p) <= x < h * (2 * p) + 2 * p
    ensures q == 2 * h + q % 2
  {
    assert h * (2 * p) == 2 * h * p && (2 * h + 2) * p == 2 * h * p + 2 * p;
    Between(2 * h, q, 2 * h + 2, x, p);
  }

  lemma HalfQuotient(x: int, p: int)
    requires p > 0
    ensures x / p == 2 * (x / (2 * p)) + x / p % 2
  {
    QuotientBounds(x, p, x / p);
    QuotientBounds(x, 2 * p, x / (2 * p));
    HalfOf(x, p, x / p, x / (2 * p));
  }

  lemma TopNext(hi: nat, lo: nat, k: nat)
    requires k < 64
    ensures Top(hi, lo, k + 1) == 2 * Top(hi, lo, k) + Bit(lo, 63 - k)
  {
    HalfQuotient(lo, Pow2(63 - k));
    DoubledFactor(hi, Pow2(k));
  }

  /** After k turns of the division loop: the quotient's bits so far, q, stand behind what t1 held before. */
  ghost predicate QuotientBits(t0: nat, k: nat, t1: nat, q: nat) {
    q < Pow2(k) && t1 == Wrap64(t0 * Pow2(k) + q)
  }

  /** And a1 is the remainder, if the quotient has 64 bits; otherwise the first bit of q is set. */
  ghost predicate Remains(hi: nat, lo: nat, c: nat, k: nat, a1: nat, q: nat)
    requires k <= 64
  {
    if hi < c then a1 < c && a1 + q * c == Top(hi, lo, k)
    else if k == 0 then a1 == hi
    else q >= Pow2(k - 1)
  }

  lemma WrapIs(x: int, h: int, y: int)
    requires x == h * TWO_64 + y && 0 <= y < TWO_64
    ensures Wrap64(x) == y
  {
  }

  lemma WrapDoubles(t: nat, bit: nat)
    requires bit <= 1
    ensures Wrap64(2 * t + bit)
      == if bit == 0 then Wrap64(Wrap64(t) + Wrap64(t)) else Wrap64(Wrap64(Wrap64(t) + Wrap64(t)) + 1)
  {
    var h, m := t / TWO_64, Wrap64(t);
    var over := if m > INT64_MAX then 1 else 0;
    WrapIs(m + m, over, 2 * m - over * TWO_64);
    WrapIs(2 * t + bit, 2 * h + over, 2 * m - over * TWO_64 + bit);
  }

  lemma BitsGoOn(t0: nat, k: nat, t1: nat, q: nat, bit: nat)
    requires QuotientBits(t0, k, t1, q) && bit <= 1
    ensures QuotientBits(t0, k + 1, if bit == 0 then Wrap64(t1 + t1) else Wrap64(Wrap64(t1 + t1) + 1), 2 * q + bit)
  {
    var base := t0 * Pow2(k);
    WrapDoubles(base + q, bit);
    DoubledFactor(t0, Pow2(k));
  }

  /** A turn while the quotient fits, given the shifted remainder x and the new bit of the quotient. */
  lemma RemainderGoesOn(top: int, c: nat, a1: nat, q: nat, next: nat, x: nat, bit: nat, a1': nat)
    requires a1 < c <= INT64_MAX && a1 + q * c == top && next <= 1
    requires x == Wrap64(a1 + a1 + next) && bit == (if c <= x then 1 else 0) && a1' == (if c <= x then x - c else x)
    ensures a1' < c && a1' + (2 * q + bit) * c == 2 * top + next
  {
    assert (2 * q + bit) * c == 2 * (q * c) + bit * c;
    assert x == a1 + a1 + next;
  }

  /** The first turn when it does not. */
  lemma FirstBitIsSet(hi: nat, c: nat, next: nat)
    requires c <= hi <= INT64_MAX && next <= 1
    ensures c <= Wrap64(hi + hi + next)
  {
  }

  lemma RemainsAfterTurn(hi: nat, lo: nat, c: nat, k: nat, a1: nat, q: nat, x: nat, bit: nat, a1': nat)
    requires k < 64 && Remains(hi, lo, c, k, a1, q) && 0 < c <= INT64_MAX && hi <= INT64_MAX
    requires x == Wrap64(a1 + a1 + Bit(lo, 63 - k)) && bit == (if c <= x then 1 else 0)
    requires a1' == if c <= x then x - c else x
    ensures Remains(hi, lo, c, k + 1, a1', 2 * q + bit)
  {
    if hi < c {
      TopNext(hi, lo, k);
      RemainderGoesOn(Top(hi, lo, k), c, a1, q, Bit(lo, 63 - k), x, bit, a1');
    } else if k == 0 {
      FirstBitIsSet(hi, c, Bit(lo, 63 - k));
    }
  }

  /** The remainder with the next bit of the low word behind it. */
  function Shifted(lo: nat, k: nat, a1: nat): nat
    requires k < 64
  {
    Wrap64(a1 + a1 + Bit(lo, 63 - k))
  }

  /** One turn of the division loop, which takes bit 63 - k. */
  method DivideTurn(hi: nat, lo: nat, c: nat, ghost t0: nat, k: nat, a1: nat, t1: nat, ghost q: nat)
    returns (a1': nat, t1': nat)
    requires 0 < c <= INT64_MAX && hi <= INT64_MAX && k < 64
    requires QuotientBits(t0, k, t1, q) && Remains(hi, lo, c, k, a1, q)
    ensures var q' := 2 * q + if c <= Shifted(lo, k, a1) then 1 else 0;
      QuotientBits(t0, k + 1, t1', q') && Remains(hi, lo, c, k + 1, a1', q')
  {
    a1' := Wrap64(a1 + a1 + Bit(lo, 63 - k));
    t1' := Wrap64(t1 + t1);
    ghost var x, bit := a1', if c <= a1' then 1 else 0;
    if c <= a1' {
      a1' := a1' - c;
      t1' := Wrap64(t1' + 1);
    }
    BitsGoOn(t0, k, t1, q, bit);
    RemainsAfterTurn(hi, lo, c, k, a1, q, x, bit, a1');
  }

  /** The division loop: the quotient of a 128-bit number, or one with its first bit set if it has more than 64. */
  method Divide(hi: nat, lo: nat, c: nat, t0: nat) returns (t1: nat)
    requires 0 < c <= INT64_MAX && hi <= INT64_MAX && lo < TWO_64 && t0 < TWO_64
    ensures if hi < c then t1 == (hi * TWO_64 + lo) / c else INT64_MAX < t1 < TWO_64
  {
    var a1: nat, i := hi, 63;
    t1 := t0;
    ghost var q: nat := 0;
    Untouched(hi, lo, c, t0);
    while i >= 0
      invariant -1 <= i <= 63
      invariant QuotientBits(t0, 63 - i, t1, q) && Remains(hi, lo, c, 63 - i, a1, q)
    {
      ghost var next := 2 * q + if c <= Shifted(lo, 63 - i, a1) then 1 else 0;
      a1, t1 := DivideTurn(hi, lo, c, t0, 63 - i, a1, t1, q);
      q := next;
      i := i - 1;
    }
    Divided(hi, lo, c, t0, a1, t1, q, 63 - i);
  }

  lemma Untouched(hi: nat, lo: nat, c: nat, t0: nat)
    requires lo < TWO_64 && t0 < TWO_64
    ensures QuotientBits(t0, 0, t0, 0) && Remains(hi, lo, c, 0, hi, 0)
  {
    Pow2Of(64);
  }

  lemma Divided(hi: nat, lo: nat, c: nat, t0: nat, a1: nat, t1: nat, q: nat, k: nat)
    requires c > 0 && k == 64 && QuotientBits(t0, k, t1, q) && Remains(hi, lo, c, k, a1, q)
    ensures if hi < c then t1 == (hi * TWO_64 + lo) / c else INT64_MAX < t1 < TWO_64
  {
    Pow2Of(k);
    WrapIs(t0 * Pow2(k) + q, t0, q);
    if hi < c {
      assert Top(hi, lo, k) == hi * TWO_64 + lo;
      QuotientIs(hi * TWO_64 + lo, c, q);
    } else {
      assert Pow2(k) == 2 * Pow2(k - 1);
    }
  }

  // -------------------------------------------------------------------------------------------- the long product

  /** An addition that wraps, and the carry that its result shows. */
  lemma Carry(x: nat, y: nat)
    requires x < TWO_64 && y < TWO_64
    ensures Wrap64(x + y) + (if Wrap64(x + y) < y then TWO_64 else 0) == x + y
  {
  }

  lemma ShiftedUp(t: nat)
    ensures Wrap64(t * TWO_32) == t % TWO_32 * TWO_32
    ensures Wrap64(t * TWO_32) + t / TWO_32 * TWO_64 == t * TWO_32
  {
    var h, l := t / TWO_32, t % TWO_32;
    assert t * TWO_32 == h * TWO_64 + l * TWO_32;
    WrapIs(t * TWO_32, h, l * TWO_32);
  }

  lemma BothHalves(a: nat, b: nat, l: nat, h: nat, b0: nat, b1: nat)
    requires a == h * TWO_32 + l && b == b1 * TWO_32 + b0
    ensures a * b == h * b1 * TWO_64 + (l * b1 + h * b0) * TWO_32 + l * b0
  {
    assert a * b == h * TWO_32 * (b1 * TWO_32) + h * TWO_32 * b0 + l * (b1 * TWO_32) + l * b0;
  }

  lemma SmallProduct(x: nat, y: nat, m: nat, n: nat)
    requires x <= m && y <= n
    ensures 0 <= x * y <= m * n
  {
    assert x * y <= m * y <= m * n;
  }

  /** No product of two halves, and not the sum of the two in the middle, needs more than 64 bits. */
  lemma HalvesFit(l: nat, h: nat, b0: nat, b1: nat)
    requires l < TWO_32 && h <= INT_MAX && b0 < TWO_32 && b1 <= INT_MAX
    ensures 0 <= l * b1 + h * b0 < TWO_64 && 0 <= l * b0 < TWO_64 && 0 <= h * b1 < 0x4000_0000_0000_0000
  {
    SmallProduct(l, b1, TWO_32 - 1, INT_MAX);
    SmallProduct(h, b0, INT_MAX, TWO_32 - 1);
    SmallProduct(l, b0, TWO_32 - 1, TWO_32 - 1);
    SmallProduct(h, b1, INT_MAX, INT_MAX);
  }

  lemma HighWordFits(high: nat, m: nat, carry: nat)
    requires high < 0x4000_0000_0000_0000 && m < TWO_64 && carry <= 1
    ensures Wrap64(high + m / TWO_32 + carry) == high + m / TWO_32 + carry <= 0x4000_0001_0000_0000
  {
  }

  /** The two words of a product, from those of its halves: the middle product m is split between them. */
  lemma WordsOfProduct(low: nat, m: nat, high: nat, m': nat, lo: nat, hi: nat)
    requires low < TWO_64 && m < TWO_64 && m' == Wrap64(m * TWO_32) && lo == Wrap64(low + m')
    requires hi == high + m / TWO_32 + if lo < m' then 1 else 0
    ensures hi * TWO_64 + lo == high * TWO_64 + m * TWO_32 + low
  {
    ShiftedUp(m);
    Carry(low, m');
  }

  /** The two words that the code makes of the products of the low, of the high, and of mixed halves. */
  ghost predicate Combined(low: int, middle: int, high: int, m: nat, m': nat, lo: nat, hi: nat) {
    && m == Wrap64(middle) && m' == Wrap64(m * TWO_32) && lo == Wrap64(low + m')
    && hi == Wrap64(high + m / TWO_32 + if lo < m' then 1 else 0)
  }

  lemma CombinedIs(n: int, low: int, middle: int, high: int, m: nat, m': nat, lo: nat, hi: nat)
    requires n == high * TWO_64 + middle * TWO_32 + low
    requires 0 <= low < TWO_64 && 0 <= middle < TWO_64 && 0 <= high < 0x4000_0000_0000_0000
    requires Combined(low, middle, high, m, m', lo, hi)
    ensures hi * TWO_64 + lo == n && hi <= 0x4000_0001_0000_0000
  {
    assert m == middle;
    var carry := if lo < m' then 1 else 0;
    HighWordFits(high, m, carry);
    WordsOfProduct(low, m, high, m', lo, high + m / TWO_32 + carry);
  }

  lemma MultipliedIs(a: nat, b: nat, l: nat, h: nat, b0: nat, b1: nat, m: nat, m': nat, lo: nat, hi: nat)
    requires a == h * TWO_32 + l && b == b1 * TWO_32 + b0
    requires l < TWO_32 && h <= INT_MAX && b0 < TWO_32 && b1 <= INT_MAX
    requires Combined(l * b0, l * b1 + h * b0, h * b1, m, m', lo, hi)
    ensures hi * TWO_64 + lo == a * b && hi <= 0x4000_0001_0000_0000
  {
    HalvesFit(l, h, b0, b1);
    BothHalves(a, b, l, h, b0, b1);
    CombinedIs(a * b, l * b0, l * b1 + h * b0, h * b1, m, m', lo, hi);
  }

  /** a * b in two words. */
  method Multiply(a: nat, b: nat) returns (a1: nat, a0: nat, t1: nat)
    requires a <= INT64_MAX && b <= INT64_MAX
    ensures a1 * TWO_64 + a0 == a * b && a0 < TWO_64 && t1 < TWO_64 && a1 <= 0x4000_0001_0000_0000
  {
    var l, h, b0, b1 := a % TWO_32, a / TWO_32, b % TWO_32, b / TWO_32;
    t1 := Wrap64(l * b1 + h * b0);
    var t1a := Wrap64(t1 * TWO_32);
    a0 := Wrap64(l * b0 + t1a);
    a1 := Wrap64(h * b1 + t1 / TWO_32 + if a0 < t1a then 1 else 0);
    MultipliedIs(a, b, l, h, b0, b1, t1, t1a, a0, a1);
  }

  /** The branch of av_rescale_rnd for factors of more than 31 bits. */
  method LongQuotient(a: nat, b: nat, c: nat, r: nat) returns (x: int)
    requires a <= INT64_MAX && b <= INT64_MAX && r < c <= INT64_MAX
    ensures x == Fit((a * b + r) / c)
  {
    var a1, a0, t1 := Multiply(a, b);
    ghost var hi, lo := a1, a0;
    a0 := Wrap64(a0 + r);
    a1 := Wrap64(a1 + if a0 < r then 1 else 0);
    AddedIs(hi, lo, r, a0, a1, a * b + r);
    LargeQuotient(a1, a0, c, (a * b + r) / c);
    t1 := Divide(a1, a0, c, t1);
    x := if t1 > INT64_MAX then INT64_MIN else t1;
  }

  lemma AddedIs(hi: nat, lo: nat, r: nat, lo': nat, hi': nat, n: int)
    requires lo < TWO_64 && hi <= 0x4000_0001_0000_0000 && r <= INT64_MAX && n == hi * TWO_64 + lo + r
    requires lo' == Wrap64(lo + r) && hi' == Wrap64(hi + if lo' < r then 1 else 0)
    ensures hi' * TWO_64 + lo' == n && hi' <= INT64_MAX
  {
    Carry(lo, r);
  }

  lemma LargeQuotient(hi: nat, lo: nat, c: nat, q: int)
    requires c > 0 && q == (hi * TWO_64 + lo) / c
    ensures q >= 0 && (hi >= c ==> q >= TWO_64)
  {
    var n := hi * TWO_64 + lo;
    QuotientBounds(n, c, q);
    AtLeast(0, q, n, c);
    if hi >= c {
      AtLeast(TWO_64, q, n, c);
    }
  }

  lemma AtLeast(low: int, q: int, x: int, c: int)
    requires c > 0 && low * c <= x < q * c + c
    ensures low <= q
  {
    assert q < low ==> (low - 1 - q) * c >= 0;
  }

  // ------------------------------------------------------------------------------------------ av_rescale_rnd

  /** av_rescale_rnd; `passMinMax` is AV_ROUND_PASS_MINMAX.  The least 64-bit number counts as the one above it, and
      what cannot be computed is INT64_MIN. */
  function Rescaled(a: int, b: int, c: int, rnd: Rounding, passMinMax: bool): int {
    if c <= 0 || b < 0 then INT64_MIN
    else if passMinMax && (a == INT64_MIN || a == INT64_MAX) then a
    else Fit(Rounded(Max(a, -INT64_MAX), b, c, rnd))
  }

  /** A quotient of small factors is small. */
  lemma ShortQuotient(a: nat, b: nat, c: nat, r: nat)
    requires a <= INT_MAX && b <= INT_MAX && r < c <= INT_MAX
    ensures 0 <= a * b + r <= INT64_MAX && 0 <= (a * b + r) / c <= INT64_MAX
  {
    SmallProduct(a, b, INT_MAX, INT_MAX);
    QuotientAtMost(a * b + r, c);
  }

  lemma QuotientAtMost(n: nat, c: nat)
    requires c > 0
    ensures 0 <= n / c <= n
  {
    QuotientBounds(n, c, n / c);
    AtLeast(0, n / c, n, c);
    SmallProduct(n, 1, n, c);
    AtLeast(n / c, n, n, c);
  }

  /** Dividing a first and rounding the rest. */
  lemma SplitQuotient(a: nat, b: nat, c: nat, r: nat, ad: int, rest: int, a2: int)
    requires c > 0 && ad == a / c && rest == a % c && a2 == (rest * b + r) / c
    ensures (a * b + r) / c == ad * b + a2
  {
    QuotientBounds(rest * b + r, c, a2);
    assert a * b == (ad * c + rest) * b == ad * b * c + rest * b;
    QuotientIs(a * b + r, c, ad * b + a2);
  }

  /** The rest of a split quotient is at most b. */
  lemma RestIsSmall(b: nat, c: nat, r: nat, rest: nat, a2: int)
    requires b <= INT_MAX && r < c <= INT_MAX && rest < c && a2 == (rest * b + r) / c
    ensures 0 <= rest * b + r <= INT64_MAX && 0 <= a2 <= b
  {
    var n := rest * b + r;
    SmallProduct(rest, b, c - 1, b);
    assert (c - 1) * b == b * c - b;
    QuotientBounds(n, c, a2);
    AtLeast(0, a2, n, c);
    AtLeast(a2, b, n, c);
    SmallProduct(rest, b, INT_MAX, INT_MAX);
  }

  /** The test for overflow before a sum is formed. */
  lemma SumFitsIff(ad: nat, b: nat, a2: nat)
    requires a2 <= b <= INT_MAX
    ensures (ad >= INT_MAX && b != 0 && ad > (INT64_MAX - a2) / b) <==> ad * b + a2 > INT64_MAX
  {
    if b != 0 {
      var q := (INT64_MAX - a2) / b;
      QuotientBounds(INT64_MAX - a2, b, q);
      FloorBelowIff(q, INT64_MAX - a2, b, ad);
      if ad < INT_MAX {
        SmallProduct(ad, b, INT_MAX, INT_MAX);
      }
    }
  }

  /** The branch for b and c of at most 31 bits. */
  method ShortRescale(a: nat, b: nat, c: nat, r: nat) returns (x: int)
    requires a <= INT64_MAX && b <= INT_MAX && r < c <= INT_MAX
    ensures x == Fit((a * b + r) / c)
  {
    if a <= INT_MAX {
      ShortQuotient(a, b, c, r);
      assert Is64(a * b + r);
      x := (a * b + r) / c;
    } else {
      var ad := a / c;
      RestIsSmall(b, c, r, a % c, (a % c * b + r) / c);
      assert Is64(a % c * b + r);
      var a2 := (a % c * b + r) / c;
      QuotientAtMost(a, c);
      SplitQuotient(a, b, c, r, ad, a % c, a2);
      SumFitsIff(ad, b, a2);
      if ad >= INT_MAX && b != 0 && ad > (INT64_MAX - a2) / b {
        return INT64_MIN;
      }
      SmallProduct(ad, b, ad, b);
      x := ad * b + a2;
    }
  }

  /** Negating in 64 bits what is rescaled on the other side of zero. */
  lemma FromOtherSide(a: int, b: int, c: int, rnd: Rounding)
    requires a < 0 && b >= 0 && c > 0
    ensures Signed(Wrap64(-Rescaled(-Max(a, -INT64_MAX), b, c, Flip(rnd), false)))
      == Fit(Rounded(Max(a, -INT64_MAX), b, c, rnd))
  {
    NegatedFit((-Max(a, -INT64_MAX) * b + Bias(c, Flip(rnd))) / c);
  }

  lemma NegatedFit(y: int)
    ensures Signed(Wrap64(-Fit(y))) == Fit(-y)
  {
    var f := Fit(y);
    if f <= 0 {
      WrapIs(-f, 0, -f);
    } else {
      WrapIs(-f, -1, TWO_64 - f);
    }
  }

  method RescaleRnd(a: int, b: int, c: int, rnd: Rounding, passMinMax: bool) returns (x: int)
    requires Is64(a) && Is64(b) && Is64(c)
    ensures Is64(x) && x == Rescaled(a, b, c, rnd, passMinMax)
    decreases if a < 0 then 1 else 0
  {
    if c <= 0 || b < 0 {
      return INT64_MIN;
    }
    if passMinMax && (a == INT64_MIN || a == INT64_MAX) {
      return a;
    }
    if a < 0 {
      var opposite := RescaleRnd(-Max(a, -INT64_MAX), b, c, Flip(rnd), false);
      FromOtherSide(a, b, c, rnd);
      return Signed(Wrap64(-opposite));
    }
    var r := Bias(c, rnd);
    if b <= INT_MAX && c <= INT_MAX {
      x := ShortRescale(a, b, c, r);
    } else {
      x := LongQuotient(a, b, c, r);
    }
  }

  // --------------------------------------------------------------------------------------- time bases

  /** A time base of two positive ints. */
  predicate Base(tb: Rational) { 0 < tb.num <= INT_MAX && 0 < tb.den <= INT_MAX }

  lemma CrossProduct(m: int, n: int)
    requires 0 < m <= INT_MAX && 0 < n <= INT_MAX
    ensures 0 < m * n <= INT64_MAX
  {
    SmallProduct(m, n, INT_MAX, INT_MAX);
  }

  /** av_rescale_q is the exact rescaling wherever that has 64 bits, and INT64_MIN elsewhere. */
  method RescaleQ64(a: int, from: Rational, to: Rational) returns (x: int)
    requires INT64_MIN < a <= INT64_MAX && Base(from) && Base(to)
    ensures x == if -INT64_MAX <= RescaleQ(a, from, to) <= INT64_MAX then RescaleQ(a, from, to) else INT64_MIN
  {
    CrossProduct(from.num, to.den);
    CrossProduct(to.num, from.den);
    x := RescaleRnd(a, from.num * to.den, to.num * from.den, NearInf, false);
  }

  lemma FloorBelowIff(f: int, n: int, b: int, t: int)
    requires b > 0 && f * b <= n < f * b + b
    ensures f < t <==> n < t * b
  {
    if n < t * b {
      assert (t - 1) * b + b == t * b;
      AtLeast(f, t - 1, n, b);
    } else {
      AtLeast(t, f, n, b);
    }
  }

  /** The first time, rounded down in the second time base. */
  function InBase(ts: int, tb: Rational, other: Rational): int
    requires Base(tb) && Base(other)
  {
    CrossProduct(other.num, tb.den);
    Rounded(ts, tb.num * other.den, other.num * tb.den, Down)
  }

  /** Comparing in the other's time base is comparing the times. */
  lemma InBaseBelowIff(ts: int, tb: Rational, t: int, other: Rational)
    requires Base(tb) && Base(other)
    ensures InBase(ts, tb, other) < t <==> CompareTs(ts, tb, t, other) < 0
    ensures CompareTs(ts, tb, t, other) == 0 ==> InBase(ts, tb, other) == t
  {
    var a, b := tb.num * other.den, other.num * tb.den;
    CrossProduct(tb.num, other.den);
    CrossProduct(other.num, tb.den);
    RoundedIs(ts, a, b, Down);
    FloorBelowIff(InBase(ts, tb, other), ts * a, b, t);
    assert (t + 1) * b == t * b + b;
    FloorBelowIff(InBase(ts, tb, other), ts * a, b, t + 1);
  }

  lemma SmallInBase(ts: int, a: int, b: int)
    requires -INT_MAX <= ts <= INT_MAX && 0 < a <= INT_MAX && b > 0
    ensures Rounded(ts, a, b, Down) <= INT64_MAX && Is64(ts * a)
  {
    var n := if ts < 0 then -ts else ts;
    SmallProduct(n, a, INT_MAX, INT_MAX);
    assert -ts * a == -(ts * a);
    QuotientAtMost(n * a, b);
    RoundedIs(ts, a, b, Down);
    if ts < 0 {
      FloorBelowIff(Rounded(ts, a, b, Down), ts * a, b, 1);
    }
  }

  lemma ComparedTheOtherWay(tsA: int, tbA: Rational, tsB: int, tbB: Rational)
    ensures CompareTs(tsB, tbB, tsA, tbA) == -CompareTs(tsA, tbA, tsB, tbB)
  {
  }

  /** av_compare_ts compares the times, unless the first one has no 64 bits in the time base of the second: then it is
      reported as the earlier one, although it is the later. */
  method CompareTs64(tsA: int, tbA: Rational, tsB: int, tbB: Rational) returns (x: int)
    requires -INT64_MAX <= tsA <= INT64_MAX && -INT64_MAX <= tsB <= INT64_MAX && Base(tbA) && Base(tbB)
    ensures x == if InBase(tsA, tbA, tbB) > INT64_MAX then -1 else CompareTs(tsA, tbA, tsB, tbB)
    ensures InBase(tsA, tbA, tbB) > INT64_MAX ==> CompareTs(tsA, tbA, tsB, tbB) == 1
  {
    var a, b := tbA.num * tbB.den, tbB.num * tbA.den;
    CrossProduct(tbA.num, tbB.den);
    CrossProduct(tbB.num, tbA.den);
    InBaseBelowIff(tsA, tbA, tsB, tbB);
    InBaseBelowIff(tsB, tbB, tsA, tbA);
    ComparedTheOtherWay(tsA, tbA, tsB, tbB);
    if -INT_MAX <= tsA <= INT_MAX && a <= INT_MAX && -INT_MAX <= tsB <= INT_MAX && b <= INT_MAX {
      SmallInBase(tsA, a, b);
      x := (if tsA * a > tsB * b then 1 else 0) - if tsA * a < tsB * b then 1 else 0;
      return;
    }
    var there := RescaleRnd(tsA, a, b, Down, false);
    if there < tsB {
      return -1;
    }
    var back := RescaleRnd(tsB, b, a, Down, false);
    if back < tsA {
      return 1;
    }
    return 0;
  }

  /** The latest time of a two-second base has no 64 bits in seconds: av_compare_ts puts it before 0. */
  lemma LatestIsReportedEarly()
    ensures Base(Rational(2, 1)) && Base(Rational(1, 1))
    ensures InBase(INT64_MAX, Rational(2, 1), Rational(1, 1)) > INT64_MAX
    ensures CompareTs(INT64_MAX, Rational(2, 1), 0, Rational(1, 1)) == 1
  {
  }
}
