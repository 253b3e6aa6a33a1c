/** The charset renderer of libavcodec/a64multienc.c. */
module A64Charset {
  import opened Wrappers

  const DITHERSTEPS := 8
  const CHARSET_CHARS := 256

  /** Luma values of the palette, darkest first: four colours, or five with the colour RAM's help. */
  ghost predicate Gradient(luma: seq<int>) {
    && 4 <= |luma| <= 5 && luma[0] == 0 && luma[|luma| - 1] <= 255
    && forall i, j :: 0 <= i < j < |luma| ==> luma[i] < luma[j]
  }

  // ------------------------------------------------------------------------------------------------- the tables

  /** The brightest of the first n + 1 colours that is no brighter than v. */
  function IndexFrom(luma: seq<int>, v: int, n: nat): (i: nat)
    requires n < |luma|
    ensures i <= n
  {
    if n == 0 || luma[n] <= v then n else IndexFrom(luma, v, n - 1)
  }

  function Index1(luma: seq<int>, v: int): nat
    requires |luma| > 0
  {
    IndexFrom(luma, v, |luma| - 1)
  }

  function Index2(luma: seq<int>, v: int): nat
    requires |luma| > 0
  {
    Min(Index1(luma, v) + 1, |luma| - 1)
  }

  function Steps(b: int, distance: int): int
    requires distance > 0
  {
    b * (DITHERSTEPS - 1) / distance
  }

  /** How far v lies on the way to the next colour, in dither steps. */
  function Level(luma: seq<int>, v: int): int
    requires Gradient(luma)
  {
    var i := Index1(luma, v);
    if i == |luma| - 1 then 0 else Steps(v - luma[i], luma[i + 1] - luma[i])
  }

  lemma {:induction false} IndexFromIs(luma: seq<int>, v: int, n: nat, i: nat)
    requires Gradient(luma) && i <= n < |luma| && luma[i] <= v && (i < n ==> v < luma[i + 1])
    ensures IndexFrom(luma, v, n) == i
    decreases n
  {
    if i < n {
      assert luma[i + 1] <= luma[n];
      IndexFromIs(luma, v, n - 1, i);
    }
  }

  /** Index1 is the interval of the gradient that v lies in. */
  lemma Index1Is(luma: seq<int>, v: int, i: nat)
    requires Gradient(luma) && i < |luma| && luma[i] <= v && (i < |luma| - 1 ==> v < luma[i + 1])
    ensures Index1(luma, v) == i
  {
    IndexFromIs(luma, v, |luma| - 1, i);
  }

  lemma {:induction false} IndexFromBrackets(luma: seq<int>, v: int, n: nat)
    requires Gradient(luma) && v >= 0 && n < |luma|
    ensures var i := IndexFrom(luma, v, n); i <= n && luma[i] <= v && (i < n ==> v < luma[i + 1])
  {
    if n > 0 && luma[n] > v {
      IndexFromBrackets(luma, v, n - 1);
    }
  }

  /** The part of the dither table that belongs to colour i, written when the next colour is reached. */
  method FillDither(luma: seq<int>, i: nat, dither: array<int>)
    requires Gradient(luma) && i < |luma| - 1 && dither.Length == 256
    modifies dither
    ensures forall v :: luma[i] <= v < luma[i + 1] ==> dither[v] == Level(luma, v)
    ensures forall v :: 0 <= v < luma[i] || luma[i + 1] < v < 256 ==> dither[v] == old(dither[v])
  {
    var distance := luma[i + 1] - luma[i];
    assert luma[i + 1] <= luma[|luma| - 1];
    assert luma[0] <= luma[i];
    for b := 0 to distance + 1
      invariant forall v :: luma[i] <= v < luma[i] + b && v < luma[i + 1] ==> dither[v] == Level(luma, v)
      invariant forall v :: 0 <= v < luma[i] || luma[i + 1] < v < 256 ==> dither[v] == old(dither[v])
    {
      dither[luma[i] + b] := Steps(b, distance);
      if b < distance {
        Index1Is(luma, luma[i] + b, i);
      }
    }
  }

  ghost predicate TablesUpTo(luma: seq<int>, index1: array<int>, index2: array<int>, n: nat)
    requires |luma| > 0 && index1.Length == index2.Length == 256 && n <= 256
    reads index1, index2
  {
    forall v :: 0 <= v < n ==> index1[v] == Index1(luma, v) && index2[v] == Index2(luma, v)
  }

  ghost predicate Tables(luma: seq<int>, index1: array<int>, index2: array<int>, dither: array<int>)
    requires Gradient(luma)
    reads index1, index2, dither
  {
    && index1.Length == index2.Length == dither.Length == 256
    && TablesUpTo(luma, index1, index2, 256)
    && (forall v :: 0 <= v < 256 ==> dither[v] == Level(luma, v))
  }

  method BuildTables(luma: seq<int>, index1: array<int>, index2: array<int>, dither: array<int>)
    requires Gradient(luma)
    requires index1.Length == index2.Length == dither.Length == 256
    requires index1 != index2 && index1 != dither && index2 != dither
    modifies index1, index2, dither
    ensures Tables(luma, index1, index2, dither)
  {
    var i := 0;
    for a := 0 to 256
      invariant 0 <= i < |luma| && (a > 0 ==> luma[i] <= a - 1)
      invariant luma[i] <= a && (i < |luma| - 1 ==> a <= luma[i + 1])
      invariant TablesUpTo(luma, index1, index2, a)
      invariant forall v :: 0 <= v < luma[i] ==> dither[v] == Level(luma, v)
      invariant i == |luma| - 1 ==> forall v :: luma[i] <= v < a ==> dither[v] == Level(luma, v)
    {
      if i < |luma| - 1 && a == luma[i + 1] {
        FillDither(luma, i, dither);
        i := i + 1;
      }
      Index1Is(luma, a, i);
      if i >= |luma| - 1 {
        dither[a] := 0;
      }
      index1[a] := i;
      index2[a] := Min(i + 1, |luma| - 1);
    }
    IndexFromBrackets(luma, 255, |luma| - 1);
    Index1Is(luma, 255, i);
  }

  // --------------------------------------------------------------------------------------------- one character

  /** The dither patterns: level, row of the interlaced pattern, column. */
  type Pattern = (int, int, int) -> bool

  /** A character of the codebook: 8 rows of 4 pixels. */
  ghost predicate Block(block: seq<int>) {
    |block| == 32 && forall k :: 0 <= k < 32 ==> 0 <= block[k] <= 255
  }

  /** The palette index rendered for a pixel of value v at (y, x) in one of the two interlaced fields. */
  function Chosen(luma: seq<int>, pattern: Pattern, v: int, y: int, x: int, field: int): nat
    requires Gradient(luma)
  {
    if pattern(Level(luma, v), (y % 4) * 2 + field, x % 4) then Index2(luma, v) else Index1(luma, v)
  }

  /** The two-bit code of a palette index; indices 0 and 4 share one. */
  function Code(index: nat): (code: nat)
    ensures code < 4
  {
    3 - index % 4
  }

  /** The first n pixels of row y as a number in base four. */
  function RowPrefix(luma: seq<int>, pattern: Pattern, block: seq<int>, y: nat, field: int, n: nat): nat
    requires Gradient(luma) && |block| == 32 && y < 8 && n <= 4
  {
    if n == 0 then 0
    else RowPrefix(luma, pattern, block, y, field, n - 1) * 4
         + Code(Chosen(luma, pattern, block[y * 4 + n - 1], y, n - 1, field))
  }

  function RowByte(luma: seq<int>, pattern: Pattern, block: seq<int>, y: nat, field: int): nat
    requires Gradient(luma) && |block| == 32 && y < 8
  {
    RowPrefix(luma, pattern, block, y, field, 4)
  }

  function HighError(luma: seq<int>, v: int): int
    requires Gradient(luma)
  {
    if Index1(luma, v) >= 3 then v - luma[3] else 0
  }

  function LowError(luma: seq<int>, v: int): int
    requires Gradient(luma)
  {
    if Index1(luma, v) < 1 then luma[1] - v else 0
  }

  function HighDiff(luma: seq<int>, block: seq<int>, n: nat): int
    requires Gradient(luma) && n <= |block|
  {
    if n == 0 then 0 else HighDiff(luma, block, n - 1) + HighError(luma, block[n - 1])
  }

  function LowDiff(luma: seq<int>, block: seq<int>, n: nat): int
    requires Gradient(luma) && n <= |block|
  {
    if n == 0 then 0 else LowDiff(luma, block, n - 1) + LowError(luma, block[n - 1])
  }

  predicate NeedsRedo(luma: seq<int>, use5: bool, block: seq<int>)
    requires Gradient(luma) && |block| == 32
  {
    HighDiff(luma, block, 32) > 0 && LowDiff(luma, block, 32) > 0 && use5
  }

  /** The character after the rendering loop has adjusted it. */
  function Adjusted(luma: seq<int>, block: seq<int>): (r: seq<int>)
    requires Gradient(luma) && |block| == 32
    ensures |r| == 32
  {
    if LowDiff(luma, block, 32) > HighDiff(luma, block, 32) then
      seq(32, k requires 0 <= k < 32 => Min(luma[3], block[k]))
    else
      seq(32, k requires 0 <= k < 32 => Max(luma[1], block[k]))
  }

  function Settled(luma: seq<int>, use5: bool, block: seq<int>): (r: seq<int>)
    requires Gradient(luma) && |block| == 32
    ensures |r| == 32
  {
    if NeedsRedo(luma, use5, block) then Adjusted(luma, block) else block
  }

  lemma {:induction false} HighDiffIs(luma: seq<int>, block: seq<int>, n: nat)
    requires Gradient(luma) && n <= |block| && forall k :: 0 <= k < n ==> block[k] >= 0
    ensures HighDiff(luma, block, n) >= 0
    ensures HighDiff(luma, block, n) == 0 <==> forall k :: 0 <= k < n ==> HighError(luma, block[k]) == 0
  {
    if n > 0 {
      HighDiffIs(luma, block, n - 1);
      IndexFromBrackets(luma, block[n - 1], |luma| - 1);
    }
  }

  lemma {:induction false} LowDiffIs(luma: seq<int>, block: seq<int>, n: nat)
    requires Gradient(luma) && n <= |block| && forall k :: 0 <= k < n ==> block[k] >= 0
    ensures LowDiff(luma, block, n) >= 0
    ensures LowDiff(luma, block, n) == 0 <==> forall k :: 0 <= k < n ==> LowError(luma, block[k]) == 0
  {
    if n > 0 {
      LowDiffIs(luma, block, n - 1);
      IndexFromBrackets(luma, block[n - 1], |luma| - 1);
    }
  }

  /** An adjusted character needs no further adjustment: the loop redoes a character at most once. */
  lemma AdjustedIsSettled(luma: seq<int>, use5: bool, block: seq<int>)
    requires Gradient(luma) && Block(block)
    ensures Block(Adjusted(luma, block)) && !NeedsRedo(luma, use5, Adjusted(luma, block))
  {
    var r := Adjusted(luma, block);
    HighDiffIs(luma, r, 32);
    LowDiffIs(luma, r, 32);
    forall k | 0 <= k < 32
      ensures if LowDiff(luma, block, 32) > HighDiff(luma, block, 32) then HighError(luma, r[k]) == 0
              else LowError(luma, r[k]) == 0
    {
      IndexFromBrackets(luma, r[k], |luma| - 1);
    }
  }

  // ------------------------------------------------------------------------------------- the least adjustment

  /** How much two characters differ in their first n pixels. */
  function Distance(r: seq<int>, block: seq<int>, n: nat): nat
    requires n <= |r| && n <= |block|
  {
    if n == 0 then 0
    else
      var x, y := r[n - 1], block[n - 1];
      Distance(r, block, n - 1) + if x < y then y - x else x - y
  }

  /** A pixel no brighter than the fourth colour keeps its low error and has no high one. */
  lemma DarkenedPixel(luma: seq<int>, v: int)
    requires Gradient(luma) && v >= 0
    ensures v - Min(luma[3], v) == HighError(luma, v) >= 0
    ensures HighError(luma, Min(luma[3], v)) == 0 && LowError(luma, Min(luma[3], v)) == LowError(luma, v)
  {
    IndexFromBrackets(luma, v, |luma| - 1);
    IndexFromBrackets(luma, Min(luma[3], v), |luma| - 1);
  }

  lemma BrightenedPixel(luma: seq<int>, v: int)
    requires Gradient(luma) && v >= 0
    ensures Max(luma[1], v) - v == LowError(luma, v) >= 0
    ensures LowError(luma, Max(luma[1], v)) == 0 && HighError(luma, Max(luma[1], v)) == HighError(luma, v)
  {
    IndexFromBrackets(luma, v, |luma| - 1);
    IndexFromBrackets(luma, Max(luma[1], v), |luma| - 1);
  }

  lemma {:induction false} DarkenedBlock(luma: seq<int>, block: seq<int>, r: seq<int>, n: nat)
    requires Gradient(luma) && n <= |block| == |r|
    requires forall k :: 0 <= k < |block| ==> block[k] >= 0 && r[k] == Min(luma[3], block[k])
    ensures Distance(r, block, n) == HighDiff(luma, block, n)
    ensures HighDiff(luma, r, n) == 0 && LowDiff(luma, r, n) == LowDiff(luma, block, n)
  {
    if n > 0 {
      DarkenedBlock(luma, block, r, n - 1);
      DarkenedPixel(luma, block[n - 1]);
    }
  }

  lemma {:induction false} BrightenedBlock(luma: seq<int>, block: seq<int>, r: seq<int>, n: nat)
    requires Gradient(luma) && n <= |block| == |r|
    requires forall k :: 0 <= k < |block| ==> block[k] >= 0 && r[k] == Max(luma[1], block[k])
    ensures Distance(r, block, n) == LowDiff(luma, block, n)
    ensures LowDiff(luma, r, n) == 0 && HighDiff(luma, r, n) == HighDiff(luma, block, n)
  {
    if n > 0 {
      BrightenedBlock(luma, block, r, n - 1);
      BrightenedPixel(luma, block[n - 1]);
    }
  }

  /** The adjustment removes the lesser of the two errors, changes the character by no more than that error, and leaves
      the other one as it was. */
  lemma AdjustmentIsLeast(luma: seq<int>, block: seq<int>)
    requires Gradient(luma) && Block(block)
    ensures var r, low, high := Adjusted(luma, block), LowDiff(luma, block, 32), HighDiff(luma, block, 32);
      && Distance(r, block, 32) == Min(low, high)
      && Min(LowDiff(luma, r, 32), HighDiff(luma, r, 32)) == 0
      && Max(LowDiff(luma, r, 32), HighDiff(luma, r, 32)) == Max(low, high)
  {
    var r := Adjusted(luma, block);
    HighDiffIs(luma, block, 32);
    LowDiffIs(luma, block, 32);
    if LowDiff(luma, block, 32) > HighDiff(luma, block, 32) {
      DarkenedBlock(luma, block, r, 32);
    } else {
      BrightenedBlock(luma, block, r, 32);
    }
  }

  /** No character with a single error left is nearer to a character than its adjustment: any such character differs
      from it by at least the lesser of the two errors. */
  lemma {:induction false} ErrorsNeedDistance(luma: seq<int>, block: seq<int>, r: seq<int>, n: nat)
    requires Gradient(luma) && n <= |block| == |r|
    requires forall k :: 0 <= k < |block| ==> block[k] >= 0 && r[k] >= 0
    ensures HighDiff(luma, block, n) - HighDiff(luma, r, n) <= Distance(r, block, n)
    ensures LowDiff(luma, block, n) - LowDiff(luma, r, n) <= Distance(r, block, n)
  {
    if n > 0 {
      ErrorsNeedDistance(luma, block, r, n - 1);
      IndexFromBrackets(luma, block[n - 1], |luma| - 1);
      IndexFromBrackets(luma, r[n - 1], |luma| - 1);
    }
  }

  lemma NothingNearerWillDo(luma: seq<int>, block: seq<int>, other: seq<int>)
    requires Gradient(luma) && Block(block) && Block(other) && !NeedsRedo(luma, true, other)
    ensures Distance(other, block, 32) >= Distance(Adjusted(luma, block), block, 32)
  {
    AdjustmentIsLeast(luma, block);
    ErrorsNeedDistance(luma, block, other, 32);
    HighDiffIs(luma, other, 32);
    LowDiffIs(luma, other, 32);
  }

  // -------------------------------------------------------------------------------------------------- decoding

  /** The palette index a code stands for, given the character's colour RAM bit. */
  function Decode(use5: bool, code: int, bright: bool): int {
    if use5 && bright && code == 3 then 4 else 3 - code
  }

  lemma LevelOfColour(luma: seq<int>, i: nat)
    requires Gradient(luma) && i < |luma|
    ensures Index1(luma, luma[i]) == i && Level(luma, luma[i]) == 0
  {
    Index1Is(luma, luma[i], i);
    if i < |luma| - 1 {
      ZeroQuotient(luma[i + 1] - luma[i]);
    }
  }

  /** The dither level says how many sevenths of the way to the next palette colour a value has come, rounded down; it
      is 0 from the last colour on. */
  lemma LevelIsProportional(luma: seq<int>, v: int)
    requires Gradient(luma) && v >= 0
    ensures var i, level := Index1(luma, v), Level(luma, v);
      if i == |luma| - 1 then level == 0
      else
        && 0 <= level < 7
        && level * (luma[i + 1] - luma[i]) <= 7 * (v - luma[i]) < (level + 1) * (luma[i + 1] - luma[i])
  {
    IndexFromBrackets(luma, v, |luma| - 1);
    var i := Index1(luma, v);
    if i < |luma| - 1 {
      var b, d := v - luma[i], luma[i + 1] - luma[i];
      assert d > 0 && b < d;
      QuotientBrackets(b * 7, d);
      SmallQuotient(b * 7 / d, d, 7);
    }
  }

  lemma QuotientBrackets(x: int, d: int)
    requires x >= 0 && d > 0
    ensures x / d >= 0 && x / d * d <= x < (x / d + 1) * d
  {
    assert x == x / d * d + x % d;
    assert (x / d + 1) * d == x / d * d + d;
  }

  lemma SmallQuotient(q: int, d: int, n: int)
    requires d > 0 && q * d < n * d
    ensures q < n
  {
    assert q >= n ==> (q - n) * d >= 0;
  }

  /** The two fields interleaved show the dither pattern at full height: displayed line l, which is row l / 2 of field
      l % 2, takes row l % 8 of the pattern, and shows a pixel as the palette colour below it or as the one above. */
  lemma InterlacedLines(luma: seq<int>, pattern: Pattern, v: int, l: nat, x: nat)
    requires Gradient(luma) && v >= 0 && l < 16 && x < 4
    ensures var i := Index1(luma, v);
      Chosen(luma, pattern, v, l / 2, x, l % 2)
        == if pattern(Level(luma, v), l % 8, x) && i < |luma| - 1 then i + 1 else i
  {
    assert (l / 2) % 4 * 2 + l % 2 == l % 8 && x % 4 == x;
    IndexFromBrackets(luma, v, |luma| - 1);
  }

  lemma ZeroQuotient(d: int)
    requires d > 0
    ensures 0 / d == 0
  {
  }

  lemma DecodeInRange(use5: bool, index: nat, bright: bool)
    requires index <= 4
    requires if use5 && bright then index >= 1 else index <= 3
    ensures Decode(use5, Code(index), bright) == index
  {
  }

  /** A settled character shows no darkest pixel if its bit is set, and no brightest one if it is not. */
  lemma ChosenIsDecodable(
      luma: seq<int>, pattern: Pattern, use5: bool, block: seq<int>, k: nat, y: int, x: int, field: int)
    requires Gradient(luma) && Block(block) && k < 32 && (use5 <==> |luma| == 5)
    requires !NeedsRedo(luma, use5, block)
    requires forall row, column :: !pattern(0, row, column)
    ensures var index := Chosen(luma, pattern, block[k], y, x, field);
      Decode(use5, Code(index), HighDiff(luma, block, 32) > 0) == index
  {
    HighDiffIs(luma, block, 32);
    LowDiffIs(luma, block, 32);
    IndexFromBrackets(luma, block[k], |luma| - 1);
    var bright := HighDiff(luma, block, 32) > 0;
    if !bright {
      assert HighError(luma, block[k]) == 0;
      if Index1(luma, block[k]) >= 3 {
        LevelOfColour(luma, 3);
      }
    } else if use5 {
      assert LowError(luma, block[k]) == 0;
    }
    DecodeInRange(use5, Chosen(luma, pattern, block[k], y, x, field), bright);
  }

  lemma BaseFour(c0: nat, c1: nat, c2: nat, c3: nat)
    requires c0 < 4 && c1 < 4 && c2 < 4 && c3 < 4
    ensures var row := ((c0 * 4 + c1) * 4 + c2) * 4 + c3;
      row < 256 && row / 64 == c0 && row / 16 % 4 == c1 && row / 4 % 4 == c2 && row % 4 == c3
  {
  }

  function Digit(row: nat, x: nat): nat
    requires x < 4
  {
    if x == 0 then row / 64 else if x == 1 then row / 16 % 4 else if x == 2 then row / 4 % 4 else row % 4
  }

  function CodeAt(luma: seq<int>, pattern: Pattern, block: seq<int>, y: nat, field: int, x: nat): nat
    requires Gradient(luma) && |block| == 32 && y < 8 && x < 4
  {
    Code(Chosen(luma, pattern, block[y * 4 + x], y, x, field))
  }

  /** What render_charset has of row y after x pixels: both row bytes so far and both errors. */
  ghost predicate RowState(
      luma: seq<int>, pattern: Pattern, block: seq<int>, y: nat, x: nat, row1: int, row2: int, low: int, high: int)
    requires Gradient(luma) && |block| == 32 && y < 8 && x <= 4
  {
    && row1 == RowPrefix(luma, pattern, block, y, 0, x) && row2 == RowPrefix(luma, pattern, block, y, 1, x)
    && low == LowDiff(luma, block, y * 4 + x) && high == HighDiff(luma, block, y * 4 + x)
  }

  lemma PixelGoesOn(
      luma: seq<int>, pattern: Pattern, block: seq<int>, y: nat, x: nat, row1: int, row2: int, low: int, high: int)
    requires Gradient(luma) && |block| == 32 && y < 8 && x < 4
    requires RowState(luma, pattern, block, y, x, row1, row2, low, high)
    ensures RowState(
      luma, pattern, block, y, x + 1,
      row1 * 4 + CodeAt(luma, pattern, block, y, 0, x), row2 * 4 + CodeAt(luma, pattern, block, y, 1, x),
      low + LowError(luma, block[y * 4 + x]), high + HighError(luma, block[y * 4 + x]))
  {
  }

  /** Every pixel's code can be read back from its row. */
  lemma RowCode(luma: seq<int>, pattern: Pattern, block: seq<int>, y: nat, field: int, x: nat)
    requires Gradient(luma) && |block| == 32 && y < 8 && x < 4
    ensures RowByte(luma, pattern, block, y, field) < 256
    ensures Digit(RowByte(luma, pattern, block, y, field), x) == CodeAt(luma, pattern, block, y, field, x)
  {
    var c0, c1 := CodeAt(luma, pattern, block, y, field, 0), CodeAt(luma, pattern, block, y, field, 1);
    var c2, c3 := CodeAt(luma, pattern, block, y, field, 2), CodeAt(luma, pattern, block, y, field, 3);
    assert RowPrefix(luma, pattern, block, y, field, 1) == RowPrefix(luma, pattern, block, y, field, 0) * 4 + c0;
    assert RowPrefix(luma, pattern, block, y, field, 2) == c0 * 4 + c1;
    assert RowPrefix(luma, pattern, block, y, field, 3) == (c0 * 4 + c1) * 4 + c2;
    assert RowByte(luma, pattern, block, y, field) == ((c0 * 4 + c1) * 4 + c2) * 4 + c3;
    BaseFour(c0, c1, c2, c3);
  }
}
