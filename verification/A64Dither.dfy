/** The interlaced dither patterns of libavcodec/a64tables.h, and how near a rendered grey comes to the original. */
module A64Dither {
  import opened A64Charset
  import opened A64Renderer

  /** The eight rows of a level, of four pixels each. */
  function Row(level: nat, row: nat): (pixels: string)
    requires level <= 8 && row < 8
    ensures |pixels| == 4
  {
    match level
    case 0 => ["0000", "0000", "0000", "0000", "0000", "0000", "0000", "0000"][row]
    case 1 => ["1010", "0000", "0000", "0000", "1010", "0000", "0000", "0000"][row]
    case 2 => ["1010", "0000", "0000", "0101", "1010", "0000", "0000", "0101"][row]
    case 3 => ["1010", "0101", "0101", "0000", "1010", "0101", "0101", "0000"][row]
    case 4 => ["1010", "0101", "0101", "1010", "1010", "0101", "0101", "1010"][row]
    case 5 => ["1010", "0101", "1111", "1010", "1010", "0101", "1111", "1010"][row]
    case 6 => ["1010", "1111", "1111", "0101", "1010", "1111", "1111", "0101"][row]
    case 7 => ["1111", "1111", "1111", "0101", "1111", "1111", "1111", "0101"][row]
    case _ => ["1111", "1111", "1111", "1111", "1111", "1111", "1111", "1111"][row]
  }

  predicate Interlaced(level: int, row: int, column: int) {
    0 <= level <= 8 && 0 <= row < 8 && 0 <= column < 4 && Row(level, row)[column] == '1'
  }

  function One(pixel: char): nat { if pixel == '1' then 1 else 0 }

  function Ones(pixels: string): nat
    requires |pixels| == 4
  {
    One(pixels[0]) + One(pixels[1]) + One(pixels[2]) + One(pixels[3])
  }

  /** How many bright pixels each row of a level has. */
  function RowOnes(level: nat): (ones: seq<nat>)
    requires level <= 8
  {
    seq(8, r requires 0 <= r < 8 => Ones(Row(level, r)))
  }

  function Total(row: seq<int>): int
    requires |row| == 8
  {
    row[0] + row[1] + row[2] + row[3] + row[4] + row[5] + row[6] + row[7]
  }

  lemma DarkDensities(level: nat)
    requires level < 4
    ensures Total(RowOnes(level)) == 4 * level
  {
    match level
    case 0 =>
    case 1 =>
    case 2 =>
    case 3 =>
  }

  lemma BrightDensities(level: nat)
    requires 4 <= level <= 8
    ensures Total(RowOnes(level)) == 4 * level
  {
    match level
    case 4 =>
    case 5 =>
    case 6 =>
    case 7 =>
    case 8 =>
  }

  /** Level 0 is dark throughout, level 8 bright throughout, and each level brightens one eighth of the pixels more. */
  lemma DensityIsLevel(level: nat)
    requires level <= 8
    ensures Total(RowOnes(level)) == 4 * level
  {
    if level < 4 {
      DarkDensities(level);
    } else {
      BrightDensities(level);
    }
  }

  lemma LevelZeroIsDark()
    ensures forall row, column :: !Interlaced(0, row, column)
  {
  }

  // --------------------------------------------------------------------------------------- an even grey, rendered

  /** What displayed line l shows in column x for a pixel of value v. */
  function Shown(luma: seq<int>, v: int, l: nat, x: nat): int
    requires Gradient(luma) && v >= 0 && l < 16 && x < 4
  {
    InterlacedLines(luma, Interlaced, v, l, x);
    luma[Chosen(luma, Interlaced, v, l / 2, x, l % 2)]
  }

  function RowShown(luma: seq<int>, v: int, l: nat): int
    requires Gradient(luma) && v >= 0 && l < 16
  {
    Shown(luma, v, l, 0) + Shown(luma, v, l, 1) + Shown(luma, v, l, 2) + Shown(luma, v, l, 3)
  }

  function RowsShown(luma: seq<int>, v: int, top: nat): (rows: seq<int>)
    requires Gradient(luma) && v >= 0 && top <= 8
    ensures |rows| == 8
  {
    seq(8, r requires 0 <= r < 8 => RowShown(luma, v, top + r))
  }

  /** The sum of eight lines from `top` on. */
  function TileShown(luma: seq<int>, v: int, top: nat): int
    requires Gradient(luma) && v >= 0 && top <= 8
  {
    Total(RowsShown(luma, v, top))
  }

  /** A value between palette colour i and the next, at a dither level. */
  ghost predicate Between(luma: seq<int>, v: int, level: nat, dark: int, step: int)
    requires Gradient(luma) && v >= 0
  {
    var i := Index1(luma, v);
    i < |luma| - 1 && level == Level(luma, v) && level <= 8 && dark == luma[i] && step == luma[i + 1] - luma[i]
  }

  lemma ShownIs(luma: seq<int>, v: int, level: nat, dark: int, step: int, l: nat, x: nat)
    requires Gradient(luma) && v >= 0 && l < 16 && x < 4 && Between(luma, v, level, dark, step)
    ensures Shown(luma, v, l, x) == dark + One(Row(level, l % 8)[x]) * step
  {
    InterlacedLines(luma, Interlaced, v, l, x);
  }

  lemma FourPixels(dark: int, step: int, row: string, shown: seq<int>)
    requires |row| == |shown| == 4 && forall x :: 0 <= x < 4 ==> shown[x] == dark + One(row[x]) * step
    ensures shown[0] + shown[1] + shown[2] + shown[3] == 4 * dark + Ones(row) * step
  {
  }

  lemma RowShownIs(luma: seq<int>, v: int, level: nat, dark: int, step: int, l: nat, row: string)
    requires Gradient(luma) && v >= 0 && l < 16 && Between(luma, v, level, dark, step) && row == Row(level, l % 8)
    ensures RowShown(luma, v, l) == 4 * dark + Ones(row) * step
  {
    var shown := seq(4, x requires 0 <= x < 4 => Shown(luma, v, l, x));
    forall x | 0 <= x < 4
      ensures shown[x] == dark + One(row[x]) * step
    {
      ShownIs(luma, v, level, dark, step, l, x);
    }
    FourPixels(dark, step, row, shown);
  }

  /** Rows with as many brighter pixels as `ones` says, over the colour `dark`. */
  ghost predicate RowsAre(rows: seq<int>, dark: int, step: int, ones: seq<nat>) {
    |rows| == |ones| == 8 && forall r :: 0 <= r < 8 ==> rows[r] == 4 * dark + ones[r] * step
  }

  lemma Distribute(step: int, ones: seq<int>)
    requires |ones| == 8
    ensures Total(seq(8, r requires 0 <= r < 8 => ones[r] * step)) == Total(ones) * step
  {
    assert (ones[0] + ones[1] + ones[2] + ones[3]) * step
        == ones[0] * step + ones[1] * step + ones[2] * step + ones[3] * step;
    assert (ones[4] + ones[5] + ones[6] + ones[7]) * step
        == ones[4] * step + ones[5] * step + ones[6] * step + ones[7] * step;
  }

  lemma EightRows(rows: seq<int>, dark: int, step: int, ones: seq<nat>)
    requires RowsAre(rows, dark, step, ones)
    ensures Total(rows) == 32 * dark + Total(ones) * step
  {
    Distribute(step, ones);
  }

  lemma RowsAreOfLevel(luma: seq<int>, v: int, level: nat, dark: int, step: int, top: nat)
    requires Gradient(luma) && v >= 0 && top in {0, 8} && Between(luma, v, level, dark, step)
    ensures RowsAre(RowsShown(luma, v, top), dark, step, RowOnes(level))
  {
    forall r | 0 <= r < 8
      ensures RowsShown(luma, v, top)[r] == 4 * dark + RowOnes(level)[r] * step
    {
      assert (top + r) % 8 == r;
      RowShownIs(luma, v, level, dark, step, top + r, Row(level, r));
    }
  }

  lemma TileShownIs(luma: seq<int>, v: int, level: nat, dark: int, step: int, top: nat)
    requires Gradient(luma) && v >= 0 && top in {0, 8} && Between(luma, v, level, dark, step)
    ensures TileShown(luma, v, top) == 32 * dark + 4 * level * step
  {
    RowsAreOfLevel(luma, v, level, dark, step, top);
    EightRows(RowsShown(luma, v, top), dark, step, RowOnes(level));
    DensityIsLevel(level);
  }

  lemma NearBelow(dark: int, step: int, v: int, level: nat, sum: int)
    requires dark <= v < dark + step && sum == 32 * dark + 4 * level * step
    requires level * step <= 7 * (v - dark) < (level + 1) * step
    ensures sum <= 32 * v && 32 * v - sum < 8 * step && (v == dark ==> sum == 32 * v)
  {
    assert 4 * level * step == 4 * (level * step) && (level + 1) * step == level * step + step;
    assert level == 0 || level * step >= step;
  }

  lemma LevelBetween(luma: seq<int>, v: int) returns (level: nat, dark: int, step: int)
    requires Gradient(luma) && 0 <= v < luma[|luma| - 1]
    ensures Between(luma, v, level, dark, step)
    ensures dark <= v < dark + step && level * step <= 7 * (v - dark) < (level + 1) * step
  {
    IndexFromBrackets(luma, v, |luma| - 1);
    var i := Index1(luma, v);
    dark, step := luma[i], luma[i + 1] - luma[i];
    var sevenths := (v - dark) * 7;
    level := sevenths / step;
    QuotientBrackets(sevenths, step);
    SmallQuotient(level, step, 7);
  }

  /** An even grey is shown, over eight lines of four pixels, no brighter than it is, and darker by less than a quarter
      of the step between the palette colours around it; the colours of the palette are shown exactly. */
  lemma EvenGreyIsNear(luma: seq<int>, v: int, top: nat) returns (dark: int, step: int)
    requires Gradient(luma) && 0 <= v < luma[|luma| - 1] && top in {0, 8}
    ensures exists i :: 0 <= i < |luma| - 1 && dark == luma[i] && dark + step == luma[i + 1]
    ensures dark <= v < dark + step
    ensures var sum := TileShown(luma, v, top);
      sum <= 32 * v && 32 * v - sum < 8 * step && (v == dark ==> sum == 32 * v)
  {
    var level;
    level, dark, step := LevelBetween(luma, v);
    TileShownIs(luma, v, level, dark, step, top);
    NearBelow(dark, step, v, level, TileShown(luma, v, top));
  }

  /** The finished buffers show such a tile for each character of one grey: on displayed line l, column x of character d
      they show what TileShown adds up. */
  lemma EvenCharacterShows(c: A64Context, d: nat, v: int, l: nat, x: nat, was: seq<int>, renders: nat)
    requires c.Valid() && d < CHARSET_CHARS && l < 16 && x < 4 && c.pattern == Interlaced
    requires Block(was) && c.Finished(c.Char(d), was, renders) && c.Rendered(d)
    requires forall k :: 0 <= k < 32 ==> c.Char(d)[k] == v
    ensures v >= 0 && c.charset[l % 2 * 0x800 + d * 8 + l / 2] >= 0
    ensures var index := Decode(c.use5, Digit(c.charset[l % 2 * 0x800 + d * 8 + l / 2], x), c.colram[d] != 0);
      0 <= index < |c.luma| && c.luma[index] == Shown(c.luma, v, l, x)
  {
    LevelZeroIsDark();
    c.ShownLineIsDithered(d, l, x, was, renders);
    AdjustedIsSettled(c.luma, c.use5, was);
    assert c.Char(d)[0] == v && c.Char(d)[l / 2 * 4 + x] == v;
    InterlacedLines(c.luma, Interlaced, v, l, x);
  }
}
