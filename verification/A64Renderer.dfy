/** render_charset and a64_compress_colram of libavcodec/a64multienc.c, in place on the encoder's buffers. */
module A64Renderer {
  import opened Wrappers
  import opened A64Charset

  /** The buffers of the encoder context and the lookup tables. */
  class A64Context {
    const luma: seq<int>
    const use5: bool
    const pattern: Pattern
    const bestCb: array<int>    // 256 characters of 32 pixels
    const charset: array<int>   // two fields of 256 characters of 8 rows
    const colram: array<bv8>
    const index1: array<int>
    const index2: array<int>
    const dither: array<int>

    ghost predicate Buffers() {
      && bestCb.Length == CHARSET_CHARS * 32 && charset.Length == 0x1000 && colram.Length == CHARSET_CHARS
      && index1.Length == index2.Length == dither.Length == 256
      && bestCb != charset
      && index1 !in {index2, dither, bestCb, charset} && index2 !in {dither, bestCb, charset}
      && dither !in {bestCb, charset}
      && (colram as object)
           !in {index1 as object, index2 as object, dither as object, bestCb as object, charset as object}
    }

    ghost predicate Valid()
      reads bestCb
    {
      && Buffers() && Gradient(luma) && (use5 <==> |luma| == 5)
      && forall k :: 0 <= k < bestCb.Length ==> 0 <= bestCb[k] <= 255
    }

    constructor Init(luma: seq<int>, pattern: Pattern, codebook: seq<int>)
      requires Gradient(luma) && |codebook| == CHARSET_CHARS * 32
      requires forall k :: 0 <= k < |codebook| ==> 0 <= codebook[k] <= 255
      ensures Valid() && bestCb[..] == codebook && this.luma == luma && this.pattern == pattern
    {
      this.luma, this.pattern, use5 := luma, pattern, |luma| == 5;
      bestCb := new int[CHARSET_CHARS * 32](k requires 0 <= k < |codebook| => codebook[k]);
      charset := new int[0x1000];
      colram := new bv8[CHARSET_CHARS];
      index1 := new int[256];
      index2 := new int[256];
      dither := new int[256];
    }

    /** Character c of the codebook. */
    ghost function Char(c: nat): seq<int>
      requires bestCb.Length == CHARSET_CHARS * 32 && c < CHARSET_CHARS
      reads bestCb
    {
      bestCb[c * 32..c * 32 + 32]
    }

    lemma CharAt(c: nat, k: nat)
      requires bestCb.Length == CHARSET_CHARS * 32 && c < CHARSET_CHARS && k < 32
      ensures Char(c)[k] == bestCb[c * 32 + k]
    {
    }

    ghost predicate RowsReady(block: seq<int>, c: nat, rows: nat)
      requires charset.Length == 0x1000 && Gradient(luma) && |block| == 32 && c < CHARSET_CHARS && rows <= 8
      reads charset
    {
      forall y :: 0 <= y < rows ==>
        && charset[c * 8 + y] == RowByte(luma, pattern, block, y, 0)
        && charset[0x800 + c * 8 + y] == RowByte(luma, pattern, block, y, 1)
    }

    /** A pixel's value and its code in both fields. */
    method RenderPixel(c: nat, y: nat, x: nat) returns (pix: int, code1: nat, code2: nat)
      requires Valid() && Tables(luma, index1, index2, dither) && c < CHARSET_CHARS && y < 8 && x < 4
      ensures 0 <= pix <= 255 && pix == Char(c)[y * 4 + x]
      ensures code1 == CodeAt(luma, pattern, Char(c), y, 0, x) && code2 == CodeAt(luma, pattern, Char(c), y, 1, x)
    {
      CharAt(c, y * 4 + x);
      pix := bestCb[c * 32 + y * 4 + x];
      var first := if pattern(dither[pix], (y % 4) * 2 + 0, x % 4) then index2[pix] else index1[pix];
      var second := if pattern(dither[pix], (y % 4) * 2 + 1, x % 4) then index2[pix] else index1[pix];
      code1, code2 := 3 - first % 4, 3 - second % 4;
    }

    /** A pixel darker than the second colour, or brighter than the fourth, adds to an error. */
    method AddErrors(pix: int, lowdiff0: int, highdiff0: int) returns (lowdiff: int, highdiff: int)
      requires Gradient(luma) && Tables(luma, index1, index2, dither) && 0 <= pix <= 255
      ensures lowdiff == lowdiff0 + LowError(luma, pix) && highdiff == highdiff0 + HighError(luma, pix)
    {
      lowdiff, highdiff := lowdiff0, highdiff0;
      if index1[pix] >= 3 {
        highdiff := highdiff + (pix - luma[3]);
      }
      if index1[pix] < 1 {
        lowdiff := lowdiff + (luma[1] - pix);
      }
    }

    /** One row in both fields, with the errors of its pixels. */
    method RenderRow(
        c: nat, y: nat, lowdiff0: int, highdiff0: int)
      returns (row1: int, row2: int, lowdiff: int, highdiff: int)
      requires Valid() && Tables(luma, index1, index2, dither) && c < CHARSET_CHARS && y < 8
      requires lowdiff0 == LowDiff(luma, Char(c), y * 4) && highdiff0 == HighDiff(luma, Char(c), y * 4)
      ensures row1 == RowByte(luma, pattern, Char(c), y, 0)
      ensures row2 == RowByte(luma, pattern, Char(c), y, 1)
      ensures lowdiff == LowDiff(luma, Char(c), y * 4 + 4) && highdiff == HighDiff(luma, Char(c), y * 4 + 4)
    {
      ghost var block := Char(c);
      lowdiff, highdiff, row1, row2 := lowdiff0, highdiff0, 0, 0;
      for x := 0 to 4
        invariant RowState(luma, pattern, block, y, x, row1, row2, lowdiff, highdiff)
      {
        var pix, code1, code2 := RenderPixel(c, y, x);
        PixelGoesOn(luma, pattern, block, y, x, row1, row2, lowdiff, highdiff);
        lowdiff, highdiff := AddErrors(pix, lowdiff, highdiff);
        row1 := row1 * 4 + code1;
        row2 := row2 * 4 + code2;
      }
    }

    predicate InChar(c: nat, k: int) { c * 8 <= k < c * 8 + 8 || 0x800 + c * 8 <= k < 0x800 + c * 8 + 8 }

    method StoreRow(c: nat, y: nat, row1: int, row2: int)
      requires Buffers() && c < CHARSET_CHARS && y < 8
      modifies charset
      ensures charset[c * 8 + y] == row1 && charset[0x800 + c * 8 + y] == row2
      ensures forall k :: 0 <= k < 0x1000 && k != c * 8 + y && k != 0x800 + c * 8 + y ==> charset[k] == old(charset[k])
    {
      charset[c * 8 + y] := row1;
      charset[0x800 + c * 8 + y] := row2;
    }

    /** One row rendered and stored. */
    method RenderAndStore(c: nat, y: nat, lowdiff0: int, highdiff0: int) returns (lowdiff: int, highdiff: int)
      requires Valid() && Tables(luma, index1, index2, dither) && c < CHARSET_CHARS && y < 8
      requires lowdiff0 == LowDiff(luma, Char(c), y * 4) && highdiff0 == HighDiff(luma, Char(c), y * 4)
      requires RowsReady(Char(c), c, y)
      modifies charset
      ensures RowsReady(Char(c), c, y + 1)
      ensures forall k :: 0 <= k < 0x1000 && !InChar(c, k) ==> charset[k] == old(charset[k])
      ensures lowdiff == LowDiff(luma, Char(c), y * 4 + 4) && highdiff == HighDiff(luma, Char(c), y * 4 + 4)
    {
      var row1, row2;
      row1, row2, lowdiff, highdiff := RenderRow(c, y, lowdiff0, highdiff0);
      ghost var block := Char(c);
      StoreRow(c, y, row1, row2);
      assert Char(c) == block;
      forall row: nat | row < y + 1
        ensures charset[c * 8 + row] == RowByte(luma, pattern, block, row, 0)
        ensures charset[0x800 + c * 8 + row] == RowByte(luma, pattern, block, row, 1)
      {
        if row < y {
          assert charset[c * 8 + row] == old(charset[c * 8 + row]);
        }
      }
    }

    method RenderChar(c: nat) returns (lowdiff: int, highdiff: int)
      requires Valid() && Tables(luma, index1, index2, dither) && c < CHARSET_CHARS
      modifies charset
      ensures RowsReady(Char(c), c, 8)
      ensures forall k :: 0 <= k < 0x1000 && !InChar(c, k) ==> charset[k] == old(charset[k])
      ensures lowdiff == LowDiff(luma, Char(c), 32) && highdiff == HighDiff(luma, Char(c), 32)
    {
      ghost var block := Char(c);
      lowdiff, highdiff := 0, 0;
      for y := 0 to 8
        invariant RowsReady(block, c, y)
        invariant forall k :: 0 <= k < 0x1000 && !InChar(c, k) ==> charset[k] == old(charset[k])
        invariant lowdiff == LowDiff(luma, block, y * 4) && highdiff == HighDiff(luma, block, y * 4)
      {
        lowdiff, highdiff := RenderAndStore(c, y, lowdiff, highdiff);
      }
    }

    /** Pulls a character's pixels to one side of the gradient. */
    method AdjustChar(c: nat, darken: bool)
      requires Valid() && c < CHARSET_CHARS
      requires darken <==> LowDiff(luma, Char(c), 32) > HighDiff(luma, Char(c), 32)
      modifies bestCb
      ensures Valid() && Char(c) == Adjusted(luma, old(Char(c)))
      ensures forall d :: 0 <= d < CHARSET_CHARS && d != c ==> Char(d) == old(Char(d))
    {
      ghost var block := Char(c);
      for x := 0 to 32
        invariant forall k :: 0 <= k < x ==>
          bestCb[c * 32 + k] == if darken then Min(luma[3], block[k]) else Max(luma[1], block[k])
        invariant forall k :: x <= k < 32 ==> bestCb[c * 32 + k] == block[k]
        invariant forall k :: 0 <= k < c * 32 || c * 32 + 32 <= k < bestCb.Length ==> bestCb[k] == old(bestCb[k])
        invariant Valid()
      {
        bestCb[c * 32 + x] := if darken then Min(luma[3], bestCb[c * 32 + x]) else Max(luma[1], bestCb[c * 32 + x]);
      }
      forall k | 0 <= k < 32
        ensures Char(c)[k] == Adjusted(luma, block)[k]
      {
        CharAt(c, k);
      }
    }

    /** Character d is rendered as it stands, and its colour RAM bit says whether it shows the brightest colour. */
    ghost predicate Rendered(d: nat)
      requires Buffers() && Gradient(luma) && d < CHARSET_CHARS
      reads bestCb, charset, colram
    {
      RowsReady(Char(d), d, 8) && colram[d] == if HighDiff(luma, Char(d), 32) > 0 then 1 else 0
    }

    /** One turn of the outer loop: the character is rendered and either done or adjusted. */
    method RenderTurn(c: nat) returns (redo: bool)
      requires Valid() && Tables(luma, index1, index2, dither) && c < CHARSET_CHARS
      modifies bestCb, charset, colram
      ensures Valid() && redo == NeedsRedo(luma, use5, old(Char(c)))
      ensures Char(c) == if redo then Adjusted(luma, old(Char(c))) else old(Char(c))
      ensures !redo ==> Rendered(c)
      ensures forall d :: 0 <= d < CHARSET_CHARS && d != c ==> Char(d) == old(Char(d))
      ensures forall d :: 0 <= d < CHARSET_CHARS && d != c && old(Rendered(d)) ==> Rendered(d)
    {
      var lowdiff, highdiff := RenderChar(c);
      redo := highdiff > 0 && lowdiff > 0 && use5;
      if redo {
        AdjustChar(c, lowdiff > highdiff);
      } else {
        colram[c] := if highdiff > 0 then 1 else 0;
      }
    }

    /** A character on its way through the loop: untouched, or adjusted after its first rendering. */
    ghost predicate Underway(block: seq<int>, was: seq<int>, renders: nat)
      requires Gradient(luma) && |was| == 32
    {
      || (block == was && renders == 0)
      || (block == Adjusted(luma, was) && NeedsRedo(luma, use5, was) && renders == 1)
    }

    ghost predicate Finished(block: seq<int>, was: seq<int>, renders: nat)
      requires Gradient(luma) && |was| == 32
    {
      block == Settled(luma, use5, was) && renders == if NeedsRedo(luma, use5, was) then 2 else 1
    }

    lemma TurnEnds(block: seq<int>, was: seq<int>, renders: nat)
      requires Gradient(luma) && Block(was) && Underway(block, was, renders)
      ensures |block| == 32
      ensures NeedsRedo(luma, use5, block) ==> Underway(Adjusted(luma, block), was, renders + 1)
      ensures NeedsRedo(luma, use5, block) ==> !NeedsRedo(luma, use5, Adjusted(luma, block))
      ensures !NeedsRedo(luma, use5, block) ==> Finished(block, was, renders + 1)
    {
      AdjustedIsSettled(luma, use5, was);
    }

    /** The characters before charpos are finished, those behind it untouched. */
    ghost predicate Progress(charpos: nat, was: seq<seq<int>>, renders: seq<nat>)
      requires Buffers() && Gradient(luma)
      reads bestCb, charset, colram
    {
      && charpos <= CHARSET_CHARS == |was| == |renders| && (forall d :: 0 <= d < |was| ==> Block(was[d]))
      && (forall d :: 0 <= d < charpos ==> Rendered(d) && Finished(Char(d), was[d], renders[d]))
      && (charpos < CHARSET_CHARS ==> Underway(Char(charpos), was[charpos], renders[charpos]))
      && (forall d :: charpos < d < CHARSET_CHARS ==> Char(d) == was[d] && renders[d] == 0)
    }

    /** One turn of render_charset's loop; it redoes a character at most once. */
    method RenderNext(charpos: nat, ghost was: seq<seq<int>>, ghost renders: seq<nat>) returns (next: nat)
      requires Valid() && Tables(luma, index1, index2, dither)
      requires charpos < CHARSET_CHARS && Progress(charpos, was, renders)
      modifies bestCb, charset, colram
      ensures Valid() && Progress(next, was, renders[charpos := renders[charpos] + 1])
      ensures
        || next == charpos + 1
        || (next == charpos && NeedsRedo(luma, use5, old(Char(charpos))) && !NeedsRedo(luma, use5, Char(charpos)))
    {
      TurnEnds(Char(charpos), was[charpos], renders[charpos]);
      var redo := RenderTurn(charpos);
      next := if redo then charpos else charpos + 1;
    }

    /** render_charset.  `renders` counts how often each character was rendered. */
    method RenderCharset() returns (ghost renders: seq<nat>)
      requires Valid()
      modifies bestCb, charset, colram, index1, index2, dither
      ensures Valid() && |renders| == CHARSET_CHARS
      ensures forall d :: 0 <= d < CHARSET_CHARS ==> Rendered(d) && Finished(Char(d), old(Char(d)), renders[d])
    {
      BuildTables(luma, index1, index2, dither);
      renders := seq(CHARSET_CHARS, _ => 0);
      ghost var was := seq(CHARSET_CHARS, d requires 0 <= d < CHARSET_CHARS => old(Char(d)));
      var charpos := 0;
      while charpos < CHARSET_CHARS
        invariant 0 <= charpos <= CHARSET_CHARS && Valid() && Tables(luma, index1, index2, dither)
        invariant Progress(charpos, was, renders)
        decreases CHARSET_CHARS - charpos,
          if charpos < CHARSET_CHARS && NeedsRedo(luma, use5, Char(charpos)) then 1 else 0
      {
        ghost var rendered := renders[charpos := renders[charpos] + 1];
        charpos := RenderNext(charpos, was, renders);
        renders := rendered;
      }
    }

    /** After render_charset a pixel's two bits and its character's colour RAM bit give back the palette index
        chosen for it, although the darkest and the brightest colour share their two bits. */
    lemma RenderedPixelDecodes(d: nat, y: nat, x: nat, field: nat, was: seq<int>, renders: nat)
      requires Valid() && d < CHARSET_CHARS && y < 8 && x < 4 && field < 2
      requires Block(was) && Finished(Char(d), was, renders) && Rendered(d)
      requires forall row, column :: !pattern(0, row, column)
      ensures charset[field * 0x800 + d * 8 + y] >= 0
      ensures Decode(use5, Digit(charset[field * 0x800 + d * 8 + y], x), colram[d] != 0)
           == Chosen(luma, pattern, Char(d)[y * 4 + x], y, x, field)
    {
      AdjustedIsSettled(luma, use5, was);
      RowCode(luma, pattern, Char(d), y, field, x);
      ChosenIsDecodable(luma, pattern, use5, Char(d), y * 4 + x, y, x, field);
    }

    /** The picture that a character's buffers show: on displayed line l, of sixteen, a pixel shows the palette colour
        below its value, or the one above it where the dither pattern has that line and column set. */
    lemma ShownLineIsDithered(d: nat, l: nat, x: nat, was: seq<int>, renders: nat)
      requires Valid() && d < CHARSET_CHARS && l < 16 && x < 4
      requires Block(was) && Finished(Char(d), was, renders) && Rendered(d)
      requires forall row, column :: !pattern(0, row, column)
      ensures charset[l % 2 * 0x800 + d * 8 + l / 2] >= 0
      ensures var v := Char(d)[l / 2 * 4 + x]; var i := Index1(luma, v);
        Decode(use5, Digit(charset[l % 2 * 0x800 + d * 8 + l / 2], x), colram[d] != 0)
          == if pattern(Level(luma, v), l % 8, x) && i < |luma| - 1 then i + 1 else i
    {
      RenderedPixelDecodes(d, l / 2, x, l % 2, was, renders);
      AdjustedIsSettled(luma, use5, was);
      InterlacedLines(luma, pattern, Char(d)[l / 2 * 4 + x], l, x);
    }

    /** a64_compress_colram: the colour RAM bits of four screen quarters in one byte each. */
    method CompressColram(buf: array<bv8>, charmap: array<int>)
      requires Buffers() && buf.Length >= 256 && charmap.Length >= 1000
      requires buf != colram && (buf as object) != charmap
      requires forall n :: 0 <= n < 1000 ==> 0 <= charmap[n] < CHARSET_CHARS
      requires forall d :: 0 <= d < CHARSET_CHARS ==> colram[d] == 0 || colram[d] == 1
      modifies buf
      ensures forall a :: 0 <= a < 256 ==> buf[a] == Packed(old(charmap[..]), colram[..], a)
      ensures forall k :: 256 <= k < buf.Length ==> buf[k] == old(buf[k])
    {
      for a := 0 to 256
        invariant charmap[..] == old(charmap[..])
        invariant forall k :: 0 <= k < a ==> buf[k] == Packed(old(charmap[..]), colram[..], k)
        invariant forall k :: 256 <= k < buf.Length ==> buf[k] == old(buf[k])
      {
        var temp := colram[charmap[a + 0x000]] << 0;
        temp := temp | (colram[charmap[a + 0x100]] << 1);
        temp := temp | (colram[charmap[a + 0x200]] << 2);
        if a < 0xe8 {
          temp := temp | (colram[charmap[a + 0x300]] << 3);
        }
        buf[a] := temp << 2;
      }
    }
  }

  /** The byte that a64_compress_colram writes for place a of the screen quarters. */
  function Packed(charmap: seq<int>, colram: seq<bv8>, a: nat): bv8
    requires a < 256 && |charmap| >= 1000 && |colram| == CHARSET_CHARS
    requires forall n :: 0 <= n < 1000 ==> 0 <= charmap[n] < CHARSET_CHARS
  {
    var first3 := colram[charmap[a]] | (colram[charmap[a + 0x100]] << 1) | (colram[charmap[a + 0x200]] << 2);
    (if a < 0xe8 then first3 | (colram[charmap[a + 0x300]] << 3) else first3) << 2
  }

  /** Every one of the 1000 cells finds its colour RAM bit again: in byte n mod 256, at bit 2 + n / 256. */
  lemma ColramBitRecovered(charmap: seq<int>, colram: seq<bv8>, n: nat)
    requires n < 1000 && |charmap| >= 1000 && |colram| == CHARSET_CHARS
    requires forall k :: 0 <= k < 1000 ==> 0 <= charmap[k] < CHARSET_CHARS
    requires forall d :: 0 <= d < CHARSET_CHARS ==> colram[d] == 0 || colram[d] == 1
    ensures (Packed(charmap, colram, n % 256) >> (2 + n / 256)) & 1 == colram[charmap[n]]
  {
    var a := n % 256;
    var b0, b1, b2 := colram[charmap[a]], colram[charmap[a + 0x100]], colram[charmap[a + 0x200]];
    if a < 0xe8 {
      BitsRecovered(b0, b1, b2, colram[charmap[a + 0x300]]);
    } else {
      BitsRecovered(b0, b1, b2, 0);
    }
    assert n == 256 * (n / 256) + a && n / 256 <= 3;
  }

  lemma BitsRecovered(b0: bv8, b1: bv8, b2: bv8, b3: bv8)
    requires b0 <= 1 && b1 <= 1 && b2 <= 1 && b3 <= 1
    ensures var packed := (b0 | (b1 << 1) | (b2 << 2) | (b3 << 3)) << 2;
      && (packed >> 2) & 1 == b0 && (packed >> 3) & 1 == b1
      && (packed >> 4) & 1 == b2 && (packed >> 5) & 1 == b3
    ensures b0 | (b1 << 1) | (b2 << 2) | ((0 as bv8) << 3) == b0 | (b1 << 1) | (b2 << 2)
  {
  }
}
