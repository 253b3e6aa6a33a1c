/** The QuickTime 8BPS video decoder of libavcodec/8bps.c: plane layouts and the run-length decoder. */
module EightBps {
  import opened Wrappers

  const TWO_32 := 0x1_0000_0000

  // ------------------------------------------------------------------------------------------------- layouts

  datatype PixelFormat = Pal8 | Bgr24 | Xrgb32 | Rgb32

  datatype Layout = Layout(format: PixelFormat, planemap: seq<nat>)
  {
    function Planes(): nat { |planemap| }

    function PixelSize(): nat { |planemap| + (if format.Xrgb32? then 1 else 0) }

    /** Every plane has a byte of its own within a pixel. */
    ghost predicate Sound() {
      && 1 <= Planes() <= 4
      && (forall p :: 0 <= p < Planes() ==> planemap[p] < PixelSize())
      && (forall p, q :: 0 <= p < q < Planes() ==> planemap[p] != planemap[q])
    }
  }

  /** decode_init; `negotiated` is what ff_get_format chose for 24-bit video. */
  function DecodeInit(bitsPerSample: int, negotiated: PixelFormat, bigEndian: bool): (layout: Option<Layout>)
    requires negotiated.Bgr24? || negotiated.Xrgb32?
    ensures layout.Some? <==> bitsPerSample in {8, 24, 32}
    ensures layout.Some? ==> layout.value.Sound()
  {
    if bitsPerSample == 8 then Some(Layout(Pal8, [0]))
    else if bitsPerSample == 24 then Some(Layout(negotiated, [2, 1, 0]))
    else if bitsPerSample == 32 then Some(Layout(Rgb32, if bigEndian then [1, 2, 3, 0] else [2, 1, 0, 3]))
    else None
  }

  /** A pixel has a byte for each plane; in 0RGB32 it has one more, which no plane writes. */
  lemma PixelSizeIs(bitsPerSample: int, negotiated: PixelFormat, bigEndian: bool)
    requires negotiated.Bgr24? || negotiated.Xrgb32?
    requires bitsPerSample in {8, 24, 32}
    ensures var layout := DecodeInit(bitsPerSample, negotiated, bigEndian).value;
      && layout.PixelSize() == (if layout.format.Xrgb32? then 32 else bitsPerSample) / 8
      && layout.Planes() == bitsPerSample / 8
      && (layout.format.Xrgb32? ==> 3 !in layout.planemap)
  {
  }

  /** Where a pixel format keeps its component: palette index, or red, green, blue and alpha, in plane order. */
  function ComponentByte(format: PixelFormat, bigEndian: bool, plane: nat): nat
    requires plane < 4
  {
    match format
    case Pal8 => 0
    case Bgr24 => [2, 1, 0, 0][plane]
    case Xrgb32 => if bigEndian then [1, 2, 3, 0][plane] else [2, 1, 0, 3][plane]
    case Rgb32 => if bigEndian then [1, 2, 3, 0][plane] else [2, 1, 0, 3][plane]
  }

  /** The planes go to their components, except for 24-bit video shown as 0RGB32 on a big-endian machine. */
  lemma PlanemapFitsFormatIff(bitsPerSample: int, negotiated: PixelFormat, bigEndian: bool)
    requires negotiated.Bgr24? || negotiated.Xrgb32?
    requires bitsPerSample in {8, 24, 32}
    ensures var layout := DecodeInit(bitsPerSample, negotiated, bigEndian).value;
      (forall p :: 0 <= p < layout.Planes() ==> layout.planemap[p] == ComponentByte(layout.format, bigEndian, p))
        <==> !(layout.format.Xrgb32? && bigEndian)
  {
    var layout := DecodeInit(bitsPerSample, negotiated, bigEndian).value;
    if layout.format.Xrgb32? && bigEndian {
      assert layout.planemap[0] == 2 && ComponentByte(Xrgb32, true, 0) == 1;
    }
  }

  // ---------------------------------------------------------------------------- what a packet says of one row

  /** 32-bit unsigned arithmetic. */
  function Wrap(x: int): nat { x % TWO_32 }

  function Copies(value: Byte, count: nat): seq<Byte> { seq(count, _ => value) }

  /** Where reading stops, and the pixels of the row. */
  datatype RowResult = RowDone(dp: nat, pixels: seq<Byte>) | RowInvalid(pixels: seq<Byte>)

  /** The loop that decodes a row of at most `room` pixels: dp reads the packet, dlen is the unsigned rest of the
      row's encoded length, and pixels are those decoded so far. */
  function RowLoop(buf: seq<Byte>, room: nat, dp: nat, dlen: nat, pixels: seq<Byte>): (r: RowResult)
    ensures |pixels| <= room ==> |r.pixels| <= room
    ensures r.RowDone? ==> if dlen == 0 then r.dp == dp else dp < r.dp <= |buf|
    decreases |buf| - dp
  {
    if dlen == 0 then RowDone(dp, pixels)
    else if |buf| - dp <= 1 then RowInvalid(pixels)
    else if buf[dp] <= 127 then
      var count := buf[dp] as int + 1;
      if room - |pixels| < count then RowDone(dp + 1, pixels)
      else if |buf| - (dp + 1) < count then RowInvalid(pixels)
      else RowLoop(buf, room, dp + 1 + count, Wrap(dlen - (count + 1)), pixels + buf[dp + 1..dp + 1 + count])
    else
      var count := 257 - buf[dp] as int;
      if room - |pixels| < count then RowDone(dp + 1, pixels)
      else RowLoop(buf, room, dp + 2, Wrap(dlen - 2), pixels + Copies(buf[dp + 1], count))
  }

  /** What RowLoop gives; a name of its own, so that equal rows are seen to be equal without unfolding the loop. */
  function DecodeRow(buf: seq<Byte>, room: nat, dp: nat, dlen: nat, pixels: seq<Byte>): (r: RowResult)
    ensures |pixels| <= room ==> |r.pixels| <= room
    ensures r.RowDone? ==> if dlen == 0 then r.dp == dp else dp < r.dp <= |buf|
  {
    RowLoop(buf, room, dp, dlen, pixels)
  }

  // -------------------------------------------------------------------------- what a packet says of the frame

  /** The pixels decoded for plane p of row r. */
  datatype Line = Line(p: nat, r: nat, pixels: seq<Byte>)

  datatype FrameResult = FrameDone(dp: nat, lines: seq<Line>) | FrameInvalid(lines: seq<Line>)

  function Be16(buf: seq<Byte>, at: nat): nat
    requires at + 1 < |buf|
  {
    buf[at] as int * 256 + buf[at + 1] as int
  }

  /** How many pixels a row of linesize bytes has room for. */
  function Room(layout: Layout, linesize: nat): nat
    requires layout.Planes() > 0
  {
    linesize / layout.PixelSize()
  }

  /** One row of a plane whose table of line lengths starts at lp. */
  function DecodeLine(room: nat, buf: seq<Byte>, lp: nat, row: nat, dp: nat): RowResult {
    if |buf| - lp < row * 2 + 2 then RowInvalid([]) else DecodeRow(buf, room, dp, Be16(buf, lp + row * 2), [])
  }

  /** The rows of plane p from `row` on, added to the lines decoded so far. */
  function PlaneLoop(
      height: nat, room: nat, buf: seq<Byte>, p: nat, lp: nat, row: nat, dp: nat, lines: seq<Line>): FrameResult
    requires row <= height
    decreases height - row
  {
    if row == height then FrameDone(dp, lines)
    else match DecodeLine(room, buf, lp, row, dp)
      case RowInvalid(pixels) => FrameInvalid(lines + [Line(p, row, pixels)])
      case RowDone(dp', pixels) =>
        PlaneLoop(height, room, buf, p, lp, row + 1, dp', lines + [Line(p, row, pixels)])
  }

  /** What PlaneLoop gives. */
  function DecodePlane(
      height: nat, room: nat, buf: seq<Byte>, p: nat, lp: nat, row: nat, dp: nat, lines: seq<Line>): FrameResult
    requires row <= height
  {
    PlaneLoop(height, room, buf, p, lp, row, dp, lines)
  }

  function PlanesLoop(
      planes: nat, height: nat, room: nat, buf: seq<Byte>, p: nat, dp: nat, lines: seq<Line>): FrameResult
    requires p <= planes
    decreases planes - p
  {
    if p == planes then FrameDone(dp, lines)
    else
      NaturalProduct(p, 2 * height);
      match DecodePlane(height, room, buf, p, p * (2 * height), 0, dp, lines)
      case FrameInvalid(lines') => FrameInvalid(lines')
      case FrameDone(dp', lines') => PlanesLoop(planes, height, room, buf, p + 1, dp', lines')
  }

  /** What PlanesLoop gives. */
  function DecodePlanes(
      planes: nat, height: nat, room: nat, buf: seq<Byte>, p: nat, dp: nat, lines: seq<Line>): FrameResult
    requires p <= planes
  {
    PlanesLoop(planes, height, room, buf, p, dp, lines)
  }

  /** Everything decode_frame takes from a packet. */
  function DecodeFrame(layout: Layout, height: nat, linesize: nat, buf: seq<Byte>): FrameResult
    requires layout.Planes() > 0
  {
    NaturalProduct(layout.Planes(), 2 * height);
    DecodePlanes(layout.Planes(), height, Room(layout, linesize), buf, 0, layout.Planes() * (2 * height), [])
  }

  lemma NaturalProduct(a: nat, b: nat)
    ensures a * b >= 0
  {
  }

  // ---------------------------------------------------------------------------------------- what the frame shows

  predicate OnGrid(q: int, pos: int, inc: nat, k: nat) { q == pos + k * inc }

  ghost predicate AmongFirst(q: int, pos: int, inc: nat, n: nat) {
    exists k: nat :: k < n && OnGrid(q, pos, inc, k)
  }

  /** The pixels stand `inc` bytes apart from pos on, and nothing else has changed. */
  ghost predicate Painted(before: seq<Byte>, after: seq<Byte>, pos: nat, inc: nat, pixels: seq<Byte>) {
    && |after| == |before|
    && (forall k {:trigger pixels[k]} :: 0 <= k < |pixels| ==>
          0 <= pos + k * inc < |after| && after[pos + k * inc] == pixels[k])
    && (forall q {:trigger after[q]} :: 0 <= q < |before| && !AmongFirst(q, pos, inc, |pixels|) ==>
          after[q] == before[q])
  }

  lemma LessTimes(j: nat, k: nat, inc: nat)
    requires j < k
    ensures j * inc + inc <= k * inc
  {
    assert k * inc == (j + 1) * inc + (k - j - 1) * inc;
    NaturalProduct(k - j - 1, inc);
    assert (j + 1) * inc == j * inc + inc;
  }

  lemma PaintOne(before: seq<Byte>, now: seq<Byte>, pos: nat, inc: nat, pixels: seq<Byte>, at: nat, value: Byte)
    requires inc > 0 && Painted(before, now, pos, inc, pixels) && at == pos + |pixels| * inc < |now|
    ensures Painted(before, now[at := value], pos, inc, pixels + [value])
  {
    var n := |pixels|;
    var after := now[at := value];
    assert OnGrid(at, pos, inc, n);
    forall k | 0 <= k < n + 1
      ensures 0 <= pos + k * inc < |after| && after[pos + k * inc] == (pixels + [value])[k]
    {
      if k < n {
        LessTimes(k, n, inc);
        assert (pixels + [value])[k] == pixels[k];
      }
    }
    forall q | 0 <= q < |before| && !AmongFirst(q, pos, inc, n + 1)
      ensures after[q] == before[q]
    {
      assert q != at;
      assert !AmongFirst(q, pos, inc, n);
      assert after[q] == now[q];
    }
  }

  function Place(layout: Layout, linesize: nat, p: nat, r: nat): nat
    requires p < layout.Planes()
  {
    NaturalProduct(r, linesize);
    r * linesize + layout.planemap[p]
  }

  /** Room for n pixels means that they fit into linesize bytes. */
  lemma RoomIff(linesize: nat, inc: nat, n: nat)
    requires inc > 0
    ensures n * inc <= linesize <==> n <= linesize / inc
  {
    var m := linesize / inc;
    assert m * inc <= linesize < m * inc + inc;
    if n < m {
      LessTimes(n, m, inc);
    } else if m < n {
      LessTimes(m, n, inc);
    }
  }

  /** Every pixel that has room lies inside its own row. */
  lemma PixelInRow(layout: Layout, linesize: nat, p: nat, r: nat, k: nat)
    requires layout.Sound() && p < layout.Planes() && k < Room(layout, linesize)
    ensures r * linesize <= Place(layout, linesize, p, r) + k * layout.PixelSize() < r * linesize + linesize
  {
    var inc := layout.PixelSize();
    RoomIff(linesize, inc, k + 1);
    NaturalProduct(k, inc);
    assert (k + 1) * inc == k * inc + inc;
  }

  lemma RowInFrame(height: nat, linesize: nat, row: nat)
    requires row < height
    ensures row * linesize + linesize <= height * linesize
  {
    LessTimes(row, height, linesize);
  }

  ghost predicate Geometry(layout: Layout, height: nat, linesize: nat, length: nat) {
    layout.Sound() && length >= height * linesize
  }

  ghost predicate Covers(layout: Layout, linesize: nat, line: Line, q: int) {
    && line.p < layout.Planes()
    && AmongFirst(q, Place(layout, linesize, line.p, line.r), layout.PixelSize(), |line.pixels|)
  }

  ghost predicate Uncovered(layout: Layout, linesize: nat, lines: seq<Line>, q: int) {
    forall i :: 0 <= i < |lines| ==> !Covers(layout, linesize, lines[i], q)
  }

  /** Every line's pixels stand in their places, and bytes that no line covers are as before. */
  ghost predicate Shows(layout: Layout, linesize: nat, before: seq<Byte>, after: seq<Byte>, lines: seq<Line>)
    requires forall i :: 0 <= i < |lines| ==> lines[i].p < layout.Planes()
  {
    && |after| == |before|
    && (forall i, k {:trigger lines[i].pixels[k]} :: 0 <= i < |lines| && 0 <= k < |lines[i].pixels| ==>
          var at := Place(layout, linesize, lines[i].p, lines[i].r) + k * layout.PixelSize();
          0 <= at < |after| && after[at] == lines[i].pixels[k])
    && (forall q {:trigger after[q]} :: 0 <= q < |before| && Uncovered(layout, linesize, lines, q) ==>
          after[q] == before[q])
  }

  /** Lines of different planes or rows, no longer than a row has room for. */
  ghost predicate Orderly(layout: Layout, height: nat, linesize: nat, lines: seq<Line>)
    requires layout.Planes() > 0
  {
    && (forall i :: 0 <= i < |lines| ==>
          lines[i].p < layout.Planes() && lines[i].r < height && |lines[i].pixels| <= Room(layout, linesize))
    && (forall i, j :: 0 <= i < j < |lines| ==> lines[i].p != lines[j].p || lines[i].r != lines[j].r)
  }

  lemma GridIsUnique(a: nat, b: nat, inc: nat, j: nat, k: nat)
    requires a < inc && b < inc && a + j * inc == b + k * inc
    ensures a == b && j == k
  {
    if j < k {
      LessTimes(j, k, inc);
    } else if k < j {
      LessTimes(k, j, inc);
    }
  }

  /** No two planes and no two rows share a byte. */
  lemma PlacesAreApart(layout: Layout, linesize: nat, p: nat, r: nat, j: nat, p': nat, r': nat, k: nat)
    requires layout.Sound() && p < layout.Planes() && p' < layout.Planes() && (p != p' || r != r')
    requires j < Room(layout, linesize) && k < Room(layout, linesize)
    ensures Place(layout, linesize, p, r) + j * layout.PixelSize()
      != Place(layout, linesize, p', r') + k * layout.PixelSize()
  {
    PixelInRow(layout, linesize, p, r, j);
    PixelInRow(layout, linesize, p', r', k);
    if r < r' {
      LessTimes(r, r', linesize);
    } else if r' < r {
      LessTimes(r', r, linesize);
    } else if layout.planemap[p] + j * layout.PixelSize() == layout.planemap[p'] + k * layout.PixelSize() {
      GridIsUnique(layout.planemap[p], layout.planemap[p'], layout.PixelSize(), j, k);
    }
  }

  lemma PaintLine(
      layout: Layout, height: nat, linesize: nat, before: seq<Byte>, mid: seq<Byte>, after: seq<Byte>,
      lines: seq<Line>, line: Line)
    requires layout.Sound() && Orderly(layout, height, linesize, lines + [line])
    requires forall i :: 0 <= i < |lines| ==> lines[i].p < layout.Planes()
    requires Shows(layout, linesize, before, mid, lines) && line.p < layout.Planes()
    requires Painted(mid, after, Place(layout, linesize, line.p, line.r), layout.PixelSize(), line.pixels)
    ensures Shows(layout, linesize, before, after, lines + [line])
  {
    var all, inc, pos := lines + [line], layout.PixelSize(), Place(layout, linesize, line.p, line.r);
    forall i, k | 0 <= i < |all| && 0 <= k < |all[i].pixels|
      ensures var at := Place(layout, linesize, all[i].p, all[i].r) + k * inc;
        0 <= at < |after| && after[at] == all[i].pixels[k]
    {
      if i < |lines| {
        LineSurvives(layout, height, linesize, mid, after, lines, line, i, k);
      } else {
        assert all[i].pixels[k] == line.pixels[k];
      }
    }
    forall q | 0 <= q < |before| && Uncovered(layout, linesize, all, q)
      ensures after[q] == before[q]
    {
      UncoveredByAll(layout, linesize, lines, line, q);
      assert after[q] == mid[q];
    }
  }

  lemma UncoveredByAll(layout: Layout, linesize: nat, lines: seq<Line>, line: Line, q: int)
    requires Uncovered(layout, linesize, lines + [line], q)
    ensures Uncovered(layout, linesize, lines, q) && !Covers(layout, linesize, line, q)
  {
    var all := lines + [line];
    assert all[|lines|] == line && forall i :: 0 <= i < |lines| ==> all[i] == lines[i];
  }

  /** Painting one line leaves the pixels of the others alone. */
  lemma LineSurvives(
      layout: Layout, height: nat, linesize: nat, mid: seq<Byte>, after: seq<Byte>, lines: seq<Line>, line: Line,
      i: nat, k: nat)
    requires layout.Sound() && Orderly(layout, height, linesize, lines + [line]) && line.p < layout.Planes()
    requires i < |lines| && lines[i].p < layout.Planes() && k < |lines[i].pixels|
    requires Painted(mid, after, Place(layout, linesize, line.p, line.r), layout.PixelSize(), line.pixels)
    requires var at := Place(layout, linesize, lines[i].p, lines[i].r) + k * layout.PixelSize();
      0 <= at < |mid| && mid[at] == lines[i].pixels[k]
    ensures var at := Place(layout, linesize, lines[i].p, lines[i].r) + k * layout.PixelSize();
      0 <= at < |after| && after[at] == lines[i].pixels[k]
  {
    var all := lines + [line];
    assert all[i] == lines[i] && all[|lines|] == line;
    var at := Place(layout, linesize, lines[i].p, lines[i].r) + k * layout.PixelSize();
    var pos := Place(layout, linesize, line.p, line.r);
    if AmongFirst(at, pos, layout.PixelSize(), |line.pixels|) {
      var j: nat :| j < |line.pixels| && OnGrid(at, pos, layout.PixelSize(), j);
      PlacesAreApart(layout, linesize, lines[i].p, lines[i].r, k, line.p, line.r, j);
    }
    assert after[at] == mid[at];
  }

  // --------------------------------------------------------------------------------------------- the program

  /** `count` more pixels behind the first n of a row that starts at `start` lie inside the frame. */
  ghost predicate Fits(start: nat, inc: nat, n: nat, count: nat, length: nat) {
    count > 0 ==> start + (n + count - 1) * inc < length
  }

  lemma FitsOne(start: nat, inc: nat, n: nat, count: nat, length: nat)
    requires count > 0 && Fits(start, inc, n, count, length)
    ensures 0 <= start + n * inc < length && Fits(start, inc, n + 1, count - 1, length)
    ensures start + (n + 1) * inc == start + n * inc + inc
  {
    NaturalProduct(n, inc);
    if count > 1 {
      LessTimes(n, n + count - 1, inc);
    }
  }

  /** Writes one byte of a row. */
  method PutByte(
      value: Byte, data: array<Byte>, pos: nat, inc: nat, ghost before: seq<Byte>, ghost start: nat,
      ghost pixels: seq<Byte>)
    requires inc > 0 && pos == start + |pixels| * inc < data.Length
    requires Painted(before, data[..], start, inc, pixels)
    modifies data
    ensures Painted(before, data[..], start, inc, pixels + [value])
  {
    ghost var now := data[..];
    PaintOne(before, now, start, inc, pixels, pos, value);
    data[pos] := value;
    assert data[..] == now[pos := value];
  }

  /** The copying loop of a literal opcode, for a row that starts at `start` and shows `pixels` so far. */
  method CopyBytes(buf: seq<Byte>, dp0: nat, count0: nat, data: array<Byte>, pos0: nat, inc: nat,
                   ghost before: seq<Byte>, ghost start: nat, ghost pixels: seq<Byte>) returns (dp: nat, pos: nat)
    requires inc > 0 && dp0 + count0 <= |buf| && pos0 == start + |pixels| * inc
    requires Painted(before, data[..], start, inc, pixels) && Fits(start, inc, |pixels|, count0, data.Length)
    modifies data
    ensures Painted(before, data[..], start, inc, pixels + buf[dp0..dp0 + count0])
    ensures dp == dp0 + count0 && pos == start + (|pixels| + count0) * inc
  {
    var count := count0;
    dp, pos := dp0, pos0;
    ghost var shown := pixels;
    while count > 0
      invariant 0 <= count <= count0 && dp == dp0 + (count0 - count)
      invariant shown == pixels + buf[dp0..dp] && pos == start + |shown| * inc
      invariant Fits(start, inc, |shown|, count, data.Length)
      invariant Painted(before, data[..], start, inc, shown)
    {
      FitsOne(start, inc, |shown|, count, data.Length);
      PutByte(buf[dp], data, pos, inc, before, start, shown);
      shown := shown + [buf[dp]];
      dp := dp + 1;
      pos := pos + inc;
      count := count - 1;
    }
  }

  /** The filling loop of a run opcode. */
  method FillBytes(value: Byte, count0: nat, data: array<Byte>, pos0: nat, inc: nat,
                   ghost before: seq<Byte>, ghost start: nat, ghost pixels: seq<Byte>) returns (pos: nat)
    requires inc > 0 && pos0 == start + |pixels| * inc
    requires Painted(before, data[..], start, inc, pixels) && Fits(start, inc, |pixels|, count0, data.Length)
    modifies data
    ensures Painted(before, data[..], start, inc, pixels + Copies(value, count0))
    ensures pos == start + (|pixels| + count0) * inc
  {
    var count := count0;
    pos := pos0;
    ghost var shown := pixels;
    while count > 0
      invariant 0 <= count <= count0
      invariant shown == pixels + Copies(value, count0 - count) && pos == start + |shown| * inc
      invariant Fits(start, inc, |shown|, count, data.Length)
      invariant Painted(before, data[..], start, inc, shown)
    {
      FitsOne(start, inc, |shown|, count, data.Length);
      PutByte(value, data, pos, inc, before, start, shown);
      shown := shown + [value];
      pos := pos + inc;
      count := count - 1;
    }
  }

  /** The test against pixptr_end is the test for room, and what has room lies inside the frame. */
  lemma TestIsRoom(linesize: nat, inc: nat, start: nat, n: nat, count: nat, length: nat)
    requires inc > 0 && start + linesize < length + inc
    ensures (start + linesize) - (start + n * inc) < count * inc <==> linesize / inc - n < count
    ensures linesize / inc - n >= count ==> Fits(start, inc, n, count, length)
  {
    RoomIff(linesize, inc, n + count);
    assert (n + count) * inc == n * inc + count * inc;
    assert (n + count - 1) * inc == (n + count) * inc - inc;
  }

  datatype Progress = More | RowEnd | Truncated

  /** What an opcode leaves of the row's decoding. */
  ghost predicate Advances(
      r: RowResult, progress: Progress, buf: seq<Byte>, room: nat, dp: nat, dlen: nat, pixels: seq<Byte>) {
    match progress
    case More => r == DecodeRow(buf, room, dp, dlen, pixels)
    case RowEnd => r == RowDone(dp, pixels)
    case Truncated => r == RowInvalid(pixels)
  }

  /** One turn of the loop over the opcodes of a row. */
  method ReadOpcode(
      buf: seq<Byte>, dp0: nat, dlen0: nat, pos0: nat, end: nat, linesize: nat, inc: nat, data: array<Byte>,
      ghost before: seq<Byte>, ghost start: nat, ghost pixels0: seq<Byte>)
    returns (progress: Progress, dp: nat, dlen: nat, pos: nat, ghost pixels: seq<Byte>)
    requires inc > 0 && end == start + linesize < data.Length + inc && pos0 == start + |pixels0| * inc
    requires dlen0 > 0 && Painted(before, data[..], start, inc, pixels0) && |pixels0| <= linesize / inc
    modifies data
    ensures Painted(before, data[..], start, inc, pixels) && |pixels| <= linesize / inc
    ensures progress.More? ==> dp0 < dp <= |buf| && pos == start + |pixels| * inc
    ensures Advances(DecodeRow(buf, linesize / inc, dp0, dlen0, pixels0),
                     progress, buf, linesize / inc, dp, dlen, pixels)
  {
    dp, dlen, pos, pixels := dp0, dlen0, pos0, pixels0;
    if |buf| - dp <= 1 {
      return Truncated, dp, dlen, pos, pixels;
    }
    var opcode := buf[dp] as int;
    dp := dp + 1;
    var count: nat := if opcode <= 127 then opcode + 1 else 257 - opcode;
    TestIsRoom(linesize, inc, start, |pixels|, count, data.Length);
    if end - pos < count * inc {
      return RowEnd, dp, dlen, pos, pixels;
    }
    if opcode <= 127 {
      if |buf| - dp < count {
        return Truncated, dp, dlen, pos, pixels;
      }
      pixels := pixels0 + buf[dp..dp + count];
      dp, pos := CopyBytes(buf, dp, count, data, pos, inc, before, start, pixels0);
      dlen := Wrap(dlen - (count + 1));
    } else {
      pixels := pixels0 + Copies(buf[dp], count);
      pos := FillBytes(buf[dp], count, data, pos, inc, before, start, pixels0);
      dp := dp + 1;
      dlen := Wrap(dlen - 2);
    }
    progress := More;
  }

  /** One row; false when the packet ends too early. */
  method ReadRow(buf: seq<Byte>, dp0: nat, dlen0: nat, start: nat, linesize: nat, inc: nat, data: array<Byte>)
    returns (ok: bool, dp: nat, ghost pixels: seq<Byte>)
    requires inc > 0 && start + linesize < data.Length + inc
    modifies data
    ensures DecodeRow(buf, linesize / inc, dp0, dlen0, []) == if ok then RowDone(dp, pixels) else RowInvalid(pixels)
    ensures Painted(old(data[..]), data[..], start, inc, pixels)
  {
    var pos, end, dlen: nat := start, start + linesize, dlen0;
    dp, pixels := dp0, [];
    while dlen > 0
      invariant pos == start + |pixels| * inc && |pixels| <= linesize / inc
      invariant Painted(old(data[..]), data[..], start, inc, pixels)
      invariant DecodeRow(buf, linesize / inc, dp, dlen, pixels) == DecodeRow(buf, linesize / inc, dp0, dlen0, [])
      decreases |buf| - dp
    {
      var progress;
      progress, dp, dlen, pos, pixels :=
        ReadOpcode(buf, dp, dlen, pos, end, linesize, inc, data, old(data[..]), start, pixels);
      if !progress.More? {
        return progress.RowEnd?, dp, pixels;
      }
    }
    return true, dp, pixels;
  }

  ghost predicate ShowsOrderly(
      layout: Layout, height: nat, linesize: nat, before: seq<Byte>, after: seq<Byte>, lines: seq<Line>) {
    layout.Sound() && Orderly(layout, height, linesize, lines) && Shows(layout, linesize, before, after, lines)
  }

  /** Lines decoded before row `row` of plane p. */
  ghost predicate Before(lines: seq<Line>, p: nat, row: nat) {
    forall i :: 0 <= i < |lines| ==> lines[i].p < p || (lines[i].p == p && lines[i].r < row)
  }

  method ReadPlane(layout: Layout, height: nat, linesize: nat, buf: seq<Byte>, p: nat, dp0: nat, data: array<Byte>,
                   ghost before: seq<Byte>, ghost lines0: seq<Line>)
    returns (ok: bool, dp: nat, ghost lines: seq<Line>)
    requires Geometry(layout, height, linesize, data.Length) && p < layout.Planes()
    requires ShowsOrderly(layout, height, linesize, before, data[..], lines0) && Before(lines0, p, 0)
    requires p * (2 * height) >= 0
    modifies data
    ensures ShowsOrderly(layout, height, linesize, before, data[..], lines)
    ensures ok ==> Before(lines, p + 1, 0)
    ensures DecodePlane(height, Room(layout, linesize), buf, p, p * (2 * height), 0, dp0, lines0)
         == if ok then FrameDone(dp, lines) else FrameInvalid(lines)
  {
    var lp: nat := p * (2 * height);
    var row := 0;
    dp, lines := dp0, lines0;
    while row < height
      invariant 0 <= row <= height && Before(lines, p, row)
      invariant ShowsOrderly(layout, height, linesize, before, data[..], lines)
      invariant DecodePlane(height, Room(layout, linesize), buf, p, lp, row, dp, lines)
             == DecodePlane(height, Room(layout, linesize), buf, p, lp, 0, dp0, lines0)
    {
      ghost var pixels;
      ok, dp, pixels := ReadLine(layout, height, linesize, buf, p, lp, row, dp, data, before, lines);
      lines := lines + [Line(p, row, pixels)];
      if !ok {
        return false, dp, lines;
      }
      row := row + 1;
    }
    return true, dp, lines;
  }

  method ReadLine(
      layout: Layout, height: nat, linesize: nat, buf: seq<Byte>, p: nat, lp: nat, row: nat, dp0: nat,
      data: array<Byte>, ghost before: seq<Byte>, ghost lines: seq<Line>)
    returns (ok: bool, dp: nat, ghost pixels: seq<Byte>)
    requires Geometry(layout, height, linesize, data.Length) && p < layout.Planes() && row < height
    requires ShowsOrderly(layout, height, linesize, before, data[..], lines) && Before(lines, p, row)
    modifies data
    ensures ShowsOrderly(layout, height, linesize, before, data[..], lines + [Line(p, row, pixels)])
    ensures Before(lines + [Line(p, row, pixels)], p, row + 1)
    ensures DecodeLine(Room(layout, linesize), buf, lp, row, dp0)
      == if ok then RowDone(dp, pixels) else RowInvalid(pixels)
  {
    ghost var mid := data[..];
    RowInFrame(height, linesize, row);
    NaturalProduct(row, linesize);
    var start: nat := row * linesize + layout.planemap[p];
    if |buf| - lp < row * 2 + 2 {
      ok, dp, pixels := false, dp0, [];
    } else {
      ok, dp, pixels := ReadRow(buf, dp0, Be16(buf, lp + row * 2), start, linesize, layout.PixelSize(), data);
    }
    PaintLine(layout, height, linesize, before, mid, data[..], lines, Line(p, row, pixels));
  }

  /** decode_frame: the frame shows exactly the lines that the packet says, and is otherwise left alone. */
  method ReadFrame(layout: Layout, height: nat, linesize: nat, buf: seq<Byte>, data: array<Byte>)
    returns (ok: bool, ghost lines: seq<Line>)
    requires Geometry(layout, height, linesize, data.Length)
    modifies data
    ensures ShowsOrderly(layout, height, linesize, old(data[..]), data[..], lines)
    ensures var r := DecodeFrame(layout, height, linesize, buf); lines == r.lines && (ok <==> r.FrameDone?)
  {
    NaturalProduct(layout.Planes(), 2 * height);
    var dp: nat := layout.Planes() * (2 * height);
    var p := 0;
    lines := [];
    while p < layout.Planes()
      invariant 0 <= p <= layout.Planes() && Before(lines, p, 0)
      invariant ShowsOrderly(layout, height, linesize, old(data[..]), data[..], lines)
      invariant DecodePlanes(layout.Planes(), height, Room(layout, linesize), buf, p, dp, lines)
             == DecodeFrame(layout, height, linesize, buf)
    {
      NaturalProduct(p, 2 * height);
      ok, dp, lines := ReadPlane(layout, height, linesize, buf, p, dp, data, old(data[..]), lines);
      if !ok {
        return false, lines;
      }
      p := p + 1;
    }
    return true, lines;
  }
}
