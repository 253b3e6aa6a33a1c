/** What the 8BPS decoder does for every packet, and what it gives back for encoded images. */
module EightBpsProofs {
  import opened Wrappers
  import opened EightBps

  // ---------------------------------------------------------------------------------------- for every packet

  /** A byte that the decoder changed belongs to exactly one plane of one row, and lies inside that row. */
  lemma ChangedBytesAreOwned(
      layout: Layout, height: nat, linesize: nat, before: seq<Byte>, after: seq<Byte>, lines: seq<Line>, q: nat)
    returns (i: nat)
    requires ShowsOrderly(layout, height, linesize, before, after, lines)
    requires q < |before| && after[q] != before[q]
    ensures i < |lines| && Covers(layout, linesize, lines[i], q)
    ensures lines[i].r < height && lines[i].r * linesize <= q < lines[i].r * linesize + linesize
    ensures forall j :: 0 <= j < |lines| && Covers(layout, linesize, lines[j], q) ==> j == i
  {
    assert !Uncovered(layout, linesize, lines, q);
    i :| 0 <= i < |lines| && Covers(layout, linesize, lines[i], q);
    var inc := layout.PixelSize();
    var k: nat :| k < |lines[i].pixels| && OnGrid(q, Place(layout, linesize, lines[i].p, lines[i].r), inc, k);
    PixelInRow(layout, linesize, lines[i].p, lines[i].r, k);
    forall j | 0 <= j < |lines| && Covers(layout, linesize, lines[j], q)
      ensures j == i
    {
      var m: nat :| m < |lines[j].pixels| && OnGrid(q, Place(layout, linesize, lines[j].p, lines[j].r), inc, m);
      if j != i {
        assert lines[i].p != lines[j].p || lines[i].r != lines[j].r;
        PlacesAreApart(layout, linesize, lines[i].p, lines[i].r, k, lines[j].p, lines[j].r, m);
      }
    }
  }

  // ---------------------------------------------------------------------------------------------- encoded rows

  /** An opcode: its bytes in the packet and the pixels it stands for. */
  datatype Op = Op(code: seq<Byte>, pixels: seq<Byte>)
  {
    ghost predicate Literal() {
      1 <= |pixels| <= 128 && code == [(|pixels| - 1) as Byte] + pixels
    }

    ghost predicate Repeat() {
      2 <= |pixels| <= 129 && code == [(257 - |pixels|) as Byte, pixels[0]] && pixels == Copies(pixels[0], |pixels|)
    }

    ghost predicate Valid() { Literal() || Repeat() }
  }

  ghost predicate ValidOps(ops: seq<Op>) {
    forall i :: 0 <= i < |ops| ==> ops[i].Valid()
  }

  function ExpandAll(ops: seq<Op>): seq<Byte> {
    if ops == [] then [] else ops[0].pixels + ExpandAll(ops[1..])
  }

  function EncodeAll(ops: seq<Op>): seq<Byte> {
    if ops == [] then [] else ops[0].code + EncodeAll(ops[1..])
  }

  /** The pixels of a row; RowUnfolds says what they are. */
  function Expand(ops: seq<Op>): seq<Byte> { ExpandAll(ops) }

  /** The encoded row; RowUnfolds says what it is. */
  function EncodeRow(ops: seq<Op>): seq<Byte> { EncodeAll(ops) }

  /** `part` stands in the packet at dp. */
  ghost predicate StandsAt(buf: seq<Byte>, dp: nat, part: seq<Byte>) {
    dp + |part| <= |buf| && buf[dp..dp + |part|] == part
  }

  lemma SplitStanding(buf: seq<Byte>, dp: nat, a: seq<Byte>, b: seq<Byte>)
    requires StandsAt(buf, dp, a + b)
    ensures StandsAt(buf, dp, a) && StandsAt(buf, dp + |a|, b)
  {
    assert buf[dp..dp + |a|] == buf[dp..dp + |a + b|][..|a|];
    assert buf[dp + |a|..dp + |a| + |b|] == buf[dp..dp + |a + b|][|a|..];
  }

  /** The opcode at dp adds its pixels and leaves the rest of the row to be decoded. */
  lemma DecodeOp(buf: seq<Byte>, room: nat, dp: nat, op: Op, rest: nat, pixels: seq<Byte>)
    requires op.Valid() && StandsAt(buf, dp, op.code)
    requires |op.code| + rest < TWO_32 && |pixels| + |op.pixels| <= room
    ensures DecodeRow(buf, room, dp, |op.code| + rest, pixels)
         == DecodeRow(buf, room, dp + |op.code|, rest, pixels + op.pixels)
  {
    assert buf[dp] == buf[dp..dp + |op.code|][0] == op.code[0];
    assert Wrap(rest) == rest;
    if op.Literal() {
      assert buf[dp + 1..dp + 1 + |op.pixels|] == buf[dp..dp + |op.code|][1..] == op.pixels;
    } else {
      assert buf[dp + 1] == buf[dp..dp + |op.code|][1] == op.pixels[0];
    }
  }

  /** If what follows the first opcode decodes, so does the whole. */
  lemma DecodeCons(buf: seq<Byte>, room: nat, dp: nat, op: Op, tail: seq<Byte>, pixels: seq<Byte>, others: seq<Byte>)
    requires op.Valid() && StandsAt(buf, dp, op.code)
    requires |op.code| + |tail| < TWO_32 && |pixels| + |op.pixels| <= room
    requires DecodeRow(buf, room, dp + |op.code|, |tail|, pixels + op.pixels)
          == RowDone(dp + |op.code| + |tail|, pixels + op.pixels + others)
    ensures DecodeRow(buf, room, dp, |op.code + tail|, pixels)
         == RowDone(dp + |op.code + tail|, pixels + (op.pixels + others))
  {
    DecodeOp(buf, room, dp, op, |tail|, pixels);
    assert pixels + op.pixels + others == pixels + (op.pixels + others);
  }

  lemma RowUnfolds(ops: seq<Op>)
    requires ops != []
    ensures EncodeRow(ops) == ops[0].code + EncodeRow(ops[1..]) && Expand(ops) == ops[0].pixels + Expand(ops[1..])
  {
  }

  /** An encoded row decodes to its pixels, and reading goes on right behind it. */
  lemma {:induction false} DecodeEncodedRow(buf: seq<Byte>, room: nat, dp: nat, ops: seq<Op>, pixels: seq<Byte>)
    requires ValidOps(ops) && StandsAt(buf, dp, EncodeRow(ops))
    requires |EncodeRow(ops)| < TWO_32 && |pixels| + |Expand(ops)| <= room
    ensures DecodeRow(buf, room, dp, |EncodeRow(ops)|, pixels)
         == RowDone(dp + |EncodeRow(ops)|, pixels + Expand(ops))
    decreases |ops|
  {
    if ops == [] {
      assert pixels + Expand(ops) == pixels;
      return;
    }
    var op, tail, others := ops[0], EncodeRow(ops[1..]), Expand(ops[1..]);
    RowUnfolds(ops);
    SplitStanding(buf, dp, op.code, tail);
    DecodeEncodedRow(buf, room, dp + |op.code|, ops[1..], pixels + op.pixels);
    DecodeCons(buf, room, dp, op, tail, pixels, others);
  }

  /** The example of Apple's Technical Note 1023: a run, a literal, a run, a literal and a long run. */
  lemma TechnicalNoteExample(buf: seq<Byte>, room: nat)
    requires room >= 24
    requires buf == [0xFE, 0xAA, 0x02, 0x80, 0x00, 0x2A, 0xFD, 0xAA, 0x03, 0x80, 0x00, 0x2A, 0x22, 0xF7, 0xAA]
    ensures DecodeRow(buf, room, 0, 15, [])
      == RowDone(15, [0xAA, 0xAA, 0xAA, 0x80, 0x00, 0x2A, 0xAA, 0xAA, 0xAA, 0xAA, 0x80, 0x00, 0x2A, 0x22,
                      0xAA, 0xAA, 0xAA, 0xAA, 0xAA, 0xAA, 0xAA, 0xAA, 0xAA, 0xAA])
  {
    var p: seq<Byte> := [0xAA, 0xAA, 0xAA];
    var q := p + [0x80, 0x00, 0x2A];
    var r := q + [0xAA, 0xAA, 0xAA, 0xAA];
    var s := r + [0x80, 0x00, 0x2A, 0x22];
    RunRead(buf, room, 0, 15, [], p, 3);
    LiteralRead(buf, room, 2, 13, p, q, 3);
    RunRead(buf, room, 6, 9, q, r, 4);
    LiteralRead(buf, room, 8, 7, r, s, 4);
    LastRun(buf, room, 13, s, s + Copies(0xAA, 10), 10);
  }

  lemma LastRun(buf: seq<Byte>, room: nat, dp: nat, pixels: seq<Byte>, next: seq<Byte>, count: nat)
    requires dp + 1 < |buf| && buf[dp] >= 128 && count == 257 - buf[dp] as int
    requires next == pixels + Copies(buf[dp + 1], count) && |next| <= room
    ensures DecodeRow(buf, room, dp, 2, pixels) == RowDone(dp + 2, next)
  {
    RunRead(buf, room, dp, 2, pixels, next, count);
  }

  lemma RunRead(buf: seq<Byte>, room: nat, dp: nat, dlen: nat, pixels: seq<Byte>, next: seq<Byte>, count: nat)
    requires dp + 1 < |buf| && 2 <= dlen < TWO_32 && buf[dp] >= 128 && count == 257 - buf[dp] as int
    requires next == pixels + Copies(buf[dp + 1], count) && |next| <= room
    ensures DecodeRow(buf, room, dp, dlen, pixels) == DecodeRow(buf, room, dp + 2, dlen - 2, next)
  {
  }

  lemma LiteralRead(buf: seq<Byte>, room: nat, dp: nat, dlen: nat, pixels: seq<Byte>, next: seq<Byte>, count: nat)
    requires dp + 1 < |buf| && buf[dp] < 128 && count == buf[dp] as int + 1 && dp + 1 + count <= |buf|
    requires count + 1 <= dlen < TWO_32
    requires next == pixels + buf[dp + 1..dp + 1 + count] && |next| <= room
    ensures DecodeRow(buf, room, dp, dlen, pixels) == DecodeRow(buf, room, dp + 1 + count, dlen - count - 1, next)
  {
  }

  // -------------------------------------------------------------------------------------------- encoded images

  /** Rows of all planes, plane by plane, each under 65536 encoded bytes and `width` pixels wide. */
  ghost predicate Image(rows: seq<seq<Op>>, width: nat) {
    forall n :: 0 <= n < |rows| ==> ValidOps(rows[n]) && |EncodeRow(rows[n])| < 65536 && |Expand(rows[n])| == width
  }

  /** The line lengths, big-endian. */
  function Table(rows: seq<seq<Op>>, width: nat): (r: seq<Byte>)
    requires Image(rows, width)
    ensures |r| == 2 * |rows|
  {
    seq(2 * |rows|, i requires 0 <= i < 2 * |rows| =>
      var length := |EncodeRow(rows[i / 2])|;
      (if i % 2 == 0 then length / 256 else length % 256) as Byte)
  }

  /** The first n encoded rows. */
  function DataUpTo(rows: seq<seq<Op>>, width: nat, n: nat): seq<Byte>
    requires Image(rows, width) && n <= |rows|
  {
    if n == 0 then [] else DataUpTo(rows, width, n - 1) + EncodeRow(rows[n - 1])
  }

  function Data(rows: seq<seq<Op>>, width: nat, n: nat): seq<Byte>
    requires Image(rows, width) && n <= |rows|
  {
    DataUpTo(rows, width, n)
  }

  function EncodePacket(rows: seq<seq<Op>>, width: nat): seq<Byte>
    requires Image(rows, width)
  {
    Table(rows, width) + Data(rows, width, |rows|)
  }

  /** Where row n's opcodes start. */
  function Offset(rows: seq<seq<Op>>, width: nat, n: nat): nat
    requires Image(rows, width) && n <= |rows|
  {
    2 * |rows| + |Data(rows, width, n)|
  }

  lemma TableEntry(rows: seq<seq<Op>>, width: nat, n: nat)
    requires Image(rows, width) && n < |rows|
    ensures Be16(Table(rows, width), 2 * n) == |EncodeRow(rows[n])|
  {
    assert 2 * n / 2 == n && (2 * n + 1) / 2 == n && 2 * n % 2 == 0 && (2 * n + 1) % 2 == 1;
  }

  lemma DataNext(rows: seq<seq<Op>>, width: nat, n: nat)
    requires Image(rows, width) && n < |rows|
    ensures Data(rows, width, n + 1) == Data(rows, width, n) + EncodeRow(rows[n])
    ensures Offset(rows, width, n + 1) == Offset(rows, width, n) + |EncodeRow(rows[n])|
  {
  }

  /** The data of the first rows is a prefix of the data of more rows. */
  lemma {:induction false} DataGrows(rows: seq<seq<Op>>, width: nat, m: nat, n: nat)
    requires Image(rows, width) && m <= n <= |rows|
    ensures Data(rows, width, m) <= Data(rows, width, n)
    decreases n
  {
    if m < n {
      DataGrows(rows, width, m, n - 1);
      DataNext(rows, width, n - 1);
    }
  }

  /** Where the rows of a packet start, and where the last one ends. */
  function Offsets(rows: seq<seq<Op>>, width: nat): (offsets: seq<nat>)
    requires Image(rows, width)
    ensures |offsets| == |rows| + 1
  {
    seq(|rows| + 1, n requires 0 <= n <= |rows| => Offset(rows, width, n))
  }

  /** Row n stands in the packet, its length in the table, and the next row right behind it. */
  ghost predicate HoldsRow(buf: seq<Byte>, ops: seq<Op>, n: nat, from: nat, to: nat) {
    && 2 * n + 1 < |buf| && Be16(buf, 2 * n) == |EncodeRow(ops)|
    && StandsAt(buf, from, EncodeRow(ops)) && to == from + |EncodeRow(ops)|
  }

  ghost predicate Holds(buf: seq<Byte>, rows: seq<seq<Op>>, offsets: seq<nat>) {
    |offsets| == |rows| + 1 &&
    forall n {:trigger rows[n]} :: 0 <= n < |rows| ==> HoldsRow(buf, rows[n], n, offsets[n], offsets[n + 1])
  }

  lemma TableStands(table: seq<Byte>, rest: seq<Byte>, n: nat)
    requires 2 * n + 1 < |table|
    ensures Be16(table + rest, 2 * n) == Be16(table, 2 * n)
  {
  }

  lemma PacketHoldsRow(rows: seq<seq<Op>>, width: nat, trailer: seq<Byte>, n: nat)
    requires Image(rows, width) && n < |rows|
    ensures HoldsRow(EncodePacket(rows, width) + trailer, rows[n], n,
                     Offset(rows, width, n), Offset(rows, width, n + 1))
  {
    var table, data := Table(rows, width), Data(rows, width, |rows|);
    TableEntry(rows, width, n);
    TableStands(table, data + trailer, n);
    assert table + (data + trailer) == table + data + trailer;
    DataNext(rows, width, n);
    DataGrows(rows, width, n + 1, |rows|);
    MiddleStands(table, Data(rows, width, n), EncodeRow(rows[n]), data, trailer);
  }

  lemma PacketHoldsRowAt(
      rows: seq<seq<Op>>, width: nat, trailer: seq<Byte>, buf: seq<Byte>, offsets: seq<nat>, n: nat)
    requires Image(rows, width) && n < |rows|
    requires buf == EncodePacket(rows, width) + trailer && offsets == Offsets(rows, width)
    ensures |offsets| == |rows| + 1 && HoldsRow(buf, rows[n], n, offsets[n], offsets[n + 1])
  {
    PacketHoldsRow(rows, width, trailer, n);
  }

  lemma {:induction false} PacketHoldsRows(
      rows: seq<seq<Op>>, width: nat, trailer: seq<Byte>, buf: seq<Byte>, offsets: seq<nat>)
    requires Image(rows, width)
    requires buf == EncodePacket(rows, width) + trailer && offsets == Offsets(rows, width)
    ensures Holds(buf, rows, offsets)
  {
    forall n {:trigger rows[n]} | 0 <= n < |rows|
      ensures HoldsRow(buf, rows[n], n, offsets[n], offsets[n + 1])
    {
      PacketHoldsRowAt(rows, width, trailer, buf, offsets, n);
    }
  }

  lemma MiddleStands(table: seq<Byte>, front: seq<Byte>, part: seq<Byte>, data: seq<Byte>, trailer: seq<Byte>)
    requires front + part <= data
    ensures StandsAt(table + data + trailer, |table| + |front|, part)
  {
    assert data[|front|..|front| + |part|] == (front + part)[|front|..];
    assert (table + data + trailer)[|table| + |front|..|table| + |front| + |part|] == data[|front|..|front| + |part|];
  }

  lemma RowNumber(height: nat, p: nat, row: nat)
    requires row < height
    ensures (p * height + row) / height == p && (p * height + row) % height == row
    ensures p * (2 * height) + row * 2 == 2 * (p * height + row) && p * height + row >= 0
  {
    var n := p * height + row;
    var q := n / height;
    NaturalProduct(p, height);
    assert n == q * height + n % height;
    if q < p {
      LessTimes(q, p, height);
    } else if p < q {
      LessTimes(p, q, height);
    }
  }

  /** The lines that the first n rows of the image turn into. */
  function LinesUpTo(rows: seq<seq<Op>>, height: nat, n: nat): (lines: seq<Line>)
    requires n <= |rows| && height > 0
    ensures |lines| == n
  {
    seq(n, m requires 0 <= m < n => Line(m / height, m % height, Expand(rows[m])))
  }

  /** A row that stands in the packet, read as row `row` of the plane whose lengths start at lp. */
  lemma DecodeEncodedLine(room: nat, buf: seq<Byte>, lp: nat, row: nat, ops: seq<Op>, n: nat, from: nat, to: nat)
    requires ValidOps(ops) && |EncodeRow(ops)| < 65536 && |Expand(ops)| <= room
    requires HoldsRow(buf, ops, n, from, to) && lp + row * 2 == 2 * n
    ensures DecodeLine(room, buf, lp, row, from) == RowDone(to, Expand(ops))
  {
    DecodeEncodedRow(buf, room, from, ops, []);
    assert [] + Expand(ops) == Expand(ops);
  }

  lemma PlaneUnfolds(
      height: nat, room: nat, buf: seq<Byte>, p: nat, lp: nat, row: nat, dp: nat, lines: seq<Line>, dp': nat,
      pixels: seq<Byte>)
    requires row < height && DecodeLine(room, buf, lp, row, dp) == RowDone(dp', pixels)
    ensures DecodePlane(height, room, buf, p, lp, row, dp, lines)
         == DecodePlane(height, room, buf, p, lp, row + 1, dp', lines + [Line(p, row, pixels)])
  {
  }

  /** Row `row` of plane p, `first` being the plane's first row in the image. */
  lemma {:induction false} DecodeEncodedPlane(
      rows: seq<seq<Op>>, width: nat, offsets: seq<nat>, height: nat, room: nat, buf: seq<Byte>, p: nat, lp: nat,
      first: nat, row: nat)
    requires Image(rows, width) && Holds(buf, rows, offsets) && width <= room && row <= height && height > 0
    requires first == p * height && lp == p * (2 * height) && first + height <= |rows|
    ensures DecodePlane(height, room, buf, p, lp, row, offsets[first + row], LinesUpTo(rows, height, first + row))
         == FrameDone(offsets[first + height], LinesUpTo(rows, height, first + height))
    decreases height - row
  {
    if row < height {
      var n := first + row;
      RowNumber(height, p, row);
      DecodeEncodedLine(room, buf, lp, row, rows[n], n, offsets[n], offsets[n + 1]);
      PlaneUnfolds(height, room, buf, p, lp, row, offsets[n], LinesUpTo(rows, height, n),
                   offsets[n + 1], Expand(rows[n]));
      assert LinesUpTo(rows, height, n) + [Line(p, row, Expand(rows[n]))] == LinesUpTo(rows, height, n + 1);
      DecodeEncodedPlane(rows, width, offsets, height, room, buf, p, lp, first, row + 1);
    }
  }

  lemma PlanesUnfold(
      planes: nat, height: nat, room: nat, buf: seq<Byte>, p: nat, dp: nat, lines: seq<Line>, dp': nat,
      lines': seq<Line>)
    requires p < planes && p * (2 * height) >= 0
    requires DecodePlane(height, room, buf, p, p * (2 * height), 0, dp, lines) == FrameDone(dp', lines')
    ensures DecodePlanes(planes, height, room, buf, p, dp, lines)
      == DecodePlanes(planes, height, room, buf, p + 1, dp', lines')
  {
  }

  lemma {:induction false} DecodeEncodedPlanes(
      rows: seq<seq<Op>>, width: nat, offsets: seq<nat>, planes: nat, height: nat, room: nat, buf: seq<Byte>, p: nat,
      first: nat)
    requires Image(rows, width) && Holds(buf, rows, offsets) && width <= room && height > 0
    requires p <= planes && first == p * height && |rows| == planes * height && first <= |rows|
    ensures DecodePlanes(planes, height, room, buf, p, offsets[first], LinesUpTo(rows, height, first))
         == FrameDone(offsets[|rows|], LinesUpTo(rows, height, |rows|))
    decreases planes - p
  {
    if p < planes {
      LessTimes(p, planes, height);
      NaturalProduct(p, 2 * height);
      DecodeEncodedPlane(rows, width, offsets, height, room, buf, p, p * (2 * height), first, 0);
      PlanesUnfold(planes, height, room, buf, p, offsets[first], LinesUpTo(rows, height, first),
                   offsets[first + height], LinesUpTo(rows, height, first + height));
      assert (p + 1) * height == first + height;
      DecodeEncodedPlanes(rows, width, offsets, planes, height, room, buf, p + 1, first + height);
    }
  }

  /** An image of any planes, encoded with any valid opcodes, decodes to exactly its rows. */
  lemma EncodedImageDecodes(
      layout: Layout, height: nat, linesize: nat, rows: seq<seq<Op>>, width: nat, trailer: seq<Byte>)
    requires layout.Sound() && height > 0 && |rows| == layout.Planes() * height
    requires Image(rows, width) && width * layout.PixelSize() <= linesize
    ensures DecodeFrame(layout, height, linesize, EncodePacket(rows, width) + trailer)
         == FrameDone(Offset(rows, width, |rows|), LinesUpTo(rows, height, |rows|))
  {
    RoomIff(linesize, layout.PixelSize(), width);
    var buf, offsets := EncodePacket(rows, width) + trailer, Offsets(rows, width);
    PacketHoldsRows(rows, width, trailer, buf, offsets);
    assert LinesUpTo(rows, height, 0) == [];
    RowNumber(height, layout.Planes(), 0);
    FirstRowBehindTable(rows, width);
    DecodeEncodedPlanes(rows, width, offsets, layout.Planes(), height, Room(layout, linesize), buf, 0, 0);
    FrameUnfolds(layout, height, linesize, buf, offsets[0]);
  }

  lemma FirstRowBehindTable(rows: seq<seq<Op>>, width: nat)
    requires Image(rows, width)
    ensures Offset(rows, width, 0) == 2 * |rows|
  {
  }

  lemma FrameUnfolds(layout: Layout, height: nat, linesize: nat, buf: seq<Byte>, dp: nat)
    requires layout.Planes() > 0 && dp == layout.Planes() * (2 * height)
    ensures DecodeFrame(layout, height, linesize, buf)
         == DecodePlanes(layout.Planes(), height, Room(layout, linesize), buf, 0, dp, [])
  {
  }

  lemma LineOfImage(rows: seq<seq<Op>>, width: nat, height: nat, planes: nat, p: nat, r: nat)
    requires Image(rows, width) && height > 0 && |rows| == planes * height && p < planes && r < height
    ensures 0 <= p * height + r < |rows| && |Expand(rows[p * height + r])| == width
    ensures LinesUpTo(rows, height, |rows|)[p * height + r] == Line(p, r, Expand(rows[p * height + r]))
  {
    RowNumber(height, p, r);
    LessTimes(p, planes, height);
  }

  /** A pixel of a line that the frame shows. */
  lemma PixelOfLine(
      layout: Layout, height: nat, linesize: nat, before: seq<Byte>, after: seq<Byte>, lines: seq<Line>,
      n: nat, x: nat)
    requires ShowsOrderly(layout, height, linesize, before, after, lines)
    requires n < |lines| && x < |lines[n].pixels|
    ensures lines[n].p < layout.Planes()
    ensures var at := Place(layout, linesize, lines[n].p, lines[n].r) + x * layout.PixelSize();
      0 <= at < |after| && after[at] == lines[n].pixels[x]
  {
  }

  lemma PixelOfImage(
      layout: Layout, height: nat, linesize: nat, rows: seq<seq<Op>>, width: nat, before: seq<Byte>, after: seq<Byte>,
      lines: seq<Line>, p: nat, r: nat, x: nat)
    requires height > 0 && |rows| == layout.Planes() * height && Image(rows, width)
    requires lines == LinesUpTo(rows, height, |rows|)
    requires ShowsOrderly(layout, height, linesize, before, after, lines)
    requires p < layout.Planes() && r < height && x < width
    ensures 0 <= p * height + r < |rows| && x < |Expand(rows[p * height + r])|
    ensures var at := r * linesize + layout.planemap[p] + x * layout.PixelSize();
      0 <= at < |after| && after[at] == Expand(rows[p * height + r])[x]
  {
    LineOfImage(rows, width, height, layout.Planes(), p, r);
    PixelOfLine(layout, height, linesize, before, after, lines, p * height + r, x);
  }

  /** Once decode_frame has run on an encoded image, every component of every pixel stands in the frame. */
  lemma {:induction false} PixelsAreRebuilt(
      layout: Layout, height: nat, linesize: nat, rows: seq<seq<Op>>, width: nat, trailer: seq<Byte>,
      before: seq<Byte>, after: seq<Byte>, p: nat, r: nat, x: nat)
    requires layout.Sound() && height > 0 && |rows| == layout.Planes() * height
    requires Image(rows, width) && width * layout.PixelSize() <= linesize
    requires ShowsOrderly(layout, height, linesize, before, after,
                          DecodeFrame(layout, height, linesize, EncodePacket(rows, width) + trailer).lines)
    requires p < layout.Planes() && r < height && x < width
    ensures 0 <= p * height + r < |rows| && x < |Expand(rows[p * height + r])|
    ensures var at := r * linesize + layout.planemap[p] + x * layout.PixelSize();
      0 <= at < |after| && after[at] == Expand(rows[p * height + r])[x]
  {
    EncodedImageDecodes(layout, height, linesize, rows, width, trailer);
    PixelOfImage(
      layout, height, linesize, rows, width, before, after, LinesUpTo(rows, height, |rows|), p, r, x);
  }
}
