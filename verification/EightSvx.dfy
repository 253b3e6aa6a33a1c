/** The 8SVX audio decoder of libavcodec/8svx.c: delta coding, kept across calls that each give a piece. */
module EightSvx {
  import opened Wrappers

  const FIBONACCI: seq<int> := [-34, -21, -13, -8, -5, -3, -2, -1, 0, 1, 2, 3, 5, 8, 13, 21]
  const EXPONENTIAL: seq<int> := [-128, -64, -32, -16, -8, -4, -2, -1, 0, 1, 2, 4, 8, 16, 32, 64]

  const MAX_FRAME_SIZE := 2048

  predicate IsTable(table: seq<int>) { table in {FIBONACCI, EXPONENTIAL} }

  /** Steps of the Fibonacci table add up, upwards and downwards from zero. */
  lemma FibonacciAddsUp(i: nat)
    requires i < 16
    ensures 10 < i ==> FIBONACCI[i] == FIBONACCI[i - 1] + FIBONACCI[i - 2]
    ensures i < 6 ==> FIBONACCI[i] == FIBONACCI[i + 1] + FIBONACCI[i + 2]
    ensures FIBONACCI[6..11] == [-2, -1, 0, 1, 2]
  {
  }

  /** Steps of the exponential table double, upwards and downwards from zero. */
  lemma ExponentialDoubles(i: nat)
    requires i < 16
    ensures 9 < i ==> EXPONENTIAL[i] == 2 * EXPONENTIAL[i - 1]
    ensures i < 7 ==> EXPONENTIAL[i] == 2 * EXPONENTIAL[i + 1]
    ensures EXPONENTIAL[7..10] == [-1, 0, 1]
  {
  }

  function Clip(x: int): Byte { if x < 0 then 0 else if x > 255 then 255 else x as Byte }

  /** A value out of range becomes the nearest sample. */
  lemma ClipIsNearest(x: int, y: Byte)
    ensures (if x <= y as int then Clip(x) <= y else Clip(x) >= y)
    ensures 0 <= x <= 255 ==> Clip(x) as int == x
  {
  }

  // ----------------------------------------------------------------------------------------------- delta coding

  /** The samples decoded and the value to go on from. */
  datatype Decoded = Decoded(samples: seq<Byte>, state: Byte)

  function Low(val: Byte, d: Byte, table: seq<int>): Byte
    requires IsTable(table)
  {
    Clip(val as int + table[d as int % 16])
  }

  function High(val: Byte, d: Byte, table: seq<int>): Byte
    requires IsTable(table)
  {
    Clip(val as int + table[d as int / 16])
  }

  function DeltaLoop(src: seq<Byte>, val: Byte, table: seq<int>): (r: Decoded)
    requires IsTable(table)
    ensures |r.samples| == 2 * |src|
  {
    if src == [] then Decoded([], val)
    else
      var low := Low(val, src[0], table);
      var high := High(low, src[0], table);
      var rest := DeltaLoop(src[1..], high, table);
      Decoded([low, high] + rest.samples, rest.state)
  }

  /** Two samples for each byte of src; DeltaFollows says which. */
  function Delta(src: seq<Byte>, val: Byte, table: seq<int>): (r: Decoded)
    requires IsTable(table)
    ensures |r.samples| == 2 * |src|
  {
    DeltaLoop(src, val, table)
  }

  lemma DeltaUnfolds(src: seq<Byte>, val: Byte, table: seq<int>)
    requires IsTable(table) && src != []
    ensures var low := Low(val, src[0], table); var high := High(low, src[0], table);
      var rest := Delta(src[1..], high, table);
      Delta(src, val, table) == Decoded([low, high] + rest.samples, rest.state)
  {
  }

  lemma DeltaOfNone(val: Byte, table: seq<int>)
    requires IsTable(table)
    ensures Delta([], val, table) == Decoded([], val)
  {
  }

  /** Decoding in two pieces, the second from where the first ended, is decoding the whole. */
  lemma {:induction false} DeltaInPieces(a: seq<Byte>, b: seq<Byte>, val: Byte, table: seq<int>)
    requires IsTable(table)
    ensures var first := Delta(a, val, table); var second := Delta(b, first.state, table);
      Delta(a + b, val, table) == Decoded(first.samples + second.samples, second.state)
    decreases |a|
  {
    if a == [] {
      assert a + b == b;
      DeltaOfNone(val, table);
      assert [] + Delta(b, val, table).samples == Delta(b, val, table).samples;
    } else {
      var high := High(Low(val, a[0], table), a[0], table);
      assert (a + b)[1..] == a[1..] + b;
      DeltaUnfolds(a + b, val, table);
      DeltaUnfolds(a, val, table);
      DeltaInPieces(a[1..], b, high, table);
      JoinPieces([Low(val, a[0], table), high], Delta(a[1..], high, table).samples,
                 Delta(b, Delta(a[1..], high, table).state, table).samples);
    }
  }

  lemma JoinPieces(x: seq<Byte>, y: seq<Byte>, z: seq<Byte>)
    ensures x + (y + z) == x + y + z
  {
  }

  /** The nibble that sample i is coded with: low before high. */
  function Nibble(src: seq<Byte>, i: nat): nat
    requires i < 2 * |src|
  {
    if i % 2 == 0 then src[i / 2] as int % 16 else src[i / 2] as int / 16
  }

  /** Sample i is the one before it plus the step of its nibble, clipped to a byte. */
  ghost predicate Follows(src: seq<Byte>, val: Byte, table: seq<int>, samples: seq<Byte>, i: nat)
    requires IsTable(table) && i < 2 * |src| == |samples|
  {
    samples[i] == Clip((if i == 0 then val else samples[i - 1]) as int + table[Nibble(src, i)])
  }

  lemma FollowsBehind(
      src: seq<Byte>, val: Byte, table: seq<int>, samples: seq<Byte>, low: Byte, high: Byte, rest: seq<Byte>, i: nat)
    requires IsTable(table) && 2 <= i < 2 * |src| && |rest| == 2 * |src[1..]| && samples == [low, high] + rest
    requires Follows(src[1..], high, table, rest, i - 2)
    ensures Follows(src, val, table, samples, i)
  {
    assert (i - 2) / 2 == i / 2 - 1 && (i - 2) % 2 == i % 2;
  }

  /** Every sample follows the one before it. */
  lemma {:induction false} DeltaFollows(src: seq<Byte>, val: Byte, table: seq<int>, i: nat)
    requires IsTable(table) && i < 2 * |src|
    ensures Follows(src, val, table, Delta(src, val, table).samples, i)
    decreases |src|
  {
    DeltaUnfolds(src, val, table);
    if i >= 2 {
      var low := Low(val, src[0], table);
      var high := High(low, src[0], table);
      DeltaFollows(src[1..], high, table, i - 2);
      FollowsBehind(src, val, table, Delta(src, val, table).samples,
                    low, high, Delta(src[1..], high, table).samples, i);
    }
  }

  /** What decoding goes on from is the last sample. */
  lemma {:induction false} StateIsLast(src: seq<Byte>, val: Byte, table: seq<int>)
    requires IsTable(table)
    ensures var r := Delta(src, val, table); r.state == if src == [] then val else r.samples[2 * |src| - 1]
    decreases |src|
  {
    if src != [] {
      DeltaUnfolds(src, val, table);
      StateIsLast(src[1..], High(Low(val, src[0], table), src[0], table), table);
    }
  }

  lemma OneByte(b: Byte, val: Byte, table: seq<int>)
    requires IsTable(table)
    ensures var low := Low(val, b, table); var high := High(low, b, table);
      Delta([b], val, table) == Decoded([low, high], high)
  {
    DeltaUnfolds([b], val, table);
    DeltaOfNone(High(Low(val, b, table), b, table), table);
  }

  lemma DeltaNext(src: seq<Byte>, from: nat, s: nat, state: Byte, table: seq<int>)
    requires IsTable(table) && from <= s < |src|
    ensures var done := Delta(src[from..s], state, table);
      var low := Low(done.state, src[s], table); var high := High(low, src[s], table);
      Delta(src[from..s + 1], state, table) == Decoded(done.samples + [low, high], high)
  {
    DeltaInPieces(src[from..s], [src[s]], state, table);
    OneByte(src[s], Delta(src[from..s], state, table).state, table);
    assert src[from..s + 1] == src[from..s] + [src[s]];
  }

  /** One byte more of what has been decoded. */
  lemma DecodesNext(
      src: seq<Byte>, from: nat, s: nat, state: Byte, table: seq<int>, samples: seq<Byte>, last: Byte,
      low: Byte, high: Byte)
    requires IsTable(table) && from <= s < |src| && Decoded(samples, last) == Delta(src[from..s], state, table)
    requires low == Low(last, src[s], table) && high == High(low, src[s], table)
    ensures Decoded(samples + [low, high], high) == Delta(src[from..s + 1], state, table)
  {
    DeltaNext(src, from, s, state, table);
  }

  /** delta_decode */
  method DeltaDecode(
      dst: array<Byte>, src: seq<Byte>, from: nat, srcSize: nat, state: Byte, table: seq<int>)
    returns (last: Byte)
    requires IsTable(table) && from + srcSize <= |src| && 2 * srcSize <= dst.Length
    modifies dst
    ensures Decoded(dst[..2 * srcSize], last) == Delta(src[from..from + srcSize], state, table)
    ensures dst[2 * srcSize..] == old(dst[2 * srcSize..])
  {
    last := state;
    var left, s, d := srcSize, from, 0;
    ghost var samples := [];
    DeltaOfNone(state, table);
    while left > 0
      invariant 0 <= left <= srcSize && s == from + srcSize - left && d == |samples| == 2 * (s - from)
      invariant dst[..][..d] == samples && Decoded(samples, last) == Delta(src[from..s], state, table)
      invariant dst[..][2 * srcSize..] == old(dst[..])[2 * srcSize..]
    {
      ghost var now := dst[..];
      left := left - 1;
      var b := src[s];
      var low := Low(last, b, table);
      DecodesNext(src, from, s, state, table, samples, last, low, High(low, b, table));
      last := High(low, b, table);
      dst[d] := low;
      dst[d + 1] := last;
      assert dst[..] == now[d := low][d + 1 := last];
      PairPut(now, d, samples, low, last, 2 * srcSize);
      samples := samples + [low, last];
      s, d := s + 1, d + 2;
    }
    assert dst[..2 * srcSize] == dst[..][..2 * srcSize] && dst[2 * srcSize..] == dst[..][2 * srcSize..];
  }

  lemma PairPut(now: seq<Byte>, d: nat, samples: seq<Byte>, low: Byte, high: Byte, end: nat)
    requires d + 2 <= end <= |now| && now[..d] == samples
    ensures now[d := low][d + 1 := high][..d + 2] == samples + [low, high]
    ensures now[d := low][d + 1 := high][end..] == now[end..]
  {
  }

  // -------------------------------------------------------------------------------------------------- the calls

  /** The decoder's context: the channels' data, none before the first packet; how much of them is decoded; and
      the values to go on from. */
  datatype State = State(data: seq<seq<Byte>>, idx: nat, acc: seq<Byte>)
  {
    ghost predicate Valid(channels: nat) {
      && 1 <= channels <= 2 && |acc| == 2
      && (data == [] ==> acc == [0, 0])
      && (data == [] || (|data| == channels && idx <= |data[0]| && (channels == 2 ==> |data[1]| == |data[0]|)))
    }
  }

  datatype Outcome = InvalidData | NoFrame(consumed: nat) | Frame(samples: seq<seq<Byte>>, consumed: nat)

  function Plus128(b: Byte): Byte { ((b as int + 128) % 256) as Byte }

  /** The value of a byte with a sign. */
  function Signed(b: Byte): int { if b < 128 then b as int else b as int - 256 }

  /** A signed seed becomes the sample 128 above it. */
  lemma SeedIsCentred(b: Byte)
    ensures Plus128(b) as int == Signed(b) + 128
  {
  }

  /** The first packet holds, for each channel, a header of two bytes and the data. */
  function Split(packet: seq<Byte>, channels: nat): (s: State)
    requires 1 <= channels <= 2 && |packet| >= 3 * channels
    ensures s.Valid(channels) && s.data != [] && s.idx == 0
    ensures |s.data[0]| == |packet| / channels - 2
  {
    var chanSize := |packet| / channels - 2;
    if channels == 1 then State([packet[2..2 + chanSize]], 0, [Plus128(packet[1]), 0])
    else
      State([packet[2..2 + chanSize], packet[4 + chanSize..4 + 2 * chanSize]], 0,
            [Plus128(packet[1]), Plus128(packet[3 + chanSize])])
  }

  /** The next piece of a channel. */
  function Piece(s: State, ch: nat, n: nat, table: seq<int>): Decoded
    requires IsTable(table) && ch < |s.data| && ch < |s.acc| && s.idx + n <= |s.data[ch]|
  {
    PieceOf(s.data[ch], s.idx, n, s.acc[ch], table)
  }

  function PieceOf(data: seq<Byte>, from: nat, n: nat, acc: Byte, table: seq<int>): Decoded
    requires IsTable(table) && from + n <= |data|
  {
    Delta(data[from..from + n], acc, table)
  }

  /** How many bytes of each channel the next frame takes. */
  function FrameSize(s: State): nat
    requires s.data != [] && s.idx <= |s.data[0]|
  {
    Min(MAX_FRAME_SIZE, |s.data[0]| - s.idx)
  }

  /** The bytes that a frame of n bytes a channel is said to have consumed; the first one adds the headers. */
  function FrameBytes(frames: nat, n: nat, channels: nat): nat { ((if frames == 0 then 2 else 0) + n) * channels }

  /** One call with the data there; frames counts the frames given before. */
  function Advance(s: State, channels: nat, table: seq<int>, frames: nat, size: nat): (r: (State, Outcome))
    requires s.Valid(channels) && s.data != [] && IsTable(table)
    ensures r.0.Valid(channels) && r.0.data == s.data
  {
    var n := FrameSize(s);
    if n == 0 then (s, NoFrame(size))
    else
      (State(s.data, s.idx + n,
             seq(2, ch requires 0 <= ch < 2 => if ch < channels then Piece(s, ch, n, table).state else s.acc[ch])),
       Frame(seq(channels, ch requires 0 <= ch < channels => Piece(s, ch, n, table).samples),
             FrameBytes(frames, n, channels)))
  }

  /** One call of the decoder. */
  function Call(s: State, channels: nat, table: seq<int>, frames: nat, packet: seq<Byte>): (r: (State, Outcome))
    requires s.Valid(channels) && IsTable(table)
    ensures r.0.Valid(channels)
  {
    if s.data == [] && |packet| < 3 * channels then (s, InvalidData)
    else Advance(if s.data == [] then Split(packet, channels) else s, channels, table, frames, |packet|)
  }

  class EightSvxContext {
    const table: seq<int>
    var fibAcc: array<Byte>
    var data: seq<seq<Byte>>
    var dataSize: nat
    var dataIdx: nat

    ghost predicate Valid(channels: nat)
      reads this, fibAcc
    {
      IsTable(table) && Abstract().Valid(channels) && (data != [] ==> dataSize == |data[0]|)
    }

    ghost function Abstract(): State
      reads this, fibAcc
    {
      State(data, dataIdx, fibAcc[..])
    }

    constructor (fibonacci: bool)
      ensures fresh(fibAcc) && Valid(1) && Valid(2) && Abstract().data == []
      ensures table == if fibonacci then FIBONACCI else EXPONENTIAL
    {
      table := if fibonacci then FIBONACCI else EXPONENTIAL;
      fibAcc := new Byte[2](_ => 0);
      data, dataSize, dataIdx := [], 0, 0;
    }

    /** The part that takes the first packet apart; false when the packet is too small. */
    method TakePacket(channels: nat, packet: seq<Byte>) returns (ok: bool)
      requires Valid(channels) && data == []
      modifies this, fibAcc
      ensures Valid(channels) && fibAcc == old(fibAcc) && ok == (|packet| >= 3 * channels)
      ensures Abstract() == if ok then Split(packet, channels) else old(Abstract())
    {
      var chanSize := |packet| / channels - 2;
      if |packet| < 3 * channels {
        return false;
      }
      fibAcc[0] := Plus128(packet[1]);
      if channels == 2 {
        fibAcc[1] := Plus128(packet[2 + chanSize + 1]);
      }
      dataIdx := 0;
      dataSize := chanSize;
      data := [packet[2..2 + chanSize]];
      if channels == 2 {
        data := data + [packet[4 + chanSize..4 + 2 * chanSize]];
      }
      return true;
    }

    /** The next piece of every channel. */
    method DecodeChannels(channels: nat, size: nat) returns (samples: seq<seq<Byte>>)
      requires Valid(channels) && data != [] && dataIdx + size <= dataSize
      modifies fibAcc
      ensures |samples| == channels
      ensures forall ch :: 0 <= ch < channels ==>
        Decoded(samples[ch], fibAcc[ch]) == Piece(old(Abstract()), ch, size, table)
      ensures forall ch :: channels <= ch < 2 ==> fibAcc[ch] == old(fibAcc[ch])
    {
      samples := [];
      var ch := 0;
      while ch < channels
        invariant 0 <= ch <= channels && |samples| == ch
        invariant forall c :: 0 <= c < ch ==> Decoded(samples[c], fibAcc[c]) == Piece(old(Abstract()), c, size, table)
        invariant forall c :: ch <= c < 2 ==> fibAcc[c] == old(fibAcc[c])
      {
        var plane := new Byte[2 * size];
        var last := DeltaDecode(plane, data[ch], dataIdx, size, fibAcc[ch], table);
        assert plane[..] == plane[..2 * size];
        fibAcc[ch] := last;
        samples := samples + [plane[..]];
        ch := ch + 1;
      }
    }

    /** What decoding a frame does once the data are there. */
    method DecodePiece(channels: nat, frames: nat, size: nat) returns (r: Outcome)
      requires Valid(channels) && data != []
      modifies this`dataIdx, fibAcc
      ensures Valid(channels)
      ensures (Abstract(), r) == Advance(old(Abstract()), channels, table, frames, size)
    {
      ghost var s := Abstract();
      var n := Min(MAX_FRAME_SIZE, dataSize - dataIdx);
      if n <= 0 {
        return NoFrame(size);
      }
      var samples := DecodeChannels(channels, n);
      dataIdx := dataIdx + n;
      ghost var (s', r') := Advance(s, channels, table, frames, size);
      assert fibAcc[..] == s'.acc && samples == r'.samples;
      return Frame(samples, FrameBytes(frames, n, channels));
    }

    /** eightsvx_decode_frame */
    method DecodeFrame(channels: nat, frames: nat, packet: seq<Byte>) returns (r: Outcome)
      requires Valid(channels)
      modifies this, fibAcc
      ensures Valid(channels) && fibAcc == old(fibAcc)
      ensures (Abstract(), r) == Call(old(Abstract()), channels, table, frames, packet)
    {
      if data == [] {
        var ok := TakePacket(channels, packet);
        if !ok {
          return InvalidData;
        }
      }
      r := DecodePiece(channels, frames, |packet|);
    }
  }
}
