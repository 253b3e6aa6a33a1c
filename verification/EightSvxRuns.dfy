/** What all calls of the 8SVX decoder give together. */
module EightSvxRuns {
  import opened Wrappers
  import opened EightSvx

  /** The frames given after a call. */
  function Count(frames: nat, outcome: Outcome): nat { if outcome.Frame? then frames + 1 else frames }

  function RunLoop(
      s: State, channels: nat, table: seq<int>, frames: nat, packets: seq<seq<Byte>>): (outcomes: seq<Outcome>)
    requires s.Valid(channels) && IsTable(table)
    ensures |outcomes| == |packets|
    decreases |packets|
  {
    if packets == [] then []
    else
      var (s', outcome) := Call(s, channels, table, frames, packets[0]);
      [outcome] + RunLoop(s', channels, table, Count(frames, outcome), packets[1..])
  }

  /** The outcomes of one call for each packet, `frames` frames having been given before. */
  function Run(s: State, channels: nat, table: seq<int>, frames: nat, packets: seq<seq<Byte>>): (outcomes: seq<Outcome>)
    requires s.Valid(channels) && IsTable(table)
    ensures |outcomes| == |packets|
  {
    RunLoop(s, channels, table, frames, packets)
  }

  lemma RunUnfolds(s: State, channels: nat, table: seq<int>, frames: nat, packets: seq<seq<Byte>>)
    requires s.Valid(channels) && IsTable(table) && packets != []
    ensures var (s', outcome) := Call(s, channels, table, frames, packets[0]);
      Run(s, channels, table, frames, packets)
        == [outcome] + Run(s', channels, table, Count(frames, outcome), packets[1..])
  {
  }

  /** What a call gives a channel. */
  function Given(outcome: Outcome, ch: nat): seq<Byte> {
    if outcome.Frame? && ch < |outcome.samples| then outcome.samples[ch] else []
  }

  /** The samples that calls gave a channel, one call after the other. */
  function Samples(outcomes: seq<Outcome>, ch: nat): seq<Byte> {
    if outcomes == [] then [] else Given(outcomes[0], ch) + Samples(outcomes[1..], ch)
  }

  function Frames(outcomes: seq<Outcome>): nat {
    if outcomes == [] then 0 else Count(Frames(outcomes[1..]), outcomes[0])
  }

  /** The bytes that calls which gave a frame said they consumed. */
  function Consumed(outcomes: seq<Outcome>): nat {
    if outcomes == [] then 0 else (if outcomes[0].Frame? then outcomes[0].consumed else 0) + Consumed(outcomes[1..])
  }

  lemma Totals(first: Outcome, rest: seq<Outcome>, ch: nat)
    ensures Samples([first] + rest, ch) == Given(first, ch) + Samples(rest, ch)
    ensures Frames([first] + rest) == Count(Frames(rest), first)
    ensures Consumed([first] + rest) == (if first.Frame? then first.consumed else 0) + Consumed(rest)
  {
    assert ([first] + rest)[1..] == rest;
  }

  /** How far n calls get in a channel. */
  function Reach(s: State, n: nat): nat
    requires s.data != []
  {
    Min(|s.data[0]|, s.idx + MAX_FRAME_SIZE * n)
  }

  function CeilDiv(a: nat): nat { (a + MAX_FRAME_SIZE - 1) / MAX_FRAME_SIZE }

  /** The outcomes give the next n bytes of every channel, decoded in one go, in as many frames as that takes. */
  ghost predicate Gives(s: State, channels: nat, table: seq<int>, frames: nat, outcomes: seq<Outcome>, n: nat) {
    && s.Valid(channels) && s.data != [] && IsTable(table) && s.idx + n <= |s.data[0]|
    && GivesSamples(s, channels, table, outcomes, n)
    && Frames(outcomes) == CeilDiv(n)
    && Consumed(outcomes) == if n == 0 then 0 else FrameBytes(frames, n, channels)
  }

  ghost predicate GivesSamples(s: State, channels: nat, table: seq<int>, outcomes: seq<Outcome>, n: nat)
    requires s.Valid(channels) && s.data != [] && IsTable(table) && s.idx + n <= |s.data[0]|
  {
    forall ch :: 0 <= ch < channels ==> GivesChannel(s, channels, table, outcomes, ch, n)
  }

  ghost predicate GivesChannel(s: State, channels: nat, table: seq<int>, outcomes: seq<Outcome>, ch: int, n: nat)
    requires s.Valid(channels) && s.data != [] && IsTable(table) && s.idx + n <= |s.data[0]| && 0 <= ch < channels
  {
    Samples(outcomes, ch) == Piece(s, ch, n, table).samples
  }

  lemma PiecesJoin(data: seq<Byte>, from: nat, a: nat, b: nat, total: nat, acc: Byte, table: seq<int>)
    requires IsTable(table) && total == a + b && from + total <= |data|
    ensures var first := PieceOf(data, from, a, acc, table);
      PieceOf(data, from, total, acc, table).samples
        == first.samples + PieceOf(data, from + a, b, first.state, table).samples
  {
    var m, n := from + a, from + total;
    assert data[from..n] == data[from..m] + data[m..n];
    DeltaInPieces(data[from..m], data[m..n], acc, table);
  }

  /** What a call that gives a frame does to a channel. */
  lemma FrameGiven(s: State, channels: nat, table: seq<int>, frames: nat, size: nat, ch: nat, a: nat)
    requires s.Valid(channels) && s.data != [] && IsTable(table) && FrameSize(s) == a > 0 && ch < channels
    ensures var (s', outcome) := Advance(s, channels, table, frames, size);
      && outcome.Frame? && outcome.consumed == FrameBytes(frames, a, channels)
      && s'.data == s.data && s'.idx == s.idx + a
      && Given(outcome, ch) == Piece(s, ch, a, table).samples && s'.acc[ch] == Piece(s, ch, a, table).state
  {
  }

  lemma {:induction false} PieceAfter(
      s: State, t: State, channels: nat, table: seq<int>, ch: nat, a: nat, b: nat, total: nat)
    requires s.Valid(channels) && t.Valid(channels) && s.data != [] && IsTable(table) && ch < channels
    requires total == a + b && s.idx + total <= |s.data[0]|
    requires t.data == s.data && t.idx == s.idx + a && t.acc[ch] == Piece(s, ch, a, table).state
    ensures Piece(s, ch, total, table).samples == Piece(s, ch, a, table).samples + Piece(t, ch, b, table).samples
  {
    PiecesJoin(s.data[ch], s.idx, a, b, total, s.acc[ch], table);
  }

  /** A state and outcome after a call that gave a frame of a bytes of each channel. */
  ghost predicate GaveFrame(
      s: State, channels: nat, table: seq<int>, frames: nat, t: State, outcome: Outcome, a: nat)
    requires s.Valid(channels) && s.data != [] && IsTable(table) && s.idx + a <= |s.data[0]|
  {
    && t.Valid(channels) && t.data == s.data && t.idx == s.idx + a
    && outcome.Frame? && outcome.consumed == FrameBytes(frames, a, channels)
    && forall ch :: 0 <= ch < channels ==>
         Given(outcome, ch) == Piece(s, ch, a, table).samples && t.acc[ch] == Piece(s, ch, a, table).state
  }

  lemma CallGaveFrame(s: State, channels: nat, table: seq<int>, frames: nat, size: nat, a: nat)
    requires s.Valid(channels) && s.data != [] && IsTable(table) && FrameSize(s) == a > 0
    ensures var (t, outcome) := Advance(s, channels, table, frames, size);
      GaveFrame(s, channels, table, frames, t, outcome, a)
  {
    forall ch | 0 <= ch < channels
      ensures var (t, outcome) := Advance(s, channels, table, frames, size);
        Given(outcome, ch) == Piece(s, ch, a, table).samples && t.acc[ch] == Piece(s, ch, a, table).state
    {
      FrameGiven(s, channels, table, frames, size, ch, a);
    }
    FrameGiven(s, channels, table, frames, size, 0, a);
  }

  lemma SamplesJoin(
      s: State, channels: nat, table: seq<int>, t: State, outcome: Outcome, rest: seq<Outcome>,
      ch: nat, a: nat, b: nat, total: nat)
    requires s.Valid(channels) && t.Valid(channels) && s.data != [] && IsTable(table) && ch < channels
    requires total == a + b && s.idx + total <= |s.data[0]| && t.data == s.data && t.idx == s.idx + a
    requires Given(outcome, ch) == Piece(s, ch, a, table).samples && t.acc[ch] == Piece(s, ch, a, table).state
    requires GivesChannel(t, channels, table, rest, ch, b)
    ensures GivesChannel(s, channels, table, [outcome] + rest, ch, total)
  {
    Totals(outcome, rest, ch);
    PieceAfter(s, t, channels, table, ch, a, b, total);
  }

  lemma AllSamplesJoin(
      s: State, channels: nat, table: seq<int>, frames: nat, t: State, outcome: Outcome, rest: seq<Outcome>,
      a: nat, b: nat, total: nat)
    requires s.Valid(channels) && s.data != [] && IsTable(table) && total == a + b && s.idx + total <= |s.data[0]|
    requires GaveFrame(s, channels, table, frames, t, outcome, a) && GivesSamples(t, channels, table, rest, b)
    ensures GivesSamples(s, channels, table, [outcome] + rest, total)
  {
    forall ch | 0 <= ch < channels
      ensures GivesChannel(s, channels, table, [outcome] + rest, ch, total)
    {
      SamplesJoin(s, channels, table, t, outcome, rest, ch, a, b, total);
    }
  }

  lemma FramesAdd(a: nat, b: nat)
    requires 0 < a <= MAX_FRAME_SIZE && (b == 0 || a == MAX_FRAME_SIZE)
    ensures CeilDiv(a + b) == 1 + CeilDiv(b)
  {
  }

  lemma BytesAdd(frames: nat, a: nat, b: nat, channels: nat)
    ensures FrameBytes(frames, a + b, channels)
      == FrameBytes(frames, a, channels) + (if b == 0 then 0 else FrameBytes(frames + 1, b, channels))
  {
    var h := if frames == 0 then 2 else 0;
    assert (h + (a + b)) * channels == (h + a) * channels + b * channels;
  }

  lemma CountsJoin(frames: nat, channels: nat, outcome: Outcome, rest: seq<Outcome>, a: nat, b: nat, total: nat)
    requires 0 < a <= MAX_FRAME_SIZE && (b == 0 || a == MAX_FRAME_SIZE) && total == a + b
    requires outcome.Frame? && outcome.consumed == FrameBytes(frames, a, channels)
    requires Frames(rest) == CeilDiv(b)
    requires Consumed(rest) == if b == 0 then 0 else FrameBytes(frames + 1, b, channels)
    ensures Frames([outcome] + rest) == CeilDiv(total)
    ensures Consumed([outcome] + rest) == FrameBytes(frames, total, channels)
  {
    Totals(outcome, rest, 0);
    FramesAdd(a, b);
    BytesAdd(frames, a, b, channels);
  }

  lemma FrameThenRest(
      s: State, channels: nat, table: seq<int>, frames: nat, t: State, outcome: Outcome, rest: seq<Outcome>,
      a: nat, b: nat, total: nat)
    requires s.Valid(channels) && s.data != [] && IsTable(table) && s.idx + a <= |s.data[0]| && total == a + b
    requires 0 < a <= MAX_FRAME_SIZE && GaveFrame(s, channels, table, frames, t, outcome, a)
    requires Gives(t, channels, table, frames + 1, rest, b) && (b == 0 || a == MAX_FRAME_SIZE)
    ensures Gives(s, channels, table, frames, [outcome] + rest, total)
  {
    AllSamplesJoin(s, channels, table, frames, t, outcome, rest, a, b, total);
    CountsJoin(frames, channels, outcome, rest, a, b, total);
  }

  lemma ReachNext(s: State, n: nat)
    requires s.data != [] && s.idx <= |s.data[0]| && n > 0
    ensures Reach(s, n) >= s.idx && Reach(s, n) <= |s.data[0]|
    ensures FrameSize(s) == 0 ==> Reach(s, n) == s.idx == Reach(s, n - 1)
    ensures var s' := s.(idx := s.idx + FrameSize(s)); var b := Reach(s', n - 1) - s'.idx;
      b >= 0 && Reach(s, n) - s.idx == FrameSize(s) + b && (b == 0 || FrameSize(s) == MAX_FRAME_SIZE)
  {
  }

  lemma ReachDepends(s: State, t: State, n: nat)
    requires s.data != [] && s.data == t.data && s.idx == t.idx
    ensures Reach(s, n) == Reach(t, n)
  {
  }

  /** A call that gives a frame, then calls that give the rest. */
  lemma GivingCallThenRest(
      s: State, channels: nat, table: seq<int>, frames: nat, t: State, outcome: Outcome, rest: seq<Outcome>,
      n: nat, b: nat, total: nat)
    requires s.Valid(channels) && s.data != [] && IsTable(table) && n > 0 && FrameSize(s) > 0
    requires GaveFrame(s, channels, table, frames, t, outcome, FrameSize(s)) && total == Reach(s, n) - s.idx
    requires b == Reach(t, n - 1) - t.idx && Gives(t, channels, table, frames + 1, rest, b)
    ensures Gives(s, channels, table, frames, [outcome] + rest, total)
  {
    ReachNext(s, n);
    ReachDepends(t, s.(idx := s.idx + FrameSize(s)), n - 1);
    FrameThenRest(s, channels, table, frames, t, outcome, rest, FrameSize(s), b, total);
  }

  lemma CallThenRest(
      s: State, channels: nat, table: seq<int>, frames: nat, size: nat, t: State, outcome: Outcome,
      rest: seq<Outcome>, all: seq<Outcome>, n: nat, b: nat, total: nat)
    requires s.Valid(channels) && s.data != [] && IsTable(table) && n > 0
    requires (t, outcome) == Advance(s, channels, table, frames, size) && total == Reach(s, n) - s.idx
    requires b == Reach(t, n - 1) - t.idx && Gives(t, channels, table, Count(frames, outcome), rest, b)
    requires all == [outcome] + rest
    ensures Gives(s, channels, table, frames, all, total)
  {
    if FrameSize(s) > 0 {
      CallGaveFrame(s, channels, table, frames, size, FrameSize(s));
      GivingCallThenRest(s, channels, table, frames, t, outcome, rest, n, b, total);
    } else {
      ReachNext(s, n);
      ReachDepends(t, s, n - 1);
      NoneThenRest(s, channels, table, frames, outcome, rest);
    }
  }

  lemma ReachBounds(s: State, n: nat)
    requires s.data != [] && s.idx <= |s.data[0]|
    ensures s.idx <= Reach(s, n) <= |s.data[0]|
  {
  }

  /** A frame's worth of data more with every call, until the data are used up. */
  lemma {:induction false} RunGives(
      s: State, channels: nat, table: seq<int>, frames: nat, packets: seq<seq<Byte>>, total: nat)
    requires s.Valid(channels) && s.data != [] && IsTable(table) && total == Reach(s, |packets|) - s.idx
    ensures Gives(s, channels, table, frames, Run(s, channels, table, frames, packets), total)
    decreases |packets|
  {
    if packets == [] {
      NothingGiven(s, channels, table, frames);
    } else {
      RunUnfolds(s, channels, table, frames, packets);
      var (s', outcome) := Advance(s, channels, table, frames, |packets[0]|);
      var rest := Run(s', channels, table, Count(frames, outcome), packets[1..]);
      ReachBounds(s', |packets| - 1);
      var b := Reach(s', |packets| - 1) - s'.idx;
      RunGives(s', channels, table, Count(frames, outcome), packets[1..], b);
      var all := Run(s, channels, table, frames, packets);
      CallThenRest(s, channels, table, frames, |packets[0]|, s', outcome, rest, all, |packets|, b, total);
    }
  }

  lemma NothingGiven(s: State, channels: nat, table: seq<int>, frames: nat)
    requires s.Valid(channels) && s.data != [] && IsTable(table)
    ensures Gives(s, channels, table, frames, [], 0)
  {
    forall ch | 0 <= ch < channels
      ensures Piece(s, ch, 0, table).samples == []
    {
      assert s.data[ch][s.idx..s.idx + 0] == [];
    }
  }

  lemma NoneThenRest(s: State, channels: nat, table: seq<int>, frames: nat, outcome: Outcome, rest: seq<Outcome>)
    requires Gives(s, channels, table, frames, rest, 0) && !outcome.Frame?
    ensures Gives(s, channels, table, frames, [outcome] + rest, 0)
  {
    forall ch | 0 <= ch < channels
      ensures GivesChannel(s, channels, table, [outcome] + rest, ch, 0)
    {
      Totals(outcome, rest, ch);
      assert GivesChannel(s, channels, table, rest, ch, 0);
    }
    Totals(outcome, rest, 0);
  }

  // --------------------------------------------------------------------------------------------- from the start

  const START := State([], 0, [0, 0])

  /** The data of a channel in the first packet. */
  function ChannelData(packet: seq<Byte>, channels: nat, ch: nat): seq<Byte>
    requires 1 <= channels <= 2 && ch < channels && |packet| >= 3 * channels
  {
    var chanSize := |packet| / channels - 2;
    var from := ch * (chanSize + 2) + 2;
    packet[from..from + chanSize]
  }

  /** The value a channel starts from. */
  function Seed(packet: seq<Byte>, channels: nat, ch: nat): Byte
    requires 1 <= channels <= 2 && ch < channels && |packet| >= 3 * channels
  {
    Plus128(packet[ch * (|packet| / channels) + 1])
  }

  lemma SplitIs(packet: seq<Byte>, channels: nat, ch: nat)
    requires 1 <= channels <= 2 && ch < channels && |packet| >= 3 * channels
    ensures Split(packet, channels).data[ch] == ChannelData(packet, channels, ch)
    ensures Split(packet, channels).acc[ch] == Seed(packet, channels, ch)
  {
    var chanSize := |packet| / channels - 2;
    assert ch == 0 ==> ch * (chanSize + 2) == 0;
    assert ch == 1 ==> ch * (chanSize + 2) == chanSize + 2;
  }

  /** The first call takes the packet apart and goes on as every later call does. */
  lemma RunFromStart(channels: nat, table: seq<int>, packets: seq<seq<Byte>>)
    requires 1 <= channels <= 2 && IsTable(table) && packets != [] && |packets[0]| >= 3 * channels
    ensures Run(START, channels, table, 0, packets) == Run(Split(packets[0], channels), channels, table, 0, packets)
  {
    RunUnfolds(START, channels, table, 0, packets);
    RunUnfolds(Split(packets[0], channels), channels, table, 0, packets);
  }

  lemma WholePiece(s: State, channels: nat, table: seq<int>, ch: nat)
    requires s.Valid(channels) && s.data != [] && s.idx == 0 && IsTable(table) && ch < channels
    ensures Piece(s, ch, |s.data[0]|, table) == Delta(s.data[ch], s.acc[ch], table)
  {
    assert s.data[ch][0..0 + |s.data[0]|] == s.data[ch];
  }

  lemma AllBytes(size: nat, channels: nat)
    requires 1 <= channels <= 2 && size >= 3 * channels
    ensures FrameBytes(0, size / channels - 2, channels) == channels * (size / channels)
  {
  }

  lemma {:induction false} AllIsGiven(s: State, channels: nat, table: seq<int>, packets: seq<seq<Byte>>, ch: nat)
    requires s.Valid(channels) && s.data != [] && s.idx == 0 && IsTable(table) && ch < channels
    requires s.data[0] != [] && MAX_FRAME_SIZE * |packets| >= |s.data[0]|
    ensures var outcomes := Run(s, channels, table, 0, packets);
      && Samples(outcomes, ch) == Delta(s.data[ch], s.acc[ch], table).samples
      && Frames(outcomes) == CeilDiv(|s.data[0]|)
      && Consumed(outcomes) == FrameBytes(0, |s.data[0]|, channels)
  {
    var outcomes, n := Run(s, channels, table, 0, packets), |s.data[0]|;
    RunGives(s, channels, table, 0, packets, n);
    assert GivesChannel(s, channels, table, outcomes, ch, n);
    WholePiece(s, channels, table, ch);
  }

  /** Whatever the later packets hold: together the calls give one delta decode of each channel, in as many frames as
      that takes, and say they consumed the first packet but for the odd byte of a two-channel one. */
  lemma {:induction false} CallsGiveTheWhole(channels: nat, table: seq<int>, packets: seq<seq<Byte>>, ch: nat)
    requires 1 <= channels <= 2 && IsTable(table) && ch < channels
    requires packets != [] && |packets[0]| >= 3 * channels
    requires MAX_FRAME_SIZE * |packets| >= |packets[0]| / channels - 2
    ensures var outcomes := Run(START, channels, table, 0, packets);
      && Samples(outcomes, ch)
         == Delta(ChannelData(packets[0], channels, ch), Seed(packets[0], channels, ch), table).samples
      && Frames(outcomes) == CeilDiv(|packets[0]| / channels - 2)
      && Consumed(outcomes) == channels * (|packets[0]| / channels)
  {
    RunFromStart(channels, table, packets);
    AllIsGiven(Split(packets[0], channels), channels, table, packets, ch);
    SplitIs(packets[0], channels, ch);
    AllBytes(|packets[0]|, channels);
  }

  /** A packet that is too small is turned down, and the next one is a first packet again. */
  lemma SmallPacketIsTurnedDown(channels: nat, table: seq<int>, packets: seq<seq<Byte>>)
    requires 1 <= channels <= 2 && IsTable(table) && packets != [] && |packets[0]| < 3 * channels
    ensures Run(START, channels, table, 0, packets) == [InvalidData] + Run(START, channels, table, 0, packets[1..])
  {
    RunUnfolds(START, channels, table, 0, packets);
  }

  // ------------------------------------------------------------------------------------------------- the driver

  /** The packets that calls see of one packet: after each, what it consumed is cut off, until nothing is left. */
  function Remains(s: State, channels: nat, table: seq<int>, frames: nat, packet: seq<Byte>): (packets: seq<seq<Byte>>)
    requires s.Valid(channels) && s.data != [] && IsTable(table)
    ensures packets != [] && packets[0] == packet
    decreases |packet|
  {
    var (s', outcome) := Advance(s, channels, table, frames, |packet|);
    if 0 < outcome.consumed < |packet| then
      [packet] + Remains(s', channels, table, Count(frames, outcome), packet[outcome.consumed..])
    else [packet]
  }

  lemma RestIsEnough(size: nat, channels: nat, frames: nat, left: nat, a: nat)
    requires 1 <= channels <= 2 && 0 < a <= left && size >= channels * left + (if frames == 0 then 2 * channels else 0)
    ensures 0 < FrameBytes(frames, a, channels) <= size
    ensures size - FrameBytes(frames, a, channels) >= channels * (left - a)
    ensures FrameBytes(frames, a, channels) == size ==> left == a
  {
    if channels == 1 {
      assert channels * left == left && channels * (left - a) == left - a;
    } else {
      assert channels * left == 2 * left && channels * (left - a) == 2 * (left - a);
    }
  }

  /** What is left of a packet is enough for the channels' data that are left. */
  lemma {:induction false} RemainsReachTheEnd(s: State, channels: nat, table: seq<int>, frames: nat, packet: seq<Byte>)
    requires s.Valid(channels) && s.data != [] && IsTable(table)
    requires |packet| >= channels * (|s.data[0]| - s.idx) + (if frames == 0 then 2 * channels else 0)
    ensures Reach(s, |Remains(s, channels, table, frames, packet)|) == |s.data[0]|
    decreases |packet|
  {
    var a := FrameSize(s);
    if a > 0 {
      FrameGiven(s, channels, table, frames, |packet|, 0, a);
      RestIsEnough(|packet|, channels, frames, |s.data[0]| - s.idx, a);
      var (s', outcome) := Advance(s, channels, table, frames, |packet|);
      if outcome.consumed < |packet| {
        RemainsReachTheEnd(s', channels, table, frames + 1, packet[outcome.consumed..]);
      }
    }
  }

  /** One packet, fed to the decoder until it is used up, gives all its data. */
  lemma OnePacketGivesTheWhole(channels: nat, table: seq<int>, packet: seq<Byte>)
    requires 1 <= channels <= 2 && IsTable(table) && |packet| >= 3 * channels
    ensures var packets := Remains(Split(packet, channels), channels, table, 0, packet);
      packets[0] == packet && MAX_FRAME_SIZE * |packets| >= |packet| / channels - 2
  {
    var s := Split(packet, channels);
    assert channels * (|packet| / channels) <= |packet|;
    RemainsReachTheEnd(s, channels, table, 0, packet);
  }
}
