/** The muxing queue of fftools/ffmpeg.c: write_packet and check_init_output_file for one output file. */
module MuxQueue {
  import opened Wrappers
  import opened Mathematics
  import opened TimestampRepair

  datatype Packet = Packet(id: int, stamp: Stamp)

  /** What does not change for an output stream.  `counted`: anything but an encoded video stream, whose
      frames do_video_out counts.  `unstamped`: vsync drop, or a negative audio sync method. */
  datatype StreamConfig = StreamConfig(
    counted: bool, unstamped: bool, rules: Rules, maxFrames: int, maxQueue: int, timeBase: Rational)

  /** `accepted` is the history of packets queued or delivered. */
  datatype StreamState = StreamState(
    frameNumber: int, initialized: bool, queue: seq<Packet>, capacity: int,
    muxTimeBase: Rational, lastMuxDts: Option<int>, accepted: seq<Packet>)

  datatype Muxed = Muxed(stream: nat, pkt: Packet)

  datatype FileState = FileState(
    configs: seq<StreamConfig>, exitOnError: bool,
    streams: seq<StreamState>, headerWritten: bool, muxed: seq<Muxed>, exited: bool)

  ghost predicate WellFormed(f: FileState) {
    && |f.configs| == |f.streams|
    && (forall i :: 0 <= i < |f.configs| ==> f.configs[i].timeBase.Positive())
    && (forall i :: 0 <= i < |f.streams| ==> f.streams[i].muxTimeBase.Positive())
  }

  // -------------------------------------------------------------------------------------------- specification

  function RescaleStamp(s: Stamp, from: Rational, to: Rational): Stamp
    requires from.Positive() && to.Positive()
  {
    Stamp(if s.pts.Some? then Some(RescaleQ(s.pts.value, from, to)) else None,
          if s.dts.Some? then Some(RescaleQ(s.dts.value, from, to)) else None)
  }

  /** A packet's timestamps as the repair sees them. */
  function Prepared(c: StreamConfig, muxTimeBase: Rational, p: Packet): Stamp
    requires c.timeBase.Positive() && muxTimeBase.Positive()
  {
    RescaleStamp(if c.unstamped then Stamp(None, None) else p.stamp, muxTimeBase, c.timeBase)
  }

  /** The packet goes to the muxer, or the program ends because its dts goes back. */
  function Deliver(f: FileState, i: nat, p: Packet): FileState
    requires WellFormed(f) && i < |f.streams|
  {
    var c, s := f.configs[i], f.streams[i];
    var stamp := Prepared(c, s.muxTimeBase, p);
    if f.exitOnError && c.rules.timestamped && GoesBack(c.rules, s.lastMuxDts, Uninvert(s.lastMuxDts, stamp)) then
      f.(exited := true)
    else
      var repaired := Repair(c.rules, s.lastMuxDts, stamp);
      f.(streams := f.streams[i := s.(lastMuxDts := repaired.dts)],
         muxed := f.muxed + [Muxed(i, Packet(p.id, repaired))])
  }

  /** The packet waits in the stream's queue, which grows to twice its fill, or the program ends. */
  function Enqueue(f: FileState, i: nat, p: Packet): FileState
    requires i < |f.streams| == |f.configs|
  {
    var c, s := f.configs[i], f.streams[i];
    var fill := |s.queue|;
    var newSize := Min(2 * fill, c.maxQueue);
    if s.capacity - fill == 0 && newSize <= fill then f.(exited := true)
    else
      var capacity := if s.capacity - fill == 0 then Max(s.capacity, newSize) else s.capacity;
      f.(streams := f.streams[i := s.(queue := s.queue + [p], capacity := capacity, accepted := s.accepted + [p])])
  }

  function Accept(f: FileState, i: nat, p: Packet): FileState
    requires i < |f.streams|
  {
    var s := f.streams[i];
    f.(streams := f.streams[i := s.(accepted := s.accepted + [p])])
  }

  predicate Refused(c: StreamConfig, s: StreamState) { c.counted && s.frameNumber >= c.maxFrames }

  function Counted(c: StreamConfig, s: StreamState): StreamState {
    if c.counted then s.(frameNumber := s.frameNumber + 1) else s
  }

  /** write_packet for a packet that comes from an encoder or a demuxer. */
  function Write(f: FileState, i: nat, p: Packet): FileState
    requires WellFormed(f) && i < |f.streams|
  {
    if Refused(f.configs[i], f.streams[i]) then f
    else
      var g := f.(streams := f.streams[i := Counted(f.configs[i], f.streams[i])]);
      if f.headerWritten then Deliver(Accept(g, i, p), i, p) else Enqueue(g, i, p)
  }

  /** Takes the oldest packet of stream i's queue and delivers it. */
  function Unqueue(f: FileState, i: nat): FileState
    requires WellFormed(f) && i < |f.streams| && f.streams[i].queue != []
  {
    var s := f.streams[i];
    Deliver(f.(streams := f.streams[i := s.(queue := s.queue[1..])]), i, s.queue[0])
  }

  function FlushStreamLoop(f: FileState, i: nat): (g: FileState)
    requires WellFormed(f) && i < |f.streams|
    ensures WellFormed(g) && |g.streams| == |f.streams|
    decreases |f.streams[i].queue|
  {
    if f.exited || f.streams[i].queue == [] then f else FlushStreamLoop(Unqueue(f, i), i)
  }

  /** Empties stream i's queue, unless the program ends meanwhile; FlushStreamUnfolds says how. */
  function FlushStream(f: FileState, i: nat): (g: FileState)
    requires WellFormed(f) && i < |f.streams|
    ensures WellFormed(g) && |g.streams| == |f.streams|
  {
    FlushStreamLoop(f, i)
  }

  lemma FlushStreamUnfolds(f: FileState, i: nat)
    requires WellFormed(f) && i < |f.streams|
    ensures FlushStream(f, i) == if f.exited || f.streams[i].queue == [] then f else FlushStream(Unqueue(f, i), i)
  {
  }

  /** A stream with nothing queued may take over the muxer's time base. */
  function ImproveTimeBase(f: FileState, i: nat): (g: FileState)
    requires WellFormed(f) && i < |f.streams|
    ensures WellFormed(g) && |g.streams| == |f.streams|
  {
    if f.streams[i].queue == [] then
      f.(streams := f.streams[i := f.streams[i].(muxTimeBase := f.configs[i].timeBase)])
    else f
  }

  function FlushLoop(f: FileState, i: nat): (g: FileState)
    requires WellFormed(f) && i <= |f.streams|
    ensures WellFormed(g) && |g.streams| == |f.streams|
    decreases |f.streams| - i
  {
    if f.exited || i == |f.streams| then f
    else FlushLoop(FlushStream(ImproveTimeBase(f, i), i), i + 1)
  }

  /** Flushes the streams from i on, one after the other; FlushFromUnfolds says how. */
  function FlushFrom(f: FileState, i: nat): (g: FileState)
    requires WellFormed(f) && i <= |f.streams|
    ensures WellFormed(g) && |g.streams| == |f.streams|
  {
    FlushLoop(f, i)
  }

  lemma FlushFromUnfolds(f: FileState, i: nat)
    requires WellFormed(f) && i <= |f.streams|
    ensures f.exited || i == |f.streams| ==> FlushFrom(f, i) == f
    ensures !f.exited && i < |f.streams| ==>
      FlushFrom(f, i) == FlushFrom(FlushStream(ImproveTimeBase(f, i), i), i + 1)
  {
  }

  predicate AllInitialized(f: FileState) {
    forall i :: 0 <= i < |f.streams| ==> f.streams[i].initialized
  }

  /** check_init_output_file; `headerOk` is the muxer's answer to the header. */
  function CheckInit(f: FileState, headerOk: bool): FileState
    requires WellFormed(f)
  {
    if !AllInitialized(f) then f
    else if !headerOk then f.(exited := true)
    else FlushFrom(f.(headerWritten := true), 0)
  }

  /** The end of init_output_stream. */
  function InitStream(f: FileState, i: nat, headerOk: bool): FileState
    requires WellFormed(f) && i < |f.streams|
  {
    CheckInit(f.(streams := f.streams[i := f.streams[i].(initialized := true)]), headerOk)
  }

  // --------------------------------------------------------------------------------------------- the program

  class OutputStream {
    const config: StreamConfig
    var frameNumber: int
    var initialized: bool
    var queue: seq<Packet>
    var capacity: int
    var muxTimeBase: Rational
    var lastMuxDts: Option<int>
    ghost var accepted: seq<Packet>

    ghost function View(): StreamState
      reads this
    {
      StreamState(frameNumber, initialized, queue, capacity, muxTimeBase, lastMuxDts, accepted)
    }

    constructor Init(config: StreamConfig, muxTimeBase: Rational)
      ensures View() == InitialStream(muxTimeBase) && this.config == config
    {
      this.config, this.muxTimeBase := config, muxTimeBase;
      frameNumber, initialized, queue, capacity, lastMuxDts, accepted := 0, false, [], 8, None, [];
    }
  }

  function InitialStream(muxTimeBase: Rational): StreamState {
    StreamState(0, false, [], 8, muxTimeBase, None, [])
  }

  lemma OnlyChanged(f: FileState, g: FileState, i: nat)
    requires i < |f.streams| == |g.streams| && |f.configs| == |g.configs|
    requires forall j :: 0 <= j < |f.streams| && j != i ==> g.streams[j] == f.streams[j]
    requires forall j :: 0 <= j < |f.configs| ==> g.configs[j] == f.configs[j]
    ensures g.streams == f.streams[i := g.streams[i]] && g.configs == f.configs
  {
  }

  class OutputFile {
    const streams: seq<OutputStream>
    const exitOnError: bool
    var headerWritten: bool
    var muxed: seq<Muxed>   // what av_interleaved_write_frame was given
    var exited: bool

    ghost function View(): (f: FileState)
      reads this, streams
      ensures |f.streams| == |f.configs| == |streams|
      ensures forall i :: 0 <= i < |streams| ==> f.streams[i] == streams[i].View() && f.configs[i] == streams[i].config
    {
      FileState(
        seq(|streams|, i requires 0 <= i < |streams| => streams[i].config), exitOnError,
        seq(|streams|, i requires 0 <= i < |streams| reads this, streams => streams[i].View()),
        headerWritten, muxed, exited)
    }

    ghost predicate Valid()
      reads this, streams
    {
      && (forall i, j :: 0 <= i < j < |streams| ==> streams[i] != streams[j])
      && WellFormed(View())
    }

    constructor Init(streams: seq<OutputStream>, exitOnError: bool)
      requires forall i, j :: 0 <= i < j < |streams| ==> streams[i] != streams[j]
      requires forall i :: 0 <= i < |streams| ==>
        streams[i].config.timeBase.Positive() && streams[i].muxTimeBase.Positive()
      ensures Valid() && this.streams == streams && !headerWritten && muxed == [] && !exited
    {
      this.streams, this.exitOnError := streams, exitOnError;
      headerWritten, muxed, exited := false, [], false;
    }

    /** The timestamp part of write_packet: the packet's final timestamps, or a fatal error. */
    method FinalStamp(ost: OutputStream, p: Packet) returns (stamp: Stamp, fatal: bool)
      requires ost.config.timeBase.Positive() && ost.muxTimeBase.Positive()
      ensures var c, prepared := ost.config, Prepared(ost.config, ost.muxTimeBase, p);
        && (fatal <==> (exitOnError && c.rules.timestamped &&
                        GoesBack(c.rules, ost.lastMuxDts, Uninvert(ost.lastMuxDts, prepared))))
        && (!fatal ==> stamp == Repair(c.rules, ost.lastMuxDts, prepared))
    {
      var rules := ost.config.rules;
      stamp := if ost.config.unstamped then Stamp(None, None) else p.stamp;
      stamp := RescaleStamp(stamp, ost.muxTimeBase, ost.config.timeBase);
      if rules.timestamped {
        if stamp.dts.Some? && stamp.pts.Some? && stamp.dts.value > stamp.pts.value {
          var guess := Guess(stamp.pts.value, stamp.dts.value, Numeric(ost.lastMuxDts) + 1);
          stamp := Stamp(Some(guess), Some(guess));
        }
        if rules.ordered && stamp.dts.Some? && ost.lastMuxDts.Some? {
          var max := ost.lastMuxDts.value + (if rules.strict then 1 else 0);
          if stamp.dts.value < max {
            if exitOnError {
              return stamp, true;
            }
            stamp := Raise(max, stamp);
          }
        }
      }
      return stamp, false;
    }

    /** The end of write_packet, with the muxer initialised. */
    method SendToMuxer(i: nat, p: Packet)
      requires Valid() && i < |streams|
      modifies this, streams[i]
      ensures Valid() && View() == Deliver(old(View()), i, p) && headerWritten == old(headerWritten)
    {
      ghost var before := View();
      var ost := streams[i];
      var stamp, fatal := FinalStamp(ost, p);
      if fatal {
        exited := true;
        OnlyChanged(before, View(), i);
        return;
      }
      ost.lastMuxDts := stamp.dts;
      muxed := muxed + [Muxed(i, Packet(p.id, stamp))];
      OnlyChanged(before, View(), i);
    }

    /** The packet waits until the muxer is initialised. */
    method QueuePacket(i: nat, p: Packet)
      requires Valid() && i < |streams|
      modifies this`exited, streams[i]
      ensures Valid() && View() == Enqueue(old(View()), i, p)
    {
      ghost var before := View();
      var ost := streams[i];
      if ost.capacity - |ost.queue| == 0 {
        var newSize := Min(2 * |ost.queue|, ost.config.maxQueue);
        if newSize <= |ost.queue| {
          exited := true;
          OnlyChanged(before, View(), i);
          return;
        }
        ost.capacity := Max(ost.capacity, newSize);
      }
      ost.queue := ost.queue + [p];
      ost.accepted := ost.accepted + [p];
      OnlyChanged(before, View(), i);
    }

    /** The max_frames test and the frame counter at the head of write_packet. */
    method CountPacket(i: nat) returns (refused: bool)
      requires Valid() && i < |streams|
      modifies streams[i]
      ensures Valid() && refused == Refused(old(View()).configs[i], old(View()).streams[i])
      ensures View() == if refused then old(View()) else
        old(View()).(streams := old(View()).streams[i := Counted(old(View()).configs[i], old(View()).streams[i])])
    {
      ghost var before := View();
      var ost := streams[i];
      if ost.config.counted {
        if ost.frameNumber >= ost.config.maxFrames {
          return true;
        }
        ost.frameNumber := ost.frameNumber + 1;
      }
      OnlyChanged(before, View(), i);
      return false;
    }

    /** The packet, counted or not, is queued or delivered. */
    method AcceptPacket(i: nat, p: Packet)
      requires Valid() && i < |streams|
      modifies this, streams[i]
      ensures Valid() && headerWritten == old(headerWritten)
      ensures View()
        == if old(headerWritten) then Deliver(Accept(old(View()), i, p), i, p) else Enqueue(old(View()), i, p)
    {
      if !headerWritten {
        QueuePacket(i, p);
      } else {
        ghost var before := View();
        streams[i].accepted := streams[i].accepted + [p];
        OnlyChanged(before, View(), i);
        SendToMuxer(i, p);
      }
    }

    method WritePacket(i: nat, p: Packet, unqueue: bool)
      requires Valid() && i < |streams| && (unqueue ==> headerWritten)
      modifies this, streams[i]
      ensures Valid() && headerWritten == old(headerWritten)
      ensures View() == if unqueue then Deliver(old(View()), i, p) else Write(old(View()), i, p)
    {
      if unqueue {
        SendToMuxer(i, p);
      } else {
        var refused := CountPacket(i);
        if !refused {
          AcceptPacket(i, p);
        }
      }
    }

    /** The first loop of check_init_output_file. */
    method StreamsReady() returns (ready: bool)
      requires Valid()
      ensures ready == AllInitialized(View())
    {
      for i := 0 to |streams|
        invariant forall j :: 0 <= j < i ==> View().streams[j].initialized
      {
        if !streams[i].initialized {
          assert !View().streams[i].initialized;
          return false;
        }
      }
      return true;
    }

    /** Its last loop: every stream's queue goes to the muxer. */
    method FlushQueues()
      requires Valid() && headerWritten
      modifies this, streams
      ensures Valid() && View() == FlushFrom(old(View()), 0)
    {
      var i := 0;
      ghost var f, last := View(), FlushFrom(View(), 0);
      while i < |streams| && !exited
        invariant 0 <= i <= |streams| == |f.streams| && Valid() && headerWritten && View() == f
        invariant FlushFrom(f, i) == last
        decreases |streams| - i
      {
        FlushFromUnfolds(f, i);
        f := FlushStream(ImproveTimeBase(f, i), i);
        FlushOne(i);
        i := i + 1;
      }
      FlushFromUnfolds(f, i);
    }

    /** check_init_output_file. */
    method CheckInitOutputFile(headerOk: bool)
      requires Valid()
      modifies this, streams
      ensures Valid() && View() == CheckInit(old(View()), headerOk)
    {
      var ready := StreamsReady();
      if !ready {
        return;
      }
      ghost var before := View();
      if !headerOk {
        exited := true;
        assert View() == before.(exited := true);
        return;
      }
      headerWritten := true;
      assert View() == before.(headerWritten := true);
      FlushQueues();
    }

    method UnqueuePacket(i: nat)
      requires Valid() && i < |streams| && headerWritten && streams[i].queue != []
      modifies this, streams[i]
      ensures Valid() && headerWritten
      ensures streams[i].queue == old(streams[i].queue)[1..]
      ensures View() == Unqueue(old(View()), i)
    {
      ghost var before := View();
      var ost := streams[i];
      var p := ost.queue[0];
      ost.queue := ost.queue[1..];
      OnlyChanged(before, View(), i);
      WritePacket(i, p, true);
    }

    /** One turn of the flushing loop: the time base, then the stream's queue. */
    method FlushOne(i: nat)
      requires Valid() && i < |streams| && headerWritten
      modifies this, streams[i]
      ensures Valid() && headerWritten
      ensures View() == FlushStream(ImproveTimeBase(old(View()), i), i)
    {
      ghost var before := View();
      var ost := streams[i];
      if |ost.queue| == 0 {
        ost.muxTimeBase := ost.config.timeBase;
      }
      OnlyChanged(before, View(), i);
      ghost var f := ImproveTimeBase(before, i);
      while |ost.queue| != 0 && !exited
        invariant Valid() && headerWritten && View() == f
        invariant FlushStream(f, i) == FlushStream(ImproveTimeBase(before, i), i)
        decreases |ost.queue|
      {
        FlushStreamUnfolds(f, i);
        f := Unqueue(f, i);
        UnqueuePacket(i);
      }
      FlushStreamUnfolds(f, i);
    }

    method InitOutputStream(i: nat, headerOk: bool)
      requires Valid() && i < |streams|
      modifies this, streams
      ensures Valid() && View() == InitStream(old(View()), i, headerOk)
    {
      ghost var before := View();
      streams[i].initialized := true;
      OnlyChanged(before, View(), i);
      CheckInitOutputFile(headerOk);
    }
  }
}
