/** What the muxer of one output file gets, for every order of written packets and initialised streams. */
module MuxQueueRuns {
  import opened Wrappers
  import opened Mathematics
  import opened TimestampRepair
  import opened MuxQueue

  datatype Event = WriteEvent(stream: nat, pkt: Packet) | InitEvent(stream: nat, headerOk: bool)

  function InitialFile(configs: seq<StreamConfig>, muxTimeBases: seq<Rational>, exitOnError: bool): FileState
    requires |configs| == |muxTimeBases|
  {
    FileState(configs, exitOnError, seq(|configs|, i requires 0 <= i < |configs| => InitialStream(muxTimeBases[i])),
              false, [], false)
  }

  ghost predicate Setup(configs: seq<StreamConfig>, muxTimeBases: seq<Rational>) {
    && |configs| == |muxTimeBases|
    && forall i :: 0 <= i < |configs| ==> configs[i].timeBase.Positive() && muxTimeBases[i].Positive()
  }

  /** A program that has ended takes no step; a stream is initialised once. */
  function Step(f: FileState, e: Event): (g: FileState)
    requires WellFormed(f)
    ensures WellFormed(g)
  {
    if f.exited || e.stream >= |f.streams| then f
    else match e
      case WriteEvent(i, p) => Write(f, i, p)
      case InitEvent(i, headerOk) => if f.streams[i].initialized then f else InitStream(f, i, headerOk)
  }

  function Run(f: FileState, events: seq<Event>): (g: FileState)
    requires WellFormed(f)
    ensures WellFormed(g)
    decreases |events|
  {
    if events == [] then f else Step(Run(f, events[..|events| - 1]), events[|events| - 1])
  }

  /** The packets the muxer got for stream i. */
  function Project(muxed: seq<Muxed>, i: nat): seq<Packet> {
    if muxed == [] then []
    else
      var n := |muxed| - 1;
      Project(muxed[..n], i) + (if muxed[n].stream == i then [muxed[n].pkt] else [])
  }

  /** The packets written to stream i. */
  function Written(events: seq<Event>, i: nat): seq<Packet> {
    if events == [] then []
    else
      var n := |events| - 1;
      Written(events[..n], i) + (if events[n].WriteEvent? && events[n].stream == i then [events[n].pkt] else [])
  }

  /** The packets that stay below the stream's frame limit. */
  function Admitted(c: StreamConfig, ps: seq<Packet>): seq<Packet> {
    if c.counted && |ps| > Max(0, c.maxFrames) then ps[..Max(0, c.maxFrames)] else ps
  }

  function PreparedAll(c: StreamConfig, muxTimeBase: Rational, ps: seq<Packet>): seq<Stamp>
    requires c.timeBase.Positive() && muxTimeBase.Positive()
  {
    seq(|ps|, i requires 0 <= i < |ps| => Prepared(c, muxTimeBase, ps[i]))
  }

  /** The same packets in the same order, with rescaled and repaired timestamps. */
  function Delivered(c: StreamConfig, muxTimeBase: Rational, ps: seq<Packet>): (out: seq<Packet>)
    requires c.timeBase.Positive() && muxTimeBase.Positive()
    ensures |out| == |ps|
    ensures forall k :: 0 <= k < |ps| ==> out[k].id == ps[k].id
  {
    var stamps := RepairAll(c.rules, PreparedAll(c, muxTimeBase, ps));
    seq(|ps|, k requires 0 <= k < |ps| => Packet(ps[k].id, stamps[k]))
  }

  function LastOf(ps: seq<Packet>): Option<int> { if ps == [] then None else ps[|ps| - 1].stamp.dts }

  lemma DeliveredAppend(c: StreamConfig, muxTimeBase: Rational, ps: seq<Packet>, p: Packet)
    requires c.timeBase.Positive() && muxTimeBase.Positive()
    ensures var before := Delivered(c, muxTimeBase, ps);
      Delivered(c, muxTimeBase, ps + [p])
        == before + [Packet(p.id, Repair(c.rules, LastOf(before), Prepared(c, muxTimeBase, p)))]
  {
    var stamps := PreparedAll(c, muxTimeBase, ps);
    assert PreparedAll(c, muxTimeBase, ps + [p]) == stamps + [Prepared(c, muxTimeBase, p)];
    assert (stamps + [Prepared(c, muxTimeBase, p)])[..|stamps|] == stamps;
    assert LastOf(Delivered(c, muxTimeBase, ps)) == LastDts(RepairAll(c.rules, stamps));
  }

  // ------------------------------------------------------------------------------------------- the invariant

  /** The muxer got the first accepted packets of a stream, the queue holds the rest. */
  ghost predicate StreamInv(c: StreamConfig, s: StreamState, got: seq<Packet>)
    requires c.timeBase.Positive() && s.muxTimeBase.Positive()
  {
    && |got| <= |s.accepted|
    && s.queue == s.accepted[|got|..]
    && got == Delivered(c, s.muxTimeBase, s.accepted[..|got|])
    && s.lastMuxDts == LastOf(got)
    && 8 <= s.capacity <= Max(8, c.maxQueue) && |s.queue| <= s.capacity
    && (c.counted ==> s.frameNumber == |s.accepted|)
  }

  /** What still holds of a stream when the program has ended: the muxer got the first accepted packets, and the
      queue keeps its bound. */
  ghost predicate StreamLoose(c: StreamConfig, s: StreamState, got: seq<Packet>)
    requires c.timeBase.Positive() && s.muxTimeBase.Positive()
  {
    && |got| <= |s.accepted|
    && got == Delivered(c, s.muxTimeBase, s.accepted[..|got|])
    && 8 <= s.capacity <= Max(8, c.maxQueue) && |s.queue| <= s.capacity
  }

  ghost predicate StreamsLoose(f: FileState)
    requires WellFormed(f)
  {
    forall i :: 0 <= i < |f.streams| ==> StreamLoose(f.configs[i], f.streams[i], Project(f.muxed, i))
  }

  ghost predicate StreamsInv(f: FileState)
    requires WellFormed(f)
  {
    forall i :: 0 <= i < |f.streams| ==> StreamInv(f.configs[i], f.streams[i], Project(f.muxed, i))
  }

  ghost predicate Inv(f: FileState) {
    && WellFormed(f) && StreamsInv(f)
    && (!f.headerWritten ==> f.muxed == [])
    && (f.headerWritten ==> AllInitialized(f) && forall i :: 0 <= i < |f.streams| ==> f.streams[i].queue == [])
  }

  /** Holds even of a program that has ended. */
  ghost predicate HeaderFirst(f: FileState) {
    (f.muxed != [] ==> f.headerWritten) && (f.headerWritten ==> AllInitialized(f))
  }

  lemma ProjectAppend(muxed: seq<Muxed>, m: Muxed, i: nat)
    ensures Project(muxed + [m], i) == Project(muxed, i) + (if m.stream == i then [m.pkt] else [])
  {
    assert (muxed + [m])[..|muxed|] == muxed;
  }

  /** What flushing leaves alone: everything but queues, timestamps and time bases. */
  ghost predicate SameStreams(f: FileState, g: FileState) {
    && g.configs == f.configs && |g.streams| == |f.streams| && g.headerWritten == f.headerWritten
    && forall j :: 0 <= j < |f.streams| ==>
         g.streams[j].accepted == f.streams[j].accepted && g.streams[j].initialized == f.streams[j].initialized
         && g.streams[j].frameNumber == f.streams[j].frameNumber
  }

  /** One stream before and after its oldest accepted packet p, just taken off the queue, is delivered. */
  lemma DeliverOne(c: StreamConfig, s: StreamState, got: seq<Packet>, p: Packet)
    requires c.timeBase.Positive() && s.muxTimeBase.Positive()
    requires StreamInv(c, s.(queue := [p] + s.queue), got)
    ensures var repaired := Repair(c.rules, s.lastMuxDts, Prepared(c, s.muxTimeBase, p));
      StreamInv(c, s.(lastMuxDts := repaired.dts), got + [Packet(p.id, repaired)])
  {
    var n := |got|;
    assert s.accepted[n] == ([p] + s.queue)[0];
    assert s.accepted[..n + 1] == s.accepted[..n] + [p];
    assert s.accepted[n + 1..] == ([p] + s.queue)[1..] == s.queue;
    DeliveredAppend(c, s.muxTimeBase, s.accepted[..n], p);
  }

  ghost predicate OthersInv(f: FileState, i: nat)
    requires WellFormed(f)
  {
    forall j :: 0 <= j < |f.streams| && j != i ==> StreamInv(f.configs[j], f.streams[j], Project(f.muxed, j))
  }

  /** The program may end while stream i's packet p is on its way. */
  lemma LooseOnTheWay(f: FileState, i: nat, p: Packet)
    requires WellFormed(f) && i < |f.streams| && OthersInv(f, i)
    requires var s := f.streams[i]; StreamInv(f.configs[i], s.(queue := [p] + s.queue), Project(f.muxed, i))
    ensures StreamsLoose(f)
  {
  }

  lemma LooseFromInv(f: FileState)
    requires WellFormed(f) && StreamsInv(f)
    ensures StreamsLoose(f)
  {
  }

  ghost predicate SameOthers(f: FileState, g: FileState, i: nat) {
    |g.streams| == |f.streams| && forall j :: 0 <= j < |f.streams| && j != i ==> g.streams[j] == f.streams[j]
  }

  lemma OthersInvKept(f: FileState, g: FileState, i: nat)
    requires WellFormed(f) && WellFormed(g) && OthersInv(f, i)
    requires g.configs == f.configs && g.muxed == f.muxed && SameOthers(f, g, i)
    ensures OthersInv(g, i)
  {
  }

  lemma OthersAndOne(f: FileState, i: nat)
    requires WellFormed(f) && i < |f.streams| && OthersInv(f, i)
    requires StreamInv(f.configs[i], f.streams[i], Project(f.muxed, i))
    ensures StreamsInv(f)
  {
  }

  /** A packet sent for stream i leaves the invariants of the others alone. */
  lemma SentKeepsOthers(f: FileState, i: nat, s: StreamState, m: Muxed)
    requires WellFormed(f) && i < |f.streams| && OthersInv(f, i)
    requires m.stream == i && s.muxTimeBase.Positive()
    ensures OthersInv(f.(streams := f.streams[i := s], muxed := f.muxed + [m]), i)
  {
    var g := f.(streams := f.streams[i := s], muxed := f.muxed + [m]);
    forall j | 0 <= j < |f.streams| && j != i
      ensures Project(g.muxed, j) == Project(f.muxed, j)
    {
      ProjectAppend(f.muxed, m, j);
    }
  }

  /** A file in which only stream i has changed, and not in what flushing leaves alone. */
  lemma OnlyStream(f: FileState, g: FileState, i: nat, s: StreamState)
    requires WellFormed(f) && i < |f.streams| && g.streams == f.streams[i := s]
    requires g.configs == f.configs && g.headerWritten == f.headerWritten
    requires s.accepted == f.streams[i].accepted && s.initialized == f.streams[i].initialized
    requires s.frameNumber == f.streams[i].frameNumber && s.muxTimeBase.Positive()
    ensures WellFormed(g) && SameStreams(f, g) && SameOthers(f, g, i)
  {
  }

  lemma DeliverKeepsRest(f: FileState, i: nat, p: Packet)
    requires WellFormed(f) && i < |f.streams|
    ensures var g := Deliver(f, i, p); WellFormed(g) && SameStreams(f, g) && SameOthers(f, g, i)
  {
    var g, s := Deliver(f, i, p), f.streams[i];
    OnlyStream(f, g, i, if g.streams == f.streams then s else g.streams[i]);
  }

  lemma DeliverExits(f: FileState, i: nat, p: Packet)
    requires WellFormed(f) && i < |f.streams| && StreamsLoose(f) && Deliver(f, i, p).exited && !f.exited
    ensures WellFormed(Deliver(f, i, p)) && StreamsLoose(Deliver(f, i, p))
  {
  }

  /** Delivering the oldest accepted packet that the muxer has not got keeps every stream's invariant. */
  lemma DeliverKeeps(f: FileState, i: nat, p: Packet)
    requires WellFormed(f) && i < |f.streams| && OthersInv(f, i)
    requires var s := f.streams[i]; StreamInv(f.configs[i], s.(queue := [p] + s.queue), Project(f.muxed, i))
    ensures WellFormed(Deliver(f, i, p)) && (!f.exited && Deliver(f, i, p).exited ==> StreamsLoose(Deliver(f, i, p)))
    ensures !f.exited ==>
      || Deliver(f, i, p).exited
      || (StreamsInv(Deliver(f, i, p)) && Deliver(f, i, p).streams[i].queue == f.streams[i].queue)
  {
    var g := Deliver(f, i, p);
    DeliverKeepsRest(f, i, p);
    LooseOnTheWay(f, i, p);
    if g.exited && !f.exited {
      DeliverExits(f, i, p);
    } else if !g.exited {
      var c, s := f.configs[i], f.streams[i];
      var repaired := Repair(c.rules, s.lastMuxDts, Prepared(c, s.muxTimeBase, p));
      var m := Muxed(i, Packet(p.id, repaired));
      assert g == f.(streams := f.streams[i := s.(lastMuxDts := repaired.dts)], muxed := f.muxed + [m]);
      DeliverOne(c, s, Project(f.muxed, i), p);
      ProjectAppend(f.muxed, m, i);
      SentKeepsOthers(f, i, s.(lastMuxDts := repaired.dts), m);
      OthersAndOne(g, i);
    }
  }

  /** A stream with its frame already counted, as write_packet leaves it before the packet is queued. */
  ghost predicate CountedInv(c: StreamConfig, s: StreamState, got: seq<Packet>)
    requires c.timeBase.Positive() && s.muxTimeBase.Positive()
  {
    StreamInv(c, if c.counted then s.(frameNumber := s.frameNumber - 1) else s, got)
  }

  lemma QueuedOne(c: StreamConfig, s: StreamState, capacity: int, got: seq<Packet>, p: Packet)
    requires c.timeBase.Positive() && s.muxTimeBase.Positive() && CountedInv(c, s, got)
    requires s.capacity <= capacity <= Max(8, c.maxQueue) && |s.queue| < capacity
    ensures StreamInv(c, s.(queue := s.queue + [p], capacity := capacity, accepted := s.accepted + [p]), got)
  {
    assert (s.accepted + [p])[|got|..] == s.queue + [p];
    assert (s.accepted + [p])[..|got|] == s.accepted[..|got|];
  }

  lemma EnqueueExits(f: FileState, i: nat, p: Packet)
    requires WellFormed(f) && i < |f.streams| && OthersInv(f, i) && !f.exited
    requires CountedInv(f.configs[i], f.streams[i], Project(f.muxed, i)) && Enqueue(f, i, p).exited
    ensures WellFormed(Enqueue(f, i, p)) && StreamsLoose(Enqueue(f, i, p))
  {
  }

  lemma EnqueueKeeps(f: FileState, i: nat, p: Packet)
    requires WellFormed(f) && i < |f.streams| && OthersInv(f, i) && !f.exited
    requires CountedInv(f.configs[i], f.streams[i], Project(f.muxed, i))
    ensures var g := Enqueue(f, i, p); WellFormed(g) && StreamsLoose(g) && (!g.exited ==> StreamsInv(g))
  {
    var g := Enqueue(f, i, p);
    if g.exited {
      EnqueueExits(f, i, p);
    } else {
      QueuedOne(f.configs[i], f.streams[i], g.streams[i].capacity, Project(f.muxed, i), p);
      OthersInvKept(f, g, i);
      OthersAndOne(g, i);
      LooseFromInv(g);
    }
  }

  /** A packet written while the muxer is not initialised. */
  lemma WriteQueuedKeeps(f: FileState, i: nat, p: Packet)
    requires Inv(f) && i < |f.streams| && !f.exited && !f.headerWritten
    ensures var g := Write(f, i, p); WellFormed(g) && HeaderFirst(g) && StreamsLoose(g) && (!g.exited ==> Inv(g))
  {
    var c := f.configs[i];
    if !Refused(c, f.streams[i]) {
      var counted := f.(streams := f.streams[i := Counted(c, f.streams[i])]);
      OthersInvKept(f, counted, i);
      EnqueueKeeps(counted, i, p);
    } else {
      LooseFromInv(f);
    }
  }

  lemma CountedAndAccepted(c: StreamConfig, s: StreamState, got: seq<Packet>, p: Packet)
    requires c.timeBase.Positive() && s.muxTimeBase.Positive()
    requires StreamInv(c, s, got) && s.queue == []
    ensures var t := Counted(c, s);
      StreamInv(c, t.(accepted := t.accepted + [p], queue := [p] + s.queue), got)
  {
    assert s.accepted[..|got|] == s.accepted == (s.accepted + [p])[..|got|];
    assert (s.accepted + [p])[|got|..] == [p] + s.queue;
  }

  /** An open muxer's file stays open with a packet more. */
  lemma DeliverKeepsOpen(f: FileState, g: FileState, i: nat)
    requires WellFormed(f) && AllInitialized(f) && f.headerWritten && i < |f.streams|
    requires WellFormed(g) && SameStreams(f, g) && SameOthers(f, g, i)
    requires forall j :: 0 <= j < |f.streams| && j != i ==> f.streams[j].queue == []
    ensures g.headerWritten && AllInitialized(g)
    ensures g.streams[i].queue == [] ==> forall j :: 0 <= j < |g.streams| ==> g.streams[j].queue == []
  {
  }

  lemma CountedAccepted(f: FileState, i: nat, p: Packet)
    requires Inv(f) && i < |f.streams| && f.headerWritten
    ensures var g := Accept(f.(streams := f.streams[i := Counted(f.configs[i], f.streams[i])]), i, p);
      var s := g.streams[i];
      && WellFormed(g) && OthersInv(g, i) && AllInitialized(g) && SameOthers(f, g, i)
      && s.queue == [] && StreamInv(g.configs[i], s.(queue := [p] + s.queue), Project(g.muxed, i))
  {
    var c, s := f.configs[i], f.streams[i];
    CountedAndAccepted(c, s, Project(f.muxed, i), p);
    OthersInvKept(f, Accept(f.(streams := f.streams[i := Counted(c, s)]), i, p), i);
  }

  /** A packet written to an initialised muxer. */
  lemma WriteThroughKeeps(f: FileState, i: nat, p: Packet)
    requires Inv(f) && i < |f.streams| && !f.exited && f.headerWritten
    ensures var g := Write(f, i, p); WellFormed(g) && HeaderFirst(g) && StreamsLoose(g) && (!g.exited ==> Inv(g))
  {
    var c, s := f.configs[i], f.streams[i];
    if !Refused(c, s) {
      var accepted := Accept(f.(streams := f.streams[i := Counted(c, s)]), i, p);
      CountedAccepted(f, i, p);
      DeliverKeepsRest(accepted, i, p);
      DeliverKeeps(accepted, i, p);
      DeliverKeepsOpen(accepted, Deliver(accepted, i, p), i);
      if !Deliver(accepted, i, p).exited {
        LooseFromInv(Deliver(accepted, i, p));
      }
    } else {
      LooseFromInv(f);
    }
  }

  lemma TakenKeeps(f: FileState, i: nat) returns (taken: FileState)
    requires WellFormed(f) && StreamsInv(f) && i < |f.streams| && f.streams[i].queue != []
    ensures taken == f.(streams := f.streams[i := f.streams[i].(queue := f.streams[i].queue[1..])])
    ensures WellFormed(taken) && SameStreams(f, taken) && SameOthers(f, taken, i) && OthersInv(taken, i)
    ensures var s := taken.streams[i];
      StreamInv(taken.configs[i], s.(queue := [f.streams[i].queue[0]] + s.queue), Project(taken.muxed, i))
  {
    var s := f.streams[i];
    taken := f.(streams := f.streams[i := s.(queue := s.queue[1..])]);
    OnlyStream(f, taken, i, s.(queue := s.queue[1..]));
    OthersInvKept(f, taken, i);
    assert [s.queue[0]] + s.queue[1..] == s.queue;
    assert s == taken.streams[i].(queue := [s.queue[0]] + taken.streams[i].queue);
  }

  lemma SameOthersTransitive(f: FileState, g: FileState, h: FileState, i: nat)
    requires SameOthers(f, g, i) && SameOthers(g, h, i)
    ensures SameOthers(f, h, i)
  {
  }

  lemma UnqueueKeeps(f: FileState, i: nat)
    requires WellFormed(f) && StreamsInv(f) && i < |f.streams| && !f.exited && f.streams[i].queue != []
    ensures var g := Unqueue(f, i);
      && WellFormed(g) && SameStreams(f, g) && SameOthers(f, g, i)
      && (if g.exited then StreamsLoose(g) else StreamsInv(g) && g.streams[i].queue == f.streams[i].queue[1..])
  {
    var taken := TakenKeeps(f, i);
    var p := f.streams[i].queue[0];
    var g := Deliver(taken, i, p);
    DeliverKeepsRest(taken, i, p);
    DeliverKeeps(taken, i, p);
    SameStreamsTransitive(f, taken, g);
    SameOthersTransitive(f, taken, g, i);
  }

  lemma {:induction false} FlushStreamKeeps(f: FileState, i: nat)
    requires WellFormed(f) && StreamsInv(f) && i < |f.streams| && !f.exited
    ensures var g := FlushStream(f, i);
      && SameStreams(f, g) && SameOthers(f, g, i)
      && (if g.exited then StreamsLoose(g) else StreamsInv(g) && g.streams[i].queue == [])
    decreases |f.streams[i].queue|
  {
    FlushStreamUnfolds(f, i);
    if f.streams[i].queue != [] {
      UnqueueKeeps(f, i);
      if !Unqueue(f, i).exited {
        FlushStreamKeeps(Unqueue(f, i), i);
      }
    }
  }

  /** A stream with an empty queue before the header has delivered nothing, so its time base is free to change. */
  lemma ImproveKeeps(f: FileState, i: nat)
    requires WellFormed(f) && StreamsInv(f) && i < |f.streams|
    requires Project(f.muxed, i) == []
    ensures var g := ImproveTimeBase(f, i);
      StreamsInv(g) && SameStreams(f, g) && SameOthers(f, g, i) && g.muxed == f.muxed && g.exited == f.exited
  {
    var g := ImproveTimeBase(f, i);
    OnlyStream(f, g, i, if g.streams == f.streams then f.streams[i] else g.streams[i]);
    OthersInvKept(f, g, i);
    OthersAndOne(g, i);
  }

  lemma UnqueueShortens(f: FileState, i: nat)
    requires WellFormed(f) && i < |f.streams| && f.streams[i].queue != []
    ensures var g := Unqueue(f, i);
      WellFormed(g) && i < |g.streams| && g.streams[i].queue == f.streams[i].queue[1..]
  {
  }

  lemma UnqueueSendsOnly(f: FileState, i: nat, j: nat)
    requires WellFormed(f) && i < |f.streams| && f.streams[i].queue != [] && j != i
    ensures Project(Unqueue(f, i).muxed, j) == Project(f.muxed, j)
  {
    var g := Unqueue(f, i);
    if g.muxed != f.muxed {
      ProjectAppend(f.muxed, g.muxed[|f.muxed|], j);
    }
  }

  /** Flushing one stream sends nothing for the others. */
  lemma {:induction false} FlushSendsOnly(f: FileState, i: nat, j: nat)
    requires WellFormed(f) && i < |f.streams| && j != i
    ensures Project(FlushStream(f, i).muxed, j) == Project(f.muxed, j)
    decreases |f.streams[i].queue|
  {
    FlushStreamUnfolds(f, i);
    if !f.exited && f.streams[i].queue != [] {
      var g := Unqueue(f, i);
      UnqueueSendsOnly(f, i, j);
      UnqueueShortens(f, i);
      FlushSendsOnly(g, i, j);
    }
  }

  /** Before turn i of the flushing loop: streams from i on have sent nothing, those below i have empty queues. */
  ghost predicate FlushInv(f: FileState, i: nat) {
    && WellFormed(f) && StreamsInv(f)
    && (forall j :: i <= j < |f.streams| ==> Project(f.muxed, j) == [])
    && (forall j :: 0 <= j < i && j < |f.streams| ==> f.streams[j].queue == [])
  }

  lemma FlushSendsOnlyOne(f: FileState, i: nat)
    requires WellFormed(f) && i < |f.streams|
    ensures forall j: nat :: j != i ==> Project(FlushStream(f, i).muxed, j) == Project(f.muxed, j)
  {
    forall j: nat | j != i
      ensures Project(FlushStream(f, i).muxed, j) == Project(f.muxed, j)
    {
      FlushSendsOnly(f, i, j);
    }
  }

  lemma FlushTurnComposes(f: FileState, g: FileState, i: nat)
    requires FlushInv(f, i) && i < |f.streams| && WellFormed(g) && StreamsInv(g)
    requires SameOthers(f, g, i) && g.streams[i].queue == []
    requires forall j: nat :: j != i ==> Project(g.muxed, j) == Project(f.muxed, j)
    ensures FlushInv(g, i + 1)
  {
  }

  lemma SameStreamsTransitive(f: FileState, g: FileState, h: FileState)
    requires SameStreams(f, g) && SameStreams(g, h)
    ensures SameStreams(f, h)
  {
  }

  /** One turn of the flushing loop. */
  lemma FlushTurnKeeps(f: FileState, i: nat)
    requires FlushInv(f, i) && i < |f.streams| && !f.exited
    ensures var g := FlushStream(ImproveTimeBase(f, i), i);
      SameStreams(f, g) && (if g.exited then StreamsLoose(g) else FlushInv(g, i + 1))
  {
    ImproveKeeps(f, i);
    var h := ImproveTimeBase(f, i);
    FlushStreamKeeps(h, i);
    FlushSendsOnlyOne(h, i);
    var g := FlushStream(h, i);
    SameStreamsTransitive(f, h, g);
    if !g.exited {
      FlushTurnComposes(f, g, i);
    }
  }

  lemma FlushAllKeeps(f: FileState) returns (h: FileState)
    requires FlushInv(f, 0) && !f.exited
    ensures h == FlushFrom(f, 0) && SameStreams(f, h)
    ensures if h.exited then StreamsLoose(h) else FlushInv(h, |f.streams|)
  {
    h := f;
    var i := 0;
    while i < |f.streams| && !h.exited
      invariant i <= |f.streams| && SameStreams(f, h) && WellFormed(h)
      invariant if h.exited then StreamsLoose(h) else FlushInv(h, i)
      invariant FlushFrom(h, i) == FlushFrom(f, 0)
    {
      FlushTurnKeeps(h, i);
      FlushFromUnfolds(h, i);
      var g := FlushStream(ImproveTimeBase(h, i), i);
      SameStreamsTransitive(f, h, g);
      h, i := g, i + 1;
    }
    FlushFromUnfolds(h, i);
  }

  /** Stream i is marked as initialised before the muxer is. */
  lemma MarkKeeps(f: FileState, i: nat) returns (marked: FileState)
    requires Inv(f) && i < |f.streams| && !f.exited && !f.streams[i].initialized
    ensures marked == f.(streams := f.streams[i := f.streams[i].(initialized := true)])
    ensures !marked.headerWritten && marked.muxed == []
    ensures WellFormed(marked) && StreamsInv(marked) && StreamsLoose(marked)
  {
    marked := f.(streams := f.streams[i := f.streams[i].(initialized := true)]);
    assert !AllInitialized(f);
    OthersInvKept(f, marked, i);
    OthersAndOne(marked, i);
    LooseFromInv(marked);
  }

  /** All streams are initialised and the header is written. */
  lemma HeaderKeeps(marked: FileState) returns (ready: FileState)
    requires WellFormed(marked) && StreamsInv(marked) && !marked.exited && marked.muxed == []
    ensures ready == marked.(headerWritten := true) && FlushInv(ready, 0)
  {
    ready := marked.(headerWritten := true);
  }

  /** An emptied file whose muxer is open. */
  lemma FlushedIsOpen(ready: FileState, h: FileState)
    requires AllInitialized(ready) && ready.headerWritten && SameStreams(ready, h)
    requires FlushInv(h, |ready.streams|)
    ensures Inv(h) && StreamsLoose(h)
  {
    LooseFromInv(h);
  }

  lemma InitKeeps(f: FileState, i: nat, headerOk: bool)
    requires Inv(f) && i < |f.streams| && !f.exited && !f.streams[i].initialized
    ensures var g := InitStream(f, i, headerOk);
      WellFormed(g) && HeaderFirst(g) && StreamsLoose(g) && (!g.exited ==> Inv(g))
  {
    var marked := MarkKeeps(f, i);
    if AllInitialized(marked) && headerOk {
      var ready := HeaderKeeps(marked);
      var h := FlushAllKeeps(ready);
      if !h.exited {
        FlushedIsOpen(ready, h);
      }
    }
  }

  lemma StepKeeps(f: FileState, e: Event)
    requires WellFormed(f) && HeaderFirst(f) && StreamsLoose(f) && (!f.exited ==> Inv(f))
    ensures var g := Step(f, e); HeaderFirst(g) && StreamsLoose(g) && (!g.exited ==> Inv(g))
  {
    if !f.exited && e.stream < |f.streams| {
      match e
      case WriteEvent(i, p) =>
        if f.headerWritten {
          WriteThroughKeeps(f, i, p);
        } else {
          WriteQueuedKeeps(f, i, p);
        }
      case InitEvent(i, headerOk) =>
        if !f.streams[i].initialized {
          InitKeeps(f, i, headerOk);
        }
    }
  }

  lemma {:induction false} RunInv(f0: FileState, events: seq<Event>)
    requires WellFormed(f0) && HeaderFirst(f0) && Inv(f0)
    ensures var f := Run(f0, events); HeaderFirst(f) && StreamsLoose(f) && (!f.exited ==> Inv(f))
    decreases |events|
  {
    LooseFromInv(f0);
    if events != [] {
      var n := |events| - 1;
      RunInv(f0, events[..n]);
      StepKeeps(Run(f0, events[..n]), events[n]);
    }
  }

  // ------------------------------------------------------------------------------ what is accepted, and when

  lemma AdmitNext(c: StreamConfig, ps: seq<Packet>, p: Packet)
    ensures Admitted(c, ps + [p])
      == if c.counted && |Admitted(c, ps)| >= c.maxFrames then Admitted(c, ps) else Admitted(c, ps) + [p]
  {
  }

  /** Up to the program's end all admitted packets are accepted and counted; of later ones none is. */
  ghost predicate StreamAccepts(c: StreamConfig, s: StreamState, admitted: seq<Packet>, exited: bool) {
    && s.accepted <= admitted && (!exited ==> s.accepted == admitted)
    && (c.counted ==> s.frameNumber <= |admitted| && (!exited ==> s.frameNumber == |admitted|))
  }

  ghost predicate AcceptedInv(f: FileState, events: seq<Event>)
    requires |f.configs| == |f.streams|
  {
    forall i :: 0 <= i < |f.streams| ==>
      StreamAccepts(f.configs[i], f.streams[i], Admitted(f.configs[i], Written(events, i)), f.exited)
  }

  lemma AcceptsMore(c: StreamConfig, s: StreamState, ps: seq<Packet>, p: Packet)
    requires StreamAccepts(c, s, Admitted(c, ps), true)
    ensures StreamAccepts(c, s, Admitted(c, ps + [p]), true)
  {
    AdmitNext(c, ps, p);
  }

  lemma WrittenNext(events: seq<Event>, e: Event, i: nat)
    ensures Written(events + [e], i) == Written(events, i) + (if e.WriteEvent? && e.stream == i then [e.pkt] else [])
  {
    assert (events + [e])[..|events|] == events;
  }

  /** The stream of a written packet afterwards. */
  ghost predicate Took(c: StreamConfig, s: StreamState, t: StreamState, p: Packet, exited: bool) {
    if Refused(c, s) then t == s && !exited
    else
      && (t.accepted == s.accepted + [p] || (exited && t.accepted == s.accepted))
      && (c.counted ==> t.frameNumber == s.frameNumber + 1)
  }

  lemma WriteAccepts(f: FileState, i: nat, p: Packet)
    requires WellFormed(f) && i < |f.streams| && !f.exited
    ensures var g := Write(f, i, p);
      && g.configs == f.configs && SameOthers(f, g, i)
      && Took(f.configs[i], f.streams[i], g.streams[i], p, g.exited)
  {
  }

  lemma InitAccepts(f: FileState, i: nat, headerOk: bool)
    requires Inv(f) && i < |f.streams| && !f.exited && !f.streams[i].initialized
    ensures var g := InitStream(f, i, headerOk);
      && g.configs == f.configs && |g.streams| == |f.streams|
      && forall j :: 0 <= j < |f.streams| ==>
           g.streams[j].accepted == f.streams[j].accepted && g.streams[j].frameNumber == f.streams[j].frameNumber
  {
    var marked := MarkKeeps(f, i);
    if AllInitialized(marked) && headerOk {
      var ready := HeaderKeeps(marked);
      var _ := FlushAllKeeps(ready);
    }
  }

  lemma TookAccepts(c: StreamConfig, s: StreamState, t: StreamState, ps: seq<Packet>, p: Packet, exited: bool)
    requires StreamAccepts(c, s, Admitted(c, ps), false) && Took(c, s, t, p, exited)
    ensures StreamAccepts(c, t, Admitted(c, ps + [p]), exited)
  {
    AdmitNext(c, ps, p);
  }

  lemma WriteExtends(f: FileState, g: FileState, events: seq<Event>, i: nat, p: Packet)
    requires |f.configs| == |f.streams| && i < |f.streams| && AcceptedInv(f, events) && !f.exited
    requires g.configs == f.configs && SameOthers(f, g, i)
    requires Took(f.configs[i], f.streams[i], g.streams[i], p, g.exited)
    ensures AcceptedInv(g, events + [WriteEvent(i, p)])
  {
    forall j | 0 <= j < |f.streams|
      ensures StreamAccepts(g.configs[j], g.streams[j],
                Admitted(g.configs[j], Written(events + [WriteEvent(i, p)], j)), g.exited)
    {
      WrittenNext(events, WriteEvent(i, p), j);
      assert StreamAccepts(f.configs[j], f.streams[j], Admitted(f.configs[j], Written(events, j)), false);
      if j == i {
        TookAccepts(f.configs[i], f.streams[i], g.streams[i], Written(events, i), p, g.exited);
      } else {
        assert g.streams[j] == f.streams[j];
      }
    }
  }

  /** A program that has ended accepts nothing more. */
  lemma EndedAccepts(f: FileState, events: seq<Event>, e: Event)
    requires |f.configs| == |f.streams| && AcceptedInv(f, events) && f.exited
    ensures AcceptedInv(f, events + [e])
  {
    forall j | 0 <= j < |f.streams|
      ensures StreamAccepts(f.configs[j], f.streams[j], Admitted(f.configs[j], Written(events + [e], j)), true)
    {
      WrittenNext(events, e, j);
      if e.WriteEvent? && e.stream == j {
        AcceptsMore(f.configs[j], f.streams[j], Written(events, j), e.pkt);
      }
    }
  }

  /** A step that only initialises a stream, or does nothing. */
  lemma NothingWritten(f: FileState, g: FileState, events: seq<Event>, e: Event)
    requires |f.configs| == |f.streams| && AcceptedInv(f, events) && !f.exited
    requires e.InitEvent? || e.stream >= |f.streams|
    requires g.configs == f.configs && |g.streams| == |f.streams|
    requires forall j :: 0 <= j < |f.streams| ==>
      g.streams[j].accepted == f.streams[j].accepted && g.streams[j].frameNumber == f.streams[j].frameNumber
    ensures AcceptedInv(g, events + [e])
  {
    forall j | 0 <= j < |f.streams|
      ensures StreamAccepts(g.configs[j], g.streams[j], Admitted(g.configs[j], Written(events + [e], j)), g.exited)
    {
      WrittenNext(events, e, j);
      assert StreamAccepts(f.configs[j], f.streams[j], Admitted(f.configs[j], Written(events, j)), false);
    }
  }

  lemma StepAccepts(f: FileState, events: seq<Event>, e: Event)
    requires Inv(f) && !f.exited && AcceptedInv(f, events)
    ensures Step(f, e).configs == f.configs && |Step(f, e).streams| == |f.streams|
    ensures AcceptedInv(Step(f, e), events + [e])
  {
    if e.stream < |f.streams| && e.WriteEvent? {
      WriteAccepts(f, e.stream, e.pkt);
      WriteExtends(f, Step(f, e), events, e.stream, e.pkt);
    } else {
      if e.stream < |f.streams| && !f.streams[e.stream].initialized {
        InitAccepts(f, e.stream, e.headerOk);
      }
      NothingWritten(f, Step(f, e), events, e);
    }
  }

  ghost predicate Fresh(f: FileState) {
    && Inv(f) && HeaderFirst(f) && !f.exited
    && forall i :: 0 <= i < |f.streams| ==> f.streams[i].accepted == [] && f.streams[i].frameNumber == 0
  }

  lemma FreshAccepts(f: FileState)
    requires Fresh(f)
    ensures AcceptedInv(f, [])
  {
    forall i | 0 <= i < |f.streams|
      ensures StreamAccepts(f.configs[i], f.streams[i], Admitted(f.configs[i], Written([], i)), f.exited)
    {
      assert StreamInv(f.configs[i], f.streams[i], Project(f.muxed, i));
    }
  }

  lemma {:induction false} RunAccepts(f0: FileState, events: seq<Event>)
    requires Fresh(f0)
    ensures var f := Run(f0, events); f.configs == f0.configs && AcceptedInv(f, events)
    decreases |events|
  {
    if events == [] {
      FreshAccepts(f0);
    } else {
      var before, e := events[..|events| - 1], events[|events| - 1];
      var f := Run(f0, before);
      RunInv(f0, before);
      RunAccepts(f0, before);
      assert events == before + [e];
      if f.exited {
        EndedAccepts(f, before, e);
      } else {
        StepAccepts(f, before, e);
      }
    }
  }

  lemma InitialInv(configs: seq<StreamConfig>, muxTimeBases: seq<Rational>, exitOnError: bool)
    requires Setup(configs, muxTimeBases)
    ensures var f := InitialFile(configs, muxTimeBases, exitOnError);
      Fresh(f) && f.configs == configs
  {
  }

  // -------------------------------------------------------------------------------------------- main results

  /** Nothing reaches the muxer before every stream of the file is initialised. */
  lemma NothingBeforeAllStreams(
      configs: seq<StreamConfig>, muxTimeBases: seq<Rational>, exitOnError: bool, events: seq<Event>)
    requires Setup(configs, muxTimeBases)
    ensures var f := Run(InitialFile(configs, muxTimeBases, exitOnError), events);
      f.muxed != [] ==> AllInitialized(f)
  {
    InitialInv(configs, muxTimeBases, exitOnError);
    RunInv(InitialFile(configs, muxTimeBases, exitOnError), events);
  }

  /** What is delivered of the first packets comes first in what is delivered of all. */
  lemma DeliveredPrefix(c: StreamConfig, muxTimeBase: Rational, ps: seq<Packet>, n: nat)
    requires c.timeBase.Positive() && muxTimeBase.Positive() && n <= |ps|
    ensures Delivered(c, muxTimeBase, ps[..n]) == Delivered(c, muxTimeBase, ps)[..n]
  {
    if n < |ps| {
      assert PreparedAll(c, muxTimeBase, ps[..n]) == PreparedAll(c, muxTimeBase, ps)[..n];
      RepairAllAt(c.rules, PreparedAll(c, muxTimeBase, ps), n);
    } else {
      assert ps[..n] == ps;
    }
  }

  /** The muxer of a program that may have ended has the first of the admitted packets. */
  lemma GotFirst(c: StreamConfig, s: StreamState, got: seq<Packet>, admitted: seq<Packet>)
    requires c.timeBase.Positive() && s.muxTimeBase.Positive() && StreamLoose(c, s, got) && s.accepted <= admitted
    ensures got <= Delivered(c, s.muxTimeBase, admitted)
  {
    assert s.accepted[..|got|] == admitted[..|got|];
    DeliveredPrefix(c, s.muxTimeBase, admitted, |got|);
  }

  /** In every run the muxer has, for each stream, the first of the written packets below the frame limit, in order,
      with rescaled and repaired timestamps.  Unless the program has ended it has all of them once the header is
      written; before that they all wait in the queue. */
  lemma MuxerGetsAcceptedPackets(
      configs: seq<StreamConfig>, muxTimeBases: seq<Rational>, exitOnError: bool, events: seq<Event>, i: nat)
    requires Setup(configs, muxTimeBases) && i < |configs|
    ensures var f := Run(InitialFile(configs, muxTimeBases, exitOnError), events);
      && i < |f.streams| && f.configs == configs
      && var admitted := Admitted(configs[i], Written(events, i));
         && Project(f.muxed, i) <= Delivered(configs[i], f.streams[i].muxTimeBase, admitted)
         && (!f.exited ==>
               if f.headerWritten then
                 f.streams[i].queue == []
                 && Project(f.muxed, i) == Delivered(configs[i], f.streams[i].muxTimeBase, admitted)
               else f.streams[i].queue == admitted && Project(f.muxed, i) == [])
  {
    InitialInv(configs, muxTimeBases, exitOnError);
    var f0 := InitialFile(configs, muxTimeBases, exitOnError);
    RunInv(f0, events);
    RunAccepts(f0, events);
    var f := Run(f0, events);
    var got, s, admitted := Project(f.muxed, i), f.streams[i], Admitted(configs[i], Written(events, i));
    assert StreamAccepts(configs[i], s, admitted, f.exited);
    assert StreamLoose(configs[i], s, got);
    GotFirst(configs[i], s, got, admitted);
    if !f.exited {
      assert StreamInv(configs[i], s, got);
      if f.headerWritten {
        assert s.accepted[..|got|] == s.accepted;
      } else {
        ProjectEmpty(i);
        assert s.accepted[0..] == s.accepted;
      }
    }
  }

  lemma ProjectEmpty(i: nat)
    ensures Project([], i) == []
  {
  }

  /** In every run a queue keeps its bound and frame_number never exceeds the number of packets below the frame limit;
      until the program ends it is that number. */
  lemma CountsAndCapacity(
      configs: seq<StreamConfig>, muxTimeBases: seq<Rational>, exitOnError: bool, events: seq<Event>, i: nat)
    requires Setup(configs, muxTimeBases) && i < |configs|
    ensures var f := Run(InitialFile(configs, muxTimeBases, exitOnError), events);
      && i < |f.streams| && f.configs == configs
      && |f.streams[i].queue| <= f.streams[i].capacity <= Max(8, configs[i].maxQueue)
      && var admitted := Admitted(configs[i], Written(events, i));
         configs[i].counted ==>
           f.streams[i].frameNumber <= |admitted| && (!f.exited ==> f.streams[i].frameNumber == |admitted|)
  {
    InitialInv(configs, muxTimeBases, exitOnError);
    var f0 := InitialFile(configs, muxTimeBases, exitOnError);
    RunInv(f0, events);
    RunAccepts(f0, events);
    var f := Run(f0, events);
    assert StreamLoose(configs[i], f.streams[i], Project(f.muxed, i));
    assert StreamAccepts(configs[i], f.streams[i], Admitted(configs[i], Written(events, i)), f.exited);
  }

  // ------------------------------------------------------------------------------------ what ends the program

  /** A packet written to a stream ends the program if and only if it is within the frame limit, and either the muxer is
      not initialised and the queue has reached its bound, or the muxer gets timestamps, its dts goes back, and such
      errors end the program. */
  lemma WriteEndsIff(f: FileState, i: nat, p: Packet)
    requires Inv(f) && i < |f.streams| && !f.exited
    ensures var c, s := f.configs[i], f.streams[i];
      Write(f, i, p).exited <==>
        && (c.counted ==> s.frameNumber < c.maxFrames)
        && if f.headerWritten then
             && f.exitOnError && c.rules.timestamped
             && !Follows(c.rules, s.lastMuxDts, Uninvert(s.lastMuxDts, Prepared(c, s.muxTimeBase, p)).dts)
           else |s.queue| >= Max(8, c.maxQueue)
  {
    assert StreamInv(f.configs[i], f.streams[i], Project(f.muxed, i));
  }

  // ------------------------------------------------------------------------------------- how exact timestamps are

  /** A timestamp in another time base, within half a tick; absent exactly if it was absent. */
  ghost predicate NearOption(a: Option<int>, from: Rational, b: Option<int>, to: Rational) {
    && (a.Some? <==> b.Some?)
    && (a.Some? ==> Near(a.value, from, b.value, to))
  }

  ghost predicate NearStamp(a: Stamp, from: Rational, b: Stamp, to: Rational) {
    NearOption(a.pts, from, b.pts, to) && NearOption(a.dts, from, b.dts, to)
  }

  lemma RescaledIsNear(a: Stamp, from: Rational, to: Rational)
    requires from.Positive() && to.Positive()
    ensures NearStamp(a, from, RescaleStamp(a, from, to), to)
  {
    if a.pts.Some? {
      RescaleQIsNearest(a.pts.value, from, to);
    }
    if a.dts.Some? {
      RescaleQIsNearest(a.dts.value, from, to);
    }
  }

  /** What the muxer takes as it is: any packet if it takes no timestamps, else one whose dts is at most its pts and
      goes on from the dts before. */
  ghost predicate TakenAsIs(rules: Rules, last: Option<int>, s: Stamp) {
    rules.timestamped ==> !Inverted(s) && Follows(rules, last, s.dts)
  }

  /** A packet's own timestamps, as far as the stream passes any on. */
  function Own(c: StreamConfig, p: Packet): Stamp { if c.unstamped then Stamp(None, None) else p.stamp }

  /** A packet reaches the muxer with timestamps within half a tick of its own, if these, at the nearest ticks, are
      taken as they are. */
  lemma DeliveredIsNear(c: StreamConfig, muxTimeBase: Rational, ps: seq<Packet>, k: nat) returns (near: Stamp)
    requires c.timeBase.Positive() && muxTimeBase.Positive() && k < |ps|
    ensures NearStamp(Own(c, ps[k]), muxTimeBase, near, c.timeBase)
    ensures var out := Delivered(c, muxTimeBase, ps);
      TakenAsIs(c.rules, LastOf(out[..k]), near) <==> out[k].stamp == near
  {
    near := RescaleStamp(Own(c, ps[k]), muxTimeBase, c.timeBase);
    var repaired := RepairAll(c.rules, PreparedAll(c, muxTimeBase, ps));
    var out := Delivered(c, muxTimeBase, ps);
    RescaledIsNear(Own(c, ps[k]), muxTimeBase, c.timeBase);
    RepairAllAt(c.rules, PreparedAll(c, muxTimeBase, ps), k);
    assert LastOf(out[..k]) == LastDts(repaired[..k]);
    UnchangedIff(c.rules, LastDts(repaired[..k]), near);
  }

  /** Packets with dts at most pts, whose dts never falls. */
  ghost predicate Orderly(ps: seq<Packet>) {
    && (forall k :: 0 <= k < |ps| ==>
          ps[k].stamp.pts.Some? && ps[k].stamp.dts.Some? && ps[k].stamp.dts.value <= ps[k].stamp.pts.value)
    && (forall j, k :: 0 <= j < k < |ps| ==> ps[j].stamp.dts.value <= ps[k].stamp.dts.value)
  }

  /** An orderly stream for a muxer that takes equal timestamps is only rescaled: every timestamp ends up within half a
      tick of where it was. */
  lemma {:induction false} OrderlyIsOnlyRescaled(c: StreamConfig, muxTimeBase: Rational, ps: seq<Packet>)
    requires c.timeBase.Positive() && muxTimeBase.Positive() && !c.unstamped && !c.rules.strict && Orderly(ps)
    ensures forall k :: 0 <= k < |ps| ==>
      NearStamp(ps[k].stamp, muxTimeBase, Delivered(c, muxTimeBase, ps)[k].stamp, c.timeBase)
  {
    var stamps := PreparedAll(c, muxTimeBase, ps);
    forall i | 0 <= i < |stamps|
      ensures !Inverted(stamps[i]) && Follows(c.rules, LastDts(stamps[..i]), stamps[i].dts)
    {
      RescaleQIsMonotone(ps[i].stamp.dts.value, ps[i].stamp.pts.value, muxTimeBase, c.timeBase);
      if i > 0 {
        RescaleQIsMonotone(ps[i - 1].stamp.dts.value, ps[i].stamp.dts.value, muxTimeBase, c.timeBase);
        assert stamps[..i][i - 1] == stamps[i - 1];
      }
    }
    StreamUnchangedIff(c.rules, stamps);
    forall k | 0 <= k < |ps|
      ensures NearStamp(ps[k].stamp, muxTimeBase, Delivered(c, muxTimeBase, ps)[k].stamp, c.timeBase)
    {
      RescaledIsNear(ps[k].stamp, muxTimeBase, c.timeBase);
    }
  }

  /** In every run, what the muxer has of a stream whose admitted packets are orderly is within half a tick of them. */
  lemma MuxedTimestampsAreNear(
      configs: seq<StreamConfig>, muxTimeBases: seq<Rational>, exitOnError: bool, events: seq<Event>, i: nat, k: nat)
    requires Setup(configs, muxTimeBases) && i < |configs| && !configs[i].unstamped && !configs[i].rules.strict
    requires Orderly(Admitted(configs[i], Written(events, i)))
    requires k < |Project(Run(InitialFile(configs, muxTimeBases, exitOnError), events).muxed, i)|
    ensures var f := Run(InitialFile(configs, muxTimeBases, exitOnError), events);
      var admitted := Admitted(configs[i], Written(events, i));
      && k < |admitted| && i < |f.streams| && Project(f.muxed, i)[k].id == admitted[k].id
      && NearStamp(admitted[k].stamp, f.streams[i].muxTimeBase, Project(f.muxed, i)[k].stamp, configs[i].timeBase)
  {
    MuxerGetsAcceptedPackets(configs, muxTimeBases, exitOnError, events, i);
    var f := Run(InitialFile(configs, muxTimeBases, exitOnError), events);
    var admitted := Admitted(configs[i], Written(events, i));
    OrderlyIsOnlyRescaled(configs[i], f.streams[i].muxTimeBase, admitted);
    assert Project(f.muxed, i)[k] == Delivered(configs[i], f.streams[i].muxTimeBase, admitted)[k];
  }
}
