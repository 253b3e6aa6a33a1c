/** When the muxer is initialised, and the time base each packet is rescaled from. */
module MuxTimeBases {
  import opened Mathematics
  import opened MuxQueue
  import opened MuxQueueRuns

  ghost predicate SameBases(f: FileState, g: FileState) {
    && g.configs == f.configs && |g.streams| == |f.streams| == |f.configs|
    && forall j :: 0 <= j < |f.streams| ==> g.streams[j].muxTimeBase == f.streams[j].muxTimeBase
  }

  lemma DeliverKeepsBases(f: FileState, i: nat, p: Packet)
    requires WellFormed(f) && i < |f.streams|
    ensures WellFormed(Deliver(f, i, p)) && SameBases(f, Deliver(f, i, p)) && SameOthers(f, Deliver(f, i, p), i)
    ensures Deliver(f, i, p).streams[i].queue == f.streams[i].queue
  {
    DeliverKeepsRest(f, i, p);
  }

  lemma UnqueueKeepsBases(f: FileState, i: nat)
    requires WellFormed(f) && i < |f.streams| && f.streams[i].queue != []
    ensures var g := Unqueue(f, i);
      WellFormed(g) && SameBases(f, g) && SameOthers(f, g, i) && g.streams[i].queue == f.streams[i].queue[1..]
  {
    var s := f.streams[i];
    DeliverKeepsBases(f.(streams := f.streams[i := s.(queue := s.queue[1..])]), i, s.queue[0]);
  }

  lemma {:induction false} FlushStreamKeepsBases(f: FileState, i: nat)
    requires WellFormed(f) && i < |f.streams|
    ensures SameBases(f, FlushStream(f, i)) && SameOthers(f, FlushStream(f, i), i)
    decreases |f.streams[i].queue|
  {
    FlushStreamUnfolds(f, i);
    if !f.exited && f.streams[i].queue != [] {
      UnqueueKeepsBases(f, i);
      FlushStreamKeepsBases(Unqueue(f, i), i);
    }
  }

  /** Stream j before and after the flushing turns from i on. */
  ghost predicate BaseMoves(f: FileState, g: FileState, i: nat, j: nat)
    requires j < |f.streams| && |g.streams| == |f.streams| == |f.configs|
  {
    if i <= j && f.streams[j].queue == [] then
      || g.streams[j].muxTimeBase == f.configs[j].timeBase
      || (g.exited && g.streams[j].muxTimeBase == f.streams[j].muxTimeBase)
    else g.streams[j].muxTimeBase == f.streams[j].muxTimeBase
  }

  lemma FlushTurnMoves(f: FileState, i: nat, j: nat)
    requires WellFormed(f) && i < |f.streams| && j < |f.streams|
    ensures var g := FlushStream(ImproveTimeBase(f, i), i);
      && g.configs == f.configs && (j != i ==> g.streams[j] == f.streams[j])
      && (j == i ==> g.streams[i].muxTimeBase
                       == if f.streams[i].queue == [] then f.configs[i].timeBase else f.streams[i].muxTimeBase)
  {
    FlushStreamKeepsBases(ImproveTimeBase(f, i), i);
  }

  lemma {:induction false} FlushMoves(f: FileState, i: nat, j: nat)
    requires WellFormed(f) && i <= |f.streams| && j < |f.streams|
    ensures FlushFrom(f, i).configs == f.configs && BaseMoves(f, FlushFrom(f, i), i, j)
    decreases |f.streams| - i
  {
    FlushFromUnfolds(f, i);
    if !f.exited && i < |f.streams| {
      FlushTurnMoves(f, i, j);
      FlushMoves(FlushStream(ImproveTimeBase(f, i), i), i + 1, j);
    }
  }

  lemma {:induction false} FlushKeepsHeader(f: FileState, i: nat)
    requires WellFormed(f) && i <= |f.streams|
    ensures FlushFrom(f, i).headerWritten == f.headerWritten
    decreases |f.streams| - i
  {
    FlushFromUnfolds(f, i);
    if !f.exited && i < |f.streams| {
      FlushStreamKeepsHeader(ImproveTimeBase(f, i), i);
      FlushKeepsHeader(FlushStream(ImproveTimeBase(f, i), i), i + 1);
    }
  }

  lemma {:induction false} FlushStreamKeepsHeader(f: FileState, i: nat)
    requires WellFormed(f) && i < |f.streams|
    ensures FlushStream(f, i).headerWritten == f.headerWritten
    decreases |f.streams[i].queue|
  {
    FlushStreamUnfolds(f, i);
    if !f.exited && f.streams[i].queue != [] {
      UnqueueKeepsBases(f, i);
      FlushStreamKeepsHeader(Unqueue(f, i), i);
    }
  }

  /** Initialising a stream writes the header if and only if it was the last one and the muxer takes the header; if the
      muxer does not, the program ends and nothing was muxed. */
  lemma HeaderIsWrittenIff(f: FileState, i: nat, headerOk: bool)
    requires Inv(f) && i < |f.streams| && !f.exited && !f.streams[i].initialized
    ensures var g := InitStream(f, i, headerOk);
      var last := forall j :: 0 <= j < |f.streams| && j != i ==> f.streams[j].initialized;
      && (g.headerWritten <==> last && headerOk)
      && (!g.headerWritten ==> (g.exited <==> last) && g.muxed == [])
  {
    var marked := MarkKeeps(f, i);
    assert AllInitialized(marked) <==> forall j :: 0 <= j < |f.streams| && j != i ==> f.streams[j].initialized;
    FlushKeepsHeader(marked.(headerWritten := true), 0);
  }

  // ----------------------------------------------------------------------------------------------- over a run

  lemma WriteKeepsBases(f: FileState, i: nat, p: Packet)
    requires WellFormed(f) && i < |f.streams|
    ensures SameBases(f, Write(f, i, p)) && Write(f, i, p).headerWritten == f.headerWritten
  {
    if !Refused(f.configs[i], f.streams[i]) && f.headerWritten {
      var g := f.(streams := f.streams[i := Counted(f.configs[i], f.streams[i])]);
      DeliverKeepsBases(Accept(g, i, p), i, p);
    }
  }

  /** A step that does not write the header leaves the time bases alone; one that does gives the muxer's to each stream
      with nothing queued. */
  lemma StepMoves(f: FileState, e: Event, j: nat)
    requires WellFormed(f) && (!f.exited ==> Inv(f)) && j < |f.streams|
    ensures var g := Step(f, e);
      && g.configs == f.configs && |g.streams| == |f.streams| && (f.headerWritten ==> g.headerWritten)
      && if f.headerWritten || !g.headerWritten then g.streams[j].muxTimeBase == f.streams[j].muxTimeBase
         else BaseMoves(f, g, 0, j)
  {
    if !f.exited && e.stream < |f.streams| {
      match e
      case WriteEvent(i, p) => WriteKeepsBases(f, i, p);
      case InitEvent(i, headerOk) =>
        if !f.streams[i].initialized {
          var marked := MarkKeeps(f, i);
          FlushKeepsHeader(marked.(headerWritten := true), 0);
          FlushMoves(marked.(headerWritten := true), 0, j);
        }
    }
  }

  lemma {:induction false} BaseBeforeHeader(f0: FileState, events: seq<Event>, j: nat)
    requires Fresh(f0) && j < |f0.streams|
    ensures var f := Run(f0, events);
      f.configs == f0.configs && |f.streams| == |f0.streams|
      && (!f.headerWritten ==> f.streams[j].muxTimeBase == f0.streams[j].muxTimeBase)
    decreases |events|
  {
    if events != [] {
      var n := |events| - 1;
      BaseBeforeHeader(f0, events[..n], j);
      RunInv(f0, events[..n]);
      StepMoves(Run(f0, events[..n]), events[n], j);
    }
  }

  /** From f on, whose muxer is open, stream j has kept its time base until g. */
  ghost predicate KeepsOpen(f: FileState, g: FileState, j: nat) {
    && f.headerWritten && g.headerWritten && |g.streams| == |f.streams| && j < |f.streams| && (f.exited ==> g.exited)
    && g.streams[j].muxTimeBase == f.streams[j].muxTimeBase
  }

  lemma OpenStays(f: FileState, e: Event, j: nat)
    requires WellFormed(f) && (!f.exited ==> Inv(f)) && j < |f.streams| && f.headerWritten
    ensures KeepsOpen(f, Step(f, e), j)
  {
    StepMoves(f, e, j);
  }

  lemma OpenStaysLonger(f: FileState, g: FileState, h: FileState, j: nat)
    requires KeepsOpen(f, g, j) && KeepsOpen(g, h, j)
    ensures KeepsOpen(f, h, j)
  {
  }

  lemma NextStaysOpen(f0: FileState, front: seq<Event>, e: Event, f: FileState, j: nat)
    requires Fresh(f0) && KeepsOpen(f, Run(f0, front), j)
    ensures KeepsOpen(f, Step(Run(f0, front), e), j)
  {
    var g := Run(f0, front);
    RunInv(f0, front);
    OpenStays(g, e, j);
    OpenStaysLonger(f, g, Step(g, e), j);
  }

  lemma {:induction false} BaseAfterHeader(f0: FileState, events: seq<Event>, n: nat, j: nat, f: FileState)
    requires Fresh(f0) && n <= |events| && f == Run(f0, events[..n]) && f.headerWritten && j < |f.streams|
    ensures KeepsOpen(f, Run(f0, events), j)
    decreases |events|
  {
    if n == |events| {
      assert events[..n] == events;
    } else {
      var front, last := events[..|events| - 1], events[|events| - 1];
      assert front[..n] == events[..n];
      BaseAfterHeader(f0, front, n, j, f);
      NextStaysOpen(f0, front, last, f, j);
    }
  }

  /** All packets of a stream are rescaled from one time base: the encoder's if any packet was queued before the header
      was written, else the muxer's own, which the encoder is then given. */
  lemma TimeBaseIs(
      configs: seq<StreamConfig>, muxTimeBases: seq<Rational>, exitOnError: bool, events: seq<Event>, n: nat, i: nat)
    requires Setup(configs, muxTimeBases) && i < |configs| && n < |events|
    requires var f0 := InitialFile(configs, muxTimeBases, exitOnError);
      && !Run(f0, events[..n]).headerWritten && Run(f0, events[..n + 1]).headerWritten
      && !Run(f0, events).exited
    ensures var f := Run(InitialFile(configs, muxTimeBases, exitOnError), events);
      && i < |f.streams|
      && f.streams[i].muxTimeBase
           == if Admitted(configs[i], Written(events[..n], i)) == [] then configs[i].timeBase else muxTimeBases[i]
  {
    InitialInv(configs, muxTimeBases, exitOnError);
    var f0 := InitialFile(configs, muxTimeBases, exitOnError);
    var before := Run(f0, events[..n]);
    assert events[..n + 1][..n] == events[..n];
    BaseBeforeHeader(f0, events[..n], i);
    RunInv(f0, events[..n]);
    StepMoves(before, events[n], i);
    BaseAfterHeader(f0, events, n + 1, i, Run(f0, events[..n + 1]));
    MuxerGetsAcceptedPackets(configs, muxTimeBases, exitOnError, events[..n], i);
  }
}
