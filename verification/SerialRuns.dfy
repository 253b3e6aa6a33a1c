/** What ffplay's decoder gets out of the queue, gives its codec, and returns: histories read off the steps of a run. */
module SerialRuns {
  import opened Wrappers
  import opened PacketQueues
  import opened SerialProtocol

  /** The state that a run leads to. */
  function At(kind: Kind, acts: seq<Action>): State
    requires Run(Init(kind), acts).Some?
  {
    Run(Init(kind), acts).value
  }

  lemma RunSplits(kind: Kind, acts: seq<Action>)
    requires acts != [] && Run(Init(kind), acts).Some?
    ensures var front, last := acts[..|acts| - 1], acts[|acts| - 1];
      Run(Init(kind), front).Some? && Next(At(kind, front), last) == Some(At(kind, acts))
  {
  }

  // --------------------------------------------------------------------------------- audio and video: the codec's view

  /** A call of the codec: a packet sent and taken, a flush, or an answer with the pkt_serial it came under. */
  datatype CodecCall = Sent(e: Entry) | Flushed | Got(answer: Answer, serial: int)

  /** The codec calls of one step of an audio or video decoder. */
  function CallsOf(s: State, a: Action): seq<CodecCall> {
    match a
    case FlushCodec => [Flushed]
    case SendPacket(accepted) => if accepted then [Sent(s.pkt)] else []
    case Drain(answer) => if s.q.aborted then [] else [Got(answer, s.pktSerial)]
    case _ => []
  }

  ghost function Log(acts: seq<Action>): seq<CodecCall>
    requires Run(Init(AudioVideo), acts).Some?
    decreases |acts|
  {
    if acts == [] then []
    else
      RunSplits(AudioVideo, acts);
      var front := acts[..|acts| - 1];
      Log(front) + CallsOf(At(AudioVideo, front), acts[|acts| - 1])
  }

  predicate IsFrame(call: CodecCall) { call.Got? && call.answer.Frame? }

  predicate IsEnd(call: CodecCall) { call.Got? && call.answer.Eof? }

  /** The packets sent since the codec was last flushed, which it also is at the end of the stream. */
  function Inside(log: seq<CodecCall>): seq<Entry> {
    if log == [] then [] else InsideNext(Inside(log[..|log| - 1]), log[|log| - 1])
  }

  function InsideNext(inside: seq<Entry>, call: CodecCall): seq<Entry> {
    if call.Sent? then inside + [call.e] else if call.Flushed? || IsEnd(call) then [] else inside
  }

  /** For each frame that the codec gave, the packets it was built from and the pkt_serial of the answer. */
  function FramesGot(log: seq<CodecCall>): seq<(seq<Entry>, int)> {
    if log == [] then []
    else
      var front, last := log[..|log| - 1], log[|log| - 1];
      if IsFrame(last) then FramesGot(front) + [(Inside(front), last.serial)] else FramesGot(front)
  }

  /** The serial under which the stream ended, if it has ended since the codec was last flushed; 0 otherwise. */
  function Ended(log: seq<CodecCall>): int {
    if log == [] || log[|log| - 1].Flushed? then 0
    else if IsEnd(log[|log| - 1]) then log[|log| - 1].serial
    else Ended(log[..|log| - 1])
  }

  lemma LogNext(log: seq<CodecCall>, call: CodecCall)
    ensures Inside(log + [call]) == InsideNext(Inside(log), call)
    ensures FramesGot(log + [call])
      == if IsFrame(call) then FramesGot(log) + [(Inside(log), call.serial)] else FramesGot(log)
    ensures Ended(log + [call])
      == if call.Flushed? then 0 else if IsEnd(call) then call.serial else Ended(log)
  {
    assert (log + [call])[..|log|] == log;
  }

  /** What a returned frame is, given the codec's frame. */
  function OutputOf(frame: (seq<Entry>, int)): Output { Output(frame.0, frame.1, false) }

  /** The decoder's state is what its codec calls say. */
  ghost predicate AsLogged(s: State, log: seq<CodecCall>) {
    && s.fed == Inside(log) && s.finished == Ended(log)
    && |s.outputs| == |FramesGot(log)|
    && forall i :: 0 <= i < |s.outputs| ==> s.outputs[i] == OutputOf(FramesGot(log)[i])
  }

  lemma StepIsLogged(s: State, a: Action, log: seq<CodecCall>)
    requires s.kind.AudioVideo? && Inv(s) && AsLogged(s, log) && Next(s, a).Some?
    ensures AsLogged(Next(s, a).value, log + CallsOf(s, a))
  {
    var calls := CallsOf(s, a);
    if calls == [] {
      assert log + calls == log;
    } else {
      LogNext(log, calls[0]);
      if a.Drain? && a.answer.Frame? {
        NotLate(s);
      }
    }
  }

  /** An audio or video decoder has no frame of an earlier serial on its way. */
  lemma NotLate(s: State)
    requires s.kind.AudioVideo? && Inv(s) && s.pc.Draining?
    ensures !s.missed
  {
  }

  lemma {:induction false} RunIsLogged(acts: seq<Action>)
    requires Run(Init(AudioVideo), acts).Some?
    ensures AsLogged(At(AudioVideo, acts), Log(acts))
    decreases |acts|
  {
    if acts != [] {
      var front := acts[..|acts| - 1];
      RunSplits(AudioVideo, acts);
      RunIsLogged(front);
      RunInv(AudioVideo, front);
      StepIsLogged(At(AudioVideo, front), acts[|acts| - 1], Log(front));
    }
  }

  /** In every run an audio or video decoder returns exactly the frames its codec gives it, one for one: the i-th one is
      built from the packets sent since the codec was last flushed, and under the serial of all of them. */
  lemma EveryFrameIsReturned(acts: seq<Action>, i: nat)
    requires Run(Init(AudioVideo), acts).Some?
    ensures |At(AudioVideo, acts).outputs| == |FramesGot(Log(acts))|
    ensures i < |FramesGot(Log(acts))| ==>
      var o := At(AudioVideo, acts).outputs[i];
      o.builtFrom == FramesGot(Log(acts))[i].0 && AllAre(FramesGot(Log(acts))[i].0, o.serial)
  {
    RunIsLogged(acts);
    if i < |FramesGot(Log(acts))| {
      AudioVideoFramesAgree(acts, i);
    }
  }

  /** `finished` is the serial under which the codec said that the stream ended, until the codec is flushed. */
  lemma FinishedIsEnd(acts: seq<Action>)
    requires Run(Init(AudioVideo), acts).Some?
    ensures At(AudioVideo, acts).finished == Ended(Log(acts))
  {
    RunIsLogged(acts);
  }

  // ---------------------------------------------------------------------- any decoder: what becomes of packets

  /** What becomes of a packet: the codec decodes it, it flushes the codec, or it is thrown away because the queue's
      serial was another one when it was tested. */
  datatype Fate = Decoded | FlushesCodec | Outdated

  /** The packet, if any, that leaves the decoder's hands at a step.  A null packet with which a subtitle was decoded is
      kept to be used again. */
  function LeavesAt(s: State, a: Action): seq<(Entry, Fate)> {
    match a
    case TestFetched => if s.q.serial != s.pkt.serial then [(s.pkt, Outdated)] else []
    case FlushCodec => [(s.pkt, FlushesCodec)]
    case SendPacket(accepted) => if accepted then [(s.pkt, Fate.Decoded)] else []
    case DecodeSubtitle(failed, gotFrame) =>
      if !failed && gotFrame && s.pkt.pkt.NullPacket? then [] else [(s.pkt, Fate.Decoded)]
    case _ => []
  }

  /** The packet, if any, that the decoder takes out of the queue at a step. */
  function FetchedAt(s: State, a: Action): seq<Entry> {
    if a.Fetch? && s.pending.None? && !s.q.aborted && s.q.entries != [] then [s.q.entries[0]] else []
  }

  ghost function Settled(kind: Kind, acts: seq<Action>): seq<(Entry, Fate)>
    requires Run(Init(kind), acts).Some?
    decreases |acts|
  {
    if acts == [] then []
    else
      RunSplits(kind, acts);
      var front := acts[..|acts| - 1];
      Settled(kind, front) + LeavesAt(At(kind, front), acts[|acts| - 1])
  }

  ghost function FetchedBy(kind: Kind, acts: seq<Action>): seq<Entry>
    requires Run(Init(kind), acts).Some?
    decreases |acts|
  {
    if acts == [] then []
    else
      RunSplits(kind, acts);
      var front := acts[..|acts| - 1];
      FetchedBy(kind, front) + FetchedAt(At(kind, front), acts[|acts| - 1])
  }

  function Entries(settled: seq<(Entry, Fate)>): (r: seq<Entry>)
    ensures |r| == |settled|
  {
    seq(|settled|, i requires 0 <= i < |settled| => settled[i].0)
  }

  lemma EntriesJoin(a: seq<(Entry, Fate)>, b: seq<(Entry, Fate)>)
    ensures Entries(a + b) == Entries(a) + Entries(b)
  {
  }

  /** The packet that the decoder holds: just fetched, or pending. */
  function InHand(s: State): seq<Entry> {
    if s.pc.CheckFetched? || s.pc.Feeding? then [s.pkt] else if s.pending.Some? then [s.pending.value] else []
  }

  ghost predicate OneHand(s: State) { s.pc.CheckFetched? || s.pc.Feeding? ==> s.pending.None? }

  lemma FetchConserves(s: State)
    requires OneHand(s) && Next(s, Fetch).Some?
    ensures OneHand(Next(s, Fetch).value)
    ensures InHand(s) + FetchedAt(s, Fetch) == InHand(Next(s, Fetch).value)
  {
  }

  /** At any other step the packet in hand stays there or its fate is settled. */
  lemma OtherStepConserves(s: State, a: Action)
    requires CodecInv(s) && OneHand(s) && Next(s, a).Some? && !a.Fetch?
    ensures OneHand(Next(s, a).value)
    ensures if LeavesAt(s, a) == [] then InHand(Next(s, a).value) == InHand(s)
            else InHand(s) == Entries(LeavesAt(s, a)) && InHand(Next(s, a).value) == []
  {
  }

  lemma StepConserves(s: State, a: Action)
    requires CodecInv(s) && OneHand(s) && Next(s, a).Some?
    ensures OneHand(Next(s, a).value)
    ensures InHand(s) + FetchedAt(s, a) == Entries(LeavesAt(s, a)) + InHand(Next(s, a).value)
  {
    if a.Fetch? {
      FetchConserves(s);
      assert Entries([]) + InHand(Next(s, a).value) == InHand(Next(s, a).value);
    } else {
      OtherStepConserves(s, a);
      assert InHand(s) + [] == InHand(s) && Entries([]) + InHand(s) == InHand(s);
    }
  }

  lemma Rearranged(settled: seq<Entry>, hand: seq<Entry>, fetched: seq<Entry>, left: seq<Entry>, next: seq<Entry>)
    requires hand + fetched == left + next
    ensures settled + hand + fetched == settled + left + next
  {
    assert settled + hand + fetched == settled + (hand + fetched);
    assert settled + left + next == settled + (left + next);
  }

  /** No packet is lost, doubled or overtaken between the queue and the codec: in every run the packets taken out of the
      queue are, in their order, those whose fate is settled and then the one that the decoder holds. */
  lemma {:induction false} PacketsAreConserved(kind: Kind, acts: seq<Action>)
    requires Run(Init(kind), acts).Some?
    ensures OneHand(At(kind, acts))
    ensures FetchedBy(kind, acts) == Entries(Settled(kind, acts)) + InHand(At(kind, acts))
    decreases |acts|
  {
    if acts != [] {
      var front, last := acts[..|acts| - 1], acts[|acts| - 1];
      RunSplits(kind, acts);
      PacketsAreConserved(kind, front);
      RunInv(kind, front);
      var s := At(kind, front);
      StepConserves(s, last);
      EntriesJoin(Settled(kind, front), LeavesAt(s, last));
      Rearranged(Entries(Settled(kind, front)), InHand(s), FetchedAt(s, last), Entries(LeavesAt(s, last)),
                 InHand(At(kind, acts)));
    }
  }

  /** A packet that has passed its serial test is of the current serial as the test saw it, and is not thrown away: the
      next step that the decoder takes decodes it, flushes the codec for it, or keeps it. */
  lemma TestedIsUsed(s: State, a: Action)
    requires Inv(s) && OneHand(s) && s.pc.Feeding? && Next(s, a).Some? && !ReaderStep(a)
    ensures var t := Next(s, a).value;
      LeavesAt(s, a) == [(s.pkt, Fate.Decoded)] || LeavesAt(s, a) == [(s.pkt, FlushesCodec)] || t.pending == Some(s.pkt)
    ensures LeavesAt(s, a) == [(s.pkt, FlushesCodec)] <==> s.pkt.pkt.FlushPacket?
  {
  }

  /** The decoder can go on in every state, but for waiting at an empty queue, nothing being kept, until the abort. */
  lemma DecoderWaitsIff(s: State)
    requires Inv(s) && OneHand(s) && !s.pc.Idle?
    ensures (forall a :: !ReaderStep(a) ==> Next(s, a).None?) <==>
      s.pc.Fetching? && s.pending.None? && s.q.entries == [] && !s.q.aborted
  {
    var a := Possible(s);
    if Next(s, a).Some? {
      assert !ReaderStep(a);
    }
  }

  /** The step that fits where the decoder stands. */
  function Possible(s: State): Action {
    match s.pc
    case Idle => Call
    case CheckSerial => TestSerial
    case Draining => Drain(Frame)
    case Fetching => Fetch
    case CheckFetched => TestFetched
    case Feeding =>
      if s.pkt.pkt.FlushPacket? then FlushCodec
      else if s.kind.AudioVideo? then SendPacket(true) else DecodeSubtitle(false, true)
  }

  /** Once the queue is aborted, a call that drains or fetches returns without a frame; but a packet kept is tested. */
  lemma AbortEndsCall(s: State, answer: Answer)
    requires s.q.aborted
    ensures s.pc.Draining? ==> Next(s, Drain(answer)) == Some(s.(pc := Idle))
    ensures s.pc.Fetching? && s.pending.None? ==> Next(s, Fetch) == Some(s.(pc := Idle))
  {
  }

  /** A data packet of the current serial goes from the queue through the codec into the frame that the codec then
      gives, and the frame out to the caller. */
  lemma PacketBecomesFrame(s: State) returns (t: State)
    requires Inv(s) && s.kind.AudioVideo? && s.pc.Fetching? && s.pending.None? && !s.q.aborted
    requires s.q.entries != [] && s.q.entries[0].pkt.DataPacket? && s.q.entries[0].serial == s.q.serial
    ensures Run(s, [Fetch, TestFetched, SendPacket(true), TestSerial, Drain(Frame)]) == Some(t)
    ensures t.pc.Idle? && t.outputs == s.outputs + [Output(s.fed + [s.q.entries[0]], s.q.serial, s.missed)]
    ensures t.q == s.q.(entries := s.q.entries[1..])
  {
    var acts := [Fetch, TestFetched, SendPacket(true), TestSerial, Drain(Frame)];
    assert acts[..4] == [Fetch, TestFetched, SendPacket(true), TestSerial];
    assert acts[..4][..3] == [Fetch, TestFetched, SendPacket(true)];
    assert acts[..4][..3][..2] == [Fetch, TestFetched] && acts[..4][..3][..2][..1] == [Fetch];
    assert [Fetch][..0] == [] && Run(s, []) == Some(s);
    var fetched := Next(s, Fetch).value;
    assert Run(s, [Fetch]) == Some(fetched);
    assert Run(s, [Fetch, TestFetched]) == Next(fetched, TestFetched) == Some(fetched.(pc := Feeding));
    var sent := fetched.(pc := CheckSerial, fed := s.fed + [s.q.entries[0]]);
    assert Run(s, acts[..4][..3]) == Next(fetched.(pc := Feeding), SendPacket(true)) == Some(sent);
    assert Run(s, acts[..4]) == Next(sent, TestSerial) == Some(sent.(pc := Draining));
    t := Next(sent.(pc := Draining), Drain(Frame)).value;
  }

  // ------------------------------------------------------------------------------------------------------- the queue

  /** What a step puts into the queue, stamped. */
  function QueuedAt(s: State, a: Action): seq<Entry> {
    match a
    case PutPacket(p) => if s.q.aborted then [] else [Entry(p, s.q.serial)]
    case SeekPut => if s.q.aborted then [] else [Entry(FlushPacket, s.q.serial + 1)]
    case _ => []
  }

  /** What a step takes out of it: the decoder the oldest packet, a seek all of them. */
  function TakenAt(s: State, a: Action): seq<Entry> {
    if a.SeekFlush? then s.q.entries else FetchedAt(s, a)
  }

  ghost function QueuedBy(kind: Kind, acts: seq<Action>): seq<Entry>
    requires Run(Init(kind), acts).Some?
    decreases |acts|
  {
    if acts == [] then [Entry(FlushPacket, 1)]
    else
      RunSplits(kind, acts);
      var front := acts[..|acts| - 1];
      QueuedBy(kind, front) + QueuedAt(At(kind, front), acts[|acts| - 1])
  }

  ghost function TakenBy(kind: Kind, acts: seq<Action>): seq<Entry>
    requires Run(Init(kind), acts).Some?
    decreases |acts|
  {
    if acts == [] then []
    else
      RunSplits(kind, acts);
      var front := acts[..|acts| - 1];
      TakenBy(kind, front) + TakenAt(At(kind, front), acts[|acts| - 1])
  }

  lemma QueueStepConserves(s: State, a: Action)
    requires Next(s, a).Some?
    ensures s.q.entries + QueuedAt(s, a) == TakenAt(s, a) + Next(s, a).value.q.entries
  {
    if a.SeekFlush? {
      assert s.q.entries + [] == s.q.entries == TakenAt(s, a) + [];
    } else if QueuedAt(s, a) == [] {
      assert s.q.entries + [] == s.q.entries;
      if FetchedAt(s, a) != [] {
        assert s.q.entries == [s.q.entries[0]] + s.q.entries[1..];
      }
    }
  }

  /** Every packet put into the queue since its start is, in order, taken out of it or still there. */
  lemma {:induction false} QueueIsConserved(kind: Kind, acts: seq<Action>)
    requires Run(Init(kind), acts).Some?
    ensures QueuedBy(kind, acts) == TakenBy(kind, acts) + At(kind, acts).q.entries
    decreases |acts|
  {
    if acts == [] {
      assert Init(kind).q.entries == [Entry(FlushPacket, 1)];
    } else {
      var front, last := acts[..|acts| - 1], acts[|acts| - 1];
      RunSplits(kind, acts);
      QueueIsConserved(kind, front);
      var s := At(kind, front);
      QueueStepConserves(s, last);
      Rearranged(TakenBy(kind, front), s.q.entries, QueuedAt(s, last), TakenAt(s, last), At(kind, acts).q.entries);
    }
  }

  predicate IsAbort(a: Action) { a.AbortRequest? }

  predicate IsSeek(a: Action) { a.SeekPut? }

  function Seeks(acts: seq<Action>): nat {
    if acts == [] then 0 else Seeks(acts[..|acts| - 1]) + if IsSeek(acts[|acts| - 1]) then 1 else 0
  }

  /** The queue is aborted from the first request on and for good; until then its serial is one more than the number of
      seeks that have put their flush packet. */
  lemma QueueCountsSeeks(kind: Kind, acts: seq<Action>)
    requires Run(Init(kind), acts).Some?
    ensures At(kind, acts).q.aborted <==> exists i :: 0 <= i < |acts| && IsAbort(acts[i])
    ensures !At(kind, acts).q.aborted ==> At(kind, acts).q.serial == 1 + Seeks(acts)
  {
    AbortedByRequest(kind, acts);
    if !At(kind, acts).q.aborted {
      SerialCountsSeeks(kind, acts);
    }
  }

  lemma StepAborts(s: State, a: Action)
    requires Next(s, a).Some?
    ensures Next(s, a).value.q.aborted <==> s.q.aborted || IsAbort(a)
  {
  }

  lemma {:induction false} AbortedByRequest(kind: Kind, acts: seq<Action>)
    requires Run(Init(kind), acts).Some?
    ensures At(kind, acts).q.aborted <==> exists i :: 0 <= i < |acts| && IsAbort(acts[i])
    decreases |acts|
  {
    if acts != [] {
      var front, last := acts[..|acts| - 1], acts[|acts| - 1];
      RunSplits(kind, acts);
      AbortedByRequest(kind, front);
      StepAborts(At(kind, front), last);
      RequestBefore(acts, front, last);
    }
  }

  lemma RequestBefore(acts: seq<Action>, front: seq<Action>, last: Action)
    requires acts == front + [last]
    ensures (exists i :: 0 <= i < |acts| && IsAbort(acts[i]))
      <==> (exists i :: 0 <= i < |front| && IsAbort(front[i])) || IsAbort(last)
  {
    if i :| 0 <= i < |front| && IsAbort(front[i]) {
      assert IsAbort(acts[i]);
    }
    assert acts[|front|] == last;
  }

  lemma StepCounts(s: State, a: Action)
    requires Next(s, a).Some? && !Next(s, a).value.q.aborted
    ensures !s.q.aborted && Next(s, a).value.q.serial == s.q.serial + if IsSeek(a) then 1 else 0
  {
  }

  lemma {:induction false} SerialCountsSeeks(kind: Kind, acts: seq<Action>)
    requires Run(Init(kind), acts).Some? && !At(kind, acts).q.aborted
    ensures At(kind, acts).q.serial == 1 + Seeks(acts)
    decreases |acts|
  {
    if acts != [] {
      RunSplits(kind, acts);
      StepCounts(At(kind, acts[..|acts| - 1]), acts[|acts| - 1]);
      SerialCountsSeeks(kind, acts[..|acts| - 1]);
    }
  }

  // ------------------------------------------------------------------------------------------------------- subtitles

  predicate Harmless(a: Action) { a.PutPacket? || a.SeekFlush? }

  /** While the reader neither seeks to the end nor aborts, serial and abort flag of the queue stay. */
  lemma {:induction false} HarmlessRun(s: State, acts: seq<Action>)
    requires Run(s, acts).Some? && forall i :: 0 <= i < |acts| ==> Harmless(acts[i])
    ensures var t := Run(s, acts).value; t == s.(q := t.q, reader := t.reader)
    ensures Run(s, acts).value.q.serial == s.q.serial && (Run(s, acts).value.q.aborted <==> s.q.aborted)
    decreases |acts|
  {
    if acts != [] {
      HarmlessRun(s, acts[..|acts| - 1]);
    }
  }

  /** What a decoding leads to. */
  ghost predicate Answered(s0: State, failed: bool, gotFrame: bool, t: State) {
    if !failed && gotFrame then
      t.pc.Idle? && t.outputs == s0.outputs + [Output(s0.fed + [s0.pkt], s0.pktSerial, false)]
    else if !failed && s0.pkt.pkt.NullPacket? then
      t.pc.Idle? && t.outputs == s0.outputs && t.finished == s0.pktSerial && t.fed == []
    else t.pc.Fetching? && t.outputs == s0.outputs && t.finished == s0.finished
  }

  /** The state right after a decoding, but for where the decoder stands and what the reader has done since. */
  lemma AfterDecoding(s0: State, failed: bool, gotFrame: bool, s: State, answer: Answer)
    requires Next(s0, DecodeSubtitle(failed, gotFrame)).Some? && s.pc.Draining? && !s.q.aborted
    requires s == Next(s0, DecodeSubtitle(failed, gotFrame)).value.(q := s.q, reader := s.reader, pc := s.pc)
    ensures Next(s, Drain(answer)).Some? && Answered(s0, failed, gotFrame, Next(s, Drain(answer)).value)
  {
  }

  lemma TestPasses(s: State, t: State)
    requires Next(s, TestSerial) == Some(t) && s.q.serial == s.pktSerial
    ensures t == s.(pc := Draining)
  {
  }

  lemma DecodingKeeps(s0: State, failed: bool, gotFrame: bool, s1: State)
    requires Next(s0, DecodeSubtitle(failed, gotFrame)) == Some(s1)
    ensures s1.q == s0.q && s1.pktSerial == s0.pktSerial
  {
  }

  /** What a decoding of a subtitle leads to, if no seek and no abort comes in between: the subtitle is returned, built
      from all packets since the flush; the stream ends under pkt_serial if the null packet gave none; and otherwise
      the decoder goes on to the next packet. */
  lemma DecodedSubtitleIsReturned(
      s0: State, failed: bool, gotFrame: bool, s1: State, wait: seq<Action>, s2: State, s3: State, wait': seq<Action>,
      s4: State, answer: Answer)
    requires Next(s0, DecodeSubtitle(failed, gotFrame)) == Some(s1) && Run(s1, wait) == Some(s2)
    requires Next(s2, TestSerial) == Some(s3) && Run(s3, wait') == Some(s4)
    requires (forall i :: 0 <= i < |wait| ==> Harmless(wait[i])) && forall i :: 0 <= i < |wait'| ==> Harmless(wait'[i])
    requires s0.q.serial == s0.pktSerial && !s0.q.aborted
    ensures Next(s4, Drain(answer)).Some? && Answered(s0, failed, gotFrame, Next(s4, Drain(answer)).value)
  {
    DecodingKeeps(s0, failed, gotFrame, s1);
    HarmlessRun(s1, wait);
    TestPasses(s2, s3);
    HarmlessRun(s3, wait');
    AfterDecoding(s0, failed, gotFrame, s4, answer);
  }
}
