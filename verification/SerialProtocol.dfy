/**
 * Reader and decoder of fftools/ffplay.c as interleaved atomic steps over one packet queue.
 *
 * The reader puts packets and seeks (flush the queue, then put the flush packet, as two separate locked
 * steps).  The decoder is decoder_decode_frame cut at every unlocked read of the queue's serial.  What the
 * codec answers is an oracle: it is part of the action.
 */
module SerialProtocol {
  import opened Wrappers
  import opened PacketQueues

  datatype Kind = AudioVideo | Subtitle

  /** `ret` of decoder_decode_frame: the codec's last answer. */
  datatype Answer = Again | Eof | Frame | Failed

  datatype ReaderPc = Reading | Seeking

  /** CheckSerial is the test before draining, CheckFetched the one after a fetch. */
  datatype DecoderPc = Idle | CheckSerial | Draining | Fetching | CheckFetched | Feeding

  /** A returned frame: the packets it was built from with the serials they were queued with, pkt_serial at the
      return, and whether the serial test that followed its decoding had failed. */
  datatype Output = Output(builtFrom: seq<Entry>, serial: int, late: bool)

  datatype State = State(
    kind: Kind,
    q: QueueState,
    reader: ReaderPc,
    pc: DecoderPc,
    pktSerial: int,
    pending: Option<Entry>,  // packet_pending, the packet with the serial it was queued with
    pkt: Entry,
    finished: int,
    fed: seq<Entry>,     // history: the packets sent to the codec since it was last flushed
    ret: Answer,
    sub: seq<Entry>,     // history: what the decoded subtitle was built from
    missed: bool,        // history: the serial test failed while ret said "frame"
    outputs: seq<Output>)

  datatype Action =
    | PutPacket(p: Packet)
    | SeekFlush
    | SeekPut
    | AbortRequest
    | Call
    | TestSerial
    | Drain(answer: Answer)
    | Fetch
    | TestFetched
    | FlushCodec
    | SendPacket(accepted: bool)
    | DecodeSubtitle(failed: bool, gotFrame: bool)

  function Init(kind: Kind): State {
    State(kind, Start(INITIAL_QUEUE), Reading, Idle, -1, None, Entry(NullPacket, -1), 0, [], Again, [], false, [])
  }

  /** The state after a step, or None where the step cannot be taken. */
  function Next(s: State, a: Action): Option<State> {
    match a
    case PutPacket(p) =>
      if s.reader.Reading? && !p.FlushPacket? then Some(s.(q := Put(s.q, p))) else None
    case SeekFlush =>
      if s.reader.Reading? then Some(s.(q := Flush(s.q), reader := Seeking)) else None
    case SeekPut =>
      if s.reader.Seeking? then Some(s.(q := Put(s.q, FlushPacket), reader := Reading)) else None
    case AbortRequest =>
      Some(s.(q := Abort(s.q)))
    case Call =>
      if s.pc.Idle? then Some(s.(pc := CheckSerial, ret := Again, missed := false)) else None
    case TestSerial =>
      if !s.pc.CheckSerial? then None
      else if s.q.serial == s.pktSerial then Some(s.(pc := Draining))
      else Some(s.(pc := Fetching, missed := s.missed || s.ret.Frame?))
    case Drain(answer) =>
      if !s.pc.Draining? then None
      else if s.q.aborted then Some(s.(pc := Idle))
      else DrainStep(s.(ret := if s.kind.AudioVideo? then answer else s.ret))
    case Fetch =>
      if !s.pc.Fetching? then None
      else if s.pending.Some? then Some(s.(pc := CheckFetched, pkt := s.pending.value, pending := None))
      else if s.q.aborted then Some(s.(pc := Idle))
      else if s.q.entries == [] then None
      else Some(s.(pc := CheckFetched, q := s.q.(entries := s.q.entries[1..]),
                   pkt := s.q.entries[0], pktSerial := s.q.entries[0].serial))
    case TestFetched =>
      if !s.pc.CheckFetched? then None
      else Some(s.(pc := if s.q.serial == s.pktSerial then Feeding else Fetching))
    case FlushCodec =>
      if !s.pc.Feeding? || !s.pkt.pkt.FlushPacket? then None
      else Some(s.(pc := CheckSerial, fed := [], finished := 0))
    case SendPacket(accepted) =>
      if !s.pc.Feeding? || s.pkt.pkt.FlushPacket? || s.kind.Subtitle? then None
      else if accepted then Some(s.(pc := CheckSerial, fed := s.fed + [s.pkt]))
      else Some(s.(pc := CheckSerial, pending := Some(s.pkt)))
    case DecodeSubtitle(failed, gotFrame) =>
      if !s.pc.Feeding? || s.pkt.pkt.FlushPacket? || s.kind.AudioVideo? then None
      else Some(SubtitleStep(s.(pc := CheckSerial, fed := s.fed + [s.pkt], missed := false), failed, gotFrame))
  }

  /** What follows the codec's answer: end of stream, a returned frame, a retry, or a new packet. */
  function DrainStep(s: State): Option<State> {
    match s.ret
    case Eof => Some(s.(pc := Idle, finished := s.pktSerial, fed := []))
    case Frame =>
      var built := if s.kind.AudioVideo? then s.fed else s.sub;
      Some(s.(pc := Idle, outputs := s.outputs + [Output(built, s.pktSerial, s.missed)]))
    case Failed => Some(s)
    case Again => Some(s.(pc := Fetching))
  }

  function SubtitleStep(s: State, failed: bool, gotFrame: bool): State {
    if failed then s.(ret := Again)
    else if gotFrame then
      s.(ret := Frame, sub := s.fed, pending := if s.pkt.pkt.NullPacket? then Some(s.pkt) else s.pending)
    else s.(ret := if s.pkt.pkt.NullPacket? then Eof else Again)
  }

  function Run(s: State, acts: seq<Action>): Option<State>
    decreases |acts|
  {
    if acts == [] then Some(s)
    else
      var before := Run(s, acts[..|acts| - 1]);
      if before.None? then None else Next(before.value, acts[|acts| - 1])
  }

  // ---------------------------------------------------------------------------------- the queue's invariant

  ghost predicate SerialsSorted(entries: seq<Entry>) {
    forall i, j :: 0 <= i < j < |entries| ==> entries[i].serial <= entries[j].serial
  }

  /** Every packet other than a flush packet continues the serial of what was queued or fetched before it. */
  ghost predicate FlushLeads(entries: seq<Entry>, fetched: int) {
    && (entries != [] && !entries[0].pkt.FlushPacket? ==> entries[0].serial == fetched)
    && (forall i, j :: 0 <= i < |entries| - 1 && j == i + 1 && !entries[j].pkt.FlushPacket? ==>
          entries[j].serial == entries[i].serial)
  }

  ghost predicate QueueInv(q: QueueState, reader: ReaderPc, fetched: int) {
    && SerialsSorted(q.entries)
    && FlushLeads(q.entries, fetched)
    && fetched <= q.serial
    && (q.entries != [] ==>
          fetched <= q.entries[0].serial && q.entries[|q.entries| - 1].serial == q.serial)
    && (q.entries == [] && reader.Reading? && !q.aborted ==> fetched == q.serial)
  }

  lemma PutKeepsQueueInv(q: QueueState, reader: ReaderPc, fetched: int, pkt: Packet)
    requires QueueInv(q, reader, fetched)
    requires pkt.FlushPacket? || reader.Reading?
    ensures QueueInv(Put(q, pkt), Reading, fetched)
  {
    if !q.aborted {
      var q' := Put(q, pkt);
      var n := |q.entries|;
      assert forall i :: 0 <= i < n ==> q'.entries[i] == q.entries[i];
      assert q'.entries[n] == Entry(pkt, q'.serial);
      assert forall i :: 0 <= i < n ==> q.entries[i].serial <= q.entries[n - 1].serial;
    }
  }

  lemma FetchKeepsQueueInv(q: QueueState, reader: ReaderPc, fetched: int)
    requires QueueInv(q, reader, fetched) && q.entries != []
    ensures QueueInv(q.(entries := q.entries[1..]), reader, q.entries[0].serial)
  {
    var rest := q.entries[1..];
    assert forall i :: 0 <= i < |rest| ==> rest[i] == q.entries[i + 1];
    assert q.entries[0].serial <= q.entries[|q.entries| - 1].serial;
    if rest == [] {
      assert |q.entries| == 1;
    }
  }

  // ---------------------------------------------------------------------------------- the codec's invariant

  ghost predicate AllAre(entries: seq<Entry>, serial: int) {
    forall i :: 0 <= i < |entries| ==> entries[i].serial == serial
  }

  ghost predicate OneSerial(entries: seq<Entry>) {
    entries == [] || AllAre(entries, entries[0].serial)
  }

  ghost predicate HoldsFlush(s: State) {
    (s.pc.CheckFetched? || s.pc.Feeding?) && s.pkt.pkt.FlushPacket?
  }

  ghost predicate CodecInv(s: State) {
    && OneSerial(s.fed)
    && (AllAre(s.fed, s.pktSerial) || s.pktSerial < s.q.serial || HoldsFlush(s))
    && (s.pc.Draining? ==> AllAre(s.fed, s.pktSerial))
    && (s.pc.Feeding? ==> AllAre(s.fed, s.pktSerial) || s.pkt.pkt.FlushPacket?)
    && (s.pending.Some? ==> !s.pending.value.pkt.FlushPacket? && s.pending.value.serial == s.pktSerial)
    && (s.pc.CheckFetched? || s.pc.Feeding? ==> s.pkt.serial == s.pktSerial)
  }

  /** A subtitle that waits to be returned carries pkt_serial, or an earlier serial once a test was missed. */
  ghost predicate SubtitleInv(s: State) {
    && (s.pc != Idle && s.missed ==> s.kind.Subtitle?)
    && (s.pc != Idle && s.ret.Frame? ==>
          && s.kind.Subtitle?
          && s.sub != [] && OneSerial(s.sub)
          && s.sub[0].serial <= s.pktSerial
          && (s.missed ==> s.sub[0].serial < s.q.serial && (s.pc.Draining? ==> s.sub[0].serial < s.pktSerial))
          && (!s.missed ==> s.sub[0].serial == s.pktSerial && (s.pc.CheckSerial? || s.pc.Draining?)))
  }

  /** A returned frame agrees with pkt_serial exactly when no serial test was missed on the way. */
  ghost predicate Sound(kind: Kind, o: Output) {
    && (AllAre(o.builtFrom, o.serial) <==> !o.late)
    && (kind.AudioVideo? ==> !o.late)
  }

  ghost predicate OutputsInv(s: State) {
    forall i :: 0 <= i < |s.outputs| ==> Sound(s.kind, s.outputs[i])
  }

  ghost predicate Inv(s: State) {
    QueueInv(s.q, s.reader, s.pktSerial) && CodecInv(s) && SubtitleInv(s) && OutputsInv(s)
  }

  lemma QueueStep(s: State, a: Action)
    requires QueueInv(s.q, s.reader, s.pktSerial) && Next(s, a).Some?
    ensures var t := Next(s, a).value;
      QueueInv(t.q, t.reader, t.pktSerial) && s.q.serial <= t.q.serial
  {
    match a
    case PutPacket(p) => PutKeepsQueueInv(s.q, s.reader, s.pktSerial, p);
    case SeekPut => PutKeepsQueueInv(s.q, s.reader, s.pktSerial, FlushPacket);
    case Fetch =>
      if s.pending.None? && !s.q.aborted {
        FetchKeepsQueueInv(s.q, s.reader, s.pktSerial);
      }
    case _ =>
  }

  /** What the decoder may learn about the packet it fetches. */
  lemma FetchedPacket(s: State)
    requires QueueInv(s.q, s.reader, s.pktSerial) && s.q.entries != []
    ensures var e := s.q.entries[0];
      && s.pktSerial <= e.serial <= s.q.serial
      && (e.pkt.FlushPacket? || e.serial == s.pktSerial)
  {
  }

  lemma AllAreAppend(entries: seq<Entry>, e: Entry)
    requires AllAre(entries, e.serial)
    ensures AllAre(entries + [e], e.serial) && OneSerial(entries + [e])
  {
  }

  /** The reader's steps leave the codec alone. */
  lemma CodecReaderStep(s: State, q: QueueState, reader: ReaderPc)
    requires CodecInv(s) && q.serial >= s.q.serial
    ensures CodecInv(s.(q := q, reader := reader))
  {
  }

  lemma CodecSendStep(s: State, accepted: bool)
    requires CodecInv(s) && Next(s, SendPacket(accepted)).Some?
    ensures CodecInv(Next(s, SendPacket(accepted)).value)
  {
    AllAreAppend(s.fed, s.pkt);
  }

  lemma CodecSubtitleStep(s: State, failed: bool, gotFrame: bool)
    requires CodecInv(s) && Next(s, DecodeSubtitle(failed, gotFrame)).Some?
    ensures CodecInv(Next(s, DecodeSubtitle(failed, gotFrame)).value)
  {
    AllAreAppend(s.fed, s.pkt);
  }

  lemma CodecFetchStep(s: State)
    requires QueueInv(s.q, s.reader, s.pktSerial) && CodecInv(s) && Next(s, Fetch).Some?
    ensures CodecInv(Next(s, Fetch).value)
  {
    if s.pending.None? && !s.q.aborted {
      FetchedPacket(s);
    }
  }

  lemma CodecDrainStep(s: State, answer: Answer)
    requires CodecInv(s) && Next(s, Drain(answer)).Some?
    ensures CodecInv(Next(s, Drain(answer)).value)
  {
  }

  /** The tests of the serial, a call's begin, and the flush of the codec. */
  lemma CodecOtherStep(s: State, a: Action)
    requires CodecInv(s) && s.pktSerial <= s.q.serial && Next(s, a).Some?
    requires a.Call? || a.TestSerial? || a.TestFetched? || a.FlushCodec?
    ensures CodecInv(Next(s, a).value)
  {
  }

  lemma CodecStep(s: State, a: Action)
    requires QueueInv(s.q, s.reader, s.pktSerial) && CodecInv(s) && Next(s, a).Some?
    ensures CodecInv(Next(s, a).value)
  {
    match a
    case PutPacket(p) => CodecReaderStep(s, Put(s.q, p), s.reader);
    case SeekFlush => CodecReaderStep(s, Flush(s.q), Seeking);
    case SeekPut => CodecReaderStep(s, Put(s.q, FlushPacket), Reading);
    case AbortRequest => CodecReaderStep(s, Abort(s.q), s.reader);
    case Fetch => CodecFetchStep(s);
    case Drain(answer) => CodecDrainStep(s, answer);
    case SendPacket(accepted) => CodecSendStep(s, accepted);
    case DecodeSubtitle(failed, gotFrame) => CodecSubtitleStep(s, failed, gotFrame);
    case _ => CodecOtherStep(s, a);
  }

  lemma SubtitleDecodeInv(s: State, failed: bool, gotFrame: bool)
    requires CodecInv(s) && SubtitleInv(s) && Next(s, DecodeSubtitle(failed, gotFrame)).Some?
    ensures SubtitleInv(Next(s, DecodeSubtitle(failed, gotFrame)).value)
  {
    AllAreAppend(s.fed, s.pkt);
  }

  lemma SubtitleTestInv(s: State)
    requires QueueInv(s.q, s.reader, s.pktSerial) && SubtitleInv(s) && Next(s, TestSerial).Some?
    ensures SubtitleInv(Next(s, TestSerial).value)
  {
  }

  lemma SubtitleDrainInv(s: State, answer: Answer)
    requires SubtitleInv(s) && Next(s, Drain(answer)).Some?
    ensures SubtitleInv(Next(s, Drain(answer)).value)
  {
  }

  lemma SubtitleStepInv(s: State, a: Action)
    requires QueueInv(s.q, s.reader, s.pktSerial) && CodecInv(s) && SubtitleInv(s) && Next(s, a).Some?
    ensures SubtitleInv(Next(s, a).value)
  {
    match a
    case DecodeSubtitle(failed, gotFrame) => SubtitleDecodeInv(s, failed, gotFrame);
    case TestSerial => SubtitleTestInv(s);
    case Drain(answer) => SubtitleDrainInv(s, answer);
    case Fetch =>
      if s.pending.None? && !s.q.aborted {
        FetchedPacket(s);
      }
    case _ =>
  }

  lemma OutputStep(s: State, a: Action)
    requires CodecInv(s) && SubtitleInv(s) && OutputsInv(s) && Next(s, a).Some?
    ensures OutputsInv(Next(s, a).value)
  {
    if a.Drain? {
      var t := Next(s, a).value;
      assert |t.outputs| == |s.outputs| + 1 ==> Sound(s.kind, t.outputs[|s.outputs|]);
    }
  }

  lemma StepInv(s: State, a: Action)
    requires Inv(s) && Next(s, a).Some?
    ensures Inv(Next(s, a).value) && Next(s, a).value.kind == s.kind
  {
    QueueStep(s, a);
    CodecStep(s, a);
    SubtitleStepInv(s, a);
    OutputStep(s, a);
  }

  lemma {:induction false} RunInv(kind: Kind, acts: seq<Action>)
    requires Run(Init(kind), acts).Some?
    ensures Inv(Run(Init(kind), acts).value)
    ensures Run(Init(kind), acts).value.kind == kind
    decreases |acts|
  {
    if acts != [] {
      RunInv(kind, acts[..|acts| - 1]);
      StepInv(Run(Init(kind), acts[..|acts| - 1]).value, acts[|acts| - 1]);
    }
  }

  // ------------------------------------------------------------------------------------------ main results

  lemma SerialsAreBounded(q: QueueState, reader: ReaderPc, pktSerial: int, i: nat, j: nat)
    requires QueueInv(q, reader, pktSerial) && i <= j < |q.entries|
    ensures q.entries[i].serial <= q.entries[j].serial <= q.serial
  {
    assert j < |q.entries| - 1 ==> q.entries[j].serial <= q.entries[|q.entries| - 1].serial;
  }

  /** Serials along the queue never decrease, and none is ahead of the queue's own. */
  lemma {:induction false} QueueSerialsNeverDecrease(kind: Kind, acts: seq<Action>, i: nat, j: nat)
    requires Run(Init(kind), acts).Some?
    requires i <= j < |Run(Init(kind), acts).value.q.entries|
    ensures var q := Run(Init(kind), acts).value.q; q.entries[i].serial <= q.entries[j].serial <= q.serial
  {
    RunInv(kind, acts);
    var s := Run(Init(kind), acts).value;
    SerialsAreBounded(s.q, s.reader, s.pktSerial, i, j);
  }

  /** In every interleaving, all packets sent to the codec since its last flush carry one serial. */
  lemma CodecHoldsOneSerial(kind: Kind, acts: seq<Action>)
    requires Run(Init(kind), acts).Some?
    ensures OneSerial(Run(Init(kind), acts).value.fed)
  {
    RunInv(kind, acts);
  }

  /** An audio or video decoder only ever returns frames built from packets of the serial in pkt_serial. */
  lemma AudioVideoFramesAgree(acts: seq<Action>, i: nat)
    requires Run(Init(AudioVideo), acts).Some?
    requires i < |Run(Init(AudioVideo), acts).value.outputs|
    ensures var o := Run(Init(AudioVideo), acts).value.outputs[i]; AllAre(o.builtFrom, o.serial)
  {
    RunInv(AudioVideo, acts);
    assert Sound(AudioVideo, Run(Init(AudioVideo), acts).value.outputs[i]);
  }

  /** A subtitle agrees with pkt_serial if and only if the serial test after its decoding did not fail. */
  lemma SubtitleAgreesUnlessLate(acts: seq<Action>, i: nat)
    requires Run(Init(Subtitle), acts).Some?
    requires i < |Run(Init(Subtitle), acts).value.outputs|
    ensures var o := Run(Init(Subtitle), acts).value.outputs[i];
      AllAre(o.builtFrom, o.serial) <==> !o.late
  {
    RunInv(Subtitle, acts);
    assert Sound(Subtitle, Run(Init(Subtitle), acts).value.outputs[i]);
  }

  predicate ReaderStep(a: Action) { a.PutPacket? || a.SeekFlush? || a.SeekPut? || a.AbortRequest? }

  /** While only the reader runs, the decoder's part of the state stays as it is. */
  lemma {:induction false} ReaderLeavesDecoder(s: State, acts: seq<Action>)
    requires Run(s, acts).Some? && forall i :: 0 <= i < |acts| ==> ReaderStep(acts[i])
    ensures Run(s, acts).value == s.(q := Run(s, acts).value.q, reader := Run(s, acts).value.reader)
    decreases |acts|
  {
    if acts != [] {
      ReaderLeavesDecoder(s, acts[..|acts| - 1]);
    }
  }

  /** A decoded subtitle whose serial test failed, or not, from the test until it is returned or given up. */
  ghost predicate OnItsWay(n: nat, failed: bool, s: State) {
    && |s.outputs| >= n
    && (|s.outputs| > n ==> s.outputs[n].late == failed)
    && (|s.outputs| == n && !s.pc.Idle? && s.ret.Frame? ==> s.missed == failed && (failed || s.pc.Draining?))
  }

  lemma OnItsWayStep(n: nat, failed: bool, s: State, a: Action)
    requires s.kind.Subtitle? && OnItsWay(n, failed, s) && Next(s, a).Some? && !a.DecodeSubtitle?
    ensures OnItsWay(n, failed, Next(s, a).value) && Next(s, a).value.kind.Subtitle?
  {
  }

  lemma {:induction false} OnItsWayRun(n: nat, failed: bool, s: State, acts: seq<Action>)
    requires s.kind.Subtitle? && OnItsWay(n, failed, s) && Run(s, acts).Some?
    requires forall i :: 0 <= i < |acts| ==> !acts[i].DecodeSubtitle?
    ensures OnItsWay(n, failed, Run(s, acts).value) && Run(s, acts).value.kind.Subtitle?
    decreases |acts|
  {
    if acts != [] {
      OnItsWayRun(n, failed, s, acts[..|acts| - 1]);
      OnItsWayStep(n, failed, Run(s, acts[..|acts| - 1]).value, acts[|acts| - 1]);
    }
  }

  lemma {:induction false} RunInvFrom(s: State, acts: seq<Action>)
    requires Inv(s) && Run(s, acts).Some?
    ensures Inv(Run(s, acts).value) && Run(s, acts).value.kind == s.kind
    decreases |acts|
  {
    if acts != [] {
      RunInvFrom(s, acts[..|acts| - 1]);
      StepInv(Run(s, acts[..|acts| - 1]).value, acts[|acts| - 1]);
    }
  }

  /** Right after its decoding a subtitle has missed no test, and it is the next one to be returned. */
  lemma TestStarts(s1: State, s: State)
    requires s1.kind.Subtitle? && s1.pc.CheckSerial? && s1.ret.Frame? && !s1.missed
    requires s == s1.(q := s.q, reader := s.reader)
    ensures Next(s, TestSerial).Some? && Next(s, TestSerial).value.kind.Subtitle?
    ensures OnItsWay(|s.outputs|, s.q.serial != s.pktSerial, Next(s, TestSerial).value)
  {
  }

  lemma ReturnedAgreesIff(s1: State, reader: seq<Action>, s: State, after: seq<Action>, t: State)
    requires Inv(s1) && s1.kind.Subtitle? && s1.pc.CheckSerial? && s1.ret.Frame? && !s1.missed
    requires Run(s1, reader) == Some(s) && forall i :: 0 <= i < |reader| ==> ReaderStep(reader[i])
    requires Next(s, TestSerial).Some? && Run(Next(s, TestSerial).value, after) == Some(t)
    requires (forall i :: 0 <= i < |after| ==> !after[i].DecodeSubtitle?) && |t.outputs| > |s.outputs|
    ensures var o := t.outputs[|s.outputs|];
      AllAre(o.builtFrom, o.serial) <==> s.q.serial == s.pktSerial
  {
    var u := Next(s, TestSerial).value;
    ReaderLeavesDecoder(s1, reader);
    TestStarts(s1, s);
    OnItsWayRun(|s.outputs|, s.q.serial != s.pktSerial, u, after);
    RunInvFrom(s1, reader);
    StepInv(s, TestSerial);
    RunInvFrom(u, after);
    assert Sound(Subtitle, t.outputs[|s.outputs|]);
  }

  ghost predicate Reachable(kind: Kind, s: State) {
    exists acts :: Run(Init(kind), acts) == Some(s)
  }

  lemma ReachableInv(kind: Kind, s: State)
    requires Reachable(kind, s)
    ensures Inv(s) && s.kind == kind
  {
    var acts :| Run(Init(kind), acts) == Some(s);
    RunInv(kind, acts);
  }

  lemma DecodeStarts(s0: State, s1: State)
    requires Inv(s0) && s0.kind.Subtitle? && Next(s0, DecodeSubtitle(false, true)) == Some(s1)
    ensures Inv(s1) && s1.kind.Subtitle? && s1.pc.CheckSerial? && s1.ret.Frame? && !s1.missed
  {
    StepInv(s0, DecodeSubtitle(false, true));
  }

  /** A subtitle decoded at s0 and tested at s, after steps of the reader, agrees with the pkt_serial it is returned
      with if and only if the queue's serial still was pkt_serial at that test. */
  lemma SubtitleAgreesIff(s0: State, s1: State, reader: seq<Action>, s: State, after: seq<Action>, t: State)
    requires Reachable(Subtitle, s0) && Next(s0, DecodeSubtitle(false, true)) == Some(s1)
    requires Run(s1, reader) == Some(s) && forall i :: 0 <= i < |reader| ==> ReaderStep(reader[i])
    requires Next(s, TestSerial).Some? && Run(Next(s, TestSerial).value, after) == Some(t)
    requires (forall i :: 0 <= i < |after| ==> !after[i].DecodeSubtitle?) && |t.outputs| > |s.outputs|
    ensures var o := t.outputs[|s.outputs|];
      AllAre(o.builtFrom, o.serial) <==> s.q.serial == s.pktSerial
  {
    ReachableInv(Subtitle, s0);
    DecodeStarts(s0, s1);
    ReturnedAgreesIff(s1, reader, s, after, t);
  }

  lemma InitReachable(kind: Kind)
    ensures Reachable(kind, Init(kind))
  {
    assert Run(Init(kind), []) == Some(Init(kind));
  }

  lemma Take(kind: Kind, s: State, a: Action) returns (s': State)
    requires Reachable(kind, s) && Next(s, a).Some?
    ensures Some(s') == Next(s, a) && Reachable(kind, s')
  {
    var acts :| Run(Init(kind), acts) == Some(s);
    s' := Next(s, a).value;
    assert (acts + [a])[..|acts|] == acts;
    assert Run(Init(kind), acts + [a]) == Some(s');
  }

  // A run in which a seek overtakes a decoded subtitle, by way of four of its states.

  /** The first flush packet has been fetched. */
  function Fetched(): State {
    State(Subtitle, QueueState([], 1, false), Reading, CheckFetched, 1, None, Entry(FlushPacket, 1),
          0, [], Again, [], false, [])
  }

  /** The decoder waits for its first packet of serial 1. */
  function Started(): State { Fetched().(pc := Fetching) }

  /** A subtitle of serial 1 has been decoded but not yet returned. */
  function Decoded(): State {
    var e := Entry(DataPacket(0, 1, 1), 1);
    Started().(pc := CheckSerial, pkt := e, fed := [e], ret := Frame, sub := [e])
  }

  /** The seek's flush packet has been fetched, the subtitle still being there. */
  function Overtaken(): State {
    Decoded().(q := QueueState([], 2, false), pc := CheckFetched, pktSerial := 2, missed := true,
               pkt := Entry(FlushPacket, 2))
  }

  lemma ReachFetched()
    ensures Reachable(Subtitle, Fetched())
  {
    InitReachable(Subtitle);
    var s := Take(Subtitle, Init(Subtitle), Call);
    s := Take(Subtitle, s, TestSerial);
    s := Take(Subtitle, s, Fetch);
    assert s.q.entries == [];
  }

  lemma ReachStarted()
    ensures Reachable(Subtitle, Started())
  {
    ReachFetched();
    var s := Take(Subtitle, Fetched(), TestFetched);
    s := Take(Subtitle, s, FlushCodec);
    s := Take(Subtitle, s, TestSerial);
    s := Take(Subtitle, s, Drain(Again));
  }

  lemma ReachQueued(p: Packet) returns (s: State)
    requires p == DataPacket(0, 1, 1)
    ensures s == Started().(q := QueueState([Entry(p, 1)], 1, false)) && Reachable(Subtitle, s)
  {
    ReachStarted();
    s := Take(Subtitle, Started(), PutPacket(p));
    assert s.q.entries == [Entry(p, 1)];
  }

  lemma ReachOnePacket(p: Packet) returns (s: State)
    requires p == DataPacket(0, 1, 1)
    ensures s == Started().(pc := CheckFetched, pkt := Entry(p, 1)) && Reachable(Subtitle, s)
  {
    var queued := ReachQueued(p);
    s := Take(Subtitle, queued, Fetch);
    assert s.q.entries == [];
  }

  lemma ReachDecoded()
    ensures Reachable(Subtitle, Decoded())
  {
    var p := DataPacket(0, 1, 1);
    var s := ReachOnePacket(p);
    ReachDecodedFrom(s, p);
  }

  lemma ReachDecodedFrom(s: State, p: Packet)
    requires s == Started().(pc := CheckFetched, pkt := Entry(p, 1)) && p == DataPacket(0, 1, 1)
    requires Reachable(Subtitle, s)
    ensures Reachable(Subtitle, Decoded())
  {
    var t := Take(Subtitle, s, TestFetched);
    t := Take(Subtitle, t, DecodeSubtitle(false, true));
    assert t.fed == t.sub == [Entry(p, 1)];
  }

  lemma ReachOvertaken()
    ensures Reachable(Subtitle, Overtaken())
  {
    ReachDecoded();
    var s := Take(Subtitle, Decoded(), SeekFlush);
    s := Take(Subtitle, s, SeekPut);
    assert s.q.entries == [Entry(FlushPacket, 2)];
    s := Take(Subtitle, s, TestSerial);
    s := Take(Subtitle, s, Fetch);
    assert s.q.entries == [];
  }

  /** A seek that overtakes a decoded subtitle makes it come back under the new serial. */
  lemma SubtitleCanBeStale() returns (s: State)
    ensures Reachable(Subtitle, s) && s.outputs == [Output([Entry(DataPacket(0, 1, 1), 1)], 2, true)]
  {
    ReachOvertaken();
    s := Take(Subtitle, Overtaken(), TestFetched);
    s := Take(Subtitle, s, FlushCodec);
    s := Take(Subtitle, s, TestSerial);
    s := Take(Subtitle, s, Drain(Again));
  }
}
