/** The ring of decoded frames of fftools/ffplay.c: its operations in place, cut into their atomic parts. */
module FrameQueues {
  import opened Wrappers

  /** A slot holds the identity of the frame it refers to, or nothing once it is unreferenced. */
  type Slot = Option<int>

  const FRAME_QUEUE_SIZE := 16

  datatype Ring = Ring(slots: seq<Slot>, rindex: nat, windex: nat, size: int, maxSize: int, keepLast: bool, shown: bool)
  {
    predicate InBounds() {
      0 < maxSize == |slots| && rindex < maxSize && windex < maxSize
    }

    function Shown(): nat { if shown then 1 else 0 }

    /** Undisplayed frames: frame_queue_nb_remaining. */
    function Remaining(): int { size - Shown() }

    predicate Full() { size >= maxSize }

    function Fill(frame: int): Ring
      requires InBounds()
    {
      this.(slots := slots[windex := Some(frame)])
    }

    function AdvanceWrite(): Ring { this.(windex := if windex + 1 == maxSize then 0 else windex + 1) }

    function AddOne(): Ring { this.(size := size + 1) }

    function Unref(): Ring
      requires InBounds()
    {
      this.(slots := slots[rindex := None])
    }

    function AdvanceRead(): Ring { this.(rindex := if rindex + 1 == maxSize then 0 else rindex + 1) }

    function RemoveOne(): Ring { this.(size := size - 1) }
  }

  /** The slot k places after the read index: (rindex + k) % max_size, see PlaceIsModulo. */
  function Place(rindex: nat, maxSize: int, k: nat): nat
    requires rindex < maxSize && k <= maxSize
  {
    if rindex + k < maxSize then rindex + k else rindex + k - maxSize
  }

  lemma PlaceIsModulo(rindex: nat, maxSize: int, k: nat)
    requires rindex < maxSize && k <= maxSize
    ensures Place(rindex, maxSize, k) == (rindex + k) % maxSize
  {
    if rindex + k >= maxSize {
      assert (rindex + k) / maxSize == 1;
    }
  }

  function EmptyRing(maxSize: nat, keepLast: bool): Ring {
    Ring(seq(maxSize, i => None), 0, 0, 0, maxSize, keepLast, false)
  }

  class FrameQueue {
    const queue: array<Slot>
    var rindex: nat
    var windex: nat
    var size: int
    const maxSize: nat
    const keepLast: bool
    var rindexShown: bool

    ghost function View(): Ring
      reads this, queue
    {
      Ring(queue[..], rindex, windex, size, maxSize, keepLast, rindexShown)
    }

    ghost predicate Valid()
      reads this, queue
    {
      View().InBounds()
    }

    constructor Init(maxSize: nat, keepLast: bool)
      requires maxSize > 0
      ensures Valid() && fresh(queue)
      ensures View() == EmptyRing(if maxSize < FRAME_QUEUE_SIZE then maxSize else FRAME_QUEUE_SIZE, keepLast)
    {
      var n := if maxSize < FRAME_QUEUE_SIZE then maxSize else FRAME_QUEUE_SIZE;
      queue := new Slot[n](i => None);
      this.maxSize := n;
      this.keepLast := keepLast;
      rindex, windex, size, rindexShown := 0, 0, 0, false;
      new;
      assert queue[..] == EmptyRing(n, keepLast).slots;
    }

    method Push()
      requires Valid()
      modifies this
      ensures Valid() && View() == old(View()).AdvanceWrite().AddOne()
    {
      windex := windex + 1;
      if windex == maxSize {
        windex := 0;
      }
      size := size + 1;
    }

    method Next()
      requires Valid()
      modifies this, queue
      ensures Valid()
      ensures View() == if old(keepLast && !rindexShown) then old(View()).(shown := true)
                        else old(View()).Unref().AdvanceRead().RemoveOne()
    {
      if keepLast && !rindexShown {
        rindexShown := true;
        return;
      }
      queue[rindex] := None;
      rindex := rindex + 1;
      if rindex == maxSize {
        rindex := 0;
      }
      size := size - 1;
    }
  }
}

/** One producer and one consumer over a frame ring: every index, slot and size update is a step of its own. */
module FrameQueueProtocol {
  import opened Wrappers
  import opened FrameQueues

  /** Writable and Filled hold the slot at windex; Indexed has advanced windex but not yet size. */
  datatype Producer = Producing | ProducerAsleep | Writable | Filled(frame: int) | Indexed

  /** Ready has seen an undisplayed frame; Unreffed and Advanced are the two gaps inside frame_queue_next. */
  datatype Consumer = Consuming | ConsumerAsleep | Ready | Unreffed | Advanced

  /** A frame the consumer holds a pointer to. */
  datatype Grip = Grip(slot: nat, frame: int)

  datatype System = System(
    ring: Ring,
    producer: Producer,
    consumer: Consumer,
    aborted: bool,
    released: bool,        // frame_queue_signal ran after the abort
    pushed: seq<int>,      // history: frames in the order they were pushed
    freed: nat,            // history: how many of them were unreferenced
    current: Option<Grip>, // got from peek_readable since the last frame_queue_next
    last: Option<Grip>)    // what `current` was when frame_queue_next was last called

  datatype Action =
    | PeekWritable
    | Fill(frame: int)
    | Abandon
    | PushIndex
    | PushSize
    | PeekReadable
    | CheckRemaining
    | BeginNext
    | NextIndex
    | NextSize
    | Abort
    | AbortSignal(producerFirst: bool)
    | SpuriousWake(wakeProducer: bool)

  function Init(maxSize: nat, keepLast: bool): System
    requires maxSize > 0
  {
    System(EmptyRing(maxSize, keepLast), Producing, Consuming, false, false, [], 0, None, None)
  }

  function WakeProducer(s: System): System {
    if s.producer.ProducerAsleep? then s.(producer := Producing) else s
  }

  function WakeConsumer(s: System): System {
    if s.consumer.ConsumerAsleep? then s.(consumer := Consuming) else s
  }

  /** SDL_CondSignal wakes one of the sleepers, if there is one. */
  function Signal(s: System, producerFirst: bool): System {
    if (producerFirst && s.producer.ProducerAsleep?) || !s.consumer.ConsumerAsleep? then WakeProducer(s)
    else WakeConsumer(s)
  }

  /** The system after a step, or None where the step cannot be taken. */
  function Next(s: System, a: Action): Option<System> {
    if s.ring.InBounds() then Step(s, a) else None
  }

  function Step(s: System, a: Action): Option<System>
    requires s.ring.InBounds()
  {
    match a
    case PeekWritable =>
      if !s.producer.Producing? then None
      else if s.ring.Full() && !s.aborted then Some(s.(producer := ProducerAsleep))
      else if s.aborted then Some(s)
      else Some(s.(producer := Writable))
    case Fill(frame) =>
      if s.producer.Writable? then Some(s.(producer := Filled(frame), ring := s.ring.Fill(frame))) else None
    case Abandon =>
      if s.producer.Writable? || s.producer.Filled? then Some(s.(producer := Producing)) else None
    case PushIndex =>
      if s.producer.Filled? then
        Some(s.(producer := Indexed, ring := s.ring.AdvanceWrite(), pushed := s.pushed + [s.producer.frame]))
      else None
    case PushSize =>
      if s.producer.Indexed? then Some(Signal(s.(producer := Producing, ring := s.ring.AddOne()), true)) else None
    case PeekReadable =>
      if !s.consumer.Consuming? && !s.consumer.Ready? then None
      else if s.ring.Remaining() <= 0 && !s.aborted then Some(s.(consumer := ConsumerAsleep))
      else if s.aborted then Some(s)
      else
        var slot := Place(s.ring.rindex, s.ring.maxSize, s.ring.Shown());
        if s.ring.slots[slot].None? then None
        else Some(s.(consumer := Ready, current := Some(Grip(slot, s.ring.slots[slot].value))))
    case CheckRemaining =>
      if s.consumer.Consuming? && s.ring.Remaining() > 0 then Some(s.(consumer := Ready)) else None
    case BeginNext =>
      if !s.consumer.Ready? then None
      else if s.ring.keepLast && !s.ring.shown then
        Some(s.(consumer := Consuming, ring := s.ring.(shown := true), last := s.current, current := None))
      else
        Some(s.(consumer := Unreffed, ring := s.ring.Unref(), last := s.current, current := None))
    case NextIndex =>
      if s.consumer.Unreffed? then
        Some(s.(consumer := Advanced, ring := s.ring.AdvanceRead(), freed := s.freed + 1))
      else None
    case NextSize =>
      if s.consumer.Advanced? then Some(Signal(s.(consumer := Consuming, ring := s.ring.RemoveOne()), true)) else None
    case Abort => Some(s.(aborted := true))
    case AbortSignal(producerFirst) =>
      if s.aborted then Some(Signal(s, producerFirst).(released := true)) else None
    case SpuriousWake(wakeProducer) =>
      Some(if wakeProducer then WakeProducer(s) else WakeConsumer(s))
  }

  function Run(s: System, acts: seq<Action>): Option<System>
    decreases |acts|
  {
    if acts == [] then Some(s)
    else
      var before := Run(s, acts[..|acts| - 1]);
      if before.None? then None else Next(before.value, acts[|acts| - 1])
  }

  ghost predicate Reachable(maxSize: nat, keepLast: bool, s: System)
    requires maxSize > 0
  {
    exists acts :: Run(Init(maxSize, keepLast), acts) == Some(s)
  }

  // ------------------------------------------------------------------------------------------- the invariant

  /** Frames the consumer still has: size, less the one already passed inside frame_queue_next. */
  ghost function Live(s: System): int {
    s.ring.size - (if s.consumer.Advanced? then 1 else 0)
  }

  /** Frames whose slot is taken: the live ones and the one being pushed. */
  ghost function Taken(s: System): int {
    Live(s) + (if s.producer.Indexed? then 1 else 0)
  }

  ghost predicate Shape(s: System) {
    && s.ring.InBounds()
    && 0 <= Live(s) && Taken(s) <= s.ring.maxSize
    && (s.producer.Writable? || s.producer.Filled? ==> Taken(s) < s.ring.maxSize)
    && s.ring.windex == Place(s.ring.rindex, s.ring.maxSize, Taken(s))
    && (s.ring.shown ==> s.ring.keepLast && Live(s) >= 1)
    && (s.consumer.Ready? ==> Live(s) > s.ring.Shown())
    && (s.consumer.Unreffed? ==> Live(s) > s.ring.Shown() && (s.ring.keepLast ==> s.ring.shown))
    && (s.consumer.Advanced? ==> s.ring.keepLast ==> s.ring.shown)
    && |s.pushed| == s.freed + Taken(s)
  }

  /** Taken slots hold exactly the frames pushed and not yet freed, in push order. */
  ghost predicate Contents(s: System)
    requires Shape(s)
  {
    && (forall k :: (if s.consumer.Unreffed? then 1 else 0) <= k < Taken(s) ==>
          s.ring.slots[Place(s.ring.rindex, s.ring.maxSize, k)] == Some(s.pushed[s.freed + k]))
    && (s.consumer.Unreffed? ==> s.ring.slots[s.ring.rindex] == None)
    && (s.producer.Filled? ==> s.ring.slots[s.ring.windex] == Some(s.producer.frame))
  }

  /** How far `last` lies behind the read index: still on it, or passed by a frame_queue_next in progress. */
  ghost predicate Grips(s: System)
    requires Shape(s)
  {
    && (s.current.Some? ==>
          && s.consumer.Ready?
          && s.current.value
               == Grip(Place(s.ring.rindex, s.ring.maxSize, s.ring.Shown()), s.pushed[s.freed + s.ring.Shown()]))
    && (s.last.Some? && s.ring.keepLast ==>
          var k := if s.consumer.Unreffed? then 1 else 0;
          && s.ring.shown && k < Live(s)
          && s.last.value == Grip(Place(s.ring.rindex, s.ring.maxSize, k), s.pushed[s.freed + k]))
  }

  ghost predicate Sleepers(s: System) {
    && (s.producer.ProducerAsleep? ==> s.ring.Full())
    && (s.consumer.ConsumerAsleep? ==> s.ring.Remaining() <= 0)
    && (s.released ==> s.aborted)
  }

  ghost predicate Inv(s: System) {
    Shape(s) && Contents(s) && Grips(s) && Sleepers(s)
  }

  /** After the read index moved on, every place is one nearer. */
  lemma AdvanceReadShifts(r: Ring)
    requires r.InBounds()
    ensures r.AdvanceRead().InBounds()
    ensures forall k :: 0 <= k < r.maxSize ==>
      Place(r.AdvanceRead().rindex, r.maxSize, k) == Place(r.rindex, r.maxSize, k + 1)
  {
  }

  /** Waking a sleeper touches neither the ring nor what the threads hold. */
  lemma WakeProducerKeeps(s: System)
    requires Inv(s)
    ensures Inv(WakeProducer(s))
  {
  }

  lemma WakeConsumerKeeps(s: System)
    requires Inv(s)
    ensures Inv(WakeConsumer(s))
  {
  }

  /** The producer goes to sleep, gives up, or gets a slot to fill. */
  lemma ProducerMoves(s: System, p: Producer)
    requires Inv(s) && !s.producer.Indexed? && (p.Producing? || p.ProducerAsleep? || p.Writable?)
    requires (p.Writable? ==> Taken(s) < s.ring.maxSize) && (p.ProducerAsleep? ==> s.ring.Full())
    ensures Inv(s.(producer := p))
  {
  }

  lemma PeekWritableStep(s: System)
    requires Inv(s) && s.producer.Producing?
    ensures Inv(Next(s, PeekWritable).value)
  {
    ProducerMoves(s, if s.ring.Full() && !s.aborted then ProducerAsleep else if s.aborted then Producing else Writable);
  }

  lemma FillStep(s: System, frame: int)
    requires Inv(s) && s.producer.Writable?
    ensures Inv(Next(s, Fill(frame)).value)
  {
  }

  lemma AbandonStep(s: System)
    requires Inv(s) && (s.producer.Writable? || s.producer.Filled?)
    ensures Inv(Next(s, Abandon).value)
  {
    ProducerMoves(s, Producing);
  }

  lemma PushIndexShape(s: System)
    requires Inv(s) && s.producer.Filled?
    ensures Shape(Next(s, PushIndex).value)
  {
  }

  lemma PushIndexStep(s: System)
    requires Inv(s) && s.producer.Filled?
    ensures Inv(Next(s, PushIndex).value)
  {
    PushIndexShape(s);
  }

  lemma PushSizeStep(s: System)
    requires Inv(s) && s.producer.Indexed?
    ensures Inv(Next(s, PushSize).value)
  {
    var t := s.(producer := Producing, ring := s.ring.AddOne());
    if t.consumer.ConsumerAsleep? {
      assert Inv(WakeConsumer(t));
    } else {
      assert Inv(t);
    }
  }

  lemma ConsumerSleeps(s: System)
    requires Inv(s) && s.consumer.Consuming? && s.ring.Remaining() <= 0
    ensures Inv(s.(consumer := ConsumerAsleep))
  {
  }

  lemma ConsumerReady(s: System, current: Option<Grip>)
    requires Inv(s) && (s.consumer.Consuming? || s.consumer.Ready?) && s.ring.Remaining() > 0
    requires current.Some? ==>
      current.value == Grip(Place(s.ring.rindex, s.ring.maxSize, s.ring.Shown()), s.pushed[s.freed + s.ring.Shown()])
    ensures Inv(s.(consumer := Ready, current := current))
  {
  }

  /** The slot that peek_readable gives holds the frame that comes next. */
  lemma NextFrameIsThere(s: System)
    requires Inv(s) && (s.consumer.Consuming? || s.consumer.Ready?) && s.ring.Remaining() > 0
    ensures s.ring.slots[Place(s.ring.rindex, s.ring.maxSize, s.ring.Shown())]
      == Some(s.pushed[s.freed + s.ring.Shown()])
  {
  }

  lemma PeekStep(s: System, a: Action)
    requires Inv(s) && Next(s, a).Some?
    requires a.PeekReadable? || a.CheckRemaining?
    ensures Inv(Next(s, a).value)
  {
    if s.ring.Remaining() > 0 {
      NextFrameIsThere(s);
      var grip := Grip(Place(s.ring.rindex, s.ring.maxSize, s.ring.Shown()), s.pushed[s.freed + s.ring.Shown()]);
      ConsumerReady(s, if a.PeekReadable? then Some(grip) else s.current);
    } else if a.PeekReadable? && !s.aborted {
      ConsumerSleeps(s);
    }
  }

  /** The first frame_queue_next of a kept frame only marks it as shown. */
  lemma MarkShown(s: System)
    requires Inv(s) && s.consumer.Ready? && s.ring.keepLast && !s.ring.shown
    ensures Inv(s.(consumer := Consuming, ring := s.ring.(shown := true), last := s.current, current := None))
  {
  }

  lemma UnrefFirst(s: System)
    requires Inv(s) && s.consumer.Ready? && !(s.ring.keepLast && !s.ring.shown)
    ensures Inv(s.(consumer := Unreffed, ring := s.ring.Unref(), last := s.current, current := None))
  {
  }

  lemma BeginNextStep(s: System)
    requires Inv(s) && s.consumer.Ready?
    ensures Inv(Next(s, BeginNext).value)
  {
    if s.ring.keepLast && !s.ring.shown {
      MarkShown(s);
    } else {
      UnrefFirst(s);
    }
  }

  lemma NextIndexStep(s: System)
    requires Inv(s) && s.consumer.Unreffed?
    ensures Inv(Next(s, NextIndex).value)
  {
    var t := Next(s, NextIndex).value;
    AdvanceReadShifts(s.ring);
    forall k | 0 <= k < Taken(t)
      ensures t.ring.slots[Place(t.ring.rindex, t.ring.maxSize, k)] == Some(t.pushed[t.freed + k])
    {
      assert s.ring.slots[Place(s.ring.rindex, s.ring.maxSize, k + 1)] == Some(s.pushed[s.freed + (k + 1)]);
    }
  }

  lemma NextSizeStep(s: System)
    requires Inv(s) && s.consumer.Advanced?
    ensures Inv(Next(s, NextSize).value)
  {
    var t := s.(consumer := Consuming, ring := s.ring.RemoveOne());
    if t.producer.ProducerAsleep? {
      assert Inv(WakeProducer(t));
    } else {
      assert Inv(t);
    }
  }

  lemma FlagsKeep(s: System, aborted: bool, released: bool)
    requires Inv(s) && (released ==> aborted)
    ensures Inv(s.(aborted := aborted, released := released))
  {
  }

  lemma AbortSignalStep(s: System, producerFirst: bool)
    requires Inv(s) && s.aborted
    ensures Inv(Next(s, AbortSignal(producerFirst)).value)
  {
    WakeProducerKeeps(s);
    WakeConsumerKeeps(s);
    FlagsKeep(Signal(s, producerFirst), true, true);
  }

  lemma StepInv(s: System, a: Action)
    requires Inv(s) && Next(s, a).Some?
    ensures Inv(Next(s, a).value)
  {
    match a
    case PeekWritable => PeekWritableStep(s);
    case Fill(frame) => FillStep(s, frame);
    case Abandon => AbandonStep(s);
    case PushIndex => PushIndexStep(s);
    case PushSize => PushSizeStep(s);
    case PeekReadable => PeekStep(s, a);
    case CheckRemaining => PeekStep(s, a);
    case BeginNext => BeginNextStep(s);
    case NextIndex => NextIndexStep(s);
    case NextSize => NextSizeStep(s);
    case Abort => FlagsKeep(s, true, s.released);
    case AbortSignal(producerFirst) => AbortSignalStep(s, producerFirst);
    case SpuriousWake(_) => WakeProducerKeeps(s); WakeConsumerKeeps(s);
  }

  /** No thread sleeps through the abort, and the ring's shape is what it was created with. */
  ghost predicate Settings(maxSize: nat, keepLast: bool, s: System) {
    && s.ring.maxSize == maxSize && s.ring.keepLast == keepLast
    && (!(maxSize == 1 && keepLast) && s.released ==> !s.producer.ProducerAsleep? && !s.consumer.ConsumerAsleep?)
  }

  /** The two waiting conditions exclude each other, unless one kept frame can fill the ring. */
  lemma WaitsExclude(s: System)
    requires Inv(s) && !(s.ring.maxSize == 1 && s.ring.keepLast)
    ensures !(s.producer.ProducerAsleep? && s.consumer.ConsumerAsleep?)
  {
  }

  lemma SettingsStep(maxSize: nat, keepLast: bool, s: System, a: Action)
    requires Inv(s) && Settings(maxSize, keepLast, s) && Next(s, a).Some?
    ensures Settings(maxSize, keepLast, Next(s, a).value)
  {
    if !(maxSize == 1 && keepLast) {
      WaitsExclude(s);
    }
  }

  lemma {:induction false} RunInv(maxSize: nat, keepLast: bool, acts: seq<Action>)
    requires maxSize > 0 && Run(Init(maxSize, keepLast), acts).Some?
    ensures Inv(Run(Init(maxSize, keepLast), acts).value)
    ensures Settings(maxSize, keepLast, Run(Init(maxSize, keepLast), acts).value)
    decreases |acts|
  {
    if acts != [] {
      RunInv(maxSize, keepLast, acts[..|acts| - 1]);
      var s := Run(Init(maxSize, keepLast), acts[..|acts| - 1]).value;
      StepInv(s, acts[|acts| - 1]);
      SettingsStep(maxSize, keepLast, s, acts[|acts| - 1]);
    }
  }

  lemma ReachableInv(maxSize: nat, keepLast: bool, s: System)
    requires maxSize > 0 && Reachable(maxSize, keepLast, s)
    ensures Inv(s) && Settings(maxSize, keepLast, s)
  {
    var acts :| Run(Init(maxSize, keepLast), acts) == Some(s);
    RunInv(maxSize, keepLast, acts);
  }

  // -------------------------------------------------------------------------------------------- main results

  /** The slot being filled is none the consumer may read: no live place and nothing it holds. */
  lemma FilledSlotIsNotReadable(maxSize: nat, keepLast: bool, s: System, k: nat)
    requires maxSize > 0 && Reachable(maxSize, keepLast, s)
    requires s.producer.Writable? || s.producer.Filled?
    ensures s.ring.InBounds()
    ensures k < Live(s) ==> (s.ring.rindex + k) % maxSize != s.ring.windex
    ensures s.current.Some? ==> s.current.value.slot != s.ring.windex
    ensures keepLast && s.last.Some? ==> s.last.value.slot != s.ring.windex
  {
    ReachableInv(maxSize, keepLast, s);
    if k < Live(s) {
      PlaceIsModulo(s.ring.rindex, maxSize, k);
    }
  }

  /** Between operations windex == (rindex + size) mod max_size. */
  lemma WriteIndexFollows(maxSize: nat, keepLast: bool, s: System)
    requires maxSize > 0 && Reachable(maxSize, keepLast, s)
    requires !s.producer.Indexed? && !s.consumer.Advanced?
    ensures 0 <= s.ring.size <= maxSize && s.ring.windex == (s.ring.rindex + s.ring.size) % maxSize
  {
    ReachableInv(maxSize, keepLast, s);
    PlaceIsModulo(s.ring.rindex, maxSize, s.ring.size);
  }

  /** A frame got from peek_readable stays as it is until the following frame_queue_next is begun; with
      keep_last it also stays after that, until the one after it is begun. */
  lemma HeldFramesAreIntact(maxSize: nat, keepLast: bool, s: System)
    requires maxSize > 0 && Reachable(maxSize, keepLast, s)
    ensures s.current.Some? ==>
      s.current.value.slot < |s.ring.slots| && s.ring.slots[s.current.value.slot] == Some(s.current.value.frame)
    ensures keepLast && s.last.Some? ==>
      s.last.value.slot < |s.ring.slots| && s.ring.slots[s.last.value.slot] == Some(s.last.value.frame)
  {
    ReachableInv(maxSize, keepLast, s);
  }

  /** frame_queue_next leaves the frame just got intact if and only if keep_last is set. */
  lemma NextSparesFrameIffKeepLast(maxSize: nat, keepLast: bool, s: System)
    requires maxSize > 0 && Reachable(maxSize, keepLast, s)
    requires s.consumer.Ready? && s.current.Some?
    ensures Next(s, BeginNext).Some?
    ensures var t := Next(s, BeginNext).value;
      && t.last == s.current && t.last.value.slot < |t.ring.slots|
      && (t.ring.slots[t.last.value.slot] == Some(t.last.value.frame) <==> keepLast)
  {
    ReachableInv(maxSize, keepLast, s);
    BeginNextStep(s);
  }

  /** The consumer gets exactly the pushed frames, in push order: the next one is number freed + rindex_shown. */
  lemma FramesComeInPushOrder(maxSize: nat, keepLast: bool, s: System)
    requires maxSize > 0 && Reachable(maxSize, keepLast, s)
    requires s.consumer.Consuming? && !s.aborted && s.ring.Remaining() > 0
    ensures Next(s, PeekReadable).Some?
    ensures s.freed + s.ring.Shown() < |s.pushed|
    ensures var t := Next(s, PeekReadable).value;
      t.current.Some? && t.current.value.frame == s.pushed[s.freed + s.ring.Shown()]
  {
    ReachableInv(maxSize, keepLast, s);
    StepInv(s, PeekReadable);
  }

  /** Nobody sleeps in vain: the producer only at a full ring, the consumer only when all frames are displayed. */
  lemma SleepersHaveReason(maxSize: nat, keepLast: bool, s: System)
    requires maxSize > 0 && Reachable(maxSize, keepLast, s)
    ensures s.producer.ProducerAsleep? ==> s.ring.size >= maxSize
    ensures s.consumer.ConsumerAsleep? ==> s.ring.size == s.ring.Shown()
  {
    ReachableInv(maxSize, keepLast, s);
  }

  /** After the abort has been signalled nobody sleeps any more. */
  lemma AbortReleases(maxSize: nat, keepLast: bool, s: System)
    requires maxSize > 0 && Reachable(maxSize, keepLast, s)
    requires !(maxSize == 1 && keepLast) && s.released
    ensures !s.producer.ProducerAsleep? && !s.consumer.ConsumerAsleep?
  {
    ReachableInv(maxSize, keepLast, s);
  }

  lemma Take(maxSize: nat, keepLast: bool, s: System, a: Action, t: System)
    requires maxSize > 0 && Reachable(maxSize, keepLast, s) && Next(s, a) == Some(t)
    ensures Reachable(maxSize, keepLast, t)
  {
    var acts :| Run(Init(maxSize, keepLast), acts) == Some(s);
    assert (acts + [a])[..|acts|] == acts;
    assert Run(Init(maxSize, keepLast), acts + [a]) == Some(t);
  }

  /** A ring of one slot that keeps its last frame is filled. */
  lemma FillsOnlySlot(s: System)
    requires s == Init(1, true)
    ensures Next(s, PeekWritable) == Some(s.(producer := Writable))
    ensures Next(s.(producer := Writable), Fill(0))
      == Some(s.(producer := Filled(0), ring := s.ring.(slots := [Some(0)])))
  {
    assert s.ring.slots[0 := Some(0)] == [Some(0)];
  }

  /** The frame is pushed. */
  lemma PushesOnlySlot(s: System)
    requires s.ring == Ring([Some(0)], 0, 0, 0, 1, true, false) && s.producer == Filled(0)
    requires s.consumer.Consuming? && s.pushed == []
    ensures Next(s, PushIndex) == Some(s.(producer := Indexed, pushed := [0]))
    ensures Next(s.(producer := Indexed, pushed := [0]), PushSize)
         == Some(s.(producer := Producing, pushed := [0], ring := s.ring.(size := 1)))
  {
    assert s.pushed + [0] == [0];
  }

  /** The frame is shown, and kept. */
  lemma ShowsOnlySlot(s: System)
    requires s.ring == Ring([Some(0)], 0, 0, 1, 1, true, false) && s.consumer == Consuming
    ensures Next(s, CheckRemaining) == Some(s.(consumer := Ready))
  {
  }

  lemma KeepsOnlySlot(s: System)
    requires s.ring == Ring([Some(0)], 0, 0, 1, 1, true, false) && s.consumer == Ready
    ensures Next(s, BeginNext)
         == Some(s.(consumer := Consuming, ring := s.ring.(shown := true), last := s.current, current := None))
  {
  }

  lemma BothFallAsleep(s: System)
    requires s.ring == Ring([Some(0)], 0, 0, 1, 1, true, true) && !s.aborted
    requires s.consumer.Consuming? && s.producer.Producing?
    ensures Next(s, PeekReadable) == Some(s.(consumer := ConsumerAsleep))
    ensures Next(s.(consumer := ConsumerAsleep), PeekWritable)
         == Some(s.(consumer := ConsumerAsleep, producer := ProducerAsleep))
  {
  }

  lemma OneFramePushed() returns (s: System)
    ensures s == System(Ring([Some(0)], 0, 0, 1, 1, true, false), Producing, Consuming,
                        false, false, [0], 0, None, None)
    ensures Reachable(1, true, s)
  {
    s := Init(1, true);
    assert Run(s, []) == Some(s);
    FillsOnlySlot(s);
    var filled := s.(producer := Filled(0), ring := s.ring.(slots := [Some(0)]));
    Take(1, true, s, PeekWritable, s.(producer := Writable));
    Take(1, true, s.(producer := Writable), Fill(0), filled);
    PushesOnlySlot(filled);
    s := filled.(producer := Producing, pushed := [0], ring := filled.ring.(size := 1));
    Take(1, true, filled, PushIndex, filled.(producer := Indexed, pushed := [0]));
    Take(1, true, filled.(producer := Indexed, pushed := [0]), PushSize, s);
  }

  /** A ring of one slot that keeps its last frame reaches a state in which both threads sleep. */
  lemma OneKeptSlotDeadlocks() returns (s: System)
    ensures Reachable(1, true, s) && s.producer.ProducerAsleep? && s.consumer.ConsumerAsleep?
  {
    var pushed := OneFramePushed();
    ShowsOnlySlot(pushed);
    var ready := pushed.(consumer := Ready);
    KeepsOnlySlot(ready);
    var shown := ready.(consumer := Consuming, ring := ready.ring.(shown := true),
                        last := ready.current, current := None);
    Take(1, true, pushed, CheckRemaining, ready);
    Take(1, true, ready, BeginNext, shown);
    BothFallAsleep(shown);
    s := shown.(consumer := ConsumerAsleep, producer := ProducerAsleep);
    Take(1, true, shown, PeekReadable, shown.(consumer := ConsumerAsleep));
    Take(1, true, shown.(consumer := ConsumerAsleep), PeekWritable, s);
  }

  /** Both sides can be asleep at once if and only if the ring has one slot and keeps its last frame. */
  lemma BothAsleepIff(maxSize: nat, keepLast: bool)
    requires maxSize > 0
    ensures (exists s :: Reachable(maxSize, keepLast, s) && s.producer.ProducerAsleep? && s.consumer.ConsumerAsleep?)
      <==> (maxSize == 1 && keepLast)
  {
    if maxSize == 1 && keepLast {
      var s := OneKeptSlotDeadlocks();
    } else {
      forall s | Reachable(maxSize, keepLast, s)
        ensures !(s.producer.ProducerAsleep? && s.consumer.ConsumerAsleep?)
      {
        ReachableInv(maxSize, keepLast, s);
        WaitsExclude(s);
      }
    }
  }
}
