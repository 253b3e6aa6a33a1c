/**
 * The condition variables of compat/os2threads.h as a step protocol: a counter of waiters and two auto-reset
 * event semaphores that hand a wake to one waiter and an acknowledgement back to the signaller.
 * Any number of threads; signallers hold the mutex.
 */
module CondVar {
  import opened Wrappers

  type Thread = nat

  /** The flag of a signalling state tells whether it runs inside pthread_cond_broadcast. */
  datatype Pc =
    | Outside
    | Locked
    | Counted                     // pthread_cond_wait: wait_count incremented, mutex still held
    | Unlocked                    // mutex released; about to wait, or waiting, for the event
    | Woken                       // consumed the event
    | Uncounted                   // wait_count decremented
    | Relocking                   // acknowledged; wants the mutex back
    | Testing(broadcast: bool)    // pthread_cond_signal: before the test of wait_count
    | Posting(broadcast: bool)
    | AwaitingAck(broadcast: bool)
    | Looping                     // pthread_cond_broadcast: before the loop test

  datatype State = State(
    pcs: map<Thread, Pc>,
    waitCount: int,
    event: bool,
    ack: bool,
    mutex: Option<Thread>,
    carrier: Option<Thread>,      // history: who consumed the event and has not acknowledged yet
    registered: set<Thread>,      // history: the waiters when the current signal or broadcast began
    released: seq<Thread>)        // history: who consumed an event since then

  datatype Step =
    | Lock | Unlock
    | BeginWait | ReleaseMutex | TakeEvent | Decrement | PostAck | Relock
    | BeginSignal | BeginBroadcast | LoopTest | TestCount | PostEvent | TakeAck

  function Init(threads: set<Thread>): State {
    State(map t | t in threads :: Outside, 0, false, false, None, None, {}, [])
  }

  function Move(s: State, t: Thread, pc: Pc): State { s.(pcs := s.pcs[t := pc]) }

  function Waiters(pcs: map<Thread, Pc>): set<Thread> {
    set t | t in pcs && Waits(pcs[t])
  }

  predicate Waits(pc: Pc) { pc.Counted? || pc.Unlocked? || pc.Woken? }

  /** The state after thread t takes a step, or None where it cannot. */
  function Next(s: State, t: Thread, step: Step): Option<State> {
    if t !in s.pcs then None else
    match (step, s.pcs[t])
    case (Lock, Outside) =>
      if s.mutex.None? then Some(Move(s, t, Locked).(mutex := Some(t))) else None
    case (Unlock, Locked) => Some(Move(s, t, Outside).(mutex := None))
    case (BeginWait, Locked) => Some(Move(s, t, Counted).(waitCount := s.waitCount + 1))
    case (ReleaseMutex, Counted) => Some(Move(s, t, Unlocked).(mutex := None))
    case (TakeEvent, Unlocked) =>
      if s.event then
        Some(Move(s, t, Woken).(event := false, carrier := Some(t), released := s.released + [t]))
      else None
    case (Decrement, Woken) => Some(Move(s, t, Uncounted).(waitCount := s.waitCount - 1))
    case (PostAck, Uncounted) => Some(Move(s, t, Relocking).(ack := true, carrier := None))
    case (Relock, Relocking) =>
      if s.mutex.None? then Some(Move(s, t, Locked).(mutex := Some(t))) else None
    case (BeginSignal, Locked) =>
      Some(Move(s, t, Testing(false)).(registered := Waiters(s.pcs), released := []))
    case (BeginBroadcast, Locked) =>
      Some(Move(s, t, Looping).(registered := Waiters(s.pcs), released := []))
    case (LoopTest, Looping) =>
      Some(Move(s, t, if s.waitCount != 0 then Testing(true) else Locked))
    case (TestCount, Testing(b)) =>
      Some(Move(s, t, if s.waitCount != 0 then Posting(b) else AfterSignal(b)))
    case (PostEvent, Posting(b)) => Some(Move(s, t, AwaitingAck(b)).(event := true))
    case (TakeAck, AwaitingAck(b)) =>
      if s.ack then Some(Move(s, t, AfterSignal(b)).(ack := false)) else None
    case _ => None
  }

  function AfterSignal(broadcast: bool): Pc { if broadcast then Looping else Locked }

  function Run(s: State, steps: seq<(Thread, Step)>): Option<State>
    decreases |steps|
  {
    if steps == [] then Some(s)
    else
      var before := Run(s, steps[..|steps| - 1]);
      if before.None? then None
      else Next(before.value, steps[|steps| - 1].0, steps[|steps| - 1].1)
  }

  // -------------------------------------------------------------------------------------------- the invariant

  predicate HoldsMutex(pc: Pc) {
    pc.Locked? || pc.Counted? || pc.Testing? || pc.Posting? || pc.AwaitingAck? || pc.Looping?
  }

  predicate Signalling(pc: Pc) { pc.Testing? || pc.Posting? || pc.AwaitingAck? || pc.Looping? }

  predicate Broadcasting(pc: Pc) { pc.Looping? || (Signalling(pc) && pc.broadcast) }

  function Count(b: bool): int { if b then 1 else 0 }

  /** Who holds the mutex, and where it stands. */
  ghost predicate MutexInv(s: State) {
    && (s.mutex.Some? ==> s.mutex.value in s.pcs)
    && (forall t :: t in s.pcs ==> (HoldsMutex(s.pcs[t]) <==> s.mutex == Some(t)))
  }

  /** The thread that consumed an event and has not acknowledged it yet. */
  ghost predicate CarrierInv(s: State) {
    && (forall t :: t in s.pcs ==> (s.pcs[t].Woken? || s.pcs[t].Uncounted? <==> s.carrier == Some(t)))
    && (s.carrier.Some? ==> s.carrier.value in s.pcs)
  }

  /** One token goes round while a signaller awaits its ack: the event, the woken thread, or the ack. */
  ghost predicate TokenInv(s: State)
    requires MutexInv(s)
  {
    && CarrierInv(s)
    && Count(s.event) + Count(s.carrier.Some?) + Count(s.ack)
       == Count(s.mutex.Some? && s.pcs[s.mutex.value].AwaitingAck?)
    && (s.event || (s.mutex.Some? && s.pcs[s.mutex.value] in {Testing(true), Posting(true), Posting(false)}) ==>
          s.waitCount > 0)
  }

  ghost predicate Distinct(ts: seq<Thread>) {
    forall i, j :: 0 <= i < j < |ts| ==> ts[i] != ts[j]
  }

  /** The registered waiters are those released so far, each once, and those still to be released. */
  ghost predicate ReleaseInv(s: State)
    requires MutexInv(s)
  {
    s.mutex.Some? && Signalling(s.pcs[s.mutex.value]) ==>
      && Distinct(s.released)
      && (forall t :: t in s.registered <==> t in s.released || (t in s.pcs && s.pcs[t].Unlocked?))
      && (forall t :: t in s.released ==> t in s.pcs && !s.pcs[t].Unlocked?)
      && (!Broadcasting(s.pcs[s.mutex.value]) ==>
            |s.released| == Count(s.carrier.Some? || s.ack))
  }

  ghost predicate Inv(s: State) {
    && MutexInv(s)
    && s.waitCount == |Waiters(s.pcs)|
    && TokenInv(s)
    && ReleaseInv(s)
  }

  lemma WaitersMove(pcs: map<Thread, Pc>, t: Thread, pc: Pc)
    requires t in pcs
    ensures |Waiters(pcs[t := pc])| == |Waiters(pcs)| + Count(Waits(pc)) - Count(Waits(pcs[t]))
  {
    var w := Waiters(pcs);
    assert Waiters(pcs[t := pc]) == if Waits(pc) then w + {t} else w - {t};
    OneMoreOrLess(w, t);
  }

  lemma OneMoreOrLess(w: set<Thread>, t: Thread)
    ensures |w + {t}| == |w| + 1 - Count(t in w)
    ensures |w - {t}| == |w| - Count(t in w)
  {
    if t in w {
      assert w + {t} == w;
      assert w == (w - {t}) + {t};
    } else {
      assert w - {t} == w;
    }
  }

  lemma MutexStep(s: State, t: Thread, step: Step)
    requires MutexInv(s) && Next(s, t, step).Some?
    ensures MutexInv(Next(s, t, step).value)
  {
  }

  /** A step moves its own thread only. */
  lemma OneThreadMoves(s: State, t: Thread, step: Step)
    requires Next(s, t, step).Some?
    ensures t in s.pcs && t in Next(s, t, step).value.pcs
    ensures Next(s, t, step).value.pcs == s.pcs[t := Next(s, t, step).value.pcs[t]]
  {
  }

  lemma CountMoves(s: State, t: Thread, step: Step)
    requires Next(s, t, step).Some? && t in s.pcs && t in Next(s, t, step).value.pcs
    ensures Next(s, t, step).value.waitCount
      == s.waitCount + Count(Waits(Next(s, t, step).value.pcs[t])) - Count(Waits(s.pcs[t]))
  {
  }

  lemma CountStep(s: State, t: Thread, step: Step)
    requires s.waitCount == |Waiters(s.pcs)| && Next(s, t, step).Some?
    ensures Next(s, t, step).value.waitCount == |Waiters(Next(s, t, step).value.pcs)|
  {
    OneThreadMoves(s, t, step);
    CountMoves(s, t, step);
    WaitersMove(s.pcs, t, Next(s, t, step).value.pcs[t]);
  }

  lemma CarrierStep(s: State, t: Thread, step: Step)
    requires MutexInv(s) && TokenInv(s) && Next(s, t, step).Some?
    ensures MutexInv(Next(s, t, step).value) && CarrierInv(Next(s, t, step).value)
  {
    MutexStep(s, t, step);
    OneThreadMoves(s, t, step);
  }

  lemma TokenStep(s: State, t: Thread, step: Step)
    requires MutexInv(s) && s.waitCount == |Waiters(s.pcs)| && TokenInv(s) && Next(s, t, step).Some?
    ensures MutexInv(Next(s, t, step).value) && TokenInv(Next(s, t, step).value)
  {
    CarrierStep(s, t, step);
  }

  lemma ReleaseBegins(s: State, t: Thread, step: Step)
    requires MutexInv(s) && TokenInv(s) && Next(s, t, step).Some? && (step.BeginSignal? || step.BeginBroadcast?)
    ensures MutexInv(Next(s, t, step).value) && ReleaseInv(Next(s, t, step).value)
  {
  }

  lemma ReleaseTakes(s: State, t: Thread)
    requires MutexInv(s) && TokenInv(s) && ReleaseInv(s) && Next(s, t, TakeEvent).Some?
    ensures MutexInv(Next(s, t, TakeEvent).value) && ReleaseInv(Next(s, t, TakeEvent).value)
  {
  }

  /** Any other step leaves alone who was released and, while somebody signals, who is still to be. */
  ghost predicate Rest(s: State, t: Thread, u: State) {
    && t in s.pcs && t in u.pcs && u.pcs == s.pcs[t := u.pcs[t]]
    && u.released == s.released && u.registered == s.registered
    && (u.mutex.Some? && u.mutex.value in u.pcs && Signalling(u.pcs[u.mutex.value]) ==>
          && u.mutex == s.mutex && s.mutex.value in s.pcs && Signalling(s.pcs[s.mutex.value])
          && (u.pcs[t].Unlocked? <==> s.pcs[t].Unlocked?)
          && (!Broadcasting(u.pcs[u.mutex.value]) ==>
                !Broadcasting(s.pcs[s.mutex.value]) && (u.carrier.Some? || u.ack <==> s.carrier.Some? || s.ack)))
  }

  lemma RestIs(s: State, t: Thread, step: Step)
    requires MutexInv(s) && TokenInv(s) && Next(s, t, step).Some?
    requires !step.BeginSignal? && !step.BeginBroadcast? && !step.TakeEvent?
    ensures Rest(s, t, Next(s, t, step).value)
  {
    OneThreadMoves(s, t, step);
  }

  lemma ReleaseRest(s: State, t: Thread, u: State)
    requires MutexInv(s) && MutexInv(u) && ReleaseInv(s) && Rest(s, t, u)
    ensures ReleaseInv(u)
  {
  }

  lemma ReleaseStep(s: State, t: Thread, step: Step)
    requires MutexInv(s) && TokenInv(s) && ReleaseInv(s) && Next(s, t, step).Some?
    ensures MutexInv(Next(s, t, step).value) && ReleaseInv(Next(s, t, step).value)
  {
    match step
    case BeginSignal => ReleaseBegins(s, t, step);
    case BeginBroadcast => ReleaseBegins(s, t, step);
    case TakeEvent => ReleaseTakes(s, t);
    case _ =>
      MutexStep(s, t, step);
      RestIs(s, t, step);
      ReleaseRest(s, t, Next(s, t, step).value);
  }

  lemma StepInv(s: State, t: Thread, step: Step)
    requires Inv(s) && Next(s, t, step).Some?
    ensures Inv(Next(s, t, step).value)
  {
    CountStep(s, t, step);
    TokenStep(s, t, step);
    ReleaseStep(s, t, step);
  }

  lemma {:induction false} RunInv(threads: set<Thread>, steps: seq<(Thread, Step)>)
    requires Run(Init(threads), steps).Some?
    ensures Inv(Run(Init(threads), steps).value)
    decreases |steps|
  {
    if steps == [] {
      assert Waiters(Init(threads).pcs) == {};
    } else {
      var n := |steps| - 1;
      RunInv(threads, steps[..n]);
      StepInv(Run(Init(threads), steps[..n]).value, steps[n].0, steps[n].1);
    }
  }

  ghost predicate Reachable(s: State) {
    exists threads, steps :: Run(Init(threads), steps) == Some(s)
  }

  lemma ReachableInv(s: State)
    requires Reachable(s)
    ensures Inv(s)
  {
    var threads, steps :| Run(Init(threads), steps) == Some(s);
    RunInv(threads, steps);
  }

  // -------------------------------------------------------------------------------------------- main results

  /** wait_count is the number of threads between their increment and their decrement. */
  lemma WaitCountIsExact(s: State)
    requires Reachable(s)
    ensures s.waitCount == |Waiters(s.pcs)|
  {
    ReachableInv(s);
  }

  /** At most one event, wake in flight or ack is outstanding, and one is exactly while a signaller awaits it. */
  lemma OneTokenAtMost(s: State)
    requires Reachable(s)
    ensures Count(s.event) + Count(s.carrier.Some?) + Count(s.ack) <= 1
    ensures forall t :: t in s.pcs ==> (s.pcs[t].Woken? || s.pcs[t].Uncounted? <==> s.carrier == Some(t))
    ensures s.event || s.carrier.Some? || s.ack <==>
      (exists t :: t in s.pcs && s.pcs[t].AwaitingAck?)
  {
    ReachableInv(s);
    if s.event || s.carrier.Some? || s.ack {
      assert s.pcs[s.mutex.value].AwaitingAck?;
    }
  }

  /** A thread that waits for a positive count with the mutex taken and nobody woken is past its unlock. */
  lemma SomeoneUnlocked(s: State) returns (t: Thread)
    requires Inv(s) && s.waitCount > 0 && s.carrier.None?
    requires s.mutex.Some? && !s.pcs[s.mutex.value].Counted?
    ensures t in s.pcs && s.pcs[t].Unlocked?
  {
    assert Waiters(s.pcs) != {};
    t :| t in Waiters(s.pcs);
  }

  lemma NobodyUnlocked(s: State)
    requires |Waiters(s.pcs)| == 0
    ensures forall u :: u in s.pcs ==> !s.pcs[u].Unlocked?
  {
    assert Waiters(s.pcs) == {};
    assert forall u :: u in s.pcs && s.pcs[u].Unlocked? ==> u in Waiters(s.pcs);
  }

  /** No wake is lost in the gap between unlocking and waiting: a posted event finds a waiter that can take it. */
  lemma PostedEventIsTaken(s: State) returns (t: Thread)
    requires Reachable(s) && s.event
    ensures Next(s, t, TakeEvent).Some?
  {
    ReachableInv(s);
    t := SomeoneUnlocked(s);
  }

  /** While a signaller awaits its ack, a step of the handshake is possible for it or for a waiter. */
  lemma AwaitedAckComes(s: State, signaller: Thread) returns (t: Thread, step: Step)
    requires Reachable(s) && signaller in s.pcs && s.pcs[signaller].AwaitingAck?
    ensures Next(s, t, step).Some?
    ensures step in {TakeEvent, Decrement, PostAck, TakeAck}
  {
    ReachableInv(s);
    if s.event {
      step := TakeEvent;
      t := SomeoneUnlocked(s);
    } else if s.carrier.Some? {
      t := s.carrier.value;
      step := if s.pcs[t].Woken? then Decrement else PostAck;
    } else {
      step, t := TakeAck, signaller;
    }
  }

  /** pthread_cond_signal returns after releasing exactly one of the waiters, or none because there is none. */
  lemma SignalReleasesOne(s: State, t: Thread, step: Step)
    requires Reachable(s) && Next(s, t, step).Some?
    requires s.pcs[t] in {Testing(false), AwaitingAck(false)} && Next(s, t, step).value.pcs[t].Locked?
    ensures if s.registered == {} then s.released == [] else |s.released| == 1 && s.released[0] in s.registered
  {
    ReachableInv(s);
    if step.TestCount? {
      NobodyUnlocked(s);
    } else {
      assert s.released[0] in s.released;
    }
  }

  /** pthread_cond_broadcast returns after releasing every waiter that was registered, each exactly once. */
  lemma BroadcastReleasesAllOnce(s: State, t: Thread)
    requires Reachable(s) && t in s.pcs && s.pcs[t].Looping?
    requires Next(s, t, LoopTest).value.pcs[t].Locked?
    ensures Distinct(s.released)
    ensures forall u :: u in s.registered <==> u in s.released
  {
    ReachableInv(s);
    NobodyUnlocked(s);
  }

  // ---------------------------------------------------------------------------------- broadcast terminates

  ghost predicate InBroadcast(s: State) {
    s.mutex.Some? && s.mutex.value in s.pcs && Broadcasting(s.pcs[s.mutex.value])
  }

  /** Steps a broadcast can still take, whoever takes them. */
  ghost function StepsLeft(s: State): int
    requires InBroadcast(s)
  {
    7 * s.waitCount +
    match s.pcs[s.mutex.value]
    case Looping => 1
    case Testing(_) => 0
    case Posting(_) => -1
    case _ =>
      if s.event then -2
      else if s.ack then 2
      else if s.carrier.Some? && s.carrier.value in s.pcs && s.pcs[s.carrier.value].Woken? then -3
      else 3
  }

  lemma StepsLeftIsPositive(s: State)
    requires Inv(s) && InBroadcast(s)
    ensures StepsLeft(s) > 0
  {
    if s.carrier.Some? && s.pcs[s.carrier.value].Woken? {
      assert s.carrier.value in Waiters(s.pcs);
    }
  }

  /** Every step of any thread while a broadcast holds the mutex brings the broadcast nearer to its end. */
  lemma BroadcastStepCounts(s: State, t: Thread, step: Step)
    requires Inv(s) && InBroadcast(s) && Next(s, t, step).Some?
    ensures var s' := Next(s, t, step).value;
      if InBroadcast(s') then StepsLeft(s') == StepsLeft(s) - 1
      else s.pcs[t].Looping? && s'.pcs[t].Locked?
  {
    StepsLeftIsPositive(s);
  }

  /** While a broadcast holds the mutex some step is always possible. */
  lemma BroadcastIsNotStuck(s: State) returns (t: Thread, step: Step)
    requires Reachable(s) && InBroadcast(s)
    ensures Next(s, t, step).Some?
  {
    ReachableInv(s);
    t := s.mutex.value;
    match s.pcs[t]
    case Looping => step := LoopTest;
    case Testing(_) => step := TestCount;
    case Posting(_) => step := PostEvent;
    case _ => t, step := AwaitedAckComes(s, t);
  }

  /** The steps can be taken one after the other without leaving the broadcast. */
  ghost predicate Stays(s: State, steps: seq<(Thread, Step)>)
    decreases |steps|
  {
    && Run(s, steps).Some? && InBroadcast(Run(s, steps).value)
    && (steps == [] || Stays(s, steps[..|steps| - 1]))
  }

  /** A run that stays inside one broadcast takes fewer steps than were left at its start. */
  lemma {:induction false} BroadcastTerminates(s: State, steps: seq<(Thread, Step)>)
    requires Inv(s) && Stays(s, steps)
    ensures Inv(Run(s, steps).value) && InBroadcast(s)
    ensures StepsLeft(Run(s, steps).value) == StepsLeft(s) - |steps|
    ensures |steps| < StepsLeft(s)
    decreases |steps|
  {
    if steps == [] {
      StepsLeftIsPositive(s);
    } else {
      var n := |steps| - 1;
      BroadcastTerminates(s, steps[..n]);
      var before := Run(s, steps[..n]).value;
      BroadcastStepCounts(before, steps[n].0, steps[n].1);
      StepInv(before, steps[n].0, steps[n].1);
      StepsLeftIsPositive(Run(s, steps).value);
    }
  }
}
