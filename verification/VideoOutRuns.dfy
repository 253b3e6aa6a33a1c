/** What do_video_out keeps over whole runs: frame conservation, increasing timestamps and bounded CFR drift. */
module VideoOutRuns {
  import opened Wrappers
  import opened Mathematics
  import opened VideoOut

  lemma MidPredIsMedian(a: int, b: int, c: int)
    ensures MidPred(a, b, c) == a + b + c - Min(a, Min(b, c)) + Min(-a, Min(-b, -c))
  {
  }

  // --------------------------------------------------------------------------------------- the encoding loop

  /** t is s after k frames with consecutive timestamps, the first of them iteration i. */
  ghost predicate Burst(s: VideoState, t: VideoState, k: nat) {
    && |t.sent| == |s.sent| + k && t.sent[..|s.sent|] == s.sent
    && (forall j :: |s.sent| <= j < |t.sent| ==> t.sent[j].pts == s.syncOpts + j - |s.sent|)
    && t == s.(sent := t.sent, syncOpts := s.syncOpts + k, frameNumber := s.frameNumber + k)
  }

  /** The previous picture opens the burst, the new one fills the rest. */
  ghost predicate BurstIds(s: VideoState, t: VideoState, input: Input, i: int, nb0: int)
    requires |s.sent| <= |t.sent|
  {
    forall j :: |s.sent| <= j < |t.sent| ==> IdAt(s, t.sent[j].id, input, i + j - |s.sent|, nb0)
  }

  ghost predicate IdAt(s: VideoState, id: int, input: Input, i: int, nb0: int) {
    if i < nb0 && s.lastFrame.Some? then id == s.lastFrame.value else input.Picture? && id == input.id
  }

  lemma BurstGoesOn(s: VideoState, id: int, t: VideoState, k: nat)
    requires Burst(EncodeOne(s, id), t, k)
    ensures Burst(s, t, k + 1) && t.sent[|s.sent|].id == id
  {
    var s' := EncodeOne(s, id);
    assert t.sent[|s.sent|] == t.sent[..|s'.sent|][|s.sent|];
    assert t.sent[..|s.sent|] == t.sent[..|s'.sent|][..|s.sent|];
  }

  lemma BurstIdsGoOn(s: VideoState, id: int, t: VideoState, input: Input, i: int, nb0: int)
    requires |s.sent| < |t.sent| && BurstIds(EncodeOne(s, id), t, input, i + 1, nb0)
    requires t.sent[|s.sent|].id == id
    requires IdAt(s, id, input, i, nb0)
    ensures BurstIds(s, t, input, i, nb0)
  {
    var s' := EncodeOne(s, id);
    forall j | |s'.sent| <= j < |t.sent|
      ensures IdAt(s, t.sent[j].id, input, i + j - |s.sent|, nb0)
    {
      assert i + 1 + j - |s'.sent| == i + j - |s.sent|;
      assert IdAt(s', t.sent[j].id, input, i + 1 + j - |s'.sent|, nb0);
    }
  }

  lemma {:induction false} EmitBurst(cfg: Config, s: VideoState, input: Input, i: int, plan: Plan) returns (k: nat)
    requires 0 <= i
    ensures var (t, outcome) := Emit(cfg, s, input, i, plan);
      && Burst(s, t, k) && BurstIds(s, t, input, i, plan.nb0)
      && outcome != TooManyDups
      && (outcome.Done? ==> k == if i < plan.nb then plan.nb - i else 0)
      && (!outcome.Done? ==> i + k < plan.nb)
      && (outcome.NoPicture? ==> input.Closing?)
    decreases plan.nb - i
  {
    k := 0;
    if i < plan.nb && ((i < plan.nb0 && s.lastFrame.Some?) || input.Picture?) && cfg.inTime(s.syncOpts) {
      var id := if i < plan.nb0 && s.lastFrame.Some? then s.lastFrame.value else input.id;
      var s' := EncodeOne(s, id);
      k := EmitBurst(cfg, s', input, i + 1, plan);
      var t := Emit(cfg, s', input, i + 1, plan).0;
      BurstGoesOn(s, id, t, k);
      BurstIdsGoOn(s, id, t, input, i, plan.nb0);
      k := k + 1;
    }
  }

  // ------------------------------------------------------------------------------------- frame conservation

  /** Frames encoded beyond pictures received + duplicated - dropped, a pending last_dropped being one drop. */
  function Imbalance(s: VideoState): int {
    |s.sent| - (s.received + s.dup - s.drop - Indicator(s.lastDropped))
  }

  ghost predicate WellFormed(s: VideoState) {
    && |s.lastNb0| == 3 && (forall i :: 0 <= i < 3 ==> s.lastNb0[i] >= 0)
    && 0 <= s.frameNumber <= s.maxFrames
  }

  lemma PlanIsNatural(cfg: Config, s: VideoState, input: Input)
    requires WellFormed(s) && Nearest(cfg.round)
    ensures var plan := FinalPlan(cfg, s, input); 0 <= plan.nb0 <= plan.nb <= s.maxFrames - s.frameNumber
  {
    if input.Picture? {
      var early := input.syncIpts - s.syncOpts as real;
      var delta := early + input.duration;
      assert -0.5 <= cfg.round(delta) as real - delta <= 0.5;
      assert -0.5 <= cfg.round(input.duration) as real - input.duration <= 0.5;
      assert -0.5 <= cfg.round(early - 0.6) as real - (early - 0.6) <= 0.5;
    }
  }

  lemma KeepsWellFormed(cfg: Config, s: VideoState, input: Input)
    requires WellFormed(s) && Nearest(cfg.round)
    ensures WellFormed(DoVideoOut(cfg, s, input).0)
    ensures DoVideoOut(cfg, s, input).0.maxFrames == s.maxFrames
  {
    PlanIsNatural(cfg, s, input);
    var (t, accepted) := Account(cfg, s, input);
    if accepted {
      var _ := EmitBurst(cfg, t, input, 0, FinalPlan(cfg, s, input));
    }
  }

  /** Iteration j of the loop has a picture to encode and is within the recording time. */
  ghost predicate CanEncode(cfg: Config, previous: Option<int>, input: Input, plan: Plan, j: int) {
    && ((j < plan.nb0 && previous.Some?) || input.Picture?)
    && cfg.inTime(plan.syncOpts + j)
  }

  lemma {:induction false} EmitEndsIff(cfg: Config, s: VideoState, input: Input, i: int, plan: Plan)
    requires s.syncOpts == plan.syncOpts + i
    ensures Emit(cfg, s, input, i, plan).1.Done? <==>
      forall j :: i <= j < plan.nb ==> CanEncode(cfg, s.lastFrame, input, plan, j)
    decreases plan.nb - i
  {
    if i < plan.nb && CanEncode(cfg, s.lastFrame, input, plan, i) {
      var id := if i < plan.nb0 && s.lastFrame.Some? then s.lastFrame.value else input.id;
      EmitEndsIff(cfg, EncodeOne(s, id), input, i + 1, plan);
    }
  }

  /** The guard of the refusal for too many duplicates. */
  predicate Refuses(cfg: Config, s: VideoState, plan: Plan) {
    && plan.nb > Indicator(plan.nb0 != 0 && s.lastDropped) + Indicator(plan.nb > plan.nb0)
    && plan.nb as real > cfg.dupLimit
  }

  /** The guards under which a call neither loses nor invents a frame. */
  ghost predicate KeepsBalance(cfg: Config, s: VideoState, input: Input, plan: Plan) {
    if Refuses(cfg, s, plan) then input.Picture? && !(plan.nb0 == 0 && s.lastDropped)
    else forall j :: 0 <= j < plan.nb ==> CanEncode(cfg, s.lastFrame, input, plan, j)
  }

  /** One call keeps the balance if and only if it refuses a picture without also counting the pending drop,
      or accepts and has a picture and recording time in every iteration. */
  lemma CallBalance(cfg: Config, s: VideoState, input: Input)
    requires WellFormed(s) && Nearest(cfg.round)
    ensures Imbalance(DoVideoOut(cfg, s, input).0) == Imbalance(s) <==>
      KeepsBalance(cfg, s, input, FinalPlan(cfg, s, input))
  {
    PlanIsNatural(cfg, s, input);
    var (t, accepted) := Account(cfg, s, input);
    if accepted {
      var plan := FinalPlan(cfg, s, input);
      EmitEndsIff(cfg, t, input, 0, plan);
      var _ := EmitBurst(cfg, t, input, 0, plan);
    }
  }

  /** A call ends normally if and only if it does not refuse and every iteration can encode. */
  lemma CallEndsIff(cfg: Config, s: VideoState, input: Input)
    requires |s.lastNb0| == 3
    ensures var plan := FinalPlan(cfg, s, input);
      DoVideoOut(cfg, s, input).1.Done? <==>
        !Refuses(cfg, s, plan) && forall j :: 0 <= j < plan.nb ==> CanEncode(cfg, s.lastFrame, input, plan, j)
  {
    var (t, accepted) := Account(cfg, s, input);
    if accepted {
      EmitEndsIff(cfg, t, input, 0, FinalPlan(cfg, s, input));
    }
  }

  datatype Call = Call(cfg: Config, input: Input)

  ghost predicate Rounds(calls: seq<Call>) {
    forall i :: 0 <= i < |calls| ==> Nearest(calls[i].cfg.round)
  }

  lemma KeepsHistory(cfg: Config, s: VideoState, input: Input)
    requires |s.lastNb0| == 3
    ensures |DoVideoOut(cfg, s, input).0.lastNb0| == 3
  {
    var (t, accepted) := Account(cfg, s, input);
    if accepted {
      var _ := EmitBurst(cfg, t, input, 0, FinalPlan(cfg, s, input));
    }
  }

  /** The calls in turn; true while every one of them ended normally. */
  function Run(s: VideoState, calls: seq<Call>): (r: (VideoState, bool))
    requires |s.lastNb0| == 3
    ensures |r.0.lastNb0| == 3
    decreases |calls|
  {
    if calls == [] then (s, true)
    else
      var n := |calls| - 1;
      var (t, normal) := Run(s, calls[..n]);
      KeepsHistory(calls[n].cfg, t, calls[n].input);
      var (u, outcome) := DoVideoOut(calls[n].cfg, t, calls[n].input);
      (u, normal && outcome.Done?)
  }

  lemma {:induction false} RunBalance(maxFrames: nat, calls: seq<Call>)
    requires Rounds(calls) && Run(InitialState(maxFrames), calls).1
    ensures Imbalance(Run(InitialState(maxFrames), calls).0) == 0
    ensures WellFormed(Run(InitialState(maxFrames), calls).0)
    decreases |calls|
  {
    if calls != [] {
      var n := |calls| - 1;
      RunBalance(maxFrames, calls[..n]);
      var s := Run(InitialState(maxFrames), calls[..n]).0;
      KeepsWellFormed(calls[n].cfg, s, calls[n].input);
      CallEndsIff(calls[n].cfg, s, calls[n].input);
      CallBalance(calls[n].cfg, s, calls[n].input);
    }
  }

  /** With a negative max_frames every picture is refused silently: the plan is the same negative number twice. */
  lemma NegativeCapPlan(cfg: Config, s: VideoState, input: Input)
    requires |s.lastNb0| == 3 && Nearest(cfg.round) && s.maxFrames - s.frameNumber < 0
    ensures var plan := FinalPlan(cfg, s, input); plan.nb == plan.nb0 < 0
  {
    if input.Picture? {
      var early := input.syncIpts - s.syncOpts as real;
      assert -0.5 <= cfg.round(early - 0.6) as real - (early - 0.6) <= 0.5;
    }
  }

  ghost predicate AllPictures(calls: seq<Call>) {
    forall i :: 0 <= i < |calls| ==> calls[i].input.Picture?
  }

  lemma {:induction false} NegativeCapRun(maxFrames: int, calls: seq<Call>)
    requires maxFrames < 0 && Rounds(calls) && AllPictures(calls)
    ensures var s := Run(InitialState(maxFrames), calls).0;
      && s.sent == [] && s.frameNumber == 0 && s.maxFrames == maxFrames
      && s.dup == s.drop == 0 && s.received == |calls| && (s.lastDropped <==> calls != [])
    decreases |calls|
  {
    if calls != [] {
      var n := |calls| - 1;
      NegativeCapRun(maxFrames, calls[..n]);
      NegativeCapPlan(calls[n].cfg, Run(InitialState(maxFrames), calls[..n]).0, calls[n].input);
    }
  }

  /** Frame conservation for a whole stream, the closing call included: frames encoded == pictures received
      + counted as duplicated - counted as dropped, if and only if max_frames is not negative. */
  lemma ConservationIff(maxFrames: int, calls: seq<Call>, closing: Config)
    requires Rounds(calls) && AllPictures(calls) && calls != [] && Nearest(closing.round)
    requires Run(InitialState(maxFrames), calls + [Call(closing, Closing)]).1
    ensures var s := Run(InitialState(maxFrames), calls + [Call(closing, Closing)]).0;
      && !s.lastDropped
      && (|s.sent| == s.received + s.dup - s.drop <==> maxFrames >= 0)
  {
    var all := calls + [Call(closing, Closing)];
    assert all[..|calls|] == calls;
    var before := Run(InitialState(maxFrames), calls).0;
    if maxFrames >= 0 {
      RunBalance(maxFrames, all);
      var _ := EmitBurst(closing, Account(closing, before, Closing).0, Closing, 0, FinalPlan(closing, before, Closing));
    } else {
      NegativeCapRun(maxFrames, calls);
      NegativeCapPlan(closing, before, Closing);
    }
  }

  // -------------------------------------------------------------------------------- increasing timestamps

  ghost predicate Increasing(s: VideoState) {
    && (forall i, j :: 0 <= i < j < |s.sent| ==> s.sent[i].pts < s.sent[j].pts)
    && (forall i :: 0 <= i < |s.sent| ==> s.sent[i].pts < s.syncOpts)
  }

  ghost predicate Ordering(vsync: SyncMethod) {
    vsync != Drop && vsync != Passthrough
  }

  /** The sync counter is never moved back, for any input time and duration. */
  lemma SyncNeverMovesBack(cfg: Config, s: VideoState, input: Input)
    requires |s.lastNb0| == 3 && Nearest(cfg.round) && Ordering(cfg.vsync)
    ensures FinalPlan(cfg, s, input).syncOpts >= s.syncOpts
  {
    if input.Picture? {
      assert -0.5 <= cfg.round(input.syncIpts) as real - input.syncIpts <= 0.5;
      assert -0.5 <= cfg.round(s.syncOpts as real) as real - s.syncOpts as real <= 0.5;
    }
  }

  lemma BurstIncreasing(s: VideoState, t: VideoState, k: nat)
    requires Increasing(s) && Burst(s, t, k)
    ensures Increasing(t)
  {
    forall i | 0 <= i < |s.sent|
      ensures t.sent[i] == s.sent[i]
    {
      assert t.sent[..|s.sent|][i] == s.sent[i];
    }
  }

  lemma CallIncreasing(cfg: Config, s: VideoState, input: Input)
    requires |s.lastNb0| == 3 && Nearest(cfg.round) && Ordering(cfg.vsync) && Increasing(s)
    ensures Increasing(DoVideoOut(cfg, s, input).0)
  {
    SyncNeverMovesBack(cfg, s, input);
    var (t, accepted) := Account(cfg, s, input);
    assert Increasing(t);
    if accepted {
      var k := EmitBurst(cfg, t, input, 0, FinalPlan(cfg, s, input));
      BurstIncreasing(t, Emit(cfg, t, input, 0, FinalPlan(cfg, s, input)).0, k);
    }
  }

  /** Timestamps given to the encoder strictly increase over the whole run, early returns included. */
  lemma {:induction false} RunIncreasing(maxFrames: int, calls: seq<Call>)
    requires Rounds(calls) && forall i :: 0 <= i < |calls| ==> Ordering(calls[i].cfg.vsync)
    ensures Increasing(Run(InitialState(maxFrames), calls).0)
    decreases |calls|
  {
    if calls != [] {
      var n := |calls| - 1;
      RunIncreasing(maxFrames, calls[..n]);
      CallIncreasing(calls[n].cfg, Run(InitialState(maxFrames), calls[..n]).0, calls[n].input);
    }
  }

  /** The calls of a program for these pictures. */
  function CallsOf(setup: Setup, pictures: seq<Next>): (calls: seq<Call>)
    requires setup.Valid()
    ensures |calls| == |pictures|
  {
    seq(|pictures|, i requires 0 <= i < |pictures| => Call(ConfigOf(setup), InputOf(setup, pictures[i])))
  }

  /** VSYNC_AUTO for a stream of this format. */
  ghost predicate Automatic(setup: Setup, format: Format) {
    setup.vsync.None? && setup.format == format && setup.Valid() && Nearest(setup.round)
  }

  ghost predicate AlwaysIncreasing(format: Format) {
    forall setup, pictures, maxFrames :: Automatic(setup, format) ==>
      Increasing(Run(InitialState(maxFrames), CallsOf(setup, pictures)).0)
  }

  lemma PassthroughStep(cfg: Config, s: VideoState, input: Input)
    requires cfg.vsync == Passthrough && cfg.dupLimit >= 1.0 && input.Picture?
    requires |s.lastNb0| == 3 && s.frameNumber < s.maxFrames && cfg.inTime(cfg.round(input.syncIpts))
    ensures var t := DoVideoOut(cfg, s, input).0;
      && t.sent == s.sent + [Sent(input.id, cfg.round(input.syncIpts))]
      && t.frameNumber == s.frameNumber + 1 && t.maxFrames == s.maxFrames
  {
    var t := Account(cfg, s, input).0;
    var plan := FinalPlan(cfg, s, input);
    assert plan == Plan(cfg.round(input.syncIpts), 1, 0);
    assert Emit(cfg, EncodeOne(t, input.id), input, 1, plan) == (EncodeOne(t, input.id), Done);
  }

  /** Two pictures, the second one tick before the first. */
  lemma TwoPicturesGoBack(a: Call, b: Call)
    requires a.cfg == b.cfg && a.cfg.vsync == Passthrough && a.cfg.dupLimit >= 1.0
    requires a.input.Picture? && b.input.Picture?
    requires a.cfg.round(a.input.syncIpts) == 1 && a.cfg.round(b.input.syncIpts) == 0
    requires a.cfg.inTime(1) && a.cfg.inTime(0)
    ensures !Increasing(Run(InitialState(2), [a, b]).0)
  {
    var s := InitialState(2);
    var calls := [a, b];
    assert calls[..1] == [a] && calls[..1][..0] == [];
    assert Run(s, []) == (s, true);
    PassthroughStep(a.cfg, s, a.input);
    var t := Run(s, [a]).0;
    assert t == DoVideoOut(a.cfg, s, a.input).0;
    PassthroughStep(b.cfg, t, b.input);
    var u := Run(s, calls).0;
    assert u.sent[0].pts == 1 && u.sent[1].pts == 0;
  }

  lemma PassthroughGoesBack(format: Format)
    requires !format.avi && format.variableFps && format.noTimestamps
    ensures !AlwaysIncreasing(format)
  {
    var one := Rational(1, 1);
    var setup := Setup(None, format, false, None, true, one, one, None, 0.0, 1.0, x => (x + 0.5).Floor, _ => true);
    var pictures := [Frame(0, 1.0, 0), Frame(1, 0.0, 0)];
    var calls := CallsOf(setup, pictures);
    assert calls == [calls[0], calls[1]];
    TwoPicturesGoBack(calls[0], calls[1]);
    assert Automatic(setup, format);
    assert !Increasing(Run(InitialState(2), CallsOf(setup, pictures)).0);
  }

  /** With VSYNC_AUTO timestamps strictly increase in every run if and only if the format is "avi", has a fixed
      frame rate or has timestamps. */
  lemma AutomaticMethodIncreasesIff(format: Format)
    ensures AlwaysIncreasing(format) <==> format.avi || !format.variableFps || !format.noTimestamps
  {
    if format.avi || !format.variableFps || !format.noTimestamps {
      forall setup, pictures, maxFrames | Automatic(setup, format)
        ensures Increasing(Run(InitialState(maxFrames), CallsOf(setup, pictures)).0)
      {
        RunIncreasing(maxFrames, CallsOf(setup, pictures));
      }
    } else {
      PassthroughGoesBack(format);
    }
  }

  /** For the two methods left out, the next picture increases if and only if its rounded time has not gone back. */
  lemma PassthroughIncreasesIff(cfg: Config, s: VideoState, input: Input)
    requires |s.lastNb0| == 3 && !Ordering(cfg.vsync) && input.Picture?
    requires s.sent != [] && Increasing(s) && s.sent[|s.sent| - 1].pts == s.syncOpts - 1
    requires DoVideoOut(cfg, s, input).1.Done? && s.frameNumber < s.maxFrames
    ensures Increasing(DoVideoOut(cfg, s, input).0) <==> cfg.round(input.syncIpts) >= s.syncOpts
  {
    var t := Account(cfg, s, input).0;
    var plan := FinalPlan(cfg, s, input);
    var k := EmitBurst(cfg, t, input, 0, plan);
    var u := DoVideoOut(cfg, s, input).0;
    assert u.sent[..|s.sent|][|s.sent| - 1] == s.sent[|s.sent| - 1];
    assert u.sent[|s.sent|].pts == cfg.round(input.syncIpts);
    if cfg.round(input.syncIpts) >= s.syncOpts {
      BurstIncreasing(t, Emit(cfg, t, input, 0, plan).0, k);
    }
  }

  // --------------------------------------------------------------------------------------- picture order

  /** Encoded pictures never go back, and none is newer than the last one received. */
  ghost predicate InOrder(s: VideoState, newest: int) {
    && (forall i, j :: 0 <= i < j < |s.sent| ==> s.sent[i].id <= s.sent[j].id)
    && (s.lastFrame.Some? ==> s.lastFrame.value <= newest)
    && (forall i :: 0 <= i < |s.sent| ==> s.sent[i].id <= newest)
    && (forall i :: 0 <= i < |s.sent| && s.lastFrame.Some? ==> s.sent[i].id <= s.lastFrame.value)
  }

  /** A call that ends normally encodes the previous picture before the new one and nothing else. */
  lemma CallInOrder(cfg: Config, s: VideoState, input: Input, newest: int)
    requires |s.lastNb0| == 3 && InOrder(s, newest) && (input.Picture? ==> input.id > newest)
    requires DoVideoOut(cfg, s, input).1.Done?
    ensures InOrder(DoVideoOut(cfg, s, input).0, if input.Picture? then input.id else newest)
  {
    var t := Account(cfg, s, input).0;
    var plan := FinalPlan(cfg, s, input);
    var k := EmitBurst(cfg, t, input, 0, plan);
    var u := DoVideoOut(cfg, s, input).0;
    forall i | 0 <= i < |s.sent|
      ensures u.sent[i] == s.sent[i]
    {
      assert u.sent[..|s.sent|][i] == s.sent[i];
    }
  }

  // ----------------------------------------------------------------------------------------- where a picture goes

  function MaxReal(a: real, b: real): real { if a < b then b else a }

  /** A whole number is rounded to itself. */
  lemma RoundsWholes(round: real -> int, n: int)
    requires Nearest(round)
    ensures round(n as real) == n
  {
    assert -0.5 <= round(n as real) as real - n as real <= 0.5;
  }

  /** A call that plans one frame and ends normally encodes the new picture once, at the planned time. */
  lemma OneNewFrame(cfg: Config, s: VideoState, input: Input)
    requires |s.lastNb0| == 3 && input.Picture? && DoVideoOut(cfg, s, input).1.Done?
    requires FinalPlan(cfg, s, input).nb == 1 && FinalPlan(cfg, s, input).nb0 == 0
    ensures DoVideoOut(cfg, s, input).0.sent == s.sent + [Sent(input.id, FinalPlan(cfg, s, input).syncOpts)]
    ensures DoVideoOut(cfg, s, input).0.syncOpts == FinalPlan(cfg, s, input).syncOpts + 1
  {
    var t := Account(cfg, s, input).0;
    var plan := FinalPlan(cfg, s, input);
    EmitEndsIff(cfg, t, input, 0, plan);
    assert CanEncode(cfg, t.lastFrame, input, plan, 0);
    assert Emit(cfg, EncodeOne(t, input.id), input, 1, plan) == (EncodeOne(t, input.id), Done);
  }

  /** Method VSYNC_VFR: a picture is encoded once if its end lies past the sync counter less 0.6, and not at all
      otherwise.  It goes to the tick nearest to its time, or to the counter's if that is later; but to the counter's
      when it ends within 0.6 of it. */
  lemma VfrPlacement(cfg: Config, s: VideoState, input: Input)
    requires |s.lastNb0| == 3 && cfg.vsync == Vfr && Nearest(cfg.round) && input.Picture?
    requires DoVideoOut(cfg, s, input).1.Done? && s.frameNumber < s.maxFrames
    ensures var t, end := DoVideoOut(cfg, s, input).0, input.syncIpts + input.duration;
      if end > s.syncOpts as real - 0.6 then
        && |t.sent| == |s.sent| + 1 && t.sent[..|s.sent|] == s.sent
        && t.sent[|s.sent|].id == input.id && t.syncOpts == t.sent[|s.sent|].pts + 1
        && var p := t.sent[|s.sent|].pts as real;
           if end > s.syncOpts as real + 0.6 then -0.5 <= p - MaxReal(input.syncIpts, s.syncOpts as real) <= 0.5
           else p == s.syncOpts as real && -0.6 <= end - p <= 0.6
      else t.sent == s.sent && t.syncOpts == s.syncOpts
  {
    var plan := FinalPlan(cfg, s, input);
    RoundsWholes(cfg.round, s.syncOpts);
    assert -0.5 <= cfg.round(input.syncIpts) as real - input.syncIpts <= 0.5;
    if plan.nb == 1 {
      OneNewFrame(cfg, s, input);
    } else {
      var _ := EmitBurst(cfg, Account(cfg, s, input).0, input, 0, plan);
    }
  }

  /** The methods VSYNC_PASSTHROUGH and VSYNC_DROP: every picture is encoded once, at the tick nearest to its time. */
  lemma PassthroughPlacement(cfg: Config, s: VideoState, input: Input)
    requires |s.lastNb0| == 3 && !Ordering(cfg.vsync) && Nearest(cfg.round) && input.Picture?
    requires DoVideoOut(cfg, s, input).1.Done? && s.frameNumber < s.maxFrames
    ensures var t := DoVideoOut(cfg, s, input).0;
      && |t.sent| == |s.sent| + 1 && t.sent[..|s.sent|] == s.sent && t.sent[|s.sent|].id == input.id
      && -0.5 <= t.sent[|s.sent|].pts as real - input.syncIpts <= 0.5
  {
    assert -0.5 <= cfg.round(input.syncIpts) as real - input.syncIpts <= 0.5;
    OneNewFrame(cfg, s, input);
  }

  /** Start of a picture, but no earlier than the sync counter if something of it lies behind that. */
  function Start(s: VideoState, input: Input): real
    requires input.Picture?
  {
    if input.syncIpts < s.syncOpts as real < input.syncIpts + input.duration then s.syncOpts as real
    else input.syncIpts
  }

  /** How the plan of a constant frame rate shares the ticks between the previous picture and the new one. */
  lemma CfrPlanShares(cfg: Config, s: VideoState, input: Input, i: nat)
    requires |s.lastNb0| == 3 && cfg.vsync == Cfr && Nearest(cfg.round) && input.Picture? && input.duration >= 0.0
    requires i < FinalPlan(cfg, s, input).nb
    ensures FinalPlan(cfg, s, input).syncOpts == s.syncOpts
    ensures if i < FinalPlan(cfg, s, input).nb0 then Start(s, input) - (s.syncOpts + i) as real >= 1.1
            else Start(s, input) - (s.syncOpts + i) as real <= 1.1
    ensures FinalPlan(cfg, s, input).nb0 == 0 <==> Start(s, input) - s.syncOpts as real <= 1.1
  {
    var delta0 := Start(s, input) - s.syncOpts as real;
    assert -0.5 <= cfg.round(delta0 - 0.6) as real - (delta0 - 0.6) <= 0.5;
  }

  /** Which picture a constant frame rate shows when: the previous one where the new one starts 1.1 ticks later or
      more, and the new one everywhere else.  At the first tick a start just 1.1 ticks later shows the new one. */
  lemma CfrFramesShow(cfg: Config, s: VideoState, input: Input, j: nat)
    requires |s.lastNb0| == 3 && cfg.vsync == Cfr && Nearest(cfg.round) && input.Picture? && input.duration >= 0.0
    requires s.lastFrame.Some? && s.lastFrame != Some(input.id)
    requires |s.sent| <= j < |DoVideoOut(cfg, s, input).0.sent|
    ensures var f := DoVideoOut(cfg, s, input).0.sent[j];
      && (if f.id == input.id then Start(s, input) - f.pts as real <= 1.1
          else f.id == s.lastFrame.value && Start(s, input) - f.pts as real >= 1.1)
      && (j == |s.sent| ==> (f.id == input.id <==> Start(s, input) - f.pts as real <= 1.1))
  {
    var t := Account(cfg, s, input).0;
    var plan := FinalPlan(cfg, s, input);
    var k := EmitBurst(cfg, t, input, 0, plan);
    var u := Emit(cfg, t, input, 0, plan).0;
    CfrPlanShares(cfg, s, input, j - |s.sent|);
    assert IdAt(t, u.sent[j].id, input, j - |s.sent|, plan.nb0);
  }

  /** VSYNC_VSCFR: a first picture that is late is not preceded by repetitions but starts the stream at its own time. */
  lemma VscfrStartsAtFirst(cfg: Config, s: VideoState, input: Input)
    requires |s.lastNb0| == 3 && cfg.vsync == Vscfr && Nearest(cfg.round) && input.Picture?
    requires s.frameNumber == 0 < s.maxFrames && input.syncIpts - s.syncOpts as real >= 0.5 && input.duration >= 0.0
    requires DoVideoOut(cfg, s, input).1.Done?
    ensures var t := DoVideoOut(cfg, s, input).0;
      && |t.sent| > |s.sent| && (forall j :: |s.sent| <= j < |t.sent| ==> t.sent[j].id == input.id)
      && -0.5 <= t.sent[|s.sent|].pts as real - input.syncIpts <= 0.5
      && |t.sent| - |s.sent| == Min(if input.duration > 1.1 then cfg.round(input.duration) else 1, s.maxFrames)
  {
    assert -0.5 <= cfg.round(input.syncIpts) as real - input.syncIpts <= 0.5;
    assert -0.5 <= cfg.round(input.duration) as real - input.duration <= 0.5;
    var t := Account(cfg, s, input).0;
    var plan := FinalPlan(cfg, s, input);
    var k := EmitBurst(cfg, t, input, 0, plan);
    var u := Emit(cfg, t, input, 0, plan).0;
    assert forall j :: |s.sent| <= j < |u.sent| ==> IdAt(t, u.sent[j].id, input, j - |s.sent|, plan.nb0);
  }

  /** At a constant frame rate a picture is encoded if and only if it ends no more than 1.1 ticks before the counter,
      and no threshold above that drops it; the first picture is beyond the threshold's reach. */
  lemma CfrEncodesIff(cfg: Config, s: VideoState, input: Input)
    requires |s.lastNb0| == 3 && cfg.vsync == Cfr && Nearest(cfg.round) && input.Picture?
    requires DoVideoOut(cfg, s, input).1.Done? && s.frameNumber < s.maxFrames
    ensures var over := input.syncIpts + input.duration - s.syncOpts as real;
      |DoVideoOut(cfg, s, input).0.sent| > |s.sent| <==>
        over >= -1.1 && !(cfg.dropThreshold != 0.0 && s.frameNumber != 0 && over < cfg.dropThreshold)
  {
    var over := input.syncIpts + input.duration - s.syncOpts as real;
    assert -0.5 <= cfg.round(over) as real - over <= 0.5;
    var _ := EmitBurst(cfg, Account(cfg, s, input).0, input, 0, FinalPlan(cfg, s, input));
  }

  /** VSYNC_VSCFR is VSYNC_CFR but for a late first picture. */
  lemma VscfrIsCfrUnless(cfg: Config, s: VideoState, input: Input)
    requires |s.lastNb0| == 3 && cfg.vsync == Vscfr
    requires input.Picture? ==> s.frameNumber != 0 || Start(s, input) - s.syncOpts as real < 0.5
    ensures FinalPlan(cfg, s, input) == FinalPlan(cfg.(vsync := Cfr), s, input)
  {
  }

  /** The duration of a picture: of a plain stream what its packet announced, to the nearest tick, if that is any;
      otherwise one frame at the filter's rate, or at the stream's own if that counts and is shorter; 0 if the filter
      does not know its rate. */
  lemma DurationIs(setup: Setup, pktDuration: int)
    requires setup.Valid() && Nearest(setup.round)
    ensures var d, tick := DurationOf(setup, pktDuration), ToReal(setup.timeBase);
      if setup.plain && setup.source.Some? && PacketDuration(setup, setup.source.value, pktDuration) > 0 then
        -0.5 <= d - pktDuration as real * ToReal(setup.source.value.timeBase) / tick <= 0.5
      else if !setup.filterRate.Positive() then d == 0.0
      else if setup.source.Some? && setup.source.value.started && setup.rate.Some? then
        && ToReal(setup.filterRate) * (d * tick) <= 1.0 && ToReal(setup.rate.value) * (d * tick) <= 1.0
        && (ToReal(setup.filterRate) * (d * tick) == 1.0 || ToReal(setup.rate.value) * (d * tick) == 1.0)
      else ToReal(setup.filterRate) * (d * tick) == 1.0
  {
    var d, tick := DurationOf(setup, pktDuration), ToReal(setup.timeBase);
    if setup.filterRate.Positive() {
      OneFrame(setup.filterRate, setup.timeBase, d);
      if setup.rate.Some? {
        OneFrame(setup.rate.value, setup.timeBase, d);
      }
    }
    if setup.source.Some? {
      var announced := pktDuration as real * ToReal(setup.source.value.timeBase) / tick;
      assert -0.5 <= setup.round(announced) as real - announced <= 0.5;
    }
  }

  /** A duration against one frame at some rate. */
  lemma OneFrame(rate: Rational, timeBase: Rational, d: real)
    requires rate.Positive() && timeBase.Positive()
    ensures d == Ticks(rate, timeBase) <==> ToReal(rate) * (d * ToReal(timeBase)) == 1.0
    ensures d <= Ticks(rate, timeBase) <==> ToReal(rate) * (d * ToReal(timeBase)) <= 1.0
  {
    var k := ToReal(rate) * ToReal(timeBase);
    ProductIsPositive(ToReal(rate), ToReal(timeBase));
    assert ToReal(rate) * (d * ToReal(timeBase)) == d * k;
    assert Ticks(rate, timeBase) * k == 1.0;
    ScaledInOrder(d, Ticks(rate, timeBase), k);
    ScaledInOrder(Ticks(rate, timeBase), d, k);
  }

  // ------------------------------------------------------------------------------- what the automatic method does

  /** No run of the program in this format duplicates a frame. */
  ghost predicate NeverDuplicates(format: Format) {
    forall setup, pictures, maxFrames :: Automatic(setup, format) ==>
      Run(InitialState(maxFrames), CallsOf(setup, pictures)).0.dup == 0
  }

  ghost predicate NothingRepeated(s: VideoState) {
    s.dup == 0 && |s.lastNb0| == 3 && forall i :: 0 <= i < 3 ==> s.lastNb0[i] <= 0
  }

  lemma SingleStep(cfg: Config, s: VideoState, input: Input)
    requires NothingRepeated(s) && cfg.vsync in {Vfr, Drop, Passthrough}
    ensures NothingRepeated(DoVideoOut(cfg, s, input).0)
  {
    var (t, accepted) := Account(cfg, s, input);
    assert NothingRepeated(t);
    if accepted {
      var _ := EmitBurst(cfg, t, input, 0, FinalPlan(cfg, s, input));
    }
  }

  lemma {:induction false} SingleRun(maxFrames: int, calls: seq<Call>)
    requires forall i :: 0 <= i < |calls| ==> calls[i].cfg.vsync in {Vfr, Drop, Passthrough}
    ensures NothingRepeated(Run(InitialState(maxFrames), calls).0)
    decreases |calls|
  {
    if calls != [] {
      var n := |calls| - 1;
      SingleRun(maxFrames, calls[..n]);
      SingleStep(calls[n].cfg, Run(InitialState(maxFrames), calls[..n]).0, calls[n].input);
    }
  }

  lemma LongPictureDuplicates(cfg: Config, input: Input)
    requires cfg.vsync == Cfr && cfg.dupLimit >= 3.0 && Nearest(cfg.round)
    requires input.Picture? && input.syncIpts == 0.0 && input.duration == 3.0
    ensures DoVideoOut(cfg, InitialState(3), input).0.dup == 2
  {
    var s := InitialState(3);
    RoundsWholes(cfg.round, 3);
    assert FinalPlan(cfg, s, input) == Plan(0, 3, 0);
    var (t, accepted) := Account(cfg, s, input);
    assert accepted && t.dup == 2;
    var _ := EmitBurst(cfg, t, input, 0, FinalPlan(cfg, s, input));
  }

  lemma FixedRateDuplicates(format: Format)
    requires !format.avi && !format.variableFps
    ensures !NeverDuplicates(format)
  {
    var one, third := Rational(1, 1), Rational(1, 3);
    var setup := Setup(None, format, false, None, true, one, third, None, 0.0, 3.0, x => (x + 0.5).Floor, _ => true);
    var pictures := [Frame(0, 0.0, 0)];
    var calls := CallsOf(setup, pictures);
    assert Automatic(setup, format) && calls[..0] == [];
    LongPictureDuplicates(calls[0].cfg, calls[0].input);
    var s := InitialState(3);
    assert Run(s, []) == (s, true);
    assert Run(s, CallsOf(setup, pictures)).0.dup == 2;
  }

  /** With VSYNC_AUTO no frame is ever duplicated if and only if the format is "avi" or has a variable frame rate. */
  lemma AutomaticMethodDuplicatesIff(format: Format)
    ensures NeverDuplicates(format) <==> format.avi || format.variableFps
  {
    if format.avi || format.variableFps {
      forall setup, pictures, maxFrames | Automatic(setup, format)
        ensures Run(InitialState(maxFrames), CallsOf(setup, pictures)).0.dup == 0
      {
        SingleRun(maxFrames, CallsOf(setup, pictures));
      }
    } else {
      FixedRateDuplicates(format);
    }
  }

  /** With VSYNC_AUTO and a fixed frame rate, a stream whose first picture is at least a tick late starts at 0 all the
      same, repeating that picture, unless timestamps are copied or the input file has this stream alone and no
      offset. */
  lemma AutomaticStartIff(setup: Setup, first: Next, maxFrames: int)
    requires Automatic(setup, setup.format) && !setup.format.avi && !setup.format.variableFps
    requires first.Frame? && first.syncIpts >= 1.0 && maxFrames > 0
    requires DoVideoOut(ConfigOf(setup), InitialState(maxFrames), InputOf(setup, first)).1.Done?
    ensures var sent := DoVideoOut(ConfigOf(setup), InitialState(maxFrames), InputOf(setup, first)).0.sent;
      && sent != []
      && (sent[0].pts == 0 <==>
            !setup.copyTs && !(setup.source.Some? && setup.source.value.alone && setup.source.value.noOffset))
  {
    var cfg, s, input := ConfigOf(setup), InitialState(maxFrames), InputOf(setup, first);
    DurationIsPositiveIff(setup, first.pktDuration);
    if cfg.vsync == Vscfr {
      VscfrStartsAtFirst(cfg, s, input);
    } else {
      CfrEncodesIff(cfg, s, input);
      var _ := EmitBurst(cfg, Account(cfg, s, input).0, input, 0, FinalPlan(cfg, s, input));
    }
  }

  // ---------------------------------------------------------------------------------------------- CFR drift

  /** How far the end of a picture lies past the sync counter. */
  function Drift(s: VideoState, input: Input): real
    requires input.Picture?
  {
    input.syncIpts + input.duration - s.syncOpts as real
  }

  /** Method VSYNC_CFR without drop threshold, and a cap that does not bite. */
  ghost predicate PlainCfr(cfg: Config, s: VideoState, input: Input)
    requires |s.lastNb0| == 3
  {
    && cfg.vsync == Cfr && cfg.dropThreshold == 0.0 && Nearest(cfg.round) && input.Picture?
    && PicturePlan(cfg, s.frameNumber, s.syncOpts, input.syncIpts, input.duration).nb <= s.maxFrames - s.frameNumber
  }

  lemma CfrDrift(cfg: Config, s: VideoState, input: Input)
    requires |s.lastNb0| == 3 && PlainCfr(cfg, s, input) && DoVideoOut(cfg, s, input).1.Done?
    ensures var t := DoVideoOut(cfg, s, input).0;
      && t.syncOpts - s.syncOpts == |t.sent| - |s.sent| >= 0
      && Drift(t, input) <= 0.5
      && (|t.sent| > |s.sent| ==> Drift(t, input) >= -2.1)
  {
    var delta := Drift(s, input);
    assert -0.5 <= cfg.round(delta) as real - delta <= 0.5;
    var k := EmitBurst(cfg, Account(cfg, s, input).0, input, 0, FinalPlan(cfg, s, input));
  }

  function End(input: Input): real
    requires input.Picture?
  {
    input.syncIpts + input.duration
  }

  /** Pictures only, all encoded with plain CFR and without an early return. */
  ghost predicate CfrRun(maxFrames: int, calls: seq<Call>) {
    && Run(InitialState(maxFrames), calls).1
    && AllPictures(calls)
    && (forall i :: 0 <= i < |calls| ==> PlainCfrCall(maxFrames, calls[..i], calls[i]))
  }

  ghost predicate PlainCfrCall(maxFrames: int, before: seq<Call>, call: Call) {
    PlainCfr(call.cfg, Run(InitialState(maxFrames), before).0, call.input)
  }

  lemma {:induction false} RunPrefix(s: VideoState, calls: seq<Call>)
    requires |s.lastNb0| == 3 && calls != [] && Run(s, calls).1
    ensures Run(s, calls[..|calls| - 1]).1
  {
  }

  lemma {:induction false} CfrCallsPrefix(maxFrames: int, calls: seq<Call>, n: nat)
    requires n <= |calls| && forall i :: 0 <= i < |calls| ==> PlainCfrCall(maxFrames, calls[..i], calls[i])
    ensures forall i :: 0 <= i < n ==> PlainCfrCall(maxFrames, calls[..n][..i], calls[..n][i])
  {
    forall i | 0 <= i < n
      ensures PlainCfrCall(maxFrames, calls[..n][..i], calls[..n][i])
    {
      assert calls[..n][i] == calls[i] && calls[..n][..i] == calls[..i];
    }
  }

  lemma {:induction false} CfrRunPrefix(maxFrames: int, calls: seq<Call>)
    requires CfrRun(maxFrames, calls) && calls != []
    ensures CfrRun(maxFrames, calls[..|calls| - 1])
  {
    RunPrefix(InitialState(maxFrames), calls);
    CfrCallsPrefix(maxFrames, calls, |calls| - 1);
  }

  /** Such runs exist: one picture that lasts one tick, with any limits. */
  lemma OnePictureIsACfrRun(dupLimit: real) returns (calls: seq<Call>)
    requires dupLimit >= 1.0
    ensures CfrRun(1, calls) && calls != []
  {
    var call := Call(Config(Cfr, 0.0, dupLimit, x => (x + 0.5).Floor, _ => true), Picture(0, 0.0, 1.0));
    calls := [call];
    assert calls[..0] == [];
    var s := InitialState(1);
    assert Run(s, []) == (s, true);
    assert PicturePlan(call.cfg, 0, 0, 0.0, 1.0) == Plan(0, 1, 0);
    assert DoVideoOut(call.cfg, s, call.input).1.Done?;
  }

  /** The number of frames lies within these bounds of the latest end of a picture. */
  ghost predicate Covers(frames: nat, latest: real) {
    && latest - 0.5 <= frames as real
    && (frames == 0 || frames as real <= latest + 2.1)
  }

  /** The latest end of all pictures received. */
  function LatestEnd(calls: seq<Call>): (latest: real)
    requires AllPictures(calls) && calls != []
    ensures forall i :: 0 <= i < |calls| ==> End(calls[i].input) <= latest
    ensures exists i :: 0 <= i < |calls| && End(calls[i].input) == latest
  {
    var n := |calls| - 1;
    if n == 0 then End(calls[0].input) else MaxReal(LatestEnd(calls[..n]), End(calls[n].input))
  }

  lemma CfrCountStep(cfg: Config, s: VideoState, input: Input, latest: real)
    requires |s.lastNb0| == 3 && PlainCfr(cfg, s, input) && DoVideoOut(cfg, s, input).1.Done?
    requires s.syncOpts == |s.sent| && (Covers(|s.sent|, latest) || (s.sent == [] && latest == End(input)))
    ensures var t := DoVideoOut(cfg, s, input).0;
      t.syncOpts == |t.sent| && Covers(|t.sent|, MaxReal(latest, End(input)))
  {
    CfrDrift(cfg, s, input);
  }

  /** Over a whole CFR run the number of encoded frames follows the latest end of a picture, whatever the order
      of the pictures' times and however early they start. */
  lemma {:induction false} CfrFrameCount(maxFrames: int, calls: seq<Call>)
    requires CfrRun(maxFrames, calls) && calls != []
    ensures var s := Run(InitialState(maxFrames), calls).0;
      s.syncOpts == |s.sent| && Covers(|s.sent|, LatestEnd(calls))
    decreases |calls|
  {
    var n := |calls| - 1;
    var s := Run(InitialState(maxFrames), calls[..n]).0;
    var input := calls[n].input;
    if n == 0 {
      CfrCountStep(calls[n].cfg, s, input, End(input));
    } else {
      CfrRunPrefix(maxFrames, calls);
      CfrFrameCount(maxFrames, calls[..n]);
      CfrCountStep(calls[n].cfg, s, input, LatestEnd(calls[..n]));
    }
  }
}
