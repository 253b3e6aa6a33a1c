/** do_video_out of fftools/ffmpeg.c: how often a picture is encoded, and what is counted as duplicated or dropped. */
module VideoOut {
  import opened Wrappers
  import opened Mathematics

  datatype SyncMethod = Vscfr | Cfr | Vfr | Drop | Passthrough

  /** A filtered picture with its time and duration in encoder ticks, or the closing call without a picture. */
  datatype Input = Picture(id: int, syncIpts: real, duration: real) | Closing

  /** `round` stands for lrintf, llrintf and llrint; `inTime` for check_recording_time. */
  datatype Config = Config(
    vsync: SyncMethod, dropThreshold: real, dupLimit: real, round: real -> int, inTime: int -> bool)

  /** The normal end of the function and its three early returns. */
  datatype Outcome = Done | TooManyDups | NoPicture | TimeOver

  datatype Sent = Sent(id: int, pts: int)

  datatype VideoState = VideoState(
    syncOpts: int, frameNumber: int, maxFrames: int,
    lastNb0: seq<int>, lastDropped: bool, lastFrame: Option<int>,
    dup: int, drop: int, received: int, sent: seq<Sent>)

  function InitialState(maxFrames: int): VideoState {
    VideoState(0, 0, maxFrames, [0, 0, 0], false, None, 0, 0, 0, [])
  }

  function Indicator(b: bool): int { if b then 1 else 0 }

  /** mid_pred of libavcodec/mathops.h. */
  function MidPred(a: int, b: int, c: int): int {
    if a > b then
      if c > b then (if c > a then a else c) else b
    else
      if b > c then (if c > a then c else a) else b
  }

  ghost predicate Nearest(round: real -> int) {
    forall x: real :: -0.5 <= round(x) as real - x <= 0.5
  }

  // ------------------------------------------------------------------------------------------ specification

  /** Sync counter and numbers of frames before the cap: nb in all, the first nb0 of them the previous picture. */
  datatype Plan = Plan(syncOpts: int, nb: int, nb0: int)

  predicate Clips(vsync: SyncMethod, delta0: real, delta: real) {
    delta0 < 0.0 < delta && vsync != Passthrough && vsync != Drop
  }

  /** Start and duration of a picture after clipping: its end stays, its start is at the sync counter or later
      whenever something of it lies there. */
  function Clip(vsync: SyncMethod, syncOpts: int, syncIpts: real, duration: real): (r: (real, real))
    ensures r.0 + r.1 == syncIpts + duration
    ensures vsync != Passthrough && vsync != Drop && r.0 + r.1 > syncOpts as real ==> r.0 >= syncOpts as real
  {
    var early := syncIpts - syncOpts as real;
    if Clips(vsync, early, early + duration) then (syncOpts as real, duration + early) else (syncIpts, duration)
  }

  function CfrPlan(cfg: Config, frameNumber: int, syncOpts: int, delta0: real, delta: real): Plan {
    if cfg.dropThreshold != 0.0 && delta < cfg.dropThreshold && frameNumber != 0 then Plan(syncOpts, 0, 0)
    else if delta < -1.1 then Plan(syncOpts, 0, 0)
    else if delta > 1.1 then
      Plan(syncOpts, cfg.round(delta), if delta0 > 1.1 then cfg.round(delta0 - 0.6) else 0)
    else Plan(syncOpts, 1, 0)
  }

  function PicturePlan(cfg: Config, frameNumber: int, syncOpts: int, syncIpts: real, duration: real): Plan {
    var delta := syncIpts - syncOpts as real + duration;
    var (ipts, length) := Clip(cfg.vsync, syncOpts, syncIpts, duration);
    var delta0 := ipts - syncOpts as real;
    match cfg.vsync
    case Vscfr =>
      if frameNumber == 0 && delta0 >= 0.5 then CfrPlan(cfg, frameNumber, cfg.round(ipts), 0.0, length)
      else CfrPlan(cfg, frameNumber, syncOpts, delta0, delta)
    case Cfr => CfrPlan(cfg, frameNumber, syncOpts, delta0, delta)
    case Vfr =>
      Plan(if delta > 0.6 then cfg.round(ipts) else syncOpts, if delta <= -0.6 then 0 else 1, 0)
    case Drop => Plan(cfg.round(ipts), 1, 0)
    case Passthrough => Plan(cfg.round(ipts), 1, 0)
  }

  /** The plan after the max_frames cap. */
  function FinalPlan(cfg: Config, s: VideoState, input: Input): Plan
    requires |s.lastNb0| == 3
  {
    var plan :=
      if input.Closing? then
        var n := MidPred(s.lastNb0[0], s.lastNb0[1], s.lastNb0[2]);
        Plan(s.syncOpts, n, n)
      else PicturePlan(cfg, s.frameNumber, s.syncOpts, input.syncIpts, input.duration);
    var nb := Min(plan.nb, s.maxFrames - s.frameNumber);
    Plan(plan.syncOpts, nb, Min(plan.nb0, nb))
  }

  /** The encoding loop from iteration i on. */
  function Emit(cfg: Config, s: VideoState, input: Input, i: int, plan: Plan): (VideoState, Outcome)
    decreases plan.nb - i
  {
    if i >= plan.nb then (s, Done)
    else if !(i < plan.nb0 && s.lastFrame.Some?) && input.Closing? then (s, NoPicture)
    else if !cfg.inTime(s.syncOpts) then (s, TimeOver)
    else
      var id := if i < plan.nb0 && s.lastFrame.Some? then s.lastFrame.value else input.id;
      Emit(cfg, EncodeOne(s, id), input, i + 1, plan)
  }

  function EncodeOne(s: VideoState, id: int): VideoState {
    s.(sent := s.sent + [Sent(id, s.syncOpts)], syncOpts := s.syncOpts + 1, frameNumber := s.frameNumber + 1)
  }

  /** The bookkeeping for nb frames of which nb0 repeat the previous one; false when the duplication is too large. */
  function Book(cfg: Config, s: VideoState, input: Input, nb: int, nb0: int): (VideoState, bool)
    requires |s.lastNb0| == 3
  {
    var covered := Indicator(nb0 != 0 && s.lastDropped) + Indicator(nb > nb0);
    var t := s.(lastNb0 := [nb0] + s.lastNb0[..2], drop := s.drop + Indicator(nb0 == 0 && s.lastDropped));
    if nb > covered && nb as real > cfg.dupLimit then (t.(drop := t.drop + 1), false)
    else
      (t.(dup := t.dup + (if nb > covered then nb - covered else 0), lastDropped := nb == nb0 && input.Picture?), true)
  }

  /** Everything before the loop. */
  function Account(cfg: Config, s: VideoState, input: Input): (VideoState, bool)
    requires |s.lastNb0| == 3
  {
    var plan := FinalPlan(cfg, s, input);
    Book(cfg, s.(syncOpts := plan.syncOpts, received := s.received + Indicator(input.Picture?)), input,
         plan.nb, plan.nb0)
  }

  function DoVideoOut(cfg: Config, s: VideoState, input: Input): (VideoState, Outcome)
    requires |s.lastNb0| == 3
  {
    var (t, accepted) := Account(cfg, s, input);
    if !accepted then (t, TooManyDups)
    else
      var (u, outcome) := Emit(cfg, t, input, 0, FinalPlan(cfg, s, input));
      if outcome.Done? then (u.(lastFrame := if input.Picture? then Some(input.id) else None), Done)
      else (u, outcome)
  }

  // -------------------------------------------------------------------------- duration and method of a picture

  /** A filtered picture with the duration its packet announced, or NULL at the end. */
  datatype Next = Frame(id: int, syncIpts: real, pktDuration: int) | End

  /** Of the container format: its name is "avi", AVFMT_VARIABLE_FPS, AVFMT_NOTIMESTAMPS. */
  datatype Format = Format(avi: bool, variableFps: bool, noTimestamps: bool)

  /** What is known of the input stream: start_time and first_dts are set, its time base, its file has no other
      stream, the file's input_ts_offset is 0. */
  datatype Source = Source(started: bool, timeBase: Rational, alone: bool, noOffset: bool)

  /** The stream as configured. No method stands for VSYNC_AUTO, no `rate` for a numerator of 0; `plain` holds
      without filter scripts, filter options and complex graphs. */
  datatype Setup = Setup(
    vsync: Option<SyncMethod>, format: Format, copyTs: bool, source: Option<Source>, plain: bool,
    timeBase: Rational, filterRate: Rational, rate: Option<Rational>,
    dropThreshold: real, dupLimit: real, round: real -> int, inTime: int -> bool)
  {
    ghost predicate Valid() {
      && timeBase.Positive() && (rate.Some? ==> rate.value.Positive())
      && (source.Some? ==> source.value.timeBase.Positive())
    }
  }

  /** One frame at this rate, in ticks of the time base. */
  function Ticks(rate: Rational, timeBase: Rational): (t: real)
    requires rate.Positive() && timeBase.Positive()
    ensures t > 0.0
  {
    ProductIsPositive(ToReal(rate), ToReal(timeBase));
    var ticks := ToReal(rate) * ToReal(timeBase);
    1.0 / ticks
  }

  lemma ProductIsPositive(a: real, b: real)
    requires a > 0.0 && b > 0.0
    ensures a * b > 0.0
  {
  }

  /** The duration from the rates alone; 0 when the filter does not know its rate. */
  function RateDuration(setup: Setup): (d: real)
    requires setup.Valid()
  {
    if !setup.filterRate.Positive() then 0.0
    else
      var d := Ticks(setup.filterRate, setup.timeBase);
      if setup.source.Some? && setup.source.value.started && setup.rate.Some? then
        MinReal(d, Ticks(setup.rate.value, setup.timeBase))
      else d
  }

  function MinReal(a: real, b: real): real { if a > b then b else a }

  /** What the packet announced, in ticks of the encoder. */
  function PacketDuration(setup: Setup, source: Source, pktDuration: int): int
    requires setup.Valid() && source.timeBase.Positive()
  {
    setup.round(pktDuration as real * ToReal(source.timeBase) / ToReal(setup.timeBase))
  }

  function DurationOf(setup: Setup, pktDuration: int): real
    requires setup.Valid()
  {
    if setup.plain && setup.source.Some? && PacketDuration(setup, setup.source.value, pktDuration) > 0 then
      PacketDuration(setup, setup.source.value, pktDuration) as real
    else RateDuration(setup)
  }

  /** The method VSYNC_AUTO stands for. */
  function AutomaticMethod(setup: Setup): SyncMethod {
    if !setup.format.avi && setup.format.variableFps && setup.format.noTimestamps then Passthrough
    else if setup.format.avi || setup.format.variableFps then Vfr
    else if setup.copyTs || (setup.source.Some? && setup.source.value.alone && setup.source.value.noOffset) then Vscfr
    else Cfr
  }

  function MethodOf(setup: Setup): SyncMethod {
    if setup.vsync.Some? then setup.vsync.value else AutomaticMethod(setup)
  }

  function ConfigOf(setup: Setup): Config {
    Config(MethodOf(setup), setup.dropThreshold, setup.dupLimit, setup.round, setup.inTime)
  }

  function InputOf(setup: Setup, next: Next): Input
    requires setup.Valid()
  {
    if next.End? then Closing else Picture(next.id, next.syncIpts, DurationOf(setup, next.pktDuration))
  }

  /** A picture has a positive duration if and only if the filter knows its rate, or a plain stream's packet
      announced at least half a tick. */
  lemma DurationIsPositiveIff(setup: Setup, pktDuration: int)
    requires setup.Valid()
    ensures DurationOf(setup, pktDuration) >= 0.0
    ensures DurationOf(setup, pktDuration) > 0.0 <==>
      || setup.filterRate.Positive()
      || (setup.plain && setup.source.Some? && PacketDuration(setup, setup.source.value, pktDuration) > 0)
  {
  }

  // --------------------------------------------------------------------------------------------- the program

  class OutputStream {
    var syncOpts: int
    var frameNumber: int
    var maxFrames: int
    var lastNb0Frames: seq<int>
    var lastDropped: bool
    var lastFrame: Option<int>
    var nbFramesDup: int
    var nbFramesDrop: int
    var picturesReceived: int
    var sent: seq<Sent>

    ghost function View(): VideoState
      reads this
    {
      VideoState(syncOpts, frameNumber, maxFrames, lastNb0Frames, lastDropped, lastFrame,
                 nbFramesDup, nbFramesDrop, picturesReceived, sent)
    }

    constructor Init(maxFrames: int)
      ensures View() == InitialState(maxFrames)
    {
      syncOpts, frameNumber, this.maxFrames := 0, 0, maxFrames;
      lastNb0Frames, lastDropped, lastFrame := [0, 0, 0], false, None;
      nbFramesDup, nbFramesDrop, picturesReceived, sent := 0, 0, 0, [];
    }

    method OnPicture(cfg: Config, syncIpts0: real, duration0: real) returns (nb: int, nb0: int)
      modifies this`syncOpts
      ensures Plan(syncOpts, nb, nb0) == PicturePlan(cfg, frameNumber, old(syncOpts), syncIpts0, duration0)
    {
      var syncIpts, duration := syncIpts0, duration0;
      var delta0 := syncIpts - syncOpts as real;
      var delta := delta0 + duration;
      nb0 := 0;
      nb := 1;
      if delta0 < 0.0 && delta > 0.0 && cfg.vsync != Passthrough && cfg.vsync != Drop {
        syncIpts := syncOpts as real;
        duration := duration + delta0;
        delta0 := 0.0;
      }
      if cfg.vsync == Vscfr && frameNumber == 0 && delta0 >= 0.5 {
        delta := duration;
        delta0 := 0.0;
        syncOpts := cfg.round(syncIpts);
      }
      match cfg.vsync {
        case Vfr =>
          if delta <= -0.6 {
            nb := 0;
          } else if delta > 0.6 {
            syncOpts := cfg.round(syncIpts);
          }
        case Drop => syncOpts := cfg.round(syncIpts);
        case Passthrough => syncOpts := cfg.round(syncIpts);
        case _ =>
          if cfg.dropThreshold != 0.0 && delta < cfg.dropThreshold && frameNumber != 0 {
            nb := 0;
          } else if delta < -1.1 {
            nb := 0;
          } else if delta > 1.1 {
            nb := cfg.round(delta);
            if delta0 > 1.1 {
              nb0 := cfg.round(delta0 - 0.6);
            }
          }
      }
    }

    /** The decision and the cap. */
    method Decide(cfg: Config, input: Input) returns (nb: int, nb0: int)
      requires |lastNb0Frames| == 3
      modifies this`syncOpts, this`picturesReceived
      ensures Plan(syncOpts, nb, nb0) == FinalPlan(cfg, old(View()), input)
      ensures picturesReceived == old(picturesReceived) + Indicator(input.Picture?)
    {
      if input.Closing? {
        nb := MidPred(lastNb0Frames[0], lastNb0Frames[1], lastNb0Frames[2]);
        nb0 := nb;
      } else {
        picturesReceived := picturesReceived + 1;
        nb, nb0 := OnPicture(cfg, input.syncIpts, input.duration);
      }
      nb := Min(nb, maxFrames - frameNumber);
      nb0 := Min(nb0, nb);
    }

    /** The bookkeeping before the encoding loop. */
    method CountFrames(cfg: Config, input: Input, nb: int, nb0: int) returns (accepted: bool)
      requires |lastNb0Frames| == 3
      modifies this`lastNb0Frames, this`nbFramesDrop, this`nbFramesDup, this`lastDropped
      ensures (View(), accepted) == Book(cfg, old(View()), input, nb, nb0)
    {
      lastNb0Frames := [nb0] + lastNb0Frames[..2];
      if nb0 == 0 && lastDropped {
        nbFramesDrop := nbFramesDrop + 1;
      }
      var covered := Indicator(nb0 != 0 && lastDropped) + Indicator(nb > nb0);
      if nb > covered {
        if nb as real > cfg.dupLimit {
          nbFramesDrop := nbFramesDrop + 1;
          return false;
        }
        nbFramesDup := nbFramesDup + (nb - covered);
      }
      lastDropped := nb == nb0 && input.Picture?;
      return true;
    }

    method EncodeFrames(cfg: Config, input: Input, ghost plan: Plan, nb: int, nb0: int) returns (outcome: Outcome)
      requires plan.nb == nb && plan.nb0 == nb0
      modifies this`sent, this`syncOpts, this`frameNumber
      ensures (View(), outcome) == Emit(cfg, old(View()), input, 0, plan)
    {
      var i := 0;
      while i < nb
        invariant Emit(cfg, View(), input, i, plan) == Emit(cfg, old(View()), input, 0, plan)
        decreases nb - i
      {
        var id;
        if i < nb0 && lastFrame.Some? {
          id := lastFrame.value;
        } else if input.Closing? {
          return NoPicture;
        } else {
          id := input.id;
        }
        if !cfg.inTime(syncOpts) {
          return TimeOver;
        }
        sent := sent + [Sent(id, syncOpts)];
        syncOpts := syncOpts + 1;
        frameNumber := frameNumber + 1;
        i := i + 1;
      }
      return Done;
    }

    method PictureDuration(setup: Setup, next: Next) returns (duration: real)
      requires setup.Valid()
      ensures next.Frame? ==> duration == DurationOf(setup, next.pktDuration)
    {
      duration := 0.0;
      if setup.filterRate.Positive() {
        duration := Ticks(setup.filterRate, setup.timeBase);
      }
      if setup.source.Some? && setup.source.value.started && setup.rate.Some? {
        duration := MinReal(duration, Ticks(setup.rate.value, setup.timeBase));
      }
      if setup.plain && next.Frame? && setup.source.Some? {
        var announced := PacketDuration(setup, setup.source.value, next.pktDuration);
        if announced > 0 {
          duration := announced as real;
        }
      }
    }

    method ChooseMethod(setup: Setup) returns (vsync: SyncMethod)
      ensures vsync == MethodOf(setup)
    {
      if setup.vsync.Some? {
        return setup.vsync.value;
      }
      if setup.format.avi {
        vsync := Vfr;
      } else if setup.format.variableFps {
        vsync := if setup.format.noTimestamps then Passthrough else Vfr;
      } else {
        vsync := Cfr;
      }
      if setup.source.Some? && vsync == Cfr && setup.source.value.alone && setup.source.value.noOffset {
        vsync := Vscfr;
      }
      if vsync == Cfr && setup.copyTs {
        vsync := Vscfr;
      }
    }

    method VideoOut(setup: Setup, next: Next) returns (outcome: Outcome)
      requires |lastNb0Frames| == 3 && setup.Valid()
      modifies this
      ensures (View(), outcome) == DoVideoOut(ConfigOf(setup), old(View()), InputOf(setup, next))
    {
      var duration := PictureDuration(setup, next);
      var vsync := ChooseMethod(setup);
      var cfg := Config(vsync, setup.dropThreshold, setup.dupLimit, setup.round, setup.inTime);
      var input := if next.End? then Closing else Picture(next.id, next.syncIpts, duration);
      outcome := Output(cfg, input);
    }

    /** The call once duration and method are known. */
    method Output(cfg: Config, input: Input) returns (outcome: Outcome)
      requires |lastNb0Frames| == 3
      modifies this
      ensures (View(), outcome) == DoVideoOut(cfg, old(View()), input)
    {
      ghost var s, plan := View(), FinalPlan(cfg, View(), input);
      var nb, nb0 := Decide(cfg, input);
      assert View() == s.(syncOpts := plan.syncOpts, received := s.received + Indicator(input.Picture?));
      var accepted := CountFrames(cfg, input, nb, nb0);
      ghost var t := View();
      assert (t, accepted) == Account(cfg, s, input);
      if !accepted {
        return TooManyDups;
      }
      outcome := EncodeFrames(cfg, input, plan, nb, nb0);
      assert (View(), outcome) == Emit(cfg, t, input, 0, plan);
      if outcome.Done? {
        lastFrame := if input.Picture? then Some(input.id) else None;
      }
    }
  }
}
