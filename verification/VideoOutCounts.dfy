/** What do_video_out counts as duplicated and dropped is what the encoder was given twice and what it never got. */
module VideoOutCounts {
  import opened Wrappers
  import opened VideoOut
  import opened VideoOutRuns

  function LastId(sent: seq<Sent>): Option<int> { if sent == [] then None else Some(sent[|sent| - 1].id) }

  /** How often a frame shows the same picture as the frame before it. */
  function Repeats(sent: seq<Sent>): nat {
    if sent == [] then 0
    else
      var front := sent[..|sent| - 1];
      Repeats(front) + if LastId(front) == LastId(sent) then 1 else 0
  }

  lemma RepeatsNext(sent: seq<Sent>, frame: Sent)
    ensures Repeats(sent + [frame]) == Repeats(sent) + if LastId(sent) == Some(frame.id) then 1 else 0
    ensures LastId(sent + [frame]) == Some(frame.id)
  {
    assert (sent + [frame])[..|sent|] == sent;
  }

  /** The rest of the loop once it has come to the new picture. */
  lemma {:induction false} NewFramesRepeat(cfg: Config, s: VideoState, input: Input, i: int, plan: Plan)
    requires 0 <= i <= plan.nb && input.Picture? && Emit(cfg, s, input, i, plan).1.Done?
    requires i >= plan.nb0 || s.lastFrame.None?
    ensures var sent := Emit(cfg, s, input, i, plan).0.sent;
      && Repeats(sent) == Repeats(s.sent) + (plan.nb - i)
           - (if i < plan.nb && LastId(s.sent) != Some(input.id) then 1 else 0)
      && LastId(sent) == if i < plan.nb then Some(input.id) else LastId(s.sent)
    decreases plan.nb - i
  {
    if i < plan.nb {
      RepeatsNext(s.sent, Sent(input.id, s.syncOpts));
      NewFramesRepeat(cfg, EncodeOne(s, input.id), input, i + 1, plan);
    }
  }

  /** The loop while it repeats the previous picture, and after that. */
  lemma {:induction false} OldFramesRepeat(cfg: Config, s: VideoState, input: Input, i: int, plan: Plan)
    requires 0 <= i <= plan.nb0 <= plan.nb && Emit(cfg, s, input, i, plan).1.Done?
    requires s.lastFrame.Some? && (input.Picture? ==> input.id != s.lastFrame.value && LastId(s.sent) != Some(input.id))
    requires input.Closing? ==> plan.nb0 == plan.nb
    ensures var sent := Emit(cfg, s, input, i, plan).0.sent;
      && Repeats(sent) == Repeats(s.sent) + (plan.nb - i) - (if plan.nb > plan.nb0 then 1 else 0)
           - (if i < plan.nb0 && LastId(s.sent) != s.lastFrame then 1 else 0)
      && LastId(sent) == if plan.nb > plan.nb0 then Some(input.id)
                         else if i < plan.nb0 then s.lastFrame else LastId(s.sent)
    decreases plan.nb0 - i
  {
    if i < plan.nb0 {
      RepeatsNext(s.sent, Sent(s.lastFrame.value, s.syncOpts));
      OldFramesRepeat(cfg, EncodeOne(s, s.lastFrame.value), input, i + 1, plan);
    } else if input.Picture? {
      NewFramesRepeat(cfg, s, input, i, plan);
    }
  }

  /** The pending drop says truly that the previous picture has not been encoded. */
  ghost predicate Judged(s: VideoState) {
    s.lastFrame.Some? ==> (s.lastDropped <==> LastId(s.sent) != s.lastFrame)
  }

  /** Counted duplicates beyond the repeated frames. */
  function Excess(s: VideoState): int { s.dup - Repeats(s.sent) }

  /** A call that ends normally, with a picture not seen before. */
  ghost predicate NormalCall(cfg: Config, s: VideoState, input: Input, newest: int) {
    && WellFormed(s) && Nearest(cfg.round) && InOrder(s, newest) && (input.Picture? ==> input.id > newest)
    && DoVideoOut(cfg, s, input).1.Done?
  }

  /** A first picture that is planned as a repetition of the picture before it, which there is not. */
  predicate Misjudges(s: VideoState, input: Input, plan: Plan) {
    s.lastFrame.None? && input.Picture? && plan.nb == plan.nb0 && plan.nb0 > 0
  }

  /** What the loop of a normal call repeats. */
  lemma CallRepeats(cfg: Config, s: VideoState, input: Input, newest: int)
    requires NormalCall(cfg, s, input, newest)
    ensures var t, plan := DoVideoOut(cfg, s, input).0, FinalPlan(cfg, s, input);
      && 0 <= plan.nb0 <= plan.nb
      && (s.lastFrame.None? && plan.nb > 0 ==>
            input.Picture? && Repeats(t.sent) == Repeats(s.sent) + plan.nb - 1 && LastId(t.sent) == Some(input.id))
      && (s.lastFrame.Some? && plan.nb > 0 ==>
            && Repeats(t.sent) == Repeats(s.sent) + plan.nb - (if plan.nb > plan.nb0 then 1 else 0)
                 - (if 0 < plan.nb0 && LastId(s.sent) != s.lastFrame then 1 else 0)
            && LastId(t.sent) == if plan.nb > plan.nb0 then Some(input.id) else s.lastFrame)
      && (plan.nb == 0 ==> t.sent == s.sent)
  {
    PlanIsNatural(cfg, s, input);
    var u := Account(cfg, s, input).0;
    var plan := FinalPlan(cfg, s, input);
    if s.lastFrame.Some? {
      OldFramesRepeat(cfg, u, input, 0, plan);
    } else if input.Picture? {
      NewFramesRepeat(cfg, u, input, 0, plan);
    }
  }

  /** What a normal call counts, by whether the previous picture is still to be encoded. */
  lemma CallCounts(cfg: Config, s: VideoState, input: Input, newest: int)
    requires NormalCall(cfg, s, input, newest)
    ensures var t, plan := DoVideoOut(cfg, s, input).0, FinalPlan(cfg, s, input);
      && t.dup == s.dup + plan.nb - (if plan.nb > plan.nb0 then 1 else 0)
           - (if plan.nb0 > 0 && s.lastDropped then 1 else 0)
      && (t.lastDropped <==> plan.nb == plan.nb0 && input.Picture?)
      && t.lastFrame == if input.Picture? then Some(input.id) else None
  {
    PlanIsNatural(cfg, s, input);
    var _ := EmitBurst(cfg, Account(cfg, s, input).0, input, 0, FinalPlan(cfg, s, input));
  }

  lemma RightCall(cfg: Config, s: VideoState, input: Input, newest: int)
    requires NormalCall(cfg, s, input, newest) && Judged(s) && (s.lastFrame.None? ==> !s.lastDropped)
    requires !Misjudges(s, input, FinalPlan(cfg, s, input))
    ensures var t := DoVideoOut(cfg, s, input).0;
      Excess(t) == Excess(s) && Judged(t) && (input.Picture? ==> t.lastFrame.Some?)
  {
    CallRepeats(cfg, s, input, newest);
    CallCounts(cfg, s, input, newest);
  }

  /** The picture counts as a duplicate, and as dropped although it was encoded. */
  lemma MisjudgedCall(cfg: Config, s: VideoState, input: Input, newest: int)
    requires NormalCall(cfg, s, input, newest) && !s.lastDropped
    requires Misjudges(s, input, FinalPlan(cfg, s, input))
    ensures var t := DoVideoOut(cfg, s, input).0;
      Excess(t) == Excess(s) + 1 && t.lastDropped && t.lastFrame.Some? && LastId(t.sent) == t.lastFrame
  {
    CallRepeats(cfg, s, input, newest);
    CallCounts(cfg, s, input, newest);
  }

  /** The next call takes the duplicate back if it repeats that picture; otherwise it counts the drop. */
  lemma CallAfterMisjudged(cfg: Config, s: VideoState, input: Input, newest: int)
    requires NormalCall(cfg, s, input, newest) && s.lastDropped && s.lastFrame.Some? && LastId(s.sent) == s.lastFrame
    ensures var t := DoVideoOut(cfg, s, input).0;
      && Excess(t) == Excess(s) - (if FinalPlan(cfg, s, input).nb0 > 0 then 1 else 0)
      && Judged(t) && (input.Picture? ==> t.lastFrame.Some?)
  {
    CallRepeats(cfg, s, input, newest);
    CallCounts(cfg, s, input, newest);
  }

  // ----------------------------------------------------------------------------------------------- whole streams

  /** New pictures one after the other, the closing call at most at the end. */
  ghost predicate Stream(calls: seq<Call>) {
    && (forall i :: 0 <= i < |calls| - 1 ==> calls[i].input.Picture?)
    && (forall i, j :: 0 <= i < j < |calls| && calls[j].input.Picture? ==> calls[i].input.id < calls[j].input.id)
  }

  /** The state before call n, and that call's plan. */
  ghost function Before(maxFrames: nat, calls: seq<Call>, n: nat): VideoState
    requires n <= |calls|
  {
    Run(InitialState(maxFrames), calls[..n]).0
  }

  ghost function PlanOf(maxFrames: nat, calls: seq<Call>, n: nat): Plan
    requires n < |calls| && |Before(maxFrames, calls, n).lastNb0| == 3
  {
    FinalPlan(calls[n].cfg, Before(maxFrames, calls, n), calls[n].input)
  }

  /** The counters are wrong at the end: the first picture was misjudged, and the second call did not repeat it. */
  ghost predicate Miscounts(maxFrames: nat, calls: seq<Call>) {
    && calls != [] && Misjudges(InitialState(maxFrames), calls[0].input, PlanOf(maxFrames, calls, 0))
    && (|calls| == 1 || PlanOf(maxFrames, calls, 1).nb0 <= 0)
  }

  function Newest(calls: seq<Call>): int {
    if calls == [] then 0
    else
      var last := calls[|calls| - 1].input;
      if last.Picture? then last.id else Newest(calls[..|calls| - 1])
  }

  lemma {:induction false} RunInOrder(maxFrames: nat, calls: seq<Call>)
    requires Stream(calls) && Rounds(calls) && Run(InitialState(maxFrames), calls).1
    requires calls != [] ==> calls[0].input.Picture?
    ensures calls != [] ==> InOrder(Run(InitialState(maxFrames), calls).0, Newest(calls))
    ensures calls != [] && calls[|calls| - 1].input.Picture? ==> Run(InitialState(maxFrames), calls).0.lastFrame.Some?
    decreases |calls|
  {
    if calls != [] {
      var n := |calls| - 1;
      RunInOrder(maxFrames, calls[..n]);
      var s, call := Run(InitialState(maxFrames), calls[..n]).0, calls[n];
      var newest := if n == 0 then call.input.id - 1 else Newest(calls[..n]);
      CallInOrder(call.cfg, s, call.input, newest);
    }
  }

  /** The last call of a stream. */
  lemma LastCall(maxFrames: nat, calls: seq<Call>) returns (newest: int)
    requires Stream(calls) && Rounds(calls) && Run(InitialState(maxFrames), calls).1
    requires calls != [] && calls[0].input.Picture?
    ensures var n := |calls| - 1; var s := Before(maxFrames, calls, n);
      && NormalCall(calls[n].cfg, s, calls[n].input, newest)
      && Run(InitialState(maxFrames), calls).0 == DoVideoOut(calls[n].cfg, s, calls[n].input).0
      && (n > 0 ==> s.lastFrame.Some?)
  {
    var n := |calls| - 1;
    RunInOrder(maxFrames, calls[..n]);
    RunBalance(maxFrames, calls[..n]);
    newest := if n == 0 then calls[0].input.id - 1 else Newest(calls[..n]);
  }

  lemma PrefixesAgree(maxFrames: nat, calls: seq<Call>, n: nat, i: nat)
    requires i < n <= |calls|
    ensures Before(maxFrames, calls[..n], i) == Before(maxFrames, calls, i) && calls[..n][i] == calls[i]
    ensures PlanOf(maxFrames, calls[..n], i) == PlanOf(maxFrames, calls, i)
  {
    assert calls[..n][..i] == calls[..i];
  }

  /** The end of a stream: the excess of duplicates, and whether the pending drop is right. */
  ghost predicate CountedRight(s: VideoState, n: nat, wrong: bool) {
    && Excess(s) == (if wrong then 1 else 0)
    && (if n == 1 && wrong then s.lastDropped && LastId(s.sent) == s.lastFrame else Judged(s))
  }

  lemma FirstCallCounts(maxFrames: nat, call: Call, newest: int)
    requires NormalCall(call.cfg, InitialState(maxFrames), call.input, newest) && call.input.Picture?
    ensures var s := InitialState(maxFrames);
      CountedRight(DoVideoOut(call.cfg, s, call.input).0, 1,
                   Misjudges(s, call.input, FinalPlan(call.cfg, s, call.input)))
  {
    var s := InitialState(maxFrames);
    if Misjudges(s, call.input, FinalPlan(call.cfg, s, call.input)) {
      MisjudgedCall(call.cfg, s, call.input, newest);
    } else {
      RightCall(call.cfg, s, call.input, newest);
    }
  }

  lemma NextCallCounts(call: Call, s: VideoState, newest: int, n: nat, wrong: bool)
    requires NormalCall(call.cfg, s, call.input, newest) && s.lastFrame.Some? && n > 0 && CountedRight(s, n, wrong)
    ensures CountedRight(DoVideoOut(call.cfg, s, call.input).0, n + 1,
                         wrong && !(n == 1 && FinalPlan(call.cfg, s, call.input).nb0 > 0))
  {
    if n == 1 && wrong {
      CallAfterMisjudged(call.cfg, s, call.input, newest);
    } else {
      RightCall(call.cfg, s, call.input, newest);
    }
  }

  /** The counters of a longer stream are wrong if they already were and the second call did not make up for it. */
  lemma MiscountsLonger(maxFrames: nat, calls: seq<Call>)
    requires |calls| > 1 && |Before(maxFrames, calls, |calls| - 1).lastNb0| == 3
    ensures var n := |calls| - 1;
      Miscounts(maxFrames, calls) <==>
        Miscounts(maxFrames, calls[..n]) && !(n == 1 && PlanOf(maxFrames, calls, n).nb0 > 0)
  {
    var n := |calls| - 1;
    PrefixesAgree(maxFrames, calls, n, 0);
    if n > 1 {
      PrefixesAgree(maxFrames, calls, n, 1);
    }
  }

  /** In a stream whose calls end normally, the frames counted as duplicated are the frames that repeat the frame
      before them, if and only if not the first picture was planned as a repetition and left at that. */
  lemma {:induction false} DuplicatesAreRepeatsIff(maxFrames: nat, calls: seq<Call>)
    requires Stream(calls) && Rounds(calls) && Run(InitialState(maxFrames), calls).1
    requires calls != [] && calls[0].input.Picture?
    ensures CountedRight(Run(InitialState(maxFrames), calls).0, |calls|, Miscounts(maxFrames, calls))
    decreases |calls|
  {
    var n := |calls| - 1;
    var newest := LastCall(maxFrames, calls);
    var s, call := Before(maxFrames, calls, n), calls[n];
    if n == 0 {
      assert calls[..0] == [];
      FirstCallCounts(maxFrames, call, newest);
    } else {
      DuplicatesAreRepeatsIff(maxFrames, calls[..n]);
      MiscountsLonger(maxFrames, calls);
      NextCallCounts(call, s, newest, n, Miscounts(maxFrames, calls[..n]));
    }
  }

  /** Likewise the pictures counted as dropped, a pending drop included, are those received but never encoded. */
  lemma DropsAreUnshown(maxFrames: nat, calls: seq<Call>)
    requires Stream(calls) && Rounds(calls) && Run(InitialState(maxFrames), calls).1
    requires calls != [] && calls[0].input.Picture?
    ensures var s := Run(InitialState(maxFrames), calls).0;
      var shown := |s.sent| - Repeats(s.sent);
      s.drop + Indicator(s.lastDropped) == s.received - shown + (if Miscounts(maxFrames, calls) then 1 else 0)
  {
    DuplicatesAreRepeatsIff(maxFrames, calls);
    RunBalance(maxFrames, calls);
  }

  /** A first picture without a duration, 1.2 ticks late, at a constant frame rate: one frame is encoded, and counted as
      a duplicate and as a pending drop. */
  lemma LateFirstPictureIsMiscounted(cfg: Config) returns (calls: seq<Call>)
    requires cfg.vsync == Cfr && cfg.dropThreshold == 0.0 && cfg.dupLimit >= 1.0 && Nearest(cfg.round) && cfg.inTime(0)
    ensures Stream(calls) && Rounds(calls) && calls != [] && calls[0].input.Picture?
    ensures Run(InitialState(1), calls).1 && Miscounts(1, calls)
  {
    var call := Call(cfg, Picture(0, 1.2, 0.0));
    calls := [call];
    var s := InitialState(1);
    assert calls[..0] == [] && Run(s, []) == (s, true);
    assert -0.5 <= cfg.round(1.2) as real - 1.2 <= 0.5;
    assert -0.5 <= cfg.round(1.2 - 0.6) as real - (1.2 - 0.6) <= 0.5;
    var plan := FinalPlan(cfg, s, call.input);
    assert plan == Plan(0, 1, 1);
    CallEndsIff(cfg, s, call.input);
    assert CanEncode(cfg, s.lastFrame, call.input, plan, 0);
  }

  // --------------------------------------------------------------------------------------------------- the flush

  /** How many frames the call k calls before the end planned for the previous picture; 0 where there was none. */
  ghost function PlannedBack(maxFrames: int, calls: seq<Call>, k: nat): int {
    if k >= |calls| then 0
    else
      var n := |calls| - 1 - k;
      var s := Run(InitialState(maxFrames), calls[..n]).0;
      FinalPlan(calls[n].cfg, s, calls[n].input).nb0
  }

  lemma LatestPlan(maxFrames: int, calls: seq<Call>)
    requires calls != []
    ensures var n := |calls| - 1; var s := Run(InitialState(maxFrames), calls[..n]).0;
      && PlannedBack(maxFrames, calls, 0) == FinalPlan(calls[n].cfg, s, calls[n].input).nb0
      && Run(InitialState(maxFrames), calls).0 == DoVideoOut(calls[n].cfg, s, calls[n].input).0
  {
  }

  lemma {:induction false} HistoryIsPlans(maxFrames: int, calls: seq<Call>)
    ensures Run(InitialState(maxFrames), calls).0.lastNb0
         == [PlannedBack(maxFrames, calls, 0), PlannedBack(maxFrames, calls, 1), PlannedBack(maxFrames, calls, 2)]
    decreases |calls|
  {
    if calls != [] {
      var n := |calls| - 1;
      HistoryIsPlans(maxFrames, calls[..n]);
      LatestPlan(maxFrames, calls);
      OneFurtherBack(maxFrames, calls, 0);
      OneFurtherBack(maxFrames, calls, 1);
      HistoryGoesOn(calls[n].cfg, Run(InitialState(maxFrames), calls[..n]).0, calls[n].input);
    }
  }

  lemma OneFurtherBack(maxFrames: int, calls: seq<Call>, k: nat)
    requires calls != []
    ensures PlannedBack(maxFrames, calls, k + 1) == PlannedBack(maxFrames, calls[..|calls| - 1], k)
  {
    var front := calls[..|calls| - 1];
    if k < |front| {
      var n := |front| - 1 - k;
      assert front[..n] == calls[..n] && front[n] == calls[n];
    }
  }

  lemma HistoryGoesOn(cfg: Config, s: VideoState, input: Input)
    requires |s.lastNb0| == 3
    ensures DoVideoOut(cfg, s, input).0.lastNb0 == [FinalPlan(cfg, s, input).nb0, s.lastNb0[0], s.lastNb0[1]]
  {
    var (t, accepted) := Account(cfg, s, input);
    if accepted {
      var _ := EmitBurst(cfg, t, input, 0, FinalPlan(cfg, s, input));
    }
  }

  function Median(a: int, b: int, c: int): int { a + b + c - Min(a, Min(b, c)) - Max(a, Max(b, c)) }

  /** The frames of t beyond those of s: n repetitions of the picture kept, at consecutive ticks. */
  ghost predicate Repeated(s: VideoState, t: VideoState, n: int) {
    && n >= 0 && |t.sent| == |s.sent| + n && t.sent[..|s.sent|] == s.sent
    && forall j :: |s.sent| <= j < |t.sent| ==>
         s.lastFrame == Some(t.sent[j].id) && t.sent[j].pts == s.syncOpts + j - |s.sent|
  }

  lemma ClosingEmits(cfg: Config, s: VideoState, n: int)
    requires WellFormed(s) && Nearest(cfg.round) && DoVideoOut(cfg, s, Closing).1.Done?
    requires n == Min(Median(s.lastNb0[0], s.lastNb0[1], s.lastNb0[2]), s.maxFrames - s.frameNumber)
    ensures Repeated(s, DoVideoOut(cfg, s, Closing).0, n)
  {
    PlanIsNatural(cfg, s, Closing);
    MidPredIsMedian(s.lastNb0[0], s.lastNb0[1], s.lastNb0[2]);
    var u, plan := Account(cfg, s, Closing).0, FinalPlan(cfg, s, Closing);
    var k := EmitBurst(cfg, u, Closing, 0, plan);
    var t := Emit(cfg, u, Closing, 0, plan).0;
    assert forall j :: |s.sent| <= j < |t.sent| ==> IdAt(u, t.sent[j].id, Closing, j - |s.sent|, plan.nb0);
  }

  ghost function MedianBack(maxFrames: int, calls: seq<Call>): int {
    Median(PlannedBack(maxFrames, calls, 0), PlannedBack(maxFrames, calls, 1), PlannedBack(maxFrames, calls, 2))
  }

  lemma {:induction false} MedianOfHistory(maxFrames: int, calls: seq<Call>)
    ensures var h := Run(InitialState(maxFrames), calls).0.lastNb0;
      MedianBack(maxFrames, calls) == Median(h[0], h[1], h[2])
  {
    HistoryIsPlans(maxFrames, calls);
  }

  /** The closing call repeats the last picture as often as the median of what the last three calls planned for the
      picture before theirs, as far as max_frames allows. */
  lemma {:induction false} ClosingRepeatsMedian(
      maxFrames: nat, calls: seq<Call>, closing: Config, s: VideoState, n: int)
    requires Rounds(calls) && Run(InitialState(maxFrames), calls) == (s, true) && Nearest(closing.round)
    requires DoVideoOut(closing, s, Closing).1.Done?
    requires n == Min(MedianBack(maxFrames, calls), maxFrames - s.frameNumber)
    ensures Repeated(s, DoVideoOut(closing, s, Closing).0, n)
  {
    MedianOfHistory(maxFrames, calls);
    RunBalance(maxFrames, calls);
    RunKeepsCap(maxFrames, calls);
    ClosingEmits(closing, s, n);
  }

  lemma {:induction false} RunKeepsCap(maxFrames: nat, calls: seq<Call>)
    requires Rounds(calls) && Run(InitialState(maxFrames), calls).1
    ensures Run(InitialState(maxFrames), calls).0.maxFrames == maxFrames
    decreases |calls|
  {
    if calls != [] {
      var n := |calls| - 1;
      RunKeepsCap(maxFrames, calls[..n]);
      RunBalance(maxFrames, calls[..n]);
      KeepsWellFormed(calls[n].cfg, Run(InitialState(maxFrames), calls[..n]).0, calls[n].input);
    }
  }
}
