/** Any number of passes over an input file whose streams share one time base. */
module StreamLoopRuns {
  import opened Wrappers
  import opened Mathematics
  import opened StreamLoop

  /** A packet with a pts, as the demuxer delivers it in every pass. */
  datatype Packet = Packet(stream: nat, raw: int)

  ghost predicate InFile(infos: seq<StreamInfo>, packets: seq<Packet>) {
    forall i :: 0 <= i < |packets| ==> packets[i].stream < |infos|
  }

  function Pass(f: FileState, packets: seq<Packet>): (g: FileState)
    requires WellFormed(f) && InFile(f.infos, packets)
    ensures WellFormed(g) && g.infos == f.infos && g.duration == f.duration && g.timeBase == f.timeBase
    decreases |packets|
  {
    if packets == [] then f
    else
      var n := |packets| - 1;
      Process(Pass(f, packets[..n]), packets[n].stream, packets[n].raw)
  }

  /** What the decoders report at the end of a pass: the samples of each stream's last frame. */
  function SetSamples(f: FileState, samples: seq<nat>): (g: FileState)
    requires WellFormed(f) && |samples| == |f.streams|
    ensures WellFormed(g)
  {
    f.(streams := seq(|f.streams|, i requires 0 <= i < |f.streams| => f.streams[i].(nbSamples := samples[i])))
  }

  function Initial(infos: seq<StreamInfo>): FileState {
    FileState(infos, seq(|infos|, i => StreamState(None, 0)), 0, Rational(1, 1))
  }

  lemma {:induction false} SeekIsWellFormed(f: FileState, hasAudio: bool, i: nat)
    requires WellFormed(f) && i <= |f.streams|
    ensures SeekFrom(f, hasAudio, i).1.Positive()
    decreases |f.streams| - i
  {
    if i < |f.streams| {
      if hasAudio && !Sounds(f.infos[i], f.streams[i]) {
        SeekIsWellFormed(f, hasAudio, i + 1);
      } else {
        var (duration, timeBase) := Longer(f, hasAudio, i);
        SeekIsWellFormed(f.(duration := duration, timeBase := timeBase), hasAudio, i + 1);
      }
    }
  }

  ghost predicate Setup(infos: seq<StreamInfo>, tb: Rational, packets: seq<Packet>, samples: seq<seq<nat>>) {
    && InFile(infos, packets) && tb.Positive()
    && (forall i :: 0 <= i < |infos| ==> infos[i].Valid() && infos[i].timeBase == tb)
    && (forall k :: 0 <= k < |samples| ==> |samples[k]| == |infos|)
  }

  /** The file at the end of a pass, just before it is rewound. */
  function AtEnd(f: FileState, packets: seq<Packet>, samples: seq<nat>): (g: FileState)
    requires WellFormed(f) && InFile(f.infos, packets) && |samples| == |f.infos|
    ensures WellFormed(g) && g.infos == f.infos && g.duration == f.duration && g.timeBase == f.timeBase
  {
    SetSamples(Pass(f, packets), samples)
  }

  /** The file at the start of pass k. */
  function StartOf(
      infos: seq<StreamInfo>, tb: Rational, packets: seq<Packet>, samples: seq<seq<nat>>, k: nat): (f: FileState)
    requires Setup(infos, tb, packets, samples) && k <= |samples|
    ensures WellFormed(f) && f.infos == infos
  {
    if k == 0 then Initial(infos)
    else
      var end := AtEnd(StartOf(infos, tb, packets, samples, k - 1), packets, samples[k - 1]);
      SeekIsWellFormed(end, HasAudio(end), 0);
      Seek(end)
  }

  /** The pts that process_input gives to a packet read in the pass that starts with f. */
  function PtsIn(f: FileState, p: Packet): int
    requires WellFormed(f) && p.stream < |f.streams|
  {
    p.raw + Shift(f, p.stream)
  }

  // --------------------------------------------------------------------------------------------- ranges of pts

  function RawRange(packets: seq<Packet>, i: nat): Option<Range> {
    if packets == [] then None
    else
      var n := |packets| - 1;
      if packets[n].stream == i then Widen(RawRange(packets[..n], i), packets[n].raw) else RawRange(packets[..n], i)
  }

  lemma {:induction false} RawRangeIsTight(packets: seq<Packet>, i: nat)
    ensures RawRange(packets, i).None? <==> forall p :: p in packets ==> p.stream != i
    ensures RawRange(packets, i).Some? ==>
      var r := RawRange(packets, i).value;
      && Packet(i, r.min) in packets && Packet(i, r.max) in packets
      && forall p :: p in packets && p.stream == i ==> r.min <= p.raw <= r.max
  {
    if packets != [] {
      var n := |packets| - 1;
      RawRangeIsTight(packets[..n], i);
      assert forall p :: p in packets <==> p in packets[..n] || p == packets[n];
    }
  }

  /** The pts range of a stream after a pass shifted by d, from its range before the pass. */
  function Merge(before: Option<Range>, raw: Option<Range>, d: int): Option<Range> {
    if raw.None? then before
    else if before.None? then Some(Range(raw.value.min + d, raw.value.max + d))
    else Some(Range(Min(before.value.min, raw.value.min + d), Max(before.value.max, raw.value.max + d)))
  }

  ghost predicate CommonBase(f: FileState, tb: Rational) {
    && WellFormed(f) && tb.Positive()
    && (forall i :: 0 <= i < |f.infos| ==> f.infos[i].timeBase == tb)
    && (f.timeBase == tb || f.duration == 0)
  }

  lemma ShiftIsDuration(f: FileState, tb: Rational, i: nat)
    requires CommonBase(f, tb) && i < |f.streams|
    ensures Shift(f, i) == f.duration
  {
    if f.timeBase == tb {
      RescaleQIdentity(f.duration, tb);
    } else {
      QuotientIs(tb.num * f.timeBase.den / 2, tb.num * f.timeBase.den, 0);
    }
  }

  /** Widening a shifted range by a shifted pts is shifting the widened range. */
  lemma MergeWidens(before: Option<Range>, raw: Option<Range>, d: int, pts: int)
    ensures Widen(Merge(before, raw, d), pts + d) == Merge(before, Widen(raw, pts), d)
  {
  }

  lemma ProcessWidens(f: FileState, tb: Rational, p: Packet, i: nat)
    requires CommonBase(f, tb) && p.stream < |f.streams| && i < |f.streams|
    ensures Process(f, p.stream, p.raw).streams[i].range
         == if p.stream == i then Widen(f.streams[i].range, p.raw + f.duration) else f.streams[i].range
  {
    ShiftIsDuration(f, tb, p.stream);
  }

  lemma {:induction false} PassMerges(f: FileState, tb: Rational, packets: seq<Packet>, i: nat)
    requires CommonBase(f, tb) && InFile(f.infos, packets) && i < |f.streams|
    ensures Pass(f, packets).streams[i].range == Merge(f.streams[i].range, RawRange(packets, i), f.duration)
    decreases |packets|
  {
    if packets != [] {
      var n := |packets| - 1;
      PassMerges(f, tb, packets[..n], i);
      ProcessWidens(Pass(f, packets[..n]), tb, packets[n], i);
      MergeWidens(f.streams[i].range, RawRange(packets[..n], i), f.duration, packets[n].raw);
    }
  }

  // ------------------------------------------------------------------------------------------------- durations

  /** If any audio stream of the file decoded samples, only such streams count. */
  ghost predicate Counts(f: FileState, i: nat)
    requires |f.infos| == |f.streams| && i < |f.streams|
  {
    (exists j :: 0 <= j < |f.streams| && f.infos[j].audio && f.streams[j].nbSamples > 0) ==>
      f.infos[i].audio && f.streams[i].nbSamples > 0
  }

  function Total(f: FileState, i: nat): int
    requires WellFormed(f) && i < |f.streams| && Counts(f, i)
  {
    FrameDuration(f.infos[i], f.streams[i], HasAudio(f)) + Span(f.streams[i])
  }

  lemma RescaleNatural(a: nat, b: nat, c: nat)
    requires c > 0
    ensures Rescale(a, b, c) >= 0
  {
    assert a * b >= 0;
  }

  lemma FrameDurationNatural(info: StreamInfo, s: StreamState, hasAudio: bool)
    requires info.Valid() && (hasAudio ==> info.audio && s.nbSamples > 0)
    ensures FrameDuration(info, s, hasAudio) >= 0
  {
    var tb := info.timeBase;
    if hasAudio {
      RescaleNatural(s.nbSamples, tb.den, tb.num * info.sampleRate);
    } else if info.framerate.num != 0 {
      RescaleNatural(1, info.framerate.den * tb.den, tb.num * info.framerate.num);
    } else if info.avgFrameRate.num != 0 {
      RescaleNatural(1, info.avgFrameRate.den * tb.den, tb.num * info.avgFrameRate.num);
    }
  }

  /** Within one time base a turn of the duration loop takes the maximum. */
  lemma LongerIsMax(f: FileState, tb: Rational, i: nat)
    requires CommonBase(f, tb) && f.duration >= 0 && i < |f.streams| && Counts(f, i)
    ensures Longer(f, HasAudio(f), i).0 == Max(f.duration, Total(f, i))
    ensures Longer(f, HasAudio(f), i).1 == tb
  {
    FrameDurationNatural(f.infos[i], f.streams[i], HasAudio(f));
    if f.duration != 0 {
      CompareTsSame(f.duration, Total(f, i), tb);
    }
  }

  ghost predicate CountedBelow(f: FileState, d: int, from: nat)
    requires WellFormed(f)
  {
    forall i :: from <= i < |f.streams| && Counts(f, i) ==> Total(f, i) <= d
  }

  ghost predicate CountedAttains(f: FileState, d: int)
    requires WellFormed(f)
  {
    exists i :: 0 <= i < |f.streams| && Counts(f, i) && Total(f, i) == d
  }

  lemma {:induction false} SeekFromIsMax(f: FileState, tb: Rational, i: nat)
    requires CommonBase(f, tb) && f.duration >= 0 && i <= |f.streams|
    ensures var d := SeekFrom(f, HasAudio(f), i).0;
      && d >= f.duration && CountedBelow(f, d, i)
      && (d == f.duration || CountedAttains(f, d))
      && (SeekFrom(f, HasAudio(f), i).1 == tb || d == 0)
    decreases |f.streams| - i
  {
    if i < |f.streams| {
      if !Counts(f, i) {
        SeekFromIsMax(f, tb, i + 1);
      } else {
        LongerIsMax(f, tb, i);
        var g := f.(duration := Longer(f, HasAudio(f), i).0, timeBase := tb);
        SeekFromIsMax(g, tb, i + 1);
        assert SeekFrom(f, HasAudio(f), i) == SeekFrom(g, HasAudio(g), i + 1);
        assert forall j :: 0 <= j < |f.streams| && Counts(f, j) ==> Counts(g, j) && Total(g, j) == Total(f, j);
      }
    }
  }

  // ------------------------------------------------------------------------------------------ pass after pass

  /** Length of the shift of pass k. */
  function Offset(infos: seq<StreamInfo>, tb: Rational, packets: seq<Packet>, samples: seq<seq<nat>>, k: nat): int
    requires Setup(infos, tb, packets, samples) && k <= |samples|
  {
    StartOf(infos, tb, packets, samples, k).duration
  }

  function EndOf(
      infos: seq<StreamInfo>, tb: Rational, packets: seq<Packet>, samples: seq<seq<nat>>, k: nat): (f: FileState)
    requires Setup(infos, tb, packets, samples) && k < |samples|
    ensures WellFormed(f) && f.infos == infos
  {
    AtEnd(StartOf(infos, tb, packets, samples, k), packets, samples[k])
  }

  /** The range of stream i once pass k is over: from the first pass's least pts to this pass's greatest. */
  function Covered(packets: seq<Packet>, i: nat, offset: int): Option<Range> {
    var raw := RawRange(packets, i);
    if raw.None? then None else Some(Range(raw.value.min, raw.value.max + offset))
  }

  /** One pass takes the ranges from what they covered before, if anything, to its own offset. */
  lemma PassCovers(f: FileState, tb: Rational, packets: seq<Packet>, samples: seq<nat>, earlier: Option<int>, i: nat)
    requires CommonBase(f, tb) && InFile(f.infos, packets) && |samples| == |f.infos| && i < |f.infos|
    requires f.duration >= (if earlier.Some? then earlier.value else 0) && (earlier.None? ==> f.duration == 0)
    requires f.duration >= 0
    requires f.streams[i].range == if earlier.Some? then Covered(packets, i, earlier.value) else None
    ensures AtEnd(f, packets, samples).streams[i].range == Covered(packets, i, f.duration)
  {
    PassMerges(f, tb, packets, i);
    RawRangeIsTight(packets, i);
  }

  lemma SeekKeepsBase(f: FileState, tb: Rational)
    requires CommonBase(f, tb) && f.duration >= 0
    ensures WellFormed(Seek(f)) && CommonBase(Seek(f), tb) && Seek(f).duration >= f.duration
  {
    SeekFromIsMax(f, tb, 0);
    SeekIsWellFormed(f, HasAudio(f), 0);
  }

  lemma {:induction false} RangesAccumulate(
      infos: seq<StreamInfo>, tb: Rational, packets: seq<Packet>, samples: seq<seq<nat>>, k: nat)
    requires Setup(infos, tb, packets, samples) && k < |samples|
    ensures Offset(infos, tb, packets, samples, k + 1) >= Offset(infos, tb, packets, samples, k) >= 0
    ensures CommonBase(StartOf(infos, tb, packets, samples, k), tb)
    ensures CommonBase(StartOf(infos, tb, packets, samples, k + 1), tb)
    ensures forall i :: 0 <= i < |infos| ==>
      EndOf(infos, tb, packets, samples, k).streams[i].range
        == Covered(packets, i, Offset(infos, tb, packets, samples, k))
    decreases k
  {
    var f := StartOf(infos, tb, packets, samples, k);
    var earlier := None;
    if k > 0 {
      RangesAccumulate(infos, tb, packets, samples, k - 1);
      earlier := Some(Offset(infos, tb, packets, samples, k - 1));
      assert f.streams == EndOf(infos, tb, packets, samples, k - 1).streams;
    }
    forall i | 0 <= i < |infos|
      ensures EndOf(infos, tb, packets, samples, k).streams[i].range == Covered(packets, i, f.duration)
    {
      PassCovers(f, tb, packets, samples[k], earlier, i);
    }
    SeekKeepsBase(EndOf(infos, tb, packets, samples, k), tb);
  }

  /** Every pts of stream i in pass k + 1 exceeds every pts of that stream in pass k. */
  ghost predicate Separated(
      infos: seq<StreamInfo>, tb: Rational, packets: seq<Packet>, samples: seq<seq<nat>>, k: nat, i: nat)
    requires Setup(infos, tb, packets, samples) && k < |samples| && i < |infos|
  {
    forall p, q :: p in packets && q in packets && p.stream == i && q.stream == i ==>
      PtsIn(StartOf(infos, tb, packets, samples, k), p) < PtsIn(StartOf(infos, tb, packets, samples, k + 1), q)
  }

  lemma PtsIsShifted(
      infos: seq<StreamInfo>, tb: Rational, packets: seq<Packet>, samples: seq<seq<nat>>, k: nat, p: Packet)
    requires Setup(infos, tb, packets, samples) && k < |samples| && p.stream < |infos|
    ensures PtsIn(StartOf(infos, tb, packets, samples, k), p) == p.raw + Offset(infos, tb, packets, samples, k)
    ensures PtsIn(StartOf(infos, tb, packets, samples, k + 1), p) == p.raw + Offset(infos, tb, packets, samples, k + 1)
  {
    RangesAccumulate(infos, tb, packets, samples, k);
    ShiftIsDuration(StartOf(infos, tb, packets, samples, k), tb, p.stream);
    ShiftIsDuration(StartOf(infos, tb, packets, samples, k + 1), tb, p.stream);
  }

  /** Two passes of a stream are separated if and only if the offset grows by more than the stream's extent. */
  lemma SeparatedIff(
      infos: seq<StreamInfo>, tb: Rational, packets: seq<Packet>, samples: seq<seq<nat>>, k: nat, i: nat)
    requires Setup(infos, tb, packets, samples) && k < |samples| && i < |infos|
    requires RawRange(packets, i).Some?
    ensures var raw := RawRange(packets, i).value;
      Separated(infos, tb, packets, samples, k, i) <==>
        Offset(infos, tb, packets, samples, k + 1) > Offset(infos, tb, packets, samples, k) + raw.max - raw.min
  {
    RawRangeIsTight(packets, i);
    var raw := RawRange(packets, i).value;
    var last, first := Packet(i, raw.max), Packet(i, raw.min);
    assert last in packets && first in packets;
    PtsIsShifted(infos, tb, packets, samples, k, last);
    PtsIsShifted(infos, tb, packets, samples, k, first);
    if Offset(infos, tb, packets, samples, k + 1) > Offset(infos, tb, packets, samples, k) + raw.max - raw.min {
      forall p, q | p in packets && q in packets && p.stream == i && q.stream == i
        ensures PtsIn(StartOf(infos, tb, packets, samples, k), p)
              < PtsIn(StartOf(infos, tb, packets, samples, k + 1), q)
      {
        PtsIsShifted(infos, tb, packets, samples, k, p);
        PtsIsShifted(infos, tb, packets, samples, k, q);
      }
    }
  }

  /** What the offset grows to: the greatest of the counted streams' frame lengths plus extents, the extents
      reaching to the end of the pass just over. */
  lemma OffsetRecurrence(infos: seq<StreamInfo>, tb: Rational, packets: seq<Packet>, samples: seq<seq<nat>>, k: nat)
    requires Setup(infos, tb, packets, samples) && k < |samples|
    ensures var end := EndOf(infos, tb, packets, samples, k);
      var offset, next := Offset(infos, tb, packets, samples, k), Offset(infos, tb, packets, samples, k + 1);
      && next >= offset && (next == offset || CountedAttains(end, next))
      && forall i :: 0 <= i < |infos| && Counts(end, i) ==>
           && next >= Total(end, i)
           && Total(end, i) == FrameDuration(infos[i], end.streams[i], HasAudio(end))
                + (match RawRange(packets, i) case None => 0 case Some(raw) => raw.max - raw.min + offset)
  {
    RangesAccumulate(infos, tb, packets, samples, k);
    var end := EndOf(infos, tb, packets, samples, k);
    SeekFromIsMax(end, tb, 0);
    forall i | 0 <= i < |infos|
      ensures RawRange(packets, i).Some? ==> RawRange(packets, i).value.min <= RawRange(packets, i).value.max
    {
      RawRangeIsTight(packets, i);
    }
  }

  // ---------------------------------------------------------------------------------------------- main results

  ghost predicate NoAudio(infos: seq<StreamInfo>) {
    forall i :: 0 <= i < |infos| ==> !infos[i].audio
  }

  /** The length of the last frame of a stream in a file without audio. */
  function VideoFrame(info: StreamInfo): int
    requires info.Valid()
  {
    FrameDuration(info, StreamState(None, 0), false)
  }

  /** Without audio, a stream whose frame lasts at least one tick has its passes apart: every pts exceeds every
      pts of the stream in the pass before. */
  lemma PassesAreSeparated(
      infos: seq<StreamInfo>, tb: Rational, packets: seq<Packet>, samples: seq<seq<nat>>, k: nat, i: nat)
    requires Setup(infos, tb, packets, samples) && k < |samples| && i < |infos|
    requires NoAudio(infos) && VideoFrame(infos[i]) >= 1
    ensures Separated(infos, tb, packets, samples, k, i)
  {
    OffsetRecurrence(infos, tb, packets, samples, k);
    RawRangeIsTight(packets, i);
    if RawRange(packets, i).Some? {
      SeparatedIff(infos, tb, packets, samples, k, i);
      assert Counts(EndOf(infos, tb, packets, samples, k), i);
    }
  }

  lemma {:induction false} FramesAreBounded(infos: seq<StreamInfo>) returns (n: nat)
    requires forall i :: 0 <= i < |infos| ==> infos[i].Valid()
    ensures n >= 1 && forall i :: 0 <= i < |infos| ==> VideoFrame(infos[i]) <= n
    decreases |infos|
  {
    n := 1;
    if infos != [] {
      n := FramesAreBounded(infos[..|infos| - 1]);
      n := Max(n, VideoFrame(infos[|infos| - 1]));
      forall i | 0 <= i < |infos|
        ensures VideoFrame(infos[i]) <= n
      {
        if i < |infos| - 1 {
          assert infos[..|infos| - 1][i] == infos[i];
        }
      }
    }
  }

  /** A stream whose frame rounds to no tick at all, and long enough to set the offset: its second pass starts
      on the last pts of its first. */
  lemma ShortFramesCollide(
      infos: seq<StreamInfo>, tb: Rational, i: nat) returns (packets: seq<Packet>, samples: seq<seq<nat>>)
    requires Setup(infos, tb, [], []) && NoAudio(infos) && i < |infos| && VideoFrame(infos[i]) <= 0
    ensures Setup(infos, tb, packets, samples) && |samples| == 1
    ensures !Separated(infos, tb, packets, samples, 0, i)
  {
    var n := FramesAreBounded(infos);
    packets := [Packet(i, 0), Packet(i, n)];
    samples := [seq(|infos|, j => 0)];
    assert packets[..1] == [Packet(i, 0)] && packets[..1][..0] == [];
    assert RawRange(packets[..1], i) == Some(Range(0, 0));
    assert RawRange(packets, i) == Some(Range(0, n));
    forall j: nat | j != i
      ensures RawRange(packets, j) == None
    {
      RawRangeIsTight(packets, j);
    }
    OffsetRecurrence(infos, tb, packets, samples, 0);
    SeparatedIff(infos, tb, packets, samples, 0, i);
    var end := EndOf(infos, tb, packets, samples, 0);
    forall j | 0 <= j < |infos| && Counts(end, j)
      ensures Total(end, j) <= n
    {
      assert FrameDuration(infos[j], end.streams[j], false) == VideoFrame(infos[j]);
    }
  }

  /** Whatever the file holds, the passes of a stream are apart if and only if its frame lasts at least one tick. */
  lemma LoopingIsSafeIff(infos: seq<StreamInfo>, tb: Rational, i: nat)
    requires Setup(infos, tb, [], []) && NoAudio(infos) && i < |infos|
    ensures VideoFrame(infos[i]) >= 1 <==>
      forall packets, samples, k :: Setup(infos, tb, packets, samples) && 0 <= k < |samples| ==>
        Separated(infos, tb, packets, samples, k, i)
  {
    if VideoFrame(infos[i]) >= 1 {
      forall packets, samples, k | Setup(infos, tb, packets, samples) && 0 <= k < |samples|
        ensures Separated(infos, tb, packets, samples, k, i)
      {
        PassesAreSeparated(infos, tb, packets, samples, k, i);
      }
    } else {
      var packets, samples := ShortFramesCollide(infos, tb, i);
    }
  }

  /** The last frame lasts at least one tick if and only if the frame period is at least half a tick. */
  lemma FrameLastsIff(info: StreamInfo)
    requires info.Valid()
    ensures VideoFrame(info) >= 1 <==>
      var rate := if info.framerate.num != 0 then info.framerate else info.avgFrameRate;
      rate.num != 0 ==> 2 * (rate.den * info.timeBase.den) >= info.timeBase.num * rate.num
  {
    var rate := if info.framerate.num != 0 then info.framerate else info.avgFrameRate;
    if rate.num != 0 {
      var b, c := rate.den * info.timeBase.den, info.timeBase.num * rate.num;
      assert b > 0 && c > 0;
      if b + c / 2 < c {
        QuotientIs(b + c / 2, c, 0);
      }
    }
  }

  // ------------------------------------------------------------------------------------- streams of any time base

  /** The frame that a stream's duration ends with, to the nearest tick: its last samples if audio counts, else a frame
      at its rate, else one tick. */
  lemma FrameDurationIsNear(info: StreamInfo, s: StreamState, hasAudio: bool)
    requires info.Valid() && (hasAudio ==> info.audio && s.nbSamples > 0)
    ensures var d, tb := FrameDuration(info, s, hasAudio), info.timeBase;
      if hasAudio then Near(s.nbSamples, Rational(1, info.sampleRate), d, tb)
      else if info.framerate.num != 0 then Near(1, Rational(info.framerate.den, info.framerate.num), d, tb)
      else if info.avgFrameRate.num != 0 then Near(1, Rational(info.avgFrameRate.den, info.avgFrameRate.num), d, tb)
      else d == 1
  {
    if hasAudio {
      RescaleQIsNearest(s.nbSamples, Rational(1, info.sampleRate), info.timeBase);
    } else if info.framerate.num != 0 {
      RescaleQIsNearest(1, info.framerate.Inverse(), info.timeBase);
    } else if info.avgFrameRate.num != 0 {
      RescaleQIsNearest(1, info.avgFrameRate.Inverse(), info.timeBase);
    }
  }

  /** Every stream is shifted by the file's duration, to the nearest tick of its own time base. */
  lemma ShiftIsNear(f: FileState, i: nat)
    requires WellFormed(f) && i < |f.streams|
    ensures Near(f.duration, f.timeBase, Shift(f, i), f.infos[i].timeBase)
  {
    RescaleQIsNearest(f.duration, f.timeBase, f.infos[i].timeBase);
  }

  lemma NothingLasts(tb: Rational)
    requires tb.Positive()
    ensures Seconds(0, tb) == 0.0
  {
  }

  lemma LastsSomething(ts: int, tb: Rational)
    requires tb.Positive() && ts >= 0
    ensures Seconds(ts, tb) >= 0.0
  {
    assert ToReal(tb) > 0.0;
  }

  /** A turn of the duration loop takes the longer time, whatever the time bases. */
  lemma LongerIsLongest(f: FileState, i: nat)
    requires WellFormed(f) && f.duration >= 0 && i < |f.streams| && Counts(f, i)
    ensures var (d, tb) := Longer(f, HasAudio(f), i);
      && d >= 0 && Seconds(d, tb) >= Seconds(f.duration, f.timeBase)
      && Seconds(d, tb) >= Seconds(Total(f, i), f.infos[i].timeBase)
      && (Seconds(d, tb) == Seconds(f.duration, f.timeBase)
          || (d, tb) == (Total(f, i), f.infos[i].timeBase))
  {
    var total, tb := Total(f, i), f.infos[i].timeBase;
    FrameDurationNatural(f.infos[i], f.streams[i], HasAudio(f));
    LastsSomething(total, tb);
    if f.duration == 0 {
      NothingLasts(f.timeBase);
    } else {
      CompareTsIsTime(f.duration, f.timeBase, total, tb);
    }
  }

  /** The duration d in tb is no shorter than any stream from `from` on that counts. */
  ghost predicate LongestFrom(f: FileState, d: int, tb: Rational, from: nat)
    requires WellFormed(f) && tb.den > 0
  {
    forall i :: from <= i < |f.streams| && Counts(f, i) ==> Seconds(Total(f, i), f.infos[i].timeBase) <= Seconds(d, tb)
  }

  ghost predicate IsLengthOf(f: FileState, d: int, tb: Rational)
    requires WellFormed(f) && tb.den > 0
  {
    exists i :: 0 <= i < |f.streams| && Counts(f, i) && Seconds(Total(f, i), f.infos[i].timeBase) == Seconds(d, tb)
  }

  lemma SameStreams(f: FileState, g: FileState, d: int, tb: Rational)
    requires WellFormed(f) && WellFormed(g) && g.streams == f.streams && g.infos == f.infos && tb.den > 0
    ensures HasAudio(f) <==> HasAudio(g)
    ensures forall i :: 0 <= i <= |f.streams| && LongestFrom(g, d, tb, i) ==> LongestFrom(f, d, tb, i)
    ensures IsLengthOf(g, d, tb) ==> IsLengthOf(f, d, tb)
  {
    assert forall j :: 0 <= j < |f.streams| && Counts(f, j) ==> Counts(g, j) && Total(g, j) == Total(f, j);
    assert forall j :: 0 <= j < |f.streams| && Counts(g, j) ==> Counts(f, j) && Total(g, j) == Total(f, j);
  }

  /** The longest time of what the loop has found so far, next, and of the streams that count from i on. */
  ghost predicate FoundLongest(f: FileState, i: nat, d: int, tb: Rational)
    requires WellFormed(f)
  {
    && tb.Positive() && d >= 0 && Seconds(d, tb) >= Seconds(f.duration, f.timeBase) && LongestFrom(f, d, tb, i)
    && (Seconds(d, tb) == Seconds(f.duration, f.timeBase) || IsLengthOf(f, d, tb))
  }

  lemma FoundWithNext(f: FileState, g: FileState, i: nat, d: int, tb: Rational)
    requires WellFormed(f) && f.duration >= 0 && i < |f.streams| && Counts(f, i)
    requires g == f.(duration := Longer(f, HasAudio(f), i).0, timeBase := Longer(f, HasAudio(f), i).1)
    requires WellFormed(g) && FoundLongest(g, i + 1, d, tb)
    ensures FoundLongest(f, i, d, tb)
  {
    LongerIsLongest(f, i);
    SameStreams(f, g, d, tb);
    assert LongestFrom(f, d, tb, i + 1);
  }

  /** The duration loop finds the longest time of the old duration and of all the streams that count, whatever their
      time bases. */
  lemma {:induction false} SeekFromIsLongest(f: FileState, i: nat)
    requires WellFormed(f) && f.duration >= 0 && i <= |f.streams|
    ensures FoundLongest(f, i, SeekFrom(f, HasAudio(f), i).0, SeekFrom(f, HasAudio(f), i).1)
    decreases |f.streams| - i
  {
    var (d, tb) := SeekFrom(f, HasAudio(f), i);
    if i == |f.streams| {
      LastsSomething(f.duration, f.timeBase);
    } else if !Counts(f, i) {
      SeekFromIsLongest(f, i + 1);
    } else {
      LongerIsLongest(f, i);
      var g := f.(duration := Longer(f, HasAudio(f), i).0, timeBase := Longer(f, HasAudio(f), i).1);
      SameStreams(f, g, d, f.timeBase);
      SeekFromIsLongest(g, i + 1);
      FoundWithNext(f, g, i, d, tb);
    }
  }
}
