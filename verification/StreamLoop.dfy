/** -stream_loop in fftools/ffmpeg.c: how much later each pass over an input file is shifted. */
module StreamLoop {
  import opened Wrappers
  import opened Mathematics

  /** min_pts and max_pts of a stream that has had a pts. */
  datatype Range = Range(min: int, max: int)

  datatype StreamInfo = StreamInfo(
    audio: bool, sampleRate: int, framerate: Rational, avgFrameRate: Rational, timeBase: Rational)
  {
    ghost predicate Valid() {
      && timeBase.Positive() && (audio ==> sampleRate > 0)
      && (framerate.num != 0 ==> framerate.Positive())
      && (avgFrameRate.num != 0 ==> avgFrameRate.Positive())
    }
  }

  datatype StreamState = StreamState(range: Option<Range>, nbSamples: nat)

  datatype FileState = FileState(
    infos: seq<StreamInfo>, streams: seq<StreamState>, duration: int, timeBase: Rational)

  ghost predicate WellFormed(f: FileState) {
    && |f.infos| == |f.streams| && f.timeBase.Positive()
    && forall i :: 0 <= i < |f.infos| ==> f.infos[i].Valid()
  }

  // -------------------------------------------------------------------------------------------- specification

  /** Only audio streams with samples count, if there is one. */
  predicate Sounds(info: StreamInfo, s: StreamState) { info.audio && s.nbSamples != 0 }

  predicate HasAudio(f: FileState)
    requires |f.infos| == |f.streams|
  {
    exists i :: 0 <= i < |f.streams| && Sounds(f.infos[i], f.streams[i])
  }

  /** The length of a stream's last frame in its own time base. */
  function FrameDuration(info: StreamInfo, s: StreamState, hasAudio: bool): int
    requires info.Valid() && (hasAudio ==> Sounds(info, s))
  {
    if hasAudio then RescaleQ(s.nbSamples, Rational(1, info.sampleRate), info.timeBase)
    else if info.framerate.num != 0 then RescaleQ(1, info.framerate.Inverse(), info.timeBase)
    else if info.avgFrameRate.num != 0 then RescaleQ(1, info.avgFrameRate.Inverse(), info.timeBase)
    else 1
  }

  function Span(s: StreamState): int {
    if s.range.Some? && s.range.value.max > s.range.value.min then s.range.value.max - s.range.value.min else 0
  }

  /** duration_max: the longer of two durations, with its time base. */
  function DurationMax(tmp: int, duration: int, tmpTimeBase: Rational, timeBase: Rational): (int, Rational) {
    if duration == 0 || CompareTs(duration, timeBase, tmp, tmpTimeBase) < 0 then (tmp, tmpTimeBase)
    else (duration, timeBase)
  }

  /** The duration loop of seek_to_start from stream i on. */
  function SeekFrom(f: FileState, hasAudio: bool, i: nat): (int, Rational)
    requires WellFormed(f) && i <= |f.streams|
    decreases |f.streams| - i
  {
    if i == |f.streams| then (f.duration, f.timeBase)
    else if hasAudio && !Sounds(f.infos[i], f.streams[i]) then SeekFrom(f, hasAudio, i + 1)
    else
      var (duration, timeBase) := Longer(f, hasAudio, i);
      SeekFrom(f.(duration := duration, timeBase := timeBase), hasAudio, i + 1)
  }

  /** The file's duration after stream i has been looked at. */
  function Longer(f: FileState, hasAudio: bool, i: nat): (r: (int, Rational))
    requires WellFormed(f) && i < |f.streams| && (hasAudio ==> Sounds(f.infos[i], f.streams[i]))
    ensures r.1.Positive()
  {
    var info := f.infos[i];
    DurationMax(FrameDuration(info, f.streams[i], hasAudio) + Span(f.streams[i]),
                f.duration, info.timeBase, if f.duration == 0 then info.timeBase else f.timeBase)
  }

  function Seek(f: FileState): FileState
    requires WellFormed(f)
  {
    var (duration, timeBase) := SeekFrom(f, HasAudio(f), 0);
    f.(duration := duration, timeBase := timeBase)
  }

  function Widen(range: Option<Range>, pts: int): Option<Range> {
    if range.None? then Some(Range(pts, pts))
    else Some(Range(Min(pts, range.value.min), Max(pts, range.value.max)))
  }

  /** How much the current pass is shifted, in a stream's time base. */
  function Shift(f: FileState, i: nat): int
    requires WellFormed(f) && i < |f.streams|
  {
    RescaleQ(f.duration, f.timeBase, f.infos[i].timeBase)
  }

  /** The loop-offset part of process_input for a packet of stream i with timestamp `raw`. */
  function Process(f: FileState, i: nat, raw: int): FileState
    requires WellFormed(f) && i < |f.streams|
  {
    var s := f.streams[i];
    f.(streams := f.streams[i := s.(range := Widen(s.range, raw + Shift(f, i)))])
  }

  // --------------------------------------------------------------------------------------------- the program

  class InputStream {
    const info: StreamInfo
    var range: Option<Range>
    var nbSamples: nat

    ghost function View(): StreamState
      reads this
    {
      StreamState(range, nbSamples)
    }

    constructor Init(info: StreamInfo)
      ensures this.info == info && View() == StreamState(None, 0)
    {
      this.info, range, nbSamples := info, None, 0;
    }
  }

  class InputFile {
    const streams: seq<InputStream>
    var duration: int
    var timeBase: Rational

    ghost function View(): (f: FileState)
      reads this, streams
      ensures |f.streams| == |f.infos| == |streams|
      ensures forall i :: 0 <= i < |streams| ==> f.streams[i] == streams[i].View() && f.infos[i] == streams[i].info
    {
      FileState(
        seq(|streams|, i requires 0 <= i < |streams| => streams[i].info),
        seq(|streams|, i requires 0 <= i < |streams| reads this, streams => streams[i].View()),
        duration, timeBase)
    }

    ghost predicate Valid()
      reads this, streams
    {
      && (forall i, j :: 0 <= i < j < |streams| ==> streams[i] != streams[j])
      && WellFormed(View())
    }

    constructor Init(streams: seq<InputStream>)
      requires forall i, j :: 0 <= i < j < |streams| ==> streams[i] != streams[j]
      requires forall i :: 0 <= i < |streams| ==> streams[i].info.Valid()
      ensures Valid() && this.streams == streams && duration == 0 && timeBase == Rational(1, 1)
    {
      this.streams, duration, timeBase := streams, 0, Rational(1, 1);
    }

    method MaxDuration(tmp: int, tmpTimeBase: Rational, current: Rational)
      modifies this
      ensures (duration, timeBase) == DurationMax(tmp, old(duration), tmpTimeBase, current)
    {
      timeBase := current;
      if duration == 0 {
        duration, timeBase := tmp, tmpTimeBase;
        return;
      }
      var ret := CompareTs(duration, timeBase, tmp, tmpTimeBase);
      if ret < 0 {
        duration, timeBase := tmp, tmpTimeBase;
      }
    }

    method AnyAudio() returns (hasAudio: bool)
      requires Valid()
      ensures hasAudio == HasAudio(View())
    {
      ghost var f := View();
      hasAudio := false;
      for i := 0 to |streams|
        invariant hasAudio <==> exists j :: 0 <= j < i && Sounds(f.infos[j], f.streams[j])
      {
        if streams[i].info.audio && streams[i].nbSamples != 0 {
          assert Sounds(f.infos[i], f.streams[i]);
          hasAudio := true;
        }
      }
    }

    /** One turn of the duration loop. */
    method Measure(hasAudio: bool, i: nat)
      requires Valid() && i < |streams|
      requires hasAudio ==> Sounds(View().infos[i], View().streams[i])
      modifies this
      ensures Valid() && (duration, timeBase) == Longer(old(View()), hasAudio, i)
      ensures View() == old(View()).(duration := duration, timeBase := timeBase)
    {
      ghost var f := View();
      var ist := streams[i];
      var length := FrameDuration(ist.info, StreamState(ist.range, ist.nbSamples), hasAudio);
      if ist.range.Some? && ist.range.value.max > ist.range.value.min {
        length := length + (ist.range.value.max - ist.range.value.min);
      }
      MaxDuration(length, ist.info.timeBase, if duration == 0 then ist.info.timeBase else timeBase);
      assert View().streams == f.streams && View().infos == f.infos;
    }

    method SeekToStart()
      requires Valid()
      modifies this
      ensures Valid() && View() == Seek(old(View()))
    {
      ghost var f := View();
      var hasAudio := AnyAudio();
      var i := 0;
      while i < |streams|
        invariant 0 <= i <= |streams| && Valid()
        invariant View() == f.(duration := duration, timeBase := timeBase)
        invariant SeekFrom(View(), hasAudio, i) == SeekFrom(f, hasAudio, 0)
      {
        if !hasAudio || (streams[i].info.audio && streams[i].nbSamples != 0) {
          Measure(hasAudio, i);
        }
        i := i + 1;
      }
    }

    method ProcessPts(i: nat, raw: int) returns (pts: int)
      requires Valid() && i < |streams|
      modifies streams[i]
      ensures Valid() && View() == Process(old(View()), i, raw)
      ensures pts == raw + Shift(old(View()), i)
    {
      ghost var f := View();
      var ist := streams[i];
      pts := raw + RescaleQ(duration, timeBase, ist.info.timeBase);
      ist.range := if ist.range.None? then Some(Range(pts, pts))
                   else Some(Range(Min(pts, ist.range.value.min), Max(pts, ist.range.value.max)));
      assert View().streams == f.streams[i := ist.View()];
      assert View().infos == f.infos;
    }
  }
}
