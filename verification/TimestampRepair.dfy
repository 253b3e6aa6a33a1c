/** The timestamp repair of write_packet in fftools/ffmpeg.c. */
module TimestampRepair {
  import opened Wrappers

  /** AV_NOPTS_VALUE is None here; where the source computes with it, it is this number. */
  const NOPTS := -0x8000_0000_0000_0000

  datatype Stamp = Stamp(pts: Option<int>, dts: Option<int>)

  /** `timestamped`: the muxer wants timestamps.  `ordered`: audio, video or subtitle, and not a VP9 copy.
      `strict`: the muxer lacks AVFMT_TS_NONSTRICT. */
  datatype Rules = Rules(timestamped: bool, ordered: bool, strict: bool)

  function Numeric(t: Option<int>): int { if t.Some? then t.value else NOPTS }

  function Guess(pts: int, dts: int, next: int): int {
    pts + dts + next - Min(pts, Min(dts, next)) - Max(pts, Max(dts, next))
  }

  predicate Inverted(s: Stamp) { s.dts.Some? && s.pts.Some? && s.dts.value > s.pts.value }

  function Uninvert(last: Option<int>, s: Stamp): Stamp {
    if Inverted(s) then
      var guess := Guess(s.pts.value, s.dts.value, Numeric(last) + 1);
      Stamp(Some(guess), Some(guess))
    else s
  }

  /** The least dts the muxer accepts after `last`. */
  function Floor(rules: Rules, last: int): int { last + (if rules.strict then 1 else 0) }

  predicate GoesBack(rules: Rules, last: Option<int>, s: Stamp) {
    rules.ordered && s.dts.Some? && last.Some? && s.dts.value < Floor(rules, last.value)
  }

  function Raise(floor: int, s: Stamp): Stamp
    requires s.dts.Some?
  {
    Stamp(if s.pts.Some? && s.pts.value >= s.dts.value then Some(Max(s.pts.value, floor)) else s.pts, Some(floor))
  }

  function Repair(rules: Rules, last: Option<int>, s: Stamp): Stamp {
    if !rules.timestamped then s
    else
      var t := Uninvert(last, s);
      if GoesBack(rules, last, t) then Raise(Floor(rules, last.value), t) else t
  }

  function LastDts(ss: seq<Stamp>): Option<int> { if ss == [] then None else ss[|ss| - 1].dts }

  /** What the muxer gets for a whole stream of packets. */
  function RepairAll(rules: Rules, ss: seq<Stamp>): (out: seq<Stamp>)
    ensures |out| == |ss|
  {
    if ss == [] then []
    else
      var before := RepairAll(rules, ss[..|ss| - 1]);
      before + [Repair(rules, LastDts(before), ss[|ss| - 1])]
  }

  // ---------------------------------------------------------------------------------------------- one packet

  /** The guess is the median of its three arguments. */
  lemma GuessIsMedian(pts: int, dts: int, next: int)
    ensures var g := Guess(pts, dts, next);
      && g in {pts, dts, next}
      && ((g <= pts && g <= dts) || (g <= pts && g <= next) || (g <= dts && g <= next))
      && ((g >= pts && g >= dts) || (g >= pts && g >= next) || (g >= dts && g >= next))
  {
  }

  /** The dts comes behind the last one; a non-strict muxer also takes the same one again. */
  predicate Follows(rules: Rules, last: Option<int>, dts: Option<int>) {
    last.Some? && dts.Some? && rules.ordered ==>
      last.value < dts.value || (!rules.strict && last.value == dts.value)
  }

  lemma RepairMeetsRules(rules: Rules, last: Option<int>, s: Stamp)
    ensures var t := Repair(rules, last, s);
      && (t.dts.Some? <==> s.dts.Some?) && (t.pts.Some? <==> s.pts.Some?)
      && (rules.timestamped ==> Follows(rules, last, t.dts) && !Inverted(t))
  {
  }

  /** A packet passes unchanged if and only if it already meets both rules. */
  lemma UnchangedIff(rules: Rules, last: Option<int>, s: Stamp)
    ensures Repair(rules, last, s) == s <==> !rules.timestamped || (!Inverted(s) && Follows(rules, last, s.dts))
  {
  }

  /** A packet in order is moved no farther than it must be: to the least dts that follows, and to the least pts that is
      no earlier than that. */
  lemma RepairIsLeast(rules: Rules, last: Option<int>, s: Stamp)
    requires rules.timestamped && !Inverted(s) && s.dts.Some?
    ensures var t := Repair(rules, last, s);
      && t.dts.Some? && t.dts.value >= s.dts.value
      && (forall d :: d >= s.dts.value && Follows(rules, last, Some(d)) ==> t.dts.value <= d)
      && t.pts == if s.pts.Some? then Some(Max(s.pts.value, t.dts.value)) else None
  {
    var t := Repair(rules, last, s);
    assert Follows(rules, last, t.dts);
  }

  lemma WithoutDtsUnchanged(rules: Rules, last: Option<int>, s: Stamp)
    requires s.dts.None?
    ensures Repair(rules, last, s) == s
  {
  }

  /** A packet out of order gets one time between its own two, the nearest to the tick behind the last dts, or the
      earlier one if there was no dts before; but never one that does not follow. */
  lemma InvertedIsSettled(rules: Rules, last: Option<int>, s: Stamp) returns (v: int)
    requires rules.timestamped && Inverted(s) && s.pts.value > NOPTS
    ensures s.pts.value <= v <= s.dts.value
    ensures last.None? ==> v == s.pts.value
    ensures last.Some? ==> forall w :: s.pts.value <= w <= s.dts.value ==>
      FromNext(v, last.value) <= FromNext(w, last.value)
    ensures var t := Repair(rules, last, s);
      && t.pts == t.dts && t.dts.Some? && t.dts.value >= v && Follows(rules, last, t.dts)
      && (forall d :: d >= v && Follows(rules, last, Some(d)) ==> t.dts.value <= d)
  {
    v := Guess(s.pts.value, s.dts.value, Numeric(last) + 1);
    assert Follows(rules, last, Repair(rules, last, s).dts);
  }

  /** How far a time is from the tick behind the last dts. */
  function FromNext(t: int, last: int): nat { if t < last + 1 then last + 1 - t else t - (last + 1) }

  // -------------------------------------------------------------------------------------------- whole streams

  lemma {:induction false} RepairAllAt(rules: Rules, ss: seq<Stamp>, i: nat)
    requires i < |ss|
    ensures RepairAll(rules, ss)[..i] == RepairAll(rules, ss[..i])
    ensures RepairAll(rules, ss)[i] == Repair(rules, LastDts(RepairAll(rules, ss)[..i]), ss[i])
  {
    var n := |ss| - 1;
    if i < n {
      RepairAllAt(rules, ss[..n], i);
      assert ss[..n][..i] == ss[..i];
      assert RepairAll(rules, ss)[..i] == RepairAll(rules, ss[..n])[..i];
    } else {
      assert RepairAll(rules, ss)[..n] == RepairAll(rules, ss[..n]);
    }
  }

  ghost predicate DtsDefined(ss: seq<Stamp>, from: nat, to: nat) {
    forall k :: from <= k <= to && k < |ss| ==> ss[k].dts.Some?
  }

  /** In any stretch of packets with a dts the delivered dts rises, strictly unless the muxer is non-strict. */
  lemma {:induction false} DeliveredDtsRises(rules: Rules, ss: seq<Stamp>, i: nat, j: nat)
    requires rules.timestamped && rules.ordered && i < j < |ss| && DtsDefined(ss, i, j)
    ensures var out := RepairAll(rules, ss);
      && out[i].dts.Some? && out[j].dts.Some?
      && out[i].dts.value <= out[j].dts.value
      && (rules.strict ==> out[i].dts.value < out[j].dts.value)
    decreases j
  {
    var out := RepairAll(rules, ss);
    RepairAllAt(rules, ss, j);
    RepairAllAt(rules, ss, i);
    RepairMeetsRules(rules, LastDts(out[..j]), ss[j]);
    RepairMeetsRules(rules, LastDts(out[..i]), ss[i]);
    assert LastDts(out[..j]) == out[j - 1].dts;
    if i < j - 1 {
      DeliveredDtsRises(rules, ss, i, j - 1);
    }
  }

  /** Every delivered packet with both timestamps has dts <= pts, and no timestamp appears or disappears. */
  lemma DeliveredPacketsAreSound(rules: Rules, ss: seq<Stamp>, i: nat)
    requires rules.timestamped && i < |ss|
    ensures var t := RepairAll(rules, ss)[i];
      !Inverted(t) && (t.dts.Some? <==> ss[i].dts.Some?) && (t.pts.Some? <==> ss[i].pts.Some?)
  {
    RepairAllAt(rules, ss, i);
    RepairMeetsRules(rules, LastDts(RepairAll(rules, ss)[..i]), ss[i]);
  }

  /** A stream that meets the rules throughout. */
  ghost predicate Conforms(rules: Rules, ss: seq<Stamp>) {
    rules.timestamped ==>
      forall i :: 0 <= i < |ss| ==> !Inverted(ss[i]) && Follows(rules, LastDts(ss[..i]), ss[i].dts)
  }

  lemma {:induction false} UnchangedConforms(rules: Rules, ss: seq<Stamp>)
    requires RepairAll(rules, ss) == ss
    ensures Conforms(rules, ss)
  {
    forall i | 0 <= i < |ss| && rules.timestamped
      ensures !Inverted(ss[i]) && Follows(rules, LastDts(ss[..i]), ss[i].dts)
    {
      RepairAllAt(rules, ss, i);
      UnchangedIff(rules, LastDts(ss[..i]), ss[i]);
    }
  }

  lemma {:induction false} ConformsPrefix(rules: Rules, ss: seq<Stamp>, n: nat)
    requires Conforms(rules, ss) && n <= |ss|
    ensures Conforms(rules, ss[..n])
  {
    forall i | 0 <= i < n
      ensures ss[..n][..i] == ss[..i]
    {
    }
  }

  lemma {:induction false} ConformingUnchanged(rules: Rules, ss: seq<Stamp>)
    requires Conforms(rules, ss)
    ensures RepairAll(rules, ss) == ss
  {
    if ss != [] {
      var n := |ss| - 1;
      ConformsPrefix(rules, ss, n);
      ConformingUnchanged(rules, ss[..n]);
      UnchangedIff(rules, LastDts(ss[..n]), ss[n]);
      assert ss == ss[..n] + [ss[n]];
    }
  }

  /** A stream is delivered unchanged if and only if it meets the rules throughout. */
  lemma {:induction false} StreamUnchangedIff(rules: Rules, ss: seq<Stamp>)
    ensures RepairAll(rules, ss) == ss <==> Conforms(rules, ss)
  {
    if RepairAll(rules, ss) == ss {
      UnchangedConforms(rules, ss);
    }
    if Conforms(rules, ss) {
      ConformingUnchanged(rules, ss);
    }
  }

  lemma {:induction false} RepairedConforms(rules: Rules, ss: seq<Stamp>)
    ensures Conforms(rules, RepairAll(rules, ss))
  {
    var out := RepairAll(rules, ss);
    forall i | 0 <= i < |out| && rules.timestamped
      ensures !Inverted(out[i]) && Follows(rules, LastDts(out[..i]), out[i].dts)
    {
      RepairAllAt(rules, ss, i);
      RepairMeetsRules(rules, LastDts(out[..i]), ss[i]);
    }
  }

  /** What was repaired once is delivered unchanged when it is muxed again. */
  lemma {:induction false} RepairIsIdempotent(rules: Rules, ss: seq<Stamp>)
    ensures RepairAll(rules, RepairAll(rules, ss)) == RepairAll(rules, ss)
  {
    RepairedConforms(rules, ss);
    StreamUnchangedIff(rules, RepairAll(rules, ss));
  }
}
