/** The 012v decoder of libavcodec/012v.c: 10-bit 4:2:2 video, twelve samples to four little-endian 32-bit words. */
module Zero12v {
  import opened Wrappers

  /** What a sample holds that the packet does not reach. */
  const GREY: bv16 := 0x8000

  // -------------------------------------------------------------------------------------------------- the stride

  /** The bytes of a line: what two thirds of eight bits a sample take, or in '012v' files an even share of the
      packet if that is no less. None when the dimensions or the packet are too small. */
  function SelectStride(width: int, height: int, size: nat, tag012v: bool): (stride: Option<nat>)
    ensures stride.Some? ==> width > 1 && height > 0 && width * 8 / 3 <= stride.value
    ensures stride.Some? ==> height * stride.value <= size
  {
    if width <= 1 || height <= 0 then None
    else
      var share := size / height;
      var stride := if tag012v && size % height == 0 && share * 3 >= width * 8 then share else width * 8 / 3;
      if size < height * stride then None else Some(stride)
  }

  /** A '012v' packet of `height` equal lines that are long enough is read with their length. */
  lemma EvenSharesAreFound(width: int, height: int, stride: nat)
    requires width > 1 && height > 0 && stride * 3 >= width * 8
    ensures height * stride >= 0 && SelectStride(width, height, height * stride, true) == Some(stride)
  {
    ShareOf(height, stride);
  }

  /** Any other packet is read with lines of two thirds of eight bits a sample, if it holds that many. */
  lemma OtherPacketsHaveLeastStride(width: int, height: int, size: nat, tag012v: bool)
    requires width > 1 && height > 0
    requires !tag012v || forall share: nat :: size == height * share ==> share * 3 < width * 8
    ensures SelectStride(width, height, size, tag012v)
      == if height * (width * 8 / 3) <= size then Some(width * 8 / 3) else None
  {
    var share := size / height;
    assert size % height == 0 ==> size == height * share;
  }

  lemma ShareOf(height: int, stride: nat)
    requires height > 0
    ensures height * stride >= 0 && height * stride / height == stride && height * stride % height == 0
  {
    var d := stride - height * stride / height;
    assert height * d == height * stride % height;
    Apart(height, d);
  }

  lemma Apart(height: int, d: int)
    requires height > 0
    ensures d >= 1 ==> height * d >= height
    ensures d <= -1 ==> height * d <= -height
  {
  }

  /** While six samples of a line are left, so are sixteen bytes: only the last, shorter group is ever cut. */
  lemma WholeGroupsAreThere(width: nat, stride: nat, x: nat)
    requires width * 8 / 3 <= stride && x % 6 == 0 && x + 6 <= width
    ensures 16 * (x / 6) + 16 <= stride
  {
  }

  // ------------------------------------------------------------------------------------- where the samples stand

  function Word(packet: seq<bv8>, at: nat): bv32
    requires at + 4 <= |packet|
  {
    packet[at] as bv32 | (packet[at + 1] as bv32 << 8) | (packet[at + 2] as bv32 << 16) | (packet[at + 3] as bv32 << 24)
  }

  /** One of the three 10-bit fields of a word, scaled to sixteen bits. */
  function Field(word: bv32, field: nat): bv16 {
    match field
    case 0 => ((word << 6) & 0xFFC0) as bv16
    case 1 => ((word >> 4) & 0xFFC0) as bv16
    case _ => ((word >> 14) & 0xFFC0) as bv16
  }

  datatype Spot = Spot(word: nat, field: nat)

  const Y_SPOTS: seq<Spot> := [Spot(0, 1), Spot(1, 0), Spot(1, 2), Spot(2, 1), Spot(3, 0), Spot(3, 2)]
  const U_SPOTS: seq<Spot> := [Spot(0, 0), Spot(1, 1), Spot(2, 2)]
  const V_SPOTS: seq<Spot> := [Spot(0, 2), Spot(2, 0), Spot(3, 1)]

  predicate IsSpots(spots: seq<Spot>) { spots in {Y_SPOTS, U_SPOTS, V_SPOTS} }

  /** Sample k of a line that takes `stride` bytes of the packet from `base` on. */
  function Sample(packet: seq<bv8>, base: nat, stride: nat, spots: seq<Spot>, k: nat): bv16
    requires IsSpots(spots) && base + stride <= |packet|
  {
    var n := |spots|;
    var at := 16 * (k / n) + 4 * spots[k % n].word;
    if at + 4 <= stride then Field(Word(packet, base + at), spots[k % n].field) else GREY
  }

  /** How many words of a group are left in a line, `left` bytes before its end. */
  function Words(left: nat): (n: nat)
    ensures n <= 4 && 4 * n <= left && (n == 4 || left < 4 * n + 4)
  {
    if left >= 16 then 4 else left / 4
  }

  lemma GroupOf(n: nat, g: nat, j: nat)
    requires n in {3, 6} && j < n
    ensures (n * g + j) / n == g && (n * g + j) % n == j
  {
  }

  /** A sample of group g is what its word holds, or grey if the line ends before the word does. */
  lemma SampleInGroup(packet: seq<bv8>, base: nat, stride: nat, spots: seq<Spot>, g: nat, j: nat)
    requires IsSpots(spots) && base + stride <= |packet| && 16 * g <= stride && j < |spots|
    ensures Sample(packet, base, stride, spots, |spots| * g + j)
         == if spots[j].word < Words(stride - 16 * g)
            then Field(Word(packet, base + 16 * g + 4 * spots[j].word), spots[j].field) else GREY
  {
    GroupOf(|spots|, g, j);
    assert base + (16 * g + 4 * spots[j].word) == base + 16 * g + 4 * spots[j].word;
  }

  // ------------------------------------------------------------------------------------------------ the decoder

  /** What an array that held `was` holds when the first `words` words at src have been unpacked to `at`. */
  function Unpacked(was: seq<bv16>, at: nat, packet: seq<bv8>, src: nat, words: nat, spots: seq<Spot>): (now: seq<bv16>)
    requires IsSpots(spots) && words <= 4 && src + 4 * words <= |packet|
    ensures |now| == |was|
  {
    seq(|was|, q requires 0 <= q < |was| =>
      if at <= q < at + |spots| && spots[q - at].word < words
      then Field(Word(packet, src + 4 * spots[q - at].word), spots[q - at].field) else was[q])
  }

  lemma NoneUnpacked(was: seq<bv16>, at: nat, packet: seq<bv8>, src: nat, spots: seq<Spot>)
    requires IsSpots(spots) && at + |spots| <= |was| && src <= |packet|
    ensures Unpacked(was, at, packet, src, 0, spots) == was
  {
  }

  /** One of the group's samples stands in the next word. */
  lemma OneMore(was: seq<bv16>, at: nat, packet: seq<bv8>, src: nat, word: nat, spots: seq<Spot>, j: nat)
    requires IsSpots(spots) && at + |spots| <= |was| && word < 4 && src + 4 * word + 4 <= |packet|
    requires j < |spots| && forall i :: 0 <= i < |spots| ==> (spots[i].word == word <==> i == j)
    ensures Unpacked(was, at, packet, src, word + 1, spots)
         == Unpacked(was, at, packet, src, word, spots)[at + j := Field(Word(packet, src + 4 * word), spots[j].field)]
  {
  }

  /** Two of them stand there. */
  lemma TwoMore(was: seq<bv16>, at: nat, packet: seq<bv8>, src: nat, word: nat, spots: seq<Spot>, j: nat, k: nat)
    requires IsSpots(spots) && at + |spots| <= |was| && word < 4 && src + 4 * word + 4 <= |packet|
    requires j < k < |spots| && forall i :: 0 <= i < |spots| ==> (spots[i].word == word <==> i == j || i == k)
    ensures Unpacked(was, at, packet, src, word + 1, spots)
         == Unpacked(was, at, packet, src, word, spots)
              [at + j := Field(Word(packet, src + 4 * word), spots[j].field)]
              [at + k := Field(Word(packet, src + 4 * word), spots[k].field)]
  {
  }

  /** None of them stand there. */
  lemma NoMore(was: seq<bv16>, at: nat, packet: seq<bv8>, src: nat, word: nat, spots: seq<Spot>)
    requires IsSpots(spots) && at + |spots| <= |was| && word < 4 && src + 4 * word + 4 <= |packet|
    requires forall i :: 0 <= i < |spots| ==> spots[i].word != word
    ensures Unpacked(was, at, packet, src, word + 1, spots) == Unpacked(was, at, packet, src, word, spots)
  {
  }

  /** Writes one sample. */
  method Put(plane: array<bv16>, i: nat, value: bv16)
    requires i < plane.Length
    modifies plane
    ensures plane[..] == old(plane[..])[i := value]
  {
    plane[i] := value;
  }

  /** The arrays hold what the first `words` words at src unpack to, over what they held before. */
  ghost predicate HoldWords(
      packet: seq<bv8>, src: nat, words: nat, y: array<bv16>, yi: nat, u: array<bv16>, ui: nat, v: array<bv16>,
      vi: nat, ys: seq<bv16>, us: seq<bv16>, vs: seq<bv16>)
    reads y, u, v
  {
    && words <= 4 && src + 4 * words <= |packet| && yi + 6 <= |ys| && ui + 3 <= |us| && vi + 3 <= |vs|
    && y[..] == Unpacked(ys, yi, packet, src, words, Y_SPOTS)
    && u[..] == Unpacked(us, ui, packet, src, words, U_SPOTS)
    && v[..] == Unpacked(vs, vi, packet, src, words, V_SPOTS)
  }

  method UnpackFirst(
      packet: seq<bv8>, src: nat, y: array<bv16>, yi: nat, u: array<bv16>, ui: nat, v: array<bv16>, vi: nat,
      ghost ys: seq<bv16>, ghost us: seq<bv16>, ghost vs: seq<bv16>)
    requires y != u && y != v && u != v && src + 4 <= |packet|
    requires HoldWords(packet, src, 0, y, yi, u, ui, v, vi, ys, us, vs)
    modifies y, u, v
    ensures HoldWords(packet, src, 1, y, yi, u, ui, v, vi, ys, us, vs)
  {
    var t := Word(packet, src);
    Put(u, ui, Field(t, 0));
    Put(y, yi, Field(t, 1));
    Put(v, vi, Field(t, 2));
    OneMore(us, ui, packet, src, 0, U_SPOTS, 0);
    OneMore(ys, yi, packet, src, 0, Y_SPOTS, 0);
    OneMore(vs, vi, packet, src, 0, V_SPOTS, 0);
  }

  method UnpackSecond(
      packet: seq<bv8>, src: nat, y: array<bv16>, yi: nat, u: array<bv16>, ui: nat, v: array<bv16>, vi: nat,
      ghost ys: seq<bv16>, ghost us: seq<bv16>, ghost vs: seq<bv16>)
    requires y != u && y != v && u != v && src + 8 <= |packet|
    requires HoldWords(packet, src, 1, y, yi, u, ui, v, vi, ys, us, vs)
    modifies y, u, v
    ensures HoldWords(packet, src, 2, y, yi, u, ui, v, vi, ys, us, vs)
  {
    var t := Word(packet, src + 4);
    Put(y, yi + 1, Field(t, 0));
    Put(u, ui + 1, Field(t, 1));
    Put(y, yi + 2, Field(t, 2));
    TwoMore(ys, yi, packet, src, 1, Y_SPOTS, 1, 2);
    OneMore(us, ui, packet, src, 1, U_SPOTS, 1);
    NoMore(vs, vi, packet, src, 1, V_SPOTS);
  }

  method UnpackThird(
      packet: seq<bv8>, src: nat, y: array<bv16>, yi: nat, u: array<bv16>, ui: nat, v: array<bv16>, vi: nat,
      ghost ys: seq<bv16>, ghost us: seq<bv16>, ghost vs: seq<bv16>)
    requires y != u && y != v && u != v && src + 12 <= |packet|
    requires HoldWords(packet, src, 2, y, yi, u, ui, v, vi, ys, us, vs)
    modifies y, u, v
    ensures HoldWords(packet, src, 3, y, yi, u, ui, v, vi, ys, us, vs)
  {
    var t := Word(packet, src + 8);
    Put(v, vi + 1, Field(t, 0));
    Put(y, yi + 3, Field(t, 1));
    Put(u, ui + 2, Field(t, 2));
    OneMore(vs, vi, packet, src, 2, V_SPOTS, 1);
    OneMore(ys, yi, packet, src, 2, Y_SPOTS, 3);
    OneMore(us, ui, packet, src, 2, U_SPOTS, 2);
  }

  method UnpackFourth(
      packet: seq<bv8>, src: nat, y: array<bv16>, yi: nat, u: array<bv16>, ui: nat, v: array<bv16>, vi: nat,
      ghost ys: seq<bv16>, ghost us: seq<bv16>, ghost vs: seq<bv16>)
    requires y != u && y != v && u != v && src + 16 <= |packet|
    requires HoldWords(packet, src, 3, y, yi, u, ui, v, vi, ys, us, vs)
    modifies y, u, v
    ensures HoldWords(packet, src, 4, y, yi, u, ui, v, vi, ys, us, vs)
  {
    var t := Word(packet, src + 12);
    Put(y, yi + 4, Field(t, 0));
    Put(v, vi + 2, Field(t, 1));
    Put(y, yi + 5, Field(t, 2));
    TwoMore(ys, yi, packet, src, 3, Y_SPOTS, 4, 5);
    OneMore(vs, vi, packet, src, 3, V_SPOTS, 2);
    NoMore(us, ui, packet, src, 3, U_SPOTS);
  }

  /** Unpacks up to four words, as many as the line has left, into six, three and three samples. */
  method Unpack(
      packet: seq<bv8>, src: nat, lineEnd: nat, y: array<bv16>, yi: nat, u: array<bv16>, ui: nat, v: array<bv16>,
      vi: nat)
    returns (words: nat)
    requires src <= lineEnd <= |packet| && y != u && y != v && u != v
    requires yi + 6 <= y.Length && ui + 3 <= u.Length && vi + 3 <= v.Length
    modifies y, u, v
    ensures words == Words(lineEnd - src)
    ensures HoldWords(packet, src, words, y, yi, u, ui, v, vi, old(y[..]), old(u[..]), old(v[..]))
  {
    ghost var ys, us, vs := y[..], u[..], v[..];
    NoneUnpacked(ys, yi, packet, src, Y_SPOTS);
    NoneUnpacked(us, ui, packet, src, U_SPOTS);
    NoneUnpacked(vs, vi, packet, src, V_SPOTS);
    if lineEnd - src < 4 {
      return 0;
    }
    UnpackFirst(packet, src, y, yi, u, ui, v, vi, ys, us, vs);
    if lineEnd - (src + 4) < 4 {
      return 1;
    }
    UnpackSecond(packet, src, y, yi, u, ui, v, vi, ys, us, vs);
    if lineEnd - (src + 8) < 4 {
      return 2;
    }
    UnpackThird(packet, src, y, yi, u, ui, v, vi, ys, us, vs);
    if lineEnd - (src + 12) < 4 {
      return 3;
    }
    UnpackFourth(packet, src, y, yi, u, ui, v, vi, ys, us, vs);
    return 4;
  }

  /** The 16-bit sample whose first byte in memory is replaced by that of another. */
  function FirstByteOf(was: bv16, other: bv16, bigEndian: bool): bv16 {
    if bigEndian then (other & 0xFF00) | (was & 0x00FF) else (was & 0xFF00) | (other & 0x00FF)
  }

  /** A plane to which the first `bytes` bytes of `part` have been copied. */
  function Copied(was: seq<bv16>, at: nat, part: seq<bv16>, bytes: nat, bigEndian: bool): (now: seq<bv16>)
    requires bytes <= 2 * |part|
    ensures |now| == |was|
  {
    seq(|was|, q requires 0 <= q < |was| =>
      if at <= q < at + bytes / 2 then part[q - at]
      else if bytes % 2 == 1 && q == at + bytes / 2 then FirstByteOf(was[q], part[q - at], bigEndian)
      else was[q])
  }

  /** memcpy */
  method CopyBytes(dst: array<bv16>, at: nat, src: array<bv16>, bytes: nat, bigEndian: bool)
    requires dst != src && bytes <= 2 * src.Length && at + (bytes + 1) / 2 <= dst.Length
    modifies dst
    ensures dst[..] == Copied(old(dst[..]), at, src[..], bytes, bigEndian)
  {
    var whole := bytes / 2;
    if bytes % 2 == 1 {
      dst[at + whole] := FirstByteOf(dst[at + whole], src[whole], bigEndian);
    }
    forall i | 0 <= i < whole {
      dst[at + i] := src[i];
    }
  }

  /** How many chroma samples of a line are visible, and how many the decoder may write. */
  function Chroma(width: nat): nat { (width + 1) / 2 }

  function ChromaTouched(width: nat): nat { if width % 6 == 0 then width / 2 else width / 2 + 1 }

  /** The plane holds the first n samples of a line at start, and only the `touched` samples from there on have
      changed. */
  ghost predicate Drawn(
      was: seq<bv16>, now: seq<bv16>, start: nat, packet: seq<bv8>, base: nat, stride: nat, spots: seq<Spot>, n: nat,
      touched: nat) {
    && IsSpots(spots) && base + stride <= |packet| && |now| == |was| && n <= touched && start + touched <= |was|
    && (forall q {:trigger now[q]} :: start <= q < start + n ==>
          now[q] == Sample(packet, base, stride, spots, q - start))
    && (forall q {:trigger now[q]} :: (0 <= q < start || start + touched <= q < |was|) ==> now[q] == was[q])
  }

  /** All three planes hold a line's first samples: n of luma and c of each chroma. */
  ghost predicate AllDrawn(packet: seq<bv8>, base: nat, stride: nat, y: Part, u: Part, v: Part, n: nat, c: nat) {
    && Drawn(y.was, y.now, y.start, packet, base, stride, Y_SPOTS, n, n)
    && Drawn(u.was, u.now, u.start, packet, base, stride, U_SPOTS, c, c)
    && Drawn(v.was, v.now, v.start, packet, base, stride, V_SPOTS, c, c)
  }

  /** A plane before and while a line of it, at start, is decoded. */
  datatype Part = Part(was: seq<bv16>, now: seq<bv16>, start: nat)

  /** A whole group unpacked into a plane. */
  lemma GroupDrawn(
      part: Part, next: seq<bv16>, packet: seq<bv8>, base: nat, stride: nat, spots: seq<Spot>, n: nat, g: nat,
      done: nat)
    requires Drawn(part.was, part.now, part.start, packet, base, stride, spots, done, done)
    requires n == |spots| && done == n * g && 16 * g + 16 <= stride && part.start + done + n <= |part.now|
    requires next == Unpacked(part.now, part.start + done, packet, base + 16 * g, 4, spots)
    ensures Drawn(part.was, next, part.start, packet, base, stride, spots, done + n, done + n)
  {
    forall q | part.start <= q < part.start + done + n
      ensures next[q] == Sample(packet, base, stride, spots, q - part.start)
    {
      if q < part.start + done {
        assert next[q] == part.now[q];
      } else {
        SampleInGroup(packet, base, stride, spots, g, q - part.start - done);
      }
    }
    forall q | 0 <= q < part.start || part.start + done + n <= q < |next|
      ensures next[q] == part.was[q]
    {
      assert next[q] == part.now[q];
    }
  }

  /** The last, shorter group, copied out of a temporary array. */
  lemma ShortGroupSample(
      temp: seq<bv16>, packet: seq<bv8>, base: nat, stride: nat, spots: seq<Spot>, n: nat, g: nat, done: nat, k: nat)
    requires IsSpots(spots) && base + stride <= |packet|
    requires n == |spots| && done == n * g && 16 * g <= stride && done <= k < done + n
    requires temp == Unpacked(seq(n, _ => GREY), 0, packet, base + 16 * g, Words(stride - 16 * g), spots)
    ensures |temp| == n && temp[k - done] == Sample(packet, base, stride, spots, k)
  {
    SampleInGroup(packet, base, stride, spots, g, k - done);
  }

  lemma ShortGroupDrawn(
      part: Part, temp: seq<bv16>, next: seq<bv16>, packet: seq<bv8>, base: nat, stride: nat, spots: seq<Spot>,
      n: nat, g: nat, done: nat, bytes: nat, bigEndian: bool)
    requires Drawn(part.was, part.now, part.start, packet, base, stride, spots, done, done)
    requires n == |spots| && done == n * g && 16 * g <= stride
    requires bytes <= 2 * n && part.start + done + (bytes + 1) / 2 <= |part.now|
    requires temp == Unpacked(seq(n, _ => GREY), 0, packet, base + 16 * g, Words(stride - 16 * g), spots)
    requires next == Copied(part.now, part.start + done, temp, bytes, bigEndian)
    ensures Drawn(part.was, next, part.start, packet, base, stride, spots, done + bytes / 2, done + (bytes + 1) / 2)
  {
    forall q | part.start <= q < part.start + done + bytes / 2
      ensures next[q] == Sample(packet, base, stride, spots, q - part.start)
    {
      if q < part.start + done {
        assert next[q] == part.now[q];
      } else {
        assert next[q] == temp[q - (part.start + done)];
        ShortGroupSample(temp, packet, base, stride, spots, n, g, done, q - part.start);
      }
    }
    forall q | 0 <= q < part.start || part.start + done + (bytes + 1) / 2 <= q < |next|
      ensures next[q] == part.was[q]
    {
      assert next[q] == part.now[q];
    }
  }

  /** A whole group unpacked into all three planes. */
  lemma AllGroupsDrawn(
      packet: seq<bv8>, base: nat, stride: nat, g: nat, y: Part, u: Part, v: Part, y': seq<bv16>, u': seq<bv16>,
      v': seq<bv16>)
    requires AllDrawn(packet, base, stride, y, u, v, 6 * g, 3 * g) && 16 * g + 16 <= stride
    requires y.start + 6 * g + 6 <= |y.now| && u.start + 3 * g + 3 <= |u.now| && v.start + 3 * g + 3 <= |v.now|
    requires y' == Unpacked(y.now, y.start + 6 * g, packet, base + 16 * g, 4, Y_SPOTS)
    requires u' == Unpacked(u.now, u.start + 3 * g, packet, base + 16 * g, 4, U_SPOTS)
    requires v' == Unpacked(v.now, v.start + 3 * g, packet, base + 16 * g, 4, V_SPOTS)
    ensures AllDrawn(packet, base, stride, y.(now := y'), u.(now := u'), v.(now := v'), 6 * g + 6, 3 * g + 3)
  {
    GroupDrawn(y, y', packet, base, stride, Y_SPOTS, 6, g, 6 * g);
    GroupDrawn(u, u', packet, base, stride, U_SPOTS, 3, g, 3 * g);
    GroupDrawn(v, v', packet, base, stride, V_SPOTS, 3, g, 3 * g);
  }

  /** The end of a line of g groups, `done` samples, goes from a temporary array to its plane. */
  method FinishPlane(
      packet: seq<bv8>, base: nat, stride: nat, ghost spots: seq<Spot>, ghost n: nat, ghost g: nat, temp: array<bv16>,
      plane: array<bv16>, at: nat, done: nat, bytes: nat, bigEndian: bool, ghost part: Part)
    requires plane != temp && plane[..] == part.now && at == part.start + done
    requires Drawn(part.was, part.now, part.start, packet, base, stride, spots, done, done)
    requires n == |spots| && done == n * g && 16 * g <= stride
    requires temp[..] == Unpacked(seq(n, _ => GREY), 0, packet, base + 16 * g, Words(stride - 16 * g), spots)
    requires bytes <= 2 * n && at + (bytes + 1) / 2 <= |part.now|
    modifies plane
    ensures Drawn(part.was, plane[..], part.start, packet, base, stride, spots,
                  done + bytes / 2, done + (bytes + 1) / 2)
  {
    CopyBytes(plane, at, temp, bytes, bigEndian);
    ShortGroupDrawn(part, temp[..], plane[..], packet, base, stride, spots, n, g, done, bytes, bigEndian);
  }

  /** All three planes hold the visible samples of a line. */
  ghost predicate LineDrawn(packet: seq<bv8>, base: nat, stride: nat, width: nat, y: Part, u: Part, v: Part) {
    && Drawn(y.was, y.now, y.start, packet, base, stride, Y_SPOTS, width, width)
    && Drawn(u.was, u.now, u.start, packet, base, stride, U_SPOTS, Chroma(width), ChromaTouched(width))
    && Drawn(v.was, v.now, v.start, packet, base, stride, V_SPOTS, Chroma(width), ChromaTouched(width))
  }

  /** What follows the loop over a line when it was left early. */
  method FinishLine(
      packet: seq<bv8>, base: nat, stride: nat, width: nat, x: nat, yTemp: array<bv16>, uTemp: array<bv16>,
      vTemp: array<bv16>, y: array<bv16>, ys: nat, u: array<bv16>, us: nat, v: array<bv16>, vs: nat, bigEndian: bool,
      ghost g: nat, ghost ya: Part, ghost ua: Part, ghost va: Part)
    requires y != u && y != v && u != v && {y, u, v} !! {yTemp, uTemp, vTemp}
    requires ya.now == y[..] && ua.now == u[..] && va.now == v[..] && ys == ya.start && us == ua.start && vs == va.start
    requires x == 6 * g && x < width < x + 6 && 16 * g <= stride
    requires ys + width <= y.Length && us + ChromaTouched(width) <= u.Length && vs + ChromaTouched(width) <= v.Length
    requires AllDrawn(packet, base, stride, ya, ua, va, 6 * g, 3 * g)
    requires yTemp[..] == Unpacked(seq(6, _ => GREY), 0, packet, base + 16 * g, Words(stride - 16 * g), Y_SPOTS)
    requires uTemp[..] == Unpacked(seq(3, _ => GREY), 0, packet, base + 16 * g, Words(stride - 16 * g), U_SPOTS)
    requires vTemp[..] == Unpacked(seq(3, _ => GREY), 0, packet, base + 16 * g, Words(stride - 16 * g), V_SPOTS)
    modifies y, u, v
    ensures LineDrawn(packet, base, stride, width, ya.(now := y[..]), ua.(now := u[..]), va.(now := v[..]))
  {
    var c, bytes := x / 2, 2 * (width - x + 1) / 2;
    ShortGroupSizes(width, x, g);
    FinishPlane(packet, base, stride, Y_SPOTS, 6, g, yTemp, y, ys + x, x, 2 * (width - x), bigEndian, ya);
    ghost var y1 := y[..];
    FinishPlane(packet, base, stride, U_SPOTS, 3, g, uTemp, u, us + c, c, bytes, bigEndian, ua);
    ghost var u1 := u[..];
    FinishPlane(packet, base, stride, V_SPOTS, 3, g, vTemp, v, vs + c, c, bytes, bigEndian, va);
    assert y[..] == y1 && u[..] == u1;
  }

  lemma ShortGroupSizes(width: nat, x: nat, g: nat)
    requires x == 6 * g && x < width < x + 6
    ensures x / 2 == 3 * g && 3 * g + (2 * (width - x + 1) / 2) / 2 == Chroma(width)
    ensures 3 * g + (2 * (width - x + 1) / 2 + 1) / 2 == ChromaTouched(width)
  {
    assert width % 6 == width - x;
  }

  /** A turn of the loop over a line that has a whole group left. */
  method ReadGroup(
      packet: seq<bv8>, base: nat, stride: nat, src: nat, y: array<bv16>, yi: nat, u: array<bv16>, ui: nat,
      v: array<bv16>, vi: nat, ghost g: nat, ghost ya: Part, ghost ua: Part, ghost va: Part)
    requires y != u && y != v && u != v && base + stride <= |packet| && src == base + 16 * g && 16 * g + 16 <= stride
    requires yi + 6 <= y.Length && ui + 3 <= u.Length && vi + 3 <= v.Length
    requires yi == ya.start + 6 * g && ui == ua.start + 3 * g && vi == va.start + 3 * g
    requires ya.now == y[..] && ua.now == u[..] && va.now == v[..]
    requires AllDrawn(packet, base, stride, ya, ua, va, 6 * g, 3 * g)
    modifies y, u, v
    ensures AllDrawn(packet, base, stride, ya.(now := y[..]), ua.(now := u[..]), va.(now := v[..]),
                     6 * g + 6, 3 * g + 3)
  {
    var words := Unpack(packet, src, base + stride, y, yi, u, ui, v, vi);
    AllGroupsDrawn(packet, base, stride, g, ya, ua, va, y[..], u[..], v[..]);
  }

  /** What is left of a line, unpacked into grey temporary arrays. */
  method UnpackTemporary(packet: seq<bv8>, src: nat, lineEnd: nat)
    returns (yTemp: array<bv16>, uTemp: array<bv16>, vTemp: array<bv16>)
    requires src <= lineEnd <= |packet|
    ensures fresh(yTemp) && fresh(uTemp) && fresh(vTemp)
    ensures yTemp[..] == Unpacked(seq(6, _ => GREY), 0, packet, src, Words(lineEnd - src), Y_SPOTS)
    ensures uTemp[..] == Unpacked(seq(3, _ => GREY), 0, packet, src, Words(lineEnd - src), U_SPOTS)
    ensures vTemp[..] == Unpacked(seq(3, _ => GREY), 0, packet, src, Words(lineEnd - src), V_SPOTS)
  {
    yTemp, uTemp, vTemp := new bv16[6](_ => GREY), new bv16[3](_ => GREY), new bv16[3](_ => GREY);
    assert yTemp[..] == seq(6, _ => GREY) && uTemp[..] == seq(3, _ => GREY) && vTemp[..] == seq(3, _ => GREY);
    var words := Unpack(packet, src, lineEnd, yTemp, 0, uTemp, 0, vTemp, 0);
  }

  /** The last turn for a line that has no whole group left: it goes through temporary arrays. */
  method ReadShortGroup(
      packet: seq<bv8>, base: nat, stride: nat, width: nat, x: nat, src: nat, y: array<bv16>, ys: nat, u: array<bv16>,
      us: nat, v: array<bv16>, vs: nat, bigEndian: bool, ghost g: nat, ghost ya: Part, ghost ua: Part, ghost va: Part)
    requires y != u && y != v && u != v && base + stride <= |packet| && src == base + 16 * g
    requires ya.now == y[..] && ua.now == u[..] && va.now == v[..] && ys == ya.start && us == ua.start && vs == va.start
    requires x == 6 * g && x < width < x + 6 && 16 * g <= stride
    requires ys + width <= y.Length && us + ChromaTouched(width) <= u.Length && vs + ChromaTouched(width) <= v.Length
    requires AllDrawn(packet, base, stride, ya, ua, va, 6 * g, 3 * g)
    modifies y, u, v
    ensures LineDrawn(packet, base, stride, width, ya.(now := y[..]), ua.(now := u[..]), va.(now := v[..]))
  {
    var yTemp, uTemp, vTemp := UnpackTemporary(packet, src, base + stride);
    FinishLine(packet, base, stride, width, x, yTemp, uTemp, vTemp, y, ys, u, us, v, vs, bigEndian, g, ya, ua, va);
  }

  lemma WholeLineDrawn(packet: seq<bv8>, base: nat, stride: nat, width: nat, g: nat, y: Part, u: Part, v: Part)
    requires AllDrawn(packet, base, stride, y, u, v, 6 * g, 3 * g) && width == 6 * g
    ensures LineDrawn(packet, base, stride, width, y, u, v)
  {
    assert width % 6 == 0 && Chroma(width) == 3 * g && ChromaTouched(width) == 3 * g;
  }

  /** One turn of the loop over a line: a whole group, or the line's end. */
  method ReadTurn(
      packet: seq<bv8>, base: nat, stride: nat, width: nat, x: nat, src: nat, y: array<bv16>, ys: nat, u: array<bv16>,
      us: nat, v: array<bv16>, vs: nat, bigEndian: bool, ghost g: nat, ghost ya: Part, ghost ua: Part, ghost va: Part)
    returns (more: bool)
    requires y != u && y != v && u != v && base + stride <= |packet| && src == base + 16 * g && width * 8 / 3 <= stride
    requires ya.now == y[..] && ua.now == u[..] && va.now == v[..] && ys == ya.start && us == ua.start && vs == va.start
    requires x == 6 * g < width
    requires ys + width <= y.Length && us + ChromaTouched(width) <= u.Length && vs + ChromaTouched(width) <= v.Length
    requires AllDrawn(packet, base, stride, ya, ua, va, 6 * g, 3 * g)
    modifies y, u, v
    ensures more ==>
      && x + 6 <= width
      && AllDrawn(packet, base, stride, ya.(now := y[..]), ua.(now := u[..]), va.(now := v[..]), 6 * g + 6, 3 * g + 3)
    ensures !more ==> LineDrawn(packet, base, stride, width, ya.(now := y[..]), ua.(now := u[..]), va.(now := v[..]))
  {
    EnoughIsLeft(width, stride, g);
    if width - x < 6 || base + stride - src < 16 {
      ReadShortGroup(packet, base, stride, width, x, src, y, ys, u, us, v, vs, bigEndian, g, ya, ua, va);
      return false;
    }
    assert x / 2 == 3 * g;
    ReadGroup(packet, base, stride, src, y, ys + x, u, us + x / 2, v, vs + x / 2, g, ya, ua, va);
    return true;
  }

  /** One line: its visible samples end up in the planes, and next to nothing else changes. */
  method ReadLine(
      packet: seq<bv8>, base: nat, stride: nat, width: nat, y: array<bv16>, ys: nat, u: array<bv16>, us: nat,
      v: array<bv16>, vs: nat, bigEndian: bool)
    requires y != u && y != v && u != v && base + stride <= |packet| && width * 8 / 3 <= stride
    requires ys + width <= y.Length && us + ChromaTouched(width) <= u.Length && vs + ChromaTouched(width) <= v.Length
    modifies y, u, v
    ensures LineDrawn(packet, base, stride, width,
                      Part(old(y[..]), y[..], ys), Part(old(u[..]), u[..], us), Part(old(v[..]), v[..], vs))
  {
    var x, src := 0, base;
    ghost var g := 0;
    ghost var ya, ua, va := Part(y[..], y[..], ys), Part(u[..], u[..], us), Part(v[..], v[..], vs);
    NothingDrawn(packet, base, stride, ya, ua, va);
    while x < width
      invariant x == 6 * g <= width && src == base + 16 * g
      invariant ya == Part(old(y[..]), y[..], ys)
      invariant ua == Part(old(u[..]), u[..], us) && va == Part(old(v[..]), v[..], vs)
      invariant AllDrawn(packet, base, stride, ya, ua, va, 6 * g, 3 * g)
    {
      var more := ReadTurn(packet, base, stride, width, x, src, y, ys, u, us, v, vs, bigEndian, g, ya, ua, va);
      ya, ua, va := ya.(now := y[..]), ua.(now := u[..]), va.(now := v[..]);
      if !more {
        return;
      }
      g, x, src := g + 1, x + 6, src + 16;
    }
    WholeLineDrawn(packet, base, stride, width, g, ya, ua, va);
  }

  lemma EnoughIsLeft(width: nat, stride: nat, g: nat)
    requires width * 8 / 3 <= stride && 6 * g <= width
    ensures 16 * g <= stride && (width - 6 * g >= 6 ==> stride - 16 * g >= 16)
    ensures 3 * g <= ChromaTouched(width) && (width - 6 * g >= 6 ==> 3 * g + 3 <= ChromaTouched(width))
  {
  }

  lemma NothingDrawn(packet: seq<bv8>, base: nat, stride: nat, y: Part, u: Part, v: Part)
    requires base + stride <= |packet| && y.start <= |y.was| && u.start <= |u.was| && v.start <= |v.was|
    requires y.now == y.was && u.now == u.was && v.now == v.was
    ensures AllDrawn(packet, base, stride, y, u, v, 0, 0)
  {
  }

  // -------------------------------------------------------------------------------------------------- the frame

  /** The plane's samples from start on are those of a line. */
  ghost predicate ShowsLine(
      now: seq<bv16>, start: nat, packet: seq<bv8>, base: nat, stride: nat, spots: seq<Spot>, n: nat) {
    && IsSpots(spots) && base + stride <= |packet| && start + n <= |now|
    && forall q {:trigger now[q]} :: start <= q < start + n ==> now[q] == Sample(packet, base, stride, spots, q - start)
  }

  function Times(a: nat, b: nat): nat { a * b }

  /** Some line among the first `lines` may have touched sample q. */
  ghost predicate Touched(q: int, lines: nat, pitch: nat, touched: nat) {
    exists r: nat {:trigger Times(r, pitch)} :: r < lines && Times(r, pitch) <= q < Times(r, pitch) + touched
  }

  /** The first `lines` lines of a plane show the packet's samples, and nothing else has changed. */
  ghost predicate PlaneShows(
      was: seq<bv16>, now: seq<bv16>, pitch: nat, packet: seq<bv8>, stride: nat, spots: seq<Spot>, lines: nat, n: nat,
      touched: nat) {
    && |now| == |was|
    && (forall r: nat {:trigger Times(r, pitch)} :: r < lines ==>
          ShowsLine(now, Times(r, pitch), packet, Times(r, stride), stride, spots, n))
    && (forall q {:trigger now[q]} :: 0 <= q < |was| && now[q] != was[q] ==> Touched(q, lines, pitch, touched))
  }

  lemma LineBefore(r: nat, lines: nat, pitch: nat)
    requires r < lines
    ensures Times(r, pitch) + pitch <= Times(lines, pitch)
  {
    assert (r + 1) * pitch == r * pitch + pitch;
    var d := lines - r - 1;
    assert lines * pitch == (r + 1) * pitch + d * pitch;
  }

  /** The next line is drawn: the lines above stay as they are, even where a chroma copy runs over its line's end. */
  lemma NextLineShows(
      was: seq<bv16>, now: seq<bv16>, next: seq<bv16>, pitch: nat, packet: seq<bv8>, stride: nat, spots: seq<Spot>,
      lines: nat, n: nat, touched: nat)
    requires n <= pitch && PlaneShows(was, now, pitch, packet, stride, spots, lines, n, touched)
    requires Drawn(now, next, Times(lines, pitch), packet, Times(lines, stride), stride, spots, n, touched)
    ensures PlaneShows(was, next, pitch, packet, stride, spots, lines + 1, n, touched)
  {
    forall r: nat | r < lines + 1
      ensures ShowsLine(next, Times(r, pitch), packet, Times(r, stride), stride, spots, n)
    {
      if r < lines {
        LineBefore(r, lines, pitch);
        LineStays(now, next, Times(r, pitch), packet, Times(r, stride), stride, spots, n);
      }
    }
    forall q | 0 <= q < |was| && next[q] != was[q]
      ensures Touched(q, lines + 1, pitch, touched)
    {
      if next[q] == now[q] {
        assert Touched(q, lines, pitch, touched);
      } else {
        assert Times(lines, pitch) <= q < Times(lines, pitch) + touched;
      }
    }
  }

  lemma LineStays(
      now: seq<bv16>, next: seq<bv16>, start: nat, packet: seq<bv8>, base: nat, stride: nat, spots: seq<Spot>, n: nat)
    requires ShowsLine(now, start, packet, base, stride, spots, n) && |next| == |now|
    requires forall q {:trigger next[q]} :: start <= q < start + n ==> next[q] == now[q]
    ensures ShowsLine(next, start, packet, base, stride, spots, n)
  {
  }

  /** Lines of `visible` samples, each at most `touched` samples from its start on, fit a plane. */
  ghost predicate PlaneFits(height: int, length: nat, pitch: nat, visible: nat, touched: nat) {
    height > 0 ==> visible <= pitch && Times(height - 1, pitch) + touched <= length
  }

  lemma LineFits(height: int, length: nat, pitch: nat, visible: nat, touched: nat, line: nat)
    requires PlaneFits(height, length, pitch, visible, touched) && line < height
    ensures Times(line, pitch) + touched <= length
  {
    if line < height - 1 {
      LineBefore(line, height - 1, pitch);
    }
  }

  lemma LineInPacket(height: nat, stride: nat, size: nat, line: nat)
    requires height * stride <= size && line < height
    ensures Times(line, stride) + stride <= size
  {
    LineBefore(line, height, stride);
  }

  lemma NoLineShows(was: seq<bv16>, pitch: nat, packet: seq<bv8>, stride: nat, spots: seq<Spot>, n: nat, touched: nat)
    ensures PlaneShows(was, was, pitch, packet, stride, spots, 0, n, touched)
  {
  }

  /** zero12v_decode_frame: the bytes consumed, or None for a packet that is turned down without touching the
      picture. */
  method ReadFrame(
      width: int, height: int, tag012v: bool, packet: seq<bv8>, y: array<bv16>, yPitch: nat, u: array<bv16>,
      uPitch: nat, v: array<bv16>, vPitch: nat, bigEndian: bool)
    returns (consumed: Option<nat>)
    requires y != u && y != v && u != v
    requires width > 1 ==> PlaneFits(height, y.Length, yPitch, width, width)
    requires width > 1 ==> PlaneFits(height, u.Length, uPitch, Chroma(width), ChromaTouched(width))
    requires width > 1 ==> PlaneFits(height, v.Length, vPitch, Chroma(width), ChromaTouched(width))
    modifies y, u, v
    ensures var stride := SelectStride(width, height, |packet|, tag012v);
      if stride.None? then consumed.None? && y[..] == old(y[..]) && u[..] == old(u[..]) && v[..] == old(v[..])
      else && consumed == Some(|packet|)
           && PlaneShows(old(y[..]), y[..], yPitch, packet, stride.value, Y_SPOTS, height, width, width)
           && PlaneShows(old(u[..]), u[..], uPitch, packet, stride.value, U_SPOTS,
                         height, Chroma(width), ChromaTouched(width))
           && PlaneShows(old(v[..]), v[..], vPitch, packet, stride.value, V_SPOTS,
                         height, Chroma(width), ChromaTouched(width))
  {
    var selected := SelectStride(width, height, |packet|, tag012v);
    if selected.None? {
      return None;
    }
    var stride := selected.value;
    NoLineShows(y[..], yPitch, packet, stride, Y_SPOTS, width, width);
    NoLineShows(u[..], uPitch, packet, stride, U_SPOTS, Chroma(width), ChromaTouched(width));
    NoLineShows(v[..], vPitch, packet, stride, V_SPOTS, Chroma(width), ChromaTouched(width));
    var line := 0;
    while line < height
      invariant 0 <= line <= height
      invariant PlaneShows(old(y[..]), y[..], yPitch, packet, stride, Y_SPOTS, line, width, width)
      invariant PlaneShows(old(u[..]), u[..], uPitch, packet, stride, U_SPOTS,
                           line, Chroma(width), ChromaTouched(width))
      invariant PlaneShows(old(v[..]), v[..], vPitch, packet, stride, V_SPOTS,
                           line, Chroma(width), ChromaTouched(width))
    {
      LineFits(height, y.Length, yPitch, width, width, line);
      LineFits(height, u.Length, uPitch, Chroma(width), ChromaTouched(width), line);
      LineFits(height, v.Length, vPitch, Chroma(width), ChromaTouched(width), line);
      LineInPacket(height, stride, |packet|, line);
      ghost var y0, u0, v0 := y[..], u[..], v[..];
      ReadLine(packet, Times(line, stride), stride, width,
               y, Times(line, yPitch), u, Times(line, uPitch), v, Times(line, vPitch), bigEndian);
      NextLineShows(old(y[..]), y0, y[..], yPitch, packet, stride, Y_SPOTS, line, width, width);
      NextLineShows(old(u[..]), u0, u[..], uPitch, packet, stride, U_SPOTS, line, Chroma(width), ChromaTouched(width));
      NextLineShows(old(v[..]), v0, v[..], vPitch, packet, stride, V_SPOTS, line, Chroma(width), ChromaTouched(width));
      line := line + 1;
    }
    return Some(|packet|);
  }
}
