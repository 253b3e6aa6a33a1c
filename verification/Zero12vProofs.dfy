/** What the 012v decoder gives back of pictures packed into lines of any length. */
module Zero12vProofs {
  import opened Zero12v

  // --------------------------------------------------------------------------------------------------- packing

  /** Three 10-bit values to a word. */
  function Pack(a: bv16, b: bv16, c: bv16): bv32 {
    (a as bv32) | ((b as bv32) << 10) | ((c as bv32) << 20)
  }

  lemma FieldsOfPack(a: bv16, b: bv16, c: bv16)
    requires a < 1024 && b < 1024 && c < 1024
    ensures Field(Pack(a, b, c), 0) == a << 6 && Field(Pack(a, b, c), 1) == b << 6 && Field(Pack(a, b, c), 2) == c << 6
  {
  }

  function ByteOf(word: bv32, i: nat): bv8 {
    match i
    case 0 => (word & 0xFF) as bv8
    case 1 => ((word >> 8) & 0xFF) as bv8
    case 2 => ((word >> 16) & 0xFF) as bv8
    case _ => ((word >> 24) & 0xFF) as bv8
  }

  lemma WordOfBytes(packet: seq<bv8>, at: nat, word: bv32)
    requires at + 4 <= |packet| && packet[at] == ByteOf(word, 0) && packet[at + 1] == ByteOf(word, 1)
    requires packet[at + 2] == ByteOf(word, 2) && packet[at + 3] == ByteOf(word, 3)
    ensures Word(packet, at) == word
  {
    BytesMakeWord(word);
  }

  lemma BytesMakeWord(word: bv32)
    ensures (ByteOf(word, 0) as bv32) | ((ByteOf(word, 1) as bv32) << 8)
          | ((ByteOf(word, 2) as bv32) << 16) | ((ByteOf(word, 3) as bv32) << 24)
         == word
  {
  }

  /** The 10-bit samples of a line. */
  datatype Row = Row(y: seq<bv16>, u: seq<bv16>, v: seq<bv16>)
  {
    ghost predicate Valid(width: nat) {
      && |y| == width && |u| == Chroma(width) && |v| == Chroma(width)
      && TenBits(y) && TenBits(u) && TenBits(v)
    }
  }

  ghost predicate TenBits(samples: seq<bv16>) {
    forall k :: 0 <= k < |samples| ==> samples[k] < 1024
  }

  /** Sample k, or zero behind the end of a line. */
  function At(samples: seq<bv16>, k: nat): bv16 { if k < |samples| then samples[k] else 0 }

  /** Word `word` of group g. */
  function PackedWord(row: Row, g: nat, word: nat): bv32 {
    match word
    case 0 => Pack(At(row.u, 3 * g), At(row.y, 6 * g), At(row.v, 3 * g))
    case 1 => Pack(At(row.y, 6 * g + 1), At(row.u, 3 * g + 1), At(row.y, 6 * g + 2))
    case 2 => Pack(At(row.v, 3 * g + 1), At(row.y, 6 * g + 3), At(row.u, 3 * g + 2))
    case _ => Pack(At(row.y, 6 * g + 4), At(row.v, 3 * g + 2), At(row.y, 6 * g + 5))
  }

  /** The little-endian bytes of words, cut to `stride` bytes. */
  function Bytes(words: seq<bv32>, stride: nat): (bytes: seq<bv8>)
    requires stride <= 4 * |words|
    ensures |bytes| == stride
  {
    seq(stride, i requires 0 <= i < stride => ByteOf(words[i / 4], i % 4))
  }

  /** The first n words of a row. */
  function RowWords(row: Row, n: nat): (words: seq<bv32>)
    ensures |words| == n
  {
    seq(n, m requires 0 <= m < n => PackedWord(row, m / 4, m % 4))
  }

  lemma RowWordAt(row: Row, n: nat, g: nat, word: nat)
    requires word < 4 && 4 * g + word < n
    ensures RowWords(row, n)[4 * g + word] == PackedWord(row, g, word)
  {
    assert (4 * g + word) / 4 == g && (4 * g + word) % 4 == word;
  }

  /** A line of `stride` bytes: the row's words, with zeros for the samples it has not. */
  function EncodeRow(row: Row, stride: nat): (bytes: seq<bv8>)
    ensures |bytes| == stride
  {
    Bytes(RowWords(row, stride / 4 + 1), stride)
  }

  function EncodeLoop(rows: seq<Row>, stride: nat, n: nat): (bytes: seq<bv8>)
    requires n <= |rows|
    ensures |bytes| == Times(n, stride)
  {
    if n == 0 then [] else
      assert n * stride == (n - 1) * stride + stride;
      EncodeLoop(rows, stride, n - 1) + EncodeRow(rows[n - 1], stride)
  }

  /** The first n lines; EncodeNext says what they are. */
  function EncodeUpTo(rows: seq<Row>, stride: nat, n: nat): (bytes: seq<bv8>)
    requires n <= |rows|
    ensures |bytes| == Times(n, stride)
  {
    EncodeLoop(rows, stride, n)
  }

  lemma EncodeNext(rows: seq<Row>, stride: nat, n: nat)
    requires n < |rows|
    ensures EncodeUpTo(rows, stride, n + 1) == EncodeUpTo(rows, stride, n) + EncodeRow(rows[n], stride)
  {
  }

  function Encode(rows: seq<Row>, stride: nat): (packet: seq<bv8>)
    ensures |packet| == Times(|rows|, stride)
  {
    EncodeUpTo(rows, stride, |rows|)
  }

  lemma SliceOfFront(a: seq<bv8>, b: seq<bv8>, i: nat, j: nat)
    requires i <= j <= |a|
    ensures (a + b)[i..j] == a[i..j]
  {
  }

  lemma SliceOfBack(a: seq<bv8>, b: seq<bv8>, i: nat, j: nat)
    requires i == |a| && j == |a| + |b|
    ensures (a + b)[i..j] == b
  {
  }

  lemma {:induction false} RowStands(rows: seq<Row>, stride: nat, n: nat, r: nat)
    requires r < n <= |rows|
    ensures Times(r, stride) + stride <= |EncodeUpTo(rows, stride, n)|
    ensures EncodeUpTo(rows, stride, n)[Times(r, stride)..Times(r, stride) + stride] == EncodeRow(rows[r], stride)
    decreases n
  {
    LineBefore(r, n, stride);
    EncodeNext(rows, stride, n - 1);
    var front, back, from := EncodeUpTo(rows, stride, n - 1), EncodeRow(rows[n - 1], stride), Times(r, stride);
    assert EncodeUpTo(rows, stride, n) == front + back;
    if r < n - 1 {
      RowStands(rows, stride, n - 1, r);
      SliceOfFront(front, back, from, from + stride);
    } else {
      SliceOfBack(front, back, from, from + stride);
    }
  }

  // ------------------------------------------------------------------------------------------------- unpacking

  /** The word that holds sample k lies within the line. */
  predicate Reached(stride: nat, spots: seq<Spot>, k: nat)
    requires IsSpots(spots)
  {
    16 * (k / |spots|) + 4 * spots[k % |spots|].word + 4 <= stride
  }

  /** The samples of a row that a list of spots is for. */
  function Plane(row: Row, spots: seq<Spot>): seq<bv16> {
    if spots == Y_SPOTS then row.y else if spots == U_SPOTS then row.u else row.v
  }

  lemma ByteStands(packet: seq<bv8>, base: nat, words: seq<bv32>, stride: nat, m: nat, i: nat)
    requires stride <= 4 * |words| && base + stride <= |packet| && packet[base..base + stride] == Bytes(words, stride)
    requires i < 4 && 4 * m + 4 <= stride
    ensures packet[base + 4 * m + i] == ByteOf(words[m], i)
  {
    assert packet[base + 4 * m + i] == packet[base..base + stride][4 * m + i];
    assert (4 * m + i) / 4 == m && (4 * m + i) % 4 == i;
  }

  lemma WordStands(packet: seq<bv8>, base: nat, words: seq<bv32>, stride: nat, m: nat, at: nat)
    requires stride <= 4 * |words| && base + stride <= |packet| && packet[base..base + stride] == Bytes(words, stride)
    requires 4 * m + 4 <= stride && at == base + 4 * m
    ensures Word(packet, at) == words[m]
  {
    ByteStands(packet, base, words, stride, m, 0);
    ByteStands(packet, base, words, stride, m, 1);
    ByteStands(packet, base, words, stride, m, 2);
    ByteStands(packet, base, words, stride, m, 3);
    WordOfBytes(packet, at, words[m]);
  }

  lemma FieldsOfPackedWord(row: Row, width: nat, g: nat, word: nat, a: bv16, b: bv16, c: bv16)
    requires row.Valid(width) && PackedWord(row, g, word) == Pack(a, b, c) && a < 1024 && b < 1024 && c < 1024
    ensures Field(PackedWord(row, g, word), 0) == a << 6
    ensures Field(PackedWord(row, g, word), 1) == b << 6
    ensures Field(PackedWord(row, g, word), 2) == c << 6
  {
    FieldsOfPack(a, b, c);
  }

  lemma PackedLuma(row: Row, width: nat, g: nat, j: nat)
    requires row.Valid(width) && j < 6
    ensures Field(PackedWord(row, g, Y_SPOTS[j].word), Y_SPOTS[j].field) == At(row.y, 6 * g + j) << 6
  {
    GroupIsTenBits(row, width, g);
    if j == 0 {
      FieldsOfPackedWord(row, width, g, 0, At(row.u, 3 * g), At(row.y, 6 * g), At(row.v, 3 * g));
    } else if j == 1 {
      FieldsOfPackedWord(row, width, g, 1, At(row.y, 6 * g + 1), At(row.u, 3 * g + 1), At(row.y, 6 * g + 2));
    } else if j == 2 {
      FieldsOfPackedWord(row, width, g, 1, At(row.y, 6 * g + 1), At(row.u, 3 * g + 1), At(row.y, 6 * g + 2));
    } else if j == 3 {
      FieldsOfPackedWord(row, width, g, 2, At(row.v, 3 * g + 1), At(row.y, 6 * g + 3), At(row.u, 3 * g + 2));
    } else if j == 4 {
      FieldsOfPackedWord(row, width, g, 3, At(row.y, 6 * g + 4), At(row.v, 3 * g + 2), At(row.y, 6 * g + 5));
    } else {
      FieldsOfPackedWord(row, width, g, 3, At(row.y, 6 * g + 4), At(row.v, 3 * g + 2), At(row.y, 6 * g + 5));
    }
  }

  lemma GroupIsTenBits(row: Row, width: nat, g: nat)
    requires row.Valid(width)
    ensures At(row.y, 6 * g) < 1024 && At(row.y, 6 * g + 1) < 1024 && At(row.y, 6 * g + 2) < 1024
    ensures At(row.y, 6 * g + 3) < 1024 && At(row.y, 6 * g + 4) < 1024 && At(row.y, 6 * g + 5) < 1024
    ensures At(row.u, 3 * g) < 1024 && At(row.u, 3 * g + 1) < 1024 && At(row.u, 3 * g + 2) < 1024
    ensures At(row.v, 3 * g) < 1024 && At(row.v, 3 * g + 1) < 1024 && At(row.v, 3 * g + 2) < 1024
  {
  }

  lemma PackedBlue(row: Row, width: nat, g: nat, j: nat)
    requires row.Valid(width) && j < 3
    ensures Field(PackedWord(row, g, U_SPOTS[j].word), U_SPOTS[j].field) == At(row.u, 3 * g + j) << 6
  {
    GroupIsTenBits(row, width, g);
    if j == 0 {
      FieldsOfPackedWord(row, width, g, 0, At(row.u, 3 * g), At(row.y, 6 * g), At(row.v, 3 * g));
    } else if j == 1 {
      FieldsOfPackedWord(row, width, g, 1, At(row.y, 6 * g + 1), At(row.u, 3 * g + 1), At(row.y, 6 * g + 2));
    } else {
      FieldsOfPackedWord(row, width, g, 2, At(row.v, 3 * g + 1), At(row.y, 6 * g + 3), At(row.u, 3 * g + 2));
    }
  }

  lemma PackedRed(row: Row, width: nat, g: nat, j: nat)
    requires row.Valid(width) && j < 3
    ensures Field(PackedWord(row, g, V_SPOTS[j].word), V_SPOTS[j].field) == At(row.v, 3 * g + j) << 6
  {
    GroupIsTenBits(row, width, g);
    if j == 0 {
      FieldsOfPackedWord(row, width, g, 0, At(row.u, 3 * g), At(row.y, 6 * g), At(row.v, 3 * g));
    } else if j == 1 {
      FieldsOfPackedWord(row, width, g, 2, At(row.v, 3 * g + 1), At(row.y, 6 * g + 3), At(row.u, 3 * g + 2));
    } else {
      FieldsOfPackedWord(row, width, g, 3, At(row.y, 6 * g + 4), At(row.v, 3 * g + 2), At(row.y, 6 * g + 5));
    }
  }

  /** Every sample of a group is packed where the decoder looks for it. */
  lemma PackedAtSpot(row: Row, width: nat, g: nat, spots: seq<Spot>, j: nat)
    requires row.Valid(width) && IsSpots(spots) && j < |spots|
    ensures Field(PackedWord(row, g, spots[j].word), spots[j].field) == At(Plane(row, spots), |spots| * g + j) << 6
  {
    if spots == Y_SPOTS {
      PackedLuma(row, width, g, j);
    } else if spots == U_SPOTS {
      PackedBlue(row, width, g, j);
    } else {
      PackedRed(row, width, g, j);
    }
  }

  lemma SplitIndex(k: nat, n: nat)
    requires n > 0
    ensures n * (k / n) + k % n == k
  {
  }

  lemma SampleOfWord(packet: seq<bv8>, base: nat, stride: nat, spots: seq<Spot>, k: nat, g: nat, j: nat, at: nat)
    requires base + stride <= |packet| && IsSpots(spots) && Reached(stride, spots, k)
    requires g == k / |spots| && j == k % |spots|
    requires at == base + (16 * g + 4 * spots[j].word)
    ensures Sample(packet, base, stride, spots, k) == Field(Word(packet, at), spots[j].field)
  {
  }

  /** A sample whose word stands in the line is what its field says. */
  lemma ReachedSampleDecodes(
      packet: seq<bv8>, base: nat, stride: nat, words: seq<bv32>, spots: seq<Spot>, k: nat, g: nat, j: nat)
    requires stride <= 4 * |words| && base + stride <= |packet| && packet[base..base + stride] == Bytes(words, stride)
    requires IsSpots(spots) && Reached(stride, spots, k) && g == k / |spots| && j == k % |spots|
    ensures Sample(packet, base, stride, spots, k) == Field(words[4 * g + spots[j].word], spots[j].field)
  {
    var at := base + (16 * g + 4 * spots[j].word);
    SampleOfWord(packet, base, stride, spots, k, g, j, at);
    WordStands(packet, base, words, stride, 4 * g + spots[j].word, at);
  }

  lemma RowField(row: Row, width: nat, n: nat, spots: seq<Spot>, g: nat, j: nat)
    requires row.Valid(width) && IsSpots(spots) && j < |spots| && 4 * g + spots[j].word < n
    ensures Field(RowWords(row, n)[4 * g + spots[j].word], spots[j].field)
      == At(Plane(row, spots), |spots| * g + j) << 6
  {
    RowWordAt(row, n, g, spots[j].word);
    PackedAtSpot(row, width, g, spots, j);
  }

  lemma AtIs(samples: seq<bv16>, i: nat, k: nat)
    requires i == k < |samples|
    ensures At(samples, i) << 6 == samples[k] << 6
  {
  }

  lemma CutSampleIsGrey(packet: seq<bv8>, base: nat, stride: nat, spots: seq<Spot>, k: nat)
    requires base + stride <= |packet| && IsSpots(spots) && !Reached(stride, spots, k)
    ensures Sample(packet, base, stride, spots, k) == GREY
  {
  }

  lemma ReachedRowSample(
      packet: seq<bv8>, base: nat, stride: nat, row: Row, width: nat, spots: seq<Spot>, k: nat, g: nat, j: nat,
      n: nat)
    requires base + stride <= |packet| && packet[base..base + stride] == EncodeRow(row, stride)
    requires row.Valid(width) && IsSpots(spots) && k < |Plane(row, spots)| && Reached(stride, spots, k)
    requires g == k / |spots| && j == k % |spots| && |spots| * g + j == k && n == stride / 4 + 1
    ensures Sample(packet, base, stride, spots, k) == Plane(row, spots)[k] << 6
  {
    ReachedSampleDecodes(packet, base, stride, RowWords(row, n), spots, k, g, j);
    RowField(row, width, n, spots, g, j);
    AtIs(Plane(row, spots), |spots| * g + j, k);
  }

  /** A packed sample is given back, scaled to sixteen bits, if its word lies within the line, and is grey otherwise. */
  lemma EncodedSampleDecodes(packet: seq<bv8>, base: nat, stride: nat, row: Row, width: nat, spots: seq<Spot>, k: nat)
    requires base + stride <= |packet| && packet[base..base + stride] == EncodeRow(row, stride)
    requires row.Valid(width) && IsSpots(spots) && k < |Plane(row, spots)|
    ensures Sample(packet, base, stride, spots, k)
      == if Reached(stride, spots, k) then Plane(row, spots)[k] << 6 else GREY
  {
    if Reached(stride, spots, k) {
      SplitIndex(k, |spots|);
      ReachedRowSample(packet, base, stride, row, width, spots, k, k / |spots|, k % |spots|, stride / 4 + 1);
    } else {
      CutSampleIsGrey(packet, base, stride, spots, k);
    }
  }

  /** The bytes a line needs so that none of its samples is cut off. */
  function Needed(width: nat): nat { 16 * (width / 6) + [0, 4, 8, 12, 12, 16][width % 6] }

  ghost predicate ReachesAll(stride: nat, width: nat) {
    && (forall k: nat {:trigger Reached(stride, Y_SPOTS, k)} :: k < width ==> Reached(stride, Y_SPOTS, k))
    && (forall k: nat {:trigger Reached(stride, U_SPOTS, k)} :: k < Chroma(width) ==> Reached(stride, U_SPOTS, k))
    && (forall k: nat {:trigger Reached(stride, V_SPOTS, k)} :: k < Chroma(width) ==> Reached(stride, V_SPOTS, k))
  }

  lemma LastSamplesReached(stride: nat, width: nat)
    requires width > 0 && Reached(stride, Y_SPOTS, width - 1) && Reached(stride, V_SPOTS, Chroma(width) - 1)
    ensures stride >= Needed(width)
  {
    var q, m, c := width / 6, width % 6, Chroma(width) - 1;
    assert (width - 1) / 6 == (if m == 0 then q - 1 else q) && (width - 1) % 6 == (if m == 0 then 5 else m - 1);
    assert c / 3 == (if m == 0 then q - 1 else q) && c % 3 == (if m == 0 then 2 else (m - 1) / 2);
  }

  lemma LumaReached(stride: nat, width: nat, k: nat)
    requires stride >= Needed(width) && k < width
    ensures Reached(stride, Y_SPOTS, k)
  {
  }

  lemma ChromaReached(stride: nat, width: nat, k: nat)
    requires stride >= Needed(width) && k < Chroma(width)
    ensures Reached(stride, U_SPOTS, k) && Reached(stride, V_SPOTS, k)
  {
    assert k / 3 <= width / 6 && (k / 3 == width / 6 ==> 2 * (k % 3) < width % 6);
  }

  /** No sample is lost exactly when the line has the bytes it needs. */
  lemma ReachesAllIff(stride: nat, width: nat)
    requires width > 0
    ensures ReachesAll(stride, width) <==> stride >= Needed(width)
  {
    if ReachesAll(stride, width) {
      LastSamplesReached(stride, width);
    } else if stride >= Needed(width) {
      forall k: nat | k < width
        ensures Reached(stride, Y_SPOTS, k)
      {
        LumaReached(stride, width, k);
      }
      forall k: nat | k < Chroma(width)
        ensures Reached(stride, U_SPOTS, k) && Reached(stride, V_SPOTS, k)
      {
        ChromaReached(stride, width, k);
      }
      assert false;
    }
  }

  /** The least stride that the decoder selects loses samples unless the width is a multiple of six. */
  lemma LeastStrideSufficesIff(width: nat)
    ensures width * 8 / 3 >= Needed(width) <==> width % 6 == 0
  {
  }

  ghost predicate EncodedAt(packet: seq<bv8>, base: nat, stride: nat, row: Row) {
    base + stride <= |packet| && packet[base..base + stride] == EncodeRow(row, stride)
  }

  /** Row r of a packed picture stands in the packet. */
  lemma RowInPacket(rows: seq<Row>, width: nat, stride: nat, trailer: seq<bv8>, r: nat)
    requires (forall i :: 0 <= i < |rows| ==> rows[i].Valid(width)) && r < |rows|
    ensures EncodedAt(Encode(rows, stride) + trailer, Times(r, stride), stride, rows[r])
  {
    RowStands(rows, stride, |rows|, r);
    var packet, base := Encode(rows, stride) + trailer, Times(r, stride);
    assert packet[base..base + stride] == Encode(rows, stride)[base..base + stride];
  }

  /** What a line of a plane shows. */
  lemma LineShows(
      now: seq<bv16>, start: nat, packet: seq<bv8>, base: nat, stride: nat, row: Row, width: nat, spots: seq<Spot>,
      n: nat, k: nat)
    requires row.Valid(width) && IsSpots(spots) && EncodedAt(packet, base, stride, row)
    requires ShowsLine(now, start, packet, base, stride, spots, n) && k < n == |Plane(row, spots)|
    ensures start + k < |now|
    ensures now[start + k] == if Reached(stride, spots, k) then Plane(row, spots)[k] << 6 else GREY
  {
    EncodedSampleDecodes(packet, base, stride, row, width, spots, k);
  }

  /** What the planes show once the decoder has read a packed picture: every sample its line reaches, and grey
      elsewhere. */
  lemma PictureShows(
      was: seq<bv16>, now: seq<bv16>, pitch: nat, rows: seq<Row>, width: nat, stride: nat, trailer: seq<bv8>,
      spots: seq<Spot>, n: nat, touched: nat, r: nat, k: nat)
    requires (forall i :: 0 <= i < |rows| ==> rows[i].Valid(width)) && IsSpots(spots)
    requires PlaneShows(was, now, pitch, Encode(rows, stride) + trailer, stride, spots, |rows|, n, touched)
    requires r < |rows| && k < n == |Plane(rows[r], spots)|
    ensures 0 <= r * pitch + k < |now|
    ensures now[r * pitch + k] == if Reached(stride, spots, k) then Plane(rows[r], spots)[k] << 6 else GREY
  {
    var packet := Encode(rows, stride) + trailer;
    RowInPacket(rows, width, stride, trailer, r);
    assert ShowsLine(now, Times(r, pitch), packet, Times(r, stride), stride, spots, n);
    LineShows(now, Times(r, pitch), packet, Times(r, stride), stride, rows[r], width, spots, n, k);
  }

  ghost predicate Pictures(rows: seq<Row>, width: nat, height: nat) {
    |rows| == height && forall r :: 0 <= r < height ==> rows[r].Valid(width)
  }

  /** Every sample of a packed picture is given back. */
  ghost predicate Recovered(rows: seq<Row>, stride: nat) {
    forall r: nat, spots: seq<Spot>, k: nat ::
      r < |rows| && IsSpots(spots) && k < |Plane(rows[r], spots)| ==> SampleRecovered(rows, stride, r, spots, k)
  }

  ghost predicate SampleRecovered(rows: seq<Row>, stride: nat, r: nat, spots: seq<Spot>, k: nat)
    requires r < |rows| && IsSpots(spots) && k < |Plane(rows[r], spots)|
  {
    && Times(r, stride) + stride <= |Encode(rows, stride)|
    && Sample(Encode(rows, stride), Times(r, stride), stride, spots, k) == Plane(rows[r], spots)[k] << 6
  }

  lemma PackedSample(rows: seq<Row>, width: nat, height: nat, stride: nat, r: nat, spots: seq<Spot>, k: nat)
    requires Pictures(rows, width, height) && r < height && IsSpots(spots) && k < |Plane(rows[r], spots)|
    ensures Times(r, stride) + stride <= |Encode(rows, stride)|
    ensures Sample(Encode(rows, stride), Times(r, stride), stride, spots, k)
         == if Reached(stride, spots, k) then Plane(rows[r], spots)[k] << 6 else GREY
  {
    RowStands(rows, stride, |rows|, r);
    EncodedSampleDecodes(Encode(rows, stride), Times(r, stride), stride, rows[r], width, spots, k);
  }

  lemma LongLinesRecover(rows: seq<Row>, width: nat, height: nat, stride: nat)
    requires Pictures(rows, width, height) && width > 0 && stride >= Needed(width)
    ensures Recovered(rows, stride)
  {
    forall r: nat, spots: seq<Spot>, k: nat | r < |rows| && IsSpots(spots) && k < |Plane(rows[r], spots)|
      ensures SampleRecovered(rows, stride, r, spots, k)
    {
      PackedSample(rows, width, height, stride, r, spots, k);
      ReachesAllIff(stride, width);
      if spots == Y_SPOTS {
        assert Reached(stride, Y_SPOTS, k);
      } else if spots == U_SPOTS {
        assert Reached(stride, U_SPOTS, k);
      } else {
        assert Reached(stride, V_SPOTS, k);
      }
    }
  }

  /** A line that is too short for its samples shows grey where a black picture has none. */
  lemma ShortLinesLose(width: nat, height: nat, stride: nat) returns (rows: seq<Row>)
    requires width > 0 && height > 0 && stride < Needed(width)
    ensures Pictures(rows, width, height) && !Recovered(rows, stride)
  {
    var row := Row(seq(width, _ => 0), seq(Chroma(width), _ => 0), seq(Chroma(width), _ => 0));
    rows := seq(height, _ => row);
    assert rows[0] == row && row.Valid(width);
    var spots, k := LostSample(width, stride);
    PackedSample(rows, width, height, stride, 0, spots, k);
    assert Plane(rows[0], spots)[k] == 0 && !SampleRecovered(rows, stride, 0, spots, k);
  }

  lemma LostSample(width: nat, stride: nat) returns (spots: seq<Spot>, k: nat)
    requires width > 0 && stride < Needed(width)
    ensures IsSpots(spots) && k < (if spots == Y_SPOTS then width else Chroma(width)) && !Reached(stride, spots, k)
  {
    if !Reached(stride, Y_SPOTS, width - 1) {
      return Y_SPOTS, width - 1;
    }
    if Reached(stride, V_SPOTS, Chroma(width) - 1) {
      LastSamplesReached(stride, width);
    }
    return V_SPOTS, Chroma(width) - 1;
  }

  /** Packing and unpacking loses nothing, for any picture, exactly when the lines have the bytes they need. */
  lemma EveryPictureIsRecoveredIff(width: nat, height: nat, stride: nat)
    requires width > 0 && height > 0
    ensures (forall rows :: Pictures(rows, width, height) ==> Recovered(rows, stride)) <==> stride >= Needed(width)
  {
    if stride >= Needed(width) {
      forall rows | Pictures(rows, width, height)
        ensures Recovered(rows, stride)
      {
        LongLinesRecover(rows, width, height, stride);
      }
    } else {
      var rows := ShortLinesLose(width, height, stride);
    }
  }
}
