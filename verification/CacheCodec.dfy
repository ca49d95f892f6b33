/**
 * The feature section of the cache (src/cache.cc): delta, ZigZag, a two-bit tag and base-128 digits. Bytes and
 * 32-bit words are ranges of integers; shifts and masks are written as division and remainder.
 */
module CacheCodec {
  import opened Basics

  // ------------------------------------------------------------ base-128 digits

  /** `run_len_encode`: seven bits a byte, low digits first, the top bit says that more follow. */
  function RunLenEncode(i: nat): (bs: seq<Byte>)
    ensures |bs| > 0
  {
    if i < 128 then [i] else [i % 128 + 128] + RunLenEncode(i / 128)
  }

  datatype Digits = Digits(value: nat, used: nat)

  /** `run_len_decode`, at most `k` bytes; `None` where it would read past the end of `bs`. */
  function RunLenDecode(bs: seq<Byte>, k: nat): (d: Option<Digits>)
    ensures d.Some? ==> 0 < d.value.used <= |bs| && d.value.used <= k
    decreases k
  {
    if bs == [] || k == 0 then None
    else if bs[0] < 128 then Some(Digits(bs[0], 1))
    else
      match RunLenDecode(bs[1..], k - 1)
      case None => None
      case Some(d) => Some(Digits(bs[0] - 128 + 128 * d.value, d.used + 1))
  }

  function Pow128(k: nat): (p: nat)
    ensures p > 0
  {
    if k == 0 then 1 else 128 * Pow128(k - 1)
  }

  /** A number below `128^k` takes at most `k` bytes, and whatever follows it is left alone. */
  lemma {:induction false} RunLenRoundTrip(i: nat, k: nat, rest: seq<Byte>)
    requires 0 < k && i < Pow128(k)
    ensures |RunLenEncode(i)| <= k
    ensures RunLenDecode(RunLenEncode(i) + rest, k) == Some(Digits(i, |RunLenEncode(i)|))
    decreases k
  {
    var bs := RunLenEncode(i) + rest;
    assert Pow128(1) == 128;
    if i >= 128 {
      RunLenRoundTrip(i / 128, k - 1, rest);
      assert bs[1..] == RunLenEncode(i / 128) + rest;
    }
  }

  lemma FiveBytes(w: nat)
    requires w < WORD
    ensures w < Pow128(5)
  {
    assert Pow128(5) == 34359738368;
  }

  /** The encoding is prefix-free: two numbers whose encodings start a common string are equal. */
  lemma RunLenPrefixFree(i: nat, j: nat, a: seq<Byte>, b: seq<Byte>)
    requires i < WORD && j < WORD && RunLenEncode(i) + a == RunLenEncode(j) + b
    ensures i == j && a == b
  {
    FiveBytes(i);
    FiveBytes(j);
    RunLenRoundTrip(i, 5, a);
    RunLenRoundTrip(j, 5, b);
    var n := |RunLenEncode(i)|;
    assert a == (RunLenEncode(i) + a)[n..] && b == (RunLenEncode(j) + b)[n..];
  }

  // ------------------------------------------------------------ ZigZag and the delta

  /** The 32 bits of `n` read as a signed number. */
  function Signed(n: Word): int {
    if n < 0x8000_0000 then n else n - WORD
  }

  /** `(n << 1) ^ (n >> 31)` on a signed 32-bit `n`. */
  function ZigZagEncode(n: int): Word
    requires -0x8000_0000 <= n < 0x8000_0000
  {
    if n >= 0 then 2 * n else -2 * n - 1
  }

  /** `(n >> 1) ^ -(n & 1)`. */
  function ZigZagDecode(n: Word): (r: int)
    ensures -0x8000_0000 <= r < 0x8000_0000
  {
    if n % 2 == 0 then n / 2 else -(n / 2) - 1
  }

  /** The difference to the last index, in 32 bits. */
  function Delta(idx: Word, last: Word): int {
    Signed((idx - last) % WORD)
  }

  /** The two low bits of a digit string say how the value follows. */
  datatype Tag = One | MinusOne | General

  function TagBits(t: Tag): nat {
    match t case One => 0 case MinusOne => 1 case General => 2
  }

  /** `run_len_encode`'s argument: the ZigZag form shifted left by two in 32 bits, and the tag. */
  function Packed(idx: Word, last: Word, t: Tag): Word {
    ZigZagEncode(Delta(idx, last)) * 4 % WORD + TagBits(t)
  }

  function TagOf(p: Word): Tag {
    if p % 2 == 1 then MinusOne else if p / 2 % 2 == 1 then General else One
  }

  /** The decoder's difference: the tag is shifted out again. */
  function Unpacked(p: Word): int {
    ZigZagDecode(p / 4)
  }

  function Advance(last: Word, p: Word): Word {
    (last + Unpacked(p)) % WORD
  }

  /** Two bits of the ZigZag form fall off the top of the word; this is when they are zero. */
  predicate InRange(idx: Word, last: Word) {
    -0x2000_0000 <= Delta(idx, last) < 0x2000_0000
  }

  lemma ShiftedTag(z: Word, t: Tag)
    ensures TagOf(z * 4 % WORD + TagBits(t)) == t
  {
    var q, r := z / 0x4000_0000, z % 0x4000_0000;
    assert z * 4 == q * WORD + 4 * r && 4 * r < WORD;
    assert z * 4 % WORD == 4 * r;
  }

  lemma TagSurvives(idx: Word, last: Word, t: Tag)
    ensures TagOf(Packed(idx, last, t)) == t
  {
    ShiftedTag(ZigZagEncode(Delta(idx, last)), t);
  }

  lemma ZigZagInverse(n: int)
    requires -0x8000_0000 <= n < 0x8000_0000
    ensures ZigZagDecode(ZigZagEncode(n)) == n
    ensures ZigZagEncode(n) < 0x4000_0000 <==> -0x2000_0000 <= n < 0x2000_0000
  {
  }

  lemma ZigZagSmall(z: Word)
    requires z < 0x4000_0000
    ensures -0x2000_0000 <= ZigZagDecode(z) < 0x2000_0000
  {
  }

  lemma SignedApart(idx: Word, last: Word, d: int)
    requires -0x8000_0000 <= d < 0x8000_0000
    ensures (last + d) % WORD == idx <==> d == Delta(idx, last)
  {
  }

  lemma PackedShift(idx: Word, last: Word, t: Tag)
    ensures Packed(idx, last, t) / 4 == ZigZagEncode(Delta(idx, last)) % 0x4000_0000
  {
  }

  /** The side condition is exact: the index comes back if and only if the difference is in range. */
  lemma DeltaRoundTripIff(idx: Word, last: Word, t: Tag)
    ensures Advance(last, Packed(idx, last, t)) == idx <==> InRange(idx, last)
    ensures InRange(idx, last) ==> Unpacked(Packed(idx, last, t)) == Delta(idx, last)
  {
    var d := Delta(idx, last);
    PackedShift(idx, last, t);
    ZigZagInverse(d);
    ZigZagSmall(Packed(idx, last, t) / 4);
    hide ZigZagDecode, ZigZagEncode, Packed, Delta;
    SignedApart(idx, last, Unpacked(Packed(idx, last, t)));
  }

  /** The bit-precision limit of 29 keeps every difference in range. */
  lemma SmallIndicesInRange(idx: Word, last: Word)
    requires idx < 0x2000_0000 && last < 0x2000_0000
    ensures InRange(idx, last) && Delta(idx, last) == idx - last
  {
  }

  // ------------------------------------------------------------ features

  /** `feature`; the value is kept as its four bytes read as a word. */
  datatype Feature = Feature(idx: Word, x: Word)

  const ONE: Word := 0x3F80_0000         // 1.f
  const MINUS_ONE: Word := 0xBF80_0000   // -1.f

  function TagFor(x: Word): Tag {
    if x == ONE then One else if x == MINUS_ONE then MinusOne else General
  }

  /** A word or a length as `k` bytes, low byte first. */
  function LittleEndian(n: nat, k: nat): (bs: seq<Byte>)
    ensures |bs| == k
  {
    if k == 0 then [] else [n % 256] + LittleEndian(n / 256, k - 1)
  }

  function FromLittleEndian(bs: seq<Byte>): nat {
    if bs == [] then 0 else bs[0] + 256 * FromLittleEndian(bs[1..])
  }

  function Pow256(k: nat): (p: nat)
    ensures p > 0
  {
    if k == 0 then 1 else 256 * Pow256(k - 1)
  }

  lemma {:induction false} LittleEndianRoundTrip(n: nat, k: nat)
    requires n < Pow256(k)
    ensures FromLittleEndian(LittleEndian(n, k)) == n
    decreases k
  {
    if k > 0 {
      LittleEndianRoundTrip(n / 256, k - 1);
      assert LittleEndian(n, k)[1..] == LittleEndian(n / 256, k - 1);
    }
  }

  function ValueBytes(x: Word): seq<Byte> {
    if TagFor(x) == General then LittleEndian(x, 4) else []
  }

  function EncodeFeature(f: Feature, last: Word): seq<Byte> {
    RunLenEncode(Packed(f.idx, last, TagFor(f.x))) + ValueBytes(f.x)
  }

  /** What the loop of `output_features` writes. */
  function EncodeFeatures(fs: seq<Feature>, last: Word): seq<Byte> {
    if fs == [] then [] else EncodeFeature(fs[0], last) + EncodeFeatures(fs[1..], fs[0].idx)
  }

  /** One feature read back: its index before masking, its value, its difference, and the bytes it took. */
  datatype Read = Read(idx: Word, x: Word, diff: int, used: nat)

  function DecodeFeature(bs: seq<Byte>, last: Word): (r: Option<Read>)
    ensures r.Some? ==> 0 < r.value.used <= |bs|
  {
    match RunLenDecode(bs, 5)
    case None => None
    case Some(d) =>
      var p: Word := d.value % WORD;
      var rest := bs[d.used..];
      match TagOf(p)
      case One => Some(Read(Advance(last, p), ONE, Unpacked(p), d.used))
      case MinusOne => Some(Read(Advance(last, p), MINUS_ONE, Unpacked(p), d.used))
      case General =>
        if |rest| < 4 then None
        else Some(Read(Advance(last, p), FromLittleEndian(rest[..4]) % WORD, Unpacked(p), d.used + 4))
  }

  /** The list `read_cached_features` pushes for one namespace, and whether `sorted` was left alone. */
  datatype Decoded = Decoded(fs: seq<Feature>, sorted: bool)

  /** The loop of `read_cached_features` up to the recorded end; indices are masked to below `M`. */
  function DecodeFeatures(bs: seq<Byte>, last: Word, M: nat): Option<Decoded>
    requires 0 < M <= WORD
    decreases |bs|
  {
    if bs == [] then Some(Decoded([], true))
    else
      match DecodeFeature(bs, last)
      case None => None
      case Some(r) =>
        match DecodeFeatures(bs[r.used..], r.idx, M)
        case None => None
        case Some(d) => Some(Decoded([Feature(r.idx % M, r.x)] + d.fs, d.sorted && r.diff >= 0))
  }

  // ------------------------------------------------------------ round trip

  lemma FeatureRoundTrip(f: Feature, last: Word, got: Word, rest: seq<Byte>)
    ensures var p := Packed(f.idx, last, TagFor(f.x));
      DecodeFeature(EncodeFeature(f, last) + rest, got)
        == Some(Read(Advance(got, p), f.x, Unpacked(p), |EncodeFeature(f, last)|))
  {
    hide Packed, Advance, Unpacked, TagOf, RunLenEncode, RunLenDecode, LittleEndian, FromLittleEndian;
    var t := TagFor(f.x);
    var p := Packed(f.idx, last, t);
    var digits, value := RunLenEncode(p), ValueBytes(f.x);
    var bs := EncodeFeature(f, last) + rest;
    assert bs == digits + (value + rest);
    FiveBytes(p);
    RunLenRoundTrip(p, 5, value + rest);
    TagSurvives(f.idx, last, t);
    assert bs[|digits|..] == value + rest;
    if t == General {
      assert (value + rest)[..4] == value;
      assert Pow256(4) == WORD;
      LittleEndianRoundTrip(f.x, 4);
    }
  }

  /** Every difference in the list is in range. */
  predicate AllInRange(fs: seq<Feature>, last: Word) {
    fs == [] || (InRange(fs[0].idx, last) && AllInRange(fs[1..], fs[0].idx))
  }

  predicate NonDecreasing(fs: seq<Feature>, last: Word) {
    fs == [] || (last <= fs[0].idx && NonDecreasing(fs[1..], fs[0].idx))
  }

  function Masked(fs: seq<Feature>, M: nat): (r: seq<Feature>)
    requires 0 < M <= WORD
    ensures |r| == |fs| && forall i :: 0 <= i < |fs| ==> r[i] == Feature(fs[i].idx % M, fs[i].x)
  {
    seq(|fs|, i requires 0 <= i < |fs| => Feature(fs[i].idx % M, fs[i].x))
  }

  /** One round of the decoder on what one round of the encoder wrote. */
  lemma DecodeCons(fs: seq<Feature>, last: Word, got: Word, M: nat)
    requires 0 < M <= WORD && fs != []
    ensures var p := Packed(fs[0].idx, last, TagFor(fs[0].x));
      var rest := DecodeFeatures(EncodeFeatures(fs[1..], fs[0].idx), Advance(got, p), M);
      DecodeFeatures(EncodeFeatures(fs, last), got, M)
        == if rest.None? then None
           else Some(Decoded([Feature(Advance(got, p) % M, fs[0].x)] + rest.value.fs,
                             rest.value.sorted && Unpacked(p) >= 0))
  {
    hide EncodeFeature, DecodeFeature, Packed, Advance, Unpacked;
    var first, more := EncodeFeature(fs[0], last), EncodeFeatures(fs[1..], fs[0].idx);
    FeatureRoundTrip(fs[0], last, got, more);
    assert (first + more)[|first|..] == more;
  }

  /** Whatever the indices, the decoder stops at the recorded end with every value in place. */
  lemma {:induction false} DecodesAll(fs: seq<Feature>, last: Word, got: Word, M: nat)
    requires 0 < M <= WORD
    ensures var d := DecodeFeatures(EncodeFeatures(fs, last), got, M);
      && d.Some? && |d.value.fs| == |fs|
      && forall i :: 0 <= i < |fs| ==> d.value.fs[i].x == fs[i].x
  {
    if fs != [] {
      var p := Packed(fs[0].idx, last, TagFor(fs[0].x));
      DecodeCons(fs, last, got, M);
      DecodesAll(fs[1..], fs[0].idx, Advance(got, p), M);
    }
  }

  /** With all differences in range the masked list comes back, and `sorted` survives for sorted lists only. */
  lemma {:induction false} RoundTrip(fs: seq<Feature>, last: Word, M: nat)
    requires 0 < M <= WORD && AllInRange(fs, last)
    ensures DecodeFeatures(EncodeFeatures(fs, last), last, M) == Some(Decoded(Masked(fs, M), Ascending(fs, last)))
  {
    if fs == [] {
      assert Masked(fs, M) == [];
    } else {
      hide DecodeFeatures, EncodeFeatures, Packed, Advance, Unpacked, InRange;
      DecodeCons(fs, last, last, M);
      DeltaRoundTripIff(fs[0].idx, last, TagFor(fs[0].x));
      RoundTrip(fs[1..], fs[0].idx, M);
      assert Masked(fs, M) == [Feature(fs[0].idx % M, fs[0].x)] + Masked(fs[1..], M);
    }
  }

  /** No difference is negative. */
  predicate Ascending(fs: seq<Feature>, last: Word) {
    fs == [] || (Delta(fs[0].idx, last) >= 0 && Ascending(fs[1..], fs[0].idx))
  }

  /** What the decoder makes of the encoder's bytes, at full width. */
  function Reread(fs: seq<Feature>, last: Word, got: Word): (rs: seq<Feature>)
    ensures |rs| == |fs|
  {
    DecodesAll(fs, last, got, WORD);
    DecodeFeatures(EncodeFeatures(fs, last), got, WORD).value.fs
  }

  lemma RereadCons(fs: seq<Feature>, last: Word)
    requires fs != []
    ensures var idx := Advance(last, Packed(fs[0].idx, last, TagFor(fs[0].x)));
      && Reread(fs, last, last) == [Feature(idx, fs[0].x)] + Reread(fs[1..], fs[0].idx, idx)
      && (idx == fs[0].idx <==> InRange(fs[0].idx, last))
  {
    hide DecodeFeatures, EncodeFeatures, Packed, Advance, Unpacked, InRange;
    DecodeCons(fs, last, last, WORD);
    DecodesAll(fs, last, last, WORD);
    DecodesAll(fs[1..], fs[0].idx, Advance(last, Packed(fs[0].idx, last, TagFor(fs[0].x))), WORD);
    DeltaRoundTripIff(fs[0].idx, last, TagFor(fs[0].x));
  }

  /** At full width the list comes back if and only if every difference is in range. */
  lemma {:induction false} RoundTripIff(fs: seq<Feature>, last: Word)
    ensures Reread(fs, last, last) == fs <==> AllInRange(fs, last)
  {
    hide Reread, Packed, Advance, InRange;
    if fs != [] {
      RereadCons(fs, last);
      RoundTripIff(fs[1..], fs[0].idx);
      var idx := Advance(last, Packed(fs[0].idx, last, TagFor(fs[0].x)));
      SameCons(Feature(idx, fs[0].x), Reread(fs[1..], fs[0].idx, idx), fs);
    }
  }

  lemma SameCons(f: Feature, rest: seq<Feature>, fs: seq<Feature>)
    requires fs != []
    ensures [f] + rest == fs <==> f == fs[0] && rest == fs[1..]
  {
    assert ([f] + rest)[1..] == rest && fs == [fs[0]] + fs[1..];
  }

  /** Indices below 2^29 are in range, and then `sorted` says exactly whether the list is nondecreasing. */
  lemma {:induction false} SmallIndices(fs: seq<Feature>, last: Word)
    requires last < 0x2000_0000 && forall i :: 0 <= i < |fs| ==> fs[i].idx < 0x2000_0000
    ensures AllInRange(fs, last) && (Ascending(fs, last) <==> NonDecreasing(fs, last))
  {
    if fs != [] {
      SmallIndicesInRange(fs[0].idx, last);
      SmallIndices(fs[1..], fs[0].idx);
    }
  }

  /** The promise of the cache: below the bit-precision limit, every list is read back under any mask. */
  lemma CacheRoundTrip(fs: seq<Feature>, M: nat)
    requires 0 < M <= WORD && forall i :: 0 <= i < |fs| ==> fs[i].idx < 0x2000_0000
    ensures DecodeFeatures(EncodeFeatures(fs, 0), 0, M) == Some(Decoded(Masked(fs, M), NonDecreasing(fs, 0)))
  {
    SmallIndices(fs, 0);
    RoundTrip(fs, 0, M);
  }

  // ------------------------------------------------------------ how much is written

  /** `storage` as `output_features` computes it before writing: six bytes a feature, four more a value. */
  function Reserved(fs: seq<Feature>): nat {
    if fs == [] then 0
    else Reserved(fs[1..]) + 6 + if TagFor(fs[0].x) == General then 4 else 0
  }

  /** The region reserved is never left, whatever the indices: a spare byte remains for every feature. */
  lemma {:induction false} WriteBound(fs: seq<Feature>, last: Word)
    ensures |EncodeFeatures(fs, last)| + |fs| <= Reserved(fs)
  {
    if fs != [] {
      var p := Packed(fs[0].idx, last, TagFor(fs[0].x));
      FiveBytes(p);
      RunLenRoundTrip(p, 5, []);
      WriteBound(fs[1..], fs[0].idx);
    }
  }

  // ------------------------------------------------------------ the block of one namespace

  datatype Namespace = Namespace(index: Byte, fs: seq<Feature>)

  /** What `output_features` leaves in the buffer: the namespace, the back-patched length, the features. */
  function EncodeBlock(n: Namespace): seq<Byte> {
    var payload := EncodeFeatures(n.fs, 0);
    [n.index] + LittleEndian(|payload|, 8) + payload
  }

  datatype Block = Block(index: Byte, d: Decoded, used: nat)

  /** One round of the outer loop of `read_cached_features`; `None` for a truncated example. */
  function DecodeBlock(bs: seq<Byte>, M: nat): (b: Option<Block>)
    requires 0 < M <= WORD
    ensures b.Some? ==> 9 <= b.value.used <= |bs|
  {
    if |bs| < 9 then None
    else
      var storage := FromLittleEndian(bs[1..9]);
      if |bs| < 9 + storage then None
      else
        match DecodeFeatures(bs[9..9 + storage], 0, M)
        case None => None
        case Some(d) => Some(Block(bs[0], d, 9 + storage))
  }

  lemma BlockRoundTrip(n: Namespace, M: nat, rest: seq<Byte>)
    requires 0 < M <= WORD && |EncodeFeatures(n.fs, 0)| < Pow256(8)
    ensures DecodeFeatures(EncodeFeatures(n.fs, 0), 0, M).Some?
    ensures DecodeBlock(EncodeBlock(n) + rest, M)
         == Some(Block(n.index, DecodeFeatures(EncodeFeatures(n.fs, 0), 0, M).value, |EncodeBlock(n)|))
  {
    hide EncodeFeatures, DecodeFeatures, LittleEndian, FromLittleEndian, Pow256;
    var payload := EncodeFeatures(n.fs, 0);
    var bs := EncodeBlock(n) + rest;
    var size := LittleEndian(|payload|, 8);
    DecodesAll(n.fs, 0, 0, M);
    LittleEndianRoundTrip(|payload|, 8);
    assert bs == [n.index] + size + payload + rest;
    assert bs[1..9] == size;
    assert bs[9..9 + |payload|] == payload;
  }

  // ------------------------------------------------------------ the feature section of an example

  function EncodeBlocks(ns: seq<Namespace>): seq<Byte> {
    if ns == [] then [] else EncodeBlock(ns[0]) + EncodeBlocks(ns[1..])
  }

  /** `cache_features` after the tag: the count is cut to one byte. */
  function EncodeSection(ns: seq<Namespace>): seq<Byte> {
    [|ns| % 256] + EncodeBlocks(ns)
  }

  /** The namespaces read, the `sorted` flag, and the bytes consumed. */
  datatype Section = Section(ns: seq<Namespace>, sorted: bool, used: nat)

  function DecodeBlocks(bs: seq<Byte>, count: nat, M: nat): (r: Option<Section>)
    requires 0 < M <= WORD
    ensures r.Some? ==> r.value.used <= |bs|
    decreases count
  {
    if count == 0 then Some(Section([], true, 0))
    else
      match DecodeBlock(bs, M)
      case None => None
      case Some(b) =>
        match DecodeBlocks(bs[b.used..], count - 1, M)
        case None => None
        case Some(r) =>
          Some(Section([Namespace(b.index, b.d.fs)] + r.ns, b.d.sorted && r.sorted, b.used + r.used))
  }

  function DecodeSection(bs: seq<Byte>, M: nat): Option<Section>
    requires 0 < M <= WORD
  {
    if bs == [] then None
    else
      match DecodeBlocks(bs[1..], bs[0], M)
      case None => None
      case Some(r) => Some(r.(used := r.used + 1))
  }

  predicate Cacheable(ns: seq<Namespace>) {
    forall n :: 0 <= n < |ns| ==>
      |EncodeFeatures(ns[n].fs, 0)| < Pow256(8)
      && forall i :: 0 <= i < |ns[n].fs| ==> ns[n].fs[i].idx < 0x2000_0000
  }

  function MaskedAll(ns: seq<Namespace>, M: nat): (r: seq<Namespace>)
    requires 0 < M <= WORD
    ensures |r| == |ns|
  {
    if ns == [] then [] else [Namespace(ns[0].index, Masked(ns[0].fs, M))] + MaskedAll(ns[1..], M)
  }

  predicate AllNonDecreasing(ns: seq<Namespace>) {
    ns == [] || (NonDecreasing(ns[0].fs, 0) && AllNonDecreasing(ns[1..]))
  }

  lemma {:induction false} BlocksRoundTrip(ns: seq<Namespace>, M: nat, rest: seq<Byte>)
    requires 0 < M <= WORD && Cacheable(ns)
    ensures DecodeBlocks(EncodeBlocks(ns) + rest, |ns|, M)
         == Some(Section(MaskedAll(ns, M), AllNonDecreasing(ns), |EncodeBlocks(ns)|))
  {
    hide EncodeBlock, DecodeBlock, EncodeFeatures, DecodeFeatures, NonDecreasing, Pow256;
    if ns != [] {
      var first, more := EncodeBlock(ns[0]), EncodeBlocks(ns[1..]);
      BlockRoundTrip(ns[0], M, more + rest);
      CacheRoundTrip(ns[0].fs, M);
      BlocksRoundTrip(ns[1..], M, rest);
      assert EncodeBlocks(ns) + rest == first + (more + rest);
      assert (first + (more + rest))[|first|..] == more + rest;
    }
  }

  lemma CountThenBlocks(bs: seq<Byte>, M: nat, r: Section)
    requires 0 < M <= WORD && bs != [] && DecodeBlocks(bs[1..], bs[0], M) == Some(r)
    ensures DecodeSection(bs, M) == Some(r.(used := r.used + 1))
  {
  }

  lemma SectionIs(ns: seq<Namespace>)
    requires |ns| < 256
    ensures EncodeSection(ns) == [|ns|] + EncodeBlocks(ns) && |EncodeSection(ns)| == |EncodeBlocks(ns)| + 1
  {
    hide EncodeBlocks;
  }

  lemma Behind(x: Byte, b: seq<Byte>, c: seq<Byte>)
    ensures ([x] + b) + c == [x] + (b + c)
    ensures ([x] + (b + c))[0] == x && ([x] + (b + c))[1..] == b + c
  {
  }

  /**
   * A whole feature section of up to 255 namespaces comes back, masked, in order, with the flag that says
   * whether every namespace is nondecreasing, and the bytes after it are not touched.
   */
  lemma SectionRoundTrip(ns: seq<Namespace>, M: nat, rest: seq<Byte>)
    requires 0 < M <= WORD && Cacheable(ns) && |ns| < 256
    ensures DecodeSection(EncodeSection(ns) + rest, M)
         == Some(Section(MaskedAll(ns, M), AllNonDecreasing(ns), |EncodeSection(ns)|))
  {
    hide *;
    SectionIs(ns);
    BlocksRoundTrip(ns, M, rest);
    Behind(|ns|, EncodeBlocks(ns), rest);
    CountThenBlocks([|ns|] + (EncodeBlocks(ns) + rest), M,
                    Section(MaskedAll(ns, M), AllNonDecreasing(ns), |EncodeBlocks(ns)|));
  }

  /** With all 256 namespaces in use the count byte is zero and none is read back. */
  lemma FullSectionIsLost(ns: seq<Namespace>, M: nat, rest: seq<Byte>)
    requires 0 < M <= WORD && |ns| == 256
    ensures DecodeSection(EncodeSection(ns) + rest, M) == Some(Section([], true, 1))
  {
    assert (EncodeSection(ns) + rest)[0] == 0;
  }
}
