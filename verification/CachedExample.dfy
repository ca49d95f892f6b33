/** A cached example after its label: the tag and the feature section (`cache_features`, `read_cached_tag` and
    `read_cached_features` in src/cache.cc), and what the learner gets from it. */
module CachedExample {
  import opened Basics
  import opened Modulus
  import opened CacheCodec
  import UniqueSort
  import Learning = Features
  import Partition

  // ------------------------------------------------------------ the tag

  /** Copying nothing ends the program: `c_memcpy` exits when the size is zero (src/utils.cc). */
  datatype Outcome<T> = Returns(value: T) | Truncated | Exits

  function CopyBytes(bs: seq<Byte>): (r: Outcome<seq<Byte>>)
    ensures r == if bs == [] then Exits else Returns(bs)
  {
    if |bs| == 0 then Exits else Returns(bs)
  }

  /** `cache_tag`: eight bytes of length, then the tag. */
  function EncodeTag(tag: seq<Byte>): Outcome<seq<Byte>> {
    match CopyBytes(tag)
    case Returns(bytes) => Returns(LittleEndian(|tag|, 8) + bytes)
    case _ => Exits
  }

  datatype Tagged = Tagged(tag: seq<Byte>, used: nat)

  /** `read_cached_tag`. */
  function DecodeTag(bs: seq<Byte>): (r: Outcome<Tagged>)
    ensures r.Returns? ==> r.value.used <= |bs|
  {
    if |bs| < 8 then Truncated
    else
      var size := FromLittleEndian(bs[..8]);
      if |bs| < 8 + size then Truncated
      else
        match CopyBytes(bs[8..8 + size])
        case Returns(tag) => Returns(Tagged(tag, 8 + size))
        case _ => Exits
  }

  lemma TagRoundTrip(tag: seq<Byte>, rest: seq<Byte>)
    requires tag != [] && |tag| < Pow256(8)
    ensures EncodeTag(tag).Returns? && |EncodeTag(tag).value| == 8 + |tag|
    ensures DecodeTag(EncodeTag(tag).value + rest) == Returns(Tagged(tag, 8 + |tag|))
  {
    hide LittleEndian, FromLittleEndian, Pow256;
    var size := LittleEndian(|tag|, 8);
    LittleEndianRoundTrip(|tag|, 8);
    var bs := EncodeTag(tag).value + rest;
    assert bs == size + tag + rest;
    assert bs[..8] == size && bs[8..8 + |tag|] == tag;
  }

  /** A length of zero ends the program on reading, too. */
  lemma EmptyTagExits(rest: seq<Byte>)
    ensures EncodeTag([]) == Exits && DecodeTag(LittleEndian(0, 8) + rest) == Exits
  {
    LittleEndianRoundTrip(0, 8);
    hide LittleEndian, FromLittleEndian;
    assert (LittleEndian(0, 8) + rest)[..8] == LittleEndian(0, 8);
  }

  // ------------------------------------------------------------ tag and features

  /** `cache_features`. */
  function EncodeExample(tag: seq<Byte>, ns: seq<Namespace>): Outcome<seq<Byte>> {
    match EncodeTag(tag)
    case Returns(bytes) => Returns(bytes + EncodeSection(ns))
    case _ => Exits
  }

  datatype Example = Example(tag: seq<Byte>, section: Section)

  /** `read_cached_features` after the label. */
  function DecodeExample(bs: seq<Byte>, M: nat): Outcome<Example>
    requires 0 < M <= WORD
  {
    match DecodeTag(bs)
    case Truncated => Truncated
    case Exits => Exits
    case Returns(t) =>
      match DecodeSection(bs[t.used..], M)
      case None => Truncated
      case Some(section) => Returns(Example(t.tag, section))
  }

  /** What an example looks like when it comes back: masked, with the flag that says whether it is sorted. */
  function Expected(tag: seq<Byte>, ns: seq<Namespace>, M: nat): Example
    requires 0 < M <= WORD
  {
    Example(tag, Section(MaskedAll(ns, M), AllNonDecreasing(ns), |EncodeSection(ns)|))
  }

  lemma TagThenSection(bs: seq<Byte>, M: nat, t: Tagged, section: Section)
    requires 0 < M <= WORD && DecodeTag(bs) == Returns(t) && DecodeSection(bs[t.used..], M) == Some(section)
    ensures DecodeExample(bs, M) == Returns(Example(t.tag, section))
  {
  }

  lemma Spliced(a: seq<Byte>, b: seq<Byte>, c: seq<Byte>)
    ensures (a + b) + c == a + (b + c) && (a + (b + c))[|a|..] == b + c
  {
  }

  lemma ExampleRoundTrip(tag: seq<Byte>, ns: seq<Namespace>, M: nat, rest: seq<Byte>)
    requires 0 < M <= WORD && Cacheable(ns) && |ns| < 256 && |tag| < Pow256(8) && tag != []
    ensures EncodeExample(tag, ns).Returns?
    ensures DecodeExample(EncodeExample(tag, ns).value + rest, M) == Returns(Expected(tag, ns, M))
  {
    var section := Section(MaskedAll(ns, M), AllNonDecreasing(ns), |EncodeSection(ns)|);
    assert Expected(tag, ns, M) == Example(tag, section);
    TagRoundTrip(tag, EncodeSection(ns) + rest);
    assert EncodeExample(tag, ns) == Returns(EncodeTag(tag).value + EncodeSection(ns));
    hide *;
    SectionRoundTrip(ns, M, rest);
    var t := EncodeTag(tag).value;
    Spliced(t, EncodeSection(ns), rest);
    TagThenSection(t + (EncodeSection(ns) + rest), M, Tagged(tag, |t|), section);
  }

  /** An example goes into the cache and comes back if and only if it has a tag; without one the program ends. */
  lemma ExampleRoundTripIff(tag: seq<Byte>, ns: seq<Namespace>, M: nat, rest: seq<Byte>)
    requires 0 < M <= WORD && Cacheable(ns) && |ns| < 256 && |tag| < Pow256(8)
    ensures (EncodeExample(tag, ns).Returns?
             && DecodeExample(EncodeExample(tag, ns).value + rest, M) == Returns(Expected(tag, ns, M)))
            <==> tag != []
    ensures tag == [] ==> EncodeExample(tag, ns) == Exits
  {
    if tag != [] { ExampleRoundTrip(tag, ns, M, rest); }
  }

  // ------------------------------------------------------------ what the learner gets

  /** The features of a namespace as the learner sees them: words read as numbers, indices spread by the stride in
      32 bits. */
  function Learned(fs: seq<Feature>, val: Word -> real, stride: nat): (r: seq<Learning.Feature>)
    ensures |r| == |fs|
    ensures forall i :: 0 <= i < |fs| ==> r[i] == Learning.Feature(val(fs[i].x), fs[i].idx * stride % WORD)
  {
    seq(|fs|, i requires 0 <= i < |fs| => Learning.Feature(val(fs[i].x), fs[i].idx * stride % WORD))
  }

  function LearnedAll(ns: seq<Namespace>, val: Word -> real, stride: nat): (r: seq<seq<Learning.Feature>>)
    ensures |r| == |ns| && forall n :: 0 <= n < |ns| ==> r[n] == Learned(ns[n].fs, val, stride)
  {
    seq(|ns|, n requires 0 <= n < |ns| => Learned(ns[n].fs, val, stride))
  }

  lemma Spread(idx: nat, M: nat, stride: nat)
    requires idx < M && stride > 0 && M * stride <= WORD
    ensures 0 <= idx * stride < M * stride && idx * stride % WORD == idx * stride
  {
    MulMonotone(idx + 1, M, stride);
    MulMonotone(0, idx, stride);
    UniqueSort.SmallMod(idx * stride, WORD);
  }

  lemma LearnedIsSorted(fs: seq<Feature>, val: Word -> real, stride: nat, M: nat, size: nat)
    requires stride > 0 && size == M * stride <= WORD && UniqueSort.Below(fs, M)
    requires forall i, j :: 0 <= i <= j < |fs| ==> fs[i].idx <= fs[j].idx
    ensures Learning.Sorted(Learned(fs, val, stride)) && Learning.Within(Learned(fs, val, stride), 0, size)
  {
    var r := Learned(fs, val, stride);
    forall i | 0 <= i < |r| ensures 0 <= r[i].idx == fs[i].idx * stride < size { Spread(fs[i].idx, M, stride); }
    forall i, j | 0 <= i <= j < |r| ensures r[i].idx <= r[j].idx { MulMonotone(fs[i].idx, fs[j].idx, stride); }
  }

  /**
   * The sorted flag end to end: at the width the cache was written with, a section that comes back with `sorted` set
   * is one the learner's slices cut right, for any number of threads.
   */
  lemma SortedSectionIsOrdered(ns: seq<Namespace>, M: nat, rest: seq<Byte>,
                               val: Word -> real, stride: nat, size: nat, E: nat)
    returns (r: Section)
    requires 0 < M <= WORD && Cacheable(ns) && |ns| < 256 && stride > 0 && size == M * stride <= WORD && E > 0
    requires forall n :: 0 <= n < |ns| ==> UniqueSort.Below(ns[n].fs, M)
    ensures DecodeSection(EncodeSection(ns) + rest, M) == Some(r) && r.ns == ns
    ensures r.sorted ==> Partition.WellFormed(LearnedAll(r.ns, val, stride), size)
    ensures r.sorted ==> Partition.Ordered(LearnedAll(r.ns, val, stride), E, size)
  {
    UniqueSort.SortedFlagIsSound(ns, M, rest);
    r := DecodeSection(EncodeSection(ns) + rest, M).value;
    hide *;
    if r.sorted {
      LearnedAllSorted(ns, val, stride, M, size);
      Partition.SortedIsOrdered(LearnedAll(ns, val, stride), E, size);
    }
  }

  lemma LearnedAllSorted(ns: seq<Namespace>, val: Word -> real, stride: nat, M: nat, size: nat)
    requires stride > 0 && size == M * stride <= WORD && forall n :: 0 <= n < |ns| ==> UniqueSort.Below(ns[n].fs, M)
    requires forall n, i, j :: 0 <= n < |ns| && 0 <= i <= j < |ns[n].fs| ==> ns[n].fs[i].idx <= ns[n].fs[j].idx
    ensures Partition.WellFormed(LearnedAll(ns, val, stride), size)
  {
    hide UniqueSort.Below, Learning.Sorted, Learning.Within, Learned;
    forall n | 0 <= n < |ns|
      ensures Learning.Sorted(LearnedAll(ns, val, stride)[n])
      ensures Learning.Within(LearnedAll(ns, val, stride)[n], 0, size)
    {
      LearnedIsSorted(ns[n].fs, val, stride, M, size);
    }
  }
}
