/** The bytes of the cache themselves, so that files written before can be read (src/cache.cc). */
module CacheFormat {
  import opened Modulus
  import opened Basics
  import opened CacheCodec
  import CachedExample

  // ------------------------------------------------------------ numbers

  lemma LowDigit(i: nat)
    ensures (i % 128 + 128) % 128 == i % 128 == i / Pow128(0) % 128
  {
  }

  lemma NextDigit(i: nat, j: nat)
    requires j > 0
    ensures i / Pow128(j) == i / 128 / Pow128(j - 1)
  {
    DivTwice(i, 128, Pow128(j - 1));
  }

  /** Byte j holds base-128 digit j, and its top bit says whether another byte follows; the last digit is not zero
      unless it is the only one. */
  lemma {:induction false} DigitsAre(i: nat, j: nat)
    requires j < |RunLenEncode(i)|
    ensures var bs := RunLenEncode(i);
      && bs[j] % 128 == i / Pow128(j) % 128
      && (bs[j] >= 128 <==> j + 1 < |bs|)
      && (|bs| > 1 ==> bs[|bs| - 1] > 0)
    decreases i
  {
    LowDigit(i);
    if i >= 128 {
      DigitsAre(i / 128, if j > 0 then j - 1 else 0);
      if j > 0 { NextDigit(i, j); }
      hide Pow128;
      assert RunLenEncode(i) == [i % 128 + 128] + RunLenEncode(i / 128);
    }
  }

  lemma {:induction false} LittleEndianAre(n: nat, k: nat, j: nat)
    requires j < k
    ensures LittleEndian(n, k)[j] == n / Pow256(j) % 256
    decreases k
  {
    if j > 0 {
      LittleEndianAre(n / 256, k - 1, j - 1);
      DivTwice(n, 256, Pow256(j - 1));
    }
  }

  /** How far from zero a signed number is, the negative ones one less. */
  function Distance(n: int): nat {
    if n >= 0 then n else -n - 1
  }

  /** ZigZag lists the signed numbers by distance from zero, 0, -1, 1, -2, ..., without a gap. */
  lemma ZigZagOrders(n: int, m: int)
    requires -0x8000_0000 <= n < 0x8000_0000 && -0x8000_0000 <= m < 0x8000_0000
    ensures ZigZagEncode(n) < ZigZagEncode(m)
       <==> Distance(n) < Distance(m) || (Distance(n) == Distance(m) && n >= 0 > m)
  {
  }

  // ------------------------------------------------------------ one example, byte for byte

  /** Indices 1, 0 and 100 with values 1, -1 and 2 under namespace `a`. */
  const SAMPLE := Namespace(97, [Feature(1, 0x3F80_0000), Feature(0, 0xBF80_0000), Feature(100, 0x4000_0000)])

  lemma SampleFeatures()
    ensures EncodeFeature(SAMPLE.fs[0], 0) == [8]
    ensures EncodeFeature(SAMPLE.fs[1], 1) == [5]
    ensures EncodeFeature(SAMPLE.fs[2], 0) == [162, 6, 0, 0, 0, 64]
  {
    assert Delta(1, 0) == 1 && Delta(0, 1) == -1 && Delta(100, 0) == 100;
    assert Packed(1, 0, One) == 8 && Packed(0, 1, MinusOne) == 5 && Packed(100, 0, General) == 802;
    assert RunLenEncode(8) == [8] && RunLenEncode(5) == [5];
    assert RunLenEncode(802) == [162] + RunLenEncode(6) == [162, 6];
    SampleValue();
  }

  lemma SampleValue()
    ensures LittleEndian(0x4000_0000, 4) == [0, 0, 0, 64]
  {
    assert LittleEndian(64, 1) == [64];
    assert LittleEndian(64 * 256, 2) == [0] + LittleEndian(64, 1) == [0, 64];
    assert LittleEndian(64 * 256 * 256, 3) == [0] + LittleEndian(64 * 256, 2) == [0, 0, 64];
  }

  lemma {:induction false} EncodesZero(k: nat)
    ensures LittleEndian(0, k) == seq(k, i => 0)
  {
    if k > 0 { EncodesZero(k - 1); }
  }

  lemma SmallLength(n: Byte)
    ensures LittleEndian(n, 8) == [n, 0, 0, 0, 0, 0, 0, 0]
  {
    EncodesZero(7);
    assert LittleEndian(n, 8) == [n] + LittleEndian(0, 7);
  }

  lemma FirstThenRest(f: Feature, fs: seq<Feature>, last: Word)
    ensures EncodeFeatures([f] + fs, last) == EncodeFeature(f, last) + EncodeFeatures(fs, f.idx)
  {
    assert ([f] + fs)[1..] == fs;
  }

  lemma SamplePayload()
    ensures EncodeFeatures(SAMPLE.fs, 0) == [8, 5, 162, 6, 0, 0, 0, 64]
  {
    SampleFeatures();
    var a, b, c := SAMPLE.fs[0], SAMPLE.fs[1], SAMPLE.fs[2];
    FirstThenRest(c, [], 0);
    FirstThenRest(b, [c], 1);
    FirstThenRest(a, [b, c], 0);
    assert EncodeFeatures([], 100) == [];
    assert [c] + [] == [c] && [b] + [c] == [b, c] && [a] + [b, c] == SAMPLE.fs;
    hide EncodeFeature, EncodeFeatures;
  }

  /** The namespace, eight bytes of length, and the features: 1 after nothing, 1 down, 100 up with its value. */
  lemma SampleBlock()
    ensures EncodeBlock(SAMPLE) == [97] + [8, 0, 0, 0, 0, 0, 0, 0] + [8, 5, 162, 6, 0, 0, 0, 64]
  {
    SamplePayload();
    SmallLength(8);
    hide EncodeFeatures, LittleEndian;
  }

  lemma SampleSection()
    ensures EncodeSection([SAMPLE]) == [1] + EncodeBlock(SAMPLE)
  {
    hide EncodeBlock;
    assert [SAMPLE][1..] == [];
    assert EncodeBlocks([SAMPLE]) == EncodeBlock(SAMPLE) + EncodeBlocks([]);
  }

  lemma SampleTag()
    ensures CachedExample.EncodeTag([120]) == CachedExample.Returns([1, 0, 0, 0, 0, 0, 0, 0, 120])
  {
    SmallLength(1);
    hide LittleEndian;
    assert [1, 0, 0, 0, 0, 0, 0, 0] + [120] == [1, 0, 0, 0, 0, 0, 0, 0, 120];
  }

  /** A whole example: tag length, tag, number of namespaces, block. */
  lemma SampleExample()
    ensures CachedExample.EncodeExample([120], [SAMPLE])
         == CachedExample.Returns([1, 0, 0, 0, 0, 0, 0, 0, 120] + [1]
                                  + ([97] + [8, 0, 0, 0, 0, 0, 0, 0] + [8, 5, 162, 6, 0, 0, 0, 64]))
  {
    SampleTag();
    SampleSection();
    SampleBlock();
    hide CachedExample.EncodeTag, EncodeSection, EncodeBlock;
    var tag, block := [1, 0, 0, 0, 0, 0, 0, 0, 120], EncodeBlock(SAMPLE);
    assert tag + ([1] + block) == tag + [1] + block;
  }
}
