/** The loops of src/cache.cc that write and advance through the cache buffer, against CacheCodec. */
module CacheBuffer {
  import opened Basics
  import opened CacheCodec

  /** `after` is `before` with `bs` stored at `p`. */
  ghost predicate Wrote(before: seq<Byte>, after: seq<Byte>, p: nat, bs: seq<Byte>) {
    && |before| == |after| && p + |bs| <= |before|
    && (forall k :: 0 <= k < |before| && !(p <= k < p + |bs|) ==> after[k] == before[k])
    && (forall k :: 0 <= k < |bs| ==> after[p + k] == bs[k])
  }

  lemma WroteMore(a: seq<Byte>, b: seq<Byte>, c: seq<Byte>, p: nat, x: seq<Byte>, y: seq<Byte>)
    requires Wrote(a, b, p, x) && Wrote(b, c, p + |x|, y)
    ensures Wrote(a, c, p, x + y)
  {
    forall k | 0 <= k < |x + y| ensures c[p + k] == (x + y)[k] {
      if k >= |x| { assert c[p + |x| + (k - |x|)] == y[k - |x|]; }
    }
  }

  /** A gap left for the length and filled in last. */
  lemma WroteGap(a: seq<Byte>, b: seq<Byte>, c: seq<Byte>, d: seq<Byte>,
                 p: nat, x: seq<Byte>, gap: seq<Byte>, y: seq<Byte>)
    requires Wrote(a, b, p, x) && Wrote(b, c, p + |x| + |gap|, y) && Wrote(c, d, p + |x|, gap)
    ensures Wrote(a, d, p, x + gap + y)
  {
    var all := x + gap + y;
    forall k | 0 <= k < |all| ensures d[p + k] == all[k] {
      if k < |x| {
      } else if k < |x| + |gap| {
        assert d[p + |x| + (k - |x|)] == gap[k - |x|];
      } else {
        assert c[p + |x| + |gap| + (k - |x| - |gap|)] == y[k - |x| - |gap|];
      }
    }
  }

  method WriteByte(buf: array<Byte>, p: nat, b: Byte)
    requires p < buf.Length
    modifies buf
    ensures Wrote(old(buf[..]), buf[..], p, [b])
  {
    buf[p] := b;
  }

  lemma EncodeMore(done: seq<Byte>, i: nat)
    ensures i >= 128 ==> done + RunLenEncode(i) == (done + [i % 128 + 128]) + RunLenEncode(i / 128)
    ensures i < 128 ==> done + RunLenEncode(i) == done + [i]
  {
  }

  /** `run_len_encode`. */
  method WriteRunLen(buf: array<Byte>, start: nat, value: nat) returns (p: nat)
    requires start + |RunLenEncode(value)| <= buf.Length
    modifies buf
    ensures p == start + |RunLenEncode(value)|
    ensures Wrote(old(buf[..]), buf[..], start, RunLenEncode(value))
  {
    ghost var before, all := buf[..], RunLenEncode(value);
    ghost var done: seq<Byte> := [];
    var i := value;
    p := start;
    assert all == done + RunLenEncode(i);
    hide RunLenEncode;
    while i >= 128
      invariant all == done + RunLenEncode(i) && p == start + |done|
      invariant Wrote(before, buf[..], start, done)
      decreases i
    {
      ghost var was := buf[..];
      EncodeMore(done, i);
      WriteByte(buf, p, i % 128 + 128);
      WroteMore(before, was, buf[..], start, done, [i % 128 + 128]);
      done := done + [i % 128 + 128];
      i := i / 128;
      p := p + 1;
    }
    ghost var was := buf[..];
    EncodeMore(done, i);
    WriteByte(buf, p, i);
    WroteMore(before, was, buf[..], start, done, [i]);
    p := p + 1;
  }

  /** The store of a 4-byte value or an 8-byte length. */
  method WriteLittleEndian(buf: array<Byte>, start: nat, value: nat, k: nat)
    requires start + k <= buf.Length
    modifies buf
    ensures Wrote(old(buf[..]), buf[..], start, LittleEndian(value, k))
    decreases k
  {
    if k > 0 {
      ghost var before := buf[..];
      WriteByte(buf, start, value % 256);
      ghost var was := buf[..];
      WriteLittleEndian(buf, start + 1, value / 256, k - 1);
      WroteMore(before, was, buf[..], start, [value % 256], LittleEndian(value / 256, k - 1));
    }
  }

  /** One round of the loop of `output_features`. */
  method WriteFeature(buf: array<Byte>, start: nat, f: Feature, last: Word) returns (c: nat)
    requires start + |EncodeFeature(f, last)| <= buf.Length
    modifies buf
    ensures c == start + |EncodeFeature(f, last)|
    ensures Wrote(old(buf[..]), buf[..], start, EncodeFeature(f, last))
  {
    ghost var before := buf[..];
    var diff := ZigZagEncode(Delta(f.idx, last)) * 4 % WORD;
    hide ZigZagEncode, Delta, RunLenEncode, LittleEndian;
    if f.x == ONE {
      c := WriteRunLen(buf, start, diff);
    } else if f.x == MINUS_ONE {
      c := WriteRunLen(buf, start, diff + 1);
    } else {
      c := WriteRunLen(buf, start, diff + 2);
      ghost var was := buf[..];
      WriteLittleEndian(buf, c, f.x, 4);
      WroteMore(before, was, buf[..], start, RunLenEncode(diff + 2), LittleEndian(f.x, 4));
      c := c + 4;
    }
  }

  /** The features from `k` on still have to follow what is `done`. */
  ghost predicate Writing(fs: seq<Feature>, k: nat, last: Word, done: seq<Byte>) {
    k <= |fs| && EncodeFeatures(fs, 0) == done + EncodeFeatures(fs[k..], last)
  }

  lemma WritingStep(fs: seq<Feature>, k: nat, last: Word, done: seq<Byte>)
    requires Writing(fs, k, last, done)
    ensures k == |fs| ==> EncodeFeatures(fs, 0) == done
    ensures k < |fs| ==> Writing(fs, k + 1, fs[k].idx, done + EncodeFeature(fs[k], last))
    ensures k < |fs| ==> |done| + |EncodeFeature(fs[k], last)| <= |EncodeFeatures(fs, 0)|
  {
    if k < |fs| {
      assert fs[k..][1..] == fs[k + 1..];
      var bs, rest := EncodeFeature(fs[k], last), EncodeFeatures(fs[k + 1..], fs[k].idx);
      assert done + (bs + rest) == (done + bs) + rest;
    }
  }

  lemma WritingStart(fs: seq<Feature>)
    ensures Writing(fs, 0, 0, [])
  {
    assert fs[0..] == fs;
  }

  lemma WroteNothing(a: seq<Byte>, p: nat)
    requires p <= |a|
    ensures Wrote(a, a, p, [])
  {
  }

  method WriteFeatures(buf: array<Byte>, start: nat, fs: seq<Feature>) returns (c: nat)
    requires start + |EncodeFeatures(fs, 0)| <= buf.Length
    modifies buf
    ensures c == start + |EncodeFeatures(fs, 0)|
    ensures Wrote(old(buf[..]), buf[..], start, EncodeFeatures(fs, 0))
  {
    ghost var before, done: seq<Byte> := buf[..], [];
    var last: Word := 0;
    c := start;
    WritingStart(fs);
    WroteNothing(before, start);
    hide *;
    for i := 0 to |fs|
      invariant Writing(fs, i, last, done) && c == start + |done|
      invariant Wrote(before, buf[..], start, done)
    {
      ghost var was, bs := buf[..], EncodeFeature(fs[i], last);
      WritingStep(fs, i, last, done);
      c := WriteFeature(buf, c, fs[i], last);
      WroteMore(before, was, buf[..], start, done, bs);
      done := done + bs;
      last := fs[i].idx;
    }
    WritingStep(fs, |fs|, last, done);
  }

  /** The loop that computes `storage`. */
  method Storage(fs: seq<Feature>) returns (storage: nat)
    ensures storage == Reserved(fs)
  {
    storage := |fs| * 6;
    assert fs[0..] == fs;
    for i := 0 to |fs|
      invariant storage + Reserved(fs[i..]) == Reserved(fs) + (|fs| - i) * 6
    {
      assert fs[i..][1..] == fs[i + 1..];
      if fs[i].x != ONE && fs[i].x != MINUS_ONE {
        storage := storage + 4;
      }
    }
  }

  lemma BlockIs(index: Byte, fs: seq<Feature>)
    ensures var payload := EncodeFeatures(fs, 0);
      && EncodeBlock(Namespace(index, fs)) == [index] + LittleEndian(|payload|, 8) + payload
      && |EncodeBlock(Namespace(index, fs))| == 9 + |payload|
  {
  }

  /**
   * `output_features` in a buffer that `buf_write` found roomy enough: the block is written, its length
   * patched in last, nothing else is touched, and the end stays within the reserved region.
   */
  method OutputFeatures(buf: array<Byte>, start: nat, index: Byte, fs: seq<Feature>) returns (c: nat)
    requires start + 1 + Reserved(fs) + 8 <= buf.Length
    modifies buf
    ensures Wrote(old(buf[..]), buf[..], start, EncodeBlock(Namespace(index, fs)))
    ensures c == start + |EncodeBlock(Namespace(index, fs))| <= start + 1 + Reserved(fs) + 8
  {
    ghost var a, payload := buf[..], EncodeFeatures(fs, 0);
    WriteBound(fs, 0);
    BlockIs(index, fs);
    hide *;
    WriteByte(buf, start, index);
    ghost var b := buf[..];
    var sizeLoc := start + 1;
    c := WriteFeatures(buf, sizeLoc + 8, fs);
    ghost var d := buf[..];
    WriteLittleEndian(buf, sizeLoc, c - sizeLoc - 8, 8);
    WroteGap(a, b, d, buf[..], start, [index], LittleEndian(|payload|, 8), payload);
  }

  // ------------------------------------------------------------ reading

  /** `i | (b << 7 * count)` on a number `i` below `128^count`. */
  function ShiftIn(i: nat, b: nat, count: nat): nat {
    Product(Pow128(count), b);
    i + Pow128(count) * b
  }

  lemma Product(w: nat, b: nat)
    ensures w * b >= 0
  {
  }

  /** `all` is what the `count` digits read so far, worth `i`, and those in `bs` amount to. */
  ghost predicate Digiting(bs: seq<Byte>, k: nat, i: nat, count: nat, all: Digits) {
    && RunLenDecode(bs, k).Some?
    && all == Digits(ShiftIn(i, RunLenDecode(bs, k).value.value, count), count + RunLenDecode(bs, k).value.used)
  }

  lemma ShiftInTwice(i: nat, b: nat, v: nat, count: nat)
    ensures ShiftIn(i, b + 128 * v, count) == ShiftIn(ShiftIn(i, b, count), v, count + 1)
  {
    var w := Pow128(count);
    assert w * (b + 128 * v) == w * b + (128 * w) * v;
  }

  lemma DigitStart(bs: seq<Byte>, k: nat)
    requires RunLenDecode(bs, k).Some?
    ensures Digiting(bs, k, 0, 0, RunLenDecode(bs, k).value)
  {
  }

  lemma DigitStep(bs: seq<Byte>, k: nat, i: nat, count: nat, all: Digits)
    requires Digiting(bs, k, i, count, all)
    ensures bs != [] && k > 0
    ensures bs[0] < 128 ==> all == Digits(ShiftIn(i, bs[0], count), count + 1)
    ensures bs[0] >= 128 ==> Digiting(bs[1..], k - 1, ShiftIn(i, bs[0] - 128, count), count + 1, all)
  {
    hide ShiftIn;
    if bs[0] >= 128 {
      ShiftInTwice(i, bs[0] - 128, RunLenDecode(bs[1..], k - 1).value.value, count);
    }
  }

  /** `run_len_decode` on the bytes from `start` to `end`. */
  method ReadRunLen(buf: array<Byte>, start: nat, end: nat) returns (i: nat, p: nat)
    requires start <= end <= buf.Length && RunLenDecode(buf[start..end], 5).Some?
    ensures start < p <= end
    ensures RunLenDecode(buf[start..end], 5) == Some(Digits(i, p - start))
  {
    ghost var all := RunLenDecode(buf[start..end], 5).value;
    ghost var k: nat := 5;
    DigitStart(buf[start..end], 5);
    hide *;
    i, p := 0, start;
    var count := 0;
    DigitStep(buf[p..end], k, i, count, all);
    while buf[p] >= 128
      invariant start <= p < end && p == start + count && Digiting(buf[p..end], k, i, count, all)
      decreases end - p
    {
      DigitStep(buf[p..end], k, i, count, all);
      assert buf[p..end][0] == buf[p] && buf[p..end][1..] == buf[p + 1..end];
      i := ShiftIn(i, buf[p] - 128, count);
      count := count + 1;
      p := p + 1;
      k := k - 1;
      DigitStep(buf[p..end], k, i, count, all);
    }
    DigitStep(buf[p..end], k, i, count, all);
    assert buf[p..end][0] == buf[p];
    i := ShiftIn(i, buf[p], count);
    p := p + 1;
  }

  method ReadLittleEndian(buf: array<Byte>, start: nat, k: nat) returns (value: nat)
    requires start + k <= buf.Length
    ensures value == FromLittleEndian(buf[start..start + k])
    decreases k
  {
    if k == 0 {
      value := 0;
    } else {
      var high := ReadLittleEndian(buf, start + 1, k - 1);
      assert buf[start..start + k][1..] == buf[start + 1..start + 1 + (k - 1)];
      value := buf[start] + 256 * high;
    }
  }

  /** One round of the inner loop of `read_cached_features`. */
  method ReadFeature(buf: array<Byte>, start: nat, end: nat, last: Word) returns (idx: Word, x: Word, diff: int, c: nat)
    requires start <= end <= buf.Length && DecodeFeature(buf[start..end], last).Some?
    ensures start < c <= end
    ensures DecodeFeature(buf[start..end], last) == Some(Read(idx, x, diff, c - start))
  {
    ghost var bs := buf[start..end];
    hide RunLenDecode, FromLittleEndian, ZigZagDecode;
    var i, p := ReadRunLen(buf, start, end);
    c := p;
    var f: Word := i % WORD;
    assert bs[c - start..] == buf[c..end];
    if f % 2 == 1 {
      x := MINUS_ONE;
    } else if f / 2 % 2 == 1 {
      var value := ReadLittleEndian(buf, c, 4);
      assert bs[c - start..][..4] == buf[c..c + 4];
      x := value % WORD;
      c := c + 4;
    } else {
      x := ONE;
    }
    diff := ZigZagDecode(f / 4);
    idx := (last + diff) % WORD;
  }

  /** `all` is what was read so far together with what `bs` still holds. */
  ghost predicate Reading(bs: seq<Byte>, last: Word, M: nat, all: Decoded, fs: seq<Feature>, sorted: bool)
    requires 0 < M <= WORD
  {
    var d := DecodeFeatures(bs, last, M);
    d.Some? && all == Decoded(fs + d.value.fs, sorted && d.value.sorted)
  }

  lemma ReadingStart(bs: seq<Byte>, M: nat)
    requires 0 < M <= WORD && DecodeFeatures(bs, 0, M).Some?
    ensures Reading(bs, 0, M, DecodeFeatures(bs, 0, M).value, [], true)
  {
  }

  lemma ReadingEnd(bs: seq<Byte>, last: Word, M: nat, all: Decoded, fs: seq<Feature>, sorted: bool)
    requires 0 < M <= WORD && Reading(bs, last, M, all, fs, sorted) && bs == []
    ensures all == Decoded(fs, sorted)
  {
  }

  lemma ReadingStep(bs: seq<Byte>, last: Word, M: nat, all: Decoded, fs: seq<Feature>, sorted: bool)
    requires 0 < M <= WORD && Reading(bs, last, M, all, fs, sorted) && bs != []
    ensures DecodeFeature(bs, last).Some?
    ensures var r := DecodeFeature(bs, last).value;
      Reading(bs[r.used..], r.idx, M, all, fs + [Feature(r.idx % M, r.x)], sorted && r.diff >= 0)
  {
    hide DecodeFeature;
    var r := DecodeFeature(bs, last).value;
    var f, rest := Feature(r.idx % M, r.x), DecodeFeatures(bs[r.used..], r.idx, M).value.fs;
    assert fs + ([f] + rest) == (fs + [f]) + rest;
  }

  /** The inner loop of `read_cached_features`. */
  method ReadFeatures(buf: array<Byte>, start: nat, end: nat, M: nat) returns (fs: seq<Feature>, sorted: bool)
    requires 0 < M <= WORD && start <= end <= buf.Length && DecodeFeatures(buf[start..end], 0, M).Some?
    ensures DecodeFeatures(buf[start..end], 0, M) == Some(Decoded(fs, sorted))
  {
    ghost var all := DecodeFeatures(buf[start..end], 0, M).value;
    var c := start;
    var last: Word := 0;
    fs, sorted := [], true;
    ReadingStart(buf[c..end], M);
    hide *;
    while c != end
      invariant start <= c <= end && Reading(buf[c..end], last, M, all, fs, sorted)
      decreases end - c
    {
      ghost var bs := buf[c..end];
      ReadingStep(bs, last, M, all, fs, sorted);
      var idx, x, diff, next := ReadFeature(buf, c, end, last);
      assert bs[next - c..] == buf[next..end];
      if diff < 0 { sorted := false; }
      last := idx;
      fs := fs + [Feature(idx % M, x)];
      c := next;
    }
    ReadingEnd(buf[c..end], last, M, all, fs, sorted);
  }
}
