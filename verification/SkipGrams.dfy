/** Skip-gram enumeration (`addgrams` and `generateGrams` in src/parser.cc). */
module SkipGrams {
  import opened Features
  import opened GramHash

  function Last(mask: seq<nat>): nat
    requires mask != []
  {
    mask[|mask| - 1]
  }

  // ------------------------------------------------------------ the masks visited

  /** The complete offset masks `addgrams` reaches, in the order it reaches them. */
  function Visits(ngram: nat, skipGram: nat, mask: seq<nat>, skips: nat): seq<seq<nat>>
    requires mask != []
    decreases ngram, skipGram
  {
    if ngram == 0 then [mask]
    else
      var near := Visits(ngram - 1, skipGram, mask + [Last(mask) + 1 + skips], 0);
      if skipGram == 0 then near else near + Visits(ngram, skipGram - 1, mask, skips + 1)
  }

  predicate Increasing(m: seq<nat>) {
    forall i :: 0 < i < |m| ==> m[i - 1] < m[i]
  }

  /**
   * `m` extends `mask` by `ngram` increasing offsets, the first of which skips at least `skips` positions,
   * and skips at most `skipGram` more than that in all.
   */
  predicate Extends(ngram: nat, skipGram: nat, mask: seq<nat>, skips: nat, m: seq<nat>)
    requires mask != []
  {
    && |m| == |mask| + ngram && mask <= m
    && (forall i :: |mask| <= i < |m| ==> m[i - 1] < m[i])
    && (ngram > 0 ==> Last(mask) + skips < m[|mask|])
    && (ngram > 0 ==> Last(m) <= Last(mask) + ngram + skips + skipGram)
  }

  lemma {:induction false} SpanAtLeast(m: seq<nat>, i: nat)
    requires 0 < i <= |m| && forall j :: i <= j < |m| ==> m[j - 1] < m[j]
    ensures m[i - 1] + (|m| - i) <= Last(m)
    decreases |m| - i
  {
    if i < |m| { SpanAtLeast(m, i + 1); }
  }

  /** The two calls divide the masks by where the next offset lies. */
  lemma ExtendsSplit(ngram: nat, skipGram: nat, mask: seq<nat>, skips: nat, m: seq<nat>)
    requires mask != [] && ngram > 0
    ensures var next := mask + [Last(mask) + 1 + skips];
      Extends(ngram, skipGram, mask, skips, m) ==
        (Extends(ngram - 1, skipGram, next, 0, m)
         || (skipGram > 0 && Extends(ngram, skipGram - 1, mask, skips + 1, m)))
    ensures !(Extends(ngram - 1, skipGram, mask + [Last(mask) + 1 + skips], 0, m)
              && skipGram > 0 && Extends(ngram, skipGram - 1, mask, skips + 1, m))
  {
    var next := mask + [Last(mask) + 1 + skips];
    if |m| == |mask| + ngram && mask <= m {
      assert next <= m <==> m[|mask|] == Last(mask) + 1 + skips by {
        if m[|mask|] == Last(mask) + 1 + skips {
          assert m[..|mask| + 1] == next;
        }
      }
      if forall i :: |mask| <= i < |m| ==> m[i - 1] < m[i] {
        SpanAtLeast(m, |mask| + 1);
      }
    }
    if Extends(ngram - 1, skipGram, next, 0, m) {
      assert m[|mask|] == next[|mask|] == Last(mask) + 1 + skips;
      assert mask == next[..|mask|] <= m;
    }
  }

  lemma VisitsBase(skipGram: nat, mask: seq<nat>, skips: nat, m: seq<nat>)
    requires mask != []
    ensures multiset(Visits(0, skipGram, mask, skips))[m] == if Extends(0, skipGram, mask, skips, m) then 1 else 0
  {
    assert m == mask <==> |m| == |mask| && mask <= m;
  }

  lemma VisitsSplit(ngram: nat, skipGram: nat, mask: seq<nat>, skips: nat, m: seq<nat>)
    requires mask != [] && ngram > 0
    ensures multiset(Visits(ngram, skipGram, mask, skips))[m]
         == multiset(Visits(ngram - 1, skipGram, mask + [Last(mask) + 1 + skips], 0))[m]
          + if skipGram > 0 then multiset(Visits(ngram, skipGram - 1, mask, skips + 1))[m] else 0
  {
  }

  /** Every extension is reached, exactly once, and nothing else is. */
  lemma {:induction false} VisitsExactlyOnce(ngram: nat, skipGram: nat, mask: seq<nat>, skips: nat, m: seq<nat>)
    requires mask != []
    ensures multiset(Visits(ngram, skipGram, mask, skips))[m]
         == if Extends(ngram, skipGram, mask, skips, m) then 1 else 0
    decreases ngram, skipGram
  {
    hide Visits, Extends;
    if ngram == 0 {
      VisitsBase(skipGram, mask, skips, m);
    } else {
      VisitsSplit(ngram, skipGram, mask, skips, m);
      ExtendsSplit(ngram, skipGram, mask, skips, m);
      VisitsExactlyOnce(ngram - 1, skipGram, mask + [Last(mask) + 1 + skips], 0, m);
      if skipGram > 0 {
        VisitsExactlyOnce(ngram, skipGram - 1, mask, skips + 1, m);
      }
    }
  }

  /** The masks of an n-gram: from offset 0, strictly increasing, with at most `k` positions skipped in all. */
  predicate IsMask(n: nat, k: nat, m: seq<nat>) {
    |m| == n + 1 && m[0] == 0 && Increasing(m) && Last(m) <= n + k
  }

  lemma MasksExactlyOnce(n: nat, k: nat, m: seq<nat>)
    ensures multiset(Visits(n, k, [0], 0))[m] == if IsMask(n, k, m) then 1 else 0
  {
    VisitsExactlyOnce(n, k, [0], 0, m);
    assert |m| > 0 && m[0] == 0 <==> [0] <= m;
  }

  /** The limit is on the total: one skip after each word is not allowed with `k` one, two in a row with `k` two are. */
  lemma SkipsAreCountedTogether()
    ensures multiset(Visits(2, 1, [0], 0))[[0, 2, 4]] == 0
    ensures multiset(Visits(2, 2, [0], 0))[[0, 1, 4]] == 1
  {
    hide Visits;
    MasksExactlyOnce(2, 1, [0, 2, 4]);
    MasksExactlyOnce(2, 2, [0, 1, 4]);
  }

  // ------------------------------------------------------------ the features emitted

  /** A gram is a start position and a mask. */
  datatype Gram = Gram(start: nat, mask: seq<nat>)

  function GramsOf(mask: seq<nat>, length: nat, i: nat): seq<Gram>
    requires mask != []
    decreases length - i
  {
    if i + Last(mask) >= length then [] else [Gram(i, mask)] + GramsOf(mask, length, i + 1)
  }

  /** The last offset is the largest. */
  predicate Topped(mask: seq<nat>) {
    mask != [] && forall i :: 0 <= i < |mask| ==> mask[i] <= Last(mask)
  }

  predicate AllMasks(ms: seq<seq<nat>>) {
    forall j :: 0 <= j < |ms| ==> Topped(ms[j])
  }

  /** One gram per mask and start position that fits, in the order emitted. */
  function Grams(ms: seq<seq<nat>>, length: nat): seq<Gram>
    requires AllMasks(ms)
  {
    if ms == [] then [] else GramsOf(ms[0], length, 0) + Grams(ms[1..], length)
  }

  lemma {:induction false} GramsOfExactlyOnce(mask: seq<nat>, length: nat, i: nat, g: Gram)
    requires mask != []
    ensures multiset(GramsOf(mask, length, i))[g]
         == if g.mask == mask && i <= g.start && g.start + Last(mask) < length then 1 else 0
    decreases length - i
  {
    if i + Last(mask) < length {
      GramsOfExactlyOnce(mask, length, i + 1, g);
    }
  }

  /** A gram is emitted as often as its mask is visited, if it fits, and never otherwise. */
  lemma HeadCount(ms: seq<seq<nat>>, mask: seq<nat>)
    requires ms != []
    ensures multiset(ms)[mask] == multiset{ms[0]}[mask] + multiset(ms[1..])[mask]
  {
    assert ms == [ms[0]] + ms[1..];
  }

  lemma {:induction false} GramsCount(ms: seq<seq<nat>>, length: nat, g: Gram)
    requires AllMasks(ms)
    ensures multiset(Grams(ms, length))[g]
         == if g.mask != [] && g.start + Last(g.mask) < length then multiset(ms)[g.mask] else 0
  {
    if ms != [] {
      GramsCount(ms[1..], length, g);
      GramsOfExactlyOnce(ms[0], length, 0, g);
      assert Grams(ms, length) == GramsOf(ms[0], length, 0) + Grams(ms[1..], length);
      hide GramsOf, Grams, Topped;
      HeadCount(ms, g.mask);
    }
  }

  lemma {:induction false} VisitsAreMasks(ngram: nat, skipGram: nat, mask: seq<nat>, skips: nat)
    requires Topped(mask)
    ensures AllMasks(Visits(ngram, skipGram, mask, skips))
    decreases ngram, skipGram
  {
    if ngram > 0 {
      var next := mask + [Last(mask) + 1 + skips];
      assert Topped(next);
      VisitsAreMasks(ngram - 1, skipGram, next, 0);
      if skipGram > 0 {
        VisitsAreMasks(ngram, skipGram - 1, mask, skips + 1);
      }
    }
  }

  /** All grams of one call of `addgrams` from `generateGrams`. */
  function GramsOfOrder(n: nat, k: nat, length: nat): seq<Gram> {
    VisitsAreMasks(n, k, [0], 0);
    Grams(Visits(n, k, [0], 0), length)
  }

  /**
   * `n + 1` words with at most `k` skipped in all make a gram exactly once, wherever they fit in the namespace.
   */
  lemma GramsExactlyOnce(n: nat, k: nat, length: nat, g: Gram)
    ensures multiset(GramsOfOrder(n, k, length))[g]
         == if IsMask(n, k, g.mask) && g.start + Last(g.mask) < length then 1 else 0
  {
    VisitsAreMasks(n, k, [0], 0);
    GramsCount(Visits(n, k, [0], 0), length, g);
    MasksExactlyOnce(n, k, g.mask);
  }

  lemma {:induction false} GramsConcat(a: seq<seq<nat>>, b: seq<seq<nat>>, length: nat)
    requires AllMasks(a) && AllMasks(b)
    ensures AllMasks(a + b) && Grams(a + b, length) == Grams(a, length) + Grams(b, length)
  {
    hide GramsOf, Topped;
    if a == [] {
      assert a + b == b;
    } else {
      assert (a + b)[1..] == a[1..] + b;
      GramsConcat(a[1..], b, length);
    }
  }

  // ------------------------------------------------------------ addgrams

  /** The hash of a gram's first `n` words. */
  function Hash(words: seq<Feature>, i: nat, mask: seq<nat>, n: nat): nat
    requires 0 < n <= |mask| && i < |words|
    requires forall j :: 0 <= j < n ==> i + mask[j] < |words|
  {
    if n == 1 then words[i].idx
    else Round(Hash(words, i, mask, n - 1), words[i + mask[n - 1]].idx)
  }

  /** The indices of the first `n` words of a gram. */
  function GramWords(words: seq<Feature>, i: nat, mask: seq<nat>, n: nat): (xs: seq<nat>)
    requires n <= |mask| && forall j :: 0 <= j < n ==> i + mask[j] < |words|
    ensures |xs| == n && forall j :: 0 <= j < n ==> xs[j] == words[i + mask[j]].idx
  {
    seq(n, j requires 0 <= j < n => words[i + mask[j]].idx)
  }

  /** The hash is the polynomial in all of the gram's words. */
  lemma {:induction false} HashIsPolynomial(words: seq<Feature>, i: nat, mask: seq<nat>, n: nat)
    requires 0 < n <= |mask| && i < |words| && mask[0] == 0
    requires forall j :: 0 <= j < n ==> i + mask[j] < |words|
    ensures Hash(words, i, mask, n) % WIDE == Polynomial(GramWords(words, i, mask, n)) % WIDE
    ensures n > 1 ==> Hash(words, i, mask, n) == Polynomial(GramWords(words, i, mask, n)) % WIDE
    decreases n
  {
    var xs := GramWords(words, i, mask, n - 1);
    var x := words[i + mask[n - 1]].idx;
    assert GramWords(words, i, mask, n) == xs + [x];
    if n == 1 {
      OneWord(x);
      assert xs + [x] == [x];
    } else {
      HashIsPolynomial(words, i, mask, n - 1);
      hide Polynomial, Round;
      RoundOnResidues(Hash(words, i, mask, n - 1), xs, x);
    }
  }

  /** The feature of a gram over the original words of the namespace. */
  function Emitted(words: seq<Feature>, g: Gram, M: nat): Feature
    requires M > 0 && Fits(g, |words|)
  {
    Feature(1.0, Hash(words, g.start, g.mask, |g.mask|) % M)
  }

  /** What is emitted for a gram of two words or more: a feature of value one at the masked polynomial. */
  lemma EmittedFeature(words: seq<Feature>, g: Gram, M: nat)
    requires M > 0 && Fits(g, |words|) && g.mask[0] == 0 && |g.mask| > 1
    ensures Emitted(words, g, M) == Feature(1.0, Polynomial(GramWords(words, g.start, g.mask, |g.mask|)) % WIDE % M)
  {
    HashIsPolynomial(words, g.start, g.mask, |g.mask|);
  }

  predicate Fits(g: Gram, length: nat) {
    g.mask != [] && g.start < length && forall j :: 0 <= j < |g.mask| ==> g.start + g.mask[j] < length
  }

  function EmittedAll(words: seq<Feature>, gs: seq<Gram>, M: nat): seq<Feature>
    requires M > 0 && forall j :: 0 <= j < |gs| ==> Fits(gs[j], |words|)
  {
    if gs == [] then [] else EmittedAll(words, gs[..|gs| - 1], M) + [Emitted(words, gs[|gs| - 1], M)]
  }

  lemma {:induction false} GramsOfFit(mask: seq<nat>, length: nat, i: nat)
    requires Topped(mask)
    ensures forall j :: 0 <= j < |GramsOf(mask, length, i)| ==> Fits(GramsOf(mask, length, i)[j], length)
    decreases length - i
  {
    if i + Last(mask) < length { GramsOfFit(mask, length, i + 1); }
  }

  lemma {:induction false} GramsFit(ms: seq<seq<nat>>, length: nat)
    requires AllMasks(ms)
    ensures forall j :: 0 <= j < |Grams(ms, length)| ==> Fits(Grams(ms, length)[j], length)
  {
    if ms != [] {
      GramsOfFit(ms[0], length, 0);
      GramsFit(ms[1..], length);
    }
  }

  predicate AllFit(gs: seq<Gram>, length: nat) {
    forall j :: 0 <= j < |gs| ==> Fits(gs[j], length)
  }

  lemma {:induction false} EmittedConcat(words: seq<Feature>, a: seq<Gram>, b: seq<Gram>, M: nat)
    requires M > 0 && AllFit(a, |words|) && AllFit(b, |words|)
    ensures AllFit(a + b, |words|) && EmittedAll(words, a + b, M) == EmittedAll(words, a, M) + EmittedAll(words, b, M)
  {
    if b == [] {
      assert a + b == a;
    } else {
      var n := |b| - 1;
      assert (a + b)[..|a + b| - 1] == a + b[..n];
      EmittedConcat(words, a, b[..n], M);
    }
  }

  lemma {:induction false} GramsOfAt(mask: seq<nat>, length: nat, i: nat)
    requires Topped(mask)
    ensures |GramsOf(mask, length, i)| == if i + Last(mask) < length then length - Last(mask) - i else 0
    ensures forall j :: 0 <= j < |GramsOf(mask, length, i)| ==> GramsOf(mask, length, i)[j] == Gram(i + j, mask)
    decreases length - i
  {
    if i + Last(mask) < length { GramsOfAt(mask, length, i + 1); }
  }

  /** The features a list of masks gives over `words`. */
  function FeaturesOf(words: seq<Feature>, ms: seq<seq<nat>>, M: nat): seq<Feature>
    requires M > 0 && AllMasks(ms)
  {
    GramsFit(ms, |words|);
    EmittedAll(words, Grams(ms, |words|), M)
  }

  lemma FeaturesConcat(words: seq<Feature>, a: seq<seq<nat>>, b: seq<seq<nat>>, M: nat)
    requires M > 0 && AllMasks(a) && AllMasks(b)
    ensures AllMasks(a + b) && FeaturesOf(words, a + b, M) == FeaturesOf(words, a, M) + FeaturesOf(words, b, M)
  {
    GramsConcat(a, b, |words|);
    GramsFit(a, |words|);
    GramsFit(b, |words|);
    EmittedConcat(words, Grams(a, |words|), Grams(b, |words|), M);
  }

  function VisitFeatures(words: seq<Feature>, ngram: nat, skipGram: nat, mask: seq<nat>, skips: nat, M: nat)
    : seq<Feature>
    requires M > 0 && Topped(mask)
  {
    VisitsAreMasks(ngram, skipGram, mask, skips);
    FeaturesOf(words, Visits(ngram, skipGram, mask, skips), M)
  }

  /** The features of the two calls follow one another. */
  lemma VisitFeaturesStep(words: seq<Feature>, ngram: nat, skipGram: nat, mask: seq<nat>, skips: nat, M: nat)
    requires M > 0 && Topped(mask) && ngram > 0
    ensures var next := mask + [Last(mask) + 1 + skips];
      && Topped(next)
      && VisitFeatures(words, ngram, skipGram, mask, skips, M)
         == VisitFeatures(words, ngram - 1, skipGram, next, 0, M)
            + if skipGram > 0 then VisitFeatures(words, ngram, skipGram - 1, mask, skips + 1, M) else []
  {
    var next := mask + [Last(mask) + 1 + skips];
    VisitsAreMasks(ngram - 1, skipGram, next, 0);
    if skipGram > 0 {
      VisitsAreMasks(ngram, skipGram - 1, mask, skips + 1);
      FeaturesConcat(words, Visits(ngram - 1, skipGram, next, 0), Visits(ngram, skipGram - 1, mask, skips + 1), M);
    }
  }

  lemma SingleMask(words: seq<Feature>, skipGram: nat, mask: seq<nat>, skips: nat, M: nat)
    requires M > 0 && Topped(mask)
    ensures AllFit(GramsOf(mask, |words|, 0), |words|)
    ensures VisitFeatures(words, 0, skipGram, mask, skips, M) == EmittedAll(words, GramsOf(mask, |words|, 0), M)
  {
    GramsOfFit(mask, |words|, 0);
    assert [mask][0] == mask && [mask][1..] == [];
    assert Grams([mask], |words|) == GramsOf(mask, |words|, 0) + [] == GramsOf(mask, |words|, 0);
  }

  class Namespace {
    var atomics: seq<Feature>
    var gramMask: seq<nat>

    constructor (atomics: seq<Feature>)
      ensures this.atomics == atomics
    {
      this.atomics, gramMask := atomics, [];
    }

    /** The hash loop of `addgrams`. */
    method HashAt(i: nat, ghost words: seq<Feature>) returns (index: nat)
      requires words <= atomics && Fits(Gram(i, gramMask), |words|)
      ensures index == Hash(words, i, gramMask, |gramMask|)
      ensures gramMask[0] == 0 && |gramMask| > 1 ==>
                index == Polynomial(GramWords(words, i, gramMask, |gramMask|)) % WIDE
    {
      index := atomics[i].idx;
      for n := 1 to |gramMask|
        invariant index == Hash(words, i, gramMask, n)
      {
        index := (index + index * QUADRATIC_CONSTANT + atomics[i + gramMask[n]].idx) % WIDE;
      }
      if gramMask[0] == 0 { HashIsPolynomial(words, i, gramMask, |gramMask|); }
    }

    /** The emitting loop: it reads only the words that were there at first. */
    method Emit(initialLength: nat, M: nat)
      requires Topped(gramMask) && M > 0 && Last(gramMask) < initialLength <= |atomics|
      modifies this`atomics
      ensures AllFit(GramsOf(gramMask, initialLength, 0), initialLength)
      ensures atomics == old(atomics)
                + EmittedAll(old(atomics)[..initialLength], GramsOf(gramMask, initialLength, 0), M)
    {
      ghost var words, gs := atomics[..initialLength], GramsOf(gramMask, initialLength, 0);
      GramsOfFit(gramMask, initialLength, 0);
      GramsOfAt(gramMask, initialLength, 0);
      hide GramsOf, Emitted;
      var last := initialLength - Last(gramMask);
      for i := 0 to last
        invariant words <= atomics && AllFit(gs[..i], initialLength)
        invariant atomics == old(atomics) + EmittedAll(words, gs[..i], M)
      {
        assert gs[i] == Gram(i, gramMask);
        var newIndex := HashAt(i, words);
        assert gs[..i + 1][..i] == gs[..i];
        EmittedIs(words, gs[i], M);
        atomics := atomics + [Feature(1.0, newIndex % M)];
      }
      assert gs[..last] == gs;
    }

    lemma EmittedIs(words: seq<Feature>, g: Gram, M: nat)
      requires M > 0 && Fits(g, |words|)
      ensures Emitted(words, g, M) == Feature(1.0, Hash(words, g.start, g.mask, |g.mask|) % M)
    {
    }

    lemma NothingFits(words: seq<Feature>, mask: seq<nat>, M: nat)
      requires Topped(mask) && M > 0 && |words| <= Last(mask)
      ensures GramsOf(mask, |words|, 0) == [] && EmittedAll(words, [], M) == []
    {
    }

    /** `addgrams` at a complete mask. */
    method EmitComplete(skipGram: nat, initialLength: nat, skips: nat, M: nat)
      requires Topped(gramMask) && M > 0 && initialLength <= |atomics|
      modifies this`atomics
      ensures atomics == old(atomics)
                + VisitFeatures(old(atomics)[..initialLength], 0, skipGram, gramMask, skips, M)
    {
      ghost var words := atomics[..initialLength];
      SingleMask(words, skipGram, gramMask, skips, M);
      hide VisitFeatures, EmittedAll, GramsOf;
      if Last(gramMask) < initialLength {
        Emit(initialLength, M);
      } else {
        NothingFits(words, gramMask, M);
      }
    }

    /** The first call of `addgrams` on itself, with the next word in the mask. */
    method AddNext(ngram: nat, skipGram: nat, initialLength: nat, skips: nat, M: nat)
      requires Topped(gramMask) && M > 0 && initialLength <= |atomics| && ngram > 0
      requires Topped(gramMask + [Last(gramMask) + 1 + skips])
      modifies this
      ensures gramMask == old(gramMask)
      ensures atomics == old(atomics) + VisitFeatures(old(atomics)[..initialLength], ngram - 1, skipGram,
                                                      gramMask + [Last(gramMask) + 1 + skips], 0, M)
      decreases ngram, skipGram, 0
    {
      ghost var mask := gramMask;
      hide VisitFeatures;
      gramMask := gramMask + [Last(gramMask) + 1 + skips];
      AddGrams(ngram - 1, skipGram, initialLength, 0, M);
      gramMask := gramMask[..|gramMask| - 1];
      assert gramMask == mask;
    }

    /**
     * `addgrams`: the features of all masks visited are appended in order, computed from the first
     * `initialLength` features only, and `gram_mask` is as it was.
     */
    method AddGrams(ngram: nat, skipGram: nat, initialLength: nat, skips: nat, M: nat)
      requires Topped(gramMask) && M > 0 && initialLength <= |atomics|
      modifies this
      ensures gramMask == old(gramMask)
      ensures atomics == old(atomics)
                + VisitFeatures(old(atomics)[..initialLength], ngram, skipGram, gramMask, skips, M)
      decreases ngram, skipGram, 2
    {
      if ngram == 0 {
        hide VisitFeatures, Topped;
        EmitComplete(skipGram, initialLength, skips, M);
      } else {
        AddBoth(ngram, skipGram, initialLength, skips, M);
      }
    }

    /** `addgrams` at an incomplete mask: the two calls on itself. */
    method AddBoth(ngram: nat, skipGram: nat, initialLength: nat, skips: nat, M: nat)
      requires Topped(gramMask) && M > 0 && initialLength <= |atomics| && ngram > 0
      modifies this
      ensures gramMask == old(gramMask)
      ensures atomics == old(atomics)
                + VisitFeatures(old(atomics)[..initialLength], ngram, skipGram, gramMask, skips, M)
      decreases ngram, skipGram, 1
    {
      ghost var before, words, mask := atomics, atomics[..initialLength], gramMask;
      VisitFeaturesStep(words, ngram, skipGram, mask, skips, M);
      assert mask != [];
      hide *;
      ghost var near := VisitFeatures(words, ngram - 1, skipGram, mask + [Last(mask) + 1 + skips], 0, M);
      AddNext(ngram, skipGram, initialLength, skips, M);
      if skipGram > 0 {
        ghost var far := VisitFeatures(words, ngram, skipGram - 1, mask, skips + 1, M);
        SamePrefix(before, near, initialLength);
        AddGrams(ngram, skipGram - 1, initialLength, skips + 1, M);
        Regroup(before, near, far);
      } else {
        Regroup(before, near, []);
      }
    }

    lemma SamePrefix(a: seq<Feature>, b: seq<Feature>, n: nat)
      requires n <= |a|
      ensures (a + b)[..n] == a[..n]
    {
    }

    lemma Regroup(a: seq<Feature>, b: seq<Feature>, c: seq<Feature>)
      ensures (a + b) + c == a + (b + c) && b + [] == b && a + [] == a
    {
    }

    /** `generateGrams` on one namespace: all orders from two words up to `ngram`, over its own features. */
    method GenerateGrams(ngram: nat, skipGram: nat, M: nat)
      requires M > 0
      modifies this
      ensures AllFit(Generated(ngram, skipGram, |old(atomics)|), |old(atomics)|)
      ensures atomics == old(atomics)
                + EmittedAll(old(atomics), Generated(ngram, skipGram, |old(atomics)|), M)
    {
      ghost var words, done: seq<Feature> := atomics, [];
      hide *;
      GeneratedNone(words, skipGram, M);
      assert atomics == words + done;
      var length, n := |atomics|, 1;
      while n < ngram
        invariant 1 <= n && (n <= ngram || n == 1) && |words| == length
        invariant GeneratedAre(words, n, skipGram, M, done) && atomics == words + done
      {
        FirstMask();
        AddOrder(n, skipGram, length, M, words, done);
        GeneratedMore(words, n, skipGram, M, done);
        done := done + VisitFeatures(words, n, skipGram, [0], 0, M);
        n := n + 1;
      }
      GeneratedAll(words, n, ngram, skipGram, M, done);
    }

    /** One order: the mask starts over with the first word alone. */
    method AddOrder(n: nat, skipGram: nat, length: nat, M: nat, ghost words: seq<Feature>, ghost done: seq<Feature>)
      requires M > 0 && length == |words| && atomics == words + done && Topped([0])
      modifies this
      ensures atomics == words + (done + VisitFeatures(words, n, skipGram, [0], 0, M))
    {
      hide *;
      gramMask := [0];
      SamePrefix(words, done, length);
      assert words[..length] == words;
      AddGrams(n, skipGram, length, 0, M);
      Regroup(words, done, VisitFeatures(words, n, skipGram, [0], 0, M));
    }

    lemma FirstMask()
      ensures Topped([0])
    {
    }
  }

  /** The grams of all orders up to `ngram` words. */
  function Generated(ngram: nat, k: nat, length: nat): seq<Gram> {
    if ngram <= 1 then [] else Generated(ngram - 1, k, length) + GramsOfOrder(ngram - 1, k, length)
  }

  /** Every gram generated fits its words. */
  lemma {:induction false} GeneratedFit(ngram: nat, k: nat, length: nat)
    ensures AllFit(Generated(ngram, k, length), length)
  {
    if ngram > 1 {
      GeneratedFit(ngram - 1, k, length);
      VisitsAreMasks(ngram - 1, k, [0], 0);
      GramsFit(Visits(ngram - 1, k, [0], 0), length);
    }
  }

  /** The features of the grams of all orders up to `n` words. */
  ghost predicate GeneratedAre(words: seq<Feature>, n: nat, k: nat, M: nat, done: seq<Feature>) {
    && M > 0 && AllFit(Generated(n, k, |words|), |words|)
    && done == EmittedAll(words, Generated(n, k, |words|), M)
  }

  lemma GeneratedNone(words: seq<Feature>, k: nat, M: nat)
    requires M > 0
    ensures GeneratedAre(words, 1, k, M, [])
  {
  }

  lemma GeneratedMore(words: seq<Feature>, n: nat, k: nat, M: nat, done: seq<Feature>)
    requires n >= 1 && GeneratedAre(words, n, k, M, done)
    ensures Topped([0]) && GeneratedAre(words, n + 1, k, M, done + VisitFeatures(words, n, k, [0], 0, M))
  {
    VisitsAreMasks(n, k, [0], 0);
    GramsFit(Visits(n, k, [0], 0), |words|);
    EmittedConcat(words, Generated(n, k, |words|), GramsOfOrder(n, k, |words|), M);
  }

  lemma GeneratedAll(words: seq<Feature>, n: nat, ngram: nat, k: nat, M: nat, done: seq<Feature>)
    requires GeneratedAre(words, n, k, M, done) && (n == ngram || (n == 1 && ngram < n))
    ensures AllFit(Generated(ngram, k, |words|), |words|)
    ensures done == EmittedAll(words, Generated(ngram, k, |words|), M)
  {
  }

  /**
   * Over the whole call: two to `ngram` words in order with at most `k` skipped between the first and the last
   * make a gram exactly once, and there are no others.
   */
  lemma {:induction false} GeneratedExactlyOnce(ngram: nat, k: nat, length: nat, g: Gram)
    ensures multiset(Generated(ngram, k, length))[g]
         == if 2 <= |g.mask| <= ngram && IsMask(|g.mask| - 1, k, g.mask) && g.start + Last(g.mask) < length
            then 1 else 0
  {
    if ngram > 1 {
      GeneratedExactlyOnce(ngram - 1, k, length, g);
      GramsExactlyOnce(ngram - 1, k, length, g);
    }
  }
}
