/** The order in which skip-grams are emitted, and the feature each of them is (`addgrams` and `generateGrams` in
    src/parser.cc). */
module GramOrder {
  import opened Features
  import opened GramHash
  import opened SkipGrams

  // ------------------------------------------------------------ the order of the masks

  /** At the first place where they differ `a` is the smaller. */
  ghost predicate Lex(a: seq<nat>, b: seq<nat>) {
    exists i | 0 <= i < |a| && i < |b| :: a[..i] == b[..i] && a[i] < b[i]
  }

  ghost predicate LexOrdered(ms: seq<seq<nat>>) {
    forall p, q :: 0 <= p < q < |ms| ==> Lex(ms[p], ms[q])
  }

  lemma VisitedExtends(ngram: nat, skipGram: nat, mask: seq<nat>, skips: nat, m: seq<nat>)
    requires mask != [] && m in Visits(ngram, skipGram, mask, skips)
    ensures Extends(ngram, skipGram, mask, skips, m)
  {
    VisitsExactlyOnce(ngram, skipGram, mask, skips, m);
    hide Visits, Extends;
    assert m in multiset(Visits(ngram, skipGram, mask, skips));
  }

  /** The near word comes before any word further on. */
  lemma NearFirst(ngram: nat, skipGram: nat, mask: seq<nat>, skips: nat, a: seq<nat>, b: seq<nat>)
    requires mask != [] && ngram > 0 && skipGram > 0
    requires Extends(ngram - 1, skipGram, mask + [Last(mask) + 1 + skips], 0, a)
    requires Extends(ngram, skipGram - 1, mask, skips + 1, b)
    ensures Lex(a, b)
  {
    var next, i := mask + [Last(mask) + 1 + skips], |mask|;
    assert a[..i] == next[..i] == mask == b[..i];
    assert a[i] == next[i] < b[i];
  }

  lemma LexJoin(a: seq<seq<nat>>, b: seq<seq<nat>>)
    requires LexOrdered(a) && LexOrdered(b) && forall x, y :: x in a && y in b ==> Lex(x, y)
    ensures LexOrdered(a + b)
  {
    hide Lex;
    var c := a + b;
    forall p, q | 0 <= p < q < |c| ensures Lex(c[p], c[q]) {
      if q < |a| {
        assert c[p] == a[p] && c[q] == a[q];
      } else if p < |a| {
        assert c[p] in a && c[q] in b;
      } else {
        assert c[p] == b[p - |a|] && c[q] == b[q - |a|];
      }
    }
  }

  /** The masks are visited in lexicographic order. */
  lemma {:induction false} VisitsInOrder(ngram: nat, skipGram: nat, mask: seq<nat>, skips: nat)
    requires mask != []
    ensures LexOrdered(Visits(ngram, skipGram, mask, skips))
    decreases ngram, skipGram
  {
    hide Lex;
    if ngram > 0 {
      var next := mask + [Last(mask) + 1 + skips];
      var near := Visits(ngram - 1, skipGram, next, 0);
      VisitsInOrder(ngram - 1, skipGram, next, 0);
      if skipGram > 0 {
        var far := Visits(ngram, skipGram - 1, mask, skips + 1);
        VisitsInOrder(ngram, skipGram - 1, mask, skips + 1);
        assert Visits(ngram, skipGram, mask, skips) == near + far;
        forall a, b | a in near && b in far ensures Lex(a, b) {
          VisitedExtends(ngram - 1, skipGram, next, 0, a);
          VisitedExtends(ngram, skipGram - 1, mask, skips + 1, b);
          hide Visits, Extends;
          NearFirst(ngram, skipGram, mask, skips, a, b);
        }
        LexJoin(near, far);
      }
    }
  }

  // ------------------------------------------------------------ the order of the grams

  /** Fewer words first, then the smaller mask, then the earlier start. */
  ghost predicate Before(g: Gram, h: Gram) {
    || |g.mask| < |h.mask|
    || (|g.mask| == |h.mask| && Lex(g.mask, h.mask))
    || (g.mask == h.mask && g.start < h.start)
  }

  ghost predicate InOrder(gs: seq<Gram>) {
    forall p, q :: 0 <= p < q < |gs| ==> Before(gs[p], gs[q])
  }

  lemma Join(a: seq<Gram>, b: seq<Gram>)
    requires InOrder(a) && InOrder(b) && forall g, h :: g in a && h in b ==> Before(g, h)
    ensures InOrder(a + b)
  {
    hide Before;
    var c := a + b;
    forall p, q | 0 <= p < q < |c| ensures Before(c[p], c[q]) {
      if q < |a| {
        assert c[p] == a[p] && c[q] == a[q];
      } else if p < |a| {
        assert c[p] in a && c[q] in b;
      } else {
        assert c[p] == b[p - |a|] && c[q] == b[q - |a|];
      }
    }
  }

  lemma OneMask(mask: seq<nat>, length: nat)
    requires Topped(mask)
    ensures InOrder(GramsOf(mask, length, 0)) && forall g :: g in GramsOf(mask, length, 0) ==> g.mask == mask
  {
    GramsOfAt(mask, length, 0);
    hide GramsOf, Topped;
  }

  lemma MaskOf(ms: seq<seq<nat>>, length: nat, g: Gram)
    requires AllMasks(ms) && g in Grams(ms, length)
    ensures g.mask in ms
  {
    GramsCount(ms, length, g);
    hide Grams, AllMasks;
    assert g in multiset(Grams(ms, length));
    assert g.mask in multiset(ms);
  }

  lemma {:induction false} GramsInOrder(ms: seq<seq<nat>>, length: nat, n: nat)
    requires AllMasks(ms) && LexOrdered(ms) && forall m :: m in ms ==> |m| == n
    ensures InOrder(Grams(ms, length))
  {
    hide Lex;
    if ms != [] {
      var first, rest := GramsOf(ms[0], length, 0), Grams(ms[1..], length);
      OneMask(ms[0], length);
      assert LexOrdered(ms[1..]) && forall m :: m in ms[1..] ==> m in ms;
      GramsInOrder(ms[1..], length, n);
      assert Grams(ms, length) == first + rest;
      hide GramsOf, Grams, Topped, InOrder;
      forall g, h | g in first && h in rest ensures Before(g, h) {
        MaskOf(ms[1..], length, h);
        var q :| 1 <= q < |ms| && ms[q] == h.mask;
        assert Lex(ms[0], ms[q]) && ms[0] in ms && ms[q] in ms;
      }
      Join(first, rest);
    }
  }

  lemma OrderInOrder(n: nat, k: nat, length: nat)
    ensures InOrder(GramsOfOrder(n, k, length))
    ensures forall g :: g in GramsOfOrder(n, k, length) ==> |g.mask| == n + 1
  {
    var ms := Visits(n, k, [0], 0);
    VisitsAreMasks(n, k, [0], 0);
    VisitsInOrder(n, k, [0], 0);
    forall m | m in ms ensures |m| == n + 1 { VisitedExtends(n, k, [0], 0, m); }
    hide Visits, LexOrdered, Topped;
    GramsInOrder(ms, length, n + 1);
    forall g | g in Grams(ms, length) ensures |g.mask| == n + 1 { MaskOf(ms, length, g); }
  }

  /** The grams are generated by their number of words, then by mask, then by where they start. */
  lemma {:induction false} GeneratedInOrder(ngram: nat, k: nat, length: nat)
    ensures InOrder(Generated(ngram, k, length))
    ensures forall g :: g in Generated(ngram, k, length) ==> |g.mask| <= ngram
  {
    if ngram > 1 {
      GeneratedInOrder(ngram - 1, k, length);
      OrderInOrder(ngram - 1, k, length);
      hide GramsOfOrder, InOrder, Lex;
      Join(Generated(ngram - 1, k, length), GramsOfOrder(ngram - 1, k, length));
    }
  }

  // ------------------------------------------------------------ the features

  /** Every gram becomes one feature, in the order of the grams. */
  lemma {:induction false} EmittedAt(words: seq<Feature>, gs: seq<Gram>, M: nat, j: nat)
    requires M > 0 && AllFit(gs, |words|) && j < |gs|
    ensures |EmittedAll(words, gs, M)| == |gs| && EmittedAll(words, gs, M)[j] == Emitted(words, gs[j], M)
  {
    hide Emitted, Fits;
    var n := |gs| - 1;
    if j < n {
      EmittedAt(words, gs[..n], M, j);
    } else if n > 0 {
      EmittedAt(words, gs[..n], M, 0);
    }
  }

  /** Feature j that `generateGrams` appends has value one and, as index, the masked polynomial in the indices of gram
      j's words. */
  lemma GeneratedFeature(words: seq<Feature>, ngram: nat, k: nat, M: nat, j: nat)
    requires M > 0 && j < |Generated(ngram, k, |words|)|
    ensures AllFit(Generated(ngram, k, |words|), |words|)
    ensures var gs := Generated(ngram, k, |words|);
      var features := EmittedAll(words, gs, M);
      && |features| == |gs|
      && features[j]
         == Feature(1.0, Polynomial(GramWords(words, gs[j].start, gs[j].mask, |gs[j].mask|)) % WIDE % M)
  {
    var gs := Generated(ngram, k, |words|);
    GeneratedFit(ngram, k, |words|);
    GeneratedExactlyOnce(ngram, k, |words|, gs[j]);
    hide Generated, EmittedAll, Polynomial, Emitted;
    assert gs[j] in multiset(gs);
    assert AllFit(gs, |words|);
    EmittedAt(words, gs, M, j);
    EmittedFeature(words, gs[j], M);
  }
}
