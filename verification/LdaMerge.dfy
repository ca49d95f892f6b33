/** The merging of per-document word lists in src/lda.cc: `merge_pair`, `merge`, `merge_all` and `merge_in`. */
module LdaMerge {
  import opened Features
  import opened Powers

  datatype Triple = Triple(document: nat, f: Feature)

  predicate ByIndex(s: seq<Triple>) {
    forall i, j :: 0 <= i <= j < |s| ==> s[i].f.idx <= s[j].f.idx
  }

  /** `merge_pair` on values: an entry of `dest` goes first only when strictly smaller. */
  function MergedPair(source: seq<Triple>, dest: seq<Triple>): (r: seq<Triple>)
    ensures |r| == |source| + |dest|
  {
    if source == [] then dest
    else if dest != [] && dest[0].f.idx < source[0].f.idx then [dest[0]] + MergedPair(source, dest[1..])
    else [source[0]] + MergedPair(source[1..], dest)
  }

  lemma HeadBag(s: seq<Triple>)
    requires s != []
    ensures multiset(s) == multiset{s[0]} + multiset(s[1..])
  {
    assert s == [s[0]] + s[1..];
  }

  lemma ConsBag(x: Triple, s: seq<Triple>)
    ensures multiset([x] + s) == multiset{x} + multiset(s)
  {
  }

  lemma {:induction false} MergedMultiset(source: seq<Triple>, dest: seq<Triple>)
    ensures multiset(MergedPair(source, dest)) == multiset(source) + multiset(dest)
    decreases |source| + |dest|
  {
    if source == [] {
    } else if dest != [] && dest[0].f.idx < source[0].f.idx {
      MergedMultiset(source, dest[1..]);
      HeadBag(dest);
      ConsBag(dest[0], MergedPair(source, dest[1..]));
    } else {
      MergedMultiset(source[1..], dest);
      HeadBag(source);
      ConsBag(source[0], MergedPair(source[1..], dest));
    }
  }

  predicate AtLeast(s: seq<Triple>, lo: nat) {
    forall i :: 0 <= i < |s| ==> lo <= s[i].f.idx
  }

  lemma ConsKeepsOrder(x: Triple, s: seq<Triple>)
    requires ByIndex(s) && AtLeast(s, x.f.idx)
    ensures ByIndex([x] + s) && AtLeast([x] + s, x.f.idx)
  {
    forall i, j | 0 <= i <= j < |[x] + s| ensures ([x] + s)[i].f.idx <= ([x] + s)[j].f.idx {
      if i > 0 { assert s[i - 1].f.idx <= s[j - 1].f.idx; }
    }
  }

  lemma {:induction false} MergedSorted(source: seq<Triple>, dest: seq<Triple>, lo: nat)
    requires ByIndex(source) && ByIndex(dest) && AtLeast(source, lo) && AtLeast(dest, lo)
    ensures ByIndex(MergedPair(source, dest)) && AtLeast(MergedPair(source, dest), lo)
    decreases |source| + |dest|
  {
    if source != [] {
      if dest != [] && dest[0].f.idx < source[0].f.idx {
        MergedSorted(source, dest[1..], dest[0].f.idx);
        ConsKeepsOrder(dest[0], MergedPair(source, dest[1..]));
      } else {
        MergedSorted(source[1..], dest, source[0].f.idx);
        ConsKeepsOrder(source[0], MergedPair(source[1..], dest));
      }
    }
  }

  /** The entries with index `v`, in order. */
  function OfIndex(s: seq<Triple>, v: nat): seq<Triple> {
    if s == [] then []
    else if s[0].f.idx == v then [s[0]] + OfIndex(s[1..], v)
    else OfIndex(s[1..], v)
  }

  lemma {:induction false} NoneOfIndex(s: seq<Triple>, v: nat)
    requires AtLeast(s, v + 1)
    ensures OfIndex(s, v) == []
  {
    if s != [] { NoneOfIndex(s[1..], v); }
  }

  lemma OfIndexCons(x: Triple, s: seq<Triple>, v: nat)
    ensures OfIndex([x] + s, v) == (if x.f.idx == v then [x] else []) + OfIndex(s, v)
  {
    assert ([x] + s)[1..] == s;
  }

  lemma TailOrder(s: seq<Triple>)
    requires ByIndex(s) && s != []
    ensures ByIndex(s[1..]) && AtLeast(s[1..], s[0].f.idx) && s == [s[0]] + s[1..]
  {
  }

  /** Among entries with one index those of `source` go first, and each run keeps its order. */
  lemma {:induction false} MergedTies(source: seq<Triple>, dest: seq<Triple>, v: nat)
    requires ByIndex(source) && ByIndex(dest)
    ensures OfIndex(MergedPair(source, dest), v) == OfIndex(source, v) + OfIndex(dest, v)
    decreases |source| + |dest|
  {
    if source != [] {
      var s := source[0];
      TailOrder(source);
      if dest != [] && dest[0].f.idx < s.f.idx {
        TailOrder(dest);
        MergedTies(source, dest[1..], v);
        OfIndexCons(dest[0], MergedPair(source, dest[1..]), v);
        OfIndexCons(dest[0], dest[1..], v);
        if dest[0].f.idx == v { NoneOfIndex(source, v); }
      } else {
        MergedTies(source[1..], dest, v);
        OfIndexCons(s, MergedPair(source[1..], dest), v);
        OfIndexCons(s, source[1..], v);
      }
    }
  }

  // ------------------------------------------------------------ the merge in place

  /** What is left to merge of `source` from `i` and of `dest` from `q` on. */
  ghost predicate Rest(source: seq<Triple>, dest: seq<Triple>, i: nat, q: nat) {
    i <= |source| && q <= |dest| && MergedPair(source[i..], dest[q..]) == MergedPair(source, dest)[i + q..]
  }

  lemma RestStart(source: seq<Triple>, dest: seq<Triple>)
    ensures Rest(source, dest, 0, 0)
  {
    assert source[0..] == source && dest[0..] == dest && MergedPair(source, dest)[0..] == MergedPair(source, dest);
  }

  lemma RestDest(source: seq<Triple>, dest: seq<Triple>, i: nat, q: nat)
    requires Rest(source, dest, i, q) && i < |source| && q < |dest| && dest[q].f.idx < source[i].f.idx
    ensures Rest(source, dest, i, q + 1) && MergedPair(source, dest)[i + q] == dest[q]
  {
    var m := MergedPair(source, dest);
    assert dest[q..][1..] == dest[q + 1..];
    assert m[i + q..] == [dest[q]] + MergedPair(source[i..], dest[q + 1..]);
    assert m[i + q..][1..] == m[i + (q + 1)..];
  }

  lemma RestSource(source: seq<Triple>, dest: seq<Triple>, i: nat, q: nat)
    requires Rest(source, dest, i, q) && i < |source| && (q == |dest| || dest[q].f.idx >= source[i].f.idx)
    ensures Rest(source, dest, i + 1, q) && MergedPair(source, dest)[i + q] == source[i]
  {
    var m := MergedPair(source, dest);
    assert source[i..][1..] == source[i + 1..];
    assert m[i + q..] == [source[i]] + MergedPair(source[i + 1..], dest[q..]);
    assert m[i + q..][1..] == m[(i + 1) + q..];
  }

  lemma RestEnd(source: seq<Triple>, dest: seq<Triple>, q: nat)
    requires Rest(source, dest, |source|, q)
    ensures forall p :: |source| + q <= p < |source| + |dest| ==> MergedPair(source, dest)[p] == dest[p - |source|]
  {
    var m := MergedPair(source, dest);
    forall p | |source| + q <= p < |source| + |dest| ensures m[p] == dest[p - |source|] {
      assert m[|source| + q..][p - |source| - q] == dest[q..][p - |source| - q];
    }
  }

  /** `memmove` of the first `n` entries up by `by`, from the last one down. */
  method MoveUp(dest: array<Triple>, n: nat, shift: nat)
    requires shift + n <= dest.Length
    modifies dest
    ensures dest[shift..shift + n] == old(dest[..n])
  {
    ghost var s := dest[..];
    var k := n;
    while k > 0
      invariant 0 <= k <= n
      invariant forall i :: 0 <= i < k ==> dest[i] == s[i]
      invariant forall i :: k <= i < n ==> dest[shift + i] == s[i]
    {
      k := k - 1;
      dest[shift + k] := dest[k];
    }
  }

  /** The inner loop of `merge_pair`: entries of `dest` below the next one of `source`. */
  method TakeSmaller(dest: array<Triple>, source: seq<Triple>, i: nat, oldStart: nat, newStart: nat, limit: nat,
                     ghost d: seq<Triple>)
    returns (oldIndex: nat, newIndex: nat)
    requires i < |source| <= oldStart <= limit == |source| + |d| <= dest.Length
    requires newStart == i + oldStart - |source| && Rest(source, d, i, oldStart - |source|)
    requires forall p :: oldStart <= p < limit ==> dest[p] == d[p - |source|]
    requires forall p :: 0 <= p < newStart ==> dest[p] == MergedPair(source, d)[p]
    modifies dest
    ensures oldStart <= oldIndex <= limit && newIndex == i + oldIndex - |source|
    ensures Rest(source, d, i, oldIndex - |source|)
    ensures oldIndex == limit || d[oldIndex - |source|].f.idx >= source[i].f.idx
    ensures forall p :: oldIndex <= p < limit ==> dest[p] == d[p - |source|]
    ensures forall p :: 0 <= p < newIndex ==> dest[p] == MergedPair(source, d)[p]
  {
    hide *;
    oldIndex, newIndex := oldStart, newStart;
    while oldIndex < limit && dest[oldIndex].f.idx < source[i].f.idx
      invariant oldStart <= oldIndex <= limit && newIndex == i + oldIndex - |source|
      invariant Rest(source, d, i, oldIndex - |source|)
      invariant forall p :: oldIndex <= p < limit ==> dest[p] == d[p - |source|]
      invariant forall p :: 0 <= p < newIndex ==> dest[p] == MergedPair(source, d)[p]
    {
      RestDest(source, d, i, oldIndex - |source|);
      dest[newIndex] := dest[oldIndex];
      oldIndex, newIndex := oldIndex + 1, newIndex + 1;
    }
  }

  /** The merging loop: `d`, moved up to make room, is merged with `source` from the bottom. */
  method MergeUp(dest: array<Triple>, source: seq<Triple>, limit: nat, ghost d: seq<Triple>)
    requires limit == |source| + |d| <= dest.Length
    requires forall p :: |source| <= p < limit ==> dest[p] == d[p - |source|]
    modifies dest
    ensures forall p :: 0 <= p < limit ==> dest[p] == MergedPair(source, d)[p]
  {
    RestStart(source, d);
    hide *;
    var oldIndex, newIndex := |source|, 0;
    for i := 0 to |source|
      invariant |source| <= oldIndex <= limit && newIndex == i + oldIndex - |source|
      invariant Rest(source, d, i, oldIndex - |source|)
      invariant forall p :: oldIndex <= p < limit ==> dest[p] == d[p - |source|]
      invariant forall p :: 0 <= p < newIndex ==> dest[p] == MergedPair(source, d)[p]
    {
      oldIndex, newIndex := TakeSmaller(dest, source, i, oldIndex, newIndex, limit, d);
      RestSource(source, d, i, oldIndex - |source|);
      dest[newIndex] := source[i];
      newIndex := newIndex + 1;
    }
    RestEnd(source, d, oldIndex - |source|);
  }

  /** `reserve`: a longer array that starts with the same entries. */
  method Enlarge(dest: array<Triple>, limit: nat) returns (bigger: array<Triple>)
    requires dest.Length < limit
    ensures fresh(bigger) && bigger.Length == limit && bigger[..dest.Length] == dest[..]
  {
    bigger := new Triple[limit];
    for k := 0 to dest.Length
      invariant forall i :: 0 <= i < k ==> bigger[i] == dest[i]
    {
      bigger[k] := dest[k];
    }
  }

  /**
   * `merge_pair` in the destination's own memory, enlarged first if it is too short: the write position never passes
   * the read position, so no entry is overwritten before it is read.
   */
  method MergePair(source: seq<Triple>, dest: array<Triple>, destSize: nat) returns (merged: array<Triple>)
    requires destSize <= dest.Length
    modifies dest
    ensures |source| + destSize <= merged.Length
    ensures merged[..|source| + destSize] == MergedPair(source, old(dest[..destSize]))
    ensures if |source| + destSize <= dest.Length then merged == dest
            else fresh(merged) && forall i :: 0 <= i < dest.Length ==> dest[i] == old(dest[i])
  {
    ghost var d := dest[..destSize];
    hide MergedPair;
    var limit := |source| + destSize;
    merged := dest;
    if dest.Length < limit {
      merged := Enlarge(dest, limit);
      assert merged[..destSize] == merged[..dest.Length][..destSize] == d;
    }
    MoveUp(merged, destSize, |source|);
    assert forall p :: |source| <= p < limit ==> merged[p] == merged[|source|..limit][p - |source|];
    MergeUp(merged, source, limit, d);
    PrefixIs(merged[..], limit, MergedPair(source, d));
  }

  lemma PrefixIs(a: seq<Triple>, limit: nat, m: seq<Triple>)
    requires limit == |m| <= |a| && forall p :: 0 <= p < limit ==> a[p] == m[p]
    ensures a[..limit] == m
  {
  }

  // ------------------------------------------------------------ the set of runs

  function Contents(sets: seq<seq<Triple>>): multiset<Triple> {
    if sets == [] then multiset{} else Contents(sets[..|sets| - 1]) + multiset(sets[|sets| - 1])
  }

  predicate AllSorted(sets: seq<seq<Triple>>) {
    forall i :: 0 <= i < |sets| ==> ByIndex(sets[i])
  }

  /** Every run is at most half as long as the one before it. */
  predicate Halving(sets: seq<seq<Triple>>) {
    forall i :: 0 < i < |sets| ==> 2 * |sets[i]| <= |sets[i - 1]|
  }

  lemma HalvingFront(sets: seq<seq<Triple>>, j: nat)
    requires 0 < j <= |sets| && Halving(sets[..j])
    ensures Halving(sets[..j - 1])
  {
    assert sets[..j][..j - 1] == sets[..j - 1];
  }

  lemma HalvingSnoc(sets: seq<seq<Triple>>)
    requires sets != [] && Halving(sets[..|sets| - 1])
    requires |sets| > 1 ==> 2 * |sets[|sets| - 1]| <= |sets[|sets| - 2]|
    ensures Halving(sets)
  {
    var low := sets[..|sets| - 1];
    forall i | 0 < i < |sets| ensures 2 * |sets[i]| <= |sets[i - 1]| {
      if i < |low| { assert 2 * |low[i]| <= |low[i - 1]|; }
    }
  }

  /** The top run merged into the one below it. */
  function MergeTop(sets: seq<seq<Triple>>): seq<seq<Triple>>
    requires |sets| >= 2
  {
    sets[..|sets| - 2] + [MergedPair(sets[|sets| - 1], sets[|sets| - 2])]
  }

  lemma ContentsSnoc(low: seq<seq<Triple>>, run: seq<Triple>)
    ensures Contents(low + [run]) == Contents(low) + multiset(run)
  {
    assert (low + [run])[..|low|] == low;
  }

  lemma MergeTopContents(sets: seq<seq<Triple>>)
    requires |sets| >= 2
    ensures Contents(MergeTop(sets)) == Contents(sets)
  {
    hide Contents, MergedPair;
    var n := |sets|;
    var low, s, d := sets[..n - 2], sets[n - 1], sets[n - 2];
    MergedMultiset(s, d);
    ContentsSnoc(low, MergedPair(s, d));
    ContentsSnoc(low, d);
    ContentsSnoc(low + [d], s);
    assert sets == low + [d] + [s];
  }

  lemma MergeTopSorted(sets: seq<seq<Triple>>)
    requires |sets| >= 2 && AllSorted(sets)
    ensures AllSorted(MergeTop(sets))
  {
    MergedSorted(sets[|sets| - 1], sets[|sets| - 2], 0);
  }

  function Size(sets: seq<seq<Triple>>): nat {
    if sets == [] then 0 else |sets[0]| + Size(sets[1..])
  }

  /** The runs from `j` on are one, the others are as they were, and every run taken in below the top was less than
      twice as long as what stood on it. */
  ghost predicate MergedFrom(before: seq<seq<Triple>>, sets: seq<seq<Triple>>, j: nat) {
    && |sets| == j + 1 <= |before| && sets[..j] == before[..j] && |sets[j]| == Size(before[j..])
    && forall i :: j < i < |before| ==> 2 * Size(before[i..]) > |before[i - 1]|
  }

  lemma NothingMerged(sets: seq<seq<Triple>>)
    requires sets != []
    ensures MergedFrom(sets, sets, |sets| - 1)
  {
    var top := sets[|sets| - 1..];
    assert top[0] == sets[|sets| - 1] && top[1..] == [];
  }

  lemma OneMoreMerged(before: seq<seq<Triple>>, sets: seq<seq<Triple>>, j: nat)
    requires j > 0 && MergedFrom(before, sets, j) && 2 * |sets[j]| > |sets[j - 1]|
    ensures MergedFrom(before, MergeTop(sets), j - 1)
  {
    assert before[j - 1..][1..] == before[j..];
    assert sets[j - 1] == sets[..j][j - 1] == before[..j][j - 1] == before[j - 1];
    assert sets[..j - 1] == sets[..j][..j - 1] == before[..j][..j - 1] == before[..j - 1];
    assert MergeTop(sets)[..j - 1] == sets[..j - 1];
  }

  /** What `merge` has done before it looks at runs `j` and `j - 1`. */
  ghost predicate Merging(before: seq<seq<Triple>>, sets: seq<seq<Triple>>, j: nat) {
    && MergedFrom(before, sets, j) && Contents(sets) == Contents(before)
    && (AllSorted(before) ==> AllSorted(sets))
    && (Halving(before[..|before| - 1]) ==> Halving(sets[..j]))
  }

  lemma MergingStart(sets: seq<seq<Triple>>)
    requires sets != []
    ensures Merging(sets, sets, |sets| - 1)
  {
    NothingMerged(sets);
  }

  lemma MergingStep(before: seq<seq<Triple>>, sets: seq<seq<Triple>>, j: nat)
    requires j > 0 && |sets| == j + 1 && Merging(before, sets, j) && 2 * |sets[j]| > |sets[j - 1]|
    ensures |MergeTop(sets)| == j && Merging(before, MergeTop(sets), j - 1)
  {
    hide MergedFrom, Contents, AllSorted, Halving, MergedPair;
    OneMoreMerged(before, sets, j);
    MergeTopContents(sets);
    if AllSorted(sets) { MergeTopSorted(sets); }
    if Halving(sets[..j]) { HalvingFront(sets, j); }
    assert MergeTop(sets)[..j - 1] == sets[..j - 1];
  }

  lemma MergingEnd(before: seq<seq<Triple>>, sets: seq<seq<Triple>>)
    requires sets != [] && Merging(before, sets, |sets| - 1)
    requires |sets| > 1 ==> 2 * |sets[|sets| - 1]| <= |sets[|sets| - 2]|
    ensures Contents(sets) == Contents(before) && MergedFrom(before, sets, |sets| - 1)
    ensures AllSorted(before) ==> AllSorted(sets)
    ensures |before| > 0 && (Halving(before[..|before| - 1]) ==> Halving(sets))
  {
    assert |before| > 0;
    hide MergedFrom, Contents, AllSorted, Halving;
    if Halving(sets[..|sets| - 1]) { HalvingSnoc(sets); }
  }

  class MergeSet {
    var sets: seq<seq<Triple>>

    constructor ()
      ensures sets == []
    {
      sets := [];
    }

    /** `merge`: the top runs are merged while a run is more than half as long as the one below it. */
    method Merge()
      requires sets != []
      modifies this
      ensures sets != [] && Contents(sets) == old(Contents(sets))
      ensures old(AllSorted(sets)) ==> AllSorted(sets)
      ensures |sets| > 1 ==> 2 * |sets[|sets| - 1]| <= |sets[|sets| - 2]|
      ensures old(Halving(sets[..|sets| - 1])) ==> Halving(sets)
      ensures MergedFrom(old(sets), sets, |sets| - 1)
    {
      ghost var before := sets;
      MergingStart(sets);
      hide *;
      var j := |sets| - 1;
      while j > 0 && |sets[j]| * 2 > |sets[j - 1]|
        invariant j == |sets| - 1 && 0 <= j && Merging(before, sets, j)
      {
        MergingStep(before, sets, j);
        sets := MergeTop(sets);
        j := j - 1;
      }
      MergingEnd(before, sets);
    }

    /** `merge_all`. */
    method MergeAll()
      requires sets != []
      modifies this
      ensures |sets| == 1 && multiset(sets[0]) == old(Contents(sets))
      ensures old(AllSorted(sets)) ==> ByIndex(sets[0])
    {
      var j := |sets| - 1;
      while j > 0
        invariant j == |sets| - 1 && 0 <= j
        invariant Contents(sets) == old(Contents(sets))
        invariant old(AllSorted(sets)) ==> AllSorted(sets)
      {
        MergeTopContents(sets);
        if AllSorted(sets) { MergeTopSorted(sets); }
        sets := MergeTop(sets);
        j := j - 1;
      }
      assert sets[..0] == [];
    }

    /** `merge_in`: one run per namespace of the document, then `merge`. */
    method MergeIn(namespaces: seq<seq<Feature>>, document: nat)
      requires sets != [] || namespaces != []
      modifies this
      ensures sets != [] && Contents(sets) == old(Contents(sets)) + OfDocument(namespaces, document)
      ensures old(AllSorted(sets)) && AllOrdered(namespaces) ==> AllSorted(sets)
      ensures |namespaces| == 1 && old(Halving(sets)) ==> Halving(sets)
    {
      ghost var before := sets;
      NoRun(namespaces, document);
      hide *;
      for i := 0 to |namespaces|
        invariant |sets| == |before| + i && sets[..|before|] == before
        invariant Contents(sets) == Contents(before) + OfDocument(namespaces[..i], document)
        invariant AllSorted(before) && AllOrdered(namespaces) ==> AllSorted(sets)
      {
        PushRun(sets, namespaces, i, document);
        sets := sets + [Tagged(namespaces[i], document)];
      }
      assert namespaces[..|namespaces|] == namespaces;
      assert |namespaces| == 1 ==> sets[..|sets| - 1] == before;
      Merge();
    }
  }

  lemma NoRun(namespaces: seq<seq<Feature>>, document: nat)
    ensures OfDocument(namespaces[..0], document) == multiset{}
  {
  }

  lemma PushRun(sets: seq<seq<Triple>>, namespaces: seq<seq<Feature>>, i: nat, document: nat)
    requires i < |namespaces|
    ensures var run := Tagged(namespaces[i], document);
      && Contents(sets + [run]) == Contents(sets) + multiset(run)
      && OfDocument(namespaces[..i + 1], document) == OfDocument(namespaces[..i], document) + multiset(run)
      && (AllSorted(sets) && AllOrdered(namespaces) ==> AllSorted(sets + [run]))
  {
    var run := Tagged(namespaces[i], document);
    ContentsSnoc(sets, run);
    assert namespaces[..i + 1][..i] == namespaces[..i];
    assert AllOrdered(namespaces) ==> ByIndex(run);
  }

  /** The loop of `merge_in` over one namespace. */
  function Tagged(fs: seq<Feature>, document: nat): (r: seq<Triple>)
    ensures |r| == |fs| && forall i :: 0 <= i < |fs| ==> r[i] == Triple(document, fs[i])
  {
    seq(|fs|, i requires 0 <= i < |fs| => Triple(document, fs[i]))
  }

  predicate AllOrdered(namespaces: seq<seq<Feature>>) {
    forall n, i, j :: 0 <= n < |namespaces| && 0 <= i <= j < |namespaces[n]| ==>
      namespaces[n][i].idx <= namespaces[n][j].idx
  }

  /** The (document, feature) pairs of one document. */
  function OfDocument(namespaces: seq<seq<Feature>>, document: nat): multiset<Triple> {
    if namespaces == [] then multiset{}
    else (OfDocument(namespaces[..|namespaces| - 1], document)
          + multiset(Tagged(namespaces[|namespaces| - 1], document)))
  }

  /** The pairs of documents `0, 1, ...`. */
  function OfAll(documents: seq<seq<seq<Feature>>>): multiset<Triple> {
    if documents == [] then multiset{}
    else OfAll(documents[..|documents| - 1]) + OfDocument(documents[|documents| - 1], |documents| - 1)
  }

  /** All features of a document, namespace by namespace. */
  function Words(namespaces: seq<seq<Feature>>): seq<Feature> {
    if namespaces == [] then [] else Words(namespaces[..|namespaces| - 1]) + namespaces[|namespaces| - 1]
  }

  lemma {:induction false} TaggedCount(fs: seq<Feature>, document: nat, t: Triple)
    ensures multiset(Tagged(fs, document))[t] == if t.document == document then multiset(fs)[t.f] else 0
  {
    if fs != [] {
      var front, x := fs[..|fs| - 1], fs[|fs| - 1];
      TaggedCount(front, document, t);
      assert fs == front + [x];
      assert Tagged(fs, document) == Tagged(front, document) + [Triple(document, x)];
    }
  }

  lemma {:induction false} DocumentCount(namespaces: seq<seq<Feature>>, document: nat, t: Triple)
    ensures OfDocument(namespaces, document)[t]
         == if t.document == document then multiset(Words(namespaces))[t.f] else 0
  {
    hide Tagged;
    if namespaces != [] {
      var n := |namespaces| - 1;
      DocumentCount(namespaces[..n], document, t);
      TaggedCount(namespaces[n], document, t);
    }
  }

  /** A feature is paired with a document as often as it stands in that document. */
  lemma {:induction false} AllCount(documents: seq<seq<seq<Feature>>>, t: Triple)
    ensures OfAll(documents)[t]
         == if t.document < |documents| then multiset(Words(documents[t.document]))[t.f] else 0
  {
    hide OfDocument, Words;
    if documents != [] {
      var n := |documents| - 1;
      AllCount(documents[..n], t);
      DocumentCount(documents[n], n, t);
    }
  }

  /** A minibatch: after all documents were merged in, `merge_all` leaves every pair, sorted by weight index. */
  method MergeDocuments(documents: seq<seq<seq<Feature>>>) returns (words: seq<Triple>)
    requires documents != [] && documents[0] != []
    requires forall d :: 0 <= d < |documents| ==> AllOrdered(documents[d])
    ensures ByIndex(words) && multiset(words) == OfAll(documents)
  {
    var m := new MergeSet();
    assert documents[..0] == [];
    for d := 0 to |documents|
      invariant (d > 0 ==> m.sets != []) && AllSorted(m.sets)
      invariant Contents(m.sets) == OfAll(documents[..d])
    {
      assert documents[..d + 1][..d] == documents[..d];
      m.MergeIn(documents[d], d);
    }
    assert documents[..|documents|] == documents;
    m.MergeAll();
    words := m.sets[0];
  }

  /** Halving runs are few: `n` of them, none empty, need `2^(n-1)` entries in the first. */
  lemma {:induction false} FewRuns(sets: seq<seq<Triple>>)
    requires Halving(sets) && sets != [] && sets[|sets| - 1] != []
    ensures |sets[0]| >= Pow2(|sets| - 1)
  {
    if |sets| > 1 {
      assert Halving(sets[1..]) by {
        forall i | 0 < i < |sets[1..]| ensures 2 * |sets[1..][i]| <= |sets[1..][i - 1]| {
          assert 2 * |sets[i + 1]| <= |sets[i + 1 - 1]|;
        }
      }
      FewRuns(sets[1..]);
      assert 2 * |sets[1]| <= |sets[1 - 1]|;
    }
  }
}
