/** Distributing examples over a grid of hosts (src/sender.cc). */
module Sender {
  import opened Modulus
  import opened Powers
  import opened Features
  import opened Partition

  /** `log_int_r`. */
  function LogInt(v: nat): nat {
    if v > 1 then 1 + LogInt(v / 2) else 0
  }

  /** The largest `n` with `2^n <= v`. */
  lemma {:induction false} LogIntIsExact(v: nat)
    requires v > 0
    ensures Pow2(LogInt(v)) <= v < 2 * Pow2(LogInt(v))
  {
    if v > 1 { LogIntIsExact(v / 2); }
  }

  /** What `find_split` owes its caller: two powers of two that use up `number` hosts to within a factor of two. */
  ghost predicate IsSplit(number: nat, pairs: bool, d1: nat, d2: nat, bits: nat) {
    && 0 < d2 <= d1 && (exists m: nat, n: nat :: d1 == Pow2(m) && d2 == Pow2(n) && m + n == bits)
    && d1 * d2 == Pow2(bits)
    && d1 * d2 <= number < 2 * (d1 * d2)
    && (if pairs then d1 <= 2 * d2 else d2 == 1)
  }

  lemma SplitOf(number: nat, pairs: bool, b: nat, a: nat)
    requires number > 0 && b + a == LogInt(number) && a == (if pairs then LogInt(number) / 2 else 0)
    ensures IsSplit(number, pairs, Pow2(b), Pow2(a), LogInt(number))
  {
    LogIntIsExact(number);
    Pow2Sum(b, a);
    Pow2Monotone(a, b);
    if pairs {
      Pow2Monotone(b, a + 1);
    }
  }

  // ------------------------------------------------------------ the slices

  /** A run of `width` consecutive parts starting at a multiple of `width`. */
  function Range(fs: seq<Feature>, E: nat, width: nat, k: nat): (r: (nat, nat))
    ensures r.0 <= |fs| && r.1 <= |fs|
  {
    (Cut(fs, E, k * width), Cut(fs, E, (k + 1) * width))
  }

  /** The features in such a run are those whose part lies in it. */
  lemma RangeIsExact(fs: seq<Feature>, E: nat, width: nat, k: nat, p: nat)
    requires E > 0 && InSliceOrder(fs, E) && width > 0 && p < |fs|
    ensures Range(fs, E, width, k).0 <= p < Range(fs, E, width, k).1 <==> PartOf(fs[p], E) / width == k
  {
    var lo, hi := k * width, (k + 1) * width;
    CutIsExact(fs, E, lo);
    CutIsExact(fs, E, hi);
    BaseIsProduct(lo, E);
    BaseIsProduct(hi, E);
    DivBelow(fs[p].idx, E, lo);
    DivBelow(fs[p].idx, E, hi);
    DivBelow(PartOf(fs[p], E), width, k);
    DivBelow(PartOf(fs[p], E), width, k + 1);
  }

  /** Whether entry `p` of a namespace goes to host `(i, j)`. */
  ghost predicate SentTo(fs: seq<Feature>, E: nat, d1: nat, d2: nat, second: bool, i: nat, j: nat, p: nat) {
    if second then Range(fs, E, d1, j).0 <= p < Range(fs, E, d1, j).1
    else Range(fs, E, d2, i).0 <= p < Range(fs, E, d2, i).1
  }

  lemma RowInGrid(part: nat, d1: nat, d2: nat)
    requires 0 < d1 && 0 < d2 && part < d1 * d2
    ensures part / d2 < d1 && part / d1 < d2
  {
    DivBelow(part, d2, d1);
    assert d1 * d2 == d2 * d1;
    DivBelow(part, d1, d2);
  }

  /**
   * Grid coverage: an entry of a first namespace and one of a second namespace meet on exactly one host, and
   * that host is in the grid.
   */
  lemma PairsMeetOnce(fs: seq<Feature>, gs: seq<Feature>, E: nat, d1: nat, d2: nat, p: nat, q: nat)
    returns (row: nat, column: nat)
    requires E > 0 && InSliceOrder(fs, E) && InSliceOrder(gs, E) && 0 < d1 && 0 < d2 && p < |fs| && q < |gs|
    requires Within(fs, 0, Base(d1 * d2, E)) && Within(gs, 0, Base(d1 * d2, E))
    ensures row < d1 && column < d2
    ensures forall i, j :: (SentTo(fs, E, d1, d2, false, i, j, p) && SentTo(gs, E, d1, d2, true, i, j, q))
                             <==> (i == row && j == column)
  {
    row, column := PartOf(fs[p], E) / d2, PartOf(gs[q], E) / d1;
    BaseIsProduct(d1 * d2, E);
    DivBelow(fs[p].idx, E, d1 * d2);
    DivBelow(gs[q].idx, E, d1 * d2);
    RowInGrid(PartOf(fs[p], E), d1, d2);
    RowInGrid(PartOf(gs[q], E), d1, d2);
    forall i: nat, j: nat
      ensures (SentTo(fs, E, d1, d2, false, i, j, p) && SentTo(gs, E, d1, d2, true, i, j, q))
                <==> (i == row && j == column)
    {
      RangeIsExact(fs, E, d2, i, p);
      RangeIsExact(gs, E, d1, j, q);
    }
  }

  /** An entry of a first namespace goes to one whole row of hosts and nowhere else. */
  lemma OneRow(fs: seq<Feature>, E: nat, d1: nat, d2: nat, p: nat) returns (row: nat)
    requires E > 0 && InSliceOrder(fs, E) && 0 < d1 && 0 < d2 && p < |fs| && Within(fs, 0, Base(d1 * d2, E))
    ensures row < d1 && forall i, j :: SentTo(fs, E, d1, d2, false, i, j, p) <==> i == row
  {
    row := PartOf(fs[p], E) / d2;
    BaseIsProduct(d1 * d2, E);
    DivBelow(fs[p].idx, E, d1 * d2);
    RowInGrid(PartOf(fs[p], E), d1, d2);
    forall i: nat, j: nat ensures SentTo(fs, E, d1, d2, false, i, j, p) <==> i == row {
      RangeIsExact(fs, E, d2, i, p);
    }
  }

  /** A namespace of the example with the boundaries `setup_example` left. */
  datatype Cached = Cached(fs: seq<Feature>, subsets: seq<nat>, second: bool)

  class Grid {
    var d1: nat
    var d2: nat

    /** `find_split`. */
    method FindSplit(number: nat, pairsExist: bool) returns (bits: nat)
      modifies this
      ensures number > 0 ==> IsSplit(number, pairsExist, d1, d2, bits)
      ensures number == 0 ==> d1 == 1 && d2 == 1 && bits == 0
    {
      d1, d2 := 1, 1;
      if number > 1 {
        var log2 := LogInt(number);
        if !pairsExist {
          SplitOf(number, pairsExist, log2, 0);
          d1 := Pow2(log2);
        } else {
          var a := log2 / 2;
          SplitOf(number, pairsExist, log2 - a, a);
          d1 := Pow2(log2 - a);
          d2 := Pow2(a);
        }
        return log2;
      }
      if number == 1 { SplitOf(number, pairsExist, 0, 0); }
      return 0;
    }

    /** `send_features`: what host `(i, j)` is sent for each namespace. */
    method SendFeatures(i: nat, j: nat, nss: seq<Cached>, E: nat) returns (slices: seq<seq<Feature>>)
      requires 0 < d1 && 0 < d2 && i < d1 && j < d2
      requires forall n :: 0 <= n < |nss| ==> nss[n].subsets == Cuts(nss[n].fs, E, d1 * d2)
      ensures |slices| == |nss|
      ensures forall n :: 0 <= n < |nss| ==>
                var r := if nss[n].second then Range(nss[n].fs, E, d1, j) else Range(nss[n].fs, E, d2, i);
                r.0 <= r.1 && slices[n] == nss[n].fs[r.0..r.1]
    {
      slices := [];
      for n := 0 to |nss|
        invariant |slices| == n
        invariant forall m :: 0 <= m < n ==>
                    var r := if nss[m].second then Range(nss[m].fs, E, d1, j) else Range(nss[m].fs, E, d2, i);
                    r.0 <= r.1 && slices[m] == nss[m].fs[r.0..r.1]
      {
        var ns := nss[n];
        var slice;
        if ns.second {
          Boundaries(ns, E, d2, d1, j);
          slice := ns.fs[ns.subsets[j * d1]..ns.subsets[(j + 1) * d1]];
        } else {
          Boundaries(ns, E, d1, d2, i);
          slice := ns.fs[ns.subsets[i * d2]..ns.subsets[(i + 1) * d2]];
        }
        slices := slices + [slice];
      }
    }

    lemma Boundaries(ns: Cached, E: nat, rows: nat, width: nat, k: nat)
      requires k < rows && (ns.subsets == Cuts(ns.fs, E, rows * width) || ns.subsets == Cuts(ns.fs, E, width * rows))
      ensures (k + 1) * width < |ns.subsets| && k * width < |ns.subsets| && k * width >= 0
      ensures ns.subsets[k * width] == Range(ns.fs, E, width, k).0
      ensures ns.subsets[(k + 1) * width] == Range(ns.fs, E, width, k).1
      ensures Range(ns.fs, E, width, k).0 <= Range(ns.fs, E, width, k).1
    {
      var total := rows * width;
      assert total == width * rows;
      MulMonotone(k + 1, rows, width);
      MulMonotone(k, k + 1, width);
      MulMonotone(0, k, width);
      CutsAt(ns.fs, E, total, k * width);
      CutsAt(ns.fs, E, total, (k + 1) * width);
      CutsRise(ns.fs, E, k * width, (k + 1) * width);
    }
  }
}
