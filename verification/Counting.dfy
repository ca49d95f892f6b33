/** Counting and summing over the threads by a mask that says who still owes a step. */
module Counting {
  import opened Shards

  function Count(m: seq<bool>): nat {
    if m == [] then 0 else Count(m[..|m|-1]) + (if m[|m|-1] then 1 else 0)
  }

  /** The values of the threads that no longer owe their step. */
  function SumDone(m: seq<bool>, v: seq<real>): real
    requires |m| == |v|
  {
    if m == [] then 0.0 else SumDone(m[..|m|-1], v[..|m|-1]) + (if m[|m|-1] then 0.0 else v[|m|-1])
  }

  lemma {:induction false} CountOne(m: seq<bool>, i: nat)
    requires i < |m| && m[i]
    ensures Count(m[i := false]) == Count(m) - 1
  {
    var n := |m| - 1;
    if i < n {
      assert m[i := false][..n] == m[..n][i := false];
      CountOne(m[..n], i);
    } else {
      assert m[i := false][..n] == m[..n];
    }
  }

  lemma {:induction false} SumOne(m: seq<bool>, v: seq<real>, i: nat)
    requires |m| == |v| && i < |m| && m[i]
    ensures SumDone(m[i := false], v) == SumDone(m, v) + v[i]
  {
    var n := |m| - 1;
    if i < n {
      assert m[i := false][..n] == m[..n][i := false];
      SumOne(m[..n], v[..n], i);
    } else {
      assert m[i := false][..n] == m[..n];
    }
  }

  lemma {:induction false} CountNone(m: seq<bool>)
    ensures Count(m) == 0 <==> forall i :: 0 <= i < |m| ==> !m[i]
  {
    if m != [] {
      var init := m[..|m| - 1];
      CountNone(init);
      if Count(m) == 0 {
        forall i | 0 <= i < |m| ensures !m[i] {
          if i < |m| - 1 { assert !init[i]; }
        }
      }
    }
  }

  lemma {:induction false} CountAll(m: seq<bool>)
    requires forall i :: 0 <= i < |m| ==> m[i]
    ensures Count(m) == |m|
  {
    if m != [] { CountAll(m[..|m| - 1]); }
  }

  lemma {:induction false} SumNobody(m: seq<bool>, v: seq<real>)
    requires |m| == |v| && forall i :: 0 <= i < |m| ==> m[i]
    ensures SumDone(m, v) == 0.0
  {
    if m != [] { SumNobody(m[..|m| - 1], v[..|m| - 1]); }
  }

  lemma {:induction false} SumAll(m: seq<bool>, v: seq<real>)
    requires |m| == |v| && forall i :: 0 <= i < |m| ==> !m[i]
    ensures SumDone(m, v) == Sum(v)
  {
    if m != [] { SumAll(m[..|m| - 1], v[..|m| - 1]); }
  }
}
