/** Quotients and remainders of indices taken modulo a ring or slice size. */
module Modulus {
  lemma MulMonotone(a: int, b: int, c: nat)
    requires a <= b
    ensures a * c <= b * c
  {
  }

  /** Quotient and remainder are unique. */
  lemma DivModUnique(a: nat, E: nat, q: nat, r: nat)
    requires E > 0 && a == q * E + r && r < E
    ensures a / E == q && a % E == r
  {
    var q2 := a / E;
    assert q2 * E <= a < q2 * E + E;
    if q < q2 {
      MulMonotone(q + 1, q2, E);
    } else if q2 < q {
      MulMonotone(q2 + 1, q, E);
    }
  }

  /** Numbers less than a ring size apart fall on different slots. */
  lemma ModApart(a: nat, b: nat, R: nat)
    requires a < b < a + R
    ensures a % R != b % R
  {
    var qa, qb := a / R, b / R;
    assert a == qa * R + a % R && b == qb * R + b % R;
    if a % R == b % R {
      if qb <= qa {
        MulMonotone(qb, qa, R);
      } else {
        MulMonotone(qa + 1, qb, R);
      }
    }
  }

  /** Numbers exactly a ring size apart share one. */
  lemma ModAround(a: nat, R: nat)
    requires R > 0
    ensures (a + R) % R == a % R
  {
    assert a + R == (a / R + 1) * R + a % R;
    DivModUnique(a + R, R, a / R + 1, a % R);
  }

  lemma DivBelow(a: nat, b: nat, k: nat)
    requires b > 0
    ensures a < k * b <==> a / b < k
  {
    assert a == (a / b) * b + a % b;
    if a / b < k { MulMonotone(a / b + 1, k, b); } else { MulMonotone(k, a / b, b); }
  }

  lemma DivMonotone(a: nat, b: nat, E: nat)
    requires a <= b && E > 0
    ensures a / E <= b / E
  {
    DivBelow(a, E, b / E + 1);
    assert b == (b / E) * E + b % E;
    assert (b / E + 1) * E == (b / E) * E + E;
  }

  /** Dividing twice is dividing by the product. */
  lemma DivTwice(n: nat, b: nat, c: nat)
    requires b > 0 && c > 0
    ensures b * c > 0 && n / (b * c) == n / b / c
  {
    MulMonotone(1, b, c);
    var m := n / b;
    Quotients(n, b, c, m, n % b, m / c, m % c);
  }

  lemma Quotients(n: nat, b: nat, c: nat, m: nat, t: nat, q: nat, r: nat)
    requires n == m * b + t && t < b && m == q * c + r && r < c
    ensures b * c > 0 && n / (b * c) == q
  {
    Regrouped(q, c, r, b);
    InBlock(r, c, t, b);
    DivModUnique(n, b * c, q, r * b + t);
  }

  lemma Regrouped(q: nat, c: nat, r: nat, b: nat)
    ensures (q * c + r) * b == q * (b * c) + r * b
  {
  }

  lemma InBlock(r: nat, c: nat, t: nat, b: nat)
    requires r < c && t < b
    ensures r * b + t < b * c
  {
    MulMonotone(r + 1, c, b);
  }
}
