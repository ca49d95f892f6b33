/** Powers of two and three. */
module Powers {
  function Pow2(n: nat): (p: nat)
    ensures p > 0
  {
    if n == 0 then 1 else 2 * Pow2(n - 1)
  }

  lemma {:induction false} Pow2Monotone(m: nat, n: nat)
    requires m <= n
    ensures Pow2(m) <= Pow2(n)
    decreases n - m
  {
    if m < n { Pow2Monotone(m + 1, n); }
  }

  lemma {:induction false} Pow2Sum(m: nat, n: nat)
    ensures Pow2(m + n) == Pow2(m) * Pow2(n)
  {
    if m > 0 {
      Pow2Sum(m - 1, n);
      TwiceProduct(Pow2(m - 1), Pow2(n));
    }
  }

  lemma TwiceProduct(a: int, b: int)
    ensures 2 * (a * b) == (2 * a) * b
  {
  }

  function Pow3(n: nat): (p: nat)
    ensures p > 0
  {
    if n == 0 then 1 else 3 * Pow3(n - 1)
  }

  lemma {:induction false} Pow3Monotone(m: nat, n: nat)
    requires m <= n
    ensures Pow3(m) <= Pow3(n)
    decreases n - m
  {
    if m < n { Pow3Monotone(m + 1, n); }
  }
}
