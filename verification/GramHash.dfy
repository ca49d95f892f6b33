/** The number a gram's word indices are hashed to (`addgrams` in src/parser.cc), as a polynomial. */
module GramHash {
  import opened Modulus

  /** The modulus of `size_t`. */
  const WIDE := 0x1_0000_0000_0000_0000

  const QUADRATIC_CONSTANT := 27942141

  function Power(b: nat, n: nat): nat {
    if n == 0 then 1 else b * Power(b, n - 1)
  }

  /** The sum of every index times `QUADRATIC_CONSTANT + 1` to the number of words after it. */
  function Polynomial(xs: seq<nat>): nat {
    if xs == [] then 0
    else xs[0] * Power(QUADRATIC_CONSTANT + 1, |xs| - 1) + Polynomial(xs[1..])
  }

  lemma Distribute(a: nat, p: nat, b: nat, r: nat)
    ensures a * (b * p) + (r * b) == (a * p + r) * b
  {
  }

  lemma {:induction false} PolynomialSnoc(xs: seq<nat>, x: nat)
    ensures Polynomial(xs + [x]) == Polynomial(xs) * (QUADRATIC_CONSTANT + 1) + x
  {
    if xs == [] {
      assert [] + [x] == [x] && [x][1..] == [];
    } else {
      PolynomialSnoc(xs[1..], x);
      assert (xs + [x])[1..] == xs[1..] + [x];
      Distribute(xs[0], Power(QUADRATIC_CONSTANT + 1, |xs| - 1), QUADRATIC_CONSTANT + 1, Polynomial(xs[1..]));
    }
  }

  lemma OneWord(x: nat)
    ensures Polynomial([x]) == x
  {
    assert [x][1..] == [];
  }

  /** One round of the hash loop: `h(a, b) = h(a) + h(a) * c + b`, in `size_t`. */
  function Round(h: nat, x: nat): nat {
    (h + h * QUADRATIC_CONSTANT + x) % WIDE
  }

  /** A round appends one index to the polynomial. */
  lemma RoundOnResidues(h: nat, xs: seq<nat>, x: nat)
    requires h % WIDE == Polynomial(xs) % WIDE
    ensures Round(h, x) == Polynomial(xs + [x]) % WIDE == Round(h, x) % WIDE
  {
    PolynomialSnoc(xs, x);
    SameRound(h, Polynomial(xs), x);
  }

  lemma SameRound(h: nat, p: nat, x: nat)
    requires h % WIDE == p % WIDE
    ensures Round(h, x) == (p * (QUADRATIC_CONSTANT + 1) + x) % WIDE
  {
    var k := QUADRATIC_CONSTANT + 1;
    assert h + h * QUADRATIC_CONSTANT == h * k;
    SameResidue(h * k + x, (h / WIDE) * k, h % WIDE * k + x);
    SameResidue(p * k + x, (p / WIDE) * k, h % WIDE * k + x);
  }

  lemma SameResidue(a: nat, q: nat, r: nat)
    requires a == q * WIDE + r
    ensures a % WIDE == r % WIDE
  {
    DivModUnique(a, WIDE, q + r / WIDE, r % WIDE);
  }

  /** Grams that differ only in their last word are hashed to different numbers. */
  lemma LastWordMatters(xs: seq<nat>, x: nat, y: nat)
    requires x < y < x + WIDE
    ensures Polynomial(xs + [x]) % WIDE != Polynomial(xs + [y]) % WIDE
  {
    PolynomialSnoc(xs, x);
    PolynomialSnoc(xs, y);
    ModApart(Polynomial(xs) * (QUADRATIC_CONSTANT + 1) + x, Polynomial(xs) * (QUADRATIC_CONSTANT + 1) + y, WIDE);
  }

  /** Bigrams of 32-bit indices that differ only in their first word, too. */
  lemma FirstWordMatters(x: nat, y: nat, z: nat)
    requires x < y < 0x1_0000_0000 && z < 0x1_0000_0000
    ensures Polynomial([x, z]) % WIDE != Polynomial([y, z]) % WIDE
  {
    PolynomialSnoc([x], z);
    PolynomialSnoc([y], z);
    assert [x] + [z] == [x, z] && [y] + [z] == [y, z] && [x][1..] == [] && [y][1..] == [];
    ModApart(x * (QUADRATIC_CONSTANT + 1) + z, y * (QUADRATIC_CONSTANT + 1) + z, WIDE);
  }
}
