/** Facts about products, kept apart so that other proofs stay linear. */
module Multiplication {
  lemma Distributes(a: int, b: int, s: int)
    ensures (a + b) * s == a * s + b * s
  {
  }

  lemma Associates(a: int, b: int, c: int)
    ensures a * (b * c) == (a * b) * c
  {
  }

  lemma Commutes(a: int, b: int)
    ensures a * b == b * a
  {
  }

  lemma NonNegative(a: nat, b: nat)
    ensures 0 <= a * b
  {
  }

  /** Multiples of `s` are at least `s` apart. */
  lemma Spaced(i: int, j: int, s: nat)
    requires i < j
    ensures i * s + s <= j * s
  {
    var k := j - i - 1;
    Distributes(i, k + 1, s);
    Distributes(k, 1, s);
    NonNegative(k, s);
  }

  /** Each of the `n` blocks of `s` bytes that fit in `size` ends within `size`. */
  lemma BlockFits(i: nat, s: nat, size: nat)
    requires 0 < s && i < Quotient(size, s)
    ensures i * s + s <= size
  {
    Spaced(i, Quotient(size, s), s);
    QuotientFits(size, s);
  }

  /** `a / b` by repeated subtraction, see QuotientIsDivision. */
  function Quotient(a: nat, b: nat): nat
    requires 0 < b
    decreases a
  {
    if a < b then 0 else 1 + Quotient(a - b, b)
  }

  /** As many whole blocks of `b` as the quotient says fit in `a`. */
  lemma {:induction false} QuotientFits(a: nat, b: nat)
    requires 0 < b
    ensures Quotient(a, b) * b <= a < Quotient(a, b) * b + b
    decreases a
  {
    if a >= b {
      QuotientFits(a - b, b);
      Distributes(Quotient(a - b, b), 1, b);
    }
  }

  lemma QuotientIsDivision(a: nat, b: nat)
    requires 0 < b
    ensures Quotient(a, b) == a / b
  {
    var q := Quotient(a, b);
    QuotientFits(a, b);
    assert a == a / b * b + a % b;
    if q < a / b {
      Spaced(q, a / b, b);
    } else if a / b < q {
      Spaced(a / b, q, b);
    }
  }
}
