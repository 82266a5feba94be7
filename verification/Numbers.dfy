/** Arithmetic on natural numbers shared by the models. */
module Numbers {

  /** A 32-bit register or memory word. */
  type word = x: nat | x < 0x1_0000_0000

  function Pow2(n: nat): (p: nat)
    ensures p > 0
  {
    if n == 0 then 1 else 2 * Pow2(n - 1)
  }

  /** Binary digit i of n, the lowest being digit 0. */
  function Digit(n: nat, i: nat): (d: nat)
    ensures d <= 1
  {
    if i == 0 then n % 2 else Digit(n / 2, i - 1)
  }

  function Min(a: nat, b: nat): nat { if a <= b then a else b }

  /** A product of natural numbers, by a name that proofs can leave folded. */
  function Times(a: nat, b: nat): nat { a * b }

  lemma MulMono(a: int, b: int, c: nat)
    requires a <= b
    ensures a * c <= b * c
  {
  }

  /** Quotient and remainder are the only ones there are. */
  lemma RemainderOf(x: int, d: nat, q: int, r: int)
    requires d > 0 && x == q * d + r && 0 <= r < d
    ensures x % d == r && x / d == q
  {
    assert x == (x / d) * d + x % d;
    if x / d < q {
      MulMono(x / d + 1, q, d);
    } else if x / d > q {
      MulMono(q + 1, x / d, d);
    }
  }

  lemma TimesNext(a: nat, b: nat)
    ensures Times(a + 1, b) == Times(a, b) + b
  {
  }

  lemma TimesMono(a: nat, b: nat, c: nat)
    requires a <= b
    ensures Times(a, c) <= Times(b, c)
  {
    MulMono(a, b, c);
  }

  lemma TimesSwapped(a: nat, b: nat)
    ensures Times(a, b) == Times(b, a)
  {
  }

  /** A digit by division. */
  lemma {:induction false} DigitAt(n: nat, i: nat)
    ensures Digit(n, i) == n / Pow2(i) % 2
  {
    if i > 0 {
      DigitAt(n / 2, i - 1);
      HalfFirst(n, Pow2(i - 1));
    }
  }

  lemma HalfFirst(n: nat, p: nat)
    requires p > 0
    ensures n / 2 / p == n / (2 * p)
  {
    var q, r := n / 2 / p, n / 2 % p;
    RemainderOf(n / 2, p, q, r);
    assert n / 2 == q * p + r;
    assert n == q * (2 * p) + (2 * r + n % 2);
    RemainderOf(n, 2 * p, q, 2 * r + n % 2);
  }

  lemma Powers()
    ensures Pow2(0) == 1 && Pow2(1) == 2 && Pow2(2) == 4 && Pow2(3) == 8 && Pow2(4) == 16 && Pow2(5) == 32
    ensures Pow2(6) == 64 && Pow2(7) == 128 && Pow2(8) == 256 && Pow2(9) == 512
  {
  }

  /** What is added above digit k leaves the digits below it alone, and starts there. */
  lemma {:induction false} DigitsBelow(low: nat, top: nat, k: nat, i: nat)
    requires i < k
    ensures Digit(low + top * Pow2(k), i) == Digit(low, i)
    decreases i
  {
    assert top * Pow2(k) == 2 * (top * Pow2(k - 1));
    if i > 0 { DigitsBelow(low / 2, top, k - 1, i - 1); }
  }

  lemma {:induction false} DigitAbove(low: nat, top: nat, k: nat)
    requires low < Pow2(k)
    ensures Digit(low + top * Pow2(k), k) == top % 2
    decreases k
  {
    if k > 0 {
      var rest := top * Pow2(k - 1);
      assert top * Pow2(k) == 2 * rest;
      assert (low + 2 * rest) / 2 == low / 2 + rest;
      DigitAbove(low / 2, top, k - 1);
    }
  }
}
