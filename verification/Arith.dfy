/** Facts about products, quotients and powers of two that the address arithmetic rests on. */
module Arith {
  lemma MulNonNegative(a: nat, b: nat)
    ensures a * b >= 0
  {
  }

  lemma MulPositive(a: nat, b: nat)
    requires a > 0 && b > 0
    ensures a * b > 0
  {
  }

  lemma MulAdd(a: int, b: int, s: int)
    ensures (a + b) * s == a * s + b * s
  {
  }

  lemma MulSwap(a: nat, b: nat, c: nat)
    ensures (a * b) * c == a * (c * b)
  {
  }

  lemma MulSize(d: int, s: int)
    requires s > 0
    ensures d >= 1 ==> d * s >= s
    ensures d <= -1 ==> d * s <= -s
  {
  }

  lemma MulSmall(d: int, s: int)
    requires s > 0 && -s < d * s < s
    ensures d == 0
  {
  }

  lemma DivMod(x: nat, s: nat)
    requires s > 0
    ensures x == (x / s) * s + x % s && 0 <= x % s < s
  {
  }

  lemma DivUnique(x: nat, s: nat, q: nat, r: nat)
    requires s > 0 && x == q * s + r && r < s
    ensures x / s == q && x % s == r
  {
    DivMod(x, s);
    MulAdd(q - x / s, x / s, s);
    MulSmall(q - x / s, s);
  }

  /** A digit and a remainder below the next power. */
  lemma DigitBound(a: nat, k: nat, r: nat, s: nat)
    requires a < k && r < s
    ensures a * s + r < s * k
  {
    MulAdd(a, 1, s);
    MulAdd(a + 1, k - a - 1, s);
    MulNonNegative(k - a - 1, s);
  }

  lemma DivDiv(x: nat, s: nat, k: nat)
    requires s > 0 && k > 0
    ensures s * k > 0 && x / (s * k) == x / s / k
  {
    var q, r := x / s, x % s;
    DivMod(x, s);
    DivMod(q, k);
    MulPositive(s, k);
    MulAdd(q / k * k, q % k, s);
    MulSwap(q / k, k, s);
    DigitBound(q % k, k, r, s);
    DivUnique(x, s * k, q / k, q % k * s + r);
  }

  lemma DivNat(x: nat, s: nat)
    requires s > 0
    ensures x / s >= 0
  {
  }

  lemma ModMod(x: nat, s: nat, k: nat)
    requires s > 0 && k > 0
    ensures s * k > 0 && x % (s * k) % s == x % s
  {
    MulPositive(s, k);
    var m := s * k;
    var q, r := x / m, x % m;
    DivMod(x, m);
    DivMod(r, s);
    DivNat(x, m);
    DivNat(r, s);
    MulSwap(q, k, s);
    MulAdd(q * k, r / s, s);
    DivUnique(x, s, q * k + r / s, r % s);
  }

  /** The low digit of n, shifted up by w. */
  lemma LowDigit(n: nat, w: nat, r: nat)
    requires w > 0 && r > 0
    ensures w * r > 0 && n * w % (w * r) == n % r * w
  {
    MulPositive(w, r);
    DivMod(n, r);
    DivNat(n, r);
    var q, d := n / r, n % r;
    MulAdd(q * r, d, w);
    MulSwap(q, r, w);
    DigitBound(d, r, 0, w);
    DivUnique(n * w, w * r, q, d * w);
  }

  lemma QuotientBound(n: nat, a: nat, b: nat)
    requires b > 0 && n < a * b
    ensures 0 <= n / b < a
  {
  }

  /** Shifting up by h, down by r and down by h again is shifting down by r. */
  lemma ShiftDown(n: nat, h: nat, r: nat)
    requires h > 0 && r > 0
    ensures n * h / r / h == n / r
  {
    DivDiv(n * h, r, h);
    DivDiv(n * h, h, r);
    DivUnique(n * h, h, n, 0);
    MulSwap(1, h, r);
  }

  function Pow2(n: nat): nat { if n == 0 then 1 else 2 * Pow2(n - 1) }

  lemma {:induction false} Pow2Positive(n: nat)
    ensures Pow2(n) > 0
  {
    if n > 0 { Pow2Positive(n - 1); }
  }

  lemma {:induction false} Pow2Sum(a: nat, b: nat)
    ensures Pow2(a + b) == Pow2(a) * Pow2(b)
  {
    if a > 0 {
      Pow2Sum(a - 1, b);
      assert Pow2(a + b) == 2 * Pow2(a + b - 1);
    }
  }
}
