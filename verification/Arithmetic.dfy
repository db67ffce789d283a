/** Facts about division that byte-wise encodings rest on. */
module Arithmetic {
  function Pow256(k: nat): (p: nat)
    ensures p > 0
  {
    if k == 0 then 1 else 256 * Pow256(k - 1)
  }

  lemma NonzeroMultiple(d: int, k: int)
    requires d > 0
    ensures k >= 1 ==> d * k >= d
    ensures k <= -1 ==> d * k <= -d
  {
    if k >= 1 {
      assert d * k >= d * 1;
    } else if k <= -1 {
      assert d * k <= d * -1;
    }
  }

  lemma QuotientUnique(d: int, q: int, r: int, q': int, r': int)
    requires d * q + r == d * q' + r' && 0 <= r < d && 0 <= r' < d
    ensures q == q' && r == r'
  {
    assert d * (q - q') == r' - r;
    NonzeroMultiple(d, q - q');
  }

  lemma DivUnique(n: int, d: int, q: int, r: int)
    requires d > 0 && n == d * q + r && 0 <= r < d
    ensures n / d == q && n % d == r
  {
    QuotientUnique(d, q, r, n / d, n % d);
  }

  lemma Scale(a: int, x: int, y: int)
    requires a >= 0 && x <= y
    ensures a * x <= a * y
  {
  }

  lemma Regroup(a: int, b: int, x: int, y: int)
    ensures a * (b * x + y) == (a * b) * x + a * y
  {
  }

  lemma DivDiv(n: nat, a: nat, b: nat)
    requires a > 0 && b > 0
    ensures a * b > 0 && n / a / b == n / (a * b)
  {
    Scale(a, 1, b);
    DivDivAux(n, a, b, n / a, n % a, n / a / b, n / a % b);
  }

  lemma DivDivAux(n: nat, a: nat, b: nat, q: nat, r: nat, q2: nat, r2: nat)
    requires a > 0 && b > 0 && a * b > 0
    requires n == a * q + r && r < a && q == b * q2 + r2 && r2 < b
    ensures n / (a * b) == q2
  {
    Regroup(a, b, q2, r2);
    Scale(a, r2, b - 1);
    Regroup(a, b, 1, -1);
    DivUnique(n, a * b, q2, a * r2 + r);
  }

  // Adding a multiple of 256 * p changes neither the last byte nor, up to a multiple of p, the rest.
  lemma AddMultiple(n: nat, q: nat, p: nat)
    ensures (n + q * (256 * p)) % 256 == n % 256
    ensures (n + q * (256 * p)) / 256 == n / 256 + q * p
  {
    assert q * (256 * p) == 256 * (q * p);
    DivUnique(n + q * (256 * p), 256, n / 256 + q * p, n % 256);
  }
}
