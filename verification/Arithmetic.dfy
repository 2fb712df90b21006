/** Division of naturals, as far as the schedules and the codecs need it. */
module Arithmetic {

  lemma MulLe(a: nat, b: nat, c: nat)
    requires a <= b
    ensures a * c <= b * c
  {
  }

  lemma DivUnique(a: nat, b: nat, q: nat, r: nat)
    requires b > 0 && r < b && a == q * b + r
    ensures a / b == q && a % b == r
  {
    var d, e := a / b, a % b;
    assert a == d * b + e;
    assert (d + 1) * b == d * b + b && (q + 1) * b == q * b + b;
    if d < q { MulLe(d + 1, q, b); }
    if q < d { MulLe(q + 1, d, b); }
  }

  lemma DivMonotone(a: nat, b: nat, d: nat)
    requires d > 0 && a <= b
    ensures a / d <= b / d
  {
    var p, q := a / d, b / d;
    assert a == p * d + a % d && b == q * d + b % d;
    assert (q + 1) * d == q * d + d;
    if q < p { MulLe(q + 1, p, d); }
  }

  lemma ModSmall(n: nat, p: nat)
    requires p > 0
    ensures n % p < p
    ensures n % p == n <==> n < p
  {
    if n < p { DivUnique(n, p, 0, n); }
  }

  lemma ScaleProduct(q: nat, p: nat)
    ensures q * (256 * p) == 256 * (q * p)
  {
  }

  /** Splitting off the lowest byte commutes with reducing modulo a multiple of 256. */
  lemma ModByte(n: nat, p: nat)
    requires p > 0
    ensures n % (256 * p) == n % 256 + 256 * (n / 256 % p)
  {
    var lo, hi := n % 256, n / 256;
    var q, r := hi / p, hi % p;
    assert hi == q * p + r;
    ScaleProduct(q, p);
    DivUnique(n, 256 * p, q, lo + 256 * r);
  }
}
