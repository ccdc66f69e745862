/** Division by a variable, for the modules that count in rounds and groups. */
module Arithmetic {
  lemma Grows(x: int, y: int, k: nat)
    requires x <= y
    ensures x * k <= y * k
  {
    assert y * k == x * k + (y - x) * k;
  }

  lemma Far(x: int, k: nat)
    requires x != 0
    ensures x * k >= k || x * k + k <= 0
  {
    if x > 0 { Grows(1, x, k); } else { Grows(x, -1, k); }
  }

  lemma Positive(x: int, k: nat)
    requires x * k > 0
    ensures x > 0
  {
    if x <= 0 { Grows(x, 0, k); }
  }

  lemma DivMod(n: nat, k: nat, q: nat, s: nat)
    requires s < k && n == q * k + s
    ensures n / k == q && n % k == s
  {
    var a, b := n / k, n % k;
    assert (a - q) * k == s - b;
    if a != q { Far(a - q, k); }
  }

  lemma DivBound(m: nat, k: nat, c: nat)
    requires k > 0 && m < k * c + k
    ensures m / k <= c
  {
    var a := m / k;
    assert m == a * k + m % k && (c + 1) * k == k * c + k;
    if a > c { Grows(c + 1, a, k); }
  }

  lemma DivBelow(m: nat, k: nat, c: nat)
    requires k > 0 && m >= k * c
    ensures c <= m / k
  {
    var a := m / k;
    assert m == a * k + m % k && (a + 1) * k == a * k + k && k * c == c * k;
    if c > a { Grows(a + 1, c, k); }
  }
}
