/** Facts about remainders of symbolic moduli. */
module Arithmetic {
  lemma NoMultipleBetween(k: int, m: int)
    requires 0 < m && -m < k * m < m
    ensures k == 0
  {
  }

  lemma NextMultipleOnly(k: int, m: int)
    requires 0 < m && -m < k * m < 2 * m
    ensures k == 0 || k == 1
  {
  }

  /** Different numbers less than `m` apart have different remainders. */
  lemma RemaindersDiffer(a: nat, b: nat, m: nat)
    requires a < b < a + m
    ensures a % m != b % m
  {
    var p, q := a / m, b / m;
    assert a == p * m + a % m;
    assert b == q * m + b % m;
    RemaindersDifferBy(q - p, m, a % m, b % m, b - a);
  }

  lemma RemaindersDifferBy(k: int, m: int, ra: int, rb: int, d: int)
    requires 0 < d < m && d == k * m + rb - ra
    ensures ra != rb
  {
  }
}
