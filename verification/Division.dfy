/** Remainders of a division, for steps and rotations. */
module Division {

  lemma Scaled(d: int, n: nat)
    ensures (d >= 1 ==> d * n >= n) && (d <= -1 ==> d * n <= 0 - n)
  {
  }

  /** Quotient and remainder are unique. */
  lemma Remainder(x: nat, q: int, r: nat, n: nat)
    requires r < n && x == q * n + r
    ensures x % n == r
  {
    var d := q - x / n;
    assert x == x / n * n + x % n;
    assert d * n == x % n - r;
    Scaled(d, n);
  }
}
