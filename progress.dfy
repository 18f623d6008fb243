/** Percentages reported to the progress callback after each unit. */
module Progress {

  /** `ceil(k / n * 100)` computed exactly over the integers. */
  function CeilPercent(k: nat, n: nat): (r: int)
    requires 0 < n
    ensures n * (r - 1) < 100 * k <= n * r
  {
    var a := 100 * k + n - 1;
    var q := a / n;
    assert a == n * q + a % n;
    q
  }

  /** Cancelling a positive factor from a strict inequality of products. */
  lemma CancelLess(n: int, x: int, y: int)
    requires n > 0 && n * x < n * y
    ensures x < y
  {
    assert n * (y - x) == n * y - n * x;
  }

  /** After the k-th of n units the reported percentage lies in 1..100. */
  lemma PercentRange(k: nat, n: nat)
    requires 1 <= k <= n
    ensures 1 <= CeilPercent(k, n) <= 100
  {
    var r := CeilPercent(k, n);
    CancelLess(n, 0, r);
    CancelLess(n, r - 1, 100);
  }

  /** Percentages never decrease as more units are done. */
  lemma PercentMonotone(j: nat, k: nat, n: nat)
    requires j <= k && 0 < n
    ensures CeilPercent(j, n) <= CeilPercent(k, n)
  {
    CancelLess(n, CeilPercent(j, n) - 1, CeilPercent(k, n));
  }

  /** The last unit reports exactly 100. */
  lemma PercentFull(n: nat)
    requires 0 < n
    ensures CeilPercent(n, n) == 100
  {
    var r := CeilPercent(n, n);
    CancelLess(n, r - 1, 100);
    CancelLess(n, 99, r);
  }

  /** Three units report 34, 67 and 100: the first third rounds up. */
  lemma ThreeUnits()
    ensures CeilPercent(1, 3) == 34 && CeilPercent(2, 3) == 67 && CeilPercent(3, 3) == 100
  {
  }
}
