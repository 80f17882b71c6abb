/** thresholdOfPercent and percentOfThreshold of src/FSLibrary/StellarCoreCfg.fs. */
module Thresholds {

  /** Integer division as the source's language does it: toward zero. */
  function Quotient(a: int, b: int): int
    requires b > 0
  {
    if a >= 0 then a / b else -((-a) / b)
  }

  function ThresholdOfPercent(sz: int, pct: int): int { 1 + Quotient(sz * pct - 1, 100) }

  function PercentOfThreshold(sz: int, thr: int): int
    requires sz > 0
  {
    1 + Quotient(100 * (thr - 1), sz)
  }

  lemma DivBounds(a: nat, b: nat)
    requires b > 0
    ensures b * (a / b) <= a < b * (a / b) + b
  {
  }

  lemma MulMonotone(a: int, b: int, c: nat)
    requires a <= b
    ensures a * c <= b * c
  {
  }

  /** The threshold is the ceiling of the percentage. */
  lemma ThresholdIsCeiling(sz: nat, pct: nat)
    requires sz > 0 && pct > 0
    ensures var t := ThresholdOfPercent(sz, pct);
      t >= 1 && 100 * (t - 1) < sz * pct <= 100 * t
  {
    MulMonotone(1, sz, pct);
  }

  /** percentOfThreshold is the least percentage that reaches the threshold. */
  lemma Adjunction(sz: nat, thr: nat, pct: nat)
    requires sz > 0 && thr > 0 && pct > 0
    ensures ThresholdOfPercent(sz, pct) >= thr <==> pct >= PercentOfThreshold(sz, thr)
  {
    var q := 100 * (thr - 1) / sz;
    DivBounds(100 * (thr - 1), sz);
    ThresholdIsCeiling(sz, pct);
    // Both sides say that sz * pct exceeds 100 * (thr - 1).
    if pct >= 1 + q {
      MulMonotone(1 + q, pct, sz);
      assert sz * pct >= sz * q + sz by { assert (1 + q) * sz == sz * q + sz; }
    } else {
      MulMonotone(pct, q, sz);
      assert sz * pct <= sz * q;
    }
  }

  /** The round trip returns the threshold plus a rounding excess. */
  lemma RoundTrip(sz: nat, thr: nat)
    requires sz > 0 && thr > 0
    ensures var r := 100 * (thr - 1) % sz;
      ThresholdOfPercent(sz, PercentOfThreshold(sz, thr)) == thr + (sz - 1 - r) / 100
  {
    var n := 100 * (thr - 1);
    var q, r := n / sz, n % sz;
    assert n == sz * q + r;
    assert sz * (1 + q) == sz + sz * q;
    assert sz * (1 + q) - 1 == 100 * (thr - 1) + (sz - 1 - r);
  }

  /** It is an inverse exactly when that excess is below one percent of a hundred, and
      so for every set of at most 100. */
  lemma InverseIff(sz: nat, thr: nat)
    requires sz > 0 && thr > 0
    ensures ThresholdOfPercent(sz, PercentOfThreshold(sz, thr)) == thr <==>
      sz - 1 - 100 * (thr - 1) % sz < 100
    ensures sz <= 100 ==> ThresholdOfPercent(sz, PercentOfThreshold(sz, thr)) == thr
  {
    RoundTrip(sz, thr);
  }

  /** It is no inverse at 101 entries: a threshold of 1 comes back as 2. */
  lemma InverseFails()
    ensures PercentOfThreshold(101, 1) == 1 && ThresholdOfPercent(101, 1) == 2
    ensures ThresholdOfPercent(101, PercentOfThreshold(101, 1)) != 1
  {
    RoundTrip(101, 1);
  }
}
