/** Fee selection of bot/exec/engine.py. */
module FeeEscalation {
  import opened Numbers

  datatype FeePolicy = FeePolicy(
    maxFeeGwei: real, escalationFactor: real, maxEscalations: int, profitSafetyMarginUsd: real)

  datatype Reason = Allowed | FeeCapExceeded | NotProfitableAfterEscalation

  datatype FeeDecision = FeeDecision(allowed: bool, feeGwei: real, reason: Reason, escalationStep: int)

  function MinReal(a: real, b: real): (m: real)
    ensures m <= a && m <= b && (m == a || m == b)
  {
    if b < a then b else a
  }

  /** `estimate_fee_usd` */
  function EstimateFeeUsd(gasLimit: int, gasPriceGwei: real, nativeUsd: real): (r: real)
  {
    MaxReal(0.0, gasLimit as real) * MaxReal(0.0, gasPriceGwei) * 0.000000001 * MaxReal(0.0, nativeUsd)
  }

  /** The fee after `step` escalations. */
  function FeeAt(fee0: real, factor: real, step: nat): (r: real)
  {
    if step == 0 then fee0 else FeeAt(fee0, factor, step - 1) * MaxReal(1.0, factor)
  }

  /** The expected profit covers the cost at this fee and the safety margin. */
  predicate Profitable(policy: FeePolicy, fee: real, gasLimit: int, profitUsd: real, nativeUsd: real)
  {
    profitUsd >= EstimateFeeUsd(gasLimit, fee, nativeUsd) + policy.profitSafetyMarginUsd
  }

  /** A transaction at this price pays for itself: gas and prices below zero count as zero, and a price
      in gwei is a billionth of the native token. */
  lemma ProfitableMeans(policy: FeePolicy, fee: real, gasLimit: int, profitUsd: real, nativeUsd: real)
    ensures Profitable(policy, fee, gasLimit, profitUsd, nativeUsd) <==>
            var cost := if gasLimit < 0 || fee < 0.0 || nativeUsd < 0.0 then 0.0
                        else gasLimit as real * fee * 0.000000001 * nativeUsd;
            cost + policy.profitSafetyMarginUsd <= profitUsd
  {
  }

  /** Each escalation multiplies the fee by the factor, but never lowers it. */
  lemma FeeAtMeans(fee0: real, factor: real, step: nat)
    ensures FeeAt(fee0, factor, 0) == fee0
    ensures FeeAt(fee0, factor, step + 1) == FeeAt(fee0, factor, step) * if factor < 1.0 then 1.0 else factor
  {
  }

  lemma ScaleUp(x: real, f: real)
    requires 0.0 <= x && 1.0 <= f
    ensures x <= x * f
  {
    assert 0.0 <= x * (f - 1.0);
    assert x * (f - 1.0) == x * f - x;
  }

  lemma ScaleLe(a: real, b: real, c: real)
    requires a <= b && 0.0 <= c
    ensures a * c <= b * c && c * a <= c * b
  {
    assert 0.0 <= (b - a) * c;
    assert (b - a) * c == b * c - a * c;
  }

  /** A higher gas price never costs less. */
  lemma CostMonotone(gasLimit: int, price: real, price': real, nativeUsd: real)
    requires price <= price'
    ensures EstimateFeeUsd(gasLimit, price, nativeUsd) <= EstimateFeeUsd(gasLimit, price', nativeUsd)
  {
    var g, n := MaxReal(0.0, gasLimit as real), MaxReal(0.0, nativeUsd);
    var p, p' := MaxReal(0.0, price), MaxReal(0.0, price');
    ScaleLe(p, p', g);
    ScaleLe(g * p, g * p', 0.000000001);
    ScaleLe(g * p * 0.000000001, g * p' * 0.000000001, n);
  }

  lemma {:induction false} FeeGrows(fee0: real, factor: real, step: nat)
    requires 0.0 <= fee0
    ensures fee0 <= FeeAt(fee0, factor, step)
  {
    if step > 0 {
      FeeGrows(fee0, factor, step - 1);
      ScaleUp(FeeAt(fee0, factor, step - 1), MaxReal(1.0, factor));
    }
  }

  /** Escalating never turns an unprofitable trade into a profitable one. */
  lemma EscalationNeverHelps(policy: FeePolicy, fee0: real, step: nat, gasLimit: int, profitUsd: real, nativeUsd: real)
    requires 0.0 <= fee0 && !Profitable(policy, fee0, gasLimit, profitUsd, nativeUsd)
    ensures !Profitable(policy, FeeAt(fee0, policy.escalationFactor, step), gasLimit, profitUsd, nativeUsd)
  {
    FeeGrows(fee0, policy.escalationFactor, step);
    CostMonotone(gasLimit, fee0, FeeAt(fee0, policy.escalationFactor, step), nativeUsd);
  }

  ghost predicate CappedBelow(policy: FeePolicy, fee0: real, n: int)
  {
    forall k: nat :: k < n ==> FeeAt(fee0, policy.escalationFactor, k) <= policy.maxFeeGwei
  }

  /** `choose_fee_gwei`. Only the initial fee can be allowed. Otherwise the first escalation above
      the cap is reported, or, if there is none, the fee after one more escalation than allowed,
      cut to the cap, together with max_escalations as configured, even when that is negative. */
  method ChooseFeeGwei(policy: FeePolicy, initialFeeGwei: real, gasLimit: int, expectedProfitUsd: real, nativeUsd: real)
    returns (d: FeeDecision)
    ensures var fee0, n := MaxReal(0.0, initialFeeGwei), Max(0, policy.maxEscalations);
            && (d.allowed <==>
                fee0 <= policy.maxFeeGwei && Profitable(policy, fee0, gasLimit, expectedProfitUsd, nativeUsd))
            && (d.allowed ==> d == FeeDecision(true, fee0, Allowed, 0))
            && (!d.allowed && !CappedBelow(policy, fee0, n + 1) ==>
                  && d.reason == FeeCapExceeded && d.feeGwei == policy.maxFeeGwei && 0 <= d.escalationStep <= n
                  && policy.maxFeeGwei < FeeAt(fee0, policy.escalationFactor, d.escalationStep)
                  && CappedBelow(policy, fee0, d.escalationStep))
            && (!d.allowed && CappedBelow(policy, fee0, n + 1) ==>
                  d == FeeDecision(false, MinReal(FeeAt(fee0, policy.escalationFactor, n + 1), policy.maxFeeGwei),
                                   NotProfitableAfterEscalation, policy.maxEscalations))
  {
    var fee := MaxReal(0.0, initialFeeGwei);
    ghost var fee0 := fee;
    var step: nat := 0;
    while step < Max(0, policy.maxEscalations) + 1
      invariant step <= Max(0, policy.maxEscalations) + 1
      invariant fee == FeeAt(fee0, policy.escalationFactor, step)
      invariant CappedBelow(policy, fee0, step)
      invariant 0 < step ==> !Profitable(policy, fee0, gasLimit, expectedProfitUsd, nativeUsd)
    {
      if fee > policy.maxFeeGwei {
        return FeeDecision(false, policy.maxFeeGwei, FeeCapExceeded, step);
      }
      var totalCost := EstimateFeeUsd(gasLimit, fee, nativeUsd);
      if 0 < step { EscalationNeverHelps(policy, fee0, step, gasLimit, expectedProfitUsd, nativeUsd); }
      if expectedProfitUsd >= totalCost + policy.profitSafetyMarginUsd {
        return FeeDecision(true, fee, Allowed, step);
      }
      fee := fee * MaxReal(1.0, policy.escalationFactor);
      step := step + 1;
    }
    d := FeeDecision(false, MinReal(fee, policy.maxFeeGwei), NotProfitableAfterEscalation, policy.maxEscalations);
  }
}
