/**
 The metrics engine of the calculator: five formulas over a position's entry
 price, stop-loss, target price and quantity, all built from the distance of
 the stop and of the target from the entry.

 `RiskReward`, `RiskPercentage` and `RewardPercentage` are what the
 calculator stores: the text `toFixed(2)` makes of a JavaScript quotient, which
 is "Infinity" or "NaN" when the divisor is zero. `RewardToRisk`, `RiskPercent`
 and `RewardPercent` are the same quotients over the reals, defined only where
 the divisor is non-zero.
 */
module Metrics {
  import opened Numbers

  /** The loss per share if the stop-loss is hit. */
  function RiskPerShare(entry: real, stop: real): real
  {
    Abs(entry - stop)
  }

  /** The gain per share if the target is hit. */
  function RewardPerShare(entry: real, target: real): real
  {
    Abs(target - entry)
  }

  /** `calculateRiskAmount`: the money lost if the stop-loss is hit. */
  function RiskAmount(entry: real, stop: real, quantity: int): (r: real)
    ensures quantity >= 0 ==> r >= 0.0
    ensures r == 0.0 <==> entry == stop || quantity == 0
  {
    RiskPerShare(entry, stop) * quantity as real
  }

  /** `calculateRewardAmount`: the money gained if the target is hit. */
  function RewardAmount(entry: real, target: real, quantity: int): (r: real)
    ensures quantity >= 0 ==> r >= 0.0
    ensures r == 0.0 <==> entry == target || quantity == 0
  {
    RewardPerShare(entry, target) * quantity as real
  }

  /** The reward-to-risk quotient when the stop differs from the entry: how
      many times the risk the reward is. */
  function RewardToRisk(entry: real, stop: real, target: real): (r: real)
    requires entry != stop
    ensures r >= 0.0
    ensures r * RiskPerShare(entry, stop) == RewardPerShare(entry, target)
  {
    RewardPerShare(entry, target) / RiskPerShare(entry, stop)
  }

  /** `calculateRiskReward`: the reward-to-risk quotient to two decimals;
      "Infinity" when the stop equals the entry and the target does not, and
      "NaN" when all three are equal. */
  function RiskReward(entry: real, stop: real, target: real): (r: Fixed2)
    ensures entry != stop ==> r == ToFixed2(Finite(RewardToRisk(entry, stop, target)))
    ensures r.Digits? ==> !r.negative
    ensures entry == stop && target != entry ==> r == InfinityText(false)
    ensures entry == stop && target == entry ==> r == NaNText
  {
    ToFixed2(Divide(RewardPerShare(entry, target), RiskPerShare(entry, stop)))
  }

  /** The risk as a percentage of the entry price, for a non-zero entry. */
  function RiskPercent(entry: real, stop: real): (r: real)
    requires entry != 0.0
    ensures entry > 0.0 ==> r >= 0.0
    ensures r * entry == RiskPerShare(entry, stop) * 100.0
  {
    RiskPerShare(entry, stop) / entry * 100.0
  }

  /** The reward as a percentage of the entry price, for a non-zero entry. */
  function RewardPercent(entry: real, target: real): (r: real)
    requires entry != 0.0
    ensures entry > 0.0 ==> r >= 0.0
    ensures r * entry == RewardPerShare(entry, target) * 100.0
  {
    RewardPerShare(entry, target) / entry * 100.0
  }

  /** `calculateRiskPercentage`: the risk percentage to two decimals;
      "Infinity" for a zero entry with a non-zero stop, "NaN" when both are
      zero. */
  function RiskPercentage(entry: real, stop: real): (r: Fixed2)
    ensures entry != 0.0 ==> r == ToFixed2(Finite(RiskPercent(entry, stop)))
    ensures entry > 0.0 ==> r.Digits? && !r.negative
    ensures entry == 0.0 && stop != 0.0 ==> r == InfinityText(false)
    ensures entry == 0.0 && stop == 0.0 ==> r == NaNText
  {
    ToFixed2(Scale(Divide(RiskPerShare(entry, stop), entry), 100.0))
  }

  /** `calculateRewardPercentage`: the reward percentage to two decimals;
      "Infinity" for a zero entry with a non-zero target, "NaN" when both are
      zero. */
  function RewardPercentage(entry: real, target: real): (r: Fixed2)
    ensures entry != 0.0 ==> r == ToFixed2(Finite(RewardPercent(entry, target)))
    ensures entry > 0.0 ==> r.Digits? && !r.negative
    ensures entry == 0.0 && target != 0.0 ==> r == InfinityText(false)
    ensures entry == 0.0 && target == 0.0 ==> r == NaNText
  {
    ToFixed2(Scale(Divide(RewardPerShare(entry, target), entry), 100.0))
  }

  /** The point on the other side of the entry at the same distance. */
  function Reflect(entry: real, price: real): real
  {
    2.0 * entry - price
  }

  /** Only the distance of the stop from the entry matters: a stop mirrored
      through the entry gives the same risk amount, ratio and percentage. */
  lemma StopReflectionInvariant(entry: real, stop: real, target: real, quantity: int)
    ensures RiskAmount(entry, Reflect(entry, stop), quantity) == RiskAmount(entry, stop, quantity)
    ensures RiskReward(entry, Reflect(entry, stop), target) == RiskReward(entry, stop, target)
    ensures RiskPercentage(entry, Reflect(entry, stop)) == RiskPercentage(entry, stop)
  {
    assert RiskPerShare(entry, Reflect(entry, stop)) == RiskPerShare(entry, stop);
  }

  /** Only the distance of the target from the entry matters: a target
      mirrored through the entry gives the same reward amount, ratio and
      percentage. */
  lemma TargetReflectionInvariant(entry: real, stop: real, target: real, quantity: int)
    ensures RewardAmount(entry, Reflect(entry, target), quantity) == RewardAmount(entry, target, quantity)
    ensures RiskReward(entry, stop, Reflect(entry, target)) == RiskReward(entry, stop, target)
    ensures RewardPercentage(entry, Reflect(entry, target)) == RewardPercentage(entry, target)
  {
    assert RewardPerShare(entry, Reflect(entry, target)) == RewardPerShare(entry, target);
  }

  /** The quantity cancels out of the ratio: for any non-zero quantity the
      ratio is the reward amount over the risk amount. */
  lemma RatioIsAmountQuotient(entry: real, stop: real, target: real, quantity: int)
    requires entry != stop && quantity != 0
    ensures RiskAmount(entry, stop, quantity) != 0.0
    ensures RewardToRisk(entry, stop, target)
         == RewardAmount(entry, target, quantity) / RiskAmount(entry, stop, quantity)
  {
  }

  /** The risk amount is the risk percentage of the money put in
      (entry price times quantity). */
  lemma RiskAmountIsPercentOfOutlay(entry: real, stop: real, quantity: int)
    requires entry != 0.0
    ensures RiskAmount(entry, stop, quantity) == RiskPercent(entry, stop) / 100.0 * (entry * quantity as real)
  {
  }

  /** The reward amount is the reward percentage of the money put in. */
  lemma RewardAmountIsPercentOfOutlay(entry: real, target: real, quantity: int)
    requires entry != 0.0
    ensures RewardAmount(entry, target, quantity) == RewardPercent(entry, target) / 100.0 * (entry * quantity as real)
  {
  }

  /** A long position bought at 100 with its stop at 90, its target at 130
      and 10 shares: R:R 3.00, risk 100, reward 300, risk 10.00%,
      reward 30.00%. */
  lemma WorkedExample()
    ensures RiskReward(100.0, 90.0, 130.0) == Digits(false, 300)
    ensures RiskAmount(100.0, 90.0, 10) == 100.0
    ensures RewardAmount(100.0, 130.0, 10) == 300.0
    ensures RiskPercentage(100.0, 90.0) == Digits(false, 1000)
    ensures RewardPercentage(100.0, 130.0) == Digits(false, 3000)
  {
  }
}
