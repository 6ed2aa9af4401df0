/**
 The burn fraction and the weight vector together: what the emitted weights leave to the miners,
 measured against the target the burn was chosen for.
 */
module Payout {
  import opened Common
  import opened BurnEconomics
  import opened WeightVector

  /** No record pays the owner. */
  predicate OnlyBurns(miners: seq<MinerScore>, owner: u16) {
    forall i :: 0 <= i < |miners| ==> miners[i].uid != owner
  }

  lemma {:induction false} OwnerScoresNothing(miners: seq<MinerScore>, owner: u16)
    requires OnlyBurns(miners, owner)
    ensures ScoreOf(miners, owner) == 0
  {
    if miners != [] { OwnerScoresNothing(miners[..|miners| - 1], owner); }
  }

  /** The part of the vector that is not the owner's. */
  function MinersPart(w: seq<Entry>, owner: u16): int {
    Total(w) - AmountOf(w, owner)
  }

  /** Up to rounding, the miners keep the fraction that is not burned. */
  lemma MinersKeepUnburned(miners: seq<MinerScore>, owner: u16, burn: Bps)
    requires Shared(miners, owner, burn) && OnlyBurns(miners, owner)
    ensures var w := Weights(miners, owner, burn).value;
            var n := |UidsOf(miners) + {owner}|;
            Near(2 * (MinersPart(w, owner) * BPS - (BPS - burn) * Total(w)), (n + 1) * BPS)
  {
    var w, slack := Weights(miners, owner, burn).value, |UidsOf(miners) + {owner}| + 1;
    OwnerScoresNothing(miners, owner);
    assert ExactShare(miners, owner, burn, owner) == TotalScore(miners) * burn;
    hide ExactShare, Weights, Near, UidsOf;
    WeightsApproximateShares(miners, owner, burn, owner);
    OwnersError(AmountOf(w, owner), Total(w), burn, TotalScore(miners), slack);
  }

  lemma OwnersError(owners: int, total: int, burn: int, score: nat, slack: nat)
    requires score > 0 && Near(2 * (owners * (score * BPS) - score * burn * total), slack * (score * BPS))
    ensures Near(2 * ((total - owners) * BPS - (BPS - burn) * total), slack * BPS)
  {
    var error := owners * BPS - burn * total;
    assert owners * (score * BPS) == owners * BPS * score && score * burn * total == burn * total * score;
    assert 2 * (owners * (score * BPS) - score * burn * total) == 2 * error * score;
    assert slack * (score * BPS) == slack * BPS * score;
    Unscale(2 * error, slack * BPS, score);
    assert (total - owners) * BPS - (BPS - burn) * total == -error;
  }

  /** What keeping the unburned part of a share is worth, from below and from above. */
  lemma PartIsWorth(value: nat, targetValue: nat, b: int, part: int, total: nat, slack: nat)
    requires Optimal(value, targetValue, b) && Near(2 * (part * BPS - (BPS - b) * total), slack * BPS)
    ensures 2 * (value * part) + slack * value >= 2 * (Min(value, targetValue) * total)
    ensures 100 * (2 * (value * part)) <= 100 * (2 * (targetValue * total) + slack * value) + 2 * (value * total)
  {
    var kept := value * (BPS - b);
    KeptIsWorth(value, targetValue, b);
    var error := part * BPS - (BPS - b) * total;
    ScaleNear(2 * error, slack * BPS, value);
    Expand(value, part, b, total);
    assert slack * BPS * value == BPS * (slack * value);
    Scale(BPS * Min(value, targetValue), kept, total);
    Scale(kept, BPS * targetValue + BURN_STEP_BPS * value, total);
    Spread(BPS, Min(value, targetValue), total);
    Spread(BPS, targetValue, total);
    Spread(BURN_STEP_BPS, value, total);
    assert (BPS * targetValue + BURN_STEP_BPS * value) * total
           == BPS * targetValue * total + BURN_STEP_BPS * value * total;
  }

  lemma Expand(value: int, part: int, b: int, total: int)
    ensures 2 * (part * BPS - (BPS - b) * total) * value == 2 * (BPS * (value * part)) - 2 * (value * (BPS - b) * total)
  {
    assert (BPS - b) * total * value == value * (BPS - b) * total;
    assert part * BPS * value == BPS * (value * part);
  }

  lemma Spread(a: int, b: int, c: int)
    ensures a * b * c == a * (b * c)
  {}

  /** The unburned part is worth the target, or all there is, and less than one burn step more. */
  lemma KeptIsWorth(value: nat, targetValue: nat, b: int)
    requires Optimal(value, targetValue, b)
    ensures BPS * Min(value, targetValue) <= value * (BPS - b) <= BPS * targetValue + BURN_STEP_BPS * value
  {
    if value > targetValue && b + BURN_STEP_BPS <= BPS {
      assert !Leaves(value, targetValue, b + BURN_STEP_BPS);
      assert value * (BPS - b) == value * (BPS - (b + BURN_STEP_BPS)) + BURN_STEP_BPS * value;
    } else if value > targetValue {
      assert b == BPS;
    }
  }

  lemma ValueIsNatural(e: EpochEconomics, price: u64)
    requires e.MinersValue(price).Ok?
    ensures e.MinersValue(price).value >= 0
  {
    UncheckedProductsFit(e, 0);
    Within(0, e.MinersAlpha(), 0, e.subnetTao);
    Within(0, e.MinersTaoRao().value, 0, price);
  }

  /**
   With the burn chosen for a target, the miners' part of the emitted vector is worth at least the
   target, or everything when that is less, and at most one burn step of the emission above it; both
   up to (n+1)/2 weight units, where n is the number of UIDs holding a share.
   */
  lemma MinersArePaidTheTarget(e: EpochEconomics, target: u64, price: u64, miners: seq<MinerScore>, owner: u16)
    requires e.BurnForTarget(target, price).Ok? && OnlyBurns(miners, owner) && TotalScore(miners) > 0
    ensures 0 <= e.BurnForTarget(target, price).value <= BPS
    ensures var burn: Bps := e.BurnForTarget(target, price).value;
            Weights(miners, owner, burn).Ok? ==>
              var w := Weights(miners, owner, burn).value;
              var value, targetValue := e.MinersValue(price).value, target * RAO_PER_TAO;
              var part, slack := MinersPart(w, owner), |UidsOf(miners) + {owner}| + 1;
              && 2 * (value * part) + slack * value >= 2 * (Min(value, targetValue) * Total(w))
              && 100 * (2 * (value * part)) <=
                 100 * (2 * (targetValue * Total(w)) + slack * value) + 2 * (value * Total(w))
  {
    MinersGetHalf(e, e.MinersAlpha());
    BurnForTargetMeets(e, target, price, e.MinersAlpha());
    ValueIsNatural(e, price);
    var burn: Bps := e.BurnForTarget(target, price).value;
    var value, targetValue := e.MinersValue(price).value, target * RAO_PER_TAO;
    var slack := |UidsOf(miners) + {owner}| + 1;
    if Weights(miners, owner, burn).Ok? {
      var w := Weights(miners, owner, burn).value;
      if burn < BPS {
        MinersKeepUnburned(miners, owner, burn);
      } else {
        FullBurnPaysNobody(miners, owner);
      }
      hide Optimal, Weights, Near, UidsOf;
      PartIsWorth(value, targetValue, burn, MinersPart(w, owner), Total(w), slack);
    }
  }

  lemma FullBurnPaysNobody(miners: seq<MinerScore>, owner: u16)
    ensures var w := Weights(miners, owner, BPS).value;
            && MinersPart(w, owner) == 0
            && Near(2 * (0 * BPS - (BPS - BPS) * Total(w)), (|UidsOf(miners) + {owner}| + 1) * BPS)
  {
    OwnerAlone(miners, owner, BPS, owner);
  }
}
