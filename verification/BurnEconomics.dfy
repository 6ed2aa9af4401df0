/**
 How much of an epoch's miner emission to burn, in u128 arithmetic: the largest whole percent
 that still leaves the miners their target.
 */
module BurnEconomics {
  import opened Common

  const BPS: int := 10_000
  const BURN_STEP_BPS: int := 100
  const RAO_PER_TAO: int := 1_000_000_000

  /** A burn fraction in basis points. */
  type Bps = b: int | 0 <= b <= BPS

  datatype PriceError = PriceUndefined | Overflow

  /** The chain inputs that price one epoch, read at one finalized block. */
  datatype EpochEconomics = EpochEconomics(
    alphaOutEmission: u64,
    tempo: u16,
    ownerCut: u16,
    subnetTao: u64,
    subnetAlphaIn: u64)
  {
    /** The miners' half of the emission after the owner cut, in alpha rao. */
    function MinersAlpha(): int {
      alphaOutEmission * tempo * (U16_MAX - ownerCut) / (2 * U16_MAX)
    }

    /** The miners' epoch emission valued in TAO rao. */
    function MinersTaoRao(): Result<int, PriceError> {
      if subnetAlphaIn == 0 then Err(PriceUndefined)
      else if MinersAlpha() * subnetTao > U128_MAX then Err(Overflow)
      else Ok(MinersAlpha() * subnetTao / subnetAlphaIn)
    }

    /** The miners' emission in rao-cents, as compared with the target. */
    function MinersValue(price: u64): Result<int, PriceError> {
      match MinersTaoRao()
      case Err(e) => Err(e)
      case Ok(tao) => if tao * price > U128_MAX then Err(Overflow) else Ok(tao * price)
    }

    function BurnForTarget(target: u64, price: u64): Result<int, PriceError> {
      match MinersValue(price)
      case Err(e) => Err(e)
      case Ok(value) => Ok(BurnOf(value, target * RAO_PER_TAO))
    }
  }

  /** Integer division rounding up. */
  function DivCeil(a: nat, b: nat): nat
    requires b > 0
  {
    if a % b == 0 then a / b else a / b + 1
  }

  /** The burn that leaves `targetValue` of a share worth `value`. */
  function BurnOf(value: int, targetValue: nat): int {
    if value <= targetValue then 0
    else
      var burn := BPS - DivCeil(BPS * targetValue, value);
      burn - burn % BURN_STEP_BPS
  }

  /** Burning `b` leaves the miners at least the target. */
  predicate Leaves(value: int, targetValue: int, b: int) {
    value * (BPS - b) >= BPS * targetValue
  }

  lemma Scale(a: int, b: int, k: int)
    requires a <= b && k >= 0
    ensures a * k <= b * k
  {}

  lemma ScaleStrict(a: int, b: int, k: int)
    requires a < b && k > 0
    ensures a * k < b * k
  {}

  lemma CeilBounds(a: nat, b: nat)
    requires b > 0
    ensures b * DivCeil(a, b) >= a
    ensures DivCeil(a, b) > 0 ==> b * (DivCeil(a, b) - 1) < a
  {
    assert a == b * (a / b) + a % b;
    assert b * (a / b + 1) == b * (a / b) + b;
  }

  /** What is kept, rounded up, is exactly the threshold of what the target allows. */
  lemma LeavesExactly(value: int, targetValue: nat, b: int)
    requires value > 0 && b <= BPS
    ensures Leaves(value, targetValue, b) <==> BPS - b >= DivCeil(BPS * targetValue, value)
  {
    var keep := DivCeil(BPS * targetValue, value);
    CeilBounds(BPS * targetValue, value);
    if BPS - b >= keep {
      Scale(keep, BPS - b, value);
    } else {
      Scale(BPS - b, keep - 1, value);
    }
  }

  /** `b` is the largest multiple of 100 bps that leaves the target; 0 for a share not above it. */
  predicate Optimal(value: int, targetValue: int, b: int) {
    && 0 <= b <= BPS && b % BURN_STEP_BPS == 0
    && (value <= targetValue ==> b == 0)
    && (value > targetValue ==>
          && Leaves(value, targetValue, b)
          && forall c :: b < c <= BPS && c % BURN_STEP_BPS == 0 ==> !Leaves(value, targetValue, c))
  }

  lemma KeepAtMostAll(value: int, targetValue: nat)
    requires value > targetValue
    ensures 0 <= DivCeil(BPS * targetValue, value) <= BPS
  {
    var keep := DivCeil(BPS * targetValue, value);
    CeilBounds(BPS * targetValue, value);
    if keep > BPS {
      Scale(BPS, keep - 1, value);
      Scale(targetValue, value, BPS);
    }
  }

  lemma BurnIsOptimal(value: int, targetValue: nat)
    ensures Optimal(value, targetValue, BurnOf(value, targetValue))
  {
    hide Leaves, DivCeil;
    if value > targetValue {
      var b := BurnOf(value, targetValue);
      KeepAtMostAll(value, targetValue);
      LeavesExactly(value, targetValue, b);
      forall c | b < c <= BPS && c % BURN_STEP_BPS == 0 ensures !Leaves(value, targetValue, c) {
        LeavesExactly(value, targetValue, c);
      }
    }
  }

  /** `m` is half of what the owner cut leaves of the epoch's emission, rounded down to a whole rao. */
  predicate IsMinersHalf(e: EpochEconomics, m: int) {
    var left := e.alphaOutEmission * e.tempo * (U16_MAX - e.ownerCut);
    m * (2 * U16_MAX) <= left < (m + 1) * (2 * U16_MAX)
  }

  /** The miners get that half: half of everything without an owner cut, and nothing at a full one. */
  lemma MinersGetHalf(e: EpochEconomics, m: int)
    ensures IsMinersHalf(e, m) <==> m == e.MinersAlpha()
    ensures e.ownerCut == 0 ==> e.MinersAlpha() == e.alphaOutEmission * e.tempo / 2
    ensures e.ownerCut == U16_MAX ==> e.MinersAlpha() == 0
  {
    var emitted := e.alphaOutEmission * e.tempo;
    if e.ownerCut == 0 {
      assert emitted * (U16_MAX - e.ownerCut) == emitted * U16_MAX;
      assert emitted * U16_MAX / (2 * U16_MAX) == emitted / 2;
    }
    if e.ownerCut == U16_MAX { assert emitted * (U16_MAX - e.ownerCut) == 0; }
    hide EpochEconomics.MinersTaoRao;
  }

  /**
   The choice is optimal for the value of the miners' half, and refused only without alpha in the
   pool or past u128.
   */
  lemma BurnForTargetMeets(e: EpochEconomics, target: u64, price: u64, m: int)
    requires IsMinersHalf(e, m)
    ensures e.BurnForTarget(target, price).Err? <==>
            || e.subnetAlphaIn == 0
            || m * e.subnetTao > U128_MAX
            || m * e.subnetTao / e.subnetAlphaIn * price > U128_MAX
    ensures e.BurnForTarget(target, price) == Err(PriceUndefined) <==> e.subnetAlphaIn == 0
    ensures e.BurnForTarget(target, price).Ok? ==>
              var value := m * e.subnetTao / e.subnetAlphaIn * price;
              && e.MinersValue(price) == Ok(value)
              && Optimal(value, target * RAO_PER_TAO, e.BurnForTarget(target, price).value)
  {
    MinersGetHalf(e, m);
    hide Optimal, BurnOf, IsMinersHalf, EpochEconomics.MinersAlpha;
    if e.BurnForTarget(target, price).Ok? {
      BurnIsOptimal(e.MinersAlpha() * e.subnetTao / e.subnetAlphaIn * price, target * RAO_PER_TAO);
    }
  }

  /** No unchecked product exceeds u128. */
  lemma UncheckedProductsFit(e: EpochEconomics, target: u64)
    ensures 0 <= e.alphaOutEmission * e.tempo <= U128_MAX
    ensures 0 <= e.alphaOutEmission * e.tempo * (U16_MAX - e.ownerCut) <= U128_MAX
    ensures 0 <= BPS * (target * RAO_PER_TAO) <= U128_MAX
  {
    Within(e.alphaOutEmission, U64_MAX, e.tempo, U16_MAX);
    Within(e.alphaOutEmission * e.tempo, U64_MAX * U16_MAX, U16_MAX - e.ownerCut, U16_MAX);
  }

  lemma Within(a: int, b: int, c: int, d: int)
    requires 0 <= a <= b && 0 <= c <= d
    ensures 0 <= a * c <= b * d
  {
    assert a * c <= b * c <= b * d;
  }

  // ----- monotonicity and stability

  /** A richer share or a lower target never burns less. */
  lemma BurnOfMonotone(value: int, targetValue: nat, value': int, targetValue': nat)
    requires value <= value' && targetValue' <= targetValue
    ensures BurnOf(value, targetValue) <= BurnOf(value', targetValue')
  {
    BurnIsOptimal(value, targetValue);
    BurnIsOptimal(value', targetValue');
    var b := BurnOf(value, targetValue);
    if value > targetValue {
      Scale(value, value', BPS - b);
      Scale(targetValue', targetValue, BPS);
      assert Leaves(value', targetValue', b);
    }
  }

  /** Values within 1% of the larger land on the same step or on neighbouring ones. */
  lemma BurnOfStable(value: int, value': int, targetValue: nat)
    requires 0 <= value <= value' && 100 * (value' - value) <= value'
    ensures BurnOf(value, targetValue) <= BurnOf(value', targetValue) <= BurnOf(value, targetValue) + BURN_STEP_BPS
  {
    hide BurnOf;
    BurnOfMonotone(value, targetValue, value', targetValue);
    BurnIsOptimal(value, targetValue);
    BurnIsOptimal(value', targetValue);
    var b' := BurnOf(value', targetValue);
    if b' > BURN_STEP_BPS {
      StepDown(value, value', BPS - b', BPS * targetValue);
      assert Leaves(value, targetValue, b' - BURN_STEP_BPS);
      if value <= targetValue { NothingToBurn(value, targetValue, b' - BURN_STEP_BPS); }
    }
  }

  /** Keeping one more step makes up for a value 1% lower. */
  lemma StepDown(value: int, value': int, kept: int, floor: int)
    requires 0 <= value <= value' && 100 * (value' - value) <= value'
    requires 0 <= kept <= BPS - BURN_STEP_BPS && value' * kept >= floor
    ensures value * (kept + BURN_STEP_BPS) >= floor
  {
    Scale(99 * value', 100 * value, kept + BURN_STEP_BPS);
    Scale(100 * kept, 99 * (kept + BURN_STEP_BPS), value');
    assert 100 * (value * (kept + BURN_STEP_BPS)) >= value' * (99 * (kept + BURN_STEP_BPS)) >= 100 * (value' * kept);
  }

  /** A share worth no more than the target cannot give up a positive step. */
  lemma NothingToBurn(value: int, targetValue: nat, c: int)
    requires 0 <= value <= targetValue && 0 < c <= BPS && Leaves(value, targetValue, c)
    ensures targetValue == 0
  {
    Scale(value, targetValue, BPS - c);
    if targetValue > 0 { ScaleStrict(BPS - c, BPS, targetValue); }
  }

  /** The burn never rises with the target. */
  lemma HigherTargetBurnsLess(e: EpochEconomics, target: u64, target': u64, price: u64)
    requires target <= target' && e.BurnForTarget(target, price).Ok?
    ensures e.BurnForTarget(target', price).Ok?
    ensures e.BurnForTarget(target', price).value <= e.BurnForTarget(target, price).value
  {
    var value := e.MinersValue(price).value;
    BurnOfMonotone(value, target' * RAO_PER_TAO, value, target * RAO_PER_TAO);
  }

  lemma DivMonotone(a: int, b: int, d: int)
    requires 0 <= a <= b && d > 0
    ensures 0 <= a / d <= b / d
  {
    if b / d < a / d {
      Scale(b / d + 1, a / d, d);
    }
  }

  lemma DivAntitone(a: int, d: int, d': int)
    requires 0 <= a && 0 < d' <= d
    ensures a / d <= a / d'
  {
    Within(a / d, a / d, d', d);
    Quotient(a, d);
    if a / d' < a / d {
      Quotient(a, d');
      Scale(a / d' + 1, a / d, d');
    }
  }

  lemma Quotient(a: int, d: int)
    requires 0 <= a && d > 0
    ensures 0 <= a / d && a / d * d <= a < (a / d + 1) * d
  {}

  /**
   The burn never falls with the emission, the TAO reserve or the TAO price, nor with a smaller
   alpha reserve.
   */
  lemma RicherMinersBurnMore(
    e: EpochEconomics, emission: u64, tao: u64, alpha: u64, target: u64, price: u64, price': u64)
    requires e.alphaOutEmission <= emission && e.subnetTao <= tao && alpha <= e.subnetAlphaIn && price <= price'
    requires var richer := e.(alphaOutEmission := emission, subnetTao := tao, subnetAlphaIn := alpha);
             richer.BurnForTarget(target, price').Ok?
    ensures var richer := e.(alphaOutEmission := emission, subnetTao := tao, subnetAlphaIn := alpha);
            && e.BurnForTarget(target, price).Ok?
            && e.BurnForTarget(target, price).value <= richer.BurnForTarget(target, price').value
  {
    var richer := e.(alphaOutEmission := emission, subnetTao := tao, subnetAlphaIn := alpha);
    Within(e.alphaOutEmission, emission, e.tempo, e.tempo);
    Within(e.alphaOutEmission * e.tempo, emission * e.tempo, U16_MAX - e.ownerCut, U16_MAX - e.ownerCut);
    DivMonotone(e.alphaOutEmission * e.tempo * (U16_MAX - e.ownerCut),
                emission * e.tempo * (U16_MAX - e.ownerCut), 2 * U16_MAX);
    Within(e.MinersAlpha(), richer.MinersAlpha(), e.subnetTao, tao);
    DivMonotone(e.MinersAlpha() * e.subnetTao, richer.MinersAlpha() * tao, e.subnetAlphaIn);
    DivAntitone(richer.MinersAlpha() * tao, e.subnetAlphaIn, alpha);
    Within(e.MinersTaoRao().value, richer.MinersTaoRao().value, price, price');
    BurnOfMonotone(e.MinersValue(price).value, target * RAO_PER_TAO,
                   richer.MinersValue(price').value, target * RAO_PER_TAO);
  }

  /** Two validators whose priced values differ by at most 1% of the larger choose neighbouring burns. */
  lemma NearbyValidatorsAgree(e: EpochEconomics, e': EpochEconomics, target: u64, price: u64, price': u64)
    requires e.MinersValue(price).Ok? && e'.MinersValue(price').Ok?
    requires var v, v' := e.MinersValue(price).value, e'.MinersValue(price').value;
             0 <= v <= v' && 100 * (v' - v) <= v'
    ensures e.BurnForTarget(target, price).value <= e'.BurnForTarget(target, price').value
    ensures e'.BurnForTarget(target, price').value <= e.BurnForTarget(target, price).value + BURN_STEP_BPS
  {
    BurnOfStable(e.MinersValue(price).value, e'.MinersValue(price').value, target * RAO_PER_TAO);
  }
}
