/**
 When a timelocked commit becomes revealable: the block-by-block simulation of the subnet's
 epochs, and the closed form it equals.
 */
module RevealSchedule {
  import opened Common

  const MAX_TEMPO: int := 50_400
  const QUICKNET_GENESIS: int := 1_692_803_367

  datatype ScheduleError = InvalidTempoOrPeriod | BlockOverflow | EpochOverflow | ExceedsBound | TimeOverflow

  /** The subnet's epoch clock as read at `block`. */
  datatype Schedule = Schedule(
    block: u64,
    lastEpoch: u64,
    pendingEpoch: u64,
    epoch: u64,
    tempo: u16,
    blocksSinceStep: u64)
  {
    predicate Due(at: int) {
      || (pendingEpoch > 0 && at >= pendingEpoch)
      || blocksSinceStep > MAX_TEMPO
      || SaturatingSub(at, lastEpoch) >= tempo
    }

    /** The clock after the chain has run block `at`. */
    function Step(at: u64): Schedule {
      var counted := this.(blocksSinceStep := SaturatingAdd(blocksSinceStep, 1));
      if counted.Due(at) then
        counted.(lastEpoch := at, pendingEpoch := 0, epoch := SaturatingAdd(epoch, 1), blocksSinceStep := 0)
      else
        counted
    }

    /** The epoch index a reveal sees at block `at`: reveals run before the epoch steps. */
    function Lookahead(at: int): int {
      SaturatingAdd(epoch, if Due(at) then 1 else 0)
    }
  }

  function SaturatingAdd(a: u64, b: u64): u64 {
    Min(a + b, U64_MAX)
  }

  function SaturatingSub(a: int, b: int): int {
    Max(a - b, 0)
  }

  /** The clock just before block `first + n` runs. */
  function After(s: Schedule, n: nat): Schedule
    requires s.block + n <= U64_MAX
    decreases n
  {
    if n == 0 then s else After(s, n - 1).Step(s.block + n)
  }

  /** The index a reveal would see at block `b`, when simulated from the clock `s`. */
  function IndexAt(s: Schedule, b: int): int
    requires s.block < b <= U64_MAX
  {
    After(s, b - s.block - 1).Lookahead(b)
  }

  // ----- the closed form

  /** The first block after the snapshot at which the tempo or a pending epoch is due. */
  function FirstDue(s: Schedule): int {
    var byTempo := s.lastEpoch + s.tempo;
    Max(s.block + 1, if s.pendingEpoch > 0 then Min(byTempo, s.pendingEpoch) else byTempo)
  }

  /** The block at which an overdue epoch is forced, if nothing else is due before. */
  function Forced(s: Schedule): int {
    s.block + 1 + Max(0, MAX_TEMPO - s.blocksSinceStep)
  }

  /** The first block at which the epoch steps. */
  function FirstStep(s: Schedule): int {
    Min(FirstDue(s), Forced(s))
  }

  /** Whether the first step is already visible to the reveals of its own block. */
  predicate Announced(s: Schedule) {
    FirstDue(s) <= Forced(s) || s.blocksSinceStep > MAX_TEMPO
  }

  /** Blocks between later steps: an overlong tempo is cut short by the overdue cap. */
  function Gap(s: Schedule): int {
    Min(s.tempo, MAX_TEMPO + 1)
  }

  function StepBlock(s: Schedule, j: int): int {
    FirstStep(s) + (j - 1) * Gap(s)
  }

  /** The first block at which reveals see `j` more epochs. */
  function Visible(s: Schedule, j: int): int {
    if j == 1 then FirstStep(s) + (if Announced(s) then 0 else 1)
    else StepBlock(s, j) + (if s.tempo <= MAX_TEMPO + 1 then 0 else 1)
  }

  function DueNow(s: Schedule): int {
    if s.Due(s.block + 1) then 1 else 0
  }

  function Target(s: Schedule, period: int): int {
    s.epoch + DueNow(s) + period
  }

  /** The index jumps over the target: only a tempo of 1 whose first step is forced does this. */
  predicate Skips(s: Schedule, period: int) {
    && s.tempo == 1 && period == 1 && !Announced(s) && s.epoch + 1 < U64_MAX
  }

  function LastSimulated(s: Schedule, period: int): int {
    s.block + 1 + (period + 1) * MAX_TEMPO
  }

  /** What `RevealBlock` returns, without simulating. */
  function Reveal(s: Schedule, period: u64): Result<u64, ScheduleError> {
    if s.tempo == 0 || !(1 <= period <= 100) then Err(InvalidTempoOrPeriod)
    else if s.block + 1 > U64_MAX then Err(BlockOverflow)
    else if Target(s, period) > U64_MAX then Err(EpochOverflow)
    else if LastSimulated(s, period) > U64_MAX then Err(BlockOverflow)
    else if Skips(s, period) then Err(ExceedsBound)
    else
      VisibleBound(s, period);
      Ok(Visible(s, period + DueNow(s)))
  }

  /** A schedule and period the simulation accepts. */
  predicate Accepted(s: Schedule, period: int) {
    && s.tempo > 0 && 1 <= period <= 100
    && Target(s, period) <= U64_MAX && LastSimulated(s, period) <= U64_MAX
  }

  lemma Scale(a: int, b: int, c: int, d: int)
    requires 0 <= a <= b && 0 <= c <= d
    ensures 0 <= a * c <= b * d
  {
    assert a * c <= b * c <= b * d;
  }

  lemma VisibleBound(s: Schedule, period: int)
    requires Accepted(s, period)
    ensures s.block < Visible(s, period + DueNow(s)) <= s.block + 2 + period * (MAX_TEMPO + 1)
    ensures s.block + 2 + period * (MAX_TEMPO + 1) <= LastSimulated(s, period)
  {
    Scale(period + DueNow(s) - 1, period + DueNow(s) - 1, Gap(s), MAX_TEMPO + 1);
  }

  // ----- the simulation follows the closed form

  lemma {:induction false} BeforeFirstStep(s: Schedule, b: int)
    requires s.tempo > 0 && s.block < b <= FirstStep(s) && b <= U64_MAX
    ensures After(s, b - s.block - 1) == s.(blocksSinceStep := SaturatingAdd(s.blocksSinceStep, b - s.block - 1))
    decreases b
  {
    if b > s.block + 1 { BeforeFirstStep(s, b - 1); }
  }

  /** The clock `k` blocks after the `j`-th step. */
  function Settled(s: Schedule, j: int, k: int): Schedule
    requires j >= 1 && 1 <= k <= Gap(s) && StepBlock(s, j) <= U64_MAX && s.block < FirstStep(s)
  {
    Scale(0, j - 1, 0, Gap(s));
    s.(lastEpoch := StepBlock(s, j), pendingEpoch := 0, epoch := Min(s.epoch + j, U64_MAX), blocksSinceStep := k - 1)
  }

  lemma AfterFirstStep(s: Schedule)
    requires s.tempo > 0 && FirstStep(s) + 1 <= U64_MAX
    ensures s.block < FirstStep(s)
    ensures After(s, FirstStep(s) + 1 - s.block - 1) == Settled(s, 1, 1)
  {
    BeforeFirstStep(s, FirstStep(s));
  }

  lemma {:induction false} AfterSteps(s: Schedule, j: int, k: int)
    requires s.tempo > 0 && j >= 1 && 1 <= k <= Gap(s) && StepBlock(s, j) + k <= U64_MAX
    ensures s.block < FirstStep(s) <= StepBlock(s, j)
    ensures After(s, StepBlock(s, j) + k - s.block - 1) == Settled(s, j, k)
    decreases j, k
  {
    hide FirstDue, Forced;
    Scale(0, j - 1, 0, Gap(s));
    AfterFirstStep(s);
    if k > 1 {
      AfterSteps(s, j, k - 1);
    } else if j > 1 {
      assert StepBlock(s, j) == StepBlock(s, j - 1) + Gap(s);
      AfterSteps(s, j - 1, Gap(s));
    }
  }

  lemma IndexBefore(s: Schedule, b: int)
    requires s.tempo > 0 && s.block < b <= FirstStep(s) && b <= U64_MAX
    ensures IndexAt(s, b) == if b == FirstStep(s) && Announced(s) then SaturatingAdd(s.epoch, 1) else s.epoch
  {
    BeforeFirstStep(s, b);
  }

  lemma IndexAfter(s: Schedule, j: int, k: int)
    requires s.tempo > 0 && j >= 1 && 1 <= k <= Gap(s) && StepBlock(s, j) + k <= U64_MAX
    ensures s.block < StepBlock(s, j)
    ensures IndexAt(s, StepBlock(s, j) + k) == Min(s.epoch + j + (if k == s.tempo then 1 else 0), U64_MAX)
  {
    AfterSteps(s, j, k);
  }

  /** The lookahead index never decreases, and rises by two only in the forced tempo-1 case. */
  lemma IndexStep(s: Schedule, b: int)
    requires s.tempo > 0 && s.block < b < U64_MAX
    ensures IndexAt(s, b) <= IndexAt(s, b + 1)
    ensures IndexAt(s, b + 1) <= IndexAt(s, b) + 2
    ensures IndexAt(s, b + 1) == IndexAt(s, b) + 2 <==>
            var clock := After(s, b - s.block - 1);
            s.tempo == 1 && !clock.Due(b) && clock.blocksSinceStep == MAX_TEMPO && clock.epoch + 2 <= U64_MAX
  {
    TempoKept(s, b - s.block - 1);
  }

  lemma {:induction false} TempoKept(s: Schedule, n: nat)
    requires s.block + n <= U64_MAX
    ensures After(s, n).tempo == s.tempo
    ensures s.lastEpoch <= s.block ==> After(s, n).lastEpoch <= s.block + n
  {
    if n > 0 { TempoKept(s, n - 1); }
  }

  /** A clock whose last epoch is not in the future sees every index. */
  lemma NoSkip(s: Schedule, b: int)
    requires s.tempo > 0 && s.block < b < U64_MAX && s.lastEpoch <= s.block
    ensures IndexAt(s, b) <= IndexAt(s, b + 1) <= IndexAt(s, b) + 1
  {
    IndexStep(s, b);
    TempoKept(s, b - s.block - 1);
  }

  lemma {:induction false} IndexMonotone(s: Schedule, b: int, c: int)
    requires s.tempo > 0 && s.block < b <= c <= U64_MAX
    ensures IndexAt(s, b) <= IndexAt(s, c)
    decreases c
  {
    if b < c {
      IndexMonotone(s, b, c - 1);
      IndexStep(s, c - 1);
    }
  }

  /** At its visible block the index is the target, and just before it is less. */
  lemma TargetReached(s: Schedule, period: int)
    requires Accepted(s, period) && !Skips(s, period)
    ensures var v := Visible(s, period + DueNow(s));
            && s.block < v <= LastSimulated(s, period)
            && IndexAt(s, v) == Target(s, period)
            && (s.block + 1 < v ==> IndexAt(s, v - 1) < Target(s, period))
  {
    hide After, IndexAt;
    VisibleBound(s, period);
    var n := period + DueNow(s);
    if n == 1 {
      IndexBefore(s, FirstStep(s));
      if Announced(s) {
        if s.block + 1 < FirstStep(s) { IndexBefore(s, FirstStep(s) - 1); }
      } else {
        IndexAfter(s, 1, 1);
      }
    } else {
      LaterTargetReached(s, n);
    }
  }

  lemma LaterTargetReached(s: Schedule, n: int)
    requires s.tempo > 0 && n >= 2 && s.epoch + n <= U64_MAX && Visible(s, n) <= U64_MAX
    ensures s.block + 1 < Visible(s, n)
    ensures IndexAt(s, Visible(s, n)) == s.epoch + n
    ensures IndexAt(s, Visible(s, n) - 1) < s.epoch + n
  {
    hide After, IndexAt, FirstDue, Forced;
    var gap := Gap(s);
    assert StepBlock(s, n) == StepBlock(s, n - 1) + gap;
    if s.tempo <= MAX_TEMPO + 1 {
      IndexAfter(s, n - 1, gap);
      if gap > 1 {
        IndexAfter(s, n - 1, gap - 1);
      } else if n > 2 {
        assert StepBlock(s, n - 1) == StepBlock(s, n - 2) + gap;
        IndexAfter(s, n - 2, 1);
      } else {
        IndexBefore(s, FirstStep(s));
      }
    } else {
      IndexAfter(s, n, 1);
      IndexAfter(s, n - 1, gap);
    }
  }

  /** The block returned is the first one at which a reveal sees the target index. */
  lemma RevealIsFirst(s: Schedule, period: u64, c: int)
    requires Accepted(s, period) && Reveal(s, period).Ok?
    requires s.block < c <= LastSimulated(s, period)
    ensures s.block < Reveal(s, period).value <= LastSimulated(s, period)
    ensures c < Reveal(s, period).value ==> IndexAt(s, c) < Target(s, period)
    ensures c == Reveal(s, period).value ==> IndexAt(s, c) == Target(s, period)
  {
    TargetReached(s, period);
    var v := Visible(s, period + DueNow(s));
    if c < v { IndexMonotone(s, c, v - 1); }
  }

  /** When the simulation gives up, no simulated block ever sees the target index. */
  lemma SkippedForever(s: Schedule, period: u64, c: int)
    requires Accepted(s, period) && Skips(s, period)
    requires s.block < c <= LastSimulated(s, period)
    ensures IndexAt(s, c) != Target(s, period)
  {
    IndexBefore(s, FirstStep(s));
    IndexAfter(s, 1, 1);
    if c <= FirstStep(s) { IndexMonotone(s, c, FirstStep(s)); } else { IndexMonotone(s, FirstStep(s) + 1, c); }
  }

  function Clock(s: Schedule, lastEpoch: u64, pendingEpoch: u64, epoch: u64, blocksSinceStep: u64): Schedule {
    s.(lastEpoch := lastEpoch, pendingEpoch := pendingEpoch, epoch := epoch, blocksSinceStep := blocksSinceStep)
  }

  lemma SimulationStarts(s: Schedule)
    ensures After(s, 0) == s
  {}

  /** One turn of the simulation: what reveals see at `block`, then the step. */
  lemma SimulationStep(s: Schedule, block: u64)
    requires s.block < block
    ensures var before := After(s, block - s.block - 1);
            IndexAt(s, block) == before.Lookahead(block) && After(s, block - s.block) == before.Step(block)
  {}

  /** The block-by-block simulation, as the validator runs it on its copy of the clock. */
  method RevealBlock(s: Schedule, period: u64) returns (r: Result<u64, ScheduleError>)
    ensures r == Reveal(s, period)
  {
    if s.tempo == 0 || !(1 <= period <= 100) {
      return Err(InvalidTempoOrPeriod);
    }
    if s.block + 1 > U64_MAX {
      return Err(BlockOverflow);
    }
    var first := s.block + 1;
    var target := s.epoch + (if s.Due(first) then 1 else 0) + period;
    if target > U64_MAX {
      return Err(EpochOverflow);
    }
    var end := first + (period + 1) * MAX_TEMPO;
    if end > U64_MAX {
      return Err(BlockOverflow);
    }
    SimulationStarts(s);
    assert Accepted(s, period) && target == Target(s, period) && end == LastSimulated(s, period);
    hide Accepted, Target, LastSimulated, Visible, Skips, FirstStep, Gap, After, IndexAt, Reveal, Schedule.Due;
    var lastEpoch: u64, pendingEpoch: u64, epoch: u64, blocksSinceStep: u64 :=
      s.lastEpoch, s.pendingEpoch, s.epoch, s.blocksSinceStep;
    for block := first to end + 1
      invariant first <= block
      invariant Clock(s, lastEpoch, pendingEpoch, epoch, blocksSinceStep) == After(s, block - first)
      invariant forall c :: first <= c < block ==> IndexAt(s, c) != target
    {
      SimulationStep(s, block);
      var clock := Clock(s, lastEpoch, pendingEpoch, epoch, blocksSinceStep);
      if SaturatingAdd(epoch, if clock.Due(block) then 1 else 0) == target {
        Matches(s, period, block);
        return Ok(block);
      }
      blocksSinceStep := SaturatingAdd(blocksSinceStep, 1);
      clock := clock.(blocksSinceStep := blocksSinceStep);
      if clock.Due(block) {
        lastEpoch := block;
        pendingEpoch := 0;
        epoch := SaturatingAdd(epoch, 1);
        blocksSinceStep := 0;
      }
    }
    NoMatch(s, period);
    return Err(ExceedsBound);
  }

  lemma Matches(s: Schedule, period: u64, b: int)
    requires Accepted(s, period) && s.block < b <= LastSimulated(s, period)
    requires IndexAt(s, b) == Target(s, period)
    requires forall c :: s.block < c < b ==> IndexAt(s, c) != Target(s, period)
    ensures Reveal(s, period) == Ok(b)
  {
    hide Visible, IndexAt, After;
    if Skips(s, period) {
      SkippedForever(s, period, b);
    } else {
      RevealIsFirst(s, period, b);
      RevealIsFirst(s, period, Reveal(s, period).value);
    }
  }

  lemma NoMatch(s: Schedule, period: u64)
    requires Accepted(s, period)
    requires forall c :: s.block < c <= LastSimulated(s, period) ==> IndexAt(s, c) != Target(s, period)
    ensures Reveal(s, period) == Err(ExceedsBound)
  {
    if !Skips(s, period) { TargetReached(s, period); }
  }

  /** The bound is exceeded exactly when the target is skipped, and never when the last epoch is past. */
  lemma BoundIsEnough(s: Schedule, period: u64)
    requires Accepted(s, period)
    ensures Reveal(s, period) == Err(ExceedsBound) <==> Skips(s, period)
    ensures s.lastEpoch <= s.block ==> Reveal(s, period).Ok?
    ensures Reveal(s, period).Ok? ==>
              s.block + 1 <= Reveal(s, period).value <= s.block + 1 + period * (MAX_TEMPO + 1) + 1
  {
    VisibleBound(s, period);
  }

  /** What is refused, and why, before anything is simulated. */
  lemma RefusesExactly(s: Schedule, period: u64)
    ensures Reveal(s, period).Ok? || Reveal(s, period) == Err(ExceedsBound) <==>
            && s.tempo > 0 && 1 <= period <= 100
            && s.epoch + DueNow(s) + period <= U64_MAX
            && s.block + 1 + (period + 1) * MAX_TEMPO <= U64_MAX
    ensures Reveal(s, period) == Err(InvalidTempoOrPeriod) <==> s.tempo == 0 || !(1 <= period <= 100)
    ensures Reveal(s, period) == Err(EpochOverflow) <==>
            && s.tempo > 0 && 1 <= period <= 100 && s.block < U64_MAX
            && s.epoch + DueNow(s) + period > U64_MAX
  {
    hide Visible, Skips, DueNow;
  }

  /** A clock whose last epoch lies ahead of its block can exceed the bound. */
  lemma FutureEpochExceedsBound()
    ensures var s := Schedule(100, 1_000, 0, 7, 1, MAX_TEMPO);
            Accepted(s, 1) && Reveal(s, 1) == Err(ExceedsBound)
  {}

  /** For an ordinary tempo the answer is the first due epoch plus whole tempos. */
  lemma UsualClosedForm(s: Schedule, period: u64)
    requires Accepted(s, period) && s.tempo <= MAX_TEMPO
    ensures s.Due(s.block + 1) ==> Reveal(s, period) == Ok(s.block + 1 + period * s.tempo)
    ensures !s.Due(s.block + 1) && s.blocksSinceStep + (FirstDue(s) - (s.block + 1)) <= MAX_TEMPO ==>
              Reveal(s, period) == Ok(FirstDue(s) + (period - 1) * s.tempo)
  {
    var j := period + DueNow(s);
    assert s.Due(s.block + 1) ==> FirstStep(s) == s.block + 1 && j == period + 1;
    assert !s.Due(s.block + 1) && s.blocksSinceStep + (FirstDue(s) - (s.block + 1)) <= MAX_TEMPO ==>
      FirstStep(s) == FirstDue(s) && Announced(s) && j == period;
    assert StepBlock(s, j) == FirstStep(s) + (j - 1) * s.tempo;
    VisibleBound(s, period);
    hide FirstStep, FirstDue, Schedule.Due, StepBlock, Gap;
  }

  /** An epoch is called for at `b` by the tempo or by a pending epoch. */
  predicate CalledFor(s: Schedule, b: int) {
    b >= s.lastEpoch + s.tempo || 0 < s.pendingEpoch <= b
  }

  /** The first block after the snapshot at which an epoch is called for. */
  ghost predicate IsFirstCall(s: Schedule, f: int) {
    s.block < f && CalledFor(s, f) && forall b :: s.block < b < f ==> !CalledFor(s, b)
  }

  lemma FirstCall(s: Schedule, f: int)
    requires IsFirstCall(s, f) && s.tempo > 0
    ensures f == FirstDue(s)
  {
    assert CalledFor(s, FirstDue(s));
  }

  /**
   The answer for an ordinary tempo, from the first block `f` that calls for an epoch: whole tempos
   from the next block when one is due there already, from `f` when the overdue cap is not reached
   before, and otherwise from the block the cap forces, which reveals see one block late.
   */
  lemma RevealFromFirstCall(s: Schedule, period: u64, f: int)
    requires Accepted(s, period) && s.tempo <= 50_400 && IsFirstCall(s, f)
    ensures var first := s.block + 1;
            if f == first || s.blocksSinceStep > 50_400 then Reveal(s, period) == Ok(first + period * s.tempo)
            else if s.blocksSinceStep + (f - first) <= 50_400 then Reveal(s, period) == Ok(f + (period - 1) * s.tempo)
            else
              var forced := first + (50_400 - s.blocksSinceStep);
              && (period > 1 ==> Reveal(s, period) == Ok(forced + (period - 1) * s.tempo))
              && (period == 1 && s.tempo > 1 ==> Reveal(s, period) == Ok(forced + 1))
  {
    FirstCall(s, f);
    UsualClosedForm(s, period);
    DueIsCalledFor(s);
    if !s.Due(s.block + 1) && s.blocksSinceStep + (f - (s.block + 1)) > MAX_TEMPO { ForcedClosedForm(s, period); }
    hide Reveal, Accepted, Schedule.Due, FirstDue;
  }

  lemma DueIsCalledFor(s: Schedule)
    requires s.tempo > 0
    ensures s.Due(s.block + 1) <==> s.blocksSinceStep > MAX_TEMPO || CalledFor(s, s.block + 1)
  {}

  /** The overdue cap steps the epoch before anything else is due. */
  lemma ForcedClosedForm(s: Schedule, period: u64)
    requires Accepted(s, period) && s.tempo <= MAX_TEMPO && !s.Due(s.block + 1)
    requires s.blocksSinceStep + (FirstDue(s) - (s.block + 1)) > MAX_TEMPO
    ensures var forced := s.block + 1 + (MAX_TEMPO - s.blocksSinceStep);
            && (period > 1 ==> Reveal(s, period) == Ok(forced + (period - 1) * s.tempo))
            && (period == 1 && s.tempo > 1 ==> Reveal(s, period) == Ok(forced + 1))
  {
    assert FirstStep(s) == s.block + 1 + (MAX_TEMPO - s.blocksSinceStep) && !Announced(s) && DueNow(s) == 0;
    assert StepBlock(s, period) == FirstStep(s) + (period - 1) * s.tempo;
    VisibleBound(s, period);
    hide FirstStep, FirstDue, Schedule.Due, StepBlock, Announced, DueNow;
  }

  /** A longer reveal period reveals strictly later. */
  lemma LaterPeriodRevealsLater(s: Schedule, p: u64, q: u64)
    requires Reveal(s, p).Ok? && Reveal(s, q).Ok? && p < q
    ensures Reveal(s, p).value < Reveal(s, q).value
  {
    Scale(p + DueNow(s), q + DueNow(s) - 1, Gap(s), Gap(s));
    assert (p + DueNow(s)) * Gap(s) == (p + DueNow(s) - 1) * Gap(s) + Gap(s);
  }

  // ----- the drand round

  /** The Quicknet round whose signature opens a commit revealed at `revealBlock`. */
  function RevealRound(now: u64, block: u64, revealBlock: u64): Result<u64, ScheduleError>
    requires block < revealBlock && (revealBlock - block + 3) * 12 <= U64_MAX
  {
    var target := now + (revealBlock - block + 3) * 12;
    if target > U64_MAX then Err(TimeOverflow)
    else Ok(Max(SaturatingSub(target, QUICKNET_GENESIS) / 3, 1))
  }

  /** The unchecked product cannot overflow, and the round is the one in force at the reveal time. */
  lemma RoundCoversReveal(s: Schedule, period: u64, now: u64)
    requires Reveal(s, period).Ok?
    ensures var b := Reveal(s, period).value;
            && s.block < b && (b - s.block + 3) * 12 <= U64_MAX
            && var target := now + (b - s.block + 3) * 12;
            && (RevealRound(now, s.block, b).Err? <==> target > U64_MAX)
            && (target <= U64_MAX && target >= QUICKNET_GENESIS + 3 ==>
                  var round := RevealRound(now, s.block, b).value;
                  QUICKNET_GENESIS + 3 * round <= target < QUICKNET_GENESIS + 3 * round + 3)
            && (target < QUICKNET_GENESIS + 3 ==> RevealRound(now, s.block, b) == Ok(1))
  {
    BoundIsEnough(s, period);
  }
}
