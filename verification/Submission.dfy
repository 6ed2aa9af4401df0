/**
 The weight-submission protocol: the finalized chain, the validator's two durable files, and one
 `run_once` over them. Any call may fail or be where the run is interrupted, and a broadcast
 extrinsic may take effect long after the run that sent it has ended.
 */
module Submission {
  import opened Common
  import opened StateStore
  import opened ChainView

  const MORTALITY_BLOCKS: int := 64

  // ----- the chain

  /** A signed weight extrinsic, born at a finalized block, with the summary whose scores it carries. */
  datatype Extrinsic = Extrinsic(birth: u64, epoch: u64, id: string, digest: string)

  /** An extrinsic, by its number, taking effect in a block. */
  datatype Landing = Landing(block: int, number: int)

  /**
   `lastUpdate` is what the chain reports for this validator. `registered` is the last block that
   moved it without weights: a registration, or where it stood before any extrinsic was sent.
   */
  datatype Chain = Chain(
    head: nat,
    steps: set<int>,
    lastUpdate: nat,
    registered: nat,
    sent: seq<Extrinsic>,
    pool: set<int>,
    landed: set<Landing>)

  /** What the next finalized block does, as far as this validator is concerned. */
  datatype Block = Block(step: bool, registers: bool, includes: set<int>, drops: set<int>)

  /** An extrinsic takes effect only from the pool, after its birth and before its era ends. */
  predicate Valid(c: Chain, number: int, block: int) {
    number in c.pool && 0 <= number < |c.sent| && c.sent[number].birth < block < c.sent[number].birth + MORTALITY_BLOCKS
  }

  function Effective(c: Chain, b: Block): set<int> {
    set number <- b.includes | Valid(c, number, c.head + 1)
  }

  /** The chain with one more finalized block; a registration also moves `LastUpdate`. */
  function Mine(c: Chain, b: Block): Chain {
    var height := c.head + 1;
    var effective := Effective(c, b);
    c.(head := height,
       steps := if b.step then c.steps + {height} else c.steps,
       lastUpdate := if effective != {} || b.registers then height else c.lastUpdate,
       registered := if b.registers then height else c.registered,
       pool := c.pool - effective - b.drops,
       landed := c.landed + set number <- effective :: Landing(height, number))
  }

  function MineAll(c: Chain, blocks: seq<Block>): Chain {
    if blocks == [] then c else Mine(MineAll(c, blocks[..|blocks| - 1]), blocks[|blocks| - 1])
  }

  predicate HasLanded(c: Chain, number: int) {
    exists l <- c.landed :: l.number == number
  }

  // ----- the validator's files

  /** The durable record written before a broadcast. */
  datatype Guard = Guard(genesis: string, netuid: u16, hotkey: string, expiresAt: u64)

  datatype GuardFile = NoGuard | Held(guard: Guard) | Corrupt

  datatype Identity = Identity(genesis: string, netuid: u16, hotkey: string)

  datatype World = World(chain: Chain, state: StateFile, guard: GuardFile)

  // ----- what one run meets

  datatype Call =
    | Lock | ReadChain | LoadState | SaveSummary
    | OpenBlock | ReadGuard | Prepare | SaveGuard | Broadcast | ClearGuard | SaveBurn

  /** A failed or interrupted call may have taken effect all the same. */
  datatype Effect = Done | Failed(took: bool) | Stopped(took: bool)

  predicate Takes(e: Effect) {
    e.Done? || e.took
  }

  datatype Attempt = Attempt(
    effect: Call -> Effect,
    storage: Storage,
    summary: Option<Summary>,
    watched: seq<Block>,
    sawSuccess: bool)

  datatype RunError =
    | Locked | FetchOrSignature | Chain(chainError: ChainError) | State(stateError: StateError)
    | OlderSummary | ChangedSummary | NotRegistered | NoMinerTarget
    | ForeignGuard | Uncertain(until: u64) | BlockOverflow | CallFailed

  datatype Ending = Finished | RateLimited(allowedFrom: u64) | Refused(error: RunError) | Interrupted

  function CallError(e: Effect): Ending
    requires !e.Done?
  {
    if e.Stopped? then Interrupted else Refused(CallFailed)
  }

  // ----- one run

  /** `uid` is the UID of `hotkey`: the first one that holds it. */
  predicate IsUid(hotkeys: seq<string>, hotkey: string, uid: int) {
    0 <= uid < |hotkeys| && hotkeys[uid] == hotkey && hotkey !in hotkeys[..uid]
  }

  /** The position found is the UID of the hotkey, if it has one, and no other number is. */
  lemma PositionIsUid(hotkeys: seq<string>, hotkey: string, uid: int)
    ensures IsUid(hotkeys, hotkey, uid) <==> hotkey in hotkeys && uid == Position(hotkeys, hotkey)
  {}

  /** The first UID holding `hotkey`, or the number of UIDs when there is none. */
  function Position(hotkeys: seq<string>, hotkey: string): (uid: nat)
    ensures uid <= |hotkeys| && hotkey !in hotkeys[..uid]
    ensures uid < |hotkeys| ==> hotkeys[uid] == hotkey
  {
    if hotkeys == [] || hotkeys[0] == hotkey then 0 else 1 + Position(hotkeys[1..], hotkey)
  }

  /** The first block at which the chain accepts weights again, when that is still ahead. */
  function RateLimit(s: Snapshot, lastUpdate: u64): Option<u64> {
    var allowedFrom := Min(lastUpdate + s.rateLimit, U64_MAX);
    if lastUpdate > 0 && allowedFrom > s.finalizedBlock then Some(allowedFrom) else None
  }

  predicate Owns(g: Guard, me: Identity) {
    g.genesis == me.genesis && g.netuid == me.netuid && g.hotkey == me.hotkey
  }

  /** Why the guard forbids a broadcast at `block`, if it does. */
  function GuardRefusal(file: GuardFile, me: Identity, block: u64): Option<RunError> {
    match file
    case NoGuard => None
    case Corrupt => Some(CallFailed)
    case Held(g) =>
      if !Owns(g, me) then Some(ForeignGuard)
      else if block < g.expiresAt then Some(Uncertain(g.expiresAt))
      else None
  }

  /** Guard, broadcast, watch, and clear the guard once success is final. */
  function Submit(w: World, me: Identity, ext: Extrinsic, a: Attempt): (World, Ending) {
    var f := ext.birth;
    if !a.effect(OpenBlock).Done? then (w, CallError(a.effect(OpenBlock)))
    else if !a.effect(ReadGuard).Done? then (w, CallError(a.effect(ReadGuard)))
    else if GuardRefusal(w.guard, me, f).Some? then (w, Refused(GuardRefusal(w.guard, me, f).value))
    else if !a.effect(Prepare).Done? then (w, CallError(a.effect(Prepare)))
    else if f + MORTALITY_BLOCKS > U64_MAX then (w, Refused(BlockOverflow))
    else
      var held := Held(Guard(me.genesis, me.netuid, me.hotkey, f + MORTALITY_BLOCKS));
      var guarded := if Takes(a.effect(SaveGuard)) then w.(guard := held) else w;
      if !a.effect(SaveGuard).Done? then (guarded, CallError(a.effect(SaveGuard)))
      else
        var number := |w.chain.sent|;
        var out := if Takes(a.effect(Broadcast)) then guarded.(chain := Enter(w.chain, ext)) else guarded;
        if !a.effect(Broadcast).Done? then (out, CallError(a.effect(Broadcast)))
        else Watch(out.(chain := MineAll(out.chain, a.watched)), number, a)
  }

  /** The extrinsic in the pool, next in number. */
  function Enter(c: Chain, ext: Extrinsic): Chain {
    c.(sent := c.sent + [ext], pool := c.pool + {|c.sent|})
  }

  /** Success is a finalized block in which the extrinsic really took effect. */
  function Watch(w: World, number: int, a: Attempt): (World, Ending) {
    if !(a.sawSuccess && HasLanded(w.chain, number)) then (w, Refused(CallFailed))
    else
      (if Takes(a.effect(ClearGuard)) then w.(guard := NoGuard) else w,
       if a.effect(ClearGuard).Done? then Finished else CallError(a.effect(ClearGuard)))
  }

  /** Record that this epoch's weights are on chain. */
  function FinishEpoch(w: World, saved: ValidatorState, epoch: u64, a: Attempt): (World, Ending) {
    (if Takes(a.effect(SaveBurn)) then w.(state := Encode(saved.(burnEpoch := Some(epoch)))) else w,
     if a.effect(SaveBurn).Done? then Finished else CallError(a.effect(SaveBurn)))
  }

  function SettleEpoch(w: World, me: Identity, s: Snapshot, summary: Summary, saved: ValidatorState, a: Attempt)
    : (World, Ending)
    requires |s.hotkeys| == |s.lastUpdates|
  {
    var uid := Position(s.hotkeys, me.hotkey);
    if saved.burnEpoch == Some(summary.epochEnd) then (w, Finished)
    else if uid == |s.hotkeys| then (w, Refused(NotRegistered))
    else if s.lastUpdates[uid] >= summary.epochEnd then FinishEpoch(w, saved, summary.epochEnd, a)
    else if RateLimit(s, s.lastUpdates[uid]).Some? then (w, RateLimited(RateLimit(s, s.lastUpdates[uid]).value))
    else if summary.minerTarget.None? || summary.taoPrice.None? then (w, Refused(NoMinerTarget))
    else
      var ext := Extrinsic(s.finalizedBlock, summary.epochEnd, summary.id, summary.digest);
      var (after, ending) := Submit(w, me, ext, a);
      if ending == Finished then FinishEpoch(after, saved, summary.epochEnd, a) else (after, ending)
  }

  function Processed(saved: ValidatorState, summary: Summary): ValidatorState {
    saved.(id := Some(summary.id), digest := Some(summary.digest), epoch := Some(summary.epochEnd))
  }

  function Process(w: World, me: Identity, s: Snapshot, summary: Summary, saved: ValidatorState, a: Attempt)
    : (World, Ending)
    requires |s.hotkeys| == |s.lastUpdates|
  {
    if saved.epoch.Some? && saved.epoch.value > summary.epochEnd then (w, Refused(OlderSummary))
    else if saved.epoch == Some(summary.epochEnd) then
      if saved.id != Some(summary.id) || saved.digest != Some(summary.digest) then (w, Refused(ChangedSummary))
      else SettleEpoch(w, me, s, summary, saved, a)
    else
      var next := Processed(saved, summary);
      var written := if Takes(a.effect(SaveSummary)) then w.(state := Encode(next)) else w;
      if !a.effect(SaveSummary).Done? then (written, CallError(a.effect(SaveSummary)))
      else SettleEpoch(written, me, s, summary, next, a)
  }

  /** One validator run: the world it leaves and how it ends. */
  function RunOnce(w: World, me: Identity, a: Attempt): (World, Ending) {
    if !a.effect(Lock).Done? then (w, if a.effect(Lock).Stopped? then Interrupted else Refused(Locked))
    else if !a.effect(ReadChain).Done? then (w, CallError(a.effect(ReadChain)))
    else
      match ReadSnapshot(a.storage)
      case Err(e) => (w, Refused(RunError.Chain(e)))
      case Ok(s) =>
        SnapshotIsConsistent(a.storage);
        if a.summary.None? then (w, Refused(FetchOrSignature))
        else if ValidateChain(a.summary.value, s).Some? then
          (w, Refused(RunError.Chain(ValidateChain(a.summary.value, s).value)))
        else if !a.effect(LoadState).Done? then (w, CallError(a.effect(LoadState)))
        else
          match Load(w.state)
          case Err(e) => (w, Refused(State(e)))
          case Ok(saved) => Process(w, me, s, a.summary.value, saved, a)
  }

  // ----- histories

  datatype Action = Mined(block: Block) | Ran(attempt: Attempt)

  function Act(w: World, me: Identity, action: Action): World {
    match action
    case Mined(b) => w.(chain := Mine(w.chain, b))
    case Ran(a) => RunOnce(w, me, a).0
  }

  function ActAll(w: World, me: Identity, actions: seq<Action>): World {
    if actions == [] then w else Act(ActAll(w, me, actions[..|actions| - 1]), me, actions[|actions| - 1])
  }

  /**
   The node answers from the finalized head: a real epoch step, and this validator's `LastUpdate`.
   A platform summary has a non-empty ID and digest.
   */
  ghost predicate Honest(c: Chain, me: Identity, a: Attempt) {
    && a.storage.block == c.head
    && a.storage.lastStep in c.steps
    && (ReadSnapshot(a.storage).Ok? ==>
          var s := ReadSnapshot(a.storage).value;
          forall uid :: IsUid(s.hotkeys, me.hotkey, uid) && uid < |s.lastUpdates| ==>
            s.lastUpdates[uid] == c.lastUpdate)
    && (a.summary.Some? ==> a.summary.value.id != "" && a.summary.value.digest != "")
  }

  ghost predicate HonestAll(w: World, me: Identity, actions: seq<Action>) {
    if actions == [] then true
    else
      var before, last := actions[..|actions| - 1], actions[|actions| - 1];
      HonestAll(w, me, before) && (last.Ran? ==> Honest(ActAll(w, me, before).chain, me, last.attempt))
  }
}
