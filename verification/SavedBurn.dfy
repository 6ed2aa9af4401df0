/**
 What a saved burn epoch says about the chain. The validator takes `LastUpdate` at or after an epoch
 as proof that weights for it are on chain; here is exactly when that is so.
 */
module SavedBurn {
  import opened Common
  import opened StateStore
  import opened ChainView
  import opened Submission
  import opened SubmissionSafety

  /** Weights of this validator took effect at or after block `e`. */
  ghost predicate WeightsSince(c: Chain, e: int) {
    exists l :: l in c.landed && e <= l.block
  }

  lemma CoveredExactly(c: Chain, e: int)
    requires Tracked(c)
    ensures e <= c.lastUpdate <==> e <= c.registered || WeightsSince(c, e)
  {}

  /** Behind every saved burn there is a landing that recent, or a move of `LastUpdate` without weights. */
  lemma SavedBurnHasCause(w: World, me: Identity, actions: seq<Action>)
    requires Fresh(w) && BurnIsCovered(w) && HonestAll(w, me, actions)
    ensures var v := ActAll(w, me, actions);
            Load(v.state).Ok? && Load(v.state).value.burnEpoch.Some? ==>
              var e := Load(v.state).value.burnEpoch.value;
              e <= v.chain.registered || WeightsSince(v.chain, e)
  {
    hide Load;
    var v := ActAll(w, me, actions);
    SavedBurnIsCovered(w, me, actions);
    AlwaysInv(w, me, actions);
    if Load(v.state).Ok? && Load(v.state).value.burnEpoch.Some? {
      CoveredExactly(v.chain, Load(v.state).value.burnEpoch.value);
    }
  }

  predicate NoneRegisters(blocks: seq<Block>) {
    forall i :: 0 <= i < |blocks| ==> !blocks[i].registers
  }

  /** No block of the history registers this validator's hotkey. */
  predicate NeverRegisters(actions: seq<Action>) {
    forall i :: 0 <= i < |actions| ==>
      match actions[i]
      case Mined(b) => !b.registers
      case Ran(a) => NoneRegisters(a.watched)
  }

  lemma {:induction false} MineAllRegisters(c: Chain, blocks: seq<Block>)
    requires NoneRegisters(blocks)
    ensures MineAll(c, blocks).registered == c.registered
  {
    if blocks != [] { MineAllRegisters(c, blocks[..|blocks| - 1]); }
  }

  lemma RunRegisters(w: World, me: Identity, a: Attempt)
    requires NoneRegisters(a.watched)
    ensures RunOnce(w, me, a).0.chain.registered == w.chain.registered
  {
    hide MineAll, Load, Encode, ReadSnapshot, ValidateChain, RateLimit;
    forall ext: Extrinsic ensures MineAll(Enter(w.chain, ext), a.watched).registered == w.chain.registered {
      MineAllRegisters(Enter(w.chain, ext), a.watched);
    }
  }

  lemma {:induction false} AllRegister(w: World, me: Identity, actions: seq<Action>)
    requires NeverRegisters(actions)
    ensures ActAll(w, me, actions).chain.registered == w.chain.registered
  {
    hide RunOnce;
    if actions != [] {
      var before, last := actions[..|actions| - 1], actions[|actions| - 1];
      AllRegister(w, me, before);
      if last.Ran? { RunRegisters(ActAll(w, me, before), me, last.attempt); }
    }
  }

  /** Without a registration in between, a saved burn means weights that recent, sent before or in this history. */
  lemma SavedBurnMeansWeights(w: World, me: Identity, actions: seq<Action>)
    requires Fresh(w) && BurnIsCovered(w) && HonestAll(w, me, actions) && NeverRegisters(actions)
    ensures var v := ActAll(w, me, actions);
            Load(v.state).Ok? && Load(v.state).value.burnEpoch.Some? ==>
              var e := Load(v.state).value.burnEpoch.value;
              e <= w.chain.lastUpdate || WeightsSince(v.chain, e)
  {
    SavedBurnHasCause(w, me, actions);
    AllRegister(w, me, actions);
  }

  // ----- settling an epoch without a broadcast

  /** The run records `e` as burned and sends nothing. */
  predicate SavesUnsent(w: World, v: World, e: u64) {
    v.chain.sent == w.chain.sent && Load(v.state).Ok? && Load(v.state).value.burnEpoch == Some(e)
  }

  /**
   An otherwise ready run settles the epoch without a broadcast if and only if weights took effect at
   or after its end, or `LastUpdate` moved there without weights.
   */
  lemma SavesUnsentExactly(w: World, me: Identity, a: Attempt)
    requires Inv(w, me) && Honest(w.chain, me, a) && Settleable(w, me, a)
    ensures var e := a.summary.value.epochEnd;
            SavesUnsent(w, RunOnce(w, me, a).0, e) <==> e <= w.chain.registered || WeightsSince(w.chain, e)
  {
    var s, summary, saved := ReadSnapshot(a.storage).value, a.summary.value, Load(w.state).value;
    CoveredExactly(w.chain, summary.epochEnd);
    SnapshotIsConsistent(a.storage);
    LoadAcceptsExactly(saved, w.state);
    var next := if saved.epoch == Some(summary.epochEnd) then saved else Processed(saved, summary);
    LoadAcceptsExactly(next, w.state);
    LoadAcceptsExactly(next.(burnEpoch := Some(summary.epochEnd)), w.state);
    hide Load, Encode, ReadSnapshot, ValidateChain, Inv, WeightsSince, RateLimit, Submit, Tracked;
    var settled := if saved.epoch == Some(summary.epochEnd) then w else w.(state := Encode(next));
    assert RunOnce(w, me, a) == SettleEpoch(settled, me, s, summary, next, a);
    SettlesUnsent(settled, me, s, summary, next, a);
  }

  lemma SettlesUnsent(w: World, me: Identity, s: Snapshot, summary: Summary, saved: ValidatorState, a: Attempt)
    requires forall c: Call :: a.effect(c).Done?
    requires Position(s.hotkeys, me.hotkey) < |s.hotkeys| == |s.lastUpdates|
    requires Load(w.state) == Ok(saved) && saved.burnEpoch != Some(summary.epochEnd)
    requires var settled := saved.(burnEpoch := Some(summary.epochEnd)); Load(Encode(settled)) == Ok(settled)
    ensures SavesUnsent(w, SettleEpoch(w, me, s, summary, saved, a).0, summary.epochEnd) <==>
            s.lastUpdates[Position(s.hotkeys, me.hotkey)] >= summary.epochEnd
  {
    hide Load, Encode, Submit;
    SubmitSendsOrStops(w, me, Extrinsic(s.finalizedBlock, summary.epochEnd, summary.id, summary.digest), a);
  }

  lemma SubmitSendsOrStops(w: World, me: Identity, ext: Extrinsic, a: Attempt)
    ensures var (v, ending) := Submit(w, me, ext, a);
            v.state == w.state && (ending == Finished ==> v.chain.sent == w.chain.sent + [ext])
  {
    hide MineAll, HasLanded;
    SentThrough(Enter(w.chain, ext), a.watched);
  }

  // ----- what a saved burn does not say

  const ME := Identity("genesis", 1, "hotkey")

  /** One UID, tempo 5, and an epoch that ended at block `step`. */
  function StorageAt(block: u64, step: u64, lastUpdate: u64): Storage
    requires step <= block
  {
    Storage(block, 1, 5, step, block - step, [lastUpdate], 0, [(0, "hotkey")])
  }

  function SummaryOf(step: u64): Summary
    requires 4 <= step
  {
    Summary("id", "digest", step - 4, step, step, 5, [], Some(0), Some(1))
  }

  /** A run in which every call completes but no finalized success is seen. */
  function AttemptAt(block: u64, step: u64, lastUpdate: u64): Attempt
    requires 4 <= step <= block
  {
    Attempt(_ => Done, StorageAt(block, step, lastUpdate), Some(SummaryOf(step)), [], false)
  }

  function FirstWorld(): World {
    World(Chain.Chain(104, {100}, 0, 0, [], {}, {}), Missing, NoGuard)
  }

  lemma SnapshotAt(block: u64, step: u64, lastUpdate: u64)
    requires 4 <= step <= block
    ensures var s := Snapshot(block, 5, step, ["hotkey"], [lastUpdate], 0);
            ReadSnapshot(StorageAt(block, step, lastUpdate)) == Ok(s) && ValidateChain(SummaryOf(step), s).None?
    ensures Position(["hotkey"], ME.hotkey) == 0
  {
    var keys: seq<(u16, string)> := [(0, "hotkey")];
    assert keys[..0] == [];
    assert Roster(keys) == map[0 := "hotkey"];
    assert Hotkeys(Roster(keys), 0) == Ok([]);
    assert [] + ["hotkey"] == ["hotkey"];
    assert Hotkeys(Roster(keys), 1) == Ok(["hotkey"]);
  }

  lemma HonestAt(c: Chain, block: u64, step: u64)
    requires 4 <= step <= block == c.head && step in c.steps && c.lastUpdate <= U64_MAX
    ensures Honest(c, ME, AttemptAt(block, step, c.lastUpdate))
  {
    SnapshotAt(block, step, c.lastUpdate);
    hide ReadSnapshot;
  }

  /** A run that finds `LastUpdate` at or after its epoch saves the burn and leaves the rest alone. */
  lemma FindsCovered(w: World, step: u64)
    requires 4 <= step <= w.chain.lastUpdate <= w.chain.head <= U64_MAX
    requires Load(w.state).Ok? && Acceptable(Load(w.state).value)
    requires Load(w.state).value.epoch.Some? ==> Load(w.state).value.epoch.value < step
    ensures var v := RunOnce(w, ME, AttemptAt(w.chain.head, step, w.chain.lastUpdate)).0;
            v.chain == w.chain && Load(v.state).Ok? && Load(v.state).value.burnEpoch == Some(step)
  {
    var saved := Load(w.state).value;
    SnapshotAt(w.chain.head, step, w.chain.lastUpdate);
    LoadAcceptsExactly(Processed(saved, SummaryOf(step)).(burnEpoch := Some(step)), w.state);
    hide ReadSnapshot, ValidateChain, Load, Encode, Submit;
  }

  lemma Extended(w: World, actions: seq<Action>, last: Action)
    requires HonestAll(w, ME, actions)
    requires last.Ran? ==> Honest(ActAll(w, ME, actions).chain, ME, last.attempt)
    ensures ActAll(w, ME, actions + [last]) == Act(ActAll(w, ME, actions), ME, last)
    ensures HonestAll(w, ME, actions + [last])
  {
    assert (actions + [last])[..|actions|] == actions;
  }

  /** A registration alone: the burn is saved although nothing was ever sent. */
  lemma RegistrationPassesForWeights()
    ensures var actions := [Mined(Block(false, true, {}, {})), Ran(AttemptAt(105, 100, 105))];
            var v := ActAll(FirstWorld(), ME, actions);
            && Fresh(FirstWorld()) && BurnIsCovered(FirstWorld()) && HonestAll(FirstWorld(), ME, actions)
            && Load(v.state).Ok? && Load(v.state).value.burnEpoch == Some(100)
            && v.chain.sent == [] && v.chain.landed == {}
  {
    hide RunOnce, Honest, ActAll, HonestAll, Load;
    var mined, ran := Mined(Block(false, true, {}, {})), Ran(AttemptAt(105, 100, 105));
    var v := Act(FirstWorld(), ME, mined);
    NothingSaved();
    NoActions(FirstWorld());
    Extended(FirstWorld(), [], mined);
    HonestAt(v.chain, 105, 100);
    assert [] + [mined] == [mined] && [mined] + [ran] == [mined, ran];
    Extended(FirstWorld(), [mined], ran);
    FindsCovered(v, 100);
  }

  /** Weights for epoch 100 that land in block 106 settle epoch 105 as well. */
  lemma LateWeightsPassForTheNext()
    ensures var actions := [Ran(AttemptAt(104, 100, 0)), Mined(Block(true, false, {}, {})),
                            Mined(Block(false, false, {0}, {})), Ran(AttemptAt(106, 105, 106))];
            var v := ActAll(FirstWorld(), ME, actions);
            && HonestAll(FirstWorld(), ME, actions)
            && Load(v.state).Ok? && Load(v.state).value.burnEpoch == Some(105)
            && v.chain.sent == [Extrinsic(104, 100, "id", "digest")] && v.chain.landed == {Landing(106, 0)}
  {
    hide RunOnce, Honest, ActAll, HonestAll, Load;
    var w := FirstWorld();
    var sends, steps := Ran(AttemptAt(104, 100, 0)), Mined(Block(true, false, {}, {}));
    var lands, finds := Mined(Block(false, false, {0}, {})), Ran(AttemptAt(106, 105, 106));
    NoActions(w);
    SendsAt104();
    HonestAt(w.chain, 104, 100);
    assert [] + [sends] == [sends] && [sends] + [steps] == [sends, steps];
    assert [sends, steps] + [lands] == [sends, steps, lands];
    assert [sends, steps, lands] + [finds] == [sends, steps, lands, finds];
    Extended(w, [], sends);
    Extended(w, [sends], steps);
    Extended(w, [sends, steps], lands);
    var v := Act(Act(Act(w, ME, sends), ME, steps), ME, lands);
    LandsAt106(RunOnce(w, ME, sends.attempt).0.chain);
    HonestAt(v.chain, 106, 105);
    Extended(w, [sends, steps, lands], finds);
    FindsCovered(v, 105);
  }

  lemma NothingSaved()
    ensures Load(FirstWorld().state) == Ok(DEFAULT)
  {}

  lemma NoActions(w: World)
    ensures ActAll(w, ME, []) == w && HonestAll(w, ME, [])
  {}

  lemma LandsAt106(c: Chain)
    requires c == FirstWorld().chain.(sent := [Extrinsic(104, 100, "id", "digest")], pool := {0})
    ensures var d := Mine(Mine(c, Block(true, false, {}, {})), Block(false, false, {0}, {}));
            && d.head == d.lastUpdate == 106 && d.steps == {100, 105} && d.sent == c.sent
            && d.landed == {Landing(106, 0)}
  {
    var d := Mine(c, Block(true, false, {}, {}));
    assert Effective(c, Block(true, false, {}, {})) == {};
    assert d.landed == {};
    assert Effective(d, Block(false, false, {0}, {})) == {0};
  }

  lemma SendsAt104()
    ensures var v := RunOnce(FirstWorld(), ME, AttemptAt(104, 100, 0)).0;
            && v.chain == FirstWorld().chain.(sent := [Extrinsic(104, 100, "id", "digest")], pool := {0})
            && Load(v.state) == Ok(Processed(DEFAULT, SummaryOf(100)))
  {
    SnapshotAt(104, 100, 0);
    NothingSaved();
    var next := Processed(DEFAULT, SummaryOf(100));
    LoadAcceptsExactly(next, Missing);
    var ext := Extrinsic(104, 100, "id", "digest");
    UnseenSubmit(FirstWorld().(state := Encode(next)), ext, AttemptAt(104, 100, 0));
    hide ReadSnapshot, ValidateChain, Encode, Load, Submit;
  }

  /** A submission that completes without a finalized success seen leaves its extrinsic in the pool. */
  lemma UnseenSubmit(w: World, ext: Extrinsic, a: Attempt)
    requires w.guard.NoGuard? && ext.birth + MORTALITY_BLOCKS <= U64_MAX
    requires (forall c: Call :: a.effect(c).Done?) && a.watched == [] && !a.sawSuccess
    ensures var (v, ending) := Submit(w, ME, ext, a);
            v.chain == Enter(w.chain, ext) && v.state == w.state && ending == Refused(CallFailed)
  {}
}
