/**
 The validator as it runs: a method that rewrites the state and the submission guard between its
 effects on the chain, proved to leave exactly what the model of a run gives.
 */
module Validator {
  import opened Common
  import opened StateStore
  import opened ChainView
  import opened Submission
  import Model = Submission

  class Validator {
    const me: Identity
    var chain: Chain
    var state: StateFile
    var guard: GuardFile

    constructor (me: Identity, chain: Chain, state: StateFile, guard: GuardFile)
      ensures this.me == me && Now() == World(chain, state, guard)
    {
      this.me, this.chain, this.state, this.guard := me, chain, state, guard;
    }

    function Now(): World
      reads this
    {
      World(chain, state, guard)
    }

    method SaveGuard(expiresAt: u64, effect: Effect)
      modifies this
      ensures Now() == old(Now()).(guard := if Takes(effect)
                                            then Held(Guard(me.genesis, me.netuid, me.hotkey, expiresAt))
                                            else old(guard))
    {
      if Takes(effect) {
        guard := Held(Guard(me.genesis, me.netuid, me.hotkey, expiresAt));
      }
    }

    method SaveState(saved: ValidatorState, effect: Effect)
      modifies this
      ensures Now() == old(Now()).(state := if Takes(effect) then Encode(saved) else old(state))
    {
      if Takes(effect) {
        state := Encode(saved);
      }
    }

    method Submit(ext: Extrinsic, a: Attempt) returns (ending: Ending)
      modifies this
      ensures (Now(), ending) == Model.Submit(old(Now()), me, ext, a)
    {
      if !a.effect(OpenBlock).Done? {
        return CallError(a.effect(OpenBlock));
      }
      if !a.effect(ReadGuard).Done? {
        return CallError(a.effect(ReadGuard));
      }
      var refusal := GuardRefusal(guard, me, ext.birth);
      if refusal.Some? {
        return Refused(refusal.value);
      }
      if !a.effect(Prepare).Done? {
        return CallError(a.effect(Prepare));
      }
      if ext.birth + MORTALITY_BLOCKS > U64_MAX {
        return Refused(BlockOverflow);
      }
      SaveGuard(ext.birth + MORTALITY_BLOCKS, a.effect(Call.SaveGuard));
      if !a.effect(Call.SaveGuard).Done? {
        return CallError(a.effect(Call.SaveGuard));
      }
      var number := |chain.sent|;
      if Takes(a.effect(Broadcast)) {
        chain := Enter(chain, ext);
      }
      if !a.effect(Broadcast).Done? {
        return CallError(a.effect(Broadcast));
      }
      chain := MineAll(chain, a.watched);
      if !(a.sawSuccess && HasLanded(chain, number)) {
        return Refused(CallFailed);
      }
      if Takes(a.effect(ClearGuard)) {
        guard := NoGuard;
      }
      return if a.effect(ClearGuard).Done? then Finished else CallError(a.effect(ClearGuard));
    }

    method SettleEpoch(s: Snapshot, summary: Summary, saved: ValidatorState, a: Attempt) returns (ending: Ending)
      requires |s.hotkeys| == |s.lastUpdates|
      modifies this
      ensures (Now(), ending) == Model.SettleEpoch(old(Now()), me, s, summary, saved, a)
    {
      if saved.burnEpoch == Some(summary.epochEnd) {
        return Finished;
      }
      var uid := Position(s.hotkeys, me.hotkey);
      if uid == |s.hotkeys| {
        return Refused(NotRegistered);
      }
      if s.lastUpdates[uid] < summary.epochEnd {
        var limit := RateLimit(s, s.lastUpdates[uid]);
        if limit.Some? {
          return RateLimited(limit.value);
        }
        if summary.minerTarget.None? || summary.taoPrice.None? {
          return Refused(NoMinerTarget);
        }
        ending := Submit(Extrinsic(s.finalizedBlock, summary.epochEnd, summary.id, summary.digest), a);
        if ending != Finished {
          return;
        }
      }
      SaveState(saved.(burnEpoch := Some(summary.epochEnd)), a.effect(SaveBurn));
      return if a.effect(SaveBurn).Done? then Finished else CallError(a.effect(SaveBurn));
    }

    method RunOnce(a: Attempt) returns (ending: Ending)
      modifies this
      ensures (Now(), ending) == Model.RunOnce(old(Now()), me, a)
    {
      if !a.effect(Lock).Done? {
        return if a.effect(Lock).Stopped? then Interrupted else Refused(Locked);
      }
      if !a.effect(ReadChain).Done? {
        return CallError(a.effect(ReadChain));
      }
      var read := ChainView.Read(a.storage);
      if read.Err? {
        return Refused(RunError.Chain(read.error));
      }
      SnapshotIsConsistent(a.storage);
      if a.summary.None? {
        return Refused(FetchOrSignature);
      }
      var s, summary := read.value, a.summary.value;
      var invalid := ValidateChain(summary, s);
      if invalid.Some? {
        return Refused(RunError.Chain(invalid.value));
      }
      if !a.effect(LoadState).Done? {
        return CallError(a.effect(LoadState));
      }
      var loaded := Load(state);
      if loaded.Err? {
        return Refused(State(loaded.error));
      }
      var saved := loaded.value;
      if saved.epoch.Some? && saved.epoch.value > summary.epochEnd {
        return Refused(OlderSummary);
      }
      if saved.epoch == Some(summary.epochEnd) {
        if saved.id != Some(summary.id) || saved.digest != Some(summary.digest) {
          return Refused(ChangedSummary);
        }
      } else {
        saved := Processed(saved, summary);
        SaveState(saved, a.effect(SaveSummary));
        if !a.effect(SaveSummary).Done? {
          return CallError(a.effect(SaveSummary));
        }
      }
      ending := SettleEpoch(s, summary, saved, a);
    }
  }
}
