/**
 How one `run_once` ends, and what it leaves alone. Every ending is stated in terms of the storage
 answers, the summary and the files, for the UID that holds this validator's hotkey.
 */
module RunOutcomes {
  import opened Common
  import opened StateStore
  import opened ChainView
  import opened Submission
  import opened SubmissionSafety
  import opened SavedBurn

  // ----- what must hold before anything is written or sent

  /** A summary that does not describe the snapshot has no effect, and is refused if the run gets to it. */
  lemma RejectedSummaryTouchesNothing(w: World, me: Identity, a: Attempt)
    requires ReadSnapshot(a.storage).Ok? && a.summary.Some?
    requires !Describes(a.summary.value, ReadSnapshot(a.storage).value)
    ensures RunOnce(w, me, a).0 == w
    ensures a.effect(Lock).Done? && a.effect(ReadChain).Done? ==>
              var rejected := ValidateChain(a.summary.value, ReadSnapshot(a.storage).value);
              rejected.Some? && RunOnce(w, me, a).1 == Refused(RunError.Chain(rejected.value))
  {
    AcceptsExactly(a.summary.value, ReadSnapshot(a.storage).value);
    hide ReadSnapshot, ValidateChain;
  }

  /** Without the lock, a readable snapshot, a summary and a state that loads, nothing happens either. */
  lemma UnreadyTouchesNothing(w: World, me: Identity, a: Attempt)
    requires || !a.effect(Lock).Done? || !a.effect(ReadChain).Done? || !a.effect(LoadState).Done?
             || !Readable(a.storage) || a.summary.None? || Load(w.state).Err?
    ensures RunOnce(w, me, a).0 == w && RunOnce(w, me, a).1 != Finished
  {
    ReadsExactly(a.storage);
    hide ReadSnapshot, ValidateChain, Load, SettleEpoch;
  }

  /** Why a run is refused before it acts on a summary. */
  lemma EarlyEndings(w: World, me: Identity, a: Attempt)
    ensures var ending := RunOnce(w, me, a).1;
            var seen := a.effect(Lock).Done? && a.effect(ReadChain).Done?;
            && (ending == Refused(Locked) <==> a.effect(Lock).Failed?)
            && (ending == Refused(FetchOrSignature) <==> seen && ReadSnapshot(a.storage).Ok? && a.summary.None?)
            && (forall e :: ending == Refused(RunError.Chain(e)) <==>
                  && seen
                  && (ReadSnapshot(a.storage) == Err(e)
                      || (ReadSnapshot(a.storage).Ok? && a.summary.Some?
                          && ValidateChain(a.summary.value, ReadSnapshot(a.storage).value) == Some(e))))
            && (forall e :: ending == Refused(State(e)) <==>
                  && seen && a.effect(LoadState).Done? && ReadSnapshot(a.storage).Ok? && a.summary.Some?
                  && Describes(a.summary.value, ReadSnapshot(a.storage).value) && Load(w.state) == Err(e))
  {
    hide ReadSnapshot, ValidateChain, Describes, Load, SettleEpoch;
    if ReadSnapshot(a.storage).Ok? && a.summary.Some? {
      var s, summary := ReadSnapshot(a.storage).value, a.summary.value;
      SnapshotIsConsistent(a.storage);
      AcceptsExactly(summary, s);
      forall v: World, saved: ValidatorState ensures Settling(SettleEpoch(v, me, s, summary, saved, a).1) {
        SettleEndings(v, me, s, summary, saved, a);
      }
    }
  }

  /** Not an ending of a run that was refused early. */
  predicate Settling(ending: Ending) {
    ending.Refused? ==>
      !(ending.error.Locked? || ending.error.FetchOrSignature? || ending.error.Chain? || ending.error.State?)
  }

  lemma SettleEndings(w: World, me: Identity, s: Snapshot, summary: Summary, saved: ValidatorState, a: Attempt)
    requires |s.hotkeys| == |s.lastUpdates|
    ensures Settling(SettleEpoch(w, me, s, summary, saved, a).1)
  {
    hide MineAll, HasLanded, Position, RateLimit;
  }

  // ----- runs in which every call completes

  /** Every call completes, and the summary and the saved state are accepted. */
  ghost predicate Loaded(w: World, a: Attempt) {
    && (forall c: Call :: a.effect(c).Done?)
    && ReadSnapshot(a.storage).Ok? && a.summary.Some? && Load(w.state).Ok?
    && ValidateChain(a.summary.value, ReadSnapshot(a.storage).value).None?
    && a.summary.value.id != "" && a.summary.value.digest != ""
  }

  /** The summary is neither older than the saved one nor another one for its epoch. */
  predicate InTime(saved: ValidatorState, summary: Summary) {
    && (saved.epoch.Some? ==> saved.epoch.value <= summary.epochEnd)
    && (saved.epoch == Some(summary.epochEnd) ==> saved.id == Some(summary.id) && saved.digest == Some(summary.digest))
  }

  ghost predicate Timely(w: World, a: Attempt) {
    Loaded(w, a) && InTime(Load(w.state).value, a.summary.value)
  }

  /** The state with the summary recorded as processed. */
  function SavedSummary(w: World, a: Attempt): ValidatorState
    requires Load(w.state).Ok? && a.summary.Some?
  {
    var summary, saved := a.summary.value, Load(w.state).value;
    if saved.epoch == Some(summary.epochEnd) then saved
    else ValidatorState(saved.burnEpoch, Some(summary.digest), Some(summary.epochEnd), Some(summary.id))
  }

  /** The world with nothing changed but the summary recorded. */
  function OnlySummary(w: World, a: Attempt): World
    requires Load(w.state).Ok? && a.summary.Some?
  {
    if Load(w.state).value.epoch == Some(a.summary.value.epochEnd) then w
    else w.(state := Encode(SavedSummary(w, a)))
  }

  lemma SettlesOnlySummary(w: World, me: Identity, a: Attempt)
    requires Timely(w, a)
    ensures var s := ReadSnapshot(a.storage).value;
            && |s.hotkeys| == |s.lastUpdates|
            && Load(OnlySummary(w, a).state) == Ok(SavedSummary(w, a)) && Acceptable(SavedSummary(w, a))
            && RunOnce(w, me, a) == SettleEpoch(OnlySummary(w, a), me, s, a.summary.value, SavedSummary(w, a), a)
  {
    SnapshotIsConsistent(a.storage);
    LoadAcceptsExactly(Load(w.state).value, w.state);
    LoadAcceptsExactly(SavedSummary(w, a), w.state);
    hide ReadSnapshot, ValidateChain, Load, Encode, SettleEpoch;
  }

  /** An older summary, or another one for the saved epoch, is refused and changes nothing. */
  lemma UntimelyIsRefused(w: World, me: Identity, a: Attempt)
    requires Loaded(w, a) && !Timely(w, a)
    ensures RunOnce(w, me, a).0 == w
    ensures RunOnce(w, me, a).1 ==
            if Load(w.state).value.epoch == Some(a.summary.value.epochEnd) then Refused(ChangedSummary)
            else Refused(OlderSummary)
  {
    hide ReadSnapshot, ValidateChain, Load, Encode, SettleEpoch;
  }

  /** Whatever comes after, the summary is on record. */
  lemma TimelyIsSaved(w: World, me: Identity, a: Attempt)
    requires Timely(w, a)
    ensures var v := RunOnce(w, me, a).0;
            && Load(v.state).Ok?
            && var summary, t := a.summary.value, Load(v.state).value;
            && t.id == Some(summary.id) && t.digest == Some(summary.digest) && t.epoch == Some(summary.epochEnd)
            && (t.burnEpoch == Load(w.state).value.burnEpoch || t.burnEpoch == Some(summary.epochEnd))
  {
    hide ReadSnapshot, ValidateChain, Load, Encode, Submit, RunOnce, OnlySummary, Position, RateLimit;
    SettlesOnlySummary(w, me, a);
    var s, summary, next := ReadSnapshot(a.storage).value, a.summary.value, SavedSummary(w, a);
    LoadAcceptsExactly(next.(burnEpoch := Some(summary.epochEnd)), w.state);
    var ext := Extrinsic(s.finalizedBlock, summary.epochEnd, summary.id, summary.digest);
    SubmitSendsOrStops(OnlySummary(w, a), me, ext, a);
  }

  /** A settled epoch is left alone. */
  lemma SettledIsLeftAlone(w: World, me: Identity, a: Attempt)
    requires Timely(w, a) && Load(w.state).value.burnEpoch == Some(a.summary.value.epochEnd)
    ensures RunOnce(w, me, a) == (w, Finished)
  {
    LoadAcceptsExactly(Load(w.state).value, w.state);
    SettlesOnlySummary(w, me, a);
    hide ReadSnapshot, ValidateChain, Load, Encode, RunOnce, Submit;
  }

  /** Timely, and the epoch is not settled yet. */
  ghost predicate Open(w: World, a: Attempt) {
    Timely(w, a) && Load(w.state).value.burnEpoch != Some(a.summary.value.epochEnd)
  }

  /** Without a UID for its hotkey the validator only records the summary. */
  lemma UnregisteredOnlySaves(w: World, me: Identity, a: Attempt)
    requires Open(w, a) && me.hotkey !in ReadSnapshot(a.storage).value.hotkeys
    ensures RunOnce(w, me, a) == (OnlySummary(w, a), Refused(NotRegistered))
  {
    SettlesOnlySummary(w, me, a);
    hide ReadSnapshot, ValidateChain, Load, Encode, RunOnce, Submit;
  }

  /** The chain refuses new weights from this UID until `from`: the last ones are too recent. */
  predicate LimitedUntil(s: Snapshot, uid: nat, from: int)
    requires uid < |s.lastUpdates|
  {
    && s.lastUpdates[uid] > 0 && s.finalizedBlock < from
    && from == if s.lastUpdates[uid] + s.rateLimit <= U64_MAX then s.lastUpdates[uid] + s.rateLimit else U64_MAX
  }

  function LimitOf(s: Snapshot, uid: nat): int
    requires uid < |s.lastUpdates|
  {
    if s.lastUpdates[uid] + s.rateLimit <= U64_MAX then s.lastUpdates[uid] + s.rateLimit else U64_MAX
  }

  /** An epoch is settled from what the snapshot says of the UID that holds the hotkey. */
  lemma SettleAt(
    w: World, me: Identity, s: Snapshot, summary: Summary, saved: ValidatorState, a: Attempt, uid: nat)
    requires IsUid(s.hotkeys, me.hotkey, uid) && |s.hotkeys| == |s.lastUpdates|
    requires saved.burnEpoch != Some(summary.epochEnd)
    ensures SettleEpoch(w, me, s, summary, saved, a) ==
            if s.lastUpdates[uid] >= summary.epochEnd then FinishEpoch(w, saved, summary.epochEnd, a)
            else if LimitedUntil(s, uid, LimitOf(s, uid)) then (w, RateLimited(LimitOf(s, uid)))
            else if summary.minerTarget.None? || summary.taoPrice.None? then (w, Refused(NoMinerTarget))
            else
              var ext := Extrinsic(s.finalizedBlock, summary.epochEnd, summary.id, summary.digest);
              var (after, ending) := Submit(w, me, ext, a);
              if ending == Finished then FinishEpoch(after, saved, summary.epochEnd, a) else (after, ending)
  {
    PositionIsUid(s.hotkeys, me.hotkey, uid);
    hide Submit, FinishEpoch, Position;
  }

  /** How an open epoch is settled, from what the snapshot says of the UID that holds the hotkey. */
  lemma OpenEndings(w: World, me: Identity, a: Attempt, uid: nat)
    requires Open(w, a) && IsUid(ReadSnapshot(a.storage).value.hotkeys, me.hotkey, uid)
    ensures var s, summary := ReadSnapshot(a.storage).value, a.summary.value;
            && uid < |s.lastUpdates|
            && var (v, ending) := RunOnce(w, me, a);
            && (s.lastUpdates[uid] >= summary.epochEnd ==>
                  && ending == Finished && v.chain == w.chain && v.guard == w.guard
                  && Load(v.state) == Ok(SavedSummary(w, a).(burnEpoch := Some(summary.epochEnd))))
            && (forall from: u64 :: ending == RateLimited(from) <==>
                  s.lastUpdates[uid] < summary.epochEnd && LimitedUntil(s, uid, from))
            && (ending.RateLimited? ==> v == OnlySummary(w, a))
            && (ending == Refused(NoMinerTarget) <==>
                  && s.lastUpdates[uid] < summary.epochEnd && !LimitedUntil(s, uid, LimitOf(s, uid))
                  && (summary.minerTarget.None? || summary.taoPrice.None?))
            && (ending == Refused(NoMinerTarget) ==> v == OnlySummary(w, a))
  {
    SettlesOnlySummary(w, me, a);
    var s, summary, next := ReadSnapshot(a.storage).value, a.summary.value, SavedSummary(w, a);
    SettleAt(OnlySummary(w, a), me, s, summary, next, a, uid);
    LoadAcceptsExactly(next.(burnEpoch := Some(summary.epochEnd)), w.state);
    SubmitEndings(OnlySummary(w, a), me, Extrinsic(s.finalizedBlock, summary.epochEnd, summary.id, summary.digest), a);
    hide ReadSnapshot, ValidateChain, Load, Encode, RunOnce, Submit, SettleEpoch, Acceptable, Describes;
  }

  /** A submission is due: the weights of this UID are older than the epoch, and the chain takes new ones. */
  predicate SubmissionDue(s: Snapshot, summary: Summary, uid: nat) {
    && uid < |s.lastUpdates| && s.lastUpdates[uid] < summary.epochEnd
    && (s.lastUpdates[uid] == 0 || LimitOf(s, uid) <= s.finalizedBlock)
    && summary.minerTarget.Some? && summary.taoPrice.Some?
  }

  /** The guard's owner is another chain, subnet or hotkey. */
  predicate Foreign(file: GuardFile, me: Identity) {
    file.Held? && (file.guard.genesis != me.genesis || file.guard.netuid != me.netuid || file.guard.hotkey != me.hotkey)
  }

  lemma SubmitEndings(w: World, me: Identity, ext: Extrinsic, a: Attempt)
    requires forall c: Call :: a.effect(c).Done?
    ensures var (v, ending) := Submit(w, me, ext, a);
            && !ending.RateLimited? && ending != Refused(NoMinerTarget) && ending != Interrupted
            && (ending == Refused(ForeignGuard) <==> Foreign(w.guard, me))
            && (forall until: u64 :: ending == Refused(Uncertain(until)) <==>
                  w.guard == Held(Guard(me.genesis, me.netuid, me.hotkey, until)) && ext.birth < until)
            && (ending == Refused(BlockOverflow) <==>
                  && ext.birth + MORTALITY_BLOCKS > U64_MAX
                  && (w.guard.NoGuard?
                      || (w.guard.Held? && !Foreign(w.guard, me) && w.guard.guard.expiresAt <= ext.birth)))
            && (w.guard.Corrupt? ==> ending == Refused(CallFailed))
            && (w.guard.Corrupt? || Unsent(ending) ==> v == w)
  {
    hide MineAll, HasLanded;
    if w.guard.Held? && !Foreign(w.guard, me) {
      assert w.guard == Held(Guard(me.genesis, me.netuid, me.hotkey, w.guard.guard.expiresAt));
    }
  }

  /** Refusals of a submission before anything is written. */
  predicate Unsent(ending: Ending) {
    ending.Refused? && (ending.error.ForeignGuard? || ending.error.Uncertain? || ending.error.BlockOverflow?)
  }

  /** Which guard refuses a submission that is due, and that it then only records the summary. */
  lemma GuardEndings(w: World, me: Identity, a: Attempt, uid: nat)
    requires Open(w, a) && IsUid(ReadSnapshot(a.storage).value.hotkeys, me.hotkey, uid)
    requires SubmissionDue(ReadSnapshot(a.storage).value, a.summary.value, uid)
    ensures var f := ReadSnapshot(a.storage).value.finalizedBlock;
            var (v, ending) := RunOnce(w, me, a);
            && (ending == Refused(ForeignGuard) <==> Foreign(w.guard, me))
            && (forall until: u64 :: ending == Refused(Uncertain(until)) <==>
                  w.guard == Held(Guard(me.genesis, me.netuid, me.hotkey, until)) && f < until)
            && (ending == Refused(BlockOverflow) <==>
                  && f + MORTALITY_BLOCKS > U64_MAX
                  && (w.guard.NoGuard?
                      || (w.guard.Held? && !Foreign(w.guard, me) && w.guard.guard.expiresAt <= f)))
            && (w.guard.Corrupt? || Unsent(ending) ==> v == OnlySummary(w, a))
  {
    SettlesOnlySummary(w, me, a);
    var s, summary, next := ReadSnapshot(a.storage).value, a.summary.value, SavedSummary(w, a);
    SettleAt(OnlySummary(w, a), me, s, summary, next, a, uid);
    SubmitEndings(OnlySummary(w, a), me, Extrinsic(s.finalizedBlock, summary.epochEnd, summary.id, summary.digest), a);
    hide ReadSnapshot, ValidateChain, Load, Encode, RunOnce, Submit, SettleEpoch, Acceptable, OnlySummary;
  }

  // ----- never settled on another's weights

  lemma SettleSendsOrStops(
    w: World, me: Identity, s: Snapshot, summary: Summary, saved: ValidatorState, a: Attempt, uid: nat)
    requires IsUid(s.hotkeys, me.hotkey, uid) && |s.hotkeys| == |s.lastUpdates|
    requires saved.burnEpoch != Some(summary.epochEnd) && s.lastUpdates[uid] < summary.epochEnd
    ensures var v := SettleEpoch(w, me, s, summary, saved, a).0;
            v.chain.sent == w.chain.sent ==> v.state == w.state
  {
    SettleAt(w, me, s, summary, saved, a, uid);
    SubmitSendsOrStops(w, me, Extrinsic(s.finalizedBlock, summary.epochEnd, summary.id, summary.digest), a);
    hide Submit, SettleEpoch;
  }

  /**
   Whichever calls fail: while the last update of the UID that holds this validator's hotkey is below
   the epoch end, no run settles the epoch without sending.
   */
  lemma NeverSavesUnsent(w: World, me: Identity, a: Attempt, uid: nat)
    requires ReadSnapshot(a.storage).Ok? && a.summary.Some?
    requires var s := ReadSnapshot(a.storage).value;
             IsUid(s.hotkeys, me.hotkey, uid) && uid < |s.lastUpdates| && s.lastUpdates[uid] < a.summary.value.epochEnd
    requires Load(w.state).Ok? ==> Load(w.state).value.burnEpoch != Some(a.summary.value.epochEnd)
    ensures !SavesUnsent(w, RunOnce(w, me, a).0, a.summary.value.epochEnd)
  {
    hide ReadSnapshot, ValidateChain, Load, Encode, SettleEpoch, IsUid, Acceptable;
    SnapshotIsConsistent(a.storage);
    var s, summary := ReadSnapshot(a.storage).value, a.summary.value;
    if Load(w.state).Ok? {
      var saved := Load(w.state).value;
      var next := Processed(saved, summary);
      LoadAcceptsExactly(next, w.state);
      SettleSendsOrStops(w, me, s, summary, saved, a, uid);
      SettleSendsOrStops(w.(state := Encode(next)), me, s, summary, next, a, uid);
    }
  }

  // ----- sending, whichever calls fail

  /** The guard lets this validator broadcast at block `f`. */
  predicate Permits(file: GuardFile, me: Identity, f: u64) {
    file.NoGuard? || (file.Held? && !Foreign(file, me) && file.guard.expiresAt <= f)
  }

  lemma SubmitSendsExactly(w: World, me: Identity, ext: Extrinsic, a: Attempt)
    ensures var (v, ending) := Submit(w, me, ext, a);
            && (v.chain.sent != w.chain.sent <==>
                  && a.effect(OpenBlock).Done? && a.effect(ReadGuard).Done? && Permits(w.guard, me, ext.birth)
                  && a.effect(Prepare).Done? && ext.birth + MORTALITY_BLOCKS <= U64_MAX
                  && a.effect(SaveGuard).Done? && Takes(a.effect(Broadcast)))
            && (ending == Finished ==> v.chain.sent != w.chain.sent && v.guard == NoGuard)
  {
    hide MineAll, HasLanded;
    SentThrough(Enter(w.chain, ext), a.watched);
  }

  /**
   A run sends if and only if every call before the broadcast completes, the broadcast takes effect, the
   summary and the saved state ask for it, it is due for the UID of this hotkey, and the guard permits it.
   */
  lemma SendsExactly(w: World, me: Identity, a: Attempt, uid: nat)
    requires ReadSnapshot(a.storage).Ok? && a.summary.Some?
    requires IsUid(ReadSnapshot(a.storage).value.hotkeys, me.hotkey, uid)
    ensures RunOnce(w, me, a).0.chain.sent != w.chain.sent <==>
            var s, summary := ReadSnapshot(a.storage).value, a.summary.value;
            && a.effect(Lock).Done? && a.effect(ReadChain).Done? && a.effect(LoadState).Done?
            && Describes(summary, s) && Load(w.state).Ok?
            && var saved := Load(w.state).value;
            && InTime(saved, summary) && saved.burnEpoch != Some(summary.epochEnd)
            && (saved.epoch == Some(summary.epochEnd) || a.effect(SaveSummary).Done?)
            && SubmissionDue(s, summary, uid) && Permits(w.guard, me, s.finalizedBlock)
            && s.finalizedBlock + MORTALITY_BLOCKS <= U64_MAX
            && a.effect(OpenBlock).Done? && a.effect(ReadGuard).Done? && a.effect(Prepare).Done?
            && a.effect(SaveGuard).Done? && Takes(a.effect(Broadcast))
  {
    hide ReadSnapshot, ValidateChain, Describes, Load, Encode, SettleEpoch, IsUid, Permits, SubmissionDue;
    SnapshotIsConsistent(a.storage);
    var s, summary := ReadSnapshot(a.storage).value, a.summary.value;
    AcceptsExactly(summary, s);
    if Load(w.state).Ok? && ValidateChain(summary, s).None? {
      var saved := Load(w.state).value;
      var next := Processed(saved, summary);
      SettleSendsExactly(w, me, s, summary, saved, a, uid);
      SettleSendsExactly(w.(state := Encode(next)), me, s, summary, next, a, uid);
    }
  }

  lemma SettleSendsExactly(
    w: World, me: Identity, s: Snapshot, summary: Summary, saved: ValidatorState, a: Attempt, uid: nat)
    requires IsUid(s.hotkeys, me.hotkey, uid) && |s.hotkeys| == |s.lastUpdates|
    ensures SettleEpoch(w, me, s, summary, saved, a).0.chain.sent != w.chain.sent <==>
            && saved.burnEpoch != Some(summary.epochEnd)
            && SubmissionDue(s, summary, uid) && Permits(w.guard, me, s.finalizedBlock)
            && s.finalizedBlock + MORTALITY_BLOCKS <= U64_MAX
            && a.effect(OpenBlock).Done? && a.effect(ReadGuard).Done? && a.effect(Prepare).Done?
            && a.effect(SaveGuard).Done? && Takes(a.effect(Broadcast))
  {
    hide Submit, Permits;
    SubmitSendsExactly(w, me, Extrinsic(s.finalizedBlock, summary.epochEnd, summary.id, summary.digest), a);
    if saved.burnEpoch != Some(summary.epochEnd) {
      SettleAt(w, me, s, summary, saved, a, uid);
      hide SettleEpoch;
    }
  }

  /** A run that finishes has settled its epoch on disk, and cleared its guard if it sent. */
  lemma FinishedMeansSettled(w: World, me: Identity, a: Attempt)
    requires RunOnce(w, me, a).1 == Finished
    requires a.summary.Some? && a.summary.value.id != "" && a.summary.value.digest != ""
    ensures var v := RunOnce(w, me, a).0;
            && Load(v.state).Ok? && Load(v.state).value.burnEpoch == Some(a.summary.value.epochEnd)
            && (v.chain.sent != w.chain.sent ==> v.guard == NoGuard)
  {
    hide ReadSnapshot, ValidateChain, Load, Encode, SettleEpoch;
    if ReadSnapshot(a.storage).Ok? {
      SnapshotIsConsistent(a.storage);
      var s, summary := ReadSnapshot(a.storage).value, a.summary.value;
      if Load(w.state).Ok? {
        var saved := Load(w.state).value;
        var next := Processed(saved, summary);
        LoadAcceptsExactly(saved, w.state);
        LoadAcceptsExactly(next, w.state);
        if saved.epoch == Some(summary.epochEnd) {
          SettleFinishes(w, me, s, summary, saved, a);
        } else if saved.epoch.None? || saved.epoch.value < summary.epochEnd {
          SettleFinishes(w.(state := Encode(next)), me, s, summary, next, a);
        }
      }
    }
  }

  lemma SettleFinishes(w: World, me: Identity, s: Snapshot, summary: Summary, saved: ValidatorState, a: Attempt)
    requires |s.hotkeys| == |s.lastUpdates|
    requires Load(w.state) == Ok(saved)
    requires saved.epoch == Some(summary.epochEnd) && Acceptable(saved)
    ensures var (v, ending) := SettleEpoch(w, me, s, summary, saved, a);
            ending == Finished ==>
              && Load(v.state).Ok? && Load(v.state).value.burnEpoch == Some(summary.epochEnd)
              && (v.chain.sent != w.chain.sent ==> v.guard == NoGuard)
  {
    hide Submit, Load, Encode, Position, RateLimit;
    SubmitSendsExactly(w, me, Extrinsic(s.finalizedBlock, summary.epochEnd, summary.id, summary.digest), a);
    LoadAcceptsExactly(saved.(burnEpoch := Some(summary.epochEnd)), w.state);
  }
}
