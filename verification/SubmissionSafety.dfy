/**
 What the submission protocol keeps over every history of blocks and runs: at most one set of
 weights takes effect per epoch, and every submission for an epoch carries one summary's scores.
 */
module SubmissionSafety {
  import opened Common
  import opened StateStore
  import opened ChainView
  import opened Submission

  // ----- at most one effective submission between epoch steps

  /** The extrinsic can still take effect in some future block. */
  predicate Alive(c: Chain, number: int) {
    number in c.pool && 0 <= number < |c.sent| && c.head + 1 < c.sent[number].birth + MORTALITY_BLOCKS
  }

  /** An extrinsic is born after the epoch step it answers. */
  ghost predicate SentTracked(c: Chain) {
    forall n :: 0 <= n < |c.sent| ==> c.sent[n].epoch in c.steps && c.sent[n].epoch <= c.sent[n].birth
  }

  /** An extrinsic takes effect once, above its birth and no later than `LastUpdate`. */
  ghost predicate LandedTracked(c: Chain) {
    forall l :: l in c.landed ==>
      && l.block <= c.lastUpdate && 0 <= l.number < |c.sent| && l.number !in c.pool
      && c.sent[l.number].birth < l.block
  }

  /** `LastUpdate` is the height of a landing, or moved without weights. */
  ghost predicate Traced(c: Chain) {
    && c.registered <= c.lastUpdate <= c.head
    && (c.lastUpdate == c.registered || exists l :: l in c.landed && l.block == c.lastUpdate)
  }

  ghost predicate Tracked(c: Chain) {
    SentTracked(c) && LandedTracked(c) && Traced(c) && (forall n :: n in c.pool ==> 0 <= n < |c.sent|)
  }

  /** Weights that took effect before `m` did so before the epoch of `m` ended. */
  ghost predicate OncePerEpoch(c: Chain)
    requires LandedTracked(c)
  {
    forall l, m :: l in c.landed && m in c.landed && l != m && l.block <= m.block ==> l.block < c.sent[m.number].epoch
  }

  /** At most one extrinsic is alive, and its epoch ended after every landing. */
  ghost predicate OneAlive(c: Chain) {
    && (forall n, k :: Alive(c, n) && Alive(c, k) ==> n == k)
    && (forall n, l :: Alive(c, n) && l in c.landed ==> l.block < c.sent[n].epoch)
  }

  /** While an extrinsic is alive, this validator's guard holds until its era ends. */
  ghost predicate Guarded(w: World, me: Identity) {
    forall n :: Alive(w.chain, n) ==>
      w.guard.Held? && Owns(w.guard.guard, me) && w.guard.guard.expiresAt == w.chain.sent[n].birth + MORTALITY_BLOCKS
  }

  ghost predicate ChainInv(c: Chain) {
    Tracked(c) && OneAlive(c) && OncePerEpoch(c)
  }

  ghost predicate Inv(w: World, me: Identity) {
    ChainInv(w.chain) && Guarded(w, me)
  }

  lemma MineKeeps(c: Chain, b: Block)
    requires ChainInv(c)
    ensures ChainInv(Mine(c, b))
    ensures forall n :: Alive(Mine(c, b), n) ==> Alive(c, n)
  {
    var d := Mine(c, b);
    forall n | n in Effective(c, b) ensures Alive(c, n) && c.sent[n].birth < d.head && n !in d.pool {
      assert Valid(c, n, c.head + 1);
    }
    forall n | Alive(d, n) ensures Alive(c, n) {}
    forall l, m | l in d.landed && m in d.landed && l != m && l.block <= m.block
      ensures l.block < d.sent[m.number].epoch
    {
      if m in c.landed {
        assert l in c.landed;
      } else {
        assert Alive(c, m.number);
        assert l !in c.landed ==> Alive(c, l.number);
      }
    }
    forall n, l | Alive(d, n) && l in d.landed ensures l.block < d.sent[n].epoch {
      assert Alive(c, n);
      assert l !in c.landed ==> Alive(c, l.number);
    }
    MineTracks(c, b);
  }

  lemma MineTracks(c: Chain, b: Block)
    requires Tracked(c)
    ensures Tracked(Mine(c, b))
  {
    var d := Mine(c, b);
    if d.lastUpdate != c.lastUpdate && !b.registers {
      var n :| n in Effective(c, b);
      assert Landing(d.head, n) in d.landed;
    }
    if d.lastUpdate == c.lastUpdate != c.registered {
      var l :| l in c.landed && l.block == c.lastUpdate;
      assert l in d.landed;
    }
  }

  lemma {:induction false} MineAllKeeps(c: Chain, blocks: seq<Block>)
    requires ChainInv(c)
    ensures var d := MineAll(c, blocks);
            && ChainInv(d) && d.sent == c.sent && c.lastUpdate <= d.lastUpdate && c.head <= d.head && c.steps <= d.steps
            && (forall n :: Alive(d, n) ==> Alive(c, n))
  {
    if blocks != [] {
      MineAllKeeps(c, blocks[..|blocks| - 1]);
      MineKeeps(MineAll(c, blocks[..|blocks| - 1]), blocks[|blocks| - 1]);
    }
  }

  /** An expired or absent guard of this validator means no extrinsic of it can still take effect. */
  lemma NothingAlive(w: World, me: Identity, f: u64)
    requires Inv(w, me) && f == w.chain.head && GuardRefusal(w.guard, me, f).None?
    ensures forall n :: !Alive(w.chain, n)
  {}

  /** Broadcasting with nothing alive and the last weights older than the epoch keeps the chain safe. */
  lemma EnterKeeps(c: Chain, ext: Extrinsic)
    requires ChainInv(c) && (forall n :: !Alive(c, n)) && ext.birth == c.head
    requires c.lastUpdate < ext.epoch <= c.head && ext.epoch in c.steps
    ensures ChainInv(Enter(c, ext))
    ensures forall n :: Alive(Enter(c, ext), n) ==> n == |c.sent|
  {
    var d := Enter(c, ext);
    forall n | Alive(d, n) ensures n == |c.sent| {
      assert n < |c.sent| ==> Alive(c, n);
    }
    forall n, l | Alive(d, n) && l in d.landed ensures l.block < d.sent[n].epoch {}
    forall l, m | l in d.landed && m in d.landed && l != m && l.block <= m.block
      ensures l.block < d.sent[m.number].epoch
    {
      assert l.block < c.sent[m.number].epoch;
    }
  }

  /** The guard is cleared only when the one extrinsic it stood for has landed. */
  lemma WatchKeeps(w: World, me: Identity, number: int, a: Attempt)
    requires Inv(w, me) && forall n :: Alive(w.chain, n) ==> n == number
    ensures Inv(Watch(w, number, a).0, me)
  {
    if HasLanded(w.chain, number) {
      var l :| l in w.chain.landed && l.number == number;
      assert forall n :: !Alive(w.chain, n);
    }
  }

  lemma SubmitKeeps(w: World, me: Identity, ext: Extrinsic, a: Attempt)
    requires Inv(w, me) && ext.birth == w.chain.head
    requires w.chain.lastUpdate < ext.epoch <= w.chain.head && ext.epoch in w.chain.steps
    ensures Inv(Submit(w, me, ext, a).0, me)
  {
    hide Watch, MineAll, OncePerEpoch, OneAlive, Tracked;
    if GuardRefusal(w.guard, me, ext.birth).None? && ext.birth + MORTALITY_BLOCKS <= U64_MAX {
      NothingAlive(w, me, ext.birth);
      EnterKeeps(w.chain, ext);
      var c := Enter(w.chain, ext);
      MineAllKeeps(c, a.watched);
      var held := Held(Guard(me.genesis, me.netuid, me.hotkey, ext.birth + MORTALITY_BLOCKS));
      var watched := w.(guard := held, chain := MineAll(c, a.watched));
      WatchKeeps(watched, me, |w.chain.sent|, a);
    }
  }

  /** What an honest snapshot of the head and a summary accepted against it agree on. */
  ghost predicate Current(c: Chain, me: Identity, s: Snapshot, summary: Summary) {
    && |s.hotkeys| == |s.lastUpdates| && s.finalizedBlock == c.head
    && summary.epochEnd in c.steps && summary.epochEnd <= c.head
    && forall uid :: IsUid(s.hotkeys, me.hotkey, uid) ==> s.lastUpdates[uid] == c.lastUpdate
  }

  /** The snapshot's consistency check and `validate_chain` make an accepted summary current. */
  lemma AcceptedIsCurrent(c: Chain, me: Identity, a: Attempt)
    requires Honest(c, me, a) && ReadSnapshot(a.storage).Ok? && a.summary.Some?
    requires ValidateChain(a.summary.value, ReadSnapshot(a.storage).value).None?
    ensures Current(c, me, ReadSnapshot(a.storage).value, a.summary.value)
  {
    SnapshotIsConsistent(a.storage);
  }

  lemma SettleKeeps(w: World, me: Identity, s: Snapshot, summary: Summary, saved: ValidatorState, a: Attempt)
    requires Inv(w, me) && Current(w.chain, me, s, summary)
    ensures Inv(SettleEpoch(w, me, s, summary, saved, a).0, me)
  {
    hide Submit, ChainInv;
    var uid := Position(s.hotkeys, me.hotkey);
    if uid < |s.hotkeys| && s.lastUpdates[uid] < summary.epochEnd {
      SubmitKeeps(w, me, Extrinsic(s.finalizedBlock, summary.epochEnd, summary.id, summary.digest), a);
    }
  }

  lemma RunKeeps(w: World, me: Identity, a: Attempt)
    requires Inv(w, me) && Honest(w.chain, me, a)
    ensures Inv(RunOnce(w, me, a).0, me)
  {
    hide SettleEpoch, ChainInv, ReadSnapshot, ValidateChain, Load, Encode;
    if ReadSnapshot(a.storage).Ok? && a.summary.Some? && Load(w.state).Ok? {
      var s, summary, saved := ReadSnapshot(a.storage).value, a.summary.value, Load(w.state).value;
      if ValidateChain(summary, s).None? {
        AcceptedIsCurrent(w.chain, me, a);
        SettleKeeps(w, me, s, summary, saved, a);
        SettleKeeps(w.(state := Encode(Processed(saved, summary))), me, s, summary, Processed(saved, summary), a);
      }
    }
  }

  /** No extrinsic sent or landed yet, whatever the files hold. */
  predicate Fresh(w: World) {
    && w.chain.sent == [] && w.chain.pool == {} && w.chain.landed == {}
    && w.chain.registered == w.chain.lastUpdate <= w.chain.head
  }

  lemma {:induction false} AlwaysInv(w: World, me: Identity, actions: seq<Action>)
    requires Fresh(w) && HonestAll(w, me, actions)
    ensures Inv(ActAll(w, me, actions), me)
  {
    if actions != [] {
      var before, last := actions[..|actions| - 1], actions[|actions| - 1];
      AlwaysInv(w, me, before);
      var v := ActAll(w, me, before);
      if last.Ran? { RunKeeps(v, me, last.attempt); } else { MineKeeps(v.chain, last.block); }
    }
  }

  /**
   Between any two of this validator's extrinsics that take effect an epoch ends, over all runs,
   failures, interruptions, timeouts and late inclusions. It is the epoch the later one answers, so
   no epoch takes effect twice and the epochs that do increase.
   */
  lemma EffectiveOncePerEpoch(w: World, me: Identity, actions: seq<Action>, l: Landing, m: Landing)
    requires Fresh(w) && HonestAll(w, me, actions)
    requires l in ActAll(w, me, actions).chain.landed && m in ActAll(w, me, actions).chain.landed
    requires l != m && l.block <= m.block
    ensures var c := ActAll(w, me, actions).chain;
            && 0 <= l.number < |c.sent| && 0 <= m.number < |c.sent| && c.sent[m.number].epoch in c.steps
            && c.sent[l.number].epoch < l.block < c.sent[m.number].epoch < m.block
  {
    AlwaysInv(w, me, actions);
  }

  // ----- the saved state

  /** The saved epoch never goes back and its summary never changes; nor does the burn go back. */
  predicate Advances(s: ValidatorState, t: ValidatorState) {
    && (s.epoch.Some? ==>
          && t.epoch.Some? && s.epoch.value <= t.epoch.value
          && (s.epoch == t.epoch ==> s.id == t.id && s.digest == t.digest))
    && (s.burnEpoch.Some? ==> t.burnEpoch.Some? && s.burnEpoch.value <= t.burnEpoch.value)
  }

  /** Nothing is sent except under the saved summary. */
  ghost predicate Covers(s: ValidatorState, c: Chain) {
    forall i :: 0 <= i < |c.sent| ==>
      && s.epoch.Some? && c.sent[i].epoch <= s.epoch.value
      && (c.sent[i].epoch == s.epoch.value ==> s.id == Some(c.sent[i].id) && s.digest == Some(c.sent[i].digest))
  }

  /** `LastUpdate` is at least as recent as the saved burn. */
  predicate BurnCovered(s: ValidatorState, c: Chain) {
    s.burnEpoch.Some? ==> s.burnEpoch.value <= c.lastUpdate
  }

  ghost predicate SentAgree(c: Chain) {
    forall i, j :: 0 <= i < |c.sent| && 0 <= j < |c.sent| && c.sent[i].epoch == c.sent[j].epoch ==>
      c.sent[i].id == c.sent[j].id && c.sent[i].digest == c.sent[j].digest
  }

  ghost predicate Agreed(w: World) {
    SentAgree(w.chain) && (Load(w.state).Ok? ==> Covers(Load(w.state).value, w.chain))
  }

  lemma {:induction false} MineAllGrows(c: Chain, blocks: seq<Block>)
    requires c.lastUpdate <= c.head
    ensures var d := MineAll(c, blocks);
            && d.sent == c.sent && c.lastUpdate <= d.lastUpdate <= d.head && c.head <= d.head && c.landed <= d.landed
            && (forall l :: l in d.landed ==> l in c.landed || c.head < l.block <= d.lastUpdate)
  {
    if blocks != [] { MineAllGrows(c, blocks[..|blocks| - 1]); }
  }

  /** Submitting sends at most this extrinsic, writes no state, and succeeds only above its birth. */
  lemma SubmitSends(w: World, me: Identity, ext: Extrinsic, a: Attempt)
    requires Tracked(w.chain) && ext.birth == w.chain.head
    ensures var (v, ending) := Submit(w, me, ext, a);
            && v.state == w.state
            && (v.chain.sent == w.chain.sent || v.chain.sent == w.chain.sent + [ext])
            && w.chain.lastUpdate <= v.chain.lastUpdate
            && (ending == Finished ==> ext.birth < v.chain.lastUpdate)
  {
    var c := Enter(w.chain, ext);
    MineAllGrows(c, a.watched);
    if HasLanded(MineAll(c, a.watched), |w.chain.sent|) {
      var l :| l in MineAll(c, a.watched).landed && l.number == |w.chain.sent|;
      assert l !in w.chain.landed;
    }
  }

  lemma ExtendAgrees(c: Chain, d: Chain, s: ValidatorState, ext: Extrinsic)
    requires Covers(s, c) && SentAgree(c) && d.sent == c.sent + [ext] && c.lastUpdate <= d.lastUpdate
    requires s.epoch == Some(ext.epoch) && s.id == Some(ext.id) && s.digest == Some(ext.digest)
    ensures Covers(s, d) && SentAgree(d)
  {}

  /** Saving an acceptable state that covers the chain keeps every agreement. */
  lemma SavedAgrees(w: World, t: ValidatorState)
    requires Acceptable(t) && Covers(t, w.chain) && SentAgree(w.chain)
    ensures Agreed(w.(state := Encode(t))) && Load(Encode(t)) == Ok(t)
  {
    LoadAcceptsExactly(t, w.state);
  }

  lemma FinishAgrees(w: World, saved: ValidatorState, epoch: u64, a: Attempt)
    requires Load(w.state) == Ok(saved) && Acceptable(saved) && Covers(saved, w.chain) && SentAgree(w.chain)
    requires saved.epoch == Some(epoch) && epoch <= w.chain.lastUpdate
    ensures var v := FinishEpoch(w, saved, epoch, a).0;
            && Agreed(v) && Load(v.state).Ok? && Advances(saved, Load(v.state).value)
            && (BurnCovered(saved, w.chain) ==> BurnCovered(Load(v.state).value, v.chain))
  {
    hide Load, Encode;
    SavedAgrees(w, saved.(burnEpoch := Some(epoch)));
  }

  /** From a saved state that already names the summary. */
  lemma SettleAgrees(w: World, me: Identity, s: Snapshot, summary: Summary, saved: ValidatorState, a: Attempt)
    requires Tracked(w.chain) && Current(w.chain, me, s, summary)
    requires Load(w.state) == Ok(saved) && Acceptable(saved) && Covers(saved, w.chain) && SentAgree(w.chain)
    requires saved.id == Some(summary.id) && saved.digest == Some(summary.digest)
    requires saved.epoch == Some(summary.epochEnd)
    ensures var v := SettleEpoch(w, me, s, summary, saved, a).0;
            && Agreed(v) && Load(v.state).Ok? && Advances(saved, Load(v.state).value)
            && (BurnCovered(saved, w.chain) ==> BurnCovered(Load(v.state).value, v.chain))
  {
    hide Submit, FinishEpoch, Load, Covers, SentAgree;
    var ext := Extrinsic(s.finalizedBlock, summary.epochEnd, summary.id, summary.digest);
    SubmitSends(w, me, ext, a);
    var (v, ending) := Submit(w, me, ext, a);
    if v.chain.sent == w.chain.sent {
      SameSentAgrees(w.chain, v.chain, saved);
    } else {
      ExtendAgrees(w.chain, v.chain, saved, ext);
    }
    if ending == Finished { FinishAgrees(v, saved, summary.epochEnd, a); }
    if w.chain.lastUpdate >= summary.epochEnd { FinishAgrees(w, saved, summary.epochEnd, a); }
  }

  lemma SameSentAgrees(c: Chain, d: Chain, s: ValidatorState)
    requires Covers(s, c) && SentAgree(c) && d.sent == c.sent && c.lastUpdate <= d.lastUpdate
    ensures Covers(s, d) && SentAgree(d)
  {}

  lemma ProcessedAccepted(saved: ValidatorState, summary: Summary)
    requires Acceptable(saved) && summary.id != "" && summary.digest != ""
    requires saved.epoch.Some? ==> saved.epoch.value < summary.epochEnd
    ensures Acceptable(Processed(saved, summary)) && Advances(saved, Processed(saved, summary))
  {}

  /** A run keeps every submission under one summary per epoch, and only ever writes states that load. */
  lemma RunAgrees(w: World, me: Identity, a: Attempt)
    requires Inv(w, me) && Agreed(w) && Honest(w.chain, me, a)
    ensures var v := RunOnce(w, me, a).0;
            && Agreed(v)
            && (Load(w.state).Err? ==> v == w)
            && (Load(w.state).Ok? ==>
                  && Load(v.state).Ok? && Advances(Load(w.state).value, Load(v.state).value)
                  && (BurnCovered(Load(w.state).value, w.chain) ==> BurnCovered(Load(v.state).value, v.chain)))
  {
    hide SettleEpoch, Load, Covers, SentAgree, Encode, ReadSnapshot, ValidateChain;
    if ReadSnapshot(a.storage).Ok? && a.summary.Some? && Load(w.state).Ok? {
      var s, summary, saved := ReadSnapshot(a.storage).value, a.summary.value, Load(w.state).value;
      LoadAcceptsExactly(saved, w.state);
      if ValidateChain(summary, s).None? {
        AcceptedIsCurrent(w.chain, me, a);
        ProcessAgrees(w, me, s, summary, saved, a);
      }
    }
  }

  lemma ProcessAgrees(w: World, me: Identity, s: Snapshot, summary: Summary, saved: ValidatorState, a: Attempt)
    requires Tracked(w.chain) && Current(w.chain, me, s, summary) && summary.id != "" && summary.digest != ""
    requires Load(w.state) == Ok(saved) && Acceptable(saved) && Covers(saved, w.chain) && SentAgree(w.chain)
    ensures var v := Process(w, me, s, summary, saved, a).0;
            && Agreed(v) && Load(v.state).Ok? && Advances(saved, Load(v.state).value)
            && (BurnCovered(saved, w.chain) ==> BurnCovered(Load(v.state).value, v.chain))
  {
    hide SettleEpoch, Load, Covers, SentAgree, Encode;
    if saved.epoch == Some(summary.epochEnd) {
      if saved.id == Some(summary.id) && saved.digest == Some(summary.digest) {
        SettleAgrees(w, me, s, summary, saved, a);
      }
    } else if saved.epoch.None? || saved.epoch.value < summary.epochEnd {
      var next := Processed(saved, summary);
      ProcessedAccepted(saved, summary);
      CoversLater(saved, next, w.chain);
      SavedAgrees(w, next);
      SettleAgrees(w.(state := Encode(next)), me, s, summary, next, a);
    }
  }

  lemma CoversLater(s: ValidatorState, t: ValidatorState, c: Chain)
    requires Covers(s, c) && t.epoch.Some?
    requires s.epoch.Some? ==> s.epoch.value < t.epoch.value
    ensures Covers(t, c)
  {}

  /** A host whose saved burn, if it has one, is no later than `LastUpdate`. */
  predicate BurnIsCovered(w: World) {
    Load(w.state).Ok? ==> BurnCovered(Load(w.state).value, w.chain)
  }

  lemma MineAgrees(w: World, b: Block)
    requires Agreed(w) && w.chain.lastUpdate <= w.chain.head
    ensures Agreed(w.(chain := Mine(w.chain, b)))
  {
    hide Load, Covers, SentAgree;
    if Load(w.state).Ok? {
      SameSentAgrees(w.chain, Mine(w.chain, b), Load(w.state).value);
    } else {
      SentSame(w.chain, Mine(w.chain, b));
    }
  }

  lemma SentSame(c: Chain, d: Chain)
    requires SentAgree(c) && d.sent == c.sent
    ensures SentAgree(d)
  {}

  lemma {:induction false} AlwaysAgreed(w: World, me: Identity, actions: seq<Action>)
    requires Fresh(w) && HonestAll(w, me, actions)
    ensures Agreed(ActAll(w, me, actions))
  {
    hide Agreed, Load;
    if actions == [] {
      FreshAgrees(w);
    } else {
      var before, last := actions[..|actions| - 1], actions[|actions| - 1];
      AlwaysAgreed(w, me, before);
      AlwaysInv(w, me, before);
      var v := ActAll(w, me, before);
      if last.Ran? { RunAgrees(v, me, last.attempt); } else { MineAgrees(v, last.block); }
    }
  }

  lemma FreshAgrees(w: World)
    requires Fresh(w)
    ensures Agreed(w)
  {}

  /** Over any history, all submissions for one epoch carry the scores of one summary. */
  lemma OneSummaryPerEpoch(w: World, me: Identity, actions: seq<Action>, i: nat, j: nat)
    requires Fresh(w) && HonestAll(w, me, actions)
    requires var sent := ActAll(w, me, actions).chain.sent;
             i < |sent| && j < |sent| && sent[i].epoch == sent[j].epoch
    ensures var sent := ActAll(w, me, actions).chain.sent;
            sent[i].id == sent[j].id && sent[i].digest == sent[j].digest
  {
    AlwaysAgreed(w, me, actions);
  }

  /** An epoch is recorded as burned only when `LastUpdate` is at least that recent. */
  lemma {:induction false} SavedBurnIsCovered(w: World, me: Identity, actions: seq<Action>)
    requires Fresh(w) && BurnIsCovered(w) && HonestAll(w, me, actions)
    ensures BurnIsCovered(ActAll(w, me, actions))
  {
    hide Load, Agreed, RunOnce, Mine, BurnCovered;
    if actions != [] {
      var before, last := actions[..|actions| - 1], actions[|actions| - 1];
      var v := ActAll(w, me, before);
      SavedBurnIsCovered(w, me, before);
      AlwaysInv(w, me, before);
      AlwaysAgreed(w, me, before);
      if last.Ran? { RunAgrees(v, me, last.attempt); } else { MineKeepsBurn(v, last.block); }
    }
  }

  lemma MineKeepsBurn(w: World, b: Block)
    requires w.chain.lastUpdate <= w.chain.head && BurnIsCovered(w)
    ensures BurnIsCovered(w.(chain := Mine(w.chain, b)))
  {}

  /** Across all actions the saved summary only moves forward, and every state written loads. */
  lemma {:induction false} StateAdvances(w: World, me: Identity, actions: seq<Action>)
    requires Fresh(w) && HonestAll(w, me, actions) && Load(w.state).Ok?
    ensures var v := ActAll(w, me, actions);
            Load(v.state).Ok? && Advances(Load(w.state).value, Load(v.state).value)
  {
    hide Load, Agreed, RunOnce, Mine;
    if actions != [] {
      var before, last := actions[..|actions| - 1], actions[|actions| - 1];
      StateAdvances(w, me, before);
      if last.Ran? {
        AlwaysInv(w, me, before);
        AlwaysAgreed(w, me, before);
        RunAgrees(ActAll(w, me, before), me, last.attempt);
      }
    }
  }

  // ----- when a run broadcasts

  /** A run in which every call completes, with an accepted summary whose epoch is not settled yet. */
  ghost predicate Settleable(w: World, me: Identity, a: Attempt) {
    && (forall c: Call :: a.effect(c).Done?)
    && ReadSnapshot(a.storage).Ok? && a.summary.Some? && Load(w.state).Ok?
    && var s, summary, saved := ReadSnapshot(a.storage).value, a.summary.value, Load(w.state).value;
    && ValidateChain(summary, s).None?
    && saved.burnEpoch != Some(summary.epochEnd)
    && (saved.epoch.Some? ==> saved.epoch.value <= summary.epochEnd)
    && (saved.epoch == Some(summary.epochEnd) ==> saved.id == Some(summary.id) && saved.digest == Some(summary.digest))
    && me.hotkey in s.hotkeys && |s.hotkeys| == |s.lastUpdates|
  }

  /** This validator's last weights are older than the epoch, and old enough for the chain to accept new ones. */
  ghost predicate WeightsDue(me: Identity, s: Snapshot, summary: Summary)
    requires |s.hotkeys| == |s.lastUpdates|
  {
    forall uid :: IsUid(s.hotkeys, me.hotkey, uid) ==>
      && s.lastUpdates[uid] < summary.epochEnd
      && (s.lastUpdates[uid] == 0 || s.lastUpdates[uid] + s.rateLimit <= s.finalizedBlock)
  }

  /** An accepted, unsettled summary that nothing but the guard can keep from being submitted. */
  ghost predicate Ready(w: World, me: Identity, a: Attempt) {
    && Settleable(w, me, a)
    && var s, summary := ReadSnapshot(a.storage).value, a.summary.value;
    && summary.minerTarget.Some? && summary.taoPrice.Some?
    && WeightsDue(me, s, summary)
    && s.finalizedBlock + MORTALITY_BLOCKS <= U64_MAX
  }

  /** The guard blocks exactly while it is foreign, unreadable or before its expiry. */
  lemma BroadcastsExactlyWhenGuardAllows(w: World, me: Identity, a: Attempt)
    requires Ready(w, me, a)
    ensures var v := RunOnce(w, me, a).0;
            var f := a.storage.block;
            && (v.chain.sent != w.chain.sent <==>
                  || w.guard.NoGuard?
                  || (exists e: u64 :: w.guard == Held(Guard(me.genesis, me.netuid, me.hotkey, e)) && e <= f))
            && (v.chain.sent != w.chain.sent ==>
                  var summary := a.summary.value;
                  && v.chain.sent == w.chain.sent + [Extrinsic(f, summary.epochEnd, summary.id, summary.digest)]
                  && v.guard == if a.sawSuccess && HasLanded(v.chain, |w.chain.sent|) then NoGuard
                                else Held(Guard(me.genesis, me.netuid, me.hotkey, f + 64)))
  {
    hide MineAll, Load, ValidateChain, RateLimit;
    SnapshotIsConsistent(a.storage);
    var s, summary := ReadSnapshot(a.storage).value, a.summary.value;
    DueAtOwnUid(me, s, summary);
    OwnGuard(w.guard, me, s.finalizedBlock);
    var ext := Extrinsic(s.finalizedBlock, summary.epochEnd, summary.id, summary.digest);
    SentThrough(Enter(w.chain, ext), a.watched);
    hide ReadSnapshot;
  }

  lemma DueAtOwnUid(me: Identity, s: Snapshot, summary: Summary)
    requires |s.hotkeys| == |s.lastUpdates| && me.hotkey in s.hotkeys && WeightsDue(me, s, summary)
    requires s.finalizedBlock < U64_MAX
    ensures var uid := Position(s.hotkeys, me.hotkey);
            && uid < |s.hotkeys| && s.lastUpdates[uid] < summary.epochEnd
            && RateLimit(s, s.lastUpdates[uid]).None?
  {
    PositionIsUid(s.hotkeys, me.hotkey, Position(s.hotkeys, me.hotkey));
  }

  lemma OwnGuard(file: GuardFile, me: Identity, f: u64)
    ensures GuardRefusal(file, me, f).None? <==>
            file.NoGuard? || exists e: u64 :: file == Held(Guard(me.genesis, me.netuid, me.hotkey, e)) && e <= f
  {
    if file.Held? && Owns(file.guard, me) {
      assert file == Held(Guard(me.genesis, me.netuid, me.hotkey, file.guard.expiresAt));
    }
  }

  lemma {:induction false} SentThrough(c: Chain, blocks: seq<Block>)
    ensures MineAll(c, blocks).sent == c.sent
  {
    if blocks != [] { SentThrough(c, blocks[..|blocks| - 1]); }
  }

  /** A watched success clears the guard and records the epoch, so the next run has nothing to do. */
  lemma WatchedSuccessSettles(w: World, me: Identity, a: Attempt)
    requires Ready(w, me, a) && GuardRefusal(w.guard, me, a.storage.block).None?
    requires a.sawSuccess && HasLanded(MineAll(Enter(w.chain, ExtrinsicOf(a)), a.watched), |w.chain.sent|)
    requires a.summary.value.id != "" && a.summary.value.digest != ""
    ensures var (v, ending) := RunOnce(w, me, a);
            && ending == Finished && v.guard == NoGuard
            && var summary := a.summary.value;
            Load(v.state) == Ok(ValidatorState(Some(summary.epochEnd), Some(summary.digest),
                                               Some(summary.epochEnd), Some(summary.id)))
  {
    hide MineAll, ValidateChain, RateLimit, HasLanded;
    SnapshotIsConsistent(a.storage);
    var saved, summary := Load(w.state).value, a.summary.value;
    DueAtOwnUid(me, ReadSnapshot(a.storage).value, summary);
    LoadAcceptsExactly(saved, w.state);
    var settled := Processed(saved, summary).(burnEpoch := Some(summary.epochEnd));
    LoadAcceptsExactly(settled, w.state);
    hide Load, ReadSnapshot;
  }

  function ExtrinsicOf(a: Attempt): Extrinsic
    requires a.summary.Some?
  {
    Extrinsic(a.storage.block, a.summary.value.epochEnd, a.summary.value.id, a.summary.value.digest)
  }
}
