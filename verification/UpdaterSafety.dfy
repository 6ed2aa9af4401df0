/**
 What every history of updater runs keeps, whichever calls fail and wherever runs are
 interrupted.
 */
module UpdaterSafety {
  import opened Common
  import opened UpdaterState
  import opened UpdaterSteps

  // ----- reading the log

  predicate HasSwap(log: Log, s: u64) {
    match log
    case Nothing => false
    case Then(before, e) => (e.Swapped? && e.sequence == s) || HasSwap(before, s)
  }

  predicate HasRestore(log: Log, s: u64) {
    match log
    case Nothing => false
    case Then(before, e) => (e.Restored? && e.sequence == s) || HasRestore(before, s)
  }

  /** The release was swapped in, or a binary put back for it. */
  predicate Touched(log: Log, s: u64) {
    HasSwap(log, s) || HasRestore(log, s)
  }

  predicate Contains(log: Log, e: Event) {
    match log
    case Nothing => false
    case Then(before, last) => last == e || Contains(before, e)
  }

  function SwapCount(log: Log, s: u64): nat {
    match log
    case Nothing => 0
    case Then(before, e) => SwapCount(before, s) + if e.Swapped? && e.sequence == s then 1 else 0
  }

  /** The highest sequence recorded so far; 0 before any. */
  function MaxRecorded(log: Log): int {
    match log
    case Nothing => 0
    case Then(before, e) => if e.Recorded? then Max(MaxRecorded(before), e.sequence) else MaxRecorded(before)
  }

  /** Records never decrease; every swap is of a new sequence above all records before it. */
  predicate Ordered(log: Log) {
    match log
    case Nothing => true
    case Then(before, e) =>
      && Ordered(before)
      && (e.Swapped? ==> !HasSwap(before, e.sequence) && MaxRecorded(before) < e.sequence)
      && (e.Recorded? ==> MaxRecorded(before) <= e.sequence)
  }

  // ----- the invariant

  /** The release is promised but the old binary is still in place. */
  predicate NotLanded(h: Host, p: Pending) {
    && h.RunningVersion() != p.version
    && h.previous == Some(h.install)
    && !Touched(h.log, p.sequence)
    && p.sequence > h.InstalledSequence()
  }

  /** The release is in place, and the very binary its swap replaced is kept, intact. */
  predicate Landed(h: Host, p: Pending, vetted: set<Image>) {
    && h.RunningVersion() == p.version
    && h.previous.Some? && h.previous.value.Intact? && h.previous.value in vetted
    && h.previous.value.binary.version != p.version
    && Contains(h.log, Swapped(p.sequence, h.previous.value, h.install))
    && HasSwap(h.log, p.sequence) && !HasRestore(h.log, p.sequence)
  }

  /** The previous binary is back: nothing is kept and another version is in place. */
  predicate Undone(h: Host, p: Pending) {
    h.RunningVersion() != p.version && h.previous.None?
  }

  /** A touched sequence can never be swapped in again: it is recorded, failed, or still pending. */
  predicate Spent(h: Host, s: u64) {
    || s <= h.InstalledSequence()
    || h.HasFailed(s)
    || (h.pending.Some? && h.pending.value.sequence == s)
  }

  ghost predicate Inv(h: Host, vetted: set<Image>) {
    && h.install.Intact? && h.install in vetted
    && Ordered(h.log) && MaxRecorded(h.log) == h.InstalledSequence()
    && (forall s: u64 :: Touched(h.log, s) ==> Spent(h, s))
    && (h.pending.Some? ==>
          var p := h.pending.value;
          && p.sequence >= h.InstalledSequence()
          && (NotLanded(h, p) || Landed(h, p, vetted) || Undone(h, p)))
  }

  /** A freshly installed host: nothing pending, and the service runs what is installed. */
  predicate Fresh(h: Host) {
    && h.install.Intact? && h.pending.None? && h.service == Runs(h.install)
    && h.log == if h.release.Some? then Then(Nothing, Recorded(h.release.value.sequence)) else Nothing
  }

  /** The images a history may install: the first one and those that passed `stage`. */
  function Vetted(h: Host, runs: seq<Input>): set<Image> {
    if runs == [] then {h.install}
    else Vetted(h, runs[..|runs| - 1]) + Staged(runs[|runs| - 1])
  }

  function Staged(run: Input): set<Image> {
    if run.offer.Offered? && run.staging.StagedIntact?
    then {Intact(Binary(run.offer.manifest.version, run.offer.manifest.digest))}
    else {}
  }

  // ----- preservation, function by function

  lemma FailedGrows(h: Host, entry: FailedRelease)
    ensures var g := h.(failed := h.failed + [entry]);
            g.HasFailed(entry.sequence) && forall s: u64 :: h.HasFailed(s) ==> g.HasFailed(s)
  {
    var g := h.(failed := h.failed + [entry]);
    assert g.failed[|h.failed|] == entry;
    forall s: u64 | h.HasFailed(s) ensures g.HasFailed(s) {
      var i :| 0 <= i < |h.failed| && h.failed[i].sequence == s;
      assert g.failed[i].sequence == s;
    }
  }

  lemma RecordFailureKeeps(h: Host, version: string, sequence: u64, run: Input, vetted: set<Image>)
    requires Inv(h, vetted)
    ensures var (g, recording) := RecordFailure(h, version, sequence, run);
            && Inv(g, vetted)
            && g == h.(failed := g.failed)
            && (recording.Done? ==> g.HasFailed(sequence))
            && (forall s: u64 :: h.HasFailed(s) ==> g.HasFailed(s))
  {
    FailedGrows(h, FailedRelease(sequence, version, run.nowMs));
    var g := RecordFailure(h, version, sequence, run).0;
    forall s: u64 | Touched(g.log, s) ensures Spent(g, s) {
      assert Touched(h.log, s) && Spent(h, s);
    }
  }

  lemma FinishRollBackKeeps(h: Host, p: Pending, recorded: bool, run: Input, vetted: set<Image>)
    requires Inv(h, vetted) && h.pending.Some? && h.pending.value.sequence == p.sequence
    requires recorded ==> h.HasFailed(p.sequence)
    ensures Inv(FinishRollBack(h, p, recorded, run).0, vetted)
  {
    var g := FinishRollBack(h, p, recorded, run).0;
    ServiceIrrelevant(h, g.service, vetted);
    if recorded { ForgetKeeps(h.(service := g.service), vetted); }
    hide Inv;
    assert g == h.(service := g.service) || g == h.(service := g.service).(pending := None);
  }

  /** A release remembered as failed may be forgotten as pending. */
  lemma ForgetKeeps(h: Host, vetted: set<Image>)
    requires Inv(h, vetted) && h.pending.Some? && h.HasFailed(h.pending.value.sequence)
    ensures Inv(h.(pending := None), vetted)
  {
    var g := h.(pending := None);
    forall s: u64 | Touched(g.log, s) ensures Spent(g, s) {
      assert Touched(h.log, s) && Spent(h, s);
    }
  }

  lemma MarkKeeps(h: Host, p: Pending, vetted: set<Image>)
    requires Inv(h, vetted) && h.pending == Some(p)
    ensures Inv(h.(pending := Some(p.(rollingBack := true))), vetted)
  {
    var g := h.(pending := Some(p.(rollingBack := true)));
    forall s: u64 | Touched(g.log, s) ensures Spent(g, s) {
      assert Touched(h.log, s) && Spent(h, s);
    }
  }

  lemma RollBackKeeps(h: Host, p: Pending, run: Input, vetted: set<Image>)
    requires Inv(h, vetted) && h.pending == Some(p)
    ensures Inv(RollBack(h, p, run).0, vetted)
  {
    hide FinishRollBack, Ordered;
    var marked := After(run.effect(MarkRollback), h, h.(pending := Some(p.(rollingBack := true))));
    MarkKeeps(h, p, vetted);
    RecordFailureKeeps(marked, p.version, p.sequence, run, vetted);
    var (noted, recording) := RecordFailure(marked, p.version, p.sequence, run);
    if noted.previous.Some? {
      var restored := noted.(install := noted.previous.value, previous := None)
                           .Note(Restored(p.sequence, noted.previous.value));
      RestoreKeeps(noted, p, vetted);
      FinishRollBackKeeps(restored, p, recording.Done?, run, vetted);
    }
    FinishRollBackKeeps(noted, p, recording.Done?, run, vetted);
  }

  lemma RestoreKeeps(h: Host, p: Pending, vetted: set<Image>)
    requires Inv(h, vetted) && h.pending.Some? && h.pending.value.sequence == p.sequence
    requires h.pending.value.version == p.version && h.previous.Some?
    ensures var g := h.(install := h.previous.value, previous := None).Note(Restored(p.sequence, h.previous.value));
            Inv(g, vetted)
  {
    var g := h.(install := h.previous.value, previous := None).Note(Restored(p.sequence, h.previous.value));
    forall s: u64 | Touched(g.log, s) ensures Spent(g, s) {
      if s != p.sequence { assert Touched(h.log, s) && Spent(h, s); }
    }
  }

  lemma ConfirmKeeps(h: Host, p: Pending, run: Input, vetted: set<Image>)
    requires Inv(h, vetted) && h.pending == Some(p) && h.RunningVersion() == p.version
    ensures Inv(Confirm(h, p, run).0, vetted)
  {
    if run.restart.RestartFailed? {
      ServiceIrrelevant(h, run.restart.after, vetted);
      RollBackKeeps(h.(service := run.restart.after), p, run, vetted);
    } else if run.restart.RestartStopped? {
      ServiceIrrelevant(h, run.restart.after, vetted);
    } else {
      var up := h.(service := Runs(h.install));
      ServiceIrrelevant(h, Runs(h.install), vetted);
      if run.health.Unhealthy? { RollBackKeeps(up, p, run, vetted); }
      RecordKeeps(up, p, vetted);
    }
  }

  lemma ServiceIrrelevant(h: Host, service: Service, vetted: set<Image>)
    requires Inv(h, vetted)
    ensures Inv(h.(service := service), vetted)
  {
    var g := h.(service := service);
    forall s: u64 | Touched(g.log, s) ensures Spent(g, s) {
      assert Touched(h.log, s) && Spent(h, s);
    }
  }

  lemma RecordKeeps(h: Host, p: Pending, vetted: set<Image>)
    requires Inv(h, vetted) && h.pending == Some(p) && h.RunningVersion() == p.version
    ensures var g := h.(release := Some(Release(p.version, p.sequence))).Note(Recorded(p.sequence));
            Inv(g, vetted) && Inv(g.(pending := None), vetted)
  {
    var g := h.(release := Some(Release(p.version, p.sequence))).Note(Recorded(p.sequence));
    forall s: u64 | Touched(g.log, s) ensures Spent(g, s) && Spent(g.(pending := None), s) {
      assert Touched(h.log, s) && Spent(h, s);
    }
  }

  /** Between runs of the update itself: nothing is pending. */
  lemma IdleKeeps(h: Host, g: Host, vetted: set<Image>)
    requires Inv(h, vetted) && h.pending.None?
    requires g.install == h.install && g.release == h.release && g.failed == h.failed && g.log == h.log
    requires g.pending.None?
    ensures Inv(g, vetted)
  {
    forall s: u64 | Touched(g.log, s) ensures Spent(g, s) {
      assert Touched(h.log, s) && Spent(h, s);
    }
  }

  lemma LandedKeeps(h: Host, m: Manifest, vetted: set<Image>)
    requires Inv(h, vetted) && h.pending.None? && h.previous == Some(h.install)
    requires m.sequence > h.InstalledSequence() && !h.HasFailed(m.sequence) && m.version != h.RunningVersion()
    requires h.staged == Some(Intact(Binary(m.version, m.digest))) && h.staged.value in vetted
    ensures Inv(h.(pending := Some(Pending(m.version, m.sequence, false))), vetted)
    ensures Inv(h.(pending := Some(Pending(m.version, m.sequence, false)), install := h.staged.value, staged := None)
                 .Note(Swapped(m.sequence, h.install, h.staged.value)), vetted)
  {
    var promised := h.(pending := Some(Pending(m.version, m.sequence, false)));
    assert Touched(h.log, m.sequence) ==> Spent(h, m.sequence);
    forall s: u64 | Touched(promised.log, s) ensures Spent(promised, s) {
      assert Touched(h.log, s) && Spent(h, s);
    }
    var swapped := promised.(install := h.staged.value, staged := None)
                           .Note(Swapped(m.sequence, h.install, h.staged.value));
    forall s: u64 | Touched(swapped.log, s) ensures Spent(swapped, s) {
      if s != m.sequence { assert Touched(h.log, s) && Spent(h, s); }
    }
  }

  lemma SwapInKeeps(h: Host, m: Manifest, run: Input, vetted: set<Image>)
    requires Inv(h, vetted) && h.pending.None? && h.previous == Some(h.install)
    requires m.sequence > h.InstalledSequence() && !h.HasFailed(m.sequence) && m.version != h.RunningVersion()
    requires h.staged == Some(Intact(Binary(m.version, m.digest))) && h.staged.value in vetted
    ensures Inv(SwapIn(h, m, run).0, vetted)
  {
    hide Confirm;
    var p := Pending(m.version, m.sequence, false);
    var promised := h.(pending := Some(p));
    LandedKeeps(h, m, vetted);
    ConfirmKeeps(promised.(install := h.staged.value, staged := None)
                         .Note(Swapped(m.sequence, h.install, h.staged.value)), p, run, vetted);
    IdleKeeps(h, h.(staged := None), vetted);
    UnstagedKeeps(promised, vetted);
  }

  lemma UnstagedKeeps(h: Host, vetted: set<Image>)
    requires Inv(h, vetted)
    ensures Inv(h.(staged := None), vetted)
  {
    var g := h.(staged := None);
    forall s: u64 | Touched(g.log, s) ensures Spent(g, s) {
      assert Touched(h.log, s) && Spent(h, s);
    }
  }

  lemma StageKeeps(h: Host, m: Manifest, run: Input, vetted: set<Image>)
    requires Inv(h, vetted) && h.pending.None?
    requires run.offer == Offered(m) && Staged(run) <= vetted
    requires m.sequence > h.InstalledSequence() && !h.HasFailed(m.sequence) && m.version != h.RunningVersion()
    ensures Inv(Stage(h, m, run).0, vetted)
  {
    if run.staging.StagedIntact? {
      var staged := h.(staged := Some(Intact(Binary(m.version, m.digest))));
      IdleKeeps(h, staged, vetted);
      if run.copying.Copied? {
        IdleKeeps(h, staged.(previous := Some(h.install)), vetted);
        SwapInKeeps(staged.(previous := Some(h.install)), m, run, vetted);
      } else {
        IdleKeeps(h, KeepPrevious(staged, m, run).0, vetted);
      }
    } else if run.staging.StageUnusable? {
      var cleaned := GiveUp(h.(staged := run.staging.left), BadRelease, run).0;
      IdleKeeps(h, cleaned, vetted);
      RecordFailureKeeps(cleaned, m.version, m.sequence, run, vetted);
    } else {
      IdleKeeps(h, Stage(h, m, run).0, vetted);
    }
  }

  lemma LookForUpdateKeeps(h: Host, run: Input, vetted: set<Image>)
    requires Inv(h, vetted) && h.pending.None? && Staged(run) <= vetted
    ensures Inv(LookForUpdate(h, run).0, vetted)
  {
    if run.offer.Offered? {
      var m := run.offer.manifest;
      if m.sequence > h.InstalledSequence() {
        if m.version == h.RunningVersion() {
          var seen := h.(release := Some(Release(m.version, m.sequence))).Note(Recorded(m.sequence));
          forall s: u64 | Touched(seen.log, s) ensures Spent(seen, s) {
            assert Touched(h.log, s) && Spent(h, s);
          }
        } else if !h.HasFailed(m.sequence) {
          StageKeeps(h, m, run, vetted);
        }
      }
    }
  }

  /** Whatever happens in a run, the invariant holds where it ends or is interrupted. */
  lemma RunKeeps(h: Host, run: Input, vetted: set<Image>)
    requires Inv(h, vetted) && Staged(run) <= vetted
    ensures Inv(Run(h, run).0, vetted)
  {
    if h.pending.None? {
      LookForUpdateKeeps(h, run, vetted);
    } else {
      var p := h.pending.value;
      RollBackKeeps(h, p, run, vetted);
      if p.version == h.RunningVersion() {
        ConfirmKeeps(h, p, run, vetted);
      } else if !LooksRestored(h, p, run) {
        DropKeeps(h, vetted);
        LookForUpdateKeeps(h.(pending := None), run, vetted);
      }
    }
  }

  /** Dropping a pending release that never landed frees no swapped sequence. */
  lemma DropKeeps(h: Host, vetted: set<Image>)
    requires Inv(h, vetted) && h.pending.Some? && h.pending.value.version != h.RunningVersion() && h.previous.Some?
    ensures NotLanded(h, h.pending.value)
    ensures Inv(h.(pending := None), vetted)
  {
    var g := h.(pending := None);
    assert NotLanded(h, h.pending.value);
    forall s: u64 | Touched(g.log, s) ensures Spent(g, s) {
      assert Touched(h.log, s) && Spent(h, s);
    }
  }

  lemma InvWiden(h: Host, small: set<Image>, large: set<Image>)
    requires Inv(h, small) && small <= large
    ensures Inv(h, large)
  {}

  /** From any state that satisfies the invariant, every history keeps it. */
  lemma {:induction false} InvLasts(h: Host, runs: seq<Input>, vetted: set<Image>)
    requires Inv(h, vetted)
    ensures Inv(RunAll(h, runs), vetted + Vetted(h, runs))
  {
    if runs == [] {
      InvWiden(h, vetted, vetted + Vetted(h, runs));
    } else {
      var before, run := runs[..|runs| - 1], runs[|runs| - 1];
      InvLasts(h, before, vetted);
      InvWiden(RunAll(h, before), vetted + Vetted(h, before), vetted + Vetted(h, runs));
      RunKeeps(RunAll(h, before), run, vetted + Vetted(h, runs));
    }
  }

  /** Every reachable state satisfies the invariant. */
  lemma AlwaysInv(h: Host, runs: seq<Input>)
    requires Fresh(h)
    ensures Inv(RunAll(h, runs), Vetted(h, runs))
  {
    FreshInv(h);
    InvLasts(h, runs, {h.install});
    FirstIsVetted(h, runs);
    assert {h.install} + Vetted(h, runs) == Vetted(h, runs);
  }

  lemma FreshInv(h: Host)
    requires Fresh(h)
    ensures Inv(h, {h.install})
  {
    forall s: u64 ensures !Touched(h.log, s) {
      if h.log.Then? { assert !HasSwap(h.log.before, s) && !HasRestore(h.log.before, s); }
    }
  }

  lemma {:induction false} FirstIsVetted(h: Host, runs: seq<Input>)
    ensures h.install in Vetted(h, runs)
  {
    if runs != [] { FirstIsVetted(h, runs[..|runs| - 1]); }
  }

  // ----- the main results

  /** Over any history each release sequence is swapped in at most once. */
  lemma SwappedAtMostOnce(h: Host, runs: seq<Input>, s: u64)
    requires Fresh(h)
    ensures SwapCount(RunAll(h, runs).log, s) <= 1
  {
    AlwaysInv(h, runs);
    OrderedSwapsOnce(RunAll(h, runs).log, s);
  }

  lemma {:induction false} OrderedSwapsOnce(log: Log, s: u64)
    requires Ordered(log)
    ensures SwapCount(log, s) == if HasSwap(log, s) then 1 else 0
  {
    if log.Then? { OrderedSwapsOnce(log.before, s); }
  }

  lemma RollBackRelease(h: Host, p: Pending, run: Input)
    ensures RollBack(h, p, run).0.release == h.release
  {}

  lemma ConfirmRelease(h: Host, p: Pending, run: Input)
    requires h.InstalledSequence() <= p.sequence
    ensures h.InstalledSequence() <= Confirm(h, p, run).0.InstalledSequence()
  {
    hide RollBack;
    if run.restart.RestartFailed? { RollBackRelease(h.(service := run.restart.after), p, run); }
    RollBackRelease(h.(service := Runs(h.install)), p, run);
  }

  lemma StageRelease(h: Host, m: Manifest, run: Input)
    requires h.InstalledSequence() <= m.sequence
    ensures h.InstalledSequence() <= Stage(h, m, run).0.InstalledSequence()
  {
    hide Confirm;
    var staged := h.(staged := Some(Intact(Binary(m.version, m.digest))), previous := Some(h.install));
    var p := Pending(m.version, m.sequence, false);
    var swapped := staged.(pending := Some(p), install := staged.staged.value, staged := None)
                         .Note(Swapped(m.sequence, h.install, staged.staged.value));
    ConfirmRelease(swapped, p, run);
  }

  lemma RunRelease(h: Host, run: Input)
    requires h.pending.Some? ==> h.InstalledSequence() <= h.pending.value.sequence
    ensures h.InstalledSequence() <= Run(h, run).0.InstalledSequence()
  {
    hide Confirm, Stage, RollBack;
    if run.offer.Offered? && h.InstalledSequence() <= run.offer.manifest.sequence {
      StageRelease(h, run.offer.manifest, run);
      StageRelease(h.(pending := None), run.offer.manifest, run);
    }
    if h.pending.Some? {
      ConfirmRelease(h, h.pending.value, run);
      RollBackRelease(h, h.pending.value, run);
    }
  }

  /**
   `release.json` names the highest sequence ever recorded, no run lowers it, records never
   decrease, and every swapped-in sequence exceeds all records before it.
   */
  lemma ReleaseNeverDecreases(h: Host, runs: seq<Input>, run: Input)
    requires Fresh(h)
    ensures var g := RunAll(h, runs);
            && g.InstalledSequence() == MaxRecorded(g.log)
            && g.InstalledSequence() <= Run(g, run).0.InstalledSequence()
            && Ordered(g.log)
  {
    hide Run;
    AlwaysInv(h, runs);
    RunRelease(RunAll(h, runs), run);
  }

  /** The install path always holds an intact binary: the first one or one that passed `stage`. */
  lemma InstallPathIntact(h: Host, runs: seq<Input>)
    requires Fresh(h)
    ensures RunAll(h, runs).install.Intact?
    ensures RunAll(h, runs).install in Vetted(h, runs)
  {
    AlwaysInv(h, runs);
  }

}
