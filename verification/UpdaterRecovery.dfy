/**
 What the next run of the updater makes of an interrupted one, and the two steps, both behind a
 failed probe for `.previous`, that it cannot make good.
 */
module UpdaterRecovery {
  import opened Common
  import opened UpdaterState
  import opened UpdaterSteps
  import opened UpdaterSafety

  // ----- the service

  /** While the service is not known to run what is installed, `pending.json` makes the next run restart it. */
  predicate RestartRemembered(h: Host) {
    h.service != Runs(h.install) ==>
      && h.pending.Some?
      && (h.pending.value.rollingBack || h.pending.value.version == h.RunningVersion() || h.previous.None?)
  }

  predicate RecordingStops(h: Host, sequence: u64, run: Input) {
    || run.effect(ReadFailures).Stopped?
    || (run.effect(ReadFailures).Done? && !h.HasFailed(sequence) && run.effect(WriteFailure).Stopped?)
  }

  /**
   The run rolls back a release that never landed, because its first probe for `.previous` failed;
   it cannot mark that, the second probe fails as well, and the restart breaks the service.
   */
  predicate LosesRestart(h: Host, run: Input) {
    && Started(run) && h.pending.Some?
    && var p := h.pending.value;
    && !p.rollingBack && p.version != h.RunningVersion() && h.previous.Some?
    && run.effect(ProbeRecovery).Failed? && run.effect(MarkRollback).Failed? && run.effect(ProbePrevious).Failed?
    && !RecordingStops(h, p.sequence, run)
    && !run.rollbackRestart.Restarted? && run.rollbackRestart.after != Runs(h.install)
  }

  lemma FinishRemembers(h: Host, p: Pending, recorded: bool, run: Input)
    requires h.pending.Some?
    requires h.pending.value.rollingBack || h.pending.value.version == h.RunningVersion() || h.previous.None?
    ensures RestartRemembered(FinishRollBack(h, p, recorded, run).0)
  {}

  lemma FinishesRemember(p: Pending, run: Input)
    ensures forall g: Host, recorded: bool ::
              && g.pending.Some?
              && (g.pending.value.rollingBack || g.pending.value.version == g.RunningVersion() || g.previous.None?)
              ==> RestartRemembered(FinishRollBack(g, p, recorded, run).0)
  {
    forall g: Host, recorded: bool
      | && g.pending.Some?
        && (g.pending.value.rollingBack || g.pending.value.version == g.RunningVersion() || g.previous.None?)
      ensures RestartRemembered(FinishRollBack(g, p, recorded, run).0)
    {
      FinishRemembers(g, p, recorded, run);
    }
  }

  lemma RollBackInPlaceRemembers(h: Host, p: Pending, run: Input)
    requires h.pending == Some(p) && h.RunningVersion() == p.version
    ensures RestartRemembered(RollBack(h, p, run).0)
  {
    FinishesRemember(p, run);
    hide FinishRollBack;
  }

  lemma RollBackRemembers(h: Host, p: Pending, run: Input)
    requires RestartRemembered(h) && h.pending == Some(p) && h.RunningVersion() != p.version
    requires h.previous.Some? ==> h.previous.value == h.install
    ensures RestartRemembered(RollBack(h, p, run).0) <==>
            !(&& !p.rollingBack && h.previous.Some?
              && run.effect(MarkRollback).Failed? && run.effect(ProbePrevious).Failed?
              && !RecordingStops(h, p.sequence, run)
              && !run.rollbackRestart.Restarted? && run.rollbackRestart.after != Runs(h.install))
  {
    if p.rollingBack || h.previous.None? || !run.effect(MarkRollback).Failed? || !run.effect(ProbePrevious).Failed? {
      FinishesRemember(p, run);
      hide FinishRollBack;
    }
  }

  /** A run forgets that a restart is due exactly when it loses one as `LosesRestart` says. */
  lemma RunRemembers(h: Host, run: Input, vetted: set<Image>)
    requires Inv(h, vetted) && RestartRemembered(h)
    ensures RestartRemembered(Run(h, run).0) <==> !LosesRestart(h, run)
  {
    assert h.pending.Some? && h.pending.value.version != h.RunningVersion() && h.previous.Some? ==>
      h.previous.value == h.install;
    hide Run, RollBack, Confirm, RecordingStops, Inv;
    RunCases(h, run);
    match Site(h, run)
    case Some((r, p)) =>
      ConfirmCases(r, p, run);
      RollBackInPlaceRemembers(r, p, run);
      RollBackInPlaceRemembers(RestartedAt(r, run), p, run);
    case None =>
      if Resumes(h, run) { RollBackRemembers(h, h.pending.value, run); }
  }

  // ----- the swaps

  /** A swap is answered for: recorded, or undone with its old binary and remembered as failed. */
  predicate Answered(h: Host, s: u64, replaced: Image) {
    || Contains(h.log, Recorded(s))
    || (Contains(h.log, Restored(s, replaced)) && h.HasFailed(s))
  }

  function PendingSequence(h: Host): Option<u64> {
    match h.pending
    case None => None
    case Some(p) => Some(p.sequence)
  }

  /** What is kept of the swap of the pending release: its old binary, or proof that it is back. */
  predicate Keeps(h: Host, s: u64, replaced: Image, installed: Image) {
    || (h.previous == Some(replaced) && h.install == installed)
    || (h.previous.None? && h.install == replaced && Contains(h.log, Restored(s, replaced)))
  }

  predicate KeptOrAnswered(h: Host, s: u64, replaced: Image, installed: Image) {
    if PendingSequence(h) == Some(s) then Keeps(h, s, replaced, installed) else Answered(h, s, replaced)
  }

  ghost predicate SwapsKept(h: Host) {
    forall s: u64, replaced: Image, installed: Image ::
      Contains(h.log, Swapped(s, replaced, installed)) ==> KeptOrAnswered(h, s, replaced, installed)
  }

  /** The run reports a release that was never recorded as rolled back, with that release still in place. */
  predicate Misreports(h: Host, run: Input) {
    match Site(h, run)
    case None => false
    case Some((r, p)) => RollsBack(p, run) && Forgets(r, p, run) && p.sequence > r.InstalledSequence()
  }

  lemma {:induction false} ContainedEvent(log: Log, e: Event)
    requires Contains(log, e)
    ensures e.Swapped? ==> HasSwap(log, e.sequence)
    ensures e.Restored? ==> HasRestore(log, e.sequence)
    ensures e.Recorded? ==> e.sequence <= MaxRecorded(log)
  {
    if log.event != e { ContainedEvent(log.before, e); }
  }

  lemma {:induction false} SwapOf(log: Log, s: u64) returns (replaced: Image, installed: Image)
    requires HasSwap(log, s)
    ensures Contains(log, Swapped(s, replaced, installed))
  {
    if log.event.Swapped? && log.event.sequence == s {
      replaced, installed := log.event.replaced, log.event.installed;
    } else {
      replaced, installed := SwapOf(log.before, s);
    }
  }

  lemma {:induction false} MaxIsRecorded(log: Log)
    requires MaxRecorded(log) > 0
    ensures 0 <= MaxRecorded(log) <= U64_MAX && Contains(log, Recorded(MaxRecorded(log)))
  {
    if MaxRecorded(log.before) > 0 { MaxIsRecorded(log.before); }
  }

  lemma {:induction false} SwapIsPositive(log: Log, s: u64)
    requires Ordered(log) && HasSwap(log, s)
    ensures s > 0
  {
    MaxNotNegative(log.before);
    if !(log.event.Swapped? && log.event.sequence == s) { SwapIsPositive(log.before, s); }
  }

  lemma {:induction false} MaxNotNegative(log: Log)
    ensures MaxRecorded(log) >= 0
  {
    if log.Then? { MaxNotNegative(log.before); }
  }

  /** A step that moves no binary of a pending swap and forgets no failure keeps every answer. */
  lemma Carry(h: Host, g: Host)
    requires SwapsKept(h) && PendingSequence(g) == PendingSequence(h)
    requires h.pending.Some? ==> g.install == h.install && g.previous == h.previous
    requires g.log == h.log || (g.log.Then? && g.log.before == h.log && !g.log.event.Swapped?)
    requires forall s: u64 :: h.HasFailed(s) ==> g.HasFailed(s)
    ensures SwapsKept(g)
  {
    forall s: u64, replaced: Image, installed: Image | Contains(g.log, Swapped(s, replaced, installed))
      ensures KeptOrAnswered(g, s, replaced, installed)
    {
      assert Contains(h.log, Swapped(s, replaced, installed)) && KeptOrAnswered(h, s, replaced, installed);
    }
  }

  lemma RestoreKept(h: Host)
    requires SwapsKept(h) && h.pending.Some? && h.previous.Some?
    ensures SwapsKept(h.(install := h.previous.value, previous := None)
                       .Note(Restored(h.pending.value.sequence, h.previous.value)))
  {
    var g := h.(install := h.previous.value, previous := None)
              .Note(Restored(h.pending.value.sequence, h.previous.value));
    forall s: u64, replaced: Image, installed: Image | Contains(g.log, Swapped(s, replaced, installed))
      ensures KeptOrAnswered(g, s, replaced, installed)
    {
      assert Contains(h.log, Swapped(s, replaced, installed)) && KeptOrAnswered(h, s, replaced, installed);
    }
  }

  lemma ForgetKept(h: Host, vetted: set<Image>)
    requires Inv(h, vetted) && SwapsKept(h) && h.pending.Some? && h.pending.value.version != h.RunningVersion()
    requires h.previous.None? ==> h.HasFailed(h.pending.value.sequence)
    ensures SwapsKept(h.(pending := None))
  {
    var g := h.(pending := None);
    forall s: u64, replaced: Image, installed: Image | Contains(g.log, Swapped(s, replaced, installed))
      ensures Answered(g, s, replaced)
    {
      ContainedEvent(h.log, Swapped(s, replaced, installed));
      assert KeptOrAnswered(h, s, replaced, installed);
    }
  }

  /** Forgetting a release in place leaves its swap unanswered unless it is the one last recorded. */
  lemma ForgetInPlace(h: Host, vetted: set<Image>)
    requires Inv(h, vetted) && SwapsKept(h) && h.pending.Some? && h.pending.value.version == h.RunningVersion()
    ensures SwapsKept(h.(pending := None)) <==> h.pending.value.sequence == h.InstalledSequence()
  {
    var g, q := h.(pending := None), h.pending.value.sequence;
    if q == h.InstalledSequence() {
      SwapIsPositive(h.log, q);
      MaxIsRecorded(h.log);
      forall s: u64, replaced: Image, installed: Image | Contains(g.log, Swapped(s, replaced, installed))
        ensures Answered(g, s, replaced)
      {
        assert KeptOrAnswered(h, s, replaced, installed);
      }
    } else {
      var replaced, installed := SwapOf(h.log, q);
      if Contains(h.log, Recorded(q)) { ContainedEvent(h.log, Recorded(q)); }
      if Contains(h.log, Restored(q, replaced)) { ContainedEvent(h.log, Restored(q, replaced)); }
      assert !KeptOrAnswered(g, q, replaced, installed);
    }
  }

  lemma FinishKept(h: Host, p: Pending, recorded: bool, run: Input, vetted: set<Image>)
    requires Inv(h, vetted) && SwapsKept(h) && h.pending.Some? && h.pending.value.sequence == p.sequence
    requires recorded ==> h.HasFailed(p.sequence)
    ensures SwapsKept(FinishRollBack(h, p, recorded, run).0) <==>
            !(&& recorded && run.rollbackRestart.Restarted? && run.effect(ClearRollback).Done?
              && h.pending.value.version == h.RunningVersion() && p.sequence > h.InstalledSequence())
  {
    var g := FinishRollBack(h, p, recorded, run).0;
    if recorded && run.rollbackRestart.Restarted? && run.effect(ClearRollback).Done? {
      var up := h.(service := Runs(h.install));
      Carry(h, up);
      ServiceIrrelevant(h, Runs(h.install), vetted);
      if h.pending.value.version == h.RunningVersion() { ForgetInPlace(up, vetted); } else { ForgetKept(up, vetted); }
    } else {
      Carry(h, g);
    }
  }

  lemma RememberedKept(h: Host, p: Pending, run: Input, vetted: set<Image>)
    requires Inv(h, vetted) && SwapsKept(h) && h.pending == Some(p)
    ensures var marked := After(run.effect(MarkRollback), h, h.(pending := Some(p.(rollingBack := true))));
            var noted := RecordFailure(marked, p.version, p.sequence, run).0;
            Inv(noted, vetted) && SwapsKept(noted)
  {
    var marked := After(run.effect(MarkRollback), h, h.(pending := Some(p.(rollingBack := true))));
    MarkKeeps(h, p, vetted);
    Carry(h, marked);
    RecordFailureKeeps(marked, p.version, p.sequence, run, vetted);
    Carry(marked, RecordFailure(marked, p.version, p.sequence, run).0);
  }

  /** A rollback keeps every swap answered for unless it forgets an unrecorded release in place. */
  lemma RollBackKept(h: Host, p: Pending, run: Input, vetted: set<Image>)
    requires Inv(h, vetted) && SwapsKept(h) && h.pending == Some(p)
    ensures SwapsKept(RollBack(h, p, run).0) <==>
            !(p.version == h.RunningVersion() && Forgets(h, p, run) && p.sequence > h.InstalledSequence())
  {
    var marked := After(run.effect(MarkRollback), h, h.(pending := Some(p.(rollingBack := true))));
    RememberedKept(h, p, run, vetted);
    RecordFailureKeeps(marked, p.version, p.sequence, run, vetted) by { MarkKeeps(h, p, vetted); }
    var (noted, recording) := RecordFailure(marked, p.version, p.sequence, run);
    hide FinishRollBack, SwapsKept, Inv;
    if noted.previous.Some? && PutsBack(run) {
      RestoreKeeps(noted, p, vetted);
      RestoreKept(noted);
      var restored := noted.(install := noted.previous.value, previous := None)
                           .Note(Restored(p.sequence, noted.previous.value));
      FinishKept(restored, p, recording.Done?, run, vetted);
    }
    FinishKept(noted, p, recording.Done?, run, vetted);
  }

  lemma SwappedInKeeps(h: Host, m: Manifest, run: Input, vetted: set<Image>)
    requires Inv(h, vetted) && SwapsIn(h, m, run) && Staged(run) <= vetted
    ensures Inv(SwappedIn(h, m), vetted)
  {
    if h.pending.Some? { DropKeeps(h, vetted); }
    var idle := h.(pending := None);
    var kept := idle.(staged := Some(StagedImage(m)), previous := Some(h.install));
    IdleKeeps(idle, kept, vetted);
    LandedKeeps(kept, m, vetted);
    hide Inv;
    assert SwappedIn(h, m) == kept.(pending := Some(Promise(m)), install := StagedImage(m), staged := None)
                                  .Note(Swapped(m.sequence, h.install, StagedImage(m)));
  }

  lemma SwappedInKept(h: Host, m: Manifest, vetted: set<Image>)
    requires Inv(h, vetted) && SwapsKept(h) && h.pending.None?
    requires m.sequence > h.InstalledSequence() && !h.HasFailed(m.sequence)
    ensures SwapsKept(SwappedIn(h, m))
  {
    var g := SwappedIn(h, m);
    assert Touched(h.log, m.sequence) ==> Spent(h, m.sequence);
    forall s: u64, replaced: Image, installed: Image | Contains(g.log, Swapped(s, replaced, installed))
      ensures KeptOrAnswered(g, s, replaced, installed)
    {
      if Contains(h.log, Swapped(s, replaced, installed)) {
        ContainedEvent(h.log, Swapped(s, replaced, installed));
        assert KeptOrAnswered(h, s, replaced, installed);
      }
    }
  }

  lemma SwapsNothingKept(h: Host, g: Host, run: Input, vetted: set<Image>)
    requires Inv(h, vetted) && SwapsKept(h) && h.pending.None? && SwapsNothing(h, g, run)
    ensures SwapsKept(g)
  {
    if g.pending.None? {
      if run.offer.Offered? {
        FailedGrows(h, FailedRelease(run.offer.manifest.sequence, run.offer.manifest.version, run.nowMs));
      }
      Carry(h, g);
    } else {
      var m := run.offer.manifest;
      assert Touched(h.log, m.sequence) ==> Spent(h, m.sequence);
      forall s: u64, replaced: Image, installed: Image | Contains(g.log, Swapped(s, replaced, installed))
        ensures KeptOrAnswered(g, s, replaced, installed)
      {
        ContainedEvent(h.log, Swapped(s, replaced, installed));
        assert KeptOrAnswered(h, s, replaced, installed);
      }
    }
  }

  lemma ConfirmKept(h: Host, p: Pending, run: Input, vetted: set<Image>)
    requires Inv(h, vetted) && SwapsKept(h) && h.pending == Some(p) && h.RunningVersion() == p.version
    ensures SwapsKept(Confirm(h, p, run).0) <==>
            !(FailsHealth(run) && Forgets(h, p, run) && p.sequence > h.InstalledSequence())
  {
    ConfirmCases(h, p, run);
    var up := RestartedAt(h, run);
    Carry(h, up);
    ServiceIrrelevant(h, up.service, vetted);
    RollBackKept(up, p, run, vetted);
    var recorded := up.(release := Some(Release(p.version, p.sequence))).Note(Recorded(p.sequence));
    RecordKeeps(up, p, vetted);
    Carry(up, recorded);
    ForgetInPlace(recorded, vetted);
    hide RollBack, Confirm, SwapsKept, Inv;
  }

  /** A run leaves a swap unanswered exactly when it misreports one as rolled back. */
  lemma RunKept(h: Host, run: Input, vetted: set<Image>)
    requires Inv(h, vetted) && SwapsKept(h) && Staged(run) <= vetted
    ensures SwapsKept(Run(h, run).0) <==> !Misreports(h, run)
  {
    hide SwapsKept, Run, RollBack, Confirm, Forgets, SwapsNothing, SwappedIn, Inv;
    RunCases(h, run);
    if Drops(h, run) {
      ForgetKept(h, vetted);
      DropKeeps(h, vetted);
    }
    var idle := h.(pending := None);
    match Site(h, run)
    case Some((r, p)) =>
      SiteKept(h, run, vetted);
      ConfirmKept(r, p, run, vetted);
      RollBackKept(r, p, run, vetted);
    case None =>
      if Resumes(h, run) { RollBackKept(h, h.pending.value, run, vetted); }
      else if Looks(h, run) {
        SwapsNothingKept(idle, Run(h, run).0, run, vetted);
      }
  }

  lemma SiteKept(h: Host, run: Input, vetted: set<Image>)
    requires Inv(h, vetted) && SwapsKept(h) && Staged(run) <= vetted && Site(h, run).Some?
    ensures var (r, p) := Site(h, run).value;
            Inv(r, vetted) && SwapsKept(r) && r.pending == Some(p) && r.RunningVersion() == p.version
  {
    if !(h.pending.Some? && h.pending.value.version == h.RunningVersion()) {
      var m := run.offer.manifest;
      SwappedInKeeps(h, m, run, vetted);
      if Drops(h, run) {
        ForgetKept(h, vetted);
        DropKeeps(h, vetted);
      }
      SwappedInKept(h.(pending := None), m, vetted);
      assert SwappedIn(h.(pending := None), m) == SwappedIn(h, m);
    }
  }

  // ----- what every history keeps

  /** The next run can restart what needs it, and every swap is kept or answered for. */
  ghost predicate Sound(h: Host) {
    SwapsKept(h) && RestartRemembered(h)
  }

  /** A run keeps soundness exactly when it neither loses a restart nor misreports a rollback. */
  lemma RunSound(h: Host, run: Input, vetted: set<Image>)
    requires Inv(h, vetted) && Sound(h) && Staged(run) <= vetted
    ensures Sound(Run(h, run).0) <==> !LosesRestart(h, run) && !Misreports(h, run)
  {
    RunRemembers(h, run, vetted);
    RunKept(h, run, vetted);
    hide Run, LosesRestart, Misreports, SwapsKept, RestartRemembered;
  }

  /** No run of the history loses a restart. */
  predicate RestartsKept(h: Host, runs: seq<Input>) {
    runs != [] ==>
      var before := runs[..|runs| - 1];
      RestartsKept(h, before) && !LosesRestart(RunAll(h, before), runs[|runs| - 1])
  }

  /** No run of the history misreports a rollback. */
  predicate ReportsTrue(h: Host, runs: seq<Input>) {
    runs != [] ==>
      var before := runs[..|runs| - 1];
      ReportsTrue(h, before) && !Misreports(RunAll(h, before), runs[|runs| - 1])
  }

  lemma {:induction false} AlwaysRemembered(h: Host, runs: seq<Input>)
    requires Fresh(h) && RestartsKept(h, runs)
    ensures RestartRemembered(RunAll(h, runs))
  {
    if runs != [] {
      var before := runs[..|runs| - 1];
      AlwaysRemembered(h, before);
      AlwaysInv(h, before);
      RunRemembers(RunAll(h, before), runs[|runs| - 1], Vetted(h, before));
    }
  }

  lemma {:induction false} AlwaysKept(h: Host, runs: seq<Input>)
    requires Fresh(h) && ReportsTrue(h, runs)
    ensures SwapsKept(RunAll(h, runs))
  {
    if runs != [] {
      var before, run := runs[..|runs| - 1], runs[|runs| - 1];
      AlwaysKept(h, before);
      AlwaysInv(h, before);
      InvWiden(RunAll(h, before), Vetted(h, before), Vetted(h, runs));
      RunKept(RunAll(h, before), run, Vetted(h, runs));
    }
  }

  /** With nothing pending, the service runs exactly what is installed, unless a run lost a restart. */
  lemma ServiceRunsInstalled(h: Host, runs: seq<Input>)
    requires Fresh(h) && RestartsKept(h, runs)
    ensures RunAll(h, runs).service != Runs(RunAll(h, runs).install) ==> RunAll(h, runs).pending.Some?
  {
    AlwaysRemembered(h, runs);
  }

  predicate ServiceLost(h: Host) {
    h.pending.None? && h.service != Runs(h.install)
  }

  /** A clean run that is offered nothing. */
  function QuietRun(): Input {
    Input(true, true, 0, NothingPublished, NotYet, StagedIntact, Copied, Restarted, Healthy, Restarted, _ => Done)
  }

  /** The step excluded is exact: after it, and only after it, a next run can leave the service lost. */
  lemma LosesRestartExactly(h: Host, run: Input, vetted: set<Image>)
    requires Inv(h, vetted) && RestartRemembered(h)
    ensures LosesRestart(h, run) <==> exists next: Input :: ServiceLost(Run(Run(h, run).0, next).0)
  {
    var g, wide := Run(h, run).0, vetted + Staged(run);
    InvWiden(h, vetted, wide);
    RunKeeps(h, run, wide);
    RunRemembers(h, run, vetted);
    if LosesRestart(h, run) {
      LostIsDropped(g);
      assert ServiceLost(Run(g, QuietRun()).0);
    } else {
      forall next: Input ensures !ServiceLost(Run(g, next).0) {
        RunRemembers(g, next, wide);
        if LosesRestart(g, next) { StillPending(g, next); }
      }
    }
  }

  lemma StillPending(h: Host, run: Input)
    requires LosesRestart(h, run)
    ensures Run(h, run).0.pending.Some?
  {}

  lemma LostIsDropped(h: Host)
    requires !RestartRemembered(h)
    ensures var g := Run(h, QuietRun()).0;
            ServiceLost(g) && g == h.(pending := None)
  {}

  // ----- recovery

  /** An enabled run that is not interrupted and in which no file call and no rollback restart fails. */
  ghost predicate Clean(run: Input) {
    && run.enabled && run.locked
    && (forall c: Call :: run.effect(c).Done?)
    && !run.offer.OfferStopped? && !run.staging.StageStopped? && run.copying.Copied?
    && !run.restart.RestartStopped? && !run.health.HealthStopped? && run.rollbackRestart.Restarted?
  }

  /** A clean run leaves nothing pending, from any state. */
  lemma CleanRunFinishes(h: Host, run: Input)
    requires Clean(run)
    ensures Run(h, run).0.pending.None?
    ensures !Run(h, run).1.Interrupted?
  {
    hide RollBack, Confirm;
    forall g: Host, p: Pending ensures CleanlyDone(RollBack(g, p, run)) && CleanlyDone(Confirm(g, p, run)) {
      CleanRollBack(g, p, run);
      CleanConfirm(g, p, run);
    }
  }

  predicate CleanlyDone(r: (Host, Ending)) {
    r.0.pending.None? && !r.1.Interrupted?
  }

  lemma CleanRollBack(h: Host, p: Pending, run: Input)
    requires Clean(run)
    ensures CleanlyDone(RollBack(h, p, run))
  {}

  lemma CleanConfirm(h: Host, p: Pending, run: Input)
    requires Clean(run)
    ensures CleanlyDone(Confirm(h, p, run))
  {
    hide RollBack;
    if run.restart.RestartFailed? { CleanRollBack(h.(service := run.restart.after), p, run); }
    CleanRollBack(h.(service := Runs(h.install)), p, run);
  }

  /** Nothing is pending, the service runs what is installed, and every swap is answered for. */
  ghost predicate Settled(h: Host) {
    && h.pending.None? && h.service == Runs(h.install)
    && forall s: u64, replaced: Image, installed: Image ::
         Contains(h.log, Swapped(s, replaced, installed)) ==> Answered(h, s, replaced)
  }

  lemma SoundSettles(h: Host, run: Input, vetted: set<Image>)
    requires Inv(h, vetted) && Sound(h) && Clean(run)
    ensures Settled(Run(h, run).0)
  {
    var wide := vetted + Staged(run);
    InvWiden(h, vetted, wide);
    RunSound(h, run, wide);
    CleanRunFinishes(h, run);
    var g := Run(h, run).0;
    hide Run;
    forall s: u64, replaced: Image, installed: Image | Contains(g.log, Swapped(s, replaced, installed))
      ensures Answered(g, s, replaced)
    {
      assert KeptOrAnswered(g, s, replaced, installed);
    }
  }

  /** One clean run settles the host after any history that loses no restart and misreports no rollback. */
  lemma CleanRunSettles(h: Host, runs: seq<Input>, run: Input)
    requires Fresh(h) && RestartsKept(h, runs) && ReportsTrue(h, runs) && Clean(run)
    ensures Settled(Run(RunAll(h, runs), run).0)
  {
    AlwaysInv(h, runs);
    AlwaysRemembered(h, runs);
    AlwaysKept(h, runs);
    SoundSettles(RunAll(h, runs), run, Vetted(h, runs));
  }

  /** The two steps excluded are exact: after one of them, and only then, a clean run can fail to settle. */
  lemma UnsettledExactly(h: Host, run: Input, vetted: set<Image>)
    requires Inv(h, vetted) && Sound(h)
    ensures LosesRestart(h, run) || Misreports(h, run) <==>
            exists next: Input :: Clean(next) && !Settled(Run(Run(h, run).0, next).0)
  {
    hide Run, LosesRestart, Misreports, SwapsKept, RestartRemembered, Inv, Clean;
    var g, wide := Run(h, run).0, vetted + Staged(run);
    InvWiden(h, vetted, wide);
    RunKeeps(h, run, wide);
    RunSound(h, run, wide);
    if Sound(g) {
      forall next: Input | Clean(next) ensures Settled(Run(g, next).0) {
        SoundSettles(g, next, wide);
      }
    } else {
      RunRemembers(h, run, wide);
      QuietIsClean();
      if !RestartRemembered(g) {
        LostIsDropped(g);
      } else {
        MisreportedIsForgotten(h, run, wide);
        NothingToDo(g);
        UnansweredIsUnsettled(g);
      }
      assert !Settled(Run(g, QuietRun()).0);
    }
  }

  lemma QuietIsClean()
    ensures Clean(QuietRun())
  {}

  lemma UnansweredIsUnsettled(h: Host)
    requires h.pending.None? && !SwapsKept(h)
    ensures !Settled(h)
  {}

  lemma NothingToDo(h: Host)
    requires h.pending.None?
    ensures Run(h, QuietRun()).0 == h
  {}

  lemma MisreportedIsForgotten(h: Host, run: Input, vetted: set<Image>)
    requires Inv(h, vetted) && Misreports(h, run)
    ensures Run(h, run).0.pending.None?
  {
    hide Run, Inv, SwapsIn, SwappedIn, SwapsNothing;
    RunCases(h, run);
    var (r, p) := Site(h, run).value;
    ConfirmCases(r, p, run);
    hide Confirm;
  }

  // ----- resuming a rollback

  function Restoring(h: Host, p: Pending): Host {
    match h.previous
    case None => h
    case Some(kept) => h.(install := kept, previous := None).Note(Restored(p.sequence, kept))
  }

  function Remembering(h: Host, p: Pending, nowMs: u64): Host {
    if h.HasFailed(p.sequence) then h
    else h.(failed := h.failed + [FailedRelease(p.sequence, p.version, nowMs)])
  }

  /** What a rollback is for: the old binary back and running, the failure on record, nothing pending. */
  function RolledBackHost(h: Host, p: Pending, nowMs: u64): Host {
    var g := Restoring(Remembering(h, p, nowMs), p);
    g.(service := Runs(g.install), pending := None)
  }

  lemma CleanRollBackUndoes(h: Host, p: Pending, run: Input)
    requires Clean(run)
    ensures RollBack(h, p, run).0 == RolledBackHost(h, p, run.nowMs)
  {}

  /** Wherever a rollback fails or stops, it has done some of its steps and nothing else. */
  lemma RollBackPartway(h: Host, p: Pending, run: Input)
    ensures var g := RollBack(h, p, run).0;
            && (g.failed == h.failed || g.failed == Remembering(h, p, run.nowMs).failed)
            && (|| g == h.(pending := g.pending, service := g.service, failed := g.failed)
                || g == Restoring(h, p).(pending := g.pending, service := g.service, failed := g.failed))
  {
    var marked := After(run.effect(MarkRollback), h, h.(pending := Some(p.(rollingBack := true))));
    var noted := RecordFailure(marked, p.version, p.sequence, run).0;
    assert noted == h.(pending := marked.pending, failed := noted.failed);
    assert noted.failed == h.failed || noted.failed == Remembering(h, p, run.nowMs).failed;
    hide RecordFailure;
    FinishFrame(noted, p, run);
    FinishFrame(Restoring(noted, p), p, run);
    hide FinishRollBack;
  }

  lemma FinishFrame(h: Host, p: Pending, run: Input)
    ensures forall recorded ::
              var g := FinishRollBack(h, p, recorded, run).0;
              && g == h.(pending := g.pending, service := g.service)
              && g.pending == if recorded && run.rollbackRestart.Restarted? && run.effect(ClearRollback).Done?
                              then None else h.pending
  {}

  /**
   After a rollback that failed or stopped anywhere, another one ends where a single clean one
   would have; only the time noted beside the failure can differ.
   */
  lemma RollBackResumes(h: Host, p: Pending, run: Input, again: Input)
    requires Clean(again)
    ensures RollBack(RollBack(h, p, run).0, p, again).0
            == if h.HasFailed(p.sequence) || RollBack(h, p, run).0.failed == h.failed
               then RollBack(h, p, again).0
               else RollBack(h, p, again).0.(failed := h.failed + [FailedRelease(p.sequence, p.version, run.nowMs)])
  {
    hide RollBack;
    var g := RollBack(h, p, run).0;
    RollBackPartway(h, p, run);
    CleanRollBackUndoes(h, p, again);
    CleanRollBackUndoes(g, p, again);
    FailedGrows(h, FailedRelease(p.sequence, p.version, run.nowMs));
  }

  /** The next clean run does resume it, once the rollback was marked or the old binary is back. */
  lemma NextRunResumes(h: Host, p: Pending, run: Input, again: Input, vetted: set<Image>)
    requires Inv(h, vetted) && h.pending == Some(p) && Landed(h, p, vetted) && Clean(again)
    requires var g := RollBack(h, p, run).0;
             g.pending.Some? && (g.pending.value.rollingBack || g.previous.None?)
    ensures Run(RollBack(h, p, run).0, again).0 == RollBack(RollBack(h, p, run).0, p, again).0
  {
    var g := RollBack(h, p, run).0;
    RollBackPartway(h, p, run);
    PendingStays(h, p, run);
    var q := g.pending.value;
    hide RollBack, Inv;
    CleanRollBackUndoes(g, q, again);
    CleanRollBackUndoes(g, p, again);
    assert Recover(g, q, again) == RollBack(g, q, again);
  }

  lemma PendingStays(h: Host, p: Pending, run: Input)
    requires h.pending == Some(p)
    ensures var q := RollBack(h, p, run).0.pending;
            q.Some? ==> q.value == p.(rollingBack := q.value.rollingBack)
  {}

  /** Rolling back again changes nothing more. */
  lemma RollBackIdempotent(h: Host, p: Pending, run: Input, again: Input)
    requires Clean(run) && Clean(again)
    ensures RollBack(RollBack(h, p, run).0, p, again).0 == RollBack(h, p, run).0
  {
    hide RollBack;
    CleanRollBackUndoes(h, p, run);
    CleanRollBackUndoes(RollBack(h, p, run).0, p, again);
    FailedGrows(h, FailedRelease(p.sequence, p.version, run.nowMs));
  }

  lemma FailedIs(h: Host, entry: FailedRelease)
    ensures var g := h.(failed := h.failed + [entry]);
            forall s: u64 :: g.HasFailed(s) <==> h.HasFailed(s) || s == entry.sequence
  {
    FailedGrows(h, entry);
    var g := h.(failed := h.failed + [entry]);
    forall s: u64 | g.HasFailed(s) ensures h.HasFailed(s) || s == entry.sequence {
      var i :| 0 <= i < |g.failed| && g.failed[i].sequence == s;
      if i < |h.failed| { assert h.failed[i].sequence == s; }
    }
  }

  /** The failures known after a rollback. */
  lemma RollBackFailures(h: Host, p: Pending, run: Input)
    ensures var g := RollBack(h, p, run).0;
            forall s: u64 :: g.HasFailed(s) <==> h.HasFailed(s) || (s == p.sequence && Remembers(h, s, run))
  {
    FailedIs(h, FailedRelease(p.sequence, p.version, run.nowMs));
    RollBackNotes(h, p, run);
    hide RollBack;
  }

  lemma RollBackNotes(h: Host, p: Pending, run: Input)
    ensures RollBack(h, p, run).0.failed ==
            if Remembers(h, p.sequence, run) then Remembering(h, p, run.nowMs).failed else h.failed
  {}

  /** What a rollback leaves installed and pending. */
  lemma RollBackLeaves(h: Host, p: Pending, run: Input)
    requires h.pending == Some(p)
    ensures var g := RollBack(h, p, run).0;
            && g.release == h.release
            && (g.pending.Some? ==>
                  g.pending == Some(p.(rollingBack := p.rollingBack || run.effect(MarkRollback).Done?)))
            && (g.pending.None? ==> Remembers(h, p.sequence, run))
            && (if h.previous.Some? && PutsBack(run) && !run.effect(MarkRollback).Stopped?
                   && !RecordingStops(h, p.sequence, run)
                then g.install == h.previous.value && g.previous.None?
                else g.install == h.install && g.previous == h.previous)
            && (h.previous.Some? && !PutsBack(run) ==> (g.pending.None? <==> Forgets(h, p, run)))
  {
    var marked := After(run.effect(MarkRollback), h, h.(pending := Some(p.(rollingBack := true))));
    var (noted, recording) := RecordFailure(marked, p.version, p.sequence, run);
    assert noted == marked.(failed := noted.failed);
    assert recording.Done? && !run.effect(MarkRollback).Stopped? <==> Remembers(h, p.sequence, run);
    assert recording.Stopped? <==> RecordingStops(h, p.sequence, run);
    hide RecordFailure, FinishRollBack, Remembers, RecordingStops;
    FinishFrame(noted, p, run);
    FinishFrame(Restoring(noted, p), p, run);
  }

  lemma RollBackReports(h: Host, p: Pending, run: Input)
    requires h.previous.Some?
    ensures RollBack(h, p, run).1 == Refused(RolledBack(p.version)) <==>
            && Remembers(h, p.sequence, run) && (PutsBack(run) || run.effect(ProbePrevious).Failed?)
            && run.rollbackRestart.Restarted? && !run.effect(ClearRollback).Stopped?
  {}

  /**
   A rollback of a release in place reports success exactly when its calls say so, and then the
   old binary is back if and only if the probe for it answered.
   */
  lemma FailedProbeSkipsRestore(h: Host, p: Pending, run: Input, vetted: set<Image>)
    requires Inv(h, vetted) && h.pending == Some(p) && Landed(h, p, vetted)
    ensures var (g, ending) := RollBack(h, p, run);
            && (ending == Refused(RolledBack(p.version)) <==>
                  && Remembers(h, p.sequence, run) && (PutsBack(run) || run.effect(ProbePrevious).Failed?)
                  && run.rollbackRestart.Restarted? && !run.effect(ClearRollback).Stopped?)
            && (ending == Refused(RolledBack(p.version)) ==>
                  (g.install == h.previous.value <==> run.effect(ProbePrevious).Done?))
  {
    hide RollBack;
    RollBackReports(h, p, run);
    RollBackLeaves(h, p, run);
  }

  // ----- both steps can happen

  /** On any fresh host with an update to install, three runs can lose the service. */
  lemma ServiceCanBeLost(h: Host, m: Manifest)
    requires Fresh(h) && Installable(h, m)
    ensures exists runs: seq<Input> :: |runs| == 3 && ServiceLost(RunAll(h, runs))
  {
    hide Run, ServiceLost, RestartRemembered;
    var install := QuietRun().(offer := Offered(m), gate := Due, effect := c => if c == Swap then Stopped else Done);
    var lose := QuietRun().(
      rollbackRestart := RestartFailed(Unknown),
      effect := c => if c in {ProbeRecovery, MarkRollback, ProbePrevious} then Failed else Done);
    var promised := h.(previous := Some(h.install), staged := Some(StagedImage(m)), pending := Some(Promise(m)));
    StopsAtSwap(h, m, install);
    LosesOne(promised, lose);
    LostIsDropped(Run(promised, lose).0);
    var runs := [install, lose, QuietRun()];
    assert runs[..2] == [install, lose] && runs[..2][..1] == [install] && runs[..1][..0] == [];
    assert RunAll(h, []) == h && RunAll(h, [install]) == promised;
    assert RunAll(h, [install, lose]) == Run(promised, lose).0;
    assert ServiceLost(RunAll(h, runs));
  }

  lemma StopsAtSwap(h: Host, m: Manifest, run: Input)
    requires h.pending.None? && Started(run) && run.offer == Offered(m)
    requires m.sequence > h.InstalledSequence() && m.version != h.RunningVersion() && !h.HasFailed(m.sequence)
    requires run.gate.Due? && run.staging.StagedIntact? && run.copying.Copied?
    requires forall c: Call :: run.effect(c) == if c == Swap then Stopped else Done
    ensures Run(h, run).0 ==
            h.(previous := Some(h.install), staged := Some(StagedImage(m)), pending := Some(Promise(m)))
  {
    hide Confirm;
  }

  lemma LosesOne(h: Host, run: Input)
    requires h.pending.Some? && !h.pending.value.rollingBack && h.pending.value.version != h.RunningVersion()
    requires h.previous == Some(h.install) && h.service == Runs(h.install) && !h.HasFailed(h.pending.value.sequence)
    requires Started(run) && run.rollbackRestart == RestartFailed(Unknown)
    requires forall c: Call ::
               run.effect(c) == if c in {ProbeRecovery, MarkRollback, ProbePrevious} then Failed else Done
    ensures !RestartRemembered(Run(h, run).0)
  {}

  /** The release is offered, swapped in and found unhealthy; no call but `except` fails or stops. */
  ghost predicate TurnsOutUnhealthy(m: Manifest, run: Input, except: set<Call>) {
    && run.enabled && run.locked && run.offer == Offered(m) && run.gate.Due?
    && run.staging.StagedIntact? && run.copying.Copied?
    && run.restart.Restarted? && run.health.Unhealthy? && run.rollbackRestart.Restarted?
    && forall c: Call :: c !in except ==> run.effect(c).Done?
  }

  /** One failed probe and a bad release are enough to report a rollback that left the release in place. */
  lemma RollbackCanBeMisreported(h: Host, m: Manifest, run: Input)
    requires Fresh(h) && Installable(h, m)
    requires TurnsOutUnhealthy(m, run, {ProbePrevious}) && run.effect(ProbePrevious).Failed?
    ensures var (g, ending) := Run(h, run);
            && Misreports(h, run) && ending == Refused(RolledBack(m.version))
            && g.install == StagedImage(m) && g.pending.None?
  {
    hide Run, RollBack;
    UnhealthyRollsBack(h, m, run);
    ForgetsInPlace(RestartedAt(SwappedIn(h, m), run), Promise(m), run);
  }

  lemma UnhealthyRollsBack(h: Host, m: Manifest, run: Input)
    requires SwapsIn(h, m, run) && h.pending.None? && run.restart.Restarted? && run.health.Unhealthy?
    ensures Run(h, run) == RollBack(RestartedAt(SwappedIn(h, m), run), Promise(m), run)
  {
    hide Run, Confirm, RollBack, SwapsNothing, SwappedIn;
    RunCases(h, run);
    ConfirmCases(SwappedIn(h, m), Promise(m), run);
  }

  lemma ForgetsInPlace(h: Host, p: Pending, run: Input)
    requires Forgets(h, p, run)
    ensures var (g, ending) := RollBack(h, p, run);
            g.pending.None? && g.install == h.install && ending == Refused(RolledBack(p.version))
  {}
}
