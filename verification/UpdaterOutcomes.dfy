/**
 How one updater run ends and which files it changes, cause by cause: when a failure is remembered,
 when a release is recorded, when a staged file is left, and what each outcome means.
 */
module UpdaterOutcomes {
  import opened Common
  import opened UpdaterState
  import opened UpdaterSteps
  import opened UpdaterSafety
  import opened UpdaterRecovery
  import opened UpdaterFailures

  // ----- the failures

  /** The run rolls `s` back and gets its failure on record. */
  predicate RemembersRollBack(h: Host, run: Input, s: u64) {
    || (Resumes(h, run) && h.pending.value.sequence == s && Remembers(h, s, run))
    || match Site(h, run)
       case None => false
       case Some((r, p)) => RollsBack(p, run) && p.sequence == s && Remembers(r, s, run)
  }

  /** `stage` finds the release `s` unusable, and the run gets its failure on record. */
  predicate RemembersUnusable(h: Host, run: Input, s: u64) {
    run.offer.Offered? && run.offer.manifest.sequence == s && FindsUnusable(h, run.offer.manifest, run)
  }

  /** A run marks a release as failed exactly when it rolls it back or finds it unusable, and forgets none. */
  lemma FailuresExactly(h: Host, run: Input, s: u64)
    ensures Run(h, run).0.HasFailed(s) <==>
            h.HasFailed(s) || RemembersRollBack(h, run, s) || RemembersUnusable(h, run, s)
  {
    hide Run, RollBack, Confirm;
    RunCases(h, run);
    if run.offer.Offered? {
      FailedIs(h.(pending := None), FailedRelease(run.offer.manifest.sequence, run.offer.manifest.version, run.nowMs));
      assert h.(pending := None).HasFailed(s) <==> h.HasFailed(s);
    }
    match Site(h, run)
    case Some((r, p)) =>
      ConfirmCases(r, p, run);
      RollBackFailures(r, p, run);
      RollBackFailures(RestartedAt(r, run), p, run);
      assert r.HasFailed(s) <==> h.HasFailed(s);
    case None =>
      if Resumes(h, run) { RollBackFailures(h, h.pending.value, run); }
  }

  /**
   A release that `stage` finds unusable is refused and remembered as failed; a failure to get it, or
   to keep the previous binary, is not held against it.
   */
  lemma UnusableIsRemembered(h: Host, m: Manifest, run: Input)
    requires Stages(h, m, run)
    ensures run.staging.StageUnusable? && !run.effect(CleanStaged).Stopped?
            && run.effect(ReadFailures).Done? && run.effect(WriteFailure).Done? ==>
              Run(h, run).0.HasFailed(m.sequence) && Run(h, run).1 == Refused(BadRelease)
    ensures run.staging.StageRejected? || run.staging.StageStopped?
            || (run.staging.StagedIntact? && !run.copying.Copied?) ==>
              Run(h, run).0.failed == h.failed
  {
    FailuresExactly(h, run, m.sequence);
    RunCases(h, run);
    LookEndings(h, m, run);
    hide Run, LookForUpdate;
  }

  // ----- the recorded release

  /** The run confirms the release `s` in place. */
  predicate ConfirmsRelease(h: Host, run: Input, s: u64) {
    match Site(h, run)
    case None => false
    case Some((r, p)) =>
      && !p.rollingBack && p.sequence == s && run.restart.Restarted? && run.health.Healthy?
      && run.effect(WriteRelease).Done?
  }

  /** The manifest offers `s` under the running version. */
  predicate SeesRelease(h: Host, run: Input, s: u64) {
    run.offer.Offered? && run.offer.manifest.sequence == s && SeesRunning(h, run.offer.manifest, run)
  }

  /**
   A run records a release exactly when it confirms it in place or sees it offered under the running
   version, failed or not, and then `release.json` names it; otherwise `release.json` stays.
   */
  lemma RecordsExactly(h: Host, run: Input, s: u64)
    ensures var g := Run(h, run).0;
            var recorded := ConfirmsRelease(h, run, s) || SeesRelease(h, run, s);
            && Records(g.log, s) == Records(h.log, s) + (if recorded then 1 else 0)
            && (recorded ==> g.release.Some? && g.release.value.sequence == s)
  {
    hide Run, RollBack, Confirm;
    RunCases(h, run);
    match Site(h, run)
    case Some((r, p)) =>
      ConfirmCases(r, p, run);
      RollBackRecords(r, p, run, s);
      RollBackRecords(RestartedAt(r, run), p, run, s);
    case None =>
      if Resumes(h, run) { RollBackRecords(h, h.pending.value, run, s); }
  }

  lemma ReleaseStays(h: Host, run: Input)
    requires forall s: u64 :: !ConfirmsRelease(h, run, s) && !SeesRelease(h, run, s)
    ensures Run(h, run).0.release == h.release
  {
    hide Run, RollBack, Confirm;
    RunCases(h, run);
    match Site(h, run)
    case Some((r, p)) =>
      ConfirmCases(r, p, run);
      RollBackRelease(r, p, run);
      RollBackRelease(RestartedAt(r, run), p, run);
      assert !ConfirmsRelease(h, run, p.sequence);
    case None =>
      if Resumes(h, run) { RollBackRelease(h, h.pending.value, run); }
      if run.offer.Offered? { assert !SeesRelease(h, run, run.offer.manifest.sequence); }
  }

  // ----- the endings

  /** Whether an enabled run is disabled, busy, or gets to act. */
  lemma StartEndings(h: Host, run: Input)
    ensures Run(h, run).1 == Finished(Disabled) <==> !run.enabled
    ensures Run(h, run).1 == Finished(Busy) <==> run.enabled && run.effect(Setup).Done? && !run.locked
    ensures !Started(run) ==> Run(h, run).0 == h
    ensures run.enabled && run.effect(Setup).Failed? ==> Run(h, run).1 == Refused(Config)
    ensures run.enabled && run.effect(Setup).Done? && run.locked && run.effect(ReadPending).Failed? ==>
              Run(h, run).1 == Refused(Io)
  {
    hide LookForUpdate, RollBack, Confirm;
    if Started(run) {
      LookNeverStarts(h, run);
      LookNeverStarts(h.(pending := None), run);
      if h.pending.Some? {
        RecoveryEndings(h, h.pending.value, run);
      }
    }
  }

  /** Endings that only a run with a release to confirm or to roll back has. */
  predicate Recovering(ending: Ending) {
    || ending.Interrupted? || ending == Refused(Io)
    || (ending.Refused? && (ending.error.RolledBack? || ending.error.RollbackIncomplete?))
    || (ending.Finished? && ending.outcome.Updated?)
  }

  lemma RecoveryEndings(h: Host, p: Pending, run: Input)
    ensures Recovering(RollBack(h, p, run).1) && Recovering(Confirm(h, p, run).1)
    ensures RollBack(h, p, run).1.Refused? ==> RollBack(h, p, run).1 != Refused(Io)
    ensures !RollBack(h, p, run).1.Finished?
  {
    RollBackEndings(h, p, run);
    RollBackEndings(RestartedAt(h, run), p, run);
    ConfirmCases(h, p, run);
    hide RollBack, Confirm;
  }

  lemma RollBackEndings(h: Host, p: Pending, run: Input)
    ensures var ending := RollBack(h, p, run).1;
            || ending.Interrupted? || ending == Refused(RolledBack(p.version))
            || ending == Refused(RollbackIncomplete(p.version))
  {}

  lemma LookNeverStarts(h: Host, run: Input)
    ensures LookForUpdate(h, run).1 !in {Finished(Disabled), Finished(Busy)}
  {
    hide Confirm;
    forall g: Host, p: Pending ensures Recovering(Confirm(g, p, run).1) { RecoveryEndings(g, p, run); }
  }

  /** A run that cannot get to look for a release only recovers, fails, or is interrupted. */
  lemma OnlyRecovers(h: Host, run: Input)
    requires Started(run) && !Looks(h, run)
    ensures Recovering(Run(h, run).1)
  {
    RecoveryEndings(h, h.pending.value, run);
    hide RollBack, Confirm, LookForUpdate;
  }

  /** Only a call that is never reached interrupts a run. */
  lemma OnlyStopsInterrupt(h: Host, run: Input)
    requires (forall c: Call :: !run.effect(c).Stopped?) && !run.offer.OfferStopped?
    requires !run.staging.StageStopped? && !run.copying.CopyStopped?
    requires !run.restart.RestartStopped? && !run.health.HealthStopped? && !run.rollbackRestart.RestartStopped?
    ensures !Run(h, run).1.Interrupted?
  {
    hide RollBack, Confirm, Stage;
    forall g: Host, p: Pending ensures !RollBack(g, p, run).1.Interrupted? { RollBackUnstopped(g, p, run); }
    forall g: Host, p: Pending ensures !Confirm(g, p, run).1.Interrupted? { ConfirmCases(g, p, run); }
    forall g: Host, m: Manifest ensures !Stage(g, m, run).1.Interrupted? { StageUnstopped(g, m, run); }
  }

  lemma RollBackUnstopped(h: Host, p: Pending, run: Input)
    requires (forall c: Call :: !run.effect(c).Stopped?) && !run.rollbackRestart.RestartStopped?
    ensures !RollBack(h, p, run).1.Interrupted?
  {}

  lemma StageUnstopped(h: Host, m: Manifest, run: Input)
    requires (forall c: Call :: !run.effect(c).Stopped?)
    requires !run.staging.StageStopped? && !run.copying.CopyStopped?
    requires forall g: Host, p: Pending :: !Confirm(g, p, run).1.Interrupted?
    ensures !Stage(h, m, run).1.Interrupted?
  {
    hide Confirm;
  }

  /** What a run that looks for a release makes of the answer it gets. */
  lemma OfferEndings(h: Host, run: Input)
    requires Looks(h, run)
    ensures var ending := Run(h, run).1;
            && (ending == Finished(NoManifest) <==> run.effect(ReadRelease).Done? && run.offer.NothingPublished?)
            && (ending == Refused(Fetch) <==> run.effect(ReadRelease).Done? && run.offer.Unavailable?)
            && (ending == Refused(ManifestRejected) <==> run.effect(ReadRelease).Done? && run.offer.Untrusted?)
            && (ending == Finished(NotNewer) <==>
                  && run.effect(ReadRelease).Done? && run.offer.Offered?
                  && run.offer.manifest.sequence <= h.InstalledSequence())
  {
    hide Stage, Confirm;
    forall g: Host, m: Manifest ensures Staging(Stage(g, m, run).1) { StageEndings(g, m, run); }
  }

  /** Endings of a run that got to `stage`. */
  predicate Staging(ending: Ending) {
    Recovering(ending) || ending == Refused(BadBinary) || ending == Refused(BadRelease)
  }

  lemma StageEndings(h: Host, m: Manifest, run: Input)
    ensures Staging(Stage(h, m, run).1)
    ensures Stage(h, m, run).1 == Refused(BadBinary) <==>
            run.staging.StageRejected? && !run.effect(CleanStaged).Stopped?
    ensures !h.HasFailed(m.sequence) ==>
              (Stage(h, m, run).1 == Refused(BadRelease) <==>
                 && run.staging.StageUnusable? && !run.effect(CleanStaged).Stopped?
                 && run.effect(ReadFailures).Done? && run.effect(WriteFailure).Done?)
  {
    hide Confirm;
    forall g: Host, p: Pending ensures Recovering(Confirm(g, p, run).1) { RecoveryEndings(g, p, run); }
  }

  /** The manifest is newer and not running, and nothing is known against it. */
  predicate Wanted(h: Host, m: Manifest, run: Input) {
    && Considers(h, m, run) && m.version != h.RunningVersion()
    && run.effect(ReadFailed).Done? && !h.HasFailed(m.sequence)
  }

  /** What a run makes of a newer manifest, gate by gate. */
  lemma LookEndings(h: Host, m: Manifest, run: Input)
    requires Considers(h, m, run)
    ensures var ending := Run(h, run).1;
            && (ending == Finished(AlreadyRunning) <==> SeesRunning(h, m, run))
            && (ending == Finished(PreviouslyFailed) <==>
                  m.version != h.RunningVersion() && run.effect(ReadFailed).Done? && h.HasFailed(m.sequence))
            && (ending == Finished(WaitingFor) <==> Wanted(h, m, run) && run.gate.NotYet?)
            && (ending == Finished(Outside) <==> Wanted(h, m, run) && run.gate.OutsideWindow?)
            && (ending == Refused(Config) <==>
                  Wanted(h, m, run) && run.gate.Due? && run.effect(ProbeInstall).Failed?)
            && (ending == Refused(Disk) <==>
                  && Wanted(h, m, run) && run.gate.Due?
                  && run.effect(ProbeInstall).Done? && run.effect(CheckDisk).Failed?)
            && (ending == Refused(BadBinary) <==>
                  Stages(h, m, run) && run.staging.StageRejected? && !run.effect(CleanStaged).Stopped?)
            && (ending == Refused(BadRelease) <==> FindsUnusable(h, m, run))
  {
    RunConsiders(h, m, run);
    hide Run, Stage;
    StageEndings(h.(pending := None), m, run);
  }

  lemma RunConsiders(h: Host, m: Manifest, run: Input)
    requires Considers(h, m, run)
    ensures Run(h, run) == Consider(h.(pending := None), m, run)
  {
    hide Consider, RollBack, Confirm;
  }

  predicate IsUpdated(ending: Ending) {
    ending.Finished? && ending.outcome.Updated?
  }

  lemma StageNotUpdated(h: Host, m: Manifest, run: Input)
    requires h.pending.None? && Stages(h, m, run) && !SwapsIn(h, m, run)
    ensures !IsUpdated(Stage(h, m, run).1)
  {
    hide Confirm;
  }

  lemma LookNotUpdated(h: Host, run: Input)
    requires Looks(h, run) && !(run.offer.Offered? && SwapsIn(h, run.offer.manifest, run))
    ensures !IsUpdated(Run(h, run).1)
  {
    hide Stage;
    if run.offer.Offered? && Stages(h, run.offer.manifest, run) {
      StageNotUpdated(h.(pending := None), run.offer.manifest, run);
    }
  }

  lemma QuietNotUpdated(h: Host, run: Input)
    requires Site(h, run).None?
    ensures !IsUpdated(Run(h, run).1)
  {
    if Looks(h, run) {
      LookNotUpdated(h, run);
    } else if h.pending.Some? {
      RecoveryEndings(h, h.pending.value, run);
      hide RollBack, Confirm, LookForUpdate;
    }
  }

  /** A run reports an update exactly when it confirms a release in place and clears the pending record. */
  lemma UpdatedExactly(h: Host, run: Input)
    ensures IsUpdated(Run(h, run).1) <==>
            run.effect(ClearPending).Done? && exists s: u64 :: ConfirmsRelease(h, run, s)
    ensures IsUpdated(Run(h, run).1) ==>
              var g := Run(h, run).0;
              && g.pending.None? && g.service == Runs(g.install)
              && g.RunningVersion() == Run(h, run).1.outcome.version
              && g.release.Some? && g.release.value.version == g.RunningVersion()
  {
    hide Run, RollBack, Confirm;
    RunCases(h, run);
    match Site(h, run)
    case None =>
      QuietNotUpdated(h, run);
    case Some((r, p)) =>
      ConfirmCases(r, p, run);
      RecoveryEndings(r, p, run);
      RecoveryEndings(RestartedAt(r, run), p, run);
      assert (exists s: u64 :: ConfirmsRelease(h, run, s)) <==> ConfirmsRelease(h, run, p.sequence);
  }

  // ----- the staged file

  lemma ConfirmKeepsStaged(h: Host, p: Pending, run: Input)
    ensures Confirm(h, p, run).0.staged == RollBack(h, p, run).0.staged == h.staged
  {
    RollBackPartway(h, p, run);
    RollBackPartway(RestartedAt(h, run), p, run);
    ConfirmCases(h, p, run);
    hide RollBack, Confirm;
  }

  lemma StageCleans(h: Host, m: Manifest, run: Input)
    requires run.effect(CleanStaged).Done? && !Stage(h, m, run).1.Interrupted?
    ensures Stage(h, m, run).0.staged.None?
  {
    hide Confirm;
    forall g: Host, p: Pending ensures Confirm(g, p, run).0.staged == g.staged { ConfirmKeepsStaged(g, p, run); }
  }

  /** No run that ends by itself leaves a staged file behind, unless its removal failed. */
  lemma StagedIsCleaned(h: Host, run: Input)
    requires h.staged.None? && run.effect(CleanStaged).Done? && !Run(h, run).1.Interrupted?
    ensures Run(h, run).0.staged.None?
  {
    hide Confirm, RollBack, Stage;
    forall g: Host, m: Manifest | !Stage(g, m, run).1.Interrupted? ensures Stage(g, m, run).0.staged.None? {
      StageCleans(g, m, run);
    }
    if h.pending.Some? { ConfirmKeepsStaged(h, h.pending.value, run); }
  }
}
