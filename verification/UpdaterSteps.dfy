/** How far an updater run gets, read off the files it finds and the calls that complete. */
module UpdaterSteps {
  import opened Common
  import opened UpdaterState

  /** The run gets to act on what `pending.json` holds. */
  predicate Started(run: Input) {
    run.enabled && run.locked && run.effect(Setup).Done? && run.effect(ReadPending).Done?
  }

  /** The run drops a pending release that never landed. */
  predicate Drops(h: Host, run: Input) {
    && h.pending.Some? && !h.pending.value.rollingBack && h.pending.value.version != h.RunningVersion()
    && h.previous.Some? && run.effect(ProbeRecovery).Done? && run.effect(DropPending).Done?
  }

  /** With nothing pending, or no longer, the run looks for a release. */
  predicate Looks(h: Host, run: Input) {
    Started(run) && (h.pending.None? || Drops(h, run))
  }

  /** The run reads a verified manifest `m` newer than the installed sequence. */
  predicate Considers(h: Host, m: Manifest, run: Input) {
    && Looks(h, run)
    && run.effect(ReadRelease).Done? && run.offer == Offered(m) && m.sequence > h.InstalledSequence()
  }

  /** The manifest names the version that is running, and the run records it as installed. */
  predicate SeesRunning(h: Host, m: Manifest, run: Input) {
    Considers(h, m, run) && m.version == h.RunningVersion() && run.effect(WriteSeenRelease).Done?
  }

  /** The run gets to `stage`: the release is due, and nothing is known against it. */
  predicate Stages(h: Host, m: Manifest, run: Input) {
    && Considers(h, m, run) && m.version != h.RunningVersion()
    && run.effect(ReadFailed).Done? && !h.HasFailed(m.sequence) && run.gate.Due?
    && run.effect(ProbeInstall).Done? && run.effect(CheckDisk).Done?
  }

  /** The binary does not run as the release it should be, and its failure is recorded. */
  predicate FindsUnusable(h: Host, m: Manifest, run: Input) {
    && Stages(h, m, run) && run.staging.StageUnusable? && !run.effect(CleanStaged).Stopped?
    && run.effect(ReadFailures).Done? && run.effect(WriteFailure).Done?
  }

  /** The pending record is written. */
  predicate WritesPending(h: Host, m: Manifest, run: Input) {
    Stages(h, m, run) && run.staging.StagedIntact? && run.copying.Copied? && run.effect(WritePending).Done?
  }

  /** The run gets as far as renaming the staged binary over the installed one. */
  predicate SwapsIn(h: Host, m: Manifest, run: Input) {
    WritesPending(h, m, run) && run.effect(Swap).Done?
  }

  /** The rename does not happen, and the pending record is not taken back. */
  predicate LeavesPromise(h: Host, m: Manifest, run: Input) {
    && WritesPending(h, m, run)
    && (run.effect(Swap).Stopped?
        || (run.effect(Swap).Failed? && (run.effect(CleanStaged).Stopped? || !run.effect(UndoPending).Done?)))
  }

  /** A release that is newer, not running, and not known to have failed. */
  predicate Installable(h: Host, m: Manifest) {
    m.sequence > h.InstalledSequence() && m.version != h.RunningVersion() && !h.HasFailed(m.sequence)
  }

  function Promise(m: Manifest): Pending {
    Pending(m.version, m.sequence, false)
  }

  function StagedImage(m: Manifest): Image {
    Intact(Binary(m.version, m.digest))
  }

  /** The host right after the rename. */
  function SwappedIn(h: Host, m: Manifest): Host {
    h.(previous := Some(h.install), pending := Some(Promise(m)), install := StagedImage(m), staged := None)
     .Note(Swapped(m.sequence, h.install, StagedImage(m)))
  }

  /** Where the run has a release in place to confirm or to roll back: the host and the release. */
  function Site(h: Host, run: Input): Option<(Host, Pending)> {
    if Started(run) && h.pending.Some? && h.pending.value.version == h.RunningVersion() then
      Some((h, h.pending.value))
    else if run.offer.Offered? && SwapsIn(h, run.offer.manifest, run) then
      Some((SwappedIn(h, run.offer.manifest), Promise(run.offer.manifest)))
    else None
  }

  /** The run rolls back a pending release that is not in place. */
  predicate Resumes(h: Host, run: Input) {
    && Started(run) && h.pending.Some? && h.pending.value.version != h.RunningVersion()
    && !run.effect(ProbeRecovery).Stopped?
    && (h.pending.value.rollingBack || LooksRestored(h, h.pending.value, run))
  }

  predicate FailsHealth(run: Input) {
    run.restart.RestartFailed? || (run.restart.Restarted? && run.health.Unhealthy?)
  }

  predicate RollsBack(p: Pending, run: Input) {
    p.rollingBack || FailsHealth(run)
  }

  /** The service once the release in place has been restarted, or could not be. */
  function RestartedAt(h: Host, run: Input): Host {
    h.(service := match run.restart
                  case Restarted => Runs(h.install)
                  case RestartFailed(after) => after
                  case RestartStopped(after) => after)
  }

  /** A rollback gets past its mark and has the failure of `sequence` on record. */
  predicate Remembers(h: Host, sequence: u64, run: Input) {
    && !run.effect(MarkRollback).Stopped? && run.effect(ReadFailures).Done?
    && (h.HasFailed(sequence) || run.effect(WriteFailure).Done?)
  }

  /** A rollback puts the old binary back. */
  predicate PutsBack(run: Input) {
    run.effect(ProbePrevious).Done? && run.effect(Restore).Done?
  }

  /**
   A rollback of a release in place reports success and forgets it without putting the old binary
   back: the probe for `.previous` failed, which reads as "absent".
   */
  predicate Forgets(h: Host, p: Pending, run: Input) {
    && Remembers(h, p.sequence, run) && run.effect(ProbePrevious).Failed?
    && run.rollbackRestart.Restarted? && run.effect(ClearRollback).Done?
  }

  /** What looking for an update leaves of an idle host, cause by cause, when nothing is swapped in. */
  predicate SwapsNothing(h: Host, g: Host, run: Input) {
    if run.offer.Offered? then
      var m := run.offer.manifest;
      && g.install == h.install && g.service == h.service
      && g.pending == (if LeavesPromise(h, m, run) then Some(Promise(m)) else None)
      && (LeavesPromise(h, m, run) ==> g.previous == Some(h.install))
      && (!Stages(h, m, run) ==> g.staged == h.staged)
      && (!(Stages(h, m, run) && run.staging.StagedIntact?) ==> g.previous == h.previous)
      && g.release == (if SeesRunning(h, m, run) then Some(Release(m.version, m.sequence)) else h.release)
      && g.log == (if SeesRunning(h, m, run) then Then(h.log, Recorded(m.sequence)) else h.log)
      && g.failed == (if FindsUnusable(h, m, run)
                      then h.failed + [FailedRelease(m.sequence, m.version, run.nowMs)] else h.failed)
    else g == h
  }

  lemma SwapInCases(h: Host, m: Manifest, run: Input)
    requires h.pending.None? && h.staged == Some(StagedImage(m)) && h.previous == Some(h.install)
    ensures var (g, ending) := SwapIn(h, m, run);
            if run.effect(WritePending).Done? && run.effect(Swap).Done?
            then (g, ending) == Confirm(SwappedIn(h, m), Promise(m), run)
            else g == h.(staged := g.staged,
                         pending := if run.effect(WritePending).Done?
                                       && (run.effect(Swap).Stopped? || run.effect(CleanStaged).Stopped?
                                           || !run.effect(UndoPending).Done?)
                                    then Some(Promise(m)) else None)
  {
    hide Confirm;
  }

  lemma StageCases(h: Host, m: Manifest, run: Input)
    requires h.pending.None? && Stages(h, m, run)
    ensures if SwapsIn(h, m, run) then Stage(h, m, run) == Confirm(SwappedIn(h, m), Promise(m), run)
            else SwapsNothing(h, Stage(h, m, run).0, run)
  {
    hide Confirm, SwapIn;
    if run.staging.StagedIntact? && run.copying.Copied? {
      var kept := h.(staged := Some(StagedImage(m)), previous := Some(h.install));
      SwapInCases(kept, m, run);
      assert SwappedIn(kept, m) == SwappedIn(h, m);
      assert Stage(h, m, run) == SwapIn(kept, m, run);
    }
  }

  lemma LookCases(h: Host, run: Input)
    requires Started(run) && h.pending.None?
    ensures if run.offer.Offered? && SwapsIn(h, run.offer.manifest, run)
            then LookForUpdate(h, run) == Confirm(SwappedIn(h, run.offer.manifest), Promise(run.offer.manifest), run)
            else SwapsNothing(h, LookForUpdate(h, run).0, run)
  {
    hide Stage, Confirm;
    if run.offer.Offered? && Stages(h, run.offer.manifest, run) { StageCases(h, run.offer.manifest, run); }
  }

  /** Every run acts on a release in place, rolls back one that is not, or only looks. */
  lemma RunCases(h: Host, run: Input)
    ensures match Site(h, run)
            case Some((r, p)) => Run(h, run) == if p.rollingBack then RollBack(r, p, run) else Confirm(r, p, run)
            case None =>
              var g := Run(h, run).0;
              if Resumes(h, run) then Run(h, run) == RollBack(h, h.pending.value, run)
              else if Looks(h, run) then SwapsNothing(h.(pending := None), g, run)
              else g == h
  {
    hide LookForUpdate, RollBack, Confirm, SwapsNothing;
    if Looks(h, run) {
      LookCases(h.(pending := None), run);
      assert run.offer.Offered? ==>
        SwappedIn(h, run.offer.manifest) == SwappedIn(h.(pending := None), run.offer.manifest);
    }
  }

  /** A release in place is confirmed, or rolled back once its restart or health check fails. */
  lemma ConfirmCases(h: Host, p: Pending, run: Input)
    ensures Confirm(h, p, run) ==
            var up := RestartedAt(h, run);
            if FailsHealth(run) then RollBack(up, p, run)
            else if !run.restart.Restarted? || !run.health.Healthy? then (up, Interrupted)
            else
              var recorded := up.(release := Some(Release(p.version, p.sequence))).Note(Recorded(p.sequence));
              match run.effect(WriteRelease)
              case Stopped => (up, Interrupted)
              case Failed => (up, Refused(Io))
              case Done =>
                match run.effect(ClearPending)
                case Stopped => (recorded, Interrupted)
                case Failed => (recorded, Refused(Io))
                case Done => (recorded.(pending := None), Finished(Updated(p.version)))
  {
    hide RollBack;
  }
}
