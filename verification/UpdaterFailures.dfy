/**
 "A failed release is never retried": when exactly the updater records one as installed after all.
 */
module UpdaterFailures {
  import opened Common
  import opened UpdaterState
  import opened UpdaterSteps
  import opened UpdaterSafety
  import opened UpdaterRecovery

  function Records(log: Log, s: u64): nat {
    match log
    case Nothing => 0
    case Then(before, e) => Records(before, s) + if e == Recorded(s) then 1 else 0
  }

  // ----- one run

  /** The run records `s` although it is on record as failed. */
  predicate RecordsFailed(h: Host, run: Input, s: u64) {
    var g := Run(h, run).0;
    Records(g.log, s) > Records(h.log, s) && g.HasFailed(s)
  }

  /** An unmarked pending release, failed already, is in place and passes its health check. */
  predicate ReconfirmsFailed(h: Host, run: Input, s: u64) {
    && Started(run) && h.pending.Some? && h.HasFailed(s)
    && var p := h.pending.value;
    && p.sequence == s && !p.rollingBack && p.version == h.RunningVersion()
    && run.restart.Restarted? && run.health.Healthy? && run.effect(WriteRelease).Done?
  }

  /** The manifest offers a failed sequence under the version that is running. */
  predicate SeesFailed(h: Host, run: Input, s: u64) {
    && run.offer.Offered? && h.HasFailed(s)
    && var m := run.offer.manifest;
    && m.sequence == s && Considers(h, m, run) && m.version == h.RunningVersion()
    && run.effect(WriteSeenRelease).Done?
  }

  lemma RollBackRecords(h: Host, p: Pending, run: Input, s: u64)
    ensures Records(RollBack(h, p, run).0.log, s) == Records(h.log, s)
  {
    RollBackPartway(h, p, run);
    hide RollBack;
  }

  /** The run has nothing to recover and swaps nothing in. */
  predicate OnlyLooks(h: Host, run: Input) {
    && Looks(h, run)
    && !(run.offer.Offered? && SwapsIn(h, run.offer.manifest, run))
  }

  lemma LooksRecords(h: Host, run: Input, s: u64)
    requires OnlyLooks(h, run)
    ensures RecordsFailed(h, run, s) <==> SeesFailed(h, run, s)
  {
    var idle := h.(pending := None);
    assert Run(h, run) == LookForUpdate(idle, run);
    hide Run;
    LookCases(idle, run);
  }

  /** A run records a failed release in exactly two ways. */
  lemma RecordsFailedExactly(h: Host, run: Input, s: u64)
    ensures RecordsFailed(h, run, s) <==> ReconfirmsFailed(h, run, s) || SeesFailed(h, run, s)
  {
    RunCases(h, run);
    if OnlyLooks(h, run) {
      LooksRecords(h, run, s);
    } else {
      match Site(h, run)
      case Some((r, p)) =>
        ConfirmCases(r, p, run);
        RollBackRecords(r, p, run, s);
        RollBackRecords(RestartedAt(r, run), p, run, s);
        hide Run, RollBack, Confirm;
      case None =>
        if Resumes(h, run) { RollBackRecords(h, h.pending.value, run, s); }
        hide RollBack, LookForUpdate;
    }
  }

  // ----- what leads to that

  /** The version each release sequence is published under. */
  type Names = u64 -> string

  predicate Follows(run: Input, names: Names) {
    run.offer.Offered? ==> run.offer.manifest.version == names(run.offer.manifest.sequence)
  }

  /** Some failed release above `above` was published as `version`. */
  ghost predicate FailedAs(h: Host, names: Names, above: u64, version: string) {
    exists s: u64 :: h.HasFailed(s) && s > above && names(s) == version
  }

  /** No failed release can be recorded from here by a single run. */
  ghost predicate Guarded(h: Host, names: Names) {
    match h.pending
    case None => !FailedAs(h, names, h.InstalledSequence(), h.RunningVersion())
    case Some(p) =>
      && p.version == names(p.sequence)
      && if p.version == h.RunningVersion() then
           && (p.rollingBack || !h.HasFailed(p.sequence))
           && h.previous.Some? && h.previous.value.Intact?
           && !FailedAs(h, names, h.InstalledSequence(), h.previous.value.binary.version)
         else !FailedAs(h, names, h.InstalledSequence(), h.RunningVersion())
  }

  /**
   A rollback that leaves a failed release in place: forgotten after a failed probe although it was
   never recorded, or published under one name with a failed newer one; or neither marked nor put back.
   */
  ghost predicate LeavesFailed(h: Host, p: Pending, names: Names, run: Input) {
    if Forgets(h, p, run) then
      p.sequence > h.InstalledSequence() || FailedAs(h, names, h.InstalledSequence(), p.version)
    else
      && Remembers(h, p.sequence, run) && !p.rollingBack && run.effect(MarkRollback).Failed? && !PutsBack(run)
  }

  /** A release is confirmed whose version a failed release above it shares. */
  ghost predicate ConfirmsNamesake(h: Host, p: Pending, names: Names, run: Input) {
    && run.restart.Restarted? && run.health.Healthy?
    && run.effect(WriteRelease).Done? && run.effect(ClearPending).Done?
    && FailedAs(h, names, p.sequence, p.version)
  }

  ghost predicate Slips(h: Host, names: Names, run: Input) {
    match Site(h, run)
    case None => false
    case Some((r, p)) =>
      if RollsBack(p, run) then LeavesFailed(r, p, names, run) else ConfirmsNamesake(r, p, names, run)
  }

  lemma RollBackInPlaceGuarded(h: Host, p: Pending, names: Names, run: Input, vetted: set<Image>)
    requires Inv(h, vetted) && Guarded(h, names) && h.pending == Some(p) && p.version == h.RunningVersion()
    ensures Guarded(RollBack(h, p, run).0, names) <==> !LeavesFailed(h, p, names, run)
  {
    RollBackFailures(h, p, run);
    RollBackLeaves(h, p, run);
    var g := RollBack(h, p, run).0;
    assert h.previous.value.binary.version != p.version;
    hide RollBack, Inv;
    assert FailedAs(g, names, g.InstalledSequence(), p.version) <==>
           || FailedAs(h, names, h.InstalledSequence(), p.version)
           || (g.HasFailed(p.sequence) && p.sequence > h.InstalledSequence());
    assert FailedAs(g, names, g.InstalledSequence(), h.previous.value.binary.version) <==>
           FailedAs(h, names, h.InstalledSequence(), h.previous.value.binary.version);
  }

  lemma ResumeGuarded(h: Host, names: Names, run: Input, vetted: set<Image>)
    requires Inv(h, vetted) && Guarded(h, names) && Resumes(h, run)
    ensures Guarded(RollBack(h, h.pending.value, run).0, names)
  {
    var p := h.pending.value;
    RollBackFailures(h, p, run);
    RollBackLeaves(h, p, run);
    var g := RollBack(h, p, run).0;
    assert g.install == h.install;
    hide RollBack, Inv;
    assert FailedAs(g, names, g.InstalledSequence(), h.RunningVersion()) ==>
           FailedAs(h, names, h.InstalledSequence(), h.RunningVersion());
  }

  lemma ConfirmGuarded(h: Host, p: Pending, names: Names, run: Input, vetted: set<Image>)
    requires Inv(h, vetted) && Guarded(h, names) && h.pending == Some(p) && p.version == h.RunningVersion()
    requires !p.rollingBack
    ensures Guarded(Confirm(h, p, run).0, names) <==>
            !(if FailsHealth(run) then LeavesFailed(h, p, names, run) else ConfirmsNamesake(h, p, names, run))
  {
    ConfirmCases(h, p, run);
    var up := RestartedAt(h, run);
    ServiceIrrelevant(h, up.service, vetted);
    assert Guarded(up, names);
    assert LeavesFailed(up, p, names, run) <==> LeavesFailed(h, p, names, run);
    RollBackInPlaceGuarded(up, p, names, run, vetted);
    hide Confirm, RollBack, LeavesFailed;
    var recorded := up.(release := Some(Release(p.version, p.sequence))).Note(Recorded(p.sequence));
    assert p.sequence >= h.InstalledSequence();
    hide Inv;
    assert Guarded(recorded, names);
    assert FailedAs(recorded.(pending := None), names, p.sequence, p.version) <==>
           FailedAs(h, names, p.sequence, p.version);
  }

  lemma SwapsNothingGuarded(h: Host, g: Host, names: Names, run: Input)
    requires h.pending.None? && Guarded(h, names) && Follows(run, names) && SwapsNothing(h, g, run)
    ensures Guarded(g, names)
  {
    if run.offer.Offered? {
      var m := run.offer.manifest;
      FailedIs(h, FailedRelease(m.sequence, m.version, run.nowMs));
    }
    assert g.RunningVersion() == h.RunningVersion() && g.InstalledSequence() >= h.InstalledSequence();
    assert FailedAs(g, names, g.InstalledSequence(), g.RunningVersion()) ==>
           FailedAs(h, names, h.InstalledSequence(), h.RunningVersion());
  }

  lemma SiteGuarded(h: Host, names: Names, run: Input, vetted: set<Image>)
    requires Inv(h, vetted) && Guarded(h, names) && Follows(run, names) && Staged(run) <= vetted && Site(h, run).Some?
    ensures var (r, p) := Site(h, run).value;
            && Inv(r, vetted) && Guarded(r, names) && r.pending == Some(p) && p.version == r.RunningVersion()
            && (p.rollingBack ==> r == h)
  {
    if !(h.pending.Some? && h.pending.value.version == h.RunningVersion()) {
      var m := run.offer.manifest;
      SwappedInKeeps(h, m, run, vetted);
      var r := SwappedIn(h, m);
      assert r.InstalledSequence() == h.InstalledSequence();
      assert FailedAs(r, names, h.InstalledSequence(), h.RunningVersion()) <==>
             FailedAs(h, names, h.InstalledSequence(), h.RunningVersion());
    }
  }

  /** A run that starts guarded ends guarded exactly when it does not slip. */
  lemma RunGuarded(h: Host, names: Names, run: Input, vetted: set<Image>)
    requires Inv(h, vetted) && Guarded(h, names) && Follows(run, names) && Staged(run) <= vetted
    ensures Guarded(Run(h, run).0, names) <==> !Slips(h, names, run)
  {
    hide Run, RollBack, Confirm, SwapsNothing, SwappedIn, Inv, LeavesFailed, ConfirmsNamesake;
    RunCases(h, run);
    match Site(h, run)
    case Some((r, p)) =>
      SiteGuarded(h, names, run, vetted);
      if p.rollingBack {
        RollBackInPlaceGuarded(r, p, names, run, vetted);
      } else {
        ConfirmGuarded(r, p, names, run, vetted);
      }
    case None =>
      if Resumes(h, run) {
        ResumeGuarded(h, names, run, vetted);
      } else if Looks(h, run) {
        assert Guarded(h.(pending := None), names);
        SwapsNothingGuarded(h.(pending := None), Run(h, run).0, names, run);
      }
  }

  /** Under guard no failed release is recorded. */
  lemma GuardedRecordsNoFailed(h: Host, names: Names, run: Input, s: u64)
    requires Guarded(h, names) && Follows(run, names)
    ensures !RecordsFailed(h, run, s)
  {
    RecordsFailedExactly(h, run, s);
    hide RecordsFailed;
  }

  /** A slip leaves nothing pending, or a failed release pending, unmarked and in place. */
  lemma SlipLeaves(h: Host, names: Names, run: Input, vetted: set<Image>)
    requires Inv(h, vetted) && Guarded(h, names) && Follows(run, names) && Staged(run) <= vetted
    requires Slips(h, names, run)
    ensures var g := Run(h, run).0;
            g.pending.Some? ==> ReconfirmsFailed(g, QuietRun(), g.pending.value.sequence)
  {
    RunCases(h, run);
    SiteGuarded(h, names, run, vetted);
    var (r, p) := Site(h, run).value;
    var up := RestartedAt(r, run);
    ConfirmCases(r, p, run);
    RollBackLeaves(r, p, run);
    RollBackFailures(r, p, run);
    RollBackLeaves(up, p, run);
    RollBackFailures(up, p, run);
    hide Run, RollBack, Confirm, SwappedIn, SwapsIn, Inv, FailedAs;
  }

  lemma FailedAsCanBeSeen(h: Host, names: Names) returns (next: Input, s: u64)
    requires h.pending.None? && FailedAs(h, names, h.InstalledSequence(), h.RunningVersion())
    ensures Follows(next, names) && SeesFailed(h, next, s)
  {
    s :| h.HasFailed(s) && s > h.InstalledSequence() && names(s) == h.RunningVersion();
    next := QuietRun().(offer := Offered(Manifest(names(s), s, "")));
  }

  /** The slips are exact: after one, and only after one, a next run can record a failed release. */
  lemma SlipsExactly(h: Host, names: Names, run: Input, vetted: set<Image>)
    requires Inv(h, vetted) && Guarded(h, names) && Follows(run, names)
    ensures Slips(h, names, run) <==>
            exists next: Input, s: u64 :: Follows(next, names) && RecordsFailed(Run(h, run).0, next, s)
  {
    var g, wide := Run(h, run).0, vetted + Staged(run);
    InvWiden(h, vetted, wide);
    RunGuarded(h, names, run, wide);
    if Slips(h, names, run) {
      SlipLeaves(h, names, run, wide);
      var next, s;
      if g.pending.Some? {
        next, s := QuietRun(), g.pending.value.sequence;
      } else {
        next, s := FailedAsCanBeSeen(g, names);
      }
      RecordsFailedExactly(g, next, s);
      assert Follows(next, names) && RecordsFailed(g, next, s);
    } else {
      forall next: Input, s: u64 | Follows(next, names) ensures !RecordsFailed(g, next, s) {
        GuardedRecordsNoFailed(g, names, next, s);
      }
    }
  }

  // ----- whole histories

  /** Every run is offered releases under their own names, and none slips. */
  ghost predicate Careful(h: Host, names: Names, runs: seq<Input>) {
    runs != [] ==>
      var before, last := runs[..|runs| - 1], runs[|runs| - 1];
      Careful(h, names, before) && Follows(last, names) && !Slips(RunAll(h, before), names, last)
  }

  /** Failed, or pending and marked for rollback. */
  predicate Doomed(h: Host, s: u64) {
    h.HasFailed(s) || (h.pending.Some? && h.pending.value.rollingBack && h.pending.value.sequence == s)
  }

  lemma RunDoomed(h: Host, run: Input, s: u64)
    requires Doomed(h, s)
    ensures Doomed(Run(h, run).0, s)
    ensures !h.HasFailed(s) ==> Records(Run(h, run).0.log, s) == Records(h.log, s)
  {
    if h.HasFailed(s) {
      RunFailures(h, run, s);
    } else {
      RollBackRecords(h, h.pending.value, run, s);
      RollBackLeaves(h, h.pending.value, run);
      RollBackFailures(h, h.pending.value, run);
      hide RollBack;
    }
  }

  lemma RunFailures(h: Host, run: Input, s: u64)
    requires h.HasFailed(s)
    ensures Run(h, run).0.HasFailed(s)
    ensures Records(Run(h, run).0.log, s) >= Records(h.log, s)
  {
    hide Run, RollBack, Confirm;
    RunCases(h, run);
    if run.offer.Offered? {
      FailedIs(h, FailedRelease(run.offer.manifest.sequence, run.offer.manifest.version, run.nowMs));
      assert h.(pending := None).HasFailed(s);
    }
    match Site(h, run)
    case Some((r, p)) =>
      ConfirmCases(r, p, run);
      RollBackFailures(r, p, run);
      RollBackRecords(r, p, run, s);
      RollBackFailures(RestartedAt(r, run), p, run);
      RollBackRecords(RestartedAt(r, run), p, run, s);
    case None =>
      if Resumes(h, run) {
        RollBackFailures(h, h.pending.value, run);
        RollBackRecords(h, h.pending.value, run, s);
      }
  }

  /** Once failed, or marked for rollback, a release is never recorded as installed while no run slips. */
  lemma {:induction false} DoomedNeverRecorded(h: Host, names: Names, runs: seq<Input>, s: u64, vetted: set<Image>)
    requires Inv(h, vetted) && Guarded(h, names) && Careful(h, names, runs) && Doomed(h, s)
    ensures Guarded(RunAll(h, runs), names) && Doomed(RunAll(h, runs), s)
    ensures Records(RunAll(h, runs).log, s) == Records(h.log, s)
  {
    if runs != [] {
      var before, run := runs[..|runs| - 1], runs[|runs| - 1];
      var g, wide := RunAll(h, before), vetted + Vetted(h, runs);
      DoomedNeverRecorded(h, names, before, s, vetted);
      InvLasts(h, before, vetted);
      InvWiden(g, vetted + Vetted(h, before), wide);
      RunGuarded(g, names, run, wide);
      RunDoomed(g, run, s);
      if g.HasFailed(s) {
        RunFailures(g, run, s);
        GuardedRecordsNoFailed(g, names, run, s);
      }
      hide Run, Inv, Guarded, Slips;
    }
  }

  /** Over any careful history from a fresh host no run ever records a failed release. */
  lemma FailedNeverRecorded(h: Host, names: Names, runs: seq<Input>, run: Input, s: u64)
    requires Fresh(h) && Guarded(h, names) && Careful(h, names, runs) && Follows(run, names)
    ensures !RecordsFailed(RunAll(h, runs), run, s)
  {
    AlwaysGuarded(h, names, runs);
    GuardedRecordsNoFailed(RunAll(h, runs), names, run, s);
  }

  lemma {:induction false} AlwaysGuarded(h: Host, names: Names, runs: seq<Input>)
    requires Fresh(h) && Guarded(h, names) && Careful(h, names, runs)
    ensures Guarded(RunAll(h, runs), names)
  {
    if runs != [] {
      var before := runs[..|runs| - 1];
      AlwaysGuarded(h, names, before);
      AlwaysInv(h, before);
      InvWiden(RunAll(h, before), Vetted(h, before), Vetted(h, runs));
      RunGuarded(RunAll(h, before), names, runs[|runs| - 1], Vetted(h, runs));
    }
  }

  /** With no probe failing: a rollback neither marked nor finished is followed by a confirmation. */
  lemma UnmarkedIsReconfirmed(h: Host, m: Manifest, run: Input, next: Input)
    requires Fresh(h) && Installable(h, m)
    requires TurnsOutUnhealthy(m, run, {MarkRollback, Restore})
    requires run.effect(MarkRollback).Failed? && run.effect(Restore).Stopped?
    requires Clean(next) && next.restart.Restarted? && next.health.Healthy?
    ensures RecordsFailed(Run(h, run).0, next, m.sequence)
  {
    hide Run, RollBack, RecordsFailed;
    var up, p := RestartedAt(SwappedIn(h, m), run), Promise(m);
    UnhealthyRollsBack(h, m, run);
    RollBackLeaves(up, p, run);
    RollBackFailures(up, p, run);
    StopsInPlace(up, p, run);
    RecordsFailedExactly(Run(h, run).0, next, m.sequence);
  }

  /** Although marked: a rollback whose probe failed is forgotten, and the manifest offered once more. */
  lemma MisreportedIsSeen(h: Host, m: Manifest, run: Input, next: Input)
    requires Fresh(h) && Installable(h, m)
    requires TurnsOutUnhealthy(m, run, {ProbePrevious}) && run.effect(ProbePrevious).Failed?
    requires Clean(next) && next.offer == Offered(m)
    ensures RecordsFailed(Run(h, run).0, next, m.sequence)
  {
    hide Run, RollBack, RecordsFailed;
    var up, p := RestartedAt(SwappedIn(h, m), run), Promise(m);
    UnhealthyRollsBack(h, m, run);
    RollBackLeaves(up, p, run);
    RollBackFailures(up, p, run);
    ForgetsInPlace(up, p, run);
    RecordsFailedExactly(Run(h, run).0, next, m.sequence);
  }

  lemma StopsInPlace(h: Host, p: Pending, run: Input)
    requires h.pending == Some(p) && h.previous.Some?
    requires run.effect(ProbePrevious).Done? && run.effect(Restore).Stopped?
    ensures RollBack(h, p, run).0.pending.Some?
  {}
}
