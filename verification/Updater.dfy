/**
 The updater as it runs: methods that change the files one call at a time, each proved to leave
 exactly the host and the ending that the model of a run gives.
 */
module Updater {
  import opened Common
  import opened UpdaterState
  import Model = UpdaterState

  class Updater {
    var install: Image
    var previous: Option<Image>
    var staged: Option<Image>
    var pending: Option<Pending>
    var release: Option<Release>
    var failed: seq<FailedRelease>
    var service: Service
    ghost var log: Log

    ghost function State(): Host
      reads this
    {
      Host(install, previous, staged, pending, release, failed, service, log)
    }

    predicate HasFailed(sequence: u64)
      reads this
      ensures HasFailed(sequence) == State().HasFailed(sequence)
    {
      exists i :: 0 <= i < |failed| && failed[i].sequence == sequence
    }

    function RunningVersion(): string
      reads this
      ensures RunningVersion() == State().RunningVersion()
    {
      if install.Intact? then install.binary.version else ""
    }

    method RecordFailure(version: string, sequence: u64, run: Input) returns (recording: Effect)
      modifies this
      ensures (State(), recording) == Model.RecordFailure(old(State()), version, sequence, run)
    {
      if !run.effect(ReadFailures).Done? {
        return run.effect(ReadFailures);
      }
      if HasFailed(sequence) {
        return Done;
      }
      if run.effect(WriteFailure).Done? {
        failed := failed + [FailedRelease(sequence, version, run.nowMs)];
      }
      return run.effect(WriteFailure);
    }

    method RollBack(p: Pending, run: Input) returns (ending: Ending)
      modifies this
      ensures (State(), ending) == Model.RollBack(old(State()), p, run)
    {
      if run.effect(MarkRollback).Stopped? {
        return Interrupted;
      }
      if run.effect(MarkRollback).Done? {
        pending := Some(p.(rollingBack := true));
      }
      var recording := RecordFailure(p.version, p.sequence, run);
      if recording.Stopped? || run.effect(ProbePrevious).Stopped? {
        return Interrupted;
      }
      if previous.Some? && run.effect(ProbePrevious).Done? {
        if run.effect(Restore).Stopped? {
          return Interrupted;
        }
        if run.effect(Restore).Failed? {
          return Refused(RollbackIncomplete(p.version));
        }
        install, previous, log := previous.value, None, Then(log, Restored(p.sequence, previous.value));
      }
      match run.rollbackRestart {
        case RestartStopped(after) =>
          service := after;
          return Interrupted;
        case RestartFailed(after) =>
          service := after;
          return Refused(RollbackIncomplete(p.version));
        case Restarted =>
          service := Runs(install);
      }
      if !recording.Done? {
        return Refused(RollbackIncomplete(p.version));
      }
      if run.effect(ClearRollback).Stopped? {
        return Interrupted;
      }
      if run.effect(ClearRollback).Done? {
        pending := None;
      }
      return Refused(RolledBack(p.version));
    }

    method Confirm(p: Pending, run: Input) returns (ending: Ending)
      modifies this
      ensures (State(), ending) == Model.Confirm(old(State()), p, run)
    {
      match run.restart {
        case RestartStopped(after) =>
          service := after;
          return Interrupted;
        case RestartFailed(after) =>
          service := after;
          ending := RollBack(p, run);
          return;
        case Restarted =>
          service := Runs(install);
      }
      if run.health.HealthStopped? {
        return Interrupted;
      }
      if run.health.Unhealthy? {
        ending := RollBack(p, run);
        return;
      }
      if !run.effect(WriteRelease).Done? {
        return if run.effect(WriteRelease).Stopped? then Interrupted else Refused(Io);
      }
      release, log := Some(Release(p.version, p.sequence)), Then(log, Recorded(p.sequence));
      if !run.effect(ClearPending).Done? {
        return if run.effect(ClearPending).Stopped? then Interrupted else Refused(Io);
      }
      pending := None;
      return Finished(Updated(p.version));
    }

    method GiveUp(error: Error, run: Input) returns (ending: Ending)
      modifies this
      ensures (State(), ending) == Model.GiveUp(old(State()), error, run)
    {
      if run.effect(CleanStaged).Done? {
        staged := None;
      }
      return if run.effect(CleanStaged).Stopped? then Interrupted else Refused(error);
    }

    /** From `stage` to the end of the run. */
    method Install(m: Manifest, run: Input) returns (ending: Ending)
      modifies this
      ensures (State(), ending) == Model.Stage(old(State()), m, run)
    {
      match run.staging {
        case StageStopped(left) =>
          staged := left;
          return Interrupted;
        case StageRejected(left) =>
          staged := left;
          ending := GiveUp(BadBinary, run);
          return;
        case StageUnusable(left) =>
          staged := left;
          ending := GiveUp(BadRelease, run);
          if !ending.Interrupted? {
            var recording := RecordFailure(m.version, m.sequence, run);
            match recording {
              case Done =>
              case Failed => ending := Refused(Io);
              case Stopped => ending := Interrupted;
            }
          }
          return;
        case StagedIntact =>
          staged := Some(Intact(Binary(m.version, m.digest)));
      }
      if !run.copying.Copied? {
        previous := match run.copying.left
          case Untouched => previous
          case Partial => Some(Torn)
          case Whole => Some(install);
        if run.copying.CopyStopped? {
          return Interrupted;
        }
        ending := GiveUp(Io, run);
        return;
      }
      previous := Some(install);
      ending := SwapIn(m, run);
    }

    method SwapIn(m: Manifest, run: Input) returns (ending: Ending)
      modifies this
      ensures (State(), ending) == Model.SwapIn(old(State()), m, run)
    {
      if run.effect(WritePending).Stopped? {
        return Interrupted;
      }
      if run.effect(WritePending).Failed? {
        ending := GiveUp(Io, run);
        return;
      }
      var p := Pending(m.version, m.sequence, false);
      pending := Some(p);
      if run.effect(Swap).Stopped? {
        return Interrupted;
      }
      if run.effect(Swap).Failed? || staged.None? {
        ending := GiveUp(Io, run);
        if ending.Interrupted? || run.effect(UndoPending).Stopped? {
          return Interrupted;
        }
        if run.effect(UndoPending).Done? {
          pending := None;
        }
        return;
      }
      log := Then(log, Swapped(m.sequence, install, staged.value));
      install, staged := staged.value, None;
      ending := Confirm(p, run);
    }

    method LookForUpdate(run: Input) returns (ending: Ending)
      modifies this
      ensures (State(), ending) == Model.LookForUpdate(old(State()), run)
    {
      if !run.effect(ReadRelease).Done? {
        return if run.effect(ReadRelease).Stopped? then Interrupted else Refused(Io);
      }
      var installed := if release.Some? then release.value.sequence else 0;
      var m;
      match run.offer {
        case OfferStopped => return Interrupted;
        case NothingPublished => return Finished(NoManifest);
        case Unavailable => return Refused(Fetch);
        case Untrusted => return Refused(ManifestRejected);
        case Offered(manifest) => m := manifest;
      }
      if m.sequence <= installed {
        return Finished(NotNewer);
      }
      if m.version == RunningVersion() {
        if !run.effect(WriteSeenRelease).Done? {
          return if run.effect(WriteSeenRelease).Stopped? then Interrupted else Refused(Io);
        }
        release, log := Some(Release(m.version, m.sequence)), Then(log, Recorded(m.sequence));
        return Finished(AlreadyRunning);
      }
      if !run.effect(ReadFailed).Done? {
        return if run.effect(ReadFailed).Stopped? then Interrupted else Refused(Io);
      }
      if HasFailed(m.sequence) {
        return Finished(PreviouslyFailed);
      }
      if run.gate.NotYet? {
        return Finished(WaitingFor);
      }
      if run.gate.OutsideWindow? {
        return Finished(Outside);
      }
      if !run.effect(ProbeInstall).Done? {
        return if run.effect(ProbeInstall).Stopped? then Interrupted else Refused(Config);
      }
      if !run.effect(CheckDisk).Done? {
        return if run.effect(CheckDisk).Stopped? then Interrupted else Refused(Disk);
      }
      ending := Install(m, run);
    }

    method Run(run: Input) returns (ending: Ending)
      modifies this
      ensures (State(), ending) == Model.Run(old(State()), run)
    {
      if !run.enabled {
        return Finished(Disabled);
      }
      if !run.effect(Setup).Done? {
        return if run.effect(Setup).Stopped? then Interrupted else Refused(Config);
      }
      if !run.locked {
        return Finished(Busy);
      }
      if !run.effect(ReadPending).Done? {
        return if run.effect(ReadPending).Stopped? then Interrupted else Refused(Io);
      }
      if pending.Some? {
        var p := pending.value;
        var differs := p.version != RunningVersion();
        if differs && run.effect(ProbeRecovery).Stopped? {
          return Interrupted;
        }
        var restored := differs && !(previous.Some? && run.effect(ProbeRecovery).Done?);
        if p.rollingBack || restored {
          ending := RollBack(p, run);
          return;
        }
        if !differs {
          ending := Confirm(p, run);
          return;
        }
        if !run.effect(DropPending).Done? {
          return if run.effect(DropPending).Stopped? then Interrupted else Refused(Io);
        }
        pending := None;
      }
      ending := LookForUpdate(run);
    }
  }
}
