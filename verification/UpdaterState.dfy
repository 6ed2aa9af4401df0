/**
 The self-updater's files and one run over them. Every call a run makes may fail or may be the
 point at which the run is interrupted, so the state an interrupted run leaves is any state
 between two calls; the next run starts from it.
 */
module UpdaterState {
  import opened Common

  // ----- what is on disk, and what has happened

  /** A binary and the version it reports. */
  datatype Binary = Binary(version: string, digest: string)

  /** The contents of a path: an intact binary or a partly written one. */
  datatype Image = Intact(binary: Binary) | Torn

  /** `pending.json`: from just before the swap until the release is recorded or undone. */
  datatype Pending = Pending(version: string, sequence: u64, rollingBack: bool)

  /** `release.json`. */
  datatype Release = Release(version: string, sequence: u64)

  /** One entry of `update-failed.json`. */
  datatype FailedRelease = FailedRelease(sequence: u64, version: string, failedMs: u64)

  /** What the service is known to run. */
  datatype Service = Runs(image: Image) | Unknown

  /** Changes a reader of the host would notice, oldest first. */
  datatype Event =
    | Swapped(sequence: u64, replaced: Image, installed: Image)
    | Recorded(sequence: u64)
    | Restored(sequence: u64, image: Image)

  datatype Log = Nothing | Then(before: Log, event: Event)

  datatype Host = Host(
    install: Image,
    previous: Option<Image>,
    staged: Option<Image>,
    pending: Option<Pending>,
    release: Option<Release>,
    failed: seq<FailedRelease>,
    service: Service,
    log: Log)
  {
    /** The version of the updater that a new run executes: the installed one. */
    function RunningVersion(): string {
      if install.Intact? then install.binary.version else ""
    }

    /** The sequence a manifest must exceed; 0 before any release is recorded. */
    function InstalledSequence(): u64 {
      if release.Some? then release.value.sequence else 0
    }

    predicate HasFailed(sequence: u64) {
      exists i :: 0 <= i < |failed| && failed[i].sequence == sequence
    }

    function Note(event: Event): Host {
      this.(log := Then(log, event))
    }
  }

  // ----- what one run meets

  /** The calls a run makes, each at most once. */
  datatype Call =
    | Setup | ReadPending | ProbeRecovery | DropPending
    | ReadRelease | WriteSeenRelease | ReadFailed | ProbeInstall | CheckDisk
    | CleanStaged | WritePending | Swap | UndoPending
    | WriteRelease | ClearPending
    | MarkRollback | ReadFailures | WriteFailure | ProbePrevious | Restore | ClearRollback

  /** A call completes, fails and changes nothing, or is never reached. */
  datatype Effect = Done | Failed | Stopped

  datatype Manifest = Manifest(version: string, sequence: u64, digest: string)

  datatype Offer = NothingPublished | Unavailable | Untrusted | Offered(manifest: Manifest) | OfferStopped

  datatype Gate = Due | NotYet | OutsideWindow

  /** `stage` downloads, checks and test-runs; anything but success leaves any partial file. */
  datatype Staging =
    | StagedIntact
    | StageRejected(left: Option<Image>)
    | StageUnusable(left: Option<Image>)
    | StageStopped(left: Option<Image>)

  /** The copy to `.previous`: a failed or interrupted one can leave a torn file, or the whole one. */
  datatype Copying = Copied | CopyFailed(left: CopyLeft) | CopyStopped(left: CopyLeft)

  datatype CopyLeft = Untouched | Partial | Whole

  /** A failed or interrupted restart leaves the service in any state. */
  datatype Restarting = Restarted | RestartFailed(after: Service) | RestartStopped(after: Service)

  datatype Health = Healthy | Unhealthy | HealthStopped

  datatype Input = Input(
    enabled: bool,
    locked: bool,
    nowMs: u64,
    offer: Offer,
    gate: Gate,
    staging: Staging,
    copying: Copying,
    restart: Restarting,
    health: Health,
    rollbackRestart: Restarting,
    effect: Call -> Effect)

  datatype Outcome =
    | Disabled | Busy | NoManifest | NotNewer | AlreadyRunning | PreviouslyFailed | WaitingFor | Outside
    | Updated(version: string)

  datatype Error =
    | Io | Config | Fetch | ManifestRejected | BadBinary | BadRelease | Disk
    | RolledBack(version: string)
    | RollbackIncomplete(version: string)

  datatype Ending = Finished(outcome: Outcome) | Refused(error: Error) | Interrupted

  // ----- one run

  /** The host after the call, unless it failed or was not reached. */
  function After(effect: Effect, h: Host, changed: Host): Host {
    if effect.Done? then changed else h
  }

  /** Never retry `sequence`; recording it twice changes nothing. */
  function RecordFailure(h: Host, version: string, sequence: u64, run: Input): (Host, Effect) {
    if !run.effect(ReadFailures).Done? then (h, run.effect(ReadFailures))
    else if h.HasFailed(sequence) then (h, Done)
    else
      var entry := FailedRelease(sequence, version, run.nowMs);
      (After(run.effect(WriteFailure), h, h.(failed := h.failed + [entry])), run.effect(WriteFailure))
  }

  /** Put the previous binary back, restart it, and forget the pending release once its failure is recorded. */
  function RollBack(h: Host, p: Pending, run: Input): (Host, Ending) {
    var marked := After(run.effect(MarkRollback), h, h.(pending := Some(p.(rollingBack := true))));
    var (noted, recording) := RecordFailure(marked, p.version, p.sequence, run);
    if run.effect(MarkRollback).Stopped? then (h, Interrupted)
    else if recording.Stopped? || run.effect(ProbePrevious).Stopped? then (noted, Interrupted)
    else if noted.previous.Some? && run.effect(ProbePrevious).Done? then
      var restored := noted.(install := noted.previous.value, previous := None)
                           .Note(Restored(p.sequence, noted.previous.value));
      match run.effect(Restore)
      case Stopped => (noted, Interrupted)
      case Failed => (noted, Refused(RollbackIncomplete(p.version)))
      case Done => FinishRollBack(restored, p, recording.Done?, run)
    else
      FinishRollBack(noted, p, recording.Done?, run)
  }

  function FinishRollBack(h: Host, p: Pending, recorded: bool, run: Input): (Host, Ending) {
    match run.rollbackRestart
    case RestartStopped(after) => (h.(service := after), Interrupted)
    case RestartFailed(after) => (h.(service := after), Refused(RollbackIncomplete(p.version)))
    case Restarted =>
      var up := h.(service := Runs(h.install));
      if !recorded then (up, Refused(RollbackIncomplete(p.version)))
      else if run.effect(ClearRollback).Stopped? then (up, Interrupted)
      else (After(run.effect(ClearRollback), up, up.(pending := None)), Refused(RolledBack(p.version)))
  }

  /** With the pending release swapped in: restart, then record the release or roll it back. */
  function Confirm(h: Host, p: Pending, run: Input): (Host, Ending) {
    match run.restart
    case RestartStopped(after) => (h.(service := after), Interrupted)
    case RestartFailed(after) => RollBack(h.(service := after), p, run)
    case Restarted =>
      var up := h.(service := Runs(h.install));
      match run.health
      case HealthStopped => (up, Interrupted)
      case Unhealthy => RollBack(up, p, run)
      case Healthy =>
        var recorded := up.(release := Some(Release(p.version, p.sequence))).Note(Recorded(p.sequence));
        match run.effect(WriteRelease)
        case Stopped => (up, Interrupted)
        case Failed => (up, Refused(Io))
        case Done =>
          match run.effect(ClearPending)
          case Stopped => (recorded, Interrupted)
          case Failed => (recorded, Refused(Io))
          case Done => (recorded.(pending := None), Finished(Updated(p.version)))
  }

  /** Remove the staged file, ignoring a failure, and end the run. */
  function GiveUp(h: Host, error: Error, run: Input): (Host, Ending) {
    (After(run.effect(CleanStaged), h, h.(staged := None)),
     if run.effect(CleanStaged).Stopped? then Interrupted else Refused(error))
  }

  function Stage(h: Host, m: Manifest, run: Input): (Host, Ending) {
    match run.staging
    case StageStopped(left) => (h.(staged := left), Interrupted)
    case StageRejected(left) => GiveUp(h.(staged := left), BadBinary, run)
    case StageUnusable(left) =>
      var (cleaned, ending) := GiveUp(h.(staged := left), BadRelease, run);
      if ending.Interrupted? then (cleaned, ending)
      else
        var (noted, recording) := RecordFailure(cleaned, m.version, m.sequence, run);
        (noted, match recording case Done => ending case Failed => Refused(Io) case Stopped => Interrupted)
    case StagedIntact => KeepPrevious(h.(staged := Some(Intact(Binary(m.version, m.digest)))), m, run)
  }

  function KeepPrevious(h: Host, m: Manifest, run: Input): (Host, Ending) {
    match run.copying
    case CopyStopped(left) => (LeaveCopy(h, left), Interrupted)
    case CopyFailed(left) => GiveUp(LeaveCopy(h, left), Io, run)
    case Copied => SwapIn(h.(previous := Some(h.install)), m, run)
  }

  function LeaveCopy(h: Host, left: CopyLeft): Host {
    match left
    case Untouched => h
    case Partial => h.(previous := Some(Torn))
    case Whole => h.(previous := Some(h.install))
  }

  function SwapIn(h: Host, m: Manifest, run: Input): (Host, Ending) {
    var p := Pending(m.version, m.sequence, false);
    var promised := h.(pending := Some(p));
    match run.effect(WritePending)
    case Stopped => (h, Interrupted)
    case Failed => GiveUp(h, Io, run)
    case Done =>
      if run.effect(Swap).Stopped? then (promised, Interrupted)
      else if run.effect(Swap).Done? && h.staged.Some? then
        Confirm(promised.(install := h.staged.value, staged := None)
                        .Note(Swapped(m.sequence, h.install, h.staged.value)), p, run)
      else
        var (cleaned, ending) := GiveUp(promised, Io, run);
        if ending.Interrupted? || run.effect(UndoPending).Stopped? then (cleaned, Interrupted)
        else (After(run.effect(UndoPending), cleaned, cleaned.(pending := None)), ending)
  }

  /** With nothing pending: look for a newer release and install it when it is due. */
  function LookForUpdate(h: Host, run: Input): (Host, Ending) {
    match run.effect(ReadRelease)
    case Stopped => (h, Interrupted)
    case Failed => (h, Refused(Io))
    case Done =>
      match run.offer
      case OfferStopped => (h, Interrupted)
      case NothingPublished => (h, Finished(NoManifest))
      case Unavailable => (h, Refused(Fetch))
      case Untrusted => (h, Refused(ManifestRejected))
      case Offered(m) => Consider(h, m, run)
  }

  function Consider(h: Host, m: Manifest, run: Input): (Host, Ending) {
    if m.sequence <= h.InstalledSequence() then (h, Finished(NotNewer))
    else if m.version == h.RunningVersion() then
      match run.effect(WriteSeenRelease)
      case Stopped => (h, Interrupted)
      case Failed => (h, Refused(Io))
      case Done =>
        (h.(release := Some(Release(m.version, m.sequence))).Note(Recorded(m.sequence)), Finished(AlreadyRunning))
    else if !run.effect(ReadFailed).Done? then
      (h, if run.effect(ReadFailed).Stopped? then Interrupted else Refused(Io))
    else if h.HasFailed(m.sequence) then (h, Finished(PreviouslyFailed))
    else if run.gate.NotYet? then (h, Finished(WaitingFor))
    else if run.gate.OutsideWindow? then (h, Finished(Outside))
    else if !run.effect(ProbeInstall).Done? then
      (h, if run.effect(ProbeInstall).Stopped? then Interrupted else Refused(Config))
    else if !run.effect(CheckDisk).Done? then
      (h, if run.effect(CheckDisk).Stopped? then Interrupted else Refused(Disk))
    else Stage(h, m, run)
  }

  /** Whether a pending release that is not running looks already restored: a failed probe reads as absent. */
  predicate LooksRestored(h: Host, p: Pending, run: Input) {
    p.version != h.RunningVersion() && (h.previous.None? || run.effect(ProbeRecovery).Failed?)
  }

  function Recover(h: Host, p: Pending, run: Input): (Host, Ending) {
    if p.version != h.RunningVersion() && run.effect(ProbeRecovery).Stopped? then (h, Interrupted)
    else if p.rollingBack || LooksRestored(h, p, run) then RollBack(h, p, run)
    else if p.version == h.RunningVersion() then Confirm(h, p, run)
    else
      match run.effect(DropPending)
      case Stopped => (h, Interrupted)
      case Failed => (h, Refused(Io))
      case Done => LookForUpdate(h.(pending := None), run)
  }

  /** One updater run: the host it leaves and how it ends. */
  function Run(h: Host, run: Input): (Host, Ending) {
    if !run.enabled then (h, Finished(Disabled))
    else if !run.effect(Setup).Done? then (h, if run.effect(Setup).Stopped? then Interrupted else Refused(Config))
    else if !run.locked then (h, Finished(Busy))
    else if !run.effect(ReadPending).Done? then
      (h, if run.effect(ReadPending).Stopped? then Interrupted else Refused(Io))
    else
      match h.pending
      case None => LookForUpdate(h, run)
      case Some(p) => Recover(h, p, run)
  }

  /** A whole history of runs. */
  function RunAll(h: Host, runs: seq<Input>): Host {
    if runs == [] then h else Run(RunAll(h, runs[..|runs| - 1]), runs[|runs| - 1]).0
  }
}
