# A verified model of the SN46 validator

The SN46 validator fetches a signed epoch summary, checks it against one finalized snapshot of the
chain, submits that epoch's weights, and updates its own binary from signed releases. This project
models those parts in Dafny and proves what they keep over every history of runs, whichever calls
fail and wherever a run is interrupted.

| file | models |
|---|---|
| `UpdaterState.dfy`, `Updater.dfy`, `UpdaterSteps.dfy` | the self-updater's files, one run over them, and how far a run gets |
| `UpdaterSafety.dfy`, `UpdaterRecovery.dfy`, `UpdaterFailures.dfy`, `UpdaterOutcomes.dfy` | what every history of runs keeps, what the next run recovers, when a failed release is recorded after all, and how a run ends |
| `Submission.dfy`, `Validator.dfy`, `SubmissionSafety.dfy` | the chain, the state file and the submission guard, `run_once`, and what every history keeps |
| `StateStore.dfy`, `ChainView.dfy` | what a saved state must look like to load; the snapshot and the checks a summary must pass |
| `RevealSchedule.dfy` | when a timelocked commit becomes revealable |
| `SavedBurn.dfy`, `RunOutcomes.dfy` | what a saved burn epoch says about the chain; when a run sends, and how it ends |
| `BurnEconomics.dfy`, `WeightVector.dfy`, `Payout.dfy` | the burn fraction, the weight vector, and what the two leave to the miners |
| `Calendar.dfy` | the UTC timestamps of the updater |
| `AsciiJson.dfy` | the ASCII escaping of saved JSON |
| `Common.dfy` | integer widths and result types |

## How runs, failures and interruptions are modelled

A run is given, for each call it makes, whether the call completes, fails, or is never reached
because the run was interrupted there. The theorems quantify over all such choices, so every state
between two calls of a run is the end state of some interrupted run, and each history theorem also
speaks about mid-run states.

For the updater a completed call persists and a failed one changes nothing, except that the copy to
`.previous` can leave a torn or a whole file, `stage` can leave any partial file, and a failed or
interrupted restart can leave the service in any state. The code's probes for `.previous` read an
error as "absent" (`Path::exists`), and so do the probes here.

For the submission protocol a failed or interrupted write may have landed all the same, and a failed
broadcast may have reached the pool. A broadcast extrinsic with birth block f can take effect once,
in any later finalized block below f + 64, long after its run ended. Blocks finalized while a run
watches its extrinsic are part of the run's input; letting the blocks between the snapshot and the
broadcast follow the broadcast only adds behaviours. The node is assumed to answer from the finalized
head, to report a real epoch step as the last one, and to report this validator's `LastUpdate`; the
head never goes back.

Each class method is proved to leave exactly the state and the result that the model function gives,
and the theorems are about the model functions.

Three statements that one could expect of the updater are false of the code. Each is proved with the
steps that break it excluded, and an equivalence shows that those steps are exactly the ones to exclude:

- With nothing pending the service runs what is installed. The comment at src/update.rs:381-383 takes an
  absent `.previous` as proof of a restore, and a probe that fails reads the same. A run can then roll
  back a release that never landed, fail to mark that, fail the second probe too, and break the service
  while restarting it; the next run drops the record (`UpdaterRecovery.LosesRestartExactly`, reachable by
  `UpdaterRecovery.ServiceCanBeLost`).
- A rollback that reports success put the old binary back. It did if and only if the probe for
  `.previous` answered (`UpdaterRecovery.FailedProbeSkipsRestore`). Such a false report and the lost
  restart are together exactly what one clean run cannot make good (`UpdaterRecovery.UnsettledExactly`).
- README.md of the repository says a failed release is never retried. The code compares the manifest with
  the running version before it looks at `update-failed.json` (src/update.rs:420-440), so a run records a
  failed release in exactly two ways: it re-confirms one that is pending unmarked and in place, or the
  manifest offers one under the running version (`UpdaterFailures.RecordsFailedExactly`). Both happen
  within two runs of a fresh host, the first with no probe failing, the second although the rollback was
  marked (`UpdaterFailures.UnmarkedIsReconfirmed`, `UpdaterFailures.MisreportedIsSeen`). Where every
  sequence is published under one version, the runs that open the way are three: a rollback that neither
  marks the release nor puts the old binary back, one that forgets it after a failed probe, and the
  confirmation of a release whose version a failed later one shares (`UpdaterFailures.SlipsExactly`,
  `UpdaterFailures.FailedNeverRecorded`).

One statement about the submission protocol is false as well. The code takes `LastUpdate` at or after an
epoch's end as weights for that epoch on chain (src/runtime.rs:177-178, and the saved burn epoch after
it). `LastUpdate` moves on a registration too: registering alone settles an epoch for which nothing was
ever sent (`SavedBurn.RegistrationPassesForWeights`). And weights for one epoch that take effect after
the next one has ended settle both (`SavedBurn.LateWeightsPassForTheNext`). What holds is
`SavedBurn.SavesUnsentExactly`: a run settles an epoch without sending if and only if weights took effect
at or after its end, or `LastUpdate` moved there without weights; and without registrations every saved
burn means weights that recent (`SavedBurn.SavedBurnMeansWeights`).

## Model

| member | source | states |
|---|---|---|
| `UpdaterSafety.SwappedAtMostOnce` | src/update.rs:379-440 | over any history, with any calls failing and any interruptions, each release sequence is swapped into the install path at most once |
| `UpdaterSafety.ReleaseNeverDecreases` | src/update.rs:415-431 | `release.json` names the highest sequence ever recorded, no run lowers it, and every swapped-in sequence exceeds all records before it, re-confirmations included |
| `UpdaterSafety.InstallPathIntact` | src/update.rs:482-518 | in every reachable state the install path holds an intact binary, the first one or one that passed `stage`; a torn `.previous` never replaces it |
| `UpdaterSafety.RunKeeps` | src/update.rs:348-518 | whichever calls fail and wherever the run stops, the recovery invariant holds: a pending release has not landed with the old binary kept, has landed with the very binary its swap replaced kept intact, or has been undone |
| `UpdaterSafety.AlwaysInv` | src/update.rs:379-401 | every state any history reaches satisfies that invariant |
| `UpdaterSafety.RollBackKeeps` | src/update.rs:547-588 | a rollback that fails or stops anywhere leaves a state the next run can recover from |
| `UpdaterSafety.ConfirmKeeps` | src/update.rs:520-545 | the same for the health check and the recording of a release |
| `UpdaterSafety.SwapInKeeps` | src/update.rs:491-518 | the same from writing `pending.json` to the end of the run |
| `UpdaterSafety.DropKeeps` | src/update.rs:399-400 | a pending record is dropped only for a release that never landed, and no sequence swapped in before becomes installable again |
| `UpdaterSteps.RunCases` | src/update.rs:379-518 | every run confirms or rolls back a release in place, rolls back one that is not, looks for a release, or changes nothing; the files and the calls decide which, and cause by cause what looking leaves |
| `UpdaterRecovery.ServiceRunsInstalled` | src/update.rs:506-588 | over any history in which no run loses a restart, whenever the service is not known to run the installed binary, `pending.json` exists |
| `UpdaterRecovery.LosesRestartExactly` | src/update.rs:384-400 | losing a restart is exactly the step to exclude: a run does so if and only if some next run can end with nothing pending and the service not on the installed binary |
| `UpdaterRecovery.RunRemembers` | src/update.rs:384-582 | every run leaves a state whose next run restarts a service that needs it, unless its probes, its mark and its restart all fail on a release that never landed |
| `UpdaterRecovery.ServiceCanBeLost` | src/update.rs:384-400 | on any fresh host with an update to install, three runs can do that |
| `UpdaterRecovery.CleanRunSettles` | src/update.rs:379-401 | after any history that loses no restart and misreports no rollback, one clean run leaves nothing pending, the service on the installed binary, and every swap recorded, or undone with the very binary it replaced and remembered as failed |
| `UpdaterRecovery.UnsettledExactly` | src/update.rs:379-588 | those two steps are exactly the ones to exclude: a run takes one if and only if a clean run after it can fail to settle the host |
| `UpdaterRecovery.CleanRunFinishes` | src/update.rs:379-401 | from any state at all, a clean run leaves no `pending.json` |
| `UpdaterRecovery.RunSound` | src/update.rs:379-588 | a run keeps every swap answered for (kept, recorded, or undone and recorded as failed) and every needed restart due if and only if it takes neither step |
| `UpdaterRecovery.RollBackIdempotent` | src/update.rs:547-588 | rolling back twice leaves the same host as once |
| `UpdaterRecovery.RollBackResumes` | src/update.rs:547-588 | after a rollback that failed or stopped anywhere, a clean one ends where a single clean one would have; only the time noted beside the failure can differ |
| `UpdaterRecovery.NextRunResumes` | src/update.rs:384-390 | the next clean run does roll back again, once the release was marked or the old binary is back |
| `UpdaterRecovery.FailedProbeSkipsRestore` | src/update.rs:564-587 | which calls make a rollback report success, whatever else fails, and then the old binary is back if and only if the probe for `.previous` answered |
| `UpdaterRecovery.RollbackCanBeMisreported` | src/update.rs:564-587 | a release that fails its health check and one failed probe are enough for a false report |
| `UpdaterFailures.RecordsFailedExactly` | src/update.rs:386-440 | from any state, a run records a release already on record as failed if and only if it re-confirms an unmarked one in place or sees one offered under the running version |
| `UpdaterFailures.FailedNeverRecorded` | src/update.rs:433-440 | over any history without a slip, no run records a failed release |
| `UpdaterFailures.DoomedNeverRecorded` | src/update.rs:386-389 | once failed, or marked for rollback, a release is never recorded again by any number of runs without a slip |
| `UpdaterFailures.SlipsExactly` | src/update.rs:547-588 | the slips are exactly the steps to exclude: a run slips if and only if some next run, offered releases under their own versions, can record a failed one |
| `UpdaterFailures.UnmarkedIsReconfirmed` | src/update.rs:558-569 | with no probe failing: a rollback that cannot write its mark and stops before the restore is followed by a run that records the failed release |
| `UpdaterFailures.MisreportedIsSeen` | src/update.rs:420-431 | although marked: a rollback whose probe failed is followed by a run that records the failed release on seeing its manifest again |
| `UpdaterSafety.RecordFailureKeeps` | src/update.rs:590-608 | recording a failure remembers the sequence, forgets none, and touches nothing else |
| `UpdaterOutcomes.FailuresExactly` | src/update.rs:482-489 | a run puts a release on record as failed if and only if it rolls it back or `stage` finds it unusable, with the record's calls completing, and it forgets none |
| `UpdaterOutcomes.UnusableIsRemembered` | src/update.rs:482-499 | an unusable release is refused as a bad release and remembered; one that cannot be fetched or staged, or whose old binary cannot be kept, is not held against it |
| `UpdaterOutcomes.RecordsExactly` | src/update.rs:420-431 | a run records a release, failed or not, if and only if it confirms it in place or sees it offered under the running version, and then `release.json` names it |
| `UpdaterOutcomes.UpdatedExactly` | src/update.rs:522-539 | an update is reported if and only if a release in place is confirmed and the pending record cleared; then the service runs the installed binary, and `release.json` names its version |
| `UpdaterOutcomes.StartEndings` | src/update.rs:348-378 | which runs are disabled, busy or cannot start, and that they change nothing |
| `UpdaterOutcomes.OfferEndings` | src/update.rs:403-419 | no manifest, a failed fetch, an untrusted manifest and one that is not newer, each exactly when |
| `UpdaterOutcomes.LookEndings` | src/update.rs:420-489 | what a newer manifest leads to, gate by gate: already running, failed before, waiting, outside the window, not installed, no space, a binary that does not match, a bad release, each exactly when |
| `UpdaterOutcomes.OnlyStopsInterrupt` | src/update.rs:348-608 | a run in which every call returns is never left interrupted |
| `UpdaterOutcomes.StagedIsCleaned` | src/update.rs:483-513 | no run that ends by itself leaves a staged file behind, unless its removal failed |
| `Updater.Updater.Run` | src/update.rs:348-401 | the run over the files leaves exactly the host and the ending of the model |
| `Updater.Updater.LookForUpdate` | src/update.rs:403-482 | the same for the manifest checks and gates |
| `Updater.Updater.Install` | src/update.rs:482-499 | the same for staging and keeping the previous binary |
| `Updater.Updater.SwapIn` | src/update.rs:500-518 | the same for the pending record and the swap |
| `Updater.Updater.Confirm` | src/update.rs:522-545 | the same for restart, health check and recording |
| `Updater.Updater.RollBack` | src/update.rs:551-588 | the same for the rollback |
| `Updater.Updater.RecordFailure` | src/update.rs:591-608 | the same for the failure record |
| `SubmissionSafety.EffectiveOncePerEpoch` | src/runtime.rs:170-207 | of any two of this validator's extrinsics that take effect, the later one answers an epoch that ended strictly between their blocks, so no epoch takes effect twice and the epochs that do increase; over all runs, failures, timeouts, interruptions and late inclusions |
| `SubmissionSafety.AlwaysInv` | src/burn.rs:458-489 | in every reachable state at most one extrinsic can still take effect, the guard holds until its era ends, and its epoch ended after every earlier landing |
| `SubmissionSafety.MineKeeps` | src/burn.rs:533-544 | a block that includes, drops or ignores pooled extrinsics keeps that, and revives none |
| `SubmissionSafety.SubmitKeeps` | src/burn.rs:491-646 | guard before broadcast, clear after finalized success: wherever a submission stops, the protocol invariant holds |
| `SubmissionSafety.NothingAlive` | src/burn.rs:466-489 | when the guard allows a broadcast, no earlier extrinsic can still take effect |
| `SubmissionSafety.EnterKeeps` | src/runtime.rs:177-199 | broadcasting with `LastUpdate` before the epoch end keeps landings separated by epoch ends |
| `SubmissionSafety.AcceptedIsCurrent` | src/chain.rs:266-268 | a summary accepted against a consistent snapshot names a real epoch step not after the finalized block |
| `SubmissionSafety.RunKeeps` | src/runtime.rs:120-210 | every run keeps the protocol invariant |
| `SubmissionSafety.BroadcastsExactlyWhenGuardAllows` | src/burn.rs:466-489 | an otherwise ready run broadcasts exactly once if there is no guard or an own one that has expired, and not otherwise |
| `SubmissionSafety.WatchedSuccessSettles` | src/burn.rs:617-639 | a success that is final clears the guard and records the epoch |
| `SubmissionSafety.OneSummaryPerEpoch` | src/runtime.rs:130-168 | all submissions for one epoch, over any history, carry one summary ID and digest |
| `SubmissionSafety.SavedBurnIsCovered` | src/runtime.rs:177-207 | a burn epoch is saved only when `LastUpdate` is at least that recent |
| `SavedBurn.SavedBurnHasCause` | src/runtime.rs:177-207 | behind every saved burn epoch there is an extrinsic that took effect at or after it, or a move of `LastUpdate` without weights at or after it |
| `SavedBurn.SavedBurnMeansWeights` | src/runtime.rs:177-207 | over any history without a registration a saved burn epoch means weights at least that recent: in effect when the history began, or sent in it |
| `SavedBurn.SavesUnsentExactly` | src/runtime.rs:170-207 | an otherwise ready run settles its epoch without a broadcast if and only if weights took effect at or after the epoch's end, or `LastUpdate` moved there without weights |
| `SavedBurn.RegistrationPassesForWeights` | src/runtime.rs:177-207 | the input that breaks the stronger reading: one registration, then one run, saves the burn with nothing sent and nothing in effect |
| `SavedBurn.LateWeightsPassForTheNext` | src/runtime.rs:177-207 | another: weights for epoch 100 taking effect in block 106 settle epoch 105, for which nothing was sent |
| `RunOutcomes.NeverSavesUnsent` | src/runtime.rs:172-207 | whichever calls fail, while the last update of the UID holding this hotkey is below the epoch end no run settles the epoch without sending |
| `RunOutcomes.SendsExactly` | src/runtime.rs:120-207 | a run sends if and only if the calls before the broadcast complete, the broadcast takes effect, the summary describes the snapshot and is in time, the epoch is open and due for the UID of this hotkey, and the guard permits it |
| `RunOutcomes.FinishedMeansSettled` | src/runtime.rs:204-209 | a run that finishes has its epoch settled on disk, and has cleared its guard if it sent |
| `RunOutcomes.RejectedSummaryTouchesNothing` | src/runtime.rs:129 | a summary that does not describe the snapshot has no effect at all, and is refused for the check it fails |
| `RunOutcomes.UnreadyTouchesNothing` | src/runtime.rs:121-130 | without the lock, a readable snapshot, a summary and a state that loads, nothing is written or sent |
| `RunOutcomes.EarlyEndings` | src/runtime.rs:121-130 | why a run is refused before it acts on a summary, each exactly when |
| `RunOutcomes.UntimelyIsRefused` | src/runtime.rs:134-146 | an older summary, or another one for the saved epoch, is refused and changes nothing |
| `RunOutcomes.TimelyIsSaved` | src/runtime.rs:148-160 | after a run on a summary in time, the summary is on record whatever came of the submission |
| `RunOutcomes.SettledIsLeftAlone` | src/runtime.rs:170 | a settled epoch is finished with nothing changed |
| `RunOutcomes.UnregisteredOnlySaves` | src/runtime.rs:172-176 | without a UID for its hotkey the validator only records the summary |
| `RunOutcomes.OpenEndings` | src/runtime.rs:177-221 | an open epoch is settled when the last update of this hotkey's UID is at or after it, rate-limited exactly until that update plus the limit (never for a UID that set no weights), or refused without a price |
| `RunOutcomes.GuardEndings` | src/burn.rs:466-489 | which guard refuses a submission that is due, until which block, and that only the summary is written then |
| `Submission.PositionIsUid` | src/runtime.rs:172-176 | the validator's UID is the first one that holds its hotkey, if any does |
| `SubmissionSafety.StateAdvances` | src/runtime.rs:134-159 | the saved epoch never decreases, the ID and digest saved for an epoch never change, the burn epoch never decreases, and every state written loads |
| `SubmissionSafety.RunAgrees` | src/runtime.rs:120-210 | the one-run form of the above; a state that does not load is left alone and nothing is sent |
| `Validator.Validator.RunOnce` | src/runtime.rs:120-210 | the run over the files and the chain leaves exactly the world and the ending of the model |
| `Validator.Validator.SettleEpoch` | src/runtime.rs:170-209 | the same from the burn check to the final save |
| `Validator.Validator.Submit` | src/burn.rs:491-646 | the same for the guarded submission |
| `StateStore.LoadAcceptsExactly` | src/state.rs:114-168 | a saved state reads back if and only if its summary is whole, non-empty and not behind its burn; nothing else is ever read |
| `StateStore.LoadsExactly` | src/state.rs:114-160 | a file loads as a state if and only if it is that state saved, or is missing and the state is the default |
| `StateStore.LoadRefusal` | src/state.rs:114-160 | why any other file does not load, check by check |
| `ChainView.Read` | src/chain.rs:241-280 | paging the roster entry by entry and the final checks give the snapshot of the model |
| `ChainView.SnapshotIsConsistent` | src/chain.rs:257-279 | an accepted snapshot has its last step at or before its block, a positive tempo, and a hotkey and last update for every UID |
| `ChainView.ReadsExactly` | src/chain.rs:195-280 | a snapshot is read if and only if every UID has an entry, the epoch adds up to the block and the lengths agree; it is then what storage holds, the last entry for a UID winning |
| `ChainView.ReadRefusal` | src/chain.rs:257-271 | which check a storage fails, the lowest UID without an entry first |
| `ChainView.HotkeysComplete` | src/chain.rs:257-262 | a missing hotkey is reported for the lowest UID without one |
| `ChainView.AcceptsExactly` | src/chain.rs:79-107 | a summary is accepted if and only if tempo, epoch end, block and epoch start match and every miner's hotkey holds its UID; otherwise the first check that fails is reported |
| `ChainView.FirstUnknownIsFirst` | src/chain.rs:96-104 | the UID reported is that of the first listed miner whose hotkey does not hold it |
| `RevealSchedule.RevealBlock` | src/commit_reveal.rs:45-75 | the block-by-block simulation returns exactly the closed form, for every tempo and every error |
| `RevealSchedule.RevealIsFirst` | src/commit_reveal.rs:61-65 | the block returned is the first simulated one at which reveals see the target index |
| `RevealSchedule.BoundIsEnough` | src/commit_reveal.rs:58-74 | the simulation bound is exceeded if and only if a forced step of a tempo-1 subnet jumps over the target, never with the last epoch at or before the block; otherwise the answer is within first + period * (MAX_TEMPO + 1) + 1 |
| `RevealSchedule.SkippedForever` | src/commit_reveal.rs:61-74 | in that case no simulated block ever sees the target |
| `RevealSchedule.FutureEpochExceedsBound` | src/commit_reveal.rs:74 | a concrete clock, its last epoch ahead of its block, that exceeds the bound |
| `RevealSchedule.IndexStep` | src/commit_reveal.rs:61-72 | the lookahead index never decreases and rises by two exactly when a tempo-1 step is forced unannounced |
| `RevealSchedule.NoSkip` | src/commit_reveal.rs:61-72 | with the last epoch at or before the block the index skips no value |
| `RevealSchedule.UsualClosedForm` | src/commit_reveal.rs:45-75 | for an ordinary tempo the answer is first + period * tempo when an epoch is due, else the first due block + (period - 1) * tempo |
| `RevealSchedule.RevealFromFirstCall` | src/commit_reveal.rs:39-75 | the answer in plain arithmetic from the first block that calls for an epoch, for every ordinary tempo, forced steps included |
| `RevealSchedule.RefusesExactly` | src/commit_reveal.rs:45-60 | the inputs refused before simulating, and why |
| `RevealSchedule.LaterPeriodRevealsLater` | src/commit_reveal.rs:45-75 | a longer reveal period reveals strictly later |
| `RevealSchedule.AfterSteps` | src/commit_reveal.rs:66-72 | the simulated clock k blocks after the j-th step |
| `RevealSchedule.RoundCoversReveal` | src/commit_reveal.rs:140-144 | the unchecked product cannot overflow, overflow of the sum is refused, and the drand round is the one in force at the reveal time |
| `WeightVector.ComputeWeights` | src/burn.rs:182-204 | accumulating record by record gives the vector of the model, refusing the first UID that is not a chain UID |
| `WeightVector.OwnerAlone` | src/burn.rs:187-190 | a full burn, or nothing scored, is the owner alone with 65535, whatever the records name |
| `WeightVector.RefusesExactly` | src/burn.rs:192-195 | any other vector is refused exactly when a record names no chain UID, and the first such is reported |
| `WeightVector.SharesConserve` | src/burn.rs:187-197 | the exact shares sum to total * BPS, one per UID, even when the owner mines or a UID repeats; refused exactly when some UID exceeds u16 |
| `WeightVector.SharesAreExact` | src/burn.rs:191-197 | what is accumulated for a UID is its scores times (BPS - burn), plus the burned total for the owner |
| `WeightVector.WeightIsRounded` | src/burn.rs:198-203 | every UID's weight is its exact share scaled to 65535 against the largest share, to the nearest; 0 means dropped |
| `WeightVector.RoundedIsNearest` | src/burn.rs:201 | the rounding error is at most half a unit, a half is rounded up, and the `as u16` cast loses nothing |
| `WeightVector.WeightsNormalise` | src/burn.rs:179-204 | emitted UIDs strictly ascend, every weight is in 1..=65535, and the largest is exactly 65535 |
| `WeightVector.TopShareIsAttained` | src/burn.rs:198 | the top share bounds every share, and the UID that has it is emitted with 65535 |
| `WeightVector.WeightsApproximateShares` | src/burn.rs:182-204 | with n UIDs, exact share S of T and weight w of W: 2 * abs(w * T - S * W) <= (n + 1) * T for every UID |
| `WeightVector.LargerShareLargerWeight` | src/burn.rs:198-203 | a larger share never gets a smaller weight |
| `WeightVector.WeightsIgnoreOrder` | src/burn.rs:191-203 | reordering the records changes nothing that is submitted |
| `WeightVector.NoBurnIsTheScores` | src/burn.rs:182-204 | with no burn, distinct UIDs and a best score of 65535, every UID's weight is its score |
| `WeightVector.ProductsFit` | src/burn.rs:187-201 | scores of at most 65535 keep every product within u128 |
| `BurnEconomics.MinersGetHalf` | src/burn.rs:138-141 | the miners' alpha is half of what the owner cut leaves of the emission, rounded down: half of all without a cut, nothing at a full one |
| `BurnEconomics.BurnForTargetMeets` | src/burn.rs:134-172 | priced from that half, the burn is the largest multiple of 100 bps that leaves the miners the target, 0 when their value is not above it; refused exactly when the pool holds no alpha or a checked product exceeds u128 |
| `BurnEconomics.BurnIsOptimal` | src/burn.rs:165-171 | the optimality for any value and target |
| `BurnEconomics.UncheckedProductsFit` | src/burn.rs:138-165 | no unchecked product exceeds u128 |
| `BurnEconomics.HigherTargetBurnsLess` | src/burn.rs:148-172 | the burn never rises with the target |
| `BurnEconomics.RicherMinersBurnMore` | src/burn.rs:134-172 | the burn never falls with the emission, the TAO reserve or the TAO price, nor with a smaller alpha reserve |
| `BurnEconomics.NearbyValidatorsAgree` | src/burn.rs:78-80 | priced values within 1% of the larger give burns at most one 100-bps step apart, across the no-burn threshold too |
| `Payout.MinersArePaidTheTarget` | src/burn.rs:134-204 | with the burn chosen for a target, some positive score and an owner that does not mine, the miners' part of the emitted vector is worth at least the target, or everything when that is less, and at most one 100-bps step of the emission more, both up to (n + 1) / 2 weight units for n UIDs |
| `Payout.MinersKeepUnburned` | src/burn.rs:182-204 | up to that rounding, the miners' part of the emitted vector is the fraction not burned |
| `Calendar.ClosedFormCountsDays` | src/update.rs:912-924 | the era arithmetic gives the date reached by counting Gregorian days one by one from 1970-01-01 |
| `Calendar.NextDay` | src/update.rs:912-924 | the date of day d + 1 is the Gregorian successor of the date of day d |
| `Calendar.DatesIncrease` | src/update.rs:912-924 | later days get later dates |
| `Calendar.FormatRoundTrips` | src/update.rs:925-930 | the text of every timestamp is digits with the separators in place, the year at least four wide, and reads back to its date and second of the day, years beyond 9999 included |
| `Calendar.YearIsNotPadded` | src/update.rs:926 | the text has exactly 20 characters up to the year 9999, and no leading zero after it |
| `AsciiJson.ToAscii` | src/state.rs:70-83 | the character loop produces the escaped text, all of it ASCII |
| `AsciiJson.EscapingIsTransparent` | src/state.rs:68-83 | every well-formed JSON string literal decodes to the same text before and after the pass, surrogate pairs included (section 7 of RFC 8259) |
| `AsciiJson.EscapeReadsBack` | src/state.rs:75-79 | a reader sees an escaped character as that character, whatever follows |
| `AsciiJson.EscapeIsLowerHex` | src/state.rs:75-79 | an escape is one `\u` below U+10000 and two above, each with four lower-case hexadecimal digits |
| `AsciiJson.AsciiUnchanged` | src/state.rs:73-74 | ASCII text passes through unchanged |
| `AsciiJson.TransparentExactly` | src/state.rs:70-83 | of all literals, the pass changes the meaning of exactly those that only backslashes before raw non-ASCII characters of one UTF-16 unit make malformed |

## Left out

- UpdaterRecovery.ServiceRunsInstalled: for histories in which no run loses a restart; after such a run it is false, see `UpdaterRecovery.LosesRestartExactly`.
- UpdaterRecovery.CleanRunSettles: for histories in which no run loses a restart or misreports a rollback; after such a run it is false, see `UpdaterRecovery.UnsettledExactly`.
- UpdaterFailures.FailedNeverRecorded: for histories without a slip, each sequence published under one version, and a first host on which no failed release above the installed sequence has the installed version; without these it is false, see `UpdaterFailures.SlipsExactly`.
- SubmissionSafety.EffectiveOncePerEpoch: assumes an honest node with a monotone finalized head, and that only this validator signs with its hotkey.
- SubmissionSafety.OneSummaryPerEpoch: summaries are assumed to have a non-empty ID and digest, as the summary parser (not part of this model) requires.
- WeightVector.ComputeWeights: does not model u128 wrap-around of the accumulated shares, which scores of at most 65535 rule out (`WeightVector.ProductsFit`).
- Fetching over HTTP and files, RPC storage reads, transaction building and event decoding: only success, failure or an uncertain outcome.
- Signatures, hashes, address encoding, timelock encryption and wallet files: library code; a verified manifest or a parsed summary is an input.
- Scoring: it lives in the sn46-shared crate, which is not part of this model; an extrinsic carries the ID and digest of the summary whose scores it holds.
- JSON parsing and key order beyond string literals: library behaviour.
- The temporary file, sync and rename inside `write_json` and `write_durably`: one atomic replace.
- Health polling, process spawning, timeouts and lock waiting: a healthy, unhealthy or failed result.
- Power loss: a completed removal of `pending.json` counts as durable although no directory sync follows it.
- `update-status.json`, the maintenance window and the spread: only that they gate a swap.
- Command line, logging, signals, installer, signing script and systemd units: plumbing around the modelled steps.
