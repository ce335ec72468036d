# PrintSphere, verified in Dafny

PrintSphere is the firmware of a round desk display for Bambu Lab printers. This project models its
densest parts and proves what they are for, for all inputs, all runs and all reachable states.

Run `dafny verify dfyconfig.toml` to check everything.

## How the project is laid out

A part that the firmware writes as state changing in place comes in two layers. One file holds the
meaning, as functions over values; the laws about it are lemmas, in a file of their own where there are
many. Another file holds the class or the loops that do the work, and its methods are proved equal to
those functions, so the laws hold of the loops.

| part | meaning and laws | in place |
|---|---|---|
| local MQTT session | `Ticks`, `MqttSession`, `SessionSafety`, `SessionOutcomes`, `Watchdog` | `PrinterClient` |
| what the display shows | `BambuStatus`, `PrinterState`, `UiState`, `UiStateLaws`, `EmptyStatusLaws`, `StatusWords`, `LabelLaws`, `StatusMerge`, `StatusMergeLaws`, `IgnoredSourceLaws`, `SourceLaws` | `SnapshotObject` |
| rotation of the AMOLED panel | `Frames` | `RotationPanel` |
| Improv serial provisioning | `ImprovProtocol`, `ImprovLaws` | `SerialProvisioner` |
| local status reports | `ReportFold`, `ReportLaws`, `ReportOutcomes` | `PrinterRuntime` |
| AMS trays | `AmsTable`, `AmsLaws` | `AmsReport` |
| error texts | `ErrorTable`, `ErrorTableLaws`, `ErrorTextLaws`, `ErrorDetailLaws` | `ErrorLookup` |
| debug log | `DebugLog`, `Scrubbers`, `KeyScrubber`, `AddressScrubber`, `FieldScrubber`, `LinkScrubber` | the same files, `LineScrubbers` |
| printer profiles | `ProfileStore`, `Numbers` | `ConfigStore` |
| pool of printer clients | `PoolSync` | `ClientPool` |
| initial flash image | `FlashMerge` | `FlashMerge` |
| battery sensing | `PowerSense` | `PowerSense` |

`Text` and `Bytes` hold what several parts share.

## Where the code and its intention part

The model follows the code. Where a natural promise turned out false of it, a lemma gives an input that
shows so and another says exactly when the promise holds.

- Resolving the shown state twice is not always resolving it once. `UiStateLaws.IdempotentExactly` names
  the two families of exceptions among snapshots with a status text,
  `EmptyStatusLaws.IdempotentWithoutStatusExactly` the two among those without one. Each family is a guard
  on the fields of the input, and `StaleFinishExists`, `EarlyDoneLabelExists`, `ErrorWhileActiveExists` and
  `LabelLagsBehindExists` give one input of each.
- Three steps of the merge never change anything: the local sub-state override, the fallbacks for missing
  texts and the status fallback of the error bundles (`SourceLaws.SubstateOverrideIsDead`,
  `TextFallbacksAreDead`, `StatusMergeLaws.ErrorFallbackIsDead`). `SourceLaws.MergeIsSelection` is what is left.
- A source that the mode ignores still shows through its printer model, when the source in use does not
  know its own: `IgnoredSourceLaws.IgnoredModelLeaks`. `ShownDetailAgreesExactly` and
  `ReadingsAgreeExactly` say when it makes no difference.
- The Improv parser tests the version on byte 7 instead of 6, because the header constant counts its
  terminating NUL: `ImprovLaws.RpcIsUnreachable`. With the test on byte 6 the full round trip holds.
- A paused job in error loses its error exactly when the state name in force no longer reads as paused in
  its first 15 characters, all that the status buffer keeps: `ReportLaws.PauseFaultStepExactly`,
  `PauseFaultAlongRunExactly`, and `LongStateNameLosesTheFault` for an input.
- The shipped error table starts with a byte order mark, which makes its first line a row instead of a
  comment. Which of the two cases of `ErrorTableLaws.MarkedHeaderDecidesTheLookup` applies depends on
  the sign of a plain `char`, which is the compiler's choice and a parameter here. The other laws are
  about tables in order, such as the shipped one without that line.
- The offsets of the debug log wrap at 2^32: `DebugLog.RingIsTheLogUntilTheWrap`.
- Three filters of the debug log let something through.
  - An address with a dot behind it, as at the end of a sentence: `AddressScrubber.AddressBeforeAPeriodStays`;
    `SeparatedAddressExactly` says that nothing else makes a difference.
  - The value behind a key that begins on the closing quote of another one: `FieldScrubber.ChainedKeyShows`;
    `HiddenExactly` says on which lines, which are not all the lines with such keys.
  - A signed link in the first seven columns: `LinkScrubber.SignedLinkStays`; `NoSignedLinkExactly` says which
    lines keep one.
- The local client can show two active trays: `AmsLaws.LocalCanShowTwoActiveTrays`; `LocalStaysRightExactly`
  says which reports keep it right. The cloud client cannot.
- Whether a flash merge succeeds can depend on the order of its segments, though its result cannot:
  `FlashMerge.OrderCanDecideSuccess`. It does not depend on it exactly when overlapping segments agree on
  every byte they share, blank ones included: `FlashMerge.EveryOrderSucceedsExactly`.

## What is assumed

- Each event handler, hint and loop iteration is one atomic step. SUBACK is only seen on a connected
  client (OASIS MQTT 3.1.1, sections 3.1 and 3.8.4). True time gaps between ticks stay below 2^31, except
  in `Ticks.TickTestIsRightExactly`, which is about all gaps.
- The panel queue holds at most one transfer when the next command is sent, and a draw starts only after
  the transfers of the one before it have completed. A transfer may read its buffer at any moment until
  then.
- Writes to the key-value store succeed.
- Reports arrive as decoded optional fields. Lookup tables of stage labels, model names and capabilities
  are parameters or plain functions.

## Model

| member | source | states |
|---|---|---|
| `SessionSafety.RunKeepsInv` | main/src/printer_client.cpp:1425-1741 | in every reachable session state: delayed pushall sent implies initial sync sent implies subscription acknowledged implies connected implies a live client that has been established; a forced rebuild is a requested one |
| `SessionSafety.NextKeepsInv` | main/src/printer_client.cpp:2651-2950 | every handler, hint and loop iteration keeps that chain of flags, SUBACK arriving only on a connected client |
| `SessionSafety.SubackRuleIsNeeded` | main/src/printer_client.cpp:1491-1522 | a step keeps the chain if and only if it obeys the SUBACK rule (OASIS MQTT 3.1.1, sections 3.1 and 3.8.4) |
| `SessionSafety.BootKeepsInv` | main/src/printer_client.cpp:2415-2450 | the chain holds at boot |
| `SessionSafety.AtMostOneLiveClient` | main/src/printer_client.cpp:2723-2850 | over every run at most one MQTT client is alive, and it is the one the object points to: none leaks |
| `SessionSafety.CreationIsGuarded` | main/src/printer_client.cpp:2681-2850 | a new client appears only in a loop iteration, with network and credentials ready, no rebuild pending, and from no client or right after a reconfiguration dropped the old one |
| `SessionSafety.ConnectedSessionLossHasACause` | main/src/printer_client.cpp:2662-2720 | a connected session ends only by an event of its own client, a reconfiguration, a lost network or a forced rebuild, never by an ordinary pending rebuild |
| `SessionSafety.ForceHasACause` | main/src/printer_client.cpp:2864-2895 | only the silence watchdog and the initial-sync timeout force a rebuild |
| `SessionSafety.DueRebuildRecovers` | main/src/printer_client.cpp:2662-2675 | a due rebuild drops the old client in one iteration and the next one starts exactly one fresh client |
| `Watchdog.DeadSessionIsDropped` | main/src/printer_client.cpp:2873-2899 | over every run with gaps below 2^31: a listening session whose reports stop is asked to end, by force, once one iteration finds the silence as long as the probe window and a later one the probe unanswered for the reconnect window |
| `SessionOutcomes.SilenceOutcome` | main/src/printer_client.cpp:2873-2950 | an iteration of a session with status, in full and with the literal windows: a probe after 30 s of silence (60 s in developer mode), a forced rebuild 15 s (30 s) after an unanswered one, and otherwise the probe as it was |
| `SessionOutcomes.FirstStatusOutcome` | main/src/printer_client.cpp:2854-2871 | an iteration of a session that waits for its first status: a second request after 3 s, a forced rebuild after 12 s |
| `SessionOutcomes.StallOutcome` | main/src/printer_client.cpp:2901-2925 | an iteration of a session that is down: after 20 s a rebuild is asked for, with the delays of the ladder, capped once established |
| `SessionOutcomes.PendingRebuildOutcome` | main/src/printer_client.cpp:2662-2675 | a pending rebuild holds everything up until it is due and then takes the session down; a healthy session waits for none but a forced one |
| `SessionOutcomes.UnreadyOutcome` | main/src/printer_client.cpp:2681-2720 | without credentials nothing is done but to forget the model, without network the session goes |
| `SessionOutcomes.CreationOutcome` | main/src/printer_client.cpp:2723-2850 | what each outcome of creating a client leaves behind |
| `SessionOutcomes.ReconfigureOutcome` | main/src/printer_client.cpp:2652-2661 | a new configuration takes the session down before anything else happens |
| `SessionOutcomes.AwaitingAcknowledgement` | main/src/printer_client.cpp:2854-2950 | between connection and acknowledgement no monitor acts |
| `SessionOutcomes.ConnectedOutcome` | main/src/printer_client.cpp:1431-1490 | the whole state after CONNECTED |
| `SessionOutcomes.SubscribedOutcome` | main/src/printer_client.cpp:1491-1522 | the whole state after SUBSCRIBED |
| `SessionOutcomes.DisconnectedOutcome` | main/src/printer_client.cpp:1523-1551 | the whole state after DISCONNECTED |
| `SessionOutcomes.DataOutcome` | main/src/printer_client.cpp:1552-1598 | the whole state after DATA: any whole report ends the silence, the first one calls off a rebuild, a status report ends the wait for the first status |
| `SessionOutcomes.ErrorOutcome` | main/src/printer_client.cpp:1599-1737 | the whole state after ERROR, with the delays of the ladder |
| `SessionOutcomes.HintOutcomes` | main/src/printer_client.cpp:2589-2650 | the whole state after a configuration, a network hint and a cloud hint |
| `SessionOutcomes.StaleEventsDoNothing` | main/src/printer_client.cpp:1425-1430 | nothing that comes from a client that was replaced has any effect |
| `Ticks.TickElapsedIsTrueElapsed` | main/src/printer_client.cpp:457-462 | the signed 32-bit tick comparison tells the true elapsed time across wrap-around, for gaps below 2^31 |
| `Ticks.TickTestIsRightExactly` | main/src/printer_client.cpp:457-462 | the tick test is right for every duration if and only if the true gap is below 2^31 or is 2^31 - 1 modulo 2^32 |
| `Ticks.HalfRangeGapReadsAsFuture` | main/src/printer_client.cpp:457-462 | at a gap of 2^31 no duration at all counts as elapsed |
| `Watchdog.ReconnectIsNeverPremature` | main/src/printer_client.cpp:2873-2895 | over every run with gaps below 2^31: a no-data reconnect comes 45 s (90 s for developer-mode models) or more after every report ever accepted, and after a probe that is old enough |
| `Watchdog.ReconnectTimes` | main/src/printer_client.cpp:142-162 | silence before the probe and silence after the probe are each at least their configured length |
| `Watchdog.RunTracks` | main/src/printer_client.cpp:1552-1598 | the wrapped tick fields always encode the true times of the latest restart of silence and of the latest probe |
| `Watchdog.StepTicks` | main/src/printer_client.cpp:2873-2899 | which steps restart the silence, which send a probe, and that every other step leaves both ticks or zeroes them |
| `Watchdog.LastReportIsLatest` | main/src/printer_client.cpp:1583-1591 | no accepted report is later than the one the watchdog counts from |
| `PrinterClientObject.PrinterClient.constructor` | main/src/printer_client.cpp:2415-2450 | a new object is the boot state of the session machine |
| `PrinterClientObject.PrinterClient.ScheduleClientRebuild` | main/src/printer_client.cpp:2535-2566 | the in-place scheduling of a rebuild: a pending request keeps its clock unless the new one is forced, force is never taken back, and the delay is capped at 5 s once a session was established |
| `PrinterClientObject.PrinterClient.CancelClientRebuild` | main/src/printer_client.cpp:2568-2574 | clears request, force and delay together |
| `PrinterClientObject.PrinterClient.Stop` | main/src/printer_client.cpp:2415-2450 | destroys the client and resets every flow flag and timer of its session |
| `PrinterClientObject.PrinterClient.HandleConnected` | main/src/printer_client.cpp:1431-1490 | CONNECTED as a step of the machine |
| `PrinterClientObject.PrinterClient.HandleSubscribed` | main/src/printer_client.cpp:1491-1522 | SUBSCRIBED as a step: subscription and initial sync are recorded together, and a pending rebuild is cancelled |
| `PrinterClientObject.PrinterClient.HandleDisconnected` | main/src/printer_client.cpp:1523-1551 | DISCONNECTED as a step; events of a stale client are ignored |
| `PrinterClientObject.PrinterClient.HandleData` | main/src/printer_client.cpp:1552-1598 | DATA as a step: a report refreshes the silence clock and withdraws the probe |
| `PrinterClientObject.PrinterClient.HandleError` | main/src/printer_client.cpp:1599-1737 | ERROR as a step |
| `PrinterClientObject.PrinterClient.SetNetwork` | main/src/printer_client.cpp:2629-2650 | the network hint as a step |
| `PrinterClientObject.PrinterClient.CloudPresenceHint` | main/src/printer_client.cpp:2589-2611 | the cloud presence hint as a step: it restarts a pending rebuild with the short delay, and never requests one |
| `PrinterClientObject.PrinterClient.ConfigureConnection` | main/src/printer_client.cpp:1259-1270 | a new configuration as a step |
| `PrinterClientObject.PrinterClient.Connect` | main/src/printer_client.cpp:2652-2850 | the first half of a loop iteration: reconfiguration, pending rebuild, readiness, creation |
| `PrinterClientObject.PrinterClient.CheckInitialSync` | main/src/printer_client.cpp:2854-2871 | the delayed pushall and the initial-sync timeout |
| `PrinterClientObject.PrinterClient.CheckWatchdog` | main/src/printer_client.cpp:2873-2899 | the two-phase silence watchdog in place; SessionOutcomes.SilenceOutcome and Watchdog.DeadSessionIsDropped say what it comes to |
| `PrinterClientObject.PrinterClient.CheckStall` | main/src/printer_client.cpp:2901-2925 | the disconnected-stall back-off |
| `PrinterClientObject.PrinterClient.CheckPeriodicPushall` | main/src/printer_client.cpp:2926-2950 | the periodic pushall of a live job |
| `PrinterClientObject.PrinterClient.LoopOnce` | main/src/printer_client.cpp:2652-2950 | one whole iteration of the client loop equals one step of the machine |
| `UiStateLaws.IdempotentExactly` | main/src/status_resolver.cpp:925-937 | for every snapshot with a raw status: resolving twice equals resolving once if and only if the job is a plain stop, or the input is outside two families, both guards on its fields: a finished lifecycle that resolves to an error while the job looks active, and a status that reads as done with nothing else to show before the job is complete |
| `EmptyStatusLaws.IdempotentWithoutStatusExactly` | main/src/status_resolver.cpp:925-937 | for every snapshot without a raw status, whose lifecycle stands in for it: resolving twice equals resolving once if and only if the job is a plain stop, or the input is outside two other families: an error on a job that looks active, and a label that follows its lifecycle one application late |
| `UiStateLaws.GuardMeansDoneTooSoon` | main/src/status_resolver.cpp:849-899 | the guard on the input holds exactly when the label says done before the job is done |
| `UiStateLaws.StaleFinishExists` | main/src/status_resolver.cpp:835-848 | a concrete input of the first family on which the second application differs |
| `UiStateLaws.EarlyDoneLabelExists` | main/src/status_resolver.cpp:849-899 | a concrete input of the second family: a status that reads as finished with time remaining |
| `EmptyStatusLaws.ErrorWhileActiveExists` | main/src/status_resolver.cpp:822-833 | a concrete input of the third family: a printing job with an error and no status text |
| `EmptyStatusLaws.LabelLagsBehindExists` | main/src/status_resolver.cpp:835-848 | a concrete input of the fourth: an idle lifecycle with half the job done is labelled idle first and printing the next time round |
| `UiStateLaws.EarlyLabelCase` | main/src/status_resolver.cpp:660-680 | why: the label done zeroes the remaining time, which completes the job the next time round |
| `UiStateLaws.NonErrorStopIsIdempotent` | main/src/status_resolver.cpp:796-820 | a cancelled job resolves idempotently, whatever its raw status |
| `EmptyStatusLaws.LifecycleMovesOnce` | main/src/status_resolver.cpp:835-848 | without a raw status, the lifecycle of a job that is neither finished nor in error moves at most once, and the job stays as active as it was |
| `UiStateLaws.ResultIsCoherent` | main/src/status_resolver.cpp:822-847 | has_error implies the error lifecycle; print_active implies an active or error lifecycle; finished implies inactive and error-free; warn_hms implies active and error-free |
| `UiStateLaws.Decisions` | main/src/status_resolver.cpp:925-937 | exactly which fields resolving changes, and what each is decided from |
| `UiStateLaws.ClassifiersAreStable` | main/src/status_resolver.cpp:87-116 | resolving keeps every text the classifiers read |
| `UiStateLaws.SignalsOfResolved` | main/src/status_resolver.cpp:741-794 | only the remaining time can move the signals of a resolved snapshot |
| `UiStateLaws.DoneLabelIsFinished` | main/src/status_resolver.cpp:868-899 | the label done is never shown on an error and only for a finished job |
| `UiStateLaws.PrettyStageIsNotDone` | main/src/status_resolver.cpp:627-641 | no stage text turns into the label done |
| `LabelLaws.LabelTable` | main/src/status_resolver.cpp:868-899 | the label of every snapshot as a table over its fields, each classifier with its own word |
| `LabelLaws.FailedExactly` | main/src/status_resolver.cpp:868-899 | failed is shown if and only if there is an error and no filament change or download |
| `LabelLaws.FlagsTable` | main/src/status_resolver.cpp:822-833 | has_error, print_active, warn_hms and the download flag of every snapshot, from its fields |
| `LabelLaws.LifecycleTable` | main/src/status_resolver.cpp:835-848 | the lifecycle of every snapshot as a table over its fields |
| `LabelLaws.DetailTable` | main/src/status_resolver.cpp:660-680 | the detail text and the remaining time of every snapshot |
| `LabelLaws.StopTable` | main/src/status_resolver.cpp:796-820 | a job the user stopped: which snapshots are one, and all that is left of it |
| `LabelLaws.TextsRead` | main/src/status_resolver.cpp:87-116 | which text is read for the stage and the status, and what stands in for a missing status |
| `LabelLaws.PercentRounds` | main/src/status_resolver.cpp:741-748 | the progress in whole percent, rounded and kept within 0 and 100 |
| `StatusWords.StatusClasses` | main/src/bambu_status.cpp:66-101 | which words make a status failed, finished, paused, preparing or printing |
| `StatusWords.StatusNames` | main/src/bambu_status.cpp:103-165 | what every status text is called and which lifecycle it stands for |
| `StatusWords.HandOffWords` | main/src/status_resolver.cpp:913-923 | which stages a finished download hands off to |
| `StatusWords.TitlecaseAt` | main/src/status_resolver.cpp:580-626 | a text shown as it came: every word in capitals at its first letter only, underscores and hyphens as blanks |
| `StatusWords.ShortenKeeps` | main/src/status_resolver.cpp:580-591 | a long text is cut and ends in dots where there is room for them |
| `StatusWords.SetupWords` | main/src/status_resolver.cpp:175-200 | which words make a stage a setup stage, the ones that only repeat a shorter one left out |
| `SnapshotObject.LiveSnapshot.Resolve` | main/src/status_resolver.cpp:925-937 | the in-place rewriting of the snapshot equals the function the laws are about; LabelLaws tabulates its every output over the fields of the input |
| `SnapshotObject.LiveSnapshot.BuildUiStateSignals` | main/src/status_resolver.cpp:741-794 | the signals gathered one by one, with the download flag dropped half-way, are those of the snapshot as it was; nothing else changes |
| `SnapshotObject.LiveSnapshot.StopWithoutError` | main/src/status_resolver.cpp:796-820 | the non-error stop in place |
| `SnapshotObject.LiveSnapshot.ApplyActiveAndErrorFlags` | main/src/status_resolver.cpp:822-833 | the flags in place |
| `SnapshotObject.LiveSnapshot.ResolveDetail` | main/src/status_resolver.cpp:660-680 | the detail text and the remaining time in place |
| `StatusMergeLaws.SourcesCohere` | main/src/status_resolver.cpp:940-1079 | cloud-preferred hybrid status from the cloud forces cloud metrics, otherwise local status forces local metrics; a status source implies a metrics source |
| `StatusMergeLaws.SourcesOfMerge` | main/src/status_resolver.cpp:971-985 | the recorded sources are the ones the adapters select |
| `StatusMergeLaws.StrongerBundlesAreUsable` | main/src/status_resolver.cpp:297-358 | a usable error bundle implies a usable status, and that usable metrics |
| `StatusMergeLaws.ErrorFallbackIsDead` | main/src/status_resolver.cpp:581-619 | an error bundle is applied only where a status source is already set: both fallback branches never run |
| `StatusMergeLaws.ErrorSourceReports` | main/src/status_resolver.cpp:297-358 | the selected error source does report an error |
| `StatusMergeLaws.SingleSourceModeIgnoresTheOther` | main/src/status_resolver.cpp:940-1079 | in local-only (cloud-only) mode status, labels, metrics, errors, trays, preview, network and sources are equal for any two cloud (local) snapshots |
| `StatusMergeLaws.ShownStateIgnoresTheOther` | main/src/status_resolver.cpp:925-937 | so are the shown lifecycle, flags, label, raw status, stage, errors and trays; detail, remaining time, temperatures and light are the subject of the next rows |
| `IgnoredSourceLaws.ShownDetailAgreesExactly` | main/src/status_resolver.cpp:660-693 | the shown detail and remaining time agree for any two ignored snapshots if and only if no error text is asked for, or the texts of the two effective models come to the same |
| `IgnoredSourceLaws.ReadingsAgreeExactly` | main/src/status_resolver.cpp:1081-1102 | temperatures and light agree for any two ignored snapshots if and only if the masks of the two effective models do the same to them |
| `IgnoredSourceLaws.ModelOfMerge` | main/src/status_resolver.cpp:682-693 | the effective model of a merge: the model of the status source, else the local one, else the cloud one, whichever mode is set |
| `IgnoredSourceLaws.MaskedReadings` | main/src/status_resolver.cpp:1081-1102 | what that model, or the serial number where it is unknown, makes of temperatures and light |
| `IgnoredSourceLaws.KnownModelIsBlind` | main/src/status_resolver.cpp:682-693 | where the source in use knows its model, all of these are blind to the other source |
| `IgnoredSourceLaws.IgnoredModelLeaks` | main/src/status_resolver.cpp:682-693 | a concrete input where they are not: a local printer of unknown model in error shows the text of whatever model the ignored cloud account names |
| `StatusMergeLaws.IgnoredSourceIsUnusable` | main/src/status_resolver.cpp:324-358 | the ignored source supplies no bundle and is not enabled |
| `SourceLaws.MergeIsSelection` | main/src/status_resolver.cpp:940-1103 | every merge in full over its inputs: each bundle is that of its winner, what no winner supplies is that of the base state, the filament estimate is the cloud alone, and readings the printer cannot have are dropped |
| `SourceLaws.HybridTakesThePreferred` | main/src/status_resolver.cpp:954-985 | in hybrid mode, where both sources can supply a bundle, the nine enclosed models take it from the cloud and all others from the local source, with its lifecycle, raw status and error; the AMS comes from the local one for either |
| `SourceLaws.WinnersAreUsed` | main/src/status_resolver.cpp:954-985 | who wins each bundle, from what the two sources offer |
| `SourceLaws.LocalSupply` | main/src/status_resolver.cpp:297-323 | what the local source offers, and for 90 seconds only: its signal, its capability and its complaint written out over the snapshot |
| `SourceLaws.CloudSupply` | main/src/status_resolver.cpp:325-358 | what the cloud offers, and for five minutes only; its capability flags decide nothing but temperatures |
| `SourceLaws.ModelTable` | main/src/printer_state.cpp:158-178 | the columns of the capability table as sets of models |
| `SourceLaws.BaseIsShown` | main/src/status_resolver.cpp:391-453 | what is shown as long as no source has a status |
| `SourceLaws.SubstateOverrideIsDead` | main/src/status_resolver.cpp:510-542 | the local sub-state override never changes the status: where the local status is shown it is shown already, and where it is not the local source has nothing to say |
| `SourceLaws.TextFallbacksAreDead` | main/src/status_resolver.cpp:1047-1079 | nor do the fallbacks for a missing job name, detail or stage: by then nothing they could supply is missing |
| `SnapshotObject.MergeStatusSources` | main/src/status_resolver.cpp:940-1103 | the in-place merge equals the function the laws are about; SourceLaws.MergeIsSelection writes its whole result out over the inputs |
| `SnapshotObject.LiveSnapshot.CopySourceMetadata` | main/src/status_resolver.cpp:360-389 | metadata of both sources, in place |
| `SnapshotObject.LiveSnapshot.ApplyBaseState` | main/src/status_resolver.cpp:391-453 | the base state of the mode, in place |
| `SnapshotObject.LiveSnapshot.ApplyCloudStatusBundle` | main/src/status_resolver.cpp:455-468 | the cloud status bundle, in place |
| `SnapshotObject.LiveSnapshot.ApplyLocalStatusBundle` | main/src/status_resolver.cpp:470-482 | the local status bundle, in place |
| `SnapshotObject.LiveSnapshot.ApplyCloudMetricsBundle` | main/src/status_resolver.cpp:484-508 | the cloud metrics bundle, in place |
| `SnapshotObject.LiveSnapshot.ApplyLocalMetricsBundle` | main/src/status_resolver.cpp:510-542 | the local metrics bundle with its sub-state override, in place |
| `SnapshotObject.LiveSnapshot.ApplyLocalErrorBundle` | main/src/status_resolver.cpp:581-599 | the local error bundle with its fallback, in place |
| `SnapshotObject.LiveSnapshot.ApplyCloudErrorBundle` | main/src/status_resolver.cpp:601-619 | the cloud error bundle with its fallback, in place |
| `SnapshotObject.LiveSnapshot.ApplyTemperatureAndLight` | main/src/status_resolver.cpp:1007-1023 | temperatures of the source that wins them, and the light reset before the winner sets it, in place |
| `SnapshotObject.LiveSnapshot.ApplyLocalTemperatureBundle` | main/src/status_resolver.cpp:544-558 | the local temperatures: positive ones count as known, and an unknown nozzle keeps the one before |
| `SnapshotObject.LiveSnapshot.ApplyCloudTemperatureBundle` | main/src/status_resolver.cpp:560-579 | the cloud temperatures: those without an update, or without a connection, read as zero and unknown |
| `SnapshotObject.LiveSnapshot.MaskReadings` | main/src/status_resolver.cpp:1081-1102 | the masks of the printer model, in place |
| `SnapshotObject.FinishMerge` | main/src/status_resolver.cpp:1024-1079 | errors, trays, media, text fallbacks and masks, in place |
| `BambuStatus.PrettyDoneIsFinished` | main/src/status_resolver.cpp:643-646 | a status printed as done is a finished status |
| `Frames.FlushShowsTheFrame` | components/esp32_s3_touch_amoled_1_75/esp32_s3_touch_amoled_1_75.c:274-335 | after any flush rectangles in any order and overlap, physical pixel (H-1-y, x) at 90 or (y, V-1-x) at 270 is logical pixel (x, y) where covered, and untouched elsewhere |
| `RotationPanel.RotationPanelContext.FlushAll` | components/esp32_s3_touch_amoled_1_75/esp32_s3_touch_amoled_1_75.c:274-335 | a list of rectangles drawn through the wrapper, its buffers reused or replaced along the way, leaves exactly that frame; it fails only where the given memory conditions or the driver refuse, and then shows the frame of the rectangles before and at most some rows of the one that failed |
| `RotationPanel.RotationPanelContext.Refresh` | components/esp32_s3_touch_amoled_1_75/esp32_s3_touch_amoled_1_75.c:274-335 | drawing any cover of the logical frame through the wrapper leaves exactly the rotated frame on the panel, and succeeds whenever every allocation does and the driver accepts every draw |
| `RotationPanel.RotationPanelContext.FlushOne` | components/esp32_s3_touch_amoled_1_75/esp32_s3_touch_amoled_1_75.c:274-335 | one rectangle cut from the frame, drawn and waited for |
| `Frames.FullCoverRotatesTheFrame` | components/esp32_s3_touch_amoled_1_75/esp32_s3_touch_amoled_1_75.c:274-335 | any cover of the logical frame leaves exactly the rotated frame on the panel |
| `Frames.QuarterTurnsUndoEachOther` | components/esp32_s3_touch_amoled_1_75/esp32_s3_touch_amoled_1_75.c:178-207 | on a square panel the two rotations undo each other |
| `Frames.QuarterTurnsNeedASquarePanel` | components/esp32_s3_touch_amoled_1_75/esp32_s3_touch_amoled_1_75.c:312-327 | the coordinate remaps undo each other if and only if the panel is square |
| `Frames.TurnedBlitIsShow` | components/esp32_s3_touch_amoled_1_75/esp32_s3_touch_amoled_1_75.c:293-335 | writing the turned bitmap to the remapped rectangle is the logical draw |
| `Frames.RotatedRectIsTheImage` | components/esp32_s3_touch_amoled_1_75/esp32_s3_touch_amoled_1_75.c:312-327 | the remapped rectangle is exactly the image of the drawn one |
| `Frames.CutShowsTheFrame` | components/esp32_s3_touch_amoled_1_75/esp32_s3_touch_amoled_1_75.c:274-276 | a row-major bitmap of a rectangle shows the frame it was cut from |
| `RotationPanel.RotateRegion90` | components/esp32_s3_touch_amoled_1_75/esp32_s3_touch_amoled_1_75.c:178-192 | the nested loops write every row of the bitmap turned by 90 degrees |
| `RotationPanel.RotateRegion270` | components/esp32_s3_touch_amoled_1_75/esp32_s3_touch_amoled_1_75.c:194-207 | the nested loops write every row of the bitmap turned by 270 degrees |
| `RotationPanel.RowsDoneIsTurned` | components/esp32_s3_touch_amoled_1_75/esp32_s3_touch_amoled_1_75.c:178-207 | those rows are the turned bitmap of the remapped rectangle, pixel by pixel |
| `RotationPanel.BlitNextRows` | components/esp32_s3_touch_amoled_1_75/esp32_s3_touch_amoled_1_75.c:238-257 | the chunks tile the rectangle: top rows plus the next chunk are the larger top part |
| `RotationPanel.LeftoverTransferCollides` | components/esp32_s3_touch_amoled_1_75/esp32_s3_touch_amoled_1_75.c:229-245 | a transfer left over from a draw of another width shares staging pixels with the next first chunk exactly when the widths differ the wrong way, which is why a flush must complete first |
| `RotationPanel.RotationPanelContext.DrawChunks` | components/esp32_s3_touch_amoled_1_75/esp32_s3_touch_amoled_1_75.c:238-259 | with transfers read late, the panel ends up showing exactly the rows whose chunks were accepted; all rows when it returns without error |
| `RotationPanel.RotationPanelContext.DrawChunk` | components/esp32_s3_touch_amoled_1_75/esp32_s3_touch_amoled_1_75.c:238-257 | filling the next half never changes the transfer still in flight |
| `RotationPanel.RotationPanelContext.StageRows` | components/esp32_s3_touch_amoled_1_75/esp32_s3_touch_amoled_1_75.c:242-245 | the copied rows lie inside the buffer, in the half the outstanding transfer does not use |
| `RotationPanel.RotationPanelContext.DrawStaged` | components/esp32_s3_touch_amoled_1_75/esp32_s3_touch_amoled_1_75.c:209-272 | chunked or whole, a staged draw shows the bitmap once it settles, and an error leaves a prefix of rows or nothing |
| `RotationPanel.RotationPanelContext.DrawBitmap` | components/esp32_s3_touch_amoled_1_75/esp32_s3_touch_amoled_1_75.c:274-335 | the whole wrapper refines the logical draw for every rotation, chunking and buffer situation; each of its errors has exactly its own cause, and a refused draw leaves the frame alone or shows whole rows sent so far |
| `RotationPanel.RotationPanelContext.DrawUnrotated` | components/esp32_s3_touch_amoled_1_75/esp32_s3_touch_amoled_1_75.c:283-291 | the draws that are not turned by a quarter |
| `RotationPanel.RotationPanelContext.DrawRotated` | components/esp32_s3_touch_amoled_1_75/esp32_s3_touch_amoled_1_75.c:293-335 | the draws that are: buffers, turned bitmap, remapped rectangle |
| `RotationPanel.TopRowsShowThePart` | components/esp32_s3_touch_amoled_1_75/esp32_s3_touch_amoled_1_75.c:238-257 | the first rows of the turned bitmap show exactly a part of the logical rectangle, which is what a draw that fails half-way leaves |
| `RotationPanel.RotationPanelContext.EnsureBuffer` | components/esp32_s3_touch_amoled_1_75/esp32_s3_touch_amoled_1_75.c:140-152 | succeeds if and only if memory is there or the buffer at hand is large enough, which is then kept; otherwise it is gone |
| `RotationPanel.RotationPanelContext.EnsureRotatedBuffer` | components/esp32_s3_touch_amoled_1_75/esp32_s3_touch_amoled_1_75.c:157-176 | likewise for the rotated-frame buffer |
| `ImprovLaws.ScanningKeepsLongestPrefix` | main/src/serial_provisioner.cpp:137-150 | while scanning, the parser holds the longest suffix of the bytes since reset that is a prefix of IMPROV |
| `ImprovLaws.NoiseHidesNoFrame` | main/src/serial_provisioner.cpp:137-171 | line noise in front of a frame, whatever beginning of a header it ends with, does no harm: exactly the frame is delivered |
| `ImprovLaws.IdleThenFrame` | main/src/serial_provisioner.cpp:137-171 | after any bytes that leave the parser idle, a frame is delivered behind what came before |
| `ImprovLaws.FramesRoundTrip` | main/src/serial_provisioner.cpp:137-171 | with the version test on byte 6, frames sent back to back are delivered once each, in order, byte for byte, and the parser is idle again |
| `ImprovLaws.SendThenReceive` | main/src/serial_provisioner.cpp:290-304 | every send_packet frame reaches process_packet with a valid checksum |
| `ImprovLaws.DeliversFrame` | main/src/serial_provisioner.cpp:137-171 | one frame fed to an idle parser, for either position of the version test |
| `ImprovLaws.SingleByteErrorIsRejected` | main/src/serial_provisioner.cpp:173-182 | any single changed type, data or checksum byte arrives as one packet and is rejected |
| `ImprovLaws.ChecksumIsSum` | main/src/serial_provisioner.cpp:52-58 | the 8-bit running checksum is the sum modulo 256 |
| `ImprovLaws.OnlyTypeOneSurvives` | main/src/serial_provisioner.cpp:150-157 | with the test as written (byte 7) everything delivered has type 1 |
| `ImprovLaws.RpcIsUnreachable` | main/src/serial_provisioner.cpp:173-182 | so no byte stream ever reaches process_rpc |
| `ImprovLaws.FrameSurvivesExactly` | main/src/serial_provisioner.cpp:22-22 | of the frames the code itself prints, exactly those of type 1 come back |
| `ImprovLaws.WifiSettingsExactly` | main/src/serial_provisioner.cpp:191-212 | the settings parser accepts exactly the encodings of a pair of strings, and decodes that pair |
| `ImprovLaws.SentResultIsFaithful` | main/src/serial_provisioner.cpp:275-288 | a result that fits a packet carries its true length and decodes to exactly its values: neither narrowing shows |
| `ImprovLaws.ValuesRoundTrip` | main/src/serial_provisioner.cpp:281-285 | length-prefixed values decode to themselves |
| `ImprovLaws.FrameBytes` | main/src/serial_provisioner.cpp:290-304 | every byte of a printed frame |
| `ImprovLaws.PacketsExactly` | main/src/serial_provisioner.cpp:173-189 | which packets are accepted, ignored and refused |
| `ImprovLaws.RequestsExactly` | main/src/serial_provisioner.cpp:191-232 | which data is which request |
| `ImprovLaws.ValuesAreCut` | main/src/serial_provisioner.cpp:281-285 | a value is sent behind its length and cut to 255 bytes |
| `SerialProvisioner.Parser.ProcessByte` | main/src/serial_provisioner.cpp:137-171 | the in-place parser equals the function the laws are about |
| `SerialProvisioner.ComputeChecksum` | main/src/serial_provisioner.cpp:52-58 | the checksum loop |
| `SerialProvisioner.SendPacket` | main/src/serial_provisioner.cpp:290-304 | the packet assembled in place is the frame; more than 255 bytes are not sent |
| `SerialProvisioner.SendRpcResult` | main/src/serial_provisioner.cpp:275-288 | the result packet built value by value |
| `ReportLaws.LatchIsTheLastVerdict` | main/src/printer_client.cpp:1801-1812 | over any reports the AMS latch equals the verdict of the last one carrying ams_status |
| `ReportLaws.PauseFaultAlongRunExactly` | main/src/printer_client.cpp:1831-1835 | over any reports, a paused job in error is in error after every one of them if and only if every state name they carry still reads as paused in its first 15 characters |
| `ReportLaws.PauseFaultStepExactly` | main/src/printer_client.cpp:1831-1835 | one report keeps such an error if and only if the state in force reads as paused once cut to the status buffer |
| `ReportLaws.PauseFaultPersists` | main/src/printer_client.cpp:1831-1835 | over reports that stay paused, the lifecycle stays the error one as well |
| `ReportLaws.PauseFaultSurvives` | main/src/printer_client.cpp:1831-1835 | the same for one report |
| `ReportLaws.SilentReportKeepsPauseFaultExactly` | main/src/printer_client.cpp:1828-1835 | a report without a state name and without a code keeps an error if and only if the stored status reads as paused |
| `ReportLaws.LongStateNameLosesTheFault` | main/src/printer_client.cpp:178-192 | a concrete state name that the 16-byte buffer cuts short: any paused fault without a code is lost on the next silent report |
| `ReportLaws.TruncationKeepsNoNewPause` | main/src/printer_client.cpp:178-192 | the cut can lose a pause but never invent one |
| `ReportLaws.ErrorIsConsistent` | main/src/printer_client.cpp:2253-2267 | has_error implies the error lifecycle and excludes a non-error stop |
| `ReportLaws.CodesStayWellFormed` | main/src/printer_client.cpp:2249-2252 | over any reports the stored HMS codes are distinct, non-zero and unsuppressed, and counted |
| `ReportLaws.ReportableCodesAreDistinct` | main/src/printer_client.cpp:367-378 | the collected codes are exactly the reportable ones, each once |
| `ReportLaws.CountIsExact` | main/src/printer_client.cpp:2249-2252 | the 16-bit count is exact for every report of fewer than 65536 codes |
| `ReportOutcomes.ErrorShownExactly` | main/src/printer_client.cpp:1826-1835 | over any reports an error is shown if and only if one of them raised it, by a code outside a filament change or by a fault pause, and the job has been paused ever since |
| `ReportOutcomes.CodesAreTheLastReported` | main/src/printer_client.cpp:1815-1826 | over any reports the stored error code is the last one reported, and the alerts are the reportable ones of the last list, each once, by first occurrence |
| `ReportOutcomes.FilamentIsTheLastReported` | main/src/printer_client.cpp:1786-1800 | over any reports the extruder switch, the tray in use and its target are the last ones reported, the word of the extruder before that of the AMS |
| `ReportOutcomes.StatusIsTheLastState` | main/src/printer_client.cpp:2169-2169 | over any reports the status text is the last state name, cut to 15 characters |
| `ReportOutcomes.VerdictTable` | main/src/printer_client.cpp:2253-2267 | the lifecycle and the stop flag after a report |
| `ReportOutcomes.StageNamed` | main/src/printer_client.cpp:1210-1257 | the stage a report names, over its state, stage name, stage id and error code |
| `ReportOutcomes.StageTable` | main/src/printer_client.cpp:2169-2283 | the stage texts after a report: what is kept of the last stage, the two halves of a filament change, and the end of preparation |
| `ReportOutcomes.FromTheFirstReport` | main/src/printer_client.cpp:1780-2283 | what a new client shows is what its reports say, and an error only if one of them raised it |
| `ReportOutcomes.TextsFitTheirBuffers` | main/src/printer_client.cpp:178-192 | over any reports the stored texts fit their buffers |
| `PrinterRuntime.ExtractHmsCodes` | main/src/printer_client.cpp:422-455 | the collecting loop |
| `PrinterRuntime.RuntimeState.HandleReport` | main/src/printer_client.cpp:1780-2283 | the in-place update of the runtime record equals one step of the fold |
| `PrinterRuntime.RuntimeState.UpdateTexts` | main/src/printer_client.cpp:2225-2283 | status and stage texts |
| `PrinterRuntime.RuntimeState.UpdateVerdicts` | main/src/printer_client.cpp:2253-2267 | the verdicts |
| `ErrorTableLaws.SortedScanAnswers` | main/src/error_lookup.cpp:173-242 | on every table sorted by domain and code, empty messages allowed: the early-breaking scan gives the answer defined on the whole group of the code |
| `ErrorTableLaws.FullTableAnswer` | main/src/error_lookup.cpp:173-242 | with non-empty messages: the first model match, else the first default, else the first entry, over the whole table |
| `ErrorTableLaws.ScanSeesItsGroup` | main/src/error_lookup.cpp:201-218 | skipping and breaking lose no entry of the queried code |
| `ErrorTableLaws.HexOrderIsNumericOrder` | main/src/error_lookup.cpp:48-60 | fixed-width upper-case hexadecimal orders as the numbers do |
| `ErrorTableLaws.NumericOrderIsTableOrder` | main/src/error_lookup.cpp:201-218 | a table in numeric order is in the order the scan relies on |
| `ErrorTableLaws.QueryMeansItsNumber` | main/src/error_lookup.cpp:48-60 | a query for a code in range selects the entries of exactly that number and domain |
| `ErrorTableLaws.RowRoundTrip` | main/src/error_lookup.cpp:128-150 | writing a row and splitting it gives the row |
| `ErrorTableLaws.TableRoundTrip` | main/src/error_lookup.cpp:184-198 | printing a table and reading its lines gives the table |
| `ErrorTextLaws.ListedCodesAreTold` | main/src/error_lookup.cpp:173-242 | from text to text: a stored table in numeric order has a message for a code if and only if it lists it, a message of that code, and the one of the model where there is one |
| `ErrorTextLaws.RowsExactly` | main/src/error_lookup.cpp:128-150 | a line is an entry if and only if it is a row |
| `ErrorTextLaws.OneLine` | main/src/error_lookup.cpp:184-198 | any text up to a line feed is one line, with or without a carriage return |
| `ErrorTextLaws.QueryText` | main/src/error_lookup.cpp:38-60 | what a query is written as: its domain letter, its width and its number |
| `ErrorTextLaws.HexReadsBack` | main/src/error_lookup.cpp:48-60 | a fixed-width hexadecimal text writes its number |
| `ErrorTextLaws.NamedExactly` | main/src/error_lookup.cpp:152-171 | an entry is meant for a model if and only if the model is known and among the items of its list |
| `ErrorTableLaws.MarkedHeaderDecidesTheLookup` | main/include/error_lookup/error_lookup.tsv:1-1 | the shipped first line begins with a byte order mark and so is a row: skipped where char is signed, but where char is unsigned every lookup comes back empty |
| `ErrorLookup.ModelListMatches` | main/src/error_lookup.cpp:152-171 | for every token, one with a comma included: true if and only if the token is one of the comma-separated items, with the four guards |
| `ErrorLookup.LookupUncached` | main/src/error_lookup.cpp:173-242 | the cursor loop over the text equals the scan of its entries |
| `ErrorLookup.Collect` | main/src/error_lookup.cpp:220-233 | what one entry of the code contributes |
| `ErrorLookup.ErrorTexts.Lookup` | main/src/error_lookup.cpp:256-273 | for every call history the one-entry cache answers as a fresh scan would |
| `ErrorLookup.ErrorTexts.PrimaryHmsDetail` | main/src/error_lookup.cpp:99-121 | the first code with a text, else the first displayable code, else the count |
| `ErrorLookup.ResolvedErrorDetail` | main/src/error_lookup.cpp:275-288 | print error before HMS, each with its generic fallback |
| `ErrorDetailLaws.FirstTextIsShown` | main/src/error_lookup.cpp:99-121 | the first code that may be shown and has a text gives it |
| `ErrorDetailLaws.WithoutTexts` | main/src/error_lookup.cpp:99-121 | with no text at all the first code that may be shown is named, and with no such code the alerts are counted |
| `ErrorDetailLaws.NamesItsCode` | main/src/error_lookup.cpp:62-97 | a code without a text is named in two groups of hexadecimal digits that write its number |
| `Text.ParseLongOfDecimal` | main/src/config_store.cpp:540-556 | printing a stored number and parsing it gives the number |
| `Numbers.NumbersRead` | main/src/config_store.cpp:540-556 | a stored number is read up to the first byte that is no digit, behind a sign, and is kept within 32 bits |
| `DebugLog.RingIsTheLogUntilTheWrap` | main/src/debug_log_buffer.cpp:249-268 | fetching answers the last 48 KiB from the given offset for every offset, if and only if fewer than 2^32 bytes were written |
| `DebugLog.PollingReassemblesExactly` | main/src/debug_log_buffer.cpp:249-268 | before that, a polling reader reassembles the log if and only if no chunk between two polls exceeds 48 KiB |
| `DebugLog.PollAcrossTheWrapIsLost` | main/src/debug_log_buffer.cpp:251-257 | a poll that straddles the counter wrap gets nothing, whatever was written |
| `DebugLog.FetchAfterChunk` | main/src/debug_log_buffer.cpp:258-267 | one poll gets the tail of what was written since the last one |
| `DebugLog.LastBytesAreKept` | main/src/debug_log_buffer.cpp:249-268 | before the wrap, fetching from the start gives the last 48 KiB |
| `DebugLog.RingLog.constructor` | main/src/debug_log_buffer.cpp:225-230 | without memory nothing is kept |
| `DebugLog.RingLog.BufWrite` | main/src/debug_log_buffer.cpp:190-195 | the byte loop appends to the log the buffer stands for |
| `DebugLog.RingLog.Fetch` | main/src/debug_log_buffer.cpp:249-268 | the copying loop returns the stored part of the log |
| `DebugLog.RingLog.EndOffset` | main/src/debug_log_buffer.cpp:270-273 | the wrapped length of the log |
| `Scrubbers.NoMacSurvives` | main/src/debug_log_buffer.cpp:88-106 | no HH:HH:HH:HH:HH:HH window is left anywhere in the result, not even across a replacement |
| `Scrubbers.NoSeventeenAreAnAddress` | main/src/debug_log_buffer.cpp:88-106 | the same in plain words: no 17 characters of the result in a row are an address |
| `Scrubbers.NoMacIsUntouched` | main/src/debug_log_buffer.cpp:88-106 | a text without such a window is left alone |
| `Scrubbers.MacScrubTwice` | main/src/debug_log_buffer.cpp:88-106 | scrubbing is idempotent |
| `Scrubbers.FirstAddressIsReplaced` | main/src/debug_log_buffer.cpp:88-106 | the first window becomes the mark, what is in front of it stays, and what is behind it is treated alike |
| `Scrubbers.AddressShape` | main/src/debug_log_buffer.cpp:88-100 | which 17 characters are such a window |
| `Scrubbers.ScrubMac` | main/src/debug_log_buffer.cpp:88-106 | the in-place loop ends and computes that result |
| `KeyScrubber.EveryValueIsHidden` | main/src/debug_log_buffer.cpp:41-60 | after one pass every occurrence of the key in the result, wherever it stands, is followed by nothing or by the replacement up to a terminator |
| `KeyScrubber.TameIsUntouched` | main/src/debug_log_buffer.cpp:41-60 | a text where that already holds is left alone |
| `KeyScrubber.HidingTwice` | main/src/debug_log_buffer.cpp:41-60 | hiding is idempotent |
| `KeyScrubber.FirstValueIsReplaced` | main/src/debug_log_buffer.cpp:41-60 | the value behind the first key, up to a terminator, a NUL or the end, becomes the replacement; all in front of it stays, and what is behind it is treated alike |
| `KeyScrubber.ShortRulesAreFit` | main/src/debug_log_buffer.cpp:163-172 | six of the rules in use meet the conditions of these laws |
| `KeyScrubber.NetworkNameRuleIsFit` | main/src/debug_log_buffer.cpp:165-166 | and so does the seventh |
| `KeyScrubber.ScrubKv` | main/src/debug_log_buffer.cpp:41-60 | the in-place loop ends, although the text grows and shrinks under it, and computes that result |
| `AddressScrubber.AddressExactly` | main/src/debug_log_buffer.cpp:69-82 | the scan takes for an address exactly four groups of one to three digits with no digit and no dot behind them |
| `AddressScrubber.SeparatedAddressExactly` | main/src/debug_log_buffer.cpp:62-86 | four such groups that stand apart are replaced, in any line, if and only if no dot follows; otherwise they stay |
| `AddressScrubber.DotDecides` | main/src/debug_log_buffer.cpp:73-81 | whatever follows the dot |
| `AddressScrubber.StandAloneAddressIsHidden` | main/src/debug_log_buffer.cpp:62-86 | four groups of one to three digits that stand alone are replaced, and the text on either side is treated as if it were alone |
| `AddressScrubber.NoAddressSurvives` | main/src/debug_log_buffer.cpp:62-86 | no stand-alone address is left in the result |
| `AddressScrubber.HiddenTwice` | main/src/debug_log_buffer.cpp:62-86 | filtering twice is filtering once |
| `AddressScrubber.AddressBeforeAPeriodStays` | main/src/debug_log_buffer.cpp:73-81 | an address followed by a dot and no digit, as at the end of a sentence, is not replaced |
| `AddressScrubber.LetterGuardsOneDigit` | main/src/debug_log_buffer.cpp:67-68 | the letter in front of a version number protects its first digit only |
| `AddressScrubber.NoDigitIsUntouched` | main/src/debug_log_buffer.cpp:62-86 | a text without digits is left alone |
| `AddressScrubber.ScanGroups` | main/src/debug_log_buffer.cpp:69-82 | the two inner loops end behind their start and find the run of dotted groups |
| `AddressScrubber.ScrubIpv4` | main/src/debug_log_buffer.cpp:62-86 | the in-place loop ends, although the text shrinks under it, and computes the filtered text of these laws |
| `FieldScrubber.HiddenExactly` | main/src/debug_log_buffer.cpp:108-127 | in the result every occurrence of the quoted key, wherever it stands, has no quoted value behind it or the mark, if and only if in the input no key that begins on the closing quote of a key passed by has another value behind it |
| `FieldScrubber.EveryFieldIsHidden` | main/src/debug_log_buffer.cpp:108-127 | so everything is hidden where no two keys share a quote |
| `FieldScrubber.SharedQuoteStays` | main/src/debug_log_buffer.cpp:112-125 | a key on the closing quote of a passed key shows after filtering what it showed before |
| `FieldScrubber.ChainedKeyShows` | main/src/debug_log_buffer.cpp:108-127 | a family of lines where a value is left: two keys that share a quote and any other value behind the second |
| `FieldScrubber.ChainedKeyLeaks` | main/src/debug_log_buffer.cpp:108-127 | the filter leaves such a line as it is |
| `FieldScrubber.FieldsHiddenTwice` | main/src/debug_log_buffer.cpp:108-127 | filtering twice is filtering once |
| `FieldScrubber.FirstKeyDecides` | main/src/debug_log_buffer.cpp:108-127 | the first key decides: what stands between the next two quotes becomes the mark if only blanks and colons come before them |
| `FieldScrubber.KeyWithoutValueStays` | main/src/debug_log_buffer.cpp:108-127 | otherwise the key is passed over |
| `FieldScrubber.NoKeyIsUntouched` | main/src/debug_log_buffer.cpp:108-127 | a text without the key is left alone |
| `FieldScrubber.MarkKeepsNoMac` | main/src/debug_log_buffer.cpp:119-122 | replacing any span by the mark joins no hardware address |
| `FieldScrubber.ScrubJsonField` | main/src/debug_log_buffer.cpp:108-127 | the in-place loop ends, although the text grows and shrinks under it, and computes the filtered text of these laws; no hardware address is pieced together |
| `LinkScrubber.NoSignedLinkExactly` | main/src/debug_log_buffer.cpp:129-153 | no link in any column of the result stands in front of a signature, if and only if in the input no link begins in the first seven columns, or matching the signatures behind it with the other links, each with the nearest one before it, leaves none over |
| `LinkScrubber.SignatureStaysExactly` | main/src/debug_log_buffer.cpp:129-153 | from any point of the filter on, a signature is left if and only if one was passed by already or that matching leaves one |
| `LinkScrubber.NoSignedLinkSurvives` | main/src/debug_log_buffer.cpp:129-153 | no link that begins in the eighth column or later is left in front of a signature |
| `LinkScrubber.NoSignedLinkIsUntouched` | main/src/debug_log_buffer.cpp:129-153 | a line without such a link is left alone |
| `LinkScrubber.FirstColumnsStay` | main/src/debug_log_buffer.cpp:136-141 | links in the first seven columns always stay |
| `LinkScrubber.NoFirstLinkNoSignedLink` | main/src/debug_log_buffer.cpp:129-153 | a line without a link in those columns keeps no signed link at all |
| `LinkScrubber.OneLinkIsReplaced` | main/src/debug_log_buffer.cpp:129-153 | a single signed link is replaced by the mark, from its first character to the end of the address, and all else stays |
| `LinkScrubber.FirstSignatureDecides` | main/src/debug_log_buffer.cpp:129-153 | the first signature decides: which part of the line becomes the mark, and where the search goes on |
| `LinkScrubber.FindLink` | main/src/debug_log_buffer.cpp:135-141 | the backward search ends and finds the nearest link from the eighth column on |
| `LinkScrubber.ScrubPresignedUrls` | main/src/debug_log_buffer.cpp:129-153 | the in-place loop ends, although it may restart before its last position, and computes the filtered text of these laws |
| `LinkScrubber.LinkInFirstColumnStays` | main/src/debug_log_buffer.cpp:136-141 | every line that begins with its only link stays as it is, signature and all |
| `LinkScrubber.SignedLinkStays` | main/src/debug_log_buffer.cpp:136-141 | a concrete line that keeps its signed link |
| `LineScrubbers.ScrubForWeb` | main/src/debug_log_buffer.cpp:155-187 | the chain of filters in order, each on what the ones before it left; no hardware address is left after it, although three kinds of edits follow and precede that filter |
| `LineScrubbers.PlainLineIsKept` | main/src/debug_log_buffer.cpp:155-187 | a line with nothing any filter looks for comes out of the chain as it went in |
| `LineScrubbers.ChainInFull` | main/src/debug_log_buffer.cpp:155-187 | the chain in full, each filter with its key, its terminators and its mark |
| `ProfileStore.ActivePrinterSurvivesDeletion` | main/src/config_store.cpp:605-645 | deleting another printer keeps the active printer, at its new index; deleting the active one selects slot 0 |
| `ProfileStore.ActivePrinterSurvivesDeletions` | main/src/config_store.cpp:605-645 | over any number of deletions an active printer that is never itself deleted stays the active one |
| `ProfileStore.DeletionsCommute` | main/src/config_store.cpp:605-645 | deleting two printers gives the same table and active index in either order |
| `ProfileStore.DeletionKeepsEveryOtherRow` | main/src/config_store.cpp:605-645 | every other profile keeps its content, in order |
| `ProfileStore.DeletingTheNewestUndoesSaving` | main/src/config_store.cpp:579-603 | appending a profile and deleting it gives the table back |
| `ProfileStore.SavedProfileIsListed` | main/src/config_store.cpp:558-577 | what is saved is what is listed, if and only if it has a serial or a host |
| `ProfileStore.SavingListsTheOthersUnchanged` | main/src/config_store.cpp:579-603 | saving one slot leaves the listing of every other slot alone |
| `ProfileStore.ListingIsTheShownRows` | main/src/config_store.cpp:558-577 | the listing holds exactly the shown rows with their slots |
| `ProfileStore.CleanSaveLeavesBlanks` | main/src/config_store.cpp:579-603 | in a store that keeps its slots at or above the count empty, saving past the count leaves blank rows between; in any other the rows left over there show up again |
| `ProfileStore.MigrationIsIdempotent` | main/src/config_store.cpp:191-221 | migrating twice is migrating once, also after later deletions |
| `ProfileStore.MigrationHappensExactly` | main/src/config_store.cpp:191-221 | the old settings become the one profile, and the active one, if and only if there is none yet and they name anything |
| `ProfileStore.KeyTextsDiffer` | main/src/config_store.cpp:532-538 | no two keys of the table are written the same |
| `ProfileStore.KeyNames` | main/src/config_store.cpp:540-556 | the names the counters and the old settings are stored under |
| `ProfileStore.CellNames` | main/src/config_store.cpp:532-538 | the names the cells of a slot are stored under |
| `ProfileStore.CountersRead` | main/src/config_store.cpp:540-556 | the count and the active slot read back as written within their range, and as 0 outside it |
| `ProfileStore.SavingWritesOneRow` | main/src/config_store.cpp:579-603 | saving writes one row in any store, whatever the others hold, and counts those up to it |
| `ProfileStore.ProfileRoundTrip` | main/src/config_store.cpp:558-603 | what is read of a profile is what was saved of it |
| `ConfigStoreObject.ConfigStore.LoadProfiles` | main/src/config_store.cpp:558-577 | the loading loop |
| `ConfigStoreObject.ConfigStore.SaveProfile` | main/src/config_store.cpp:579-603 | in every store the cell writes make the saved table, with the rows left over above the count where it grows past them; empty slots above the count stay empty, and an index out of range is rejected |
| `ConfigStoreObject.ConfigStore.DeleteProfile` | main/src/config_store.cpp:605-645 | the shifting loop refines removal from a sequence, re-indexes the active printer, keeps slots at or above the count empty, and reports both errors |
| `ConfigStoreObject.ConfigStore.ShiftDown` | main/src/config_store.cpp:611-635 | the loop over raw cells moves every later row down by one and blanks the last |
| `ConfigStoreObject.ConfigStore.LoadActiveProfile` | main/src/config_store.cpp:647-654 | the active profile, or the empty one |
| `ConfigStoreObject.ConfigStore.Migrate` | main/src/config_store.cpp:191-221 | in every store the legacy settings become slot 0 and are cleared |
| `FlashMerge.MergeKeepsExactlyTheProgrammedBytes` | tools/package_initial_flash.py:107-116 | a successful merge holds a byte other than FF at a place if and only if some segment puts it there |
| `FlashMerge.SuccessfulOrdersAgree` | tools/package_initial_flash.py:107-116 | two orders of the same segments that both succeed give the same image |
| `FlashMerge.EveryOrderSucceedsExactly` | tools/package_initial_flash.py:97-116 | every order of the segments succeeds if and only if overlapping segments hold the same byte wherever they overlap, explicit FF included |
| `FlashMerge.OrderCanDecideSuccess` | tools/package_initial_flash.py:99-103 | otherwise order decides: an explicit FF yields to a programmed byte after it and not to one before it |
| `FlashMerge.PlacingChecksEveryClash` | tools/package_initial_flash.py:97-104 | the check against the image is the check against every earlier segment |
| `FlashMerge.SizeIsTheFurthestEnd` | tools/package_initial_flash.py:112-112 | the image ends with its furthest segment |
| `FlashMerge.Place` | tools/package_initial_flash.py:97-104 | checks the whole payload before writing any of it, and names a conflicting place |
| `FlashMerge.Merge` | tools/package_initial_flash.py:107-116 | succeeds if and only if there is a segment and no later one changes a programmed byte, and then is the flat image |
| `AmsLaws.CloudIsAlwaysRight` | main/src/bambu_cloud_client.cpp:3114-3240 | over all report sequences of the cloud client a tray is active if and only if it is present and tray_now is 4 * unit + tray; present units lie below the count |
| `AmsLaws.AtMostOneActiveTray` | main/src/bambu_cloud_client.cpp:3230-3239 | so at most one tray is active |
| `AmsLaws.NextStaysShaped` | main/src/bambu_cloud_client.cpp:3127-3228 | the count never shrinks within telemetry, and absent units hold nothing |
| `AmsLaws.LocalStaysRightExactly` | main/src/printer_client.cpp:1911-2013 | the local client, which marks only listed trays, stays right if and only if the number does not change or the report lists the present trays it changes between |
| `AmsLaws.LocalCanShowTwoActiveTrays` | main/src/printer_client.cpp:2007-2009 | a concrete report that leaves the local client with two active trays |
| `AmsReport.ExtractSnow` | main/src/bambu_cloud_client.cpp:1604-1629 | only the first entry of the main extruder decides the tray number |
| `AmsLaws.SnowNamesTheTray` | main/src/bambu_cloud_client.cpp:1619-1626 | the newer number of a tray decodes to the older one |
| `AmsLaws.SnowTable` | main/src/bambu_cloud_client.cpp:1619-1626 | how the newer number packs unit and slot, the external spool included |
| `AmsLaws.NumbersAreTheLastTold` | main/src/bambu_cloud_client.cpp:3113-3126 | over all report sequences the tray in use and its target are the last ones told since the table was cleared |
| `AmsLaws.ClearedHoldsNothing` | main/src/bambu_cloud_client.cpp:523-554 | what a cleared table holds: four units of four trays, none of them there |
| `AmsLaws.TraysAreToldByTheirOwnItems` | main/src/bambu_cloud_client.cpp:3173-3224 | a tray is told by its own items, in their order, and by nothing else |
| `AmsLaws.TrayTold` | main/src/bambu_cloud_client.cpp:3180-3224 | what one item tells of its tray, and which items empty it |
| `AmsLaws.UnitsTold` | main/src/bambu_cloud_client.cpp:3133-3227 | the units a list speaks of are present and counted, the others stay as they were |
| `AmsLaws.CountIsOfAUnit` | main/src/bambu_cloud_client.cpp:3133-3160 | the count goes up to the last unit that is there, or stays |
| `AmsLaws.UnitTold` | main/src/bambu_cloud_client.cpp:3140-3172 | the climate of a unit, and its trays |
| `AmsReport.TrayTable.HandleReport` | main/src/bambu_cloud_client.cpp:3113-3240 | the in-place handler equals the step of the laws, for either client |
| `AmsReport.TrayTable.WriteUnits` | main/src/bambu_cloud_client.cpp:3133-3227 | the loop over units |
| `AmsReport.TrayTable.WriteTrays` | main/src/bambu_cloud_client.cpp:3173-3224 | the loop over trays |
| `AmsReport.TrayTable.MarkTrays` | main/src/bambu_cloud_client.cpp:3230-3239 | the marking loops |
| `AmsReport.TrayTable.ClearTelemetry` | main/src/bambu_cloud_client.cpp:523-554 | clearing forgets every tray |
| `PoolSync.SyncGivesEveryoneTheirConnection` | main/src/printer_client_pool.cpp:78-97 | after a sync every slot was told what its last profile wants, or nothing, and every slot with a local configuration runs |
| `PoolSync.SecondSyncIsQuiet` | main/src/printer_client_pool.cpp:42-46 | a second sync reconfigures nothing if and only if profiles sharing a slot want the same connection |
| `PoolSync.DistinctAgree` | main/src/printer_client_pool.cpp:78-97 | distinct indices are such profiles |
| `PoolSync.QuietList` | main/src/printer_client_pool.cpp:42-63 | a list makes no call if and only if every profile finds its slot as it wants it |
| `PoolSync.SyncTellsEveryone` | main/src/printer_client_pool.cpp:36-97 | over any number of syncs the recorded connection of every slot is the one its client was told last, and a client is started once, right after it was told one |
| `PoolSync.NobodyIsTold` | main/src/printer_client_pool.cpp:20-34 | a fresh pool has told nobody anything |
| `PoolSync.WantedConnection` | main/src/printer_client_pool.cpp:36-52 | which connection a profile wants |
| `ClientPool.PrinterClientPool.EnsureStarted` | main/src/printer_client_pool.cpp:36-52 | configures only a changed or stopped slot and starts it once; an index out of range means slot 0 |
| `ClientPool.PrinterClientPool.Clear` | main/src/printer_client_pool.cpp:54-64 | idles a slot that has a client |
| `ClientPool.PrinterClientPool.SyncWithProfiles` | main/src/printer_client_pool.cpp:78-97 | the two loops; profiles with an index out of range are skipped |
| `PowerSense.PowerDebouncer.Resolve` | main/src/pmu.cpp:213-241 | for every sample history each counter is the trailing run of its class in 32 bits and the state is the class of the most recent run that reached 1, 12 or 6, else unknown; wrapped counters do no harm |
| `PowerSense.StableStep` | main/src/pmu.cpp:213-241 | one more sample changes the stable class only by completing a run: one artefact, 12 batteries or 6 without |
| `PowerSense.StableExists` | main/src/pmu.cpp:213-241 | every history has a stable class, and the empty one knows none |
| `PowerSense.StableIsUnique` | main/src/pmu.cpp:213-241 | the stable class of a history is unique |
| `PowerSense.StableClassHadARun` | main/src/pmu.cpp:213-241 | a class other than unknown rests on that many samples of it in a row |
| `PowerSense.AtMostOneRun` | main/src/pmu.cpp:213-241 | at most one counter is non-zero |
| `PowerSense.Instantaneous` | main/src/pmu.cpp:202-211 | a reading is the USB artefact from 4.24 V on, no battery below 3.20 V or strictly between 4.18 V and 4.24 V, and a battery otherwise; never unknown |

## Left out

- HTTP, TLS, the MQTT library, flash, I2C, SPI, UART and codec calls: replaced by events, byte sequences or arbitrary results.
- JSON parsing, LVGL, fonts, the web portal, the camera, SNTP and the time-zone table: display or data only.
- Interleavings inside one handler or one loop iteration: steps are atomic.
- Fragmented MQTT payloads: a report arrives whole or is not accepted.
- Chamber-light and print commands, and what the client publishes: only their effect on the session flags is kept.
- The 32-bit wrap of the consecutive-error counter, which feeds the back-off delays and the telemetry.
- `RotationPanel.RotationPanelContext.DrawBitmap`: takes a bitmap that is present, since the source hands a null one on only to the driver; that a buffer freed for a larger one might still be read is excluded by the assumption that the earlier draw has completed.
- `PrinterRuntime.RuntimeState.HandleReport`: covers status, stage, errors, HMS codes, the AMS latch and the filament fields; progress, temperatures and layers are left out, and whether they advanced is an arbitrary input; that connection events and a new client reset the record is not part of the fold, whose laws start from any record.
- `ReportLaws.CountIsExact`: asks for fewer than 65536 codes, the width of the counter.
- `LineScrubbers.ScrubForWeb`: states what the chain computes and that no hardware address is left; the guarantees of the earlier filters hold of the line each of them hands on, which the later ones edit again.
- `FieldScrubber.HiddenExactly`: asks for a key of letters and underscores, as the seven keys in use are.
- `KeyScrubber.ScrubKv`: asks for a non-empty key, as every call has; with an empty one the loop of the source never ends.
- `ConfigStoreObject.ConfigStore.SaveProfile`: strings are taken to hold no NUL, and store writes to succeed.
- `FlashMerge.Merge`: offsets are not negative, as in a flasher file.
- `PowerSense.Instantaneous`: compares voltages as real numbers, without the rounding of a float.
- `AmsReport.TrayTable.HandleReport`: leaves out the external spool, whose flag is only refreshed by reports that mention it, and the resolution of filament names in the local client.
- Sharing of AMS snapshots between readers, and the diagnostics about changed trays.
- The application main loop, the setup portal and the background network hint of the pool: glue over the parts above.
- Board setup, backlight arithmetic and converters between enumerations and strings: they would only add easy members.
