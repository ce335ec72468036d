/** What resolve_ui_state guarantees about its result, and exactly when applying it twice is the
    same as applying it once. */
module UiStateLaws {
  import opened Text
  import opened BambuStatus
  import opened PrinterState
  import opened UiState

  /** The fields resolving decides, and where each comes from. */
  lemma Decisions(s: Snapshot, text: ErrorText)
    requires !IsNonErrorStop(s)
    ensures var t, g := ResolveUiState(s, text), BuildSignals(s);
      var error := if ShowsFinished(t) && s.errors.printErrorCode == 0 then "" else ResolvedError(s, text);
      && t == s.(status := s.status.(lifecycle := SelectLifecycle(s.status.lifecycle, g),
                                     hasError := SelectHasError(g), detail := t.status.detail),
                 ui := Ui(SelectUiStatus(s, g), SelectPrintActive(g), SelectWarnHms(g)),
                 metrics := s.metrics.(downloadRelated := StillDownloading(s),
                                       remainingSeconds := t.metrics.remainingSeconds))
      && (error != "" ==> t.status.detail == error)
      && (error == "" && !ShowsFinished(t) ==> t.status.detail == s.status.detail)
      && (error == "" && ShowsFinished(t) ==>
            t.status.detail == if IsGenericFinishedDetail(s.status.detail, s.status.stage) then "" else s.status.detail)
      && t.metrics.remainingSeconds ==
         (if error == "" && ShowsFinished(t) then 0 else s.metrics.remainingSeconds)
  {
    hide Contains, IsFilamentStage, IsPreheatStage, IsCleanStage, IsLevelStage, IsCoolingStage, IsSetupStage,
         BuildSignals, SelectUiStatus, SelectLifecycle, SelectHasError,
         SelectPrintActive, SelectWarnHms, IsGenericFinishedDetail, StillDownloading;
  }

  /** The flags of a resolved snapshot agree with its lifecycle. */
  lemma ResultIsCoherent(s: Snapshot, text: ErrorText)
    ensures var t := ResolveUiState(s, text);
      && (t.status.hasError ==> t.status.lifecycle == LifecycleError)
      && (t.ui.printActive ==> t.status.lifecycle in {LifecycleError, Paused, Preparing, Printing})
      && (t.status.lifecycle == Finished ==> !t.ui.printActive && !t.status.hasError)
      && (t.ui.warnHms ==> t.ui.printActive && !t.status.hasError)
  {
    hide ReadText, ActiveHint, FinishedByStatus, SelectUiStatus, IsGenericFinishedDetail, ApplySelectors,
         ApplyResolvedDetail, ResolvedError, StillDownloading;
    if !IsNonErrorStop(s) {
      Decisions(s, text);
    }
  }

  // ----- applying it twice

  /** The words a titlecased label can start with. */
  lemma {:induction false} TitlecaseStartsUpper(s: string)
    ensures |Titlecase(s, true)| == |s|
    ensures s != "" ==> !('a' <= Titlecase(s, true)[0] <= 'z')
  {
    TitlecaseLength(s, true);
  }

  lemma {:induction false} TitlecaseLength(s: string, capitalize: bool)
    ensures |Titlecase(s, capitalize)| == |s|
  {
    if s != "" {
      TitlecaseLength(s[1..], true);
      TitlecaseLength(s[1..], false);
    }
  }

  lemma ShortTitleIsNotDone(s: string)
    ensures Shorten(Titlecase(s, true), 18) != "done"
  {
    TitlecaseStartsUpper(s);
  }

  lemma PrettyStageIsNotDone(stage: string)
    ensures PrettyStage(stage) != "done"
  {
    hide Contains;
  }

  lemma FallbackDoneIsFinished(wifiConnected: bool, g: Signals)
    requires SelectFallback(wifiConnected, g) == "done"
    ensures IsFinished(g.text.status)
  {
    hide Contains, IsFilamentStage, IsPreheatStage, IsCleanStage, IsLevelStage, IsCoolingStage, IsSetupStage,
         IsFinished, PrettyStage, PrettyStatus, Titlecase, Shorten;
    PrettyStageIsNotDone(g.text.stage);
    ShortTitleIsNotDone(g.text.stage);
    ShortTitleIsNotDone(g.text.status);
    PrettyDoneIsFinished(g.text.status);
  }

  /** The label "done" is chosen by strict completion or by the fallback, never on an error. */
  lemma DoneLabelIsFinished(s: Snapshot, g: Signals)
    requires SelectUiStatus(s, g) == "done"
    ensures g.doneStrict || IsFinished(g.text.status)
    ensures !SelectHasError(g) && !g.text.errPrint
  {
    hide Contains, IsFilamentStage, IsPreheatStage, IsCleanStage, IsLevelStage, IsCoolingStage, IsSetupStage,
         IsFinished, SelectFallback, SelectPrintActive;
    if !g.doneStrict {
      assert SelectUiStatus(s, g) == SelectFallback(s.network.wifiConnected, g);
      FallbackDoneIsFinished(s.network.wifiConnected, g);
    }
  }

  /** The lifecycle resolving arrives at. */
  function ResolvedLifecycle(s: Snapshot): Lifecycle {
    SelectLifecycle(s.status.lifecycle, BuildSignals(s))
  }

  /** Resolving does not change the status text: there is one, or the lifecycle it falls back to stays. */
  predicate KeepsStatus(s: Snapshot) {
    !IsNonErrorStop(s) && (s.status.rawStatus != "" || ResolvedLifecycle(s) == s.status.lifecycle)
  }

  lemma StatusIsKept(s: Snapshot, text: ErrorText)
    requires KeepsStatus(s)
    ensures var t := ResolveUiState(s, text);
      && t.status.rawStatus == s.status.rawStatus && t.status.rawStage == s.status.rawStage
      && t.status.stage == s.status.stage
      && EffectiveStatus(t.status) == EffectiveStatus(s.status) && EffectiveStage(t.status) == EffectiveStage(s.status)
  {
    hide BuildSignals, ReadText, SelectUiStatus, SelectLifecycle, ResolveUiState, SelectPrintActive, StillDownloading,
         IsGenericFinishedDetail;
    Decisions(s, text);
  }

  lemma SameTextSameReading(s: Snapshot, t: Snapshot)
    requires EffectiveStatus(t.status) == EffectiveStatus(s.status)
    requires EffectiveStage(t.status) == EffectiveStage(s.status)
    requires t.errors == s.errors && t.metrics.progressPercent == s.metrics.progressPercent
    requires t.metrics.downloadRelated == StillDownloading(s)
    ensures StillDownloading(t) == StillDownloading(s) && ReadText(t) == ReadText(s)
  {
    hide Contains, IsFilamentStage, IsPreheatStage, IsCleanStage, IsLevelStage, IsCoolingStage, IsSetupStage,
         IsFailed, IsPausedStatus, IsPrepareStatus, IsDownloadStage, IsPostDownloadHandoff, EffectiveStatus,
         EffectiveStage;
  }

  /** Resolving keeps all the text the classifiers look at. */
  lemma ClassifiersAreStable(s: Snapshot, text: ErrorText)
    requires KeepsStatus(s)
    ensures var t := ResolveUiState(s, text);
      && !IsNonErrorStop(t) && t.status.rawStatus == s.status.rawStatus
      && EffectiveStatus(t.status) == EffectiveStatus(s.status)
      && EffectiveStage(t.status) == EffectiveStage(s.status)
      && StillDownloading(t) == StillDownloading(s)
      && ReadText(t) == ReadText(s)
  {
    hide ReadText, ResolveUiState, StillDownloading, EffectiveStatus, EffectiveStage, SelectUiStatus, SelectLifecycle,
         SelectHasError, SelectPrintActive, SelectWarnHms, BuildSignals, IsGenericFinishedDetail, ResolvedError;
    StatusIsKept(s, text);
    Decisions(s, text);
    SameTextSameReading(s, ResolveUiState(s, text));
  }

  /** A finished lifecycle, contradicted by a status that looks active, with an error: the first
      application turns it into an error that still looks active, the second one does not see the finish. */
  predicate StaleFinish(s: Snapshot) {
    var status, stage := EffectiveStatus(s.status), EffectiveStage(s.status);
    && s.status.lifecycle == Finished && !FinishedByStatus(s) && !IsFailed(status)
    && (s.status.hasError || (s.errors.printErrorCode != 0 && !IsFilamentStage(stage)))
    && ActiveHint(s)
  }

  /** None of the stages with a label of their own is under way. */
  predicate NoStageLabel(s: Snapshot) {
    var status, stage := EffectiveStatus(s.status), EffectiveStage(s.status);
    && !StillDownloading(s) && !IsDownloadStage(stage, status) && !IsFilamentStage(stage) && !IsPreheatStage(stage)
    && !IsCleanStage(stage) && !IsLevelStage(stage) && !IsCoolingStage(stage, status) && !IsSetupStage(stage)
  }

  predicate IsReachable(s: Snapshot) {
    s.network.wifiConnected || s.status.connection == WaitingForCredentials
  }

  predicate HasHmsAlert(e: Errors) {
    e.hmsCodes != [] || e.hmsAlertCount > 0
  }

  /** A status text that reads as done while the job is neither complete nor confirmed to be idle, and
      nothing else to show: the label falls through to the text. */
  predicate EarlyDoneLabel(s: Snapshot) {
    var status, stage := EffectiveStatus(s.status), EffectiveStage(s.status);
    && s.status.lifecycle != Finished && !s.status.hasError && s.errors.printErrorCode == 0
    && PrettyStatusText(status) == "done"
    && Percent(s.metrics.progressPercent) != 100 && s.metrics.remainingSeconds != 0
    && NoStageLabel(s) && !IsPrepareStatus(status, stage)
    && !Contains(stage, "idle") && !Contains(stage, "offline") && !Contains(stage, "printing")
    && IsReachable(s) && (HasHmsAlert(s.errors) ==> !ActiveHint(s))
  }

  /** What the selectors make of these inputs. */
  predicate DoneTooSoon(s: Snapshot) {
    !DoneStrict(s) && SelectUiStatus(s, BuildSignals(s)) == "done"
  }

  lemma StaleFinishMeans(s: Snapshot)
    ensures var g := BuildSignals(s);
      StaleFinish(s) <==>
      s.status.lifecycle == Finished && !FinishedByStatus(s) && SelectHasError(g) && !g.text.failed && g.activeHint
  {
    hide Contains, IsFilamentStage, IsPreheatStage, IsCleanStage, IsLevelStage, IsCoolingStage, IsSetupStage,
         IsFailed, FinishedByStatus, IsPausedStatus, IsPrepareStatus, IsDownloadStage, ActiveHint, StillDownloading;
  }

  lemma ContainsItself(s: string)
    ensures Contains(s, s)
  {
    assert OccursAt(s, s, 0);
  }

  /** A stage without a label leaves the fallback nothing of its own. */
  lemma NoStageLabelNoPrettyStage(s: Snapshot)
    requires NoStageLabel(s)
    requires var stage := EffectiveStage(s.status);
      !Contains(stage, "printing") && !Contains(stage, "idle") && !Contains(stage, "offline")
    ensures PrettyStage(EffectiveStage(s.status)) == ""
  {
    hide Contains, IsFilamentStage, IsPreheatStage, IsCleanStage, IsLevelStage, IsSetupStage, IsCoolingStage,
         IsDownloadStage, EffectiveStatus, EffectiveStage, StillDownloading;
    var stage := EffectiveStage(s.status);
    ContainsItself(stage);
    StageClassifiersIgnoreStatus(stage, EffectiveStatus(s.status));
  }

  lemma StageClassifiersIgnoreStatus(stage: string, status: string)
    ensures IsCoolingStage(stage, "") ==> IsCoolingStage(stage, status)
    ensures IsDownloadStage(stage, "") ==> IsDownloadStage(stage, status)
  {
    hide Contains;
    EmptyContainsNothing();
    assert Lower("") == "";
  }

  lemma PrettyDoneIsNoFailure(status: string)
    requires PrettyStatusText(status) == "done"
    ensures !IsFailed(status) && IsFinished(status) && status != "offline"
    ensures !Contains(status, "cool")
  {
    hide Contains, Normalize;
    NormalizeIsIdempotent(status);
    PrettyDoneIsFinished(status);
    if status == "offline" { OfflineIsNotFinished(); }
  }

  lemma OfflineIsNotFinished()
    ensures !IsFinished("offline")
  {
    assert Normalize("offline") == "OFFLINE";
    hide Contains, Normalize;
    MissingLetter("OFFLINE", "DONE", 0);
    MissingLetter("OFFLINE", "SUCCESS", 0);
    MissingLetter("OFFLINE", "COMPLETE", 0);
    MissingLetter("OFFLINE", "COMPLETED", 0);
    MissingLetter("OFFLINE", "FINISH", 4);
  }

  lemma MissingLetter(s: string, t: string, k: nat)
    requires k < |t| && t[k] !in s
    ensures !Contains(s, t)
  {
    forall i: nat ensures !OccursAt(s, t, i) {
      if i + |t| <= |s| {
        assert s[i..i + |t|][k] == s[i + k];
      }
    }
  }

  /** The guard on the input is exactly the early label. */
  lemma GuardMeansDoneTooSoon(s: Snapshot)
    ensures EarlyDoneLabel(s) <==> DoneTooSoon(s)
  {
    hide EarlyDoneLabel, DoneTooSoon;
    if EarlyDoneLabel(s) { GuardGivesLabel(s); }
    if DoneTooSoon(s) { LabelGivesGuard(s); }
  }

  lemma GuardGivesLabel(s: Snapshot)
    requires EarlyDoneLabel(s)
    ensures DoneTooSoon(s)
  {
    hide Contains, IsFilamentStage, IsPreheatStage, IsCleanStage, IsLevelStage, IsCoolingStage, IsSetupStage,
         IsFailed, IsFinished, IsPausedStatus, IsPrepareStatus, IsDownloadStage, ActiveHint, StillDownloading,
         PrettyStage, PrettyStatusText, Titlecase, Shorten, EffectiveStatus, EffectiveStage;
    NoStageLabelNoPrettyStage(s);
    PrettyDoneIsNoFailure(EffectiveStatus(s.status));
  }

  lemma LabelGivesGuard(s: Snapshot)
    requires DoneTooSoon(s)
    ensures EarlyDoneLabel(s)
  {
    hide Contains, IsFilamentStage, IsPreheatStage, IsCleanStage, IsLevelStage, IsCoolingStage, IsSetupStage,
         IsFailed, IsFinished, IsPausedStatus, IsPrepareStatus, IsDownloadStage, ActiveHint, StillDownloading,
         PrettyStage, PrettyStatusText, SelectUiStatus, SelectFallback, EffectiveStatus, EffectiveStage;
    var g := BuildSignals(s);
    DoneLabelIsFinished(s, g);
    LabelDoneIsFallback(s, g);
    PrettyDoneIsNoFailure(g.text.status);
  }

  /** The way a label becomes "done" without strict completion. */
  lemma LabelDoneIsFallback(s: Snapshot, g: Signals)
    requires !g.doneStrict && SelectUiStatus(s, g) == "done"
    ensures !g.text.filamentStage && !g.text.downloadStage && !SelectHasError(g) && !SelectWarnHms(g)
    ensures !g.text.preheatStage && !g.text.cleanStage && !g.text.levelStage && !g.text.coolingStage
    ensures !g.text.setupStage && !g.text.preparing && !g.text.idleish && IsReachable(s)
    ensures PrettyStatusText(g.text.status) == "done"
    ensures !Contains(g.text.stage, "idle") && !Contains(g.text.stage, "offline") ==>
              !Contains(g.text.stage, "printing")
  {
    hide Contains, SelectHasError, SelectPrintActive, PrettyStage, PrettyStatusText, Titlecase, Shorten;
    PrettyStageIsNotDone(g.text.stage);
    ShortTitleIsNotDone(g.text.stage);
    ShortTitleIsNotDone(g.text.status);
    PrettyPrinting(g.text.stage);
  }

  lemma PrettyPrinting(stage: string)
    ensures Contains(stage, "printing") ==> PrettyStage(stage) != ""
  {
    hide Contains, IsFilamentStage, IsLevelStage, IsPreheatStage, IsCleanStage, IsCoolingStage, IsSetupStage,
         IsDownloadStage;
  }

  /** Only the remaining time can move the signals of a resolved snapshot. */
  lemma SignalsOfResolved(s: Snapshot, text: ErrorText)
    requires KeepsStatus(s)
    ensures var t, g, h := ResolveUiState(s, text), BuildSignals(s), BuildSignals(ResolveUiState(s, text));
      && h.text == g.text && h.inputError == SelectHasError(g)
      && (t.metrics.remainingSeconds == s.metrics.remainingSeconds || IsFinished(g.text.status) ==>
            h.activeHint == g.activeHint)
      && (t.metrics.remainingSeconds == s.metrics.remainingSeconds ==>
            FinishedByStatus(t) == FinishedByStatus(s))
      && (t.metrics.remainingSeconds == 0 && IsFinished(g.text.status) ==> FinishedByStatus(t))
      && (FinishedByStatus(t) ==> IsFinished(g.text.status))
  {
    hide Contains, IsFilamentStage, IsPreheatStage, IsCleanStage, IsLevelStage, IsCoolingStage, IsSetupStage,
         IsPrinting, IsPreparing, IsFailed, IsFinished, SelectUiStatus, SelectLifecycle, SelectHasError,
         SelectPrintActive, SelectWarnHms, IsGenericFinishedDetail, IsPausedStatus, IsPrepareStatus, IsDownloadStage,
         IsPostDownloadHandoff;
    ClassifiersAreStable(s, text);
  }

  /** The second application agrees with the first as soon as its signals do. */
  lemma SameDecisionsSameResult(s: Snapshot, text: ErrorText)
    requires KeepsStatus(s)
    requires var t, g, h := ResolveUiState(s, text), BuildSignals(s), BuildSignals(ResolveUiState(s, text));
      && SelectPrintActive(h) == SelectPrintActive(g)
      && SelectLifecycle(t.status.lifecycle, h) == t.status.lifecycle
      && SelectUiStatus(t, h) == SelectUiStatus(s, g)
    ensures ResolveUiState(ResolveUiState(s, text), text) == ResolveUiState(s, text)
  {
    hide BuildSignals, ReadText, SelectUiStatus, SelectLifecycle, ResolveUiState, SelectPrintActive, StillDownloading,
         EffectiveStatus, EffectiveStage, FinishedByStatus, ActiveHint, IsFinished, IsGenericFinishedDetail;
    var t := ResolveUiState(s, text);
    ClassifiersAreStable(s, text);
    SignalsOfResolved(s, text);
    Decisions(s, text);
    Decisions(t, text);
    assert ResolvedError(t, text) == ResolvedError(s, text);
  }

  /** Labels look at the activity of a job only through print_active. */
  lemma LabelDependsOn(s: Snapshot, t: Snapshot, g: Signals, h: Signals)
    requires t.network == s.network && t.status.connection == s.status.connection
    requires h.text == g.text
    requires SelectHasError(h) == SelectHasError(g) && SelectPrintActive(h) == SelectPrintActive(g)
    requires h.doneStrict == g.doneStrict || SelectHasError(g)
    ensures SelectUiStatus(t, h) == SelectUiStatus(s, g)
  {
    hide Contains, IsFilamentStage, IsPreheatStage, IsCleanStage, IsLevelStage, IsCoolingStage, IsSetupStage,
         SelectHasError, SelectPrintActive, PrettyStage, PrettyStatusText, Titlecase, Shorten;
  }

  lemma ErrorCase(s: Snapshot, text: ErrorText)
    requires KeepsStatus(s) && SelectHasError(BuildSignals(s))
    ensures ResolveUiState(ResolveUiState(s, text), text) == ResolveUiState(s, text) <==> !StaleFinish(s)
    ensures !DoneTooSoon(s)
  {
    hide StaleFinish, BuildSignals, ReadText, ResolveUiState, SelectUiStatus, EffectiveStatus, EffectiveStage,
         FinishedByStatus, ActiveHint,
         IsFinished, IsGenericFinishedDetail, ResolvedError, StillDownloading;
    StaleFinishMeans(s);
    var t, g, h := ResolveUiState(s, text), BuildSignals(s), BuildSignals(ResolveUiState(s, text));
    SignalsOfResolved(s, text);
    Decisions(s, text);
    if SelectUiStatus(s, g) == "done" { DoneLabelIsFinished(s, g); }
    SignalFacts(s);
    SignalFacts(t);
    if StaleFinish(s) {
      ClassifiersAreStable(s, text);
      Decisions(t, text);
    } else {
      LabelDependsOn(s, t, g, h);
      SameDecisionsSameResult(s, text);
    }
  }

  lemma DoneTooSoonMeans(s: Snapshot)
    ensures DoneTooSoon(s) ==> !DoneStrict(s)
  {
    hide DoneStrict, SelectUiStatus, BuildSignals;
  }

  lemma SignalFacts(s: Snapshot)
    ensures var g := BuildSignals(s);
      g.doneStrict == (s.status.lifecycle == Finished || FinishedByStatus(s)) && g.doneStrict == DoneStrict(s) &&
      g.inputError == s.status.hasError && g.text.errPrint == (s.errors.printErrorCode != 0) &&
      g.text.status == EffectiveStatus(s.status) &&
      (FinishedByStatus(s) ==> IsFinished(g.text.status)) &&
      (IsFinished(g.text.status) && s.metrics.remainingSeconds == 0 ==> FinishedByStatus(s))
  {
    hide Contains, IsFilamentStage, IsPreheatStage, IsCleanStage, IsLevelStage, IsCoolingStage, IsSetupStage,
         IsFailed, IsFinished, IsPausedStatus, IsPrepareStatus, IsDownloadStage, ActiveHint, StillDownloading;
  }

  lemma DoneCase(s: Snapshot, text: ErrorText)
    requires KeepsStatus(s)
    requires !SelectHasError(BuildSignals(s)) && DoneStrict(s)
    ensures ResolveUiState(ResolveUiState(s, text), text) == ResolveUiState(s, text)
  {
    hide BuildSignals, ReadText, ResolveUiState, SelectUiStatus, EffectiveStatus, EffectiveStage,
         FinishedByStatus, ActiveHint,
         IsFinished, IsGenericFinishedDetail, ResolvedError, StillDownloading;
    var t, g, h := ResolveUiState(s, text), BuildSignals(s), BuildSignals(ResolveUiState(s, text));
    SignalsOfResolved(s, text);
    Decisions(s, text);
    SignalFacts(s);
    SignalFacts(t);
    LabelDependsOn(s, t, g, h);
    SameDecisionsSameResult(s, text);
  }

  /** The early label zeroes the remaining time, which completes the job the next time round. */
  lemma EarlyLabelCase(s: Snapshot, text: ErrorText)
    requires KeepsStatus(s)
    requires !SelectHasError(BuildSignals(s)) && DoneTooSoon(s)
    ensures ResolveUiState(s, text).status.lifecycle != Finished
    ensures ResolveUiState(ResolveUiState(s, text), text).status.lifecycle == Finished
  {
    hide BuildSignals, ReadText, ResolveUiState, SelectUiStatus, EffectiveStatus, EffectiveStage,
         FinishedByStatus, ActiveHint,
         IsFinished, IsGenericFinishedDetail, ResolvedError, StillDownloading, SelectPrintActive;
    var t, g, h := ResolveUiState(s, text), BuildSignals(s), BuildSignals(ResolveUiState(s, text));
    SignalsOfResolved(s, text);
    Decisions(s, text);
    DoneLabelIsFinished(s, g);
    ClassifiersAreStable(s, text);
    SignalFacts(s);
    SignalFacts(t);
    assert h.doneStrict;
    Decisions(t, text);
  }

  lemma OpenCase(s: Snapshot, text: ErrorText)
    requires KeepsStatus(s)
    requires !SelectHasError(BuildSignals(s)) && !DoneStrict(s) && !DoneTooSoon(s)
    ensures ResolveUiState(ResolveUiState(s, text), text) == ResolveUiState(s, text)
  {
    hide BuildSignals, ReadText, ResolveUiState, SelectUiStatus, EffectiveStatus, EffectiveStage,
         FinishedByStatus, ActiveHint,
         IsFinished, IsGenericFinishedDetail, ResolvedError, StillDownloading;
    var t, g, h := ResolveUiState(s, text), BuildSignals(s), BuildSignals(ResolveUiState(s, text));
    SignalsOfResolved(s, text);
    Decisions(s, text);
    SignalFacts(s);
    SignalFacts(t);
    assert !ShowsFinished(t);
    assert h == g;
    LabelDependsOn(s, t, g, h);
    SameDecisionsSameResult(s, text);
  }

  /** While the status text is kept, resolving is idempotent exactly outside two families of inputs. */
  lemma IdempotentWhileStatusIsKept(s: Snapshot, text: ErrorText)
    requires KeepsStatus(s)
    ensures ResolveUiState(ResolveUiState(s, text), text) == ResolveUiState(s, text)
            <==> !StaleFinish(s) && !EarlyDoneLabel(s)
  {
    hide ResolveUiState, BuildSignals, SelectUiStatus, SelectHasError, FinishedByStatus, StaleFinish, EarlyDoneLabel,
         DoneTooSoon, ActiveHint, KeepsStatus;
    GuardMeansDoneTooSoon(s);
    DoneTooSoonMeans(s);
    StaleFinishMeans(s);
    if SelectHasError(BuildSignals(s)) {
      ErrorCase(s, text);
    } else if DoneStrict(s) {
      DoneCase(s, text);
    } else if DoneTooSoon(s) {
      EarlyLabelCase(s, text);
    } else {
      OpenCase(s, text);
    }
  }

  /** resolve_ui_state is idempotent exactly outside two families of inputs. */
  lemma IdempotentExactly(s: Snapshot, text: ErrorText)
    requires s.status.rawStatus != ""
    ensures ResolveUiState(ResolveUiState(s, text), text) == ResolveUiState(s, text)
            <==> IsNonErrorStop(s) || (!StaleFinish(s) && !EarlyDoneLabel(s))
  {
    hide ResolveUiState, StaleFinish, EarlyDoneLabel, ResolvedLifecycle;
    if IsNonErrorStop(s) {
      NonErrorStopIsIdempotent(s, text);
    } else {
      IdempotentWhileStatusIsKept(s, text);
    }
  }

  /** A cancelled job resolves idempotently, whatever its raw status. */
  lemma NonErrorStopIsIdempotent(s: Snapshot, text: ErrorText)
    requires IsNonErrorStop(s)
    ensures ResolveUiState(ResolveUiState(s, text), text) == ResolveUiState(s, text)
  {
  }

  // ----- inputs in the exceptional families

  /** Text no longer than a token contains it only by being it. */
  lemma ShortTextContains(s: string, t: string)
    requires |s| <= |t|
    ensures Contains(s, t) <==> s == t
  {
    if s == t { assert OccursAt(s, t, 0); }
  }

  lemma XIsNoStatusWord()
    ensures Lower("x") == "x" && !IsFailed("x") && !IsFinished("x")
  {
    assert Normalize("x") == "X";
    hide Contains, Normalize;
    ShortTextContains("X", "FAIL");
    ShortTextContains("X", "ERROR");
    ShortTextContains("X", "CANCEL");
    ShortTextContains("X", "DONE");
    ShortTextContains("X", "SUCCESS");
    ShortTextContains("X", "COMPLETE");
    ShortTextContains("X", "COMPLETED");
    ShortTextContains("X", "FINISH");
  }

  lemma DoneIsFinished()
    ensures Lower("DONE") == "done" && Normalize("done") == "DONE" && Normalize("DONE") == "DONE"
    ensures IsFinished("done") && !IsFailed("done") && PrettyStatus("done") == "done"
  {
    assert Lower("DONE") == "done";
    assert Normalize("done") == "DONE" && Normalize("DONE") == "DONE";
    hide Contains, Normalize;
    ShortTextContains("DONE", "FAIL");
    ShortTextContains("DONE", "ERROR");
    ShortTextContains("DONE", "CANCEL");
    ShortTextContains("DONE", "DONE");
    ShortTextContains("DONE", "DOWNLOAD");
  }

  /** A half-done job on Wi-Fi with the given status text and nothing else known. */
  function HalfDone(lifecycle: Lifecycle, rawStatus: string, hasError: bool): Snapshot {
    DEFAULT_SNAPSHOT.(
      status := Status(Online, lifecycle, "", "", rawStatus, "", hasError),
      metrics := DEFAULT_SNAPSHOT.metrics.(progressPercent := 50.0, remainingSeconds := 60),
      network := Network(true, ""))
  }

  lemma HalfDoneReads(lifecycle: Lifecycle, rawStatus: string, hasError: bool)
    ensures var s := HalfDone(lifecycle, rawStatus, hasError);
      Percent(s.metrics.progressPercent) == 50 && EffectiveStage(s.status) == "" && ActiveHint(s)
  {
    assert Percent(50.0) == 50;
  }

  lemma StaleFinishExists(text: ErrorText)
    ensures var s := HalfDone(Finished, "x", true);
      StaleFinish(s) && ResolveUiState(ResolveUiState(s, text), text) != ResolveUiState(s, text)
  {
    hide IsFinished, IsFailed, ActiveHint, ResolveUiState, Contains, Normalize;
    var s := HalfDone(Finished, "x", true);
    HalfDoneReads(Finished, "x", true);
    XIsNoStatusWord();
    IdempotentExactly(s, text);
  }

  lemma EarlyDoneLabelExists(text: ErrorText)
    ensures var s := HalfDone(Printing, "DONE", false);
      EarlyDoneLabel(s) && ResolveUiState(ResolveUiState(s, text), text) != ResolveUiState(s, text)
  {
    hide IsFinished, IsFailed, ActiveHint, ResolveUiState, Contains, Normalize, SelectUiStatus, EarlyDoneLabel,
         StaleFinish, BuildSignals, FinishedByStatus;
    var s := HalfDone(Printing, "DONE", false);
    HalfDoneReads(Printing, "DONE", false);
    DoneIsFinished();
    DoneHasNoOtherLabel(s);
    assert DoneTooSoon(s);
    GuardMeansDoneTooSoon(s);
    IdempotentExactly(s, text);
  }

  lemma EmptyContainsNothing()
    ensures forall t: string | |t| > 0 :: !Contains("", t)
  {
  }

  /** Without a stage, no stage classifier applies. */
  lemma EmptyStageIsNoStage(status: string)
    ensures !IsFilamentStage("") && !IsCleanStage("") && !IsLevelStage("")
    ensures IsCoolingStage("", status) == Contains(status, "cool")
    ensures IsDownloadStage("", status) == Contains(Lower(status), "download")
  {
    hide Contains;
    EmptyContainsNothing();
    assert Lower("") == "";
  }

  lemma EmptyStageIsNoPreheat()
    ensures !IsPreheatStage("")
  {
    hide Contains;
    EmptyContainsNothing();
  }

  lemma EmptyStageIsNoSetup()
    ensures !IsSetupStage("")
  {
    hide Contains;
    EmptyContainsNothing();
  }

  /** "done" is neither a preparing status nor any other kind of activity. */
  lemma DoneIsNoActivity()
    ensures !IsPreparing("done") && !Contains("done", "cool") && !Contains("done", "download")
  {
    hide Normalize, Contains;
    DoneIsFinished();
    ShortTextContains("DONE", "PREPARE");
    ShortTextContains("DONE", "PREPARING");
    ShortTextContains("DONE", "STARTING");
    ShortTextContains("DONE", "HEATING");
    ShortTextContains("DONE", "DOWNLOAD");
    ShortTextContains("done", "cool");
    ShortTextContains("done", "download");
  }

  lemma HalfDoneText(s: Snapshot)
    requires s == HalfDone(Printing, "DONE", false)
    ensures var g := ReadText(s);
      && g.status == "done" && g.stage == ""
      && !g.downloadStage && !g.filamentStage && !g.preheatStage && !g.cleanStage && !g.levelStage
      && !g.coolingStage && !g.setupStage && !g.failed && !g.errPrint && !g.errHms && !g.preparing && !g.idleish
  {
    hide Contains, IsFailed, IsFilamentStage, IsPreheatStage, IsCleanStage, IsLevelStage,
         IsSetupStage, IsCoolingStage, IsDownloadStage, IsPreparing, IsPausedStatus, PrettyStatus, Normalize,
         IsFinished, IsPostDownloadHandoff;
    HalfDoneReads(Printing, "DONE", false);
    DoneIsFinished();
    DoneIsNoActivity();
    EmptyStageIsNoStage("done");
    EmptyStageIsNoPreheat();
    EmptyStageIsNoSetup();
    EmptyContainsNothing();
    assert Lower("done") == "done";
  }

  lemma EmptyStageHasNoLabel()
    ensures PrettyStage("") == ""
  {
    hide Contains, IsFilamentStage, IsPreheatStage, IsCleanStage, IsLevelStage, IsSetupStage, IsCoolingStage,
         IsDownloadStage;
    EmptyStageIsNoStage("");
    EmptyStageIsNoPreheat();
    EmptyStageIsNoSetup();
    EmptyContainsNothing();
    assert Lower("") == "";
  }

  lemma DoneHasNoOtherLabel(s: Snapshot)
    requires s == HalfDone(Printing, "DONE", false)
    ensures SelectUiStatus(s, BuildSignals(s)) == "done" && !FinishedByStatus(s)
  {
    hide Contains, Normalize, ReadText, ActiveHint, PrettyStatus, PrettyStage, IsFinished, Shorten, Titlecase;
    HalfDoneText(s);
    HalfDoneReads(Printing, "DONE", false);
    DoneIsFinished();
    DoneIsNoActivity();
    EmptyContainsNothing();
    EmptyStageHasNoLabel();
    assert SelectFallback(true, BuildSignals(s)) == "done";
  }
}
