/** What the display shows of a resolved snapshot, as tables over the fields it was resolved from. */
module LabelLaws {
  import opened Text
  import B = BambuStatus
  import opened BambuStatus
  import opened PrinterState
  import opened UiState
  import opened UiStateLaws
  import opened StatusWords

  // ----- what the fields say

  /** An error flag, a failed status, or an error code outside a filament change, where it is a prompt. */
  predicate InError(s: Snapshot) {
    || s.status.hasError || IsFailed(EffectiveStatus(s.status))
    || (s.errors.printErrorCode != 0 && !IsFilamentStage(EffectiveStage(s.status)))
  }

  /** The progress in whole percent, rounded half up and kept within 0 and 100. */
  predicate IsPercent(x: real, p: int) {
    0 <= p <= 100 &&
    (if x < 0.5 then p == 0 else if x >= 99.5 then p == 100 else p as real - 0.5 <= x < p as real + 0.5)
  }

  lemma PercentRounds(x: real)
    ensures IsPercent(x, Percent(x))
  {
  }

  predicate OverBy(s: Snapshot) {
    || s.status.lifecycle == Finished
    || (IsFinished(EffectiveStatus(s.status))
        && (Percent(s.metrics.progressPercent) == 100 || s.metrics.remainingSeconds == 0
            || Contains(EffectiveStage(s.status), "idle")))
  }

  /** A download in progress that has not handed off to the next stage at 100 percent. */
  predicate Downloading(s: Snapshot) {
    s.metrics.downloadRelated &&
    !(Percent(s.metrics.progressPercent) == 100
      && IsPostDownloadHandoff(EffectiveStage(s.status), EffectiveStatus(s.status)))
  }

  /** Anything that speaks for a job under way. */
  predicate UnderWay(s: Snapshot) {
    var status, stage, progress, m :=
      EffectiveStatus(s.status), EffectiveStage(s.status), Percent(s.metrics.progressPercent), s.metrics;
    || IsPrinting(status) || IsPreparing(status) || IsPaused(status)
    || Contains(status, "print") || Contains(status, "download") || Contains(stage, "download")
    || Contains(stage, "pause") || Contains(stage, "printing")
    || 1 <= progress <= 99 || (m.currentLayer > 0 && progress < 100) || (m.remainingSeconds > 0 && !IsFinished(status))
    || Downloading(s) || IsDownloadStage(stage, status) || IsFilamentStage(stage) || IsPreheatStage(stage)
    || IsCleanStage(stage) || IsLevelStage(stage) || IsCoolingStage(stage, status) || IsSetupStage(stage)
  }

  predicate Active(s: Snapshot) {
    !IsFailed(EffectiveStatus(s.status)) && !OverBy(s) && UnderWay(s)
  }

  predicate Alert(s: Snapshot) {
    s.errors.hmsCodes != [] || s.errors.hmsAlertCount > 0
  }

  predicate Preparation(s: Snapshot) {
    IsPrepareStatus(EffectiveStatus(s.status), EffectiveStage(s.status))
  }

  predicate OutOfReach(s: Snapshot) {
    !s.network.wifiConnected && s.status.connection != WaitingForCredentials
  }

  lemma FieldsSay(s: Snapshot)
    ensures var g := BuildSignals(s);
      && SelectHasError(g) == InError(s) && g.doneStrict == OverBy(s) && g.activeHint == UnderWay(s)
      && SelectPrintActive(g) == Active(s) && g.text.errHms == Alert(s) && StillDownloading(s) == Downloading(s)
  {
    hide Contains, IsFilamentStage, IsPreheatStage, IsCleanStage, IsLevelStage, IsCoolingStage, IsSetupStage,
         IsFailed, IsFinished, IsPaused, IsPreparing, IsPrinting, IsDownloadStage, IsPostDownloadHandoff,
         EffectiveStatus, EffectiveStage, Percent;
    PreparingAndPaused(EffectiveStatus(s.status), EffectiveStage(s.status));
  }

  lemma TextSays(s: Snapshot)
    ensures var g, stage, status := ReadText(s), EffectiveStage(s.status), EffectiveStatus(s.status);
      && g.stage == stage && g.status == status && g.progress == Percent(s.metrics.progressPercent)
      && g.filamentStage == IsFilamentStage(stage)
      && g.downloadStage == (StillDownloading(s) || IsDownloadStage(stage, status))
      && g.preheatStage == IsPreheatStage(stage) && g.cleanStage == IsCleanStage(stage)
      && g.levelStage == IsLevelStage(stage) && g.coolingStage == IsCoolingStage(stage, status)
      && g.setupStage == IsSetupStage(stage) && g.preparing == Preparation(s)
      && g.paused == IsPausedStatus(status, stage)
      && g.idleish == (Contains(stage, "idle") || Contains(stage, "offline"))
      && g.idleStatus == (status == "idle" || status == "offline" || Contains(status, "wait"))
  {
    hide Contains, IsFilamentStage, IsPreheatStage, IsCleanStage, IsLevelStage, IsCoolingStage, IsSetupStage,
         IsFailed, IsFinished, IsPausedStatus, IsPrepareStatus, IsDownloadStage, StillDownloading, EffectiveStatus,
         EffectiveStage, Percent;
  }

  // ----- the tables

  /** A status or stage text that no classifier knows is shown as it came, in capitals and cut short. */
  function AsItCame(text: string): string {
    Shorten(Titlecase(text, true), 18)
  }

  /** The label once no stage, error or completion has one to give: the first line that applies. */
  function PlainLabel(stage: string, status: string, wifi: bool): string {
    if Contains(stage, "printing") then "printing"
    else if PrettyStatus(status) != "" then PrettyStatus(status)
    else if stage != "" then AsItCame(stage)
    else if status != "" then AsItCame(status)
    else if wifi then "waiting..." else "offline"
  }

  /** The label of every snapshot: the first line that applies. */
  lemma LabelTable(s: Snapshot, text: ErrorText)
    requires !IsNonErrorStop(s)
    ensures var stage, status := EffectiveStage(s.status), EffectiveStatus(s.status);
      var percent := Percent(s.metrics.progressPercent);
      ResolveUiState(s, text).ui.uiStatus ==
      if IsFilamentStage(stage) && Contains(stage, "filament_unloading") then "unloading"
      else if IsFilamentStage(stage) then "loading"
      else if Downloading(s) || IsDownloadStage(stage, status) then "downloading"
      else if InError(s) then "failed"
      else if Alert(s) && Active(s) then "printing"
      else if OverBy(s) then "done"
      else if IsPreheatStage(stage) then "preheating"
      else if IsCleanStage(stage) then "clean nozzle"
      else if IsLevelStage(stage) then "bed level"
      else if IsCoolingStage(stage, status) then "cooling"
      else if IsSetupStage(stage) || Preparation(s) then "preparing"
      else if Contains(stage, "offline") || status == "offline" || OutOfReach(s) then "offline"
      else if Contains(stage, "idle") && (1 <= percent <= 99 || Active(s)) then "printing"
      else if Contains(stage, "idle") then "idle"
      else PlainLabel(stage, status, s.network.wifiConnected)
  {
    hide Contains, IsFilamentStage, IsPreheatStage, IsCleanStage, IsLevelStage, IsCoolingStage, IsSetupStage,
         IsDownloadStage, BuildSignals, ReadText, SelectHasError, SelectPrintActive, SelectFallback, ResolveUiState,
         Downloading, InError, Active, Alert, OverBy, Preparation, Percent, EffectiveStage, EffectiveStatus,
         PlainLabel, StillDownloading, SelectLifecycle, ResolvedError, IsGenericFinishedDetail, IsNonErrorStop;
    var g := BuildSignals(s);
    Decisions(s, text);
    FieldsSay(s);
    TextSays(s);
    TextOfSignals(s);
    AlertOfSignals(g);
    if NothingApplies(s) {
      FallbackIsPlain(s, g);
    }
  }

  lemma TextOfSignals(s: Snapshot)
    ensures BuildSignals(s).text == ReadText(s)
  {
    hide ReadText, DoneStrict, ActiveHint;
  }

  lemma AlertOfSignals(g: Signals)
    ensures SelectWarnHms(g) == (g.text.errHms && SelectPrintActive(g) && !SelectHasError(g))
  {
    hide SelectPrintActive, SelectHasError;
  }

  /** No stage, and no place in it, has a label to give. */
  predicate NothingApplies(s: Snapshot) {
    var stage, status := EffectiveStage(s.status), EffectiveStatus(s.status);
    && !IsFilamentStage(stage) && !IsDownloadStage(stage, status) && !IsPreheatStage(stage) && !IsCleanStage(stage)
    && !IsLevelStage(stage) && !IsCoolingStage(stage, status) && !IsSetupStage(stage)
    && !Contains(stage, "idle") && !Contains(stage, "offline")
  }

  lemma FallbackIsPlain(s: Snapshot, g: Signals)
    requires NothingApplies(s) && g.text.stage == EffectiveStage(s.status) && g.text.status == EffectiveStatus(s.status)
    ensures SelectFallback(s.network.wifiConnected, g) ==
            PlainLabel(EffectiveStage(s.status), EffectiveStatus(s.status), s.network.wifiConnected)
  {
    hide Contains, IsFilamentStage, IsPreheatStage, IsCleanStage, IsLevelStage, IsSetupStage, IsDownloadStage,
         EffectiveStage, EffectiveStatus, PrettyStage, PrettyStatus, Titlecase, Shorten, IsCoolingStage;
    StageHasItsOwnWord(g.text.stage, g.text.status);
    CoolingWords(g.text.stage, g.text.status);
  }

  lemma StageHasItsOwnWord(stage: string, status: string)
    requires !IsFilamentStage(stage) && !IsDownloadStage(stage, status) && !IsPreheatStage(stage)
    requires !IsCleanStage(stage) && !IsLevelStage(stage) && !IsCoolingStage(stage, status) && !IsSetupStage(stage)
    requires !Contains(stage, "idle") && !Contains(stage, "offline")
    ensures PrettyStage(stage) == if Contains(stage, "printing") then "printing" else ""
  {
    ContainsItself(stage);
    StageClassifiersIgnoreStatus(stage, status);
    hide Contains, IsFilamentStage, IsPreheatStage, IsCleanStage, IsLevelStage, IsSetupStage, IsCoolingStage,
         IsDownloadStage;
  }

  /** The flags of every snapshot, and its lifecycle: the first line that applies. */
  lemma FlagsTable(s: Snapshot, text: ErrorText)
    requires !IsNonErrorStop(s)
    ensures var t := ResolveUiState(s, text);
      && t.status.hasError == InError(s) && t.ui.printActive == Active(s)
      && t.ui.warnHms == (Alert(s) && Active(s) && !InError(s))
      && t.metrics.downloadRelated == Downloading(s)
  {
    hide BuildSignals, ReadText, SelectHasError, SelectPrintActive, SelectUiStatus, ResolveUiState, Downloading,
         InError, Active, Alert, StillDownloading, ResolvedError, IsGenericFinishedDetail, IsNonErrorStop,
         SelectLifecycle, SelectWarnHms;
    Decisions(s, text);
    FieldsSay(s);
    AlertOfSignals(BuildSignals(s));
  }

  lemma LifecycleTable(s: Snapshot, text: ErrorText)
    requires !IsNonErrorStop(s)
    ensures var stage, status := EffectiveStage(s.status), EffectiveStatus(s.status);
      ResolveUiState(s, text).status.lifecycle ==
         if InError(s) then LifecycleError
         else if OverBy(s) then Finished
         else if IsPausedStatus(status, stage) then Paused
         else if Preparation(s) then Preparing
         else if Active(s) then Printing
         else if Contains(stage, "idle") || Contains(stage, "offline") || Contains(status, "wait")
                 || status == "idle" || status == "offline" then B.Idle
         else s.status.lifecycle
  {
    hide Contains, IsPausedStatus, BuildSignals, ReadText, SelectHasError, SelectPrintActive, SelectUiStatus,
         ResolveUiState, Downloading, InError, Active, Alert, OverBy, Preparation, EffectiveStage, EffectiveStatus,
         StillDownloading, ResolvedError, IsGenericFinishedDetail, IsNonErrorStop;
    Decisions(s, text);
    FieldsSay(s);
    TextSays(s);
    TextOfSignals(s);
  }

  /** Words of a detail that say no more than the label does. */
  predicate SaysNothing(detail: string, stage: string) {
    var d := Lower(detail);
    || detail == "" || d == Lower(stage) || d == "printing" || d == "preparing" || d == "paused"
    || d == "running" || d == "finished" || d == "done" || d == "status"
  }

  /** The detail and the remaining time: the text of an error, unless the job is done without a code; a done
      job keeps a detail that says something, and has no time left. */
  lemma DetailTable(s: Snapshot, text: ErrorText)
    requires !IsNonErrorStop(s)
    ensures var t := ResolveUiState(s, text);
      var done := t.status.lifecycle == Finished || t.ui.uiStatus == "done";
      var model := if s.sources.status == Local && s.local.model != UnknownModel then s.local.model
                   else if s.sources.status == Cloud && s.cloud.model != UnknownModel then s.cloud.model
                   else if s.local.model != UnknownModel then s.local.model else s.cloud.model;
      var e := s.errors;
      var error := if done && e.printErrorCode == 0 then ""
                   else text(e.printErrorCode, e.hmsCodes, e.hmsAlertCount, model);
      && t.status.detail == (if error != "" then error
                             else if done && SaysNothing(s.status.detail, s.status.stage) then ""
                             else s.status.detail)
      && t.metrics.remainingSeconds == (if error == "" && done then 0 else s.metrics.remainingSeconds)
  {
    hide BuildSignals, SelectHasError, SelectPrintActive, SelectUiStatus, SelectLifecycle, ResolveUiState,
         StillDownloading, IsNonErrorStop, Lower, SelectWarnHms;
    Decisions(s, text);
  }

  /** A job the user stopped: the banner for a while, then ready; nothing of it is left. */
  lemma StopTable(s: Snapshot, text: ErrorText)
    ensures IsNonErrorStop(s) <==>
            s.errors.nonErrorStop && s.errors.printErrorCode == 0 && s.errors.hmsAlertCount == 0
            && s.errors.hmsCodes == []
    ensures IsNonErrorStop(s) ==>
      var t, banner := ResolveUiState(s, text), s.errors.showStopBanner;
      t == s.(status := Status(s.status.connection, B.Idle, if banner then "Stopped" else "Idle", "",
                               if banner then s.status.rawStatus else "IDLE",
                               if banner then "Stopped" else "Idle", false),
              ui := Ui(if banner then "stopped" else "ready", false, false),
              metrics := s.metrics.(remainingSeconds := 0))
  {
    hide ApplySelectors, ApplyResolvedDetail;
  }

  /** "failed" is shown for an error and for nothing else. */
  lemma FailedExactly(s: Snapshot, text: ErrorText)
    requires !IsNonErrorStop(s)
    ensures var stage, status := EffectiveStage(s.status), EffectiveStatus(s.status);
      ResolveUiState(s, text).ui.uiStatus == "failed" <==>
      InError(s) && !IsFilamentStage(stage) && !Downloading(s) && !IsDownloadStage(stage, status)
  {
    hide Contains, IsFilamentStage, IsPreheatStage, IsCleanStage, IsLevelStage, IsCoolingStage, IsSetupStage,
         IsDownloadStage, ResolveUiState, Downloading, Active, Alert, OverBy, Preparation, Percent, EffectiveStage,
         EffectiveStatus, IsNonErrorStop, IsFailed, PrettyStatus, AsItCame;
    LabelTable(s, text);
    StatusNamesFailure(EffectiveStatus(s.status));
    TitleIsNotFailed(EffectiveStage(s.status));
    TitleIsNotFailed(EffectiveStatus(s.status));
  }

  lemma StatusNamesFailure(status: string)
    ensures PrettyStatus(status) == "failed" ==> IsFailed(status)
  {
    hide IsFailed, IsFinished, IsPaused, IsPreparing, IsPrinting, Contains, Normalize, PrettyStatus;
    StatusNames(status, false);
  }

  lemma TitleIsNotFailed(s: string)
    ensures AsItCame(s) != "failed"
  {
    TitlecaseStartsUpper(s);
  }

  /** What stands in for a missing status text, and how texts are read. */
  lemma TextsRead(s: Status)
    ensures EffectiveStage(s) == Lower(if s.rawStage != "" then s.rawStage else s.stage)
    ensures s.rawStatus != "" ==> EffectiveStatus(s) == Lower(s.rawStatus)
    ensures s.rawStatus == "" ==>
              (s.lifecycle == Preparing ==> EffectiveStatus(s) == "prepare")
              && (s.lifecycle == Printing ==> EffectiveStatus(s) == "running")
              && (s.lifecycle == Paused ==> EffectiveStatus(s) == "pause")
              && (s.lifecycle == Finished ==> EffectiveStatus(s) == "finish")
              && (s.lifecycle == B.Idle ==> EffectiveStatus(s) == "idle")
              && (s.lifecycle == LifecycleError ==> EffectiveStatus(s) == "failed")
              && (s.lifecycle == Unknown ==> EffectiveStatus(s) == "")
  {
    hide Lower;
  }
}
