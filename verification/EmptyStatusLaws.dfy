/** resolve_ui_state before any status text has arrived: the lifecycle stands in for the text, so
    resolving can change what the next application reads. */
module EmptyStatusLaws {
  import opened Text
  import B = BambuStatus
  import opened BambuStatus
  import opened PrinterState
  import opened UiState
  import opened UiStateLaws

  // ----- the words that stand in for a status

  function TokenLabel(l: Lifecycle): string {
    match l
    case Preparing => "preparing"
    case Printing => "printing"
    case Paused => "paused"
    case Finished => "done"
    case Idle => "idle"
    case LifecycleError => "failed"
    case Unknown => ""
  }

  /** The word of a lifecycle is classified as that lifecycle and nothing else. */
  predicate ReadsAs(l: Lifecycle) {
    var k := Token(l);
    && (IsFailed(k) <==> l == LifecycleError) && (IsFinished(k) <==> l == Finished)
    && (IsPaused(k) <==> l == Paused) && (IsPreparing(k) <==> l == Preparing) && (IsPrinting(k) <==> l == Printing)
    && !Contains(k, "print") && !Contains(k, "download") && !Contains(k, "cool") && !Contains(k, "wait")
    && Lower(k) == k && k != "offline" && (k == "idle" <==> l == B.Idle)
    && PrettyStatusText(k) == TokenLabel(l)
  }

  // Each classifier looks for a few words; a text that lacks one letter of each holds none of them.

  lemma NotFailed(n: string)
    requires 'O' !in n && 'C' !in n && ('F' !in n || 'A' !in n)
    ensures !Contains(n, "FAIL") && !Contains(n, "ERROR") && !Contains(n, "CANCEL")
  {
    MissingLetter(n, "FAIL", if 'F' !in n then 0 else 1);
    MissingLetter(n, "ERROR", 3);
    MissingLetter(n, "CANCEL", 0);
  }

  lemma NotFinished(n: string)
    requires 'O' !in n && 'C' !in n && ('F' !in n || 'S' !in n)
    ensures !Contains(n, "DONE") && !Contains(n, "SUCCESS") && !Contains(n, "COMPLETE") && !Contains(n, "COMPLETED")
    ensures !Contains(n, "FINISH")
  {
    MissingLetter(n, "DONE", 1);
    MissingLetter(n, "SUCCESS", 2);
    MissingLetter(n, "COMPLETE", 0);
    MissingLetter(n, "COMPLETED", 0);
    MissingLetter(n, "FINISH", if 'F' !in n then 0 else 4);
  }

  lemma NotPaused(n: string)
    requires 'P' !in n || 'U' !in n
    ensures !Contains(n, "PAUSE")
  {
    MissingLetter(n, "PAUSE", if 'P' !in n then 0 else 2);
  }

  lemma NotPreparing(n: string)
    requires 'T' !in n && 'O' !in n && ('P' !in n || 'R' !in n)
    ensures !Contains(n, "PREPARE") && !Contains(n, "PREPARING") && !Contains(n, "STARTING")
    ensures !Contains(n, "HEATING") && !Contains(n, "DOWNLOAD")
  {
    MissingLetter(n, "PREPARE", if 'P' !in n then 0 else 1);
    MissingLetter(n, "PREPARING", if 'P' !in n then 0 else 1);
    MissingLetter(n, "STARTING", 1);
    MissingLetter(n, "HEATING", 3);
    MissingLetter(n, "DOWNLOAD", 1);
  }

  lemma NotPrinting(n: string)
    requires 'G' !in n
    ensures !Contains(n, "RUNNING") && !Contains(n, "PRINTING") && !Contains(n, "PROCESSING")
  {
    MissingLetter(n, "RUNNING", 6);
    MissingLetter(n, "PRINTING", 7);
    MissingLetter(n, "PROCESSING", 9);
  }

  lemma NotOffline(n: string)
    requires 'O' !in n
    ensures !Contains(n, "OFFLINE") && !Contains(n, "DOWNLOAD")
  {
    MissingLetter(n, "OFFLINE", 0);
    MissingLetter(n, "DOWNLOAD", 1);
  }

  lemma PlainWord(k: string)
    requires 't' !in k && 'o' !in k
    ensures !Contains(k, "print") && !Contains(k, "wait") && !Contains(k, "download") && !Contains(k, "cool")
  {
    MissingLetter(k, "print", 4);
    MissingLetter(k, "wait", 3);
    MissingLetter(k, "download", 1);
    MissingLetter(k, "cool", 1);
  }

  lemma PrepareText()
    ensures Lower("prepare") == "prepare" && Normalize("prepare") == "PREPARE" && Normalize("PREPARE") == "PREPARE"
  {
    assert Lower("prepare") == "prepare";
    assert Normalize("prepare") == "PREPARE";
    NormalizeIsIdempotent("prepare");
  }

  lemma RunningText()
    ensures Lower("running") == "running" && Normalize("running") == "RUNNING" && Normalize("RUNNING") == "RUNNING"
  {
    assert Lower("running") == "running";
    assert Normalize("running") == "RUNNING";
    NormalizeIsIdempotent("running");
  }

  lemma PauseText()
    ensures Lower("pause") == "pause" && Normalize("pause") == "PAUSE" && Normalize("PAUSE") == "PAUSE"
  {
    assert Lower("pause") == "pause";
    assert Normalize("pause") == "PAUSE";
    NormalizeIsIdempotent("pause");
  }

  lemma FinishText()
    ensures Lower("finish") == "finish" && Normalize("finish") == "FINISH" && Normalize("FINISH") == "FINISH"
  {
    assert Lower("finish") == "finish";
    assert Normalize("finish") == "FINISH";
    NormalizeIsIdempotent("finish");
  }

  lemma IdleText()
    ensures Lower("idle") == "idle" && Normalize("idle") == "IDLE" && Normalize("IDLE") == "IDLE"
  {
    assert Lower("idle") == "idle";
    assert Normalize("idle") == "IDLE";
    NormalizeIsIdempotent("idle");
  }

  lemma FailedText()
    ensures Lower("failed") == "failed" && Normalize("failed") == "FAILED" && Normalize("FAILED") == "FAILED"
  {
    assert Lower("failed") == "failed";
    assert Normalize("failed") == "FAILED";
    NormalizeIsIdempotent("failed");
  }

  lemma ReadsPrepare()
    ensures ReadsAs(Preparing)
  {
    hide Contains, Normalize, Lower;
    PrepareText();
    ContainsItself("PREPARE");
    NotFailed("PREPARE");
    NotFinished("PREPARE");
    NotPaused("PREPARE");
    NotPrinting("PREPARE");
    NotOffline("PREPARE");
    PlainWord("prepare");
  }

  lemma ReadsRunning()
    ensures ReadsAs(Printing)
  {
    hide Contains, Normalize, Lower;
    RunningText();
    ContainsItself("RUNNING");
    NotFailed("RUNNING");
    NotFinished("RUNNING");
    NotPaused("RUNNING");
    NotPreparing("RUNNING");
    NotOffline("RUNNING");
    PlainWord("running");
  }

  lemma ReadsPause()
    ensures ReadsAs(Paused)
  {
    hide Contains, Normalize, Lower;
    PauseText();
    ContainsItself("PAUSE");
    NotFailed("PAUSE");
    NotFinished("PAUSE");
    NotPreparing("PAUSE");
    NotPrinting("PAUSE");
    NotOffline("PAUSE");
    PlainWord("pause");
  }

  lemma ReadsFinish()
    ensures ReadsAs(Finished)
  {
    hide Contains, Normalize, Lower;
    FinishText();
    ContainsItself("FINISH");
    NotFailed("FINISH");
    NotPaused("FINISH");
    NotPreparing("FINISH");
    NotPrinting("FINISH");
    NotOffline("FINISH");
    PlainWord("finish");
  }

  lemma ReadsIdle()
    ensures ReadsAs(B.Idle)
  {
    hide Contains, Normalize, Lower;
    IdleText();
    ContainsItself("IDLE");
    NotFailed("IDLE");
    NotFinished("IDLE");
    NotPaused("IDLE");
    NotPreparing("IDLE");
    NotPrinting("IDLE");
    NotOffline("IDLE");
    PlainWord("idle");
  }

  lemma FailedHoldsFail()
    ensures Contains("FAILED", "FAIL")
  {
    assert OccursAt("FAILED", "FAIL", 0) by {
      assert "FAILED"[0..4] == "FAIL";
    }
  }

  lemma ReadsFailed()
    ensures ReadsAs(LifecycleError)
  {
    hide Contains, Normalize, Lower;
    FailedText();
    FailedHoldsFail();
    NotFinished("FAILED");
    NotPaused("FAILED");
    NotPreparing("FAILED");
    NotPrinting("FAILED");
    NotOffline("FAILED");
    PlainWord("failed");
  }

  lemma NothingText()
    ensures Lower("") == "" && Normalize("") == ""
  {
  }

  lemma ReadsNothing()
    ensures ReadsAs(Unknown)
  {
    hide Contains, Normalize, Lower;
    NothingText();
    NotFailed("");
    NotFinished("");
    NotPaused("");
    NotPreparing("");
    NotPrinting("");
    PlainWord("");
  }

  lemma TokensRead(l: Lifecycle)
    ensures ReadsAs(l)
  {
    hide ReadsAs;
    match l
    case Preparing => ReadsPrepare();
    case Printing => ReadsRunning();
    case Paused => ReadsPause();
    case Finished => ReadsFinish();
    case Idle => ReadsIdle();
    case LifecycleError => ReadsFailed();
    case Unknown => ReadsNothing();
  }

  // ----- what resolving reads

  lemma TokenFacts(l: Lifecycle)
    ensures (IsFailed(Token(l)) <==> l == LifecycleError) && (IsFinished(Token(l)) <==> l == Finished)
    ensures (IsPaused(Token(l)) <==> l == Paused) && (IsPreparing(Token(l)) <==> l == Preparing)
    ensures IsPrinting(Token(l)) <==> l == Printing
    ensures !Contains(Token(l), "print") && !Contains(Token(l), "download") && !Contains(Token(l), "cool")
    ensures !Contains(Token(l), "wait") && Lower(Token(l)) == Token(l)
    ensures Token(l) != "offline" && (Token(l) == "idle" <==> l == B.Idle)
  {
    hide Token, IsFailed, IsFinished, IsPaused, IsPreparing, IsPrinting, Contains, Lower, PrettyStatusText;
    TokensRead(l);
  }

  lemma StatusIsToken(s: Snapshot)
    requires s.status.rawStatus == ""
    ensures EffectiveStatus(s.status) == Token(s.status.lifecycle)
  {
  }

  lemma UnknownHasNoToken()
    ensures Token(Unknown) == ""
  {
  }

  /** Words for a lifecycle say nothing about a stage. */
  lemma StageReadings(stage: string, l: Lifecycle)
    ensures IsDownloadStage(stage, Token(l)) == IsDownloadStage(stage, "")
    ensures IsCoolingStage(stage, Token(l)) == IsCoolingStage(stage, "")
    ensures IsPostDownloadHandoff(stage, Token(l)) == IsPostDownloadHandoff(stage, "")
    ensures IsPausedStatus(Token(l), stage) == (l == Paused || Contains(stage, "pause"))
    ensures IsPrepareStatus(Token(l), stage) == (l == Preparing || IsPreheatStage(stage) || Contains(stage, "download"))
  {
    hide Token, Contains, IsPreheatStage, IsCleanStage, IsLevelStage, IsSetupStage, IsFilamentStage, IsPaused,
         IsPreparing, IsFailed, IsFinished, IsPrinting, PrettyStatusText, Lower;
    TokenFacts(l);
    TokenFacts(Unknown);
    UnknownHasNoToken();
  }

  /** What the stage text alone says. */
  datatype StageText = StageText(stage: string, download: bool, cooling: bool, paused: bool, preparing: bool)

  function StageOnly(s: Snapshot): StageText {
    var stage := EffectiveStage(s.status);
    StageText(stage, StillDownloading(s) || IsDownloadStage(stage, ""), IsCoolingStage(stage, ""),
              Contains(stage, "pause"), IsPreheatStage(stage) || Contains(stage, "download"))
  }

  /** The signals that depend on the lifecycle that stands in for the status. */
  predicate ReadsWith(g: TextSignals, l: Lifecycle, n: StageText) {
    && g.status == Token(l) && g.stage == n.stage && g.failed == (l == LifecycleError)
    && g.downloadStage == n.download && g.coolingStage == n.cooling
    && g.paused == (l == Paused || n.paused) && g.preparing == (l == Preparing || n.preparing)
    && g.idleStatus == (l == B.Idle)
  }

  /** The signals that do not. */
  predicate StageSignals(g: TextSignals, stage: string, progress: nat, e: Errors) {
    && g.stage == stage && g.progress == progress
    && g.filamentStage == IsFilamentStage(stage) && g.preheatStage == IsPreheatStage(stage)
    && g.cleanStage == IsCleanStage(stage) && g.levelStage == IsLevelStage(stage)
    && g.setupStage == IsSetupStage(stage)
    && g.errPrint == (e.printErrorCode != 0) && g.errHms == HasHmsAlert(e)
    && g.idleish == (Contains(stage, "idle") || Contains(stage, "offline"))
  }

  lemma StatusReadings(s: Snapshot)
    ensures var g, status, stage := ReadText(s), EffectiveStatus(s.status), EffectiveStage(s.status);
      && g.status == status && g.stage == stage && g.failed == IsFailed(status)
      && g.downloadStage == (StillDownloading(s) || IsDownloadStage(stage, status))
      && g.coolingStage == IsCoolingStage(stage, status)
      && g.paused == IsPausedStatus(status, stage) && g.preparing == IsPrepareStatus(status, stage)
      && g.idleStatus == (status == "idle" || status == "offline" || Contains(status, "wait"))
  {
    hide Contains, IsFilamentStage, IsPreheatStage, IsCleanStage, IsLevelStage, IsCoolingStage, IsSetupStage,
         IsDownloadStage, IsPausedStatus, IsPrepareStatus, IsFailed, EffectiveStage, EffectiveStatus,
         StillDownloading, Percent;
  }

  lemma TextReadings(s: Snapshot)
    requires s.status.rawStatus == ""
    ensures ReadsWith(ReadText(s), s.status.lifecycle, StageOnly(s))
  {
    hide Token, Contains, IsPreheatStage, IsCoolingStage, IsDownloadStage, IsPausedStatus, IsPrepareStatus, IsFailed,
         EffectiveStage, EffectiveStatus, StillDownloading, ReadText, IsFinished, IsPaused, IsPreparing, IsPrinting,
         Lower, IsPostDownloadHandoff;
    StatusReadings(s);
    StatusIsToken(s);
    StageReadings(EffectiveStage(s.status), s.status.lifecycle);
    TokenFacts(s.status.lifecycle);
  }

  lemma StageSignalsOf(s: Snapshot)
    ensures StageSignals(ReadText(s), EffectiveStage(s.status), Percent(s.metrics.progressPercent), s.errors)
  {
    hide Contains, IsFilamentStage, IsPreheatStage, IsCleanStage, IsLevelStage, IsCoolingStage, IsSetupStage,
         IsDownloadStage, IsPausedStatus, IsPrepareStatus, IsFailed, EffectiveStage, EffectiveStatus,
         StillDownloading, Percent;
  }

  /** What makes a job look active apart from the status. */
  predicate StageHint(s: Snapshot) {
    var stage, progress, m := EffectiveStage(s.status), Percent(s.metrics.progressPercent), s.metrics;
    || 0 < progress < 100 || Contains(stage, "pause") || Contains(stage, "download") || IsFilamentStage(stage)
    || StillDownloading(s) || IsDownloadStage(stage, "") || IsPreheatStage(stage) || IsCleanStage(stage)
    || IsLevelStage(stage) || IsCoolingStage(stage, "") || IsSetupStage(stage) || Contains(stage, "printing")
    || (m.currentLayer > 0 && progress < 100) || m.remainingSeconds > 0
  }

  lemma HintReadings(s: Snapshot)
    requires s.status.rawStatus == "" && s.status.lifecycle != Finished
    ensures ActiveHint(s) <==> s.status.lifecycle in {Preparing, Printing, Paused} || StageHint(s)
  {
    hide Token, Contains, IsFilamentStage, IsPreheatStage, IsCleanStage, IsLevelStage, IsCoolingStage, IsSetupStage,
         IsDownloadStage, IsPausedStatus, IsPrepareStatus, IsFailed, IsFinished, IsPrinting, IsPreparing,
         EffectiveStage, EffectiveStatus, StillDownloading, Percent;
    StatusIsToken(s);
    StageReadings(EffectiveStage(s.status), s.status.lifecycle);
    TokenFacts(s.status.lifecycle);
  }

  lemma DoneReadings(s: Snapshot)
    requires s.status.rawStatus == ""
    ensures DoneStrict(s) <==> s.status.lifecycle == Finished
  {
    hide Token, Contains, IsFinished, EffectiveStage, EffectiveStatus, Percent;
    StatusIsToken(s);
    TokenFacts(s.status.lifecycle);
  }

  // ----- one more application

  /** A resolved snapshot is a fixed point exactly if its own signals lead to the same decisions. */
  lemma FixedPointExactly(s: Snapshot, text: ErrorText)
    requires !IsNonErrorStop(s)
    requires var t, g, h := ResolveUiState(s, text), BuildSignals(s), BuildSignals(ResolveUiState(s, text));
      && SelectHasError(h) == SelectHasError(g) && h.text.errHms == g.text.errHms
      && StillDownloading(t) == StillDownloading(s)
    ensures var t, g, h := ResolveUiState(s, text), BuildSignals(s), BuildSignals(ResolveUiState(s, text));
      ResolveUiState(t, text) == t <==>
        && SelectPrintActive(h) == SelectPrintActive(g)
        && SelectLifecycle(t.status.lifecycle, h) == t.status.lifecycle
        && SelectUiStatus(t, h) == SelectUiStatus(s, g)
  {
    hide BuildSignals, SelectUiStatus, SelectLifecycle, ResolveUiState, SelectPrintActive, SelectHasError,
         StillDownloading, IsGenericFinishedDetail;
    var t := ResolveUiState(s, text);
    Decisions(s, text);
    Decisions(t, text);
    assert ResolvedError(t, text) == ResolvedError(s, text);
  }

  // ----- decisions without a status text

  predicate ResolvesToError(s: Snapshot) {
    s.status.hasError || (s.errors.printErrorCode != 0 && !IsFilamentStage(EffectiveStage(s.status)))
  }

  lemma SelectorsWithoutStatus(s: Snapshot)
    requires s.status.rawStatus == ""
    ensures var g, l, n := BuildSignals(s), s.status.lifecycle, StageOnly(s);
      && (SelectHasError(g) <==> ResolvesToError(s) || l == LifecycleError)
      && (g.doneStrict <==> l == Finished)
      && (SelectPrintActive(g) <==> l != LifecycleError && l != Finished && ActiveHint(s))
      && ResolvedLifecycle(s) ==
         (if ResolvesToError(s) || l == LifecycleError then LifecycleError
          else if l == Finished then Finished
          else if l == Paused || n.paused then Paused
          else if l == Preparing || n.preparing then Preparing
          else if ActiveHint(s) then Printing
          else if g.text.idleish || l == B.Idle then B.Idle else l)
  {
    hide ReadText, StageOnly, Token, Contains, IsFilamentStage, IsPreheatStage, IsCleanStage, IsLevelStage,
         IsSetupStage, ActiveHint, DoneStrict, EffectiveStage, Percent;
    TextReadings(s);
    StageSignalsOf(s);
    DoneReadings(s);
  }

  /** What the second application reads: only the lifecycle has moved. */
  lemma SecondReading(s: Snapshot, text: ErrorText)
    requires s.status.rawStatus == "" && !IsNonErrorStop(s)
    ensures var t := ResolveUiState(s, text);
      && !IsNonErrorStop(t) && t.status.rawStatus == "" && t.errors == s.errors && t.network == s.network
      && t.status.connection == s.status.connection
      && t.status.lifecycle == ResolvedLifecycle(s) && t.status.hasError == SelectHasError(BuildSignals(s))
      && EffectiveStage(t.status) == EffectiveStage(s.status) && StageOnly(t) == StageOnly(s)
      && StillDownloading(t) == StillDownloading(s)
      && t.metrics.progressPercent == s.metrics.progressPercent && t.metrics.currentLayer == s.metrics.currentLayer
      && (t.metrics.remainingSeconds == s.metrics.remainingSeconds || ShowsFinished(t))
  {
    hide BuildSignals, SelectUiStatus, SelectLifecycle, ResolveUiState, SelectPrintActive, SelectHasError,
         StillDownloading, IsGenericFinishedDetail, EffectiveStage, ResolvedError, StageOnly;
    var t := ResolveUiState(s, text);
    Decisions(s, text);
    assert EffectiveStage(t.status) == EffectiveStage(s.status) by {
      SameStage(s.status, t.status);
    }
    SameDownload(s, t);
  }

  lemma SameStage(a: Status, b: Status)
    requires a.rawStage == b.rawStage && a.stage == b.stage
    ensures EffectiveStage(a) == EffectiveStage(b)
  {
  }

  lemma SameHandOff(s: Snapshot, t: Snapshot)
    requires s.status.rawStatus == "" && t.status.rawStatus == ""
    requires EffectiveStage(t.status) == EffectiveStage(s.status)
    ensures IsPostDownloadHandoff(EffectiveStage(t.status), EffectiveStatus(t.status)) ==
            IsPostDownloadHandoff(EffectiveStage(s.status), EffectiveStatus(s.status))
  {
    hide IsPostDownloadHandoff, EffectiveStage, EffectiveStatus, Token, Contains, IsDownloadStage, IsCoolingStage,
         IsPausedStatus, IsPrepareStatus, IsPreheatStage;
    StatusIsToken(s);
    StatusIsToken(t);
    StageReadings(EffectiveStage(s.status), s.status.lifecycle);
    StageReadings(EffectiveStage(s.status), t.status.lifecycle);
  }

  lemma SameDownload(s: Snapshot, t: Snapshot)
    requires s.status.rawStatus == "" && t.status.rawStatus == ""
    requires EffectiveStage(t.status) == EffectiveStage(s.status)
    requires t.metrics.progressPercent == s.metrics.progressPercent
    requires t.metrics.downloadRelated == StillDownloading(s)
    ensures StillDownloading(t) == StillDownloading(s) && StageOnly(t) == StageOnly(s)
  {
    hide IsPostDownloadHandoff, EffectiveStage, EffectiveStatus, Percent, StageOnly;
    SameHandOff(s, t);
    assert StillDownloading(t) == StillDownloading(s);
    SameStageText(s, t);
  }

  lemma SameStageText(s: Snapshot, t: Snapshot)
    requires EffectiveStage(t.status) == EffectiveStage(s.status) && StillDownloading(t) == StillDownloading(s)
    ensures StageOnly(t) == StageOnly(s)
  {
    hide EffectiveStage, StillDownloading, Contains, IsDownloadStage, IsCoolingStage, IsPreheatStage;
  }

  // ----- the label without a status text

  /** The label of a job that is neither finished nor in error, from its stage and its lifecycle. */
  function ShownLabel(s: Snapshot, n: StageText, l: Lifecycle, active: bool): string {
    var stage, progress := n.stage, Percent(s.metrics.progressPercent);
    if IsFilamentStage(stage) then if Contains(stage, "filament_unloading") then "unloading" else "loading"
    else if n.download then "downloading"
    else if HasHmsAlert(s.errors) && active then "printing"
    else if IsPreheatStage(stage) then "preheating"
    else if IsCleanStage(stage) then "clean nozzle"
    else if IsLevelStage(stage) then "bed level"
    else if n.cooling then "cooling"
    else if IsSetupStage(stage) || l == Preparing || n.preparing then "preparing"
    else if Contains(stage, "offline") || !IsReachable(s) then "offline"
    else if Contains(stage, "idle") then if 0 < progress < 100 || active then "printing" else "idle"
    else ShownFallback(stage, l, s.network.wifiConnected)
  }

  function ShownFallback(stage: string, l: Lifecycle, wifiConnected: bool): string {
    if PrettyStage(stage) != "" then PrettyStage(stage)
    else if TokenLabel(l) != "" then TokenLabel(l)
    else if stage != "" then Shorten(Titlecase(stage, true), 18)
    else if wifiConnected then "waiting..." else "offline"
  }

  lemma TokenIsShown(l: Lifecycle)
    ensures PrettyStatusText(Token(l)) == TokenLabel(l) && (Token(l) == "" <==> l == Unknown)
    ensures TokenLabel(l) == "" <==> l == Unknown
    ensures Token(l) != "offline"
  {
    hide IsFailed, IsFinished, IsPaused, IsPreparing, IsPrinting, Contains, Lower, PrettyStatusText;
    TokensRead(l);
  }

  lemma FallbackWithoutStatus(g: Signals, l: Lifecycle, wifiConnected: bool)
    requires g.text.status == Token(l)
    requires !Contains(g.text.stage, "idle") && !Contains(g.text.stage, "offline")
    ensures SelectFallback(wifiConnected, g) == ShownFallback(g.text.stage, l, wifiConnected)
  {
    hide Token, TokenLabel, Contains, PrettyStage, PrettyStatusText, Titlecase, Shorten;
    TokenIsShown(l);
  }

  lemma LabelOfSignals(s: Snapshot, g: Signals, n: StageText, l: Lifecycle)
    requires ReadsWith(g.text, l, n)
    requires StageSignals(g.text, n.stage, Percent(s.metrics.progressPercent), s.errors)
    requires !SelectHasError(g) && !g.doneStrict
    ensures SelectUiStatus(s, g) == ShownLabel(s, n, l, SelectPrintActive(g))
  {
    hide Token, TokenLabel, Contains, IsFilamentStage, IsPreheatStage, IsCleanStage, IsLevelStage, IsSetupStage,
         Percent, PrettyStage, PrettyStatusText, SelectFallback, ShownFallback, SelectHasError, SelectPrintActive;
    TokenIsShown(l);
    if !Contains(g.text.stage, "idle") && !Contains(g.text.stage, "offline") {
      FallbackWithoutStatus(g, l, s.network.wifiConnected);
    }
  }

  lemma LabelWithoutStatus(s: Snapshot)
    requires s.status.rawStatus == ""
    requires !SelectHasError(BuildSignals(s)) && s.status.lifecycle != Finished
    ensures SelectUiStatus(s, BuildSignals(s)) ==
            ShownLabel(s, StageOnly(s), s.status.lifecycle, SelectPrintActive(BuildSignals(s)))
  {
    hide ReadText, StageOnly, ShownLabel, SelectUiStatus, ActiveHint, DoneStrict, Percent, SelectHasError,
         SelectPrintActive, EffectiveStage, StageSignals;
    TextReadings(s);
    StageSignalsOf(s);
    DoneReadings(s);
    StageOfReading(s);
    LabelOfSignals(s, BuildSignals(s), StageOnly(s), s.status.lifecycle);
  }

  lemma StageOfReading(s: Snapshot)
    ensures StageOnly(s).stage == EffectiveStage(s.status)
  {
    hide StillDownloading, IsDownloadStage, IsCoolingStage, Contains, EffectiveStage, IsPreheatStage;
  }

  lemma LabelInError(s: Snapshot, g: Signals, t: Snapshot, h: Signals)
    requires SelectHasError(g) && SelectHasError(h)
    requires g.text.stage == h.text.stage && g.text.filamentStage == h.text.filamentStage
    requires g.text.downloadStage == h.text.downloadStage
    ensures SelectUiStatus(s, g) == SelectUiStatus(t, h)
  {
    hide Contains, SelectHasError, SelectPrintActive, SelectFallback;
  }

  // ----- the law

  /** An error on a job that looks active: the first application still calls the job active, the second
      one reads the error lifecycle as a failed status and does not. */
  predicate ErrorWhileActive(s: Snapshot) {
    ResolvesToError(s) && s.status.lifecycle != LifecycleError && s.status.lifecycle != Finished && ActiveHint(s)
  }

  /** A lifecycle that resolving turns into paused or printing, on a job with no other label: the label
      follows the lifecycle one application late. */
  predicate LabelLagsBehind(s: Snapshot) {
    var l, stage := s.status.lifecycle, EffectiveStage(s.status);
    && !ResolvesToError(s) && l != LifecycleError && l != Finished
    && NoStageLabel(s) && !HasHmsAlert(s.errors)
    && ((l != Paused && Contains(stage, "pause")) || (l in {B.Idle, Unknown} && ActiveHint(s)))
    && (l == Preparing
        || (IsReachable(s) && !Contains(stage, "idle") && !Contains(stage, "offline") && !Contains(stage, "printing")))
  }

  lemma ErrorStays(s: Snapshot, text: ErrorText)
    requires s.status.rawStatus == "" && !IsNonErrorStop(s) && ResolvesToError(s)
    ensures var g, h := BuildSignals(s), BuildSignals(ResolveUiState(s, text));
      && SelectHasError(g) && SelectHasError(h) && ResolvedLifecycle(ResolveUiState(s, text)) == LifecycleError
      && ResolvedLifecycle(s) == LifecycleError && !SelectPrintActive(h)
  {
    hide BuildSignals, StageOnly, ActiveHint, SelectHasError, SelectPrintActive, ResolvedLifecycle, ResolveUiState,
         EffectiveStage, IsFilamentStage, StillDownloading, IsNonErrorStop, ResolvesToError, ShowsFinished;
    var t := ResolveUiState(s, text);
    SelectorsWithoutStatus(s);
    SecondReading(s, text);
    SelectorsWithoutStatus(t);
  }

  lemma ErrorLabelStays(s: Snapshot, text: ErrorText)
    requires s.status.rawStatus == "" && !IsNonErrorStop(s) && ResolvesToError(s)
    ensures var t, g, h := ResolveUiState(s, text), BuildSignals(s), BuildSignals(ResolveUiState(s, text));
      SelectUiStatus(s, g) == SelectUiStatus(t, h) && g.text.errHms == h.text.errHms
  {
    hide ReadText, StageOnly, Token, SelectUiStatus, ResolveUiState, ActiveHint, DoneStrict, EffectiveStage, Percent,
         SelectPrintActive, StillDownloading, IsFilamentStage, ResolvesToError, SelectHasError, Contains,
         IsPreheatStage, IsCleanStage, IsLevelStage, IsSetupStage, IsNonErrorStop, ShowsFinished, ResolvedLifecycle;
    var t := ResolveUiState(s, text);
    ErrorStays(s, text);
    SecondReading(s, text);
    TextReadings(s);
    TextReadings(t);
    StageSignalsOf(s);
    StageSignalsOf(t);
    StageOfReading(s);
    LabelInError(s, BuildSignals(s), t, BuildSignals(t));
  }

  lemma ErrorMoves(s: Snapshot, text: ErrorText)
    requires s.status.rawStatus == "" && !IsNonErrorStop(s)
    requires ResolvesToError(s) && s.status.lifecycle != LifecycleError
    ensures ResolveUiState(ResolveUiState(s, text), text) == ResolveUiState(s, text) <==> !ErrorWhileActive(s)
  {
    hide BuildSignals, StageOnly, SelectUiStatus, ResolveUiState, ActiveHint, SelectPrintActive, StillDownloading,
         ResolvesToError, SelectHasError, IsNonErrorStop, ShowsFinished, EffectiveStage;
    SelectorsWithoutStatus(s);
    SecondReading(s, text);
    ErrorStays(s, text);
    ErrorLabelStays(s, text);
    FixedPointExactly(s, text);
  }

  lemma ShownLabelIsNotDone(s: Snapshot, n: StageText, l: Lifecycle, active: bool)
    requires l != Finished
    ensures ShownLabel(s, n, l, active) != "done"
  {
    hide PrettyStage, Contains, IsFilamentStage, IsPreheatStage, IsCleanStage, IsLevelStage, IsSetupStage, Titlecase,
         Shorten, Percent;
    PrettyStageIsNotDone(n.stage);
    ShortTitleIsNotDone(n.stage);
  }

  lemma HintIsKept(s: Snapshot, t: Snapshot)
    requires EffectiveStage(t.status) == EffectiveStage(s.status) && StillDownloading(t) == StillDownloading(s)
    requires t.metrics.progressPercent == s.metrics.progressPercent
    requires t.metrics.currentLayer == s.metrics.currentLayer
    requires t.metrics.remainingSeconds == s.metrics.remainingSeconds
    ensures StageHint(t) == StageHint(s)
  {
    hide Contains, IsFilamentStage, IsPreheatStage, IsCleanStage, IsLevelStage, IsCoolingStage, IsSetupStage,
         IsDownloadStage, EffectiveStage, StillDownloading, Percent;
  }

  lemma OpenStaysOpen(s: Snapshot, text: ErrorText)
    requires s.status.rawStatus == "" && !IsNonErrorStop(s)
    requires !ResolvesToError(s) && s.status.lifecycle != LifecycleError && s.status.lifecycle != Finished
    ensures ResolvedLifecycle(s) != Finished && ResolvedLifecycle(s) != LifecycleError
    ensures !SelectHasError(BuildSignals(s)) && !ResolvesToError(ResolveUiState(s, text))
  {
    hide BuildSignals, StageOnly, ActiveHint, SelectHasError, SelectPrintActive, ResolvedLifecycle, ResolveUiState,
         EffectiveStage, IsFilamentStage, StillDownloading, IsNonErrorStop, ResolvesToError, ShowsFinished;
    SelectorsWithoutStatus(s);
    SecondReading(s, text);
    NoNewError(s, ResolveUiState(s, text));
  }

  lemma NoNewError(s: Snapshot, t: Snapshot)
    requires !ResolvesToError(s) && !t.status.hasError && t.errors == s.errors
    requires EffectiveStage(t.status) == EffectiveStage(s.status)
    ensures !ResolvesToError(t)
  {
    hide EffectiveStage, IsFilamentStage;
  }

  lemma MovedHintIsKept(s: Snapshot, text: ErrorText)
    requires s.status.rawStatus == "" && !IsNonErrorStop(s)
    requires !ResolvesToError(s) && s.status.lifecycle != LifecycleError && s.status.lifecycle != Finished
    requires ResolvedLifecycle(s) != s.status.lifecycle
    ensures ActiveHint(ResolveUiState(s, text)) == ActiveHint(s)
  {
    hide BuildSignals, StageOnly, ActiveHint, SelectHasError, ResolvedLifecycle, ResolveUiState, EffectiveStage,
         StillDownloading, IsNonErrorStop, ResolvesToError, StageHint, ShowsFinished;
    var t := ResolveUiState(s, text);
    OpenStaysOpen(s, text);
    SecondReading(s, text);
    HintReadings(s);
    HintReadings(t);
    MovedHint(s);
    if ResolvedLifecycle(s) == B.Idle {
      IdleIsNotFinished(s, text);
      HintIsKept(s, t);
    }
  }

  lemma BusyStageIsActive(s: Snapshot)
    requires s.status.rawStatus == "" && s.status.lifecycle != Finished
    ensures StageOnly(s).paused || StageOnly(s).preparing || s.status.lifecycle in {Preparing, Printing, Paused}
            ==> ActiveHint(s)
  {
    hide StageOnly, ActiveHint, EffectiveStage, Contains, IsPreheatStage, IsFilamentStage, IsCleanStage, IsLevelStage,
         IsSetupStage, IsCoolingStage, IsDownloadStage, StillDownloading, Percent;
    HintReadings(s);
    PausedIsSeen(s);
    PreparingIsText(s);
  }

  /** A lifecycle other than idle is moved to because the job looks active. */
  lemma MovedHint(s: Snapshot)
    requires s.status.rawStatus == ""
    requires !ResolvesToError(s) && s.status.lifecycle != LifecycleError && s.status.lifecycle != Finished
    requires ResolvedLifecycle(s) != s.status.lifecycle
    ensures if ResolvedLifecycle(s) == B.Idle then s.status.lifecycle == Unknown
            else ResolvedLifecycle(s) in {Paused, Preparing, Printing} && ActiveHint(s)
  {
    hide BuildSignals, StageOnly, ActiveHint, SelectHasError, SelectPrintActive, ResolvedLifecycle, ResolvesToError;
    SelectorsWithoutStatus(s);
    BusyStageIsActive(s);
  }

  lemma PreparingIsText(s: Snapshot)
    ensures var stage := EffectiveStage(s.status);
      StageOnly(s).preparing == (IsPreheatStage(stage) || Contains(stage, "download"))
  {
    hide Contains, EffectiveStage, StillDownloading, IsCoolingStage, IsPreheatStage, IsDownloadStage;
  }

  /** A job that is neither finished nor in error moves its lifecycle at most once, and stays as active. */
  lemma LifecycleMovesOnce(s: Snapshot, text: ErrorText)
    requires s.status.rawStatus == "" && !IsNonErrorStop(s)
    requires !ResolvesToError(s) && s.status.lifecycle != LifecycleError && s.status.lifecycle != Finished
    requires ResolvedLifecycle(s) != s.status.lifecycle
    ensures var t, l := ResolveUiState(s, text), ResolvedLifecycle(s);
      && l != Finished && l != LifecycleError && ResolvedLifecycle(t) == l && ActiveHint(t) == ActiveHint(s)
      && !SelectHasError(BuildSignals(s)) && !SelectHasError(BuildSignals(t))
  {
    hide BuildSignals, ActiveHint, SelectHasError, SelectPrintActive, ResolvedLifecycle, ResolveUiState,
         EffectiveStage, StillDownloading, IsNonErrorStop, ResolvesToError, ShowsFinished, StageOnly;
    var t := ResolveUiState(s, text);
    OpenStaysOpen(s, text);
    SelectorsWithoutStatus(s);
    SecondReading(s, text);
    SelectorsWithoutStatus(t);
    MovedHintIsKept(s, text);
    MovedHint(s);
  }

  lemma IdleIsNotFinished(s: Snapshot, text: ErrorText)
    requires s.status.rawStatus == "" && !IsNonErrorStop(s) && s.status.lifecycle != Finished
    requires !SelectHasError(BuildSignals(s)) && ResolvedLifecycle(s) != Finished
    ensures !ShowsFinished(ResolveUiState(s, text))
  {
    hide BuildSignals, SelectUiStatus, SelectLifecycle, ResolveUiState, SelectPrintActive, SelectHasError,
         StillDownloading, IsGenericFinishedDetail, ResolvedError, StageOnly, ShownLabel;
    Decisions(s, text);
    LabelWithoutStatus(s);
    ShownLabelIsNotDone(s, StageOnly(s), s.status.lifecycle, SelectPrintActive(BuildSignals(s)));
  }

  lemma LabelNeedsNoMore(s: Snapshot, t: Snapshot, n: StageText, l: Lifecycle, active: bool)
    requires t.errors == s.errors && t.network == s.network && t.status.connection == s.status.connection
    requires t.metrics.progressPercent == s.metrics.progressPercent
    ensures ShownLabel(t, n, l, active) == ShownLabel(s, n, l, active)
  {
    hide PrettyStage, Contains, IsFilamentStage, IsPreheatStage, IsCleanStage, IsLevelStage, IsSetupStage, Percent,
         ShownFallback;
  }

  /** The labels before and after, when the lifecycle moves. */
  lemma LabelsWhenMoved(s: Snapshot, text: ErrorText)
    requires s.status.rawStatus == "" && !IsNonErrorStop(s)
    requires !ResolvesToError(s) && s.status.lifecycle != LifecycleError && s.status.lifecycle != Finished
    requires ResolvedLifecycle(s) != s.status.lifecycle
    ensures var t, g, h := ResolveUiState(s, text), BuildSignals(s), BuildSignals(ResolveUiState(s, text));
      && SelectPrintActive(g) == SelectPrintActive(h) == ActiveHint(s)
      && SelectUiStatus(s, g) == ShownLabel(s, StageOnly(s), s.status.lifecycle, ActiveHint(s))
      && SelectUiStatus(t, h) == ShownLabel(s, StageOnly(s), ResolvedLifecycle(s), ActiveHint(s))
  {
    hide BuildSignals, SelectUiStatus, ResolveUiState, ActiveHint, StageOnly, SelectPrintActive, StillDownloading,
         SelectHasError, ShownLabel, ResolvesToError, ResolvedLifecycle, EffectiveStage, ShowsFinished, IsNonErrorStop;
    var t := ResolveUiState(s, text);
    SelectorsWithoutStatus(s);
    SecondReading(s, text);
    SelectorsWithoutStatus(t);
    LifecycleMovesOnce(s, text);
    LabelWithoutStatus(s);
    LabelWithoutStatus(t);
    LabelNeedsNoMore(s, t, StageOnly(s), t.status.lifecycle, ActiveHint(s));
  }

  lemma LabelMoves(s: Snapshot, text: ErrorText)
    requires s.status.rawStatus == "" && !IsNonErrorStop(s)
    requires !ResolvesToError(s) && s.status.lifecycle != LifecycleError && s.status.lifecycle != Finished
    requires ResolvedLifecycle(s) != s.status.lifecycle
    ensures ResolveUiState(ResolveUiState(s, text), text) == ResolveUiState(s, text) <==>
            ShownLabel(s, StageOnly(s), ResolvedLifecycle(s), ActiveHint(s)) ==
            ShownLabel(s, StageOnly(s), s.status.lifecycle, ActiveHint(s))
  {
    hide BuildSignals, SelectUiStatus, ResolveUiState, ActiveHint, StageOnly, SelectPrintActive, StillDownloading,
         SelectHasError, ShownLabel, ResolvesToError, EffectiveStage, ShowsFinished, IsNonErrorStop;
    var t := ResolveUiState(s, text);
    LifecycleMovesOnce(s, text);
    LabelsWhenMoved(s, text);
    SecondReading(s, text);
    SameAlerts(s, t);
    FixedPointExactly(s, text);
  }

  lemma SameAlerts(s: Snapshot, t: Snapshot)
    requires t.errors == s.errors
    ensures BuildSignals(t).text.errHms == BuildSignals(s).text.errHms
  {
    hide ReadText, EffectiveStage, Percent, Contains, IsFilamentStage, IsPreheatStage, IsCleanStage, IsLevelStage,
         IsSetupStage, ActiveHint, DoneStrict;
    StageSignalsOf(s);
    StageSignalsOf(t);
  }

  lemma TitleIsNoLabel(stage: string)
    requires stage != ""
    ensures Shorten(Titlecase(stage, true), 18) != "paused" && Shorten(Titlecase(stage, true), 18) != "printing"
  {
    TitlecaseStartsUpper(stage);
  }

  lemma PrettyPreparing(stage: string)
    requires !IsSetupStage(stage)
    ensures PrettyStage(stage) != "preparing"
  {
    hide Contains, IsFilamentStage, IsLevelStage, IsPreheatStage, IsCleanStage, IsCoolingStage, IsSetupStage,
         IsDownloadStage;
  }

  /** Nothing about the stage gives a label. */
  predicate Plain(n: StageText) {
    && !IsFilamentStage(n.stage) && !n.download && !IsPreheatStage(n.stage) && !IsCleanStage(n.stage)
    && !IsLevelStage(n.stage) && !n.cooling && !IsSetupStage(n.stage)
  }

  /** How a job without a status text can move. */
  predicate Moves(s: Snapshot, n: StageText, from: Lifecycle, to: Lifecycle, active: bool) {
    && from != to && from in {Preparing, Printing, Paused, B.Idle, Unknown}
    && (n.preparing ==> IsPreheatStage(n.stage) || n.download)
    && (|| (to == Paused && n.stage != "" && active)
        || (to == Preparing && n.preparing && active && from != Paused)
        || (to == Printing && active && from in {B.Idle, Unknown} && !n.preparing)
        || (to == B.Idle && from == Unknown && !active && !(0 < Percent(s.metrics.progressPercent) < 100)
            && (Contains(n.stage, "idle") || Contains(n.stage, "offline"))))
  }

  lemma FallbackMoves(stage: string, from: Lifecycle, to: Lifecycle, wifiConnected: bool)
    requires to in {Paused, Printing} && from != to && from in {Printing, B.Idle, Unknown}
    requires to == Printing ==> from != Printing
    requires to == Paused ==> stage != ""
    ensures ShownFallback(stage, from, wifiConnected) == ShownFallback(stage, to, wifiConnected) <==>
            PrettyStage(stage) != ""
  {
    hide PrettyStage, Titlecase, Shorten;
    if stage != "" { TitleIsNoLabel(stage); }
  }

  lemma LabelDiffersExactly(s: Snapshot, n: StageText, from: Lifecycle, to: Lifecycle, active: bool)
    requires Moves(s, n, from, to, active)
    ensures ShownLabel(s, n, from, active) != ShownLabel(s, n, to, active) <==>
            && Plain(n) && !HasHmsAlert(s.errors) && to in {Paused, Printing}
            && (from == Preparing
                || (IsReachable(s) && !Contains(n.stage, "idle") && !Contains(n.stage, "offline")
                    && PrettyStage(n.stage) == ""))
  {
    hide PrettyStage, Contains, IsFilamentStage, IsPreheatStage, IsCleanStage, IsLevelStage, IsSetupStage, Percent,
         ShownFallback;
    if to in {Paused, Printing} {
      if from == Preparing {
        if !IsSetupStage(n.stage) { PrettyPreparing(n.stage); }
        PausedFallback(n.stage, s.network.wifiConnected);
      } else {
        FallbackMoves(n.stage, from, to, s.network.wifiConnected);
      }
    }
  }

  lemma PausedFallback(stage: string, wifiConnected: bool)
    ensures ShownFallback(stage, Paused, wifiConnected) == "preparing" ==> PrettyStage(stage) == "preparing"
  {
    hide PrettyStage, Titlecase, Shorten;
  }

  lemma StageIsLower(s: Status)
    ensures Lower(EffectiveStage(s)) == EffectiveStage(s)
  {
  }

  lemma DownloadIsSeen(s: Snapshot)
    ensures Contains(EffectiveStage(s.status), "download") ==> StageOnly(s).download
  {
    hide Contains, Lower, EffectiveStage, StillDownloading, IsCoolingStage, IsPreheatStage;
    StageIsLower(s.status);
  }

  lemma PlainMeansNoStageLabel(s: Snapshot)
    requires s.status.rawStatus == ""
    ensures Plain(StageOnly(s)) <==> NoStageLabel(s)
  {
    hide Contains, IsFilamentStage, IsPreheatStage, IsCleanStage, IsLevelStage, IsCoolingStage, IsSetupStage,
         IsDownloadStage, EffectiveStage, EffectiveStatus, StillDownloading, Token, IsPostDownloadHandoff;
    StatusIsToken(s);
    StageReadings(EffectiveStage(s.status), s.status.lifecycle);
  }

  lemma PrettyStageOfPlain(s: Snapshot)
    requires NoStageLabel(s)
    ensures var stage := EffectiveStage(s.status);
      !Contains(stage, "idle") && !Contains(stage, "offline") ==>
        (PrettyStage(stage) == "" <==> !Contains(stage, "printing"))
  {
    hide Contains, NoStageLabel, PrettyStage, EffectiveStage;
    var stage := EffectiveStage(s.status);
    PrettyPrinting(stage);
    if !Contains(stage, "idle") && !Contains(stage, "offline") && !Contains(stage, "printing") {
      NoStageLabelNoPrettyStage(s);
    }
  }

  lemma QuietJob(s: Snapshot)
    ensures !ActiveHint(s) ==> !(0 < Percent(s.metrics.progressPercent) < 100)
    ensures var stage := EffectiveStage(s.status);
      BuildSignals(s).text.idleish == (Contains(stage, "idle") || Contains(stage, "offline"))
  {
    hide Contains, IsFilamentStage, IsPreheatStage, IsCleanStage, IsLevelStage, IsCoolingStage, IsSetupStage,
         IsDownloadStage, IsPausedStatus, IsPrepareStatus, IsFailed, IsPrinting, IsPreparing, IsFinished,
         EffectiveStage, EffectiveStatus, StillDownloading, Percent;
  }

  lemma StageTextOf(s: Snapshot)
    ensures var n, stage := StageOnly(s), EffectiveStage(s.status);
      && n.stage == stage && n.paused == Contains(stage, "pause") && (n.paused ==> stage != "")
      && (n.preparing ==> IsPreheatStage(stage) || n.download)
  {
    hide StageOnly, Contains, IsPreheatStage, EffectiveStage;
    StageOfReading(s);
    PausedIsSeen(s);
    PreparingIsText(s);
    DownloadIsSeen(s);
    PausedStageIsText(EffectiveStage(s.status));
  }

  lemma JobMoves(s: Snapshot)
    requires s.status.rawStatus == ""
    requires !ResolvesToError(s) && s.status.lifecycle != LifecycleError && s.status.lifecycle != Finished
    requires ResolvedLifecycle(s) != s.status.lifecycle
    ensures Moves(s, StageOnly(s), s.status.lifecycle, ResolvedLifecycle(s), ActiveHint(s))
  {
    hide BuildSignals, StageOnly, ActiveHint, SelectHasError, SelectPrintActive, ResolvedLifecycle, ResolvesToError,
         EffectiveStage, Contains, IsPreheatStage, Percent;
    SelectorsWithoutStatus(s);
    BusyStageIsActive(s);
    QuietJob(s);
    StageTextOf(s);
  }

  lemma MovesToWork(s: Snapshot)
    requires s.status.rawStatus == ""
    requires !ResolvesToError(s) && s.status.lifecycle != LifecycleError && s.status.lifecycle != Finished
    requires ResolvedLifecycle(s) != s.status.lifecycle
    ensures ResolvedLifecycle(s) in {Paused, Printing} <==>
            (s.status.lifecycle != Paused && Contains(EffectiveStage(s.status), "pause"))
            || (s.status.lifecycle in {B.Idle, Unknown} && !StageOnly(s).preparing && ActiveHint(s))
  {
    hide BuildSignals, StageOnly, ActiveHint, SelectHasError, SelectPrintActive, ResolvedLifecycle, ResolvesToError,
         EffectiveStage, Contains, IsPreheatStage, Percent;
    SelectorsWithoutStatus(s);
    BusyStageIsActive(s);
    StageTextOf(s);
  }

  lemma PausedStageIsText(stage: string)
    ensures Contains(stage, "pause") ==> stage != ""
  {
    hide Contains;
    EmptyContainsNothing();
  }

  /** The guard on the input is the condition under which the labels of the two lifecycles differ. */
  lemma LagCondition(s: Snapshot)
    requires s.status.rawStatus == ""
    requires !ResolvesToError(s) && s.status.lifecycle != LifecycleError && s.status.lifecycle != Finished
    requires ResolvedLifecycle(s) != s.status.lifecycle
    ensures var stage := EffectiveStage(s.status);
      LabelLagsBehind(s) <==>
        && Plain(StageOnly(s)) && !HasHmsAlert(s.errors) && ResolvedLifecycle(s) in {Paused, Printing}
        && (s.status.lifecycle == Preparing
            || (IsReachable(s) && !Contains(stage, "idle") && !Contains(stage, "offline")
                && PrettyStage(stage) == ""))
  {
    hide NoStageLabel, Plain, Moves, ActiveHint, EffectiveStage, Contains, PrettyStage, ResolvesToError,
         ResolvedLifecycle, StageOnly, HasHmsAlert, IsReachable;
    MovesToWork(s);
    PlainMeansNoStageLabel(s);
    PreparingIsSeen(s);
    if NoStageLabel(s) { PrettyStageOfPlain(s); }
  }

  lemma LagIsALabelChange(s: Snapshot)
    requires s.status.rawStatus == ""
    requires !ResolvesToError(s) && s.status.lifecycle != LifecycleError && s.status.lifecycle != Finished
    requires ResolvedLifecycle(s) != s.status.lifecycle
    ensures LabelLagsBehind(s) <==>
            ShownLabel(s, StageOnly(s), ResolvedLifecycle(s), ActiveHint(s)) !=
            ShownLabel(s, StageOnly(s), s.status.lifecycle, ActiveHint(s))
  {
    hide ShownLabel, LabelLagsBehind, Plain, Moves, ActiveHint, EffectiveStage, Contains, PrettyStage,
         ResolvesToError, ResolvedLifecycle, StageOnly, HasHmsAlert, IsReachable;
    JobMoves(s);
    StageOfReading(s);
    LagCondition(s);
    LabelDiffersExactly(s, StageOnly(s), s.status.lifecycle, ResolvedLifecycle(s), ActiveHint(s));
  }

  lemma PreparingIsSeen(s: Snapshot)
    ensures StageOnly(s).preparing ==> !Plain(StageOnly(s))
  {
    hide Contains, IsFilamentStage, IsPreheatStage, IsCleanStage, IsLevelStage, IsCoolingStage, IsSetupStage,
         IsDownloadStage, EffectiveStage, StillDownloading;
    DownloadIsSeen(s);
  }

  lemma StayingHasNoNewError(s: Snapshot)
    requires s.status.rawStatus == "" && ResolvedLifecycle(s) == s.status.lifecycle
    ensures !ErrorWhileActive(s) && !StaleFinish(s)
  {
    hide BuildSignals, StageOnly, ActiveHint, SelectHasError, SelectPrintActive, ResolvedLifecycle, FinishedByStatus,
         EffectiveStage, EffectiveStatus, IsFilamentStage, IsFailed;
    SelectorsWithoutStatus(s);
  }

  lemma StayingDoesNotLag(s: Snapshot)
    requires s.status.rawStatus == "" && ResolvedLifecycle(s) == s.status.lifecycle
    ensures !LabelLagsBehind(s)
  {
    hide BuildSignals, StageOnly, ActiveHint, SelectHasError, SelectPrintActive, ResolvedLifecycle, ResolvesToError,
         EffectiveStage, Contains, NoStageLabel, Plain;
    SelectorsWithoutStatus(s);
    PreparingIsSeen(s);
    PlainMeansNoStageLabel(s);
    PausedIsSeen(s);
  }

  /** Only the finished lifecycle stands for a text that reads as done. */
  lemma NoTokenIsDoneEarly(s: Snapshot)
    requires s.status.rawStatus == ""
    ensures !EarlyDoneLabel(s)
  {
    hide Token, PrettyStatusText, EffectiveStatus, EffectiveStage, ActiveHint, NoStageLabel, IsPrepareStatus, Contains,
         Percent, HasHmsAlert;
    StatusIsToken(s);
    TokenIsShown(s.status.lifecycle);
  }

  lemma PausedIsSeen(s: Snapshot)
    ensures StageOnly(s).paused == Contains(EffectiveStage(s.status), "pause")
  {
    hide Contains, EffectiveStage, StillDownloading, IsCoolingStage, IsPreheatStage, IsDownloadStage;
  }

  /** Without a status text, resolving is idempotent exactly outside two other families of inputs. */
  lemma IdempotentWithoutStatusExactly(s: Snapshot, text: ErrorText)
    requires s.status.rawStatus == ""
    ensures ResolveUiState(ResolveUiState(s, text), text) == ResolveUiState(s, text)
            <==> IsNonErrorStop(s) || (!ErrorWhileActive(s) && !LabelLagsBehind(s))
  {
    hide ResolveUiState, ErrorWhileActive, LabelLagsBehind, StaleFinish, EarlyDoneLabel, ResolvedLifecycle, ActiveHint,
         ShownLabel, StageOnly, ResolvesToError;
    if IsNonErrorStop(s) {
      NonErrorStopIsIdempotent(s, text);
    } else if ResolvedLifecycle(s) == s.status.lifecycle {
      StayingHasNoNewError(s);
      StayingDoesNotLag(s);
      NoTokenIsDoneEarly(s);
      IdempotentWhileStatusIsKept(s, text);
    } else {
      NoErrorOrFinishStays(s);
      if ResolvesToError(s) {
        ErrorHasNoLag(s);
        ErrorMoves(s, text);
      } else {
        NoErrorIsNoError(s);
        LagIsALabelChange(s);
        LabelMoves(s, text);
      }
    }
  }

  lemma NoErrorOrFinishStays(s: Snapshot)
    requires s.status.rawStatus == "" && ResolvedLifecycle(s) != s.status.lifecycle
    ensures s.status.lifecycle != LifecycleError
    ensures !ResolvesToError(s) ==> s.status.lifecycle != Finished
  {
    hide BuildSignals, StageOnly, ActiveHint, SelectHasError, SelectPrintActive, ResolvesToError, ResolvedLifecycle;
    SelectorsWithoutStatus(s);
  }

  lemma ErrorHasNoLag(s: Snapshot)
    requires ResolvesToError(s)
    ensures !LabelLagsBehind(s)
  {
    hide ResolvesToError, NoStageLabel, Contains, EffectiveStage, ActiveHint;
  }

  lemma NoErrorIsNoError(s: Snapshot)
    requires !ResolvesToError(s)
    ensures !ErrorWhileActive(s)
  {
    hide ResolvesToError, ActiveHint;
  }

  // ----- inputs in the two families

  lemma NothingIsNoStage(s: Snapshot)
    requires s.status.rawStatus == "" && EffectiveStage(s.status) == "" && !s.metrics.downloadRelated
    ensures NoStageLabel(s)
  {
    hide Token, Contains, IsFilamentStage, IsPreheatStage, IsCleanStage, IsLevelStage, IsSetupStage, IsCoolingStage,
         IsDownloadStage, EffectiveStage, EffectiveStatus, Lower, Percent, IsPostDownloadHandoff;
    StatusIsToken(s);
    StageReadings("", s.status.lifecycle);
    EmptyStageIsNoStage("");
    EmptyStageIsNoPreheat();
    EmptyStageIsNoSetup();
    EmptyContainsNothing();
    NothingText();
  }

  lemma ErrorWhileActiveExists(text: ErrorText)
    ensures var s := HalfDone(Printing, "", true);
      ErrorWhileActive(s) && ResolveUiState(ResolveUiState(s, text), text) != ResolveUiState(s, text)
  {
    hide ActiveHint, ResolveUiState, LabelLagsBehind, EffectiveStage, IsFilamentStage;
    var s := HalfDone(Printing, "", true);
    HalfDoneReads(Printing, "", true);
    IdempotentWithoutStatusExactly(s, text);
  }

  lemma EmptyNamesNoState()
    ensures !Contains("", "pause") && !Contains("", "idle") && !Contains("", "offline") && !Contains("", "printing")
  {
    hide Contains;
    EmptyContainsNothing();
  }

  lemma HalfDoneLags(s: Snapshot)
    requires s == HalfDone(B.Idle, "", false) && EffectiveStage(s.status) == "" && ActiveHint(s)
    ensures LabelLagsBehind(s)
  {
    hide ActiveHint, EffectiveStage, IsFilamentStage, NoStageLabel, Contains;
    NothingIsNoStage(s);
    EmptyNamesNoState();
  }

  lemma LabelLagsBehindExists(text: ErrorText)
    ensures var s := HalfDone(B.Idle, "", false);
      LabelLagsBehind(s) && ResolveUiState(ResolveUiState(s, text), text) != ResolveUiState(s, text)
  {
    hide ActiveHint, ResolveUiState, ErrorWhileActive, EffectiveStage, LabelLagsBehind;
    var s := HalfDone(B.Idle, "", false);
    HalfDoneReads(B.Idle, "", false);
    HalfDoneLags(s);
    IdempotentWithoutStatusExactly(s, text);
  }
}
