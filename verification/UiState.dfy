/** resolve_ui_state of main/src/status_resolver.cpp as a function on snapshots.
    SnapshotObject.dfy proves the in-place code against it. */
module UiState {
  import opened Text
  import B = BambuStatus
  import opened BambuStatus
  import opened PrinterState

  /** The error-text lookup, format_resolved_error_detail: any function of its four inputs. */
  type ErrorText = (int, seq<nat>, nat, Model) -> string

  // ----- classifiers of lower-cased status and stage text

  predicate IsDownloadStage(stage: string, status: string) {
    Contains(Lower(stage), "download") || Contains(Lower(status), "download")
  }

  predicate IsFilamentStage(stage: string) {
    Contains(Lower(stage), "filament_loading") || Contains(Lower(stage), "filament_unloading")
    || Contains(Lower(stage), "changing_filament")
  }

  predicate IsPreheatStage(stage: string) {
    Contains(stage, "heatbed_preheating") || Contains(stage, "nozzle_preheating")
    || Contains(stage, "heating_hotend") || Contains(stage, "heating_chamber")
    || Contains(stage, "waiting_for_heatbed_temperature") || Contains(stage, "thermal_preconditioning")
    || Contains(stage, "preheat")
  }

  predicate IsCleanStage(stage: string) {
    Contains(stage, "cleaning_nozzle_tip") || Contains(stage, "clean")
  }

  predicate IsLevelStage(stage: string) {
    Contains(stage, "auto_bed_leveling") || Contains(stage, "bed_level") || Contains(stage, "measuring_surface")
  }

  predicate IsCoolingStage(stage: string, status: string) {
    Contains(stage, "cooling_down") || Contains(stage, "cool")
    || Contains(stage, "heated_bedcooling") || Contains(status, "cool")
  }

  predicate IsSetupStage(stage: string) {
    Contains(stage, "sweeping_xy_mech_mode") || Contains(stage, "scanning_bed_surface")
    || Contains(stage, "inspecting_first_layer") || Contains(stage, "identifying_build_plate")
    || Contains(stage, "calibrating_micro_lidar") || Contains(stage, "calibrating_extrusion")
    || Contains(stage, "calibrating_extrusion_flow") || Contains(stage, "homing_toolhead")
    || Contains(stage, "checking_extruder_temperature") || Contains(stage, "calibrating_motor_noise")
    || Contains(stage, "absolute_accuracy_calibration") || Contains(stage, "check_absolute_accuracy")
    || Contains(stage, "calibrate_nozzle_offset") || Contains(stage, "check_quick_release")
    || Contains(stage, "check_door_and_cover") || Contains(stage, "laser_calibration")
    || Contains(stage, "check_plaform") || Contains(stage, "check_birdeye_camera_position")
    || Contains(stage, "calibrate_birdeye_camera") || Contains(stage, "print_calibration_lines")
    || Contains(stage, "check_material") || Contains(stage, "calibrating_live_view_camera")
    || Contains(stage, "check_material_position") || Contains(stage, "calibrating_cutter_model_offset")
  }

  predicate IsPrepareStatus(status: string, stage: string) {
    IsPreparing(status) || IsPreheatStage(stage) || Contains(stage, "download") || Contains(status, "download")
  }

  predicate IsPausedStatus(status: string, stage: string) {
    IsPaused(status) || Contains(stage, "pause")
  }

  predicate IsPostDownloadHandoff(stage: string, status: string) {
    var lowered := Lower(stage);
    && !IsDownloadStage(stage, status)
    && (IsPreheatStage(lowered) || IsCleanStage(lowered) || IsLevelStage(lowered) || IsSetupStage(lowered)
        || IsFilamentStage(lowered) || Contains(lowered, "printing"))
  }

  predicate IsNonErrorStop(s: Snapshot) {
    s.errors.nonErrorStop && s.errors.printErrorCode == 0 && s.errors.hmsAlertCount == 0 && s.errors.hmsCodes == []
  }

  /** The word that stands in for a status text. */
  function Token(l: Lifecycle): string {
    match l
    case Preparing => "prepare"
    case Printing => "running"
    case Paused => "pause"
    case Finished => "finish"
    case Idle => "idle"
    case LifecycleError => "failed"
    case Unknown => ""
  }

  /** Falls back to the lifecycle when there is no raw status. */
  function EffectiveStatus(s: Status): string {
    if s.rawStatus != "" then Lower(s.rawStatus) else Token(s.lifecycle)
  }

  function EffectiveStage(s: Status): string {
    if s.rawStage != "" then Lower(s.rawStage) else Lower(s.stage)
  }

  /** lround: halves away from zero. */
  function Round(x: real): int {
    if x >= 0.0 then (x + 0.5).Floor else -((-x + 0.5).Floor)
  }

  function Percent(x: real): nat {
    var r := Round(x);
    if r < 0 then 0 else if r > 100 then 100 else r
  }

  // ----- signals

  /** What the status and stage text and the error codes say; resolving changes none of it. */
  datatype TextSignals = TextSignals(
    status: string, stage: string, progress: nat,
    downloadStage: bool, filamentStage: bool, preheatStage: bool, cleanStage: bool, levelStage: bool,
    coolingStage: bool, setupStage: bool,
    failed: bool, errPrint: bool, errHms: bool, paused: bool, preparing: bool, idleStatus: bool, idleish: bool)

  datatype Signals = Signals(text: TextSignals, inputError: bool, doneStrict: bool, activeHint: bool)

  /** A completed download that has handed off to the next stage. */
  predicate DownloadHandedOff(s: Snapshot) {
    s.metrics.downloadRelated && Percent(s.metrics.progressPercent) == 100 &&
    IsPostDownloadHandoff(EffectiveStage(s.status), EffectiveStatus(s.status))
  }

  function StillDownloading(s: Snapshot): bool {
    s.metrics.downloadRelated && !DownloadHandedOff(s)
  }

  /** The status text itself says finished, with something to confirm it. */
  predicate FinishedByStatus(s: Snapshot) {
    IsFinished(EffectiveStatus(s.status)) &&
    (Percent(s.metrics.progressPercent) == 100 || s.metrics.remainingSeconds == 0
     || Contains(EffectiveStage(s.status), "idle"))
  }

  predicate DoneStrict(s: Snapshot) {
    s.status.lifecycle == Finished || FinishedByStatus(s)
  }

  predicate ActiveHint(s: Snapshot) {
    var status, stage, progress :=
      EffectiveStatus(s.status), EffectiveStage(s.status), Percent(s.metrics.progressPercent);
    || IsPrinting(status) || IsPreparing(status) || Contains(status, "print") || Contains(status, "download")
    || 0 < progress < 100
    || IsPausedStatus(status, stage) || IsPrepareStatus(status, stage) || IsFilamentStage(stage)
    || StillDownloading(s) || IsDownloadStage(stage, status)
    || IsPreheatStage(stage) || IsCleanStage(stage) || IsLevelStage(stage) || IsCoolingStage(stage, status)
    || IsSetupStage(stage) || Contains(stage, "printing")
    || (s.metrics.currentLayer > 0 && progress < 100)
    || (s.metrics.remainingSeconds > 0 && !IsFinished(status))
  }

  function ReadText(s: Snapshot): TextSignals {
    var status, stage := EffectiveStatus(s.status), EffectiveStage(s.status);
    TextSignals(
      status, stage, Percent(s.metrics.progressPercent),
      StillDownloading(s) || IsDownloadStage(stage, status),
      IsFilamentStage(stage), IsPreheatStage(stage), IsCleanStage(stage), IsLevelStage(stage),
      IsCoolingStage(stage, status), IsSetupStage(stage),
      IsFailed(status), s.errors.printErrorCode != 0, s.errors.hmsCodes != [] || s.errors.hmsAlertCount > 0,
      IsPausedStatus(status, stage), IsPrepareStatus(status, stage),
      status == "idle" || status == "offline" || Contains(status, "wait"),
      Contains(stage, "idle") || Contains(stage, "offline"))
  }

  function BuildSignals(s: Snapshot): Signals {
    Signals(ReadText(s), s.status.hasError, DoneStrict(s), ActiveHint(s))
  }

  // ----- selectors

  predicate SelectPrintActive(g: Signals) {
    !g.text.failed && !g.doneStrict && g.activeHint
  }

  /** A print error code during a filament change is a prompt, not an error. */
  predicate SelectHasError(g: Signals) {
    g.inputError || g.text.failed || (g.text.errPrint && !g.text.filamentStage)
  }

  predicate SelectWarnHms(g: Signals) {
    g.text.errHms && SelectPrintActive(g) && !SelectHasError(g)
  }

  function SelectLifecycle(current: Lifecycle, g: Signals): Lifecycle {
    if SelectHasError(g) then LifecycleError
    else if g.doneStrict then Finished
    else if g.text.paused then Paused
    else if g.text.preparing then Preparing
    else if SelectPrintActive(g) then Printing
    else if g.text.idleish || g.text.idleStatus then Idle
    else current
  }

  function PrettyStage(stage: string): string {
    if IsDownloadStage(stage, "") then "downloading"
    else if IsFilamentStage(stage) then "loading"
    else if Contains(stage, "printing") then "printing"
    else if IsLevelStage(stage) then "bed level"
    else if IsPreheatStage(stage) then "preheating"
    else if IsCleanStage(stage) then "clean nozzle"
    else if IsCoolingStage(stage, "") then "cooling"
    else if IsSetupStage(stage) then "preparing"
    else if stage == "idle" then "idle"
    else if stage == "offline" then "offline"
    else ""
  }

  function PrettyStatusText(status: string): string {
    if Contains(status, "cool") then "cooling" else PrettyStatus(status)
  }

  /** titlecase_words, from a position inside or at the start of a word. */
  function Titlecase(s: string, capitalize: bool): string {
    if s == [] then []
    else
      var c := if s[0] == '_' || s[0] == '-' then ' ' else s[0];
      if IsSpace(c) then [c] + Titlecase(s[1..], true)
      else [if capitalize then UpperChar(c) else LowerChar(c)] + Titlecase(s[1..], false)
  }

  function Shorten(s: string, max: nat): string {
    if |s| <= max then s
    else if max <= 3 then s[..max]
    else s[..max - 3] + "..."
  }

  function SelectFallback(wifiConnected: bool, g: Signals): string {
    var stageText, statusText := PrettyStage(g.text.stage), PrettyStatusText(g.text.status);
    if stageText != "" && !Contains(g.text.stage, "idle") && !Contains(g.text.stage, "offline") then stageText
    else if statusText != "" then statusText
    else if g.text.stage != "" then Shorten(Titlecase(g.text.stage, true), 18)
    else if g.text.status != "" then Shorten(Titlecase(g.text.status, true), 18)
    else if wifiConnected then "waiting..." else "offline"
  }

  function SelectUiStatus(s: Snapshot, g: Signals): string {
    if g.text.filamentStage then if Contains(g.text.stage, "filament_unloading") then "unloading" else "loading"
    else if g.text.downloadStage then "downloading"
    else if SelectHasError(g) then "failed"
    else if SelectWarnHms(g) then "printing"
    else if g.doneStrict then "done"
    else if g.text.preheatStage then "preheating"
    else if g.text.cleanStage then "clean nozzle"
    else if g.text.levelStage then "bed level"
    else if g.text.coolingStage then "cooling"
    else if g.text.setupStage || g.text.preparing then "preparing"
    else
      var offline := Contains(g.text.stage, "offline") || g.text.status == "offline"
                     || (!s.network.wifiConnected && s.status.connection != WaitingForCredentials);
      if offline then "offline"
      else if g.text.idleish then
        if g.text.preparing then "preparing"
        else if 0 < g.text.progress < 100 || SelectPrintActive(g) then "printing"
        else "idle"
      else SelectFallback(s.network.wifiConnected, g)
  }

  // ----- error and completion detail

  predicate IsGenericFinishedDetail(detail: string, stage: string) {
    var d := Lower(detail);
    detail == "" || d == Lower(stage) ||
    d in ["printing", "preparing", "paused", "running", "finished", "done", "status"]
  }

  function EffectiveModel(s: Snapshot): Model {
    if s.sources.status == Local && s.local.model != UnknownModel then s.local.model
    else if s.sources.status == Cloud && s.cloud.model != UnknownModel then s.cloud.model
    else if s.local.model != UnknownModel then s.local.model
    else s.cloud.model
  }

  function ResolvedError(s: Snapshot, text: ErrorText): string {
    text(s.errors.printErrorCode, s.errors.hmsCodes, s.errors.hmsAlertCount, EffectiveModel(s))
  }

  predicate ShowsFinished(s: Snapshot) {
    s.status.lifecycle == Finished || s.ui.uiStatus == "done"
  }

  function ApplyResolvedDetail(s: Snapshot, text: ErrorText): Snapshot {
    var error := if ShowsFinished(s) && s.errors.printErrorCode == 0 then "" else ResolvedError(s, text);
    if error != "" then s.(status := s.status.(detail := error))
    else if !ShowsFinished(s) then s
    else
      var detail := if IsGenericFinishedDetail(s.status.detail, s.status.stage) then "" else s.status.detail;
      s.(metrics := s.metrics.(remainingSeconds := 0), status := s.status.(detail := detail))
  }

  /** A user-cancelled job: briefly "stopped", then ready. */
  function ApplyNonErrorStop(s: Snapshot): Snapshot {
    var banner := s.errors.showStopBanner;
    var name := if banner then "Stopped" else "Idle";
    s.(status := s.status.(lifecycle := Idle, hasError := false, detail := "",
                           rawStatus := if banner then s.status.rawStatus else "IDLE",
                           rawStage := name, stage := name),
       ui := Ui(if banner then "stopped" else "ready", false, false),
       metrics := s.metrics.(remainingSeconds := 0))
  }

  /** The fields decided by the selectors. */
  function ApplySelectors(s: Snapshot): Snapshot {
    var g := BuildSignals(s);
    s.(status := s.status.(lifecycle := SelectLifecycle(s.status.lifecycle, g), hasError := SelectHasError(g)),
       ui := Ui(SelectUiStatus(s, g), SelectPrintActive(g), SelectWarnHms(g)),
       metrics := s.metrics.(downloadRelated := StillDownloading(s)))
  }

  function ResolveUiState(s: Snapshot, text: ErrorText): Snapshot {
    if IsNonErrorStop(s) then ApplyNonErrorStop(s)
    else ApplyResolvedDetail(ApplySelectors(s), text)
  }
}
