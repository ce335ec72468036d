/** handle_report_payload of main/src/printer_client.cpp: how one decoded local report changes the
    status, stage, error and filament state, as a fold over partial updates. */
module ReportFold {
  import opened Text
  import opened BambuStatus
  import opened UiState

  const RAW_STATUS_MAX: nat := 15   // std::array<char, 16> filled by strlcpy
  const STAGE_MAX: nat := 31        // std::array<char, 32> filled by strlcpy
  const SUPPRESSED_HMS: nat := 0x050002000003000A

  /** The stage-id label table and the two fallback labels built on it; any tables will do. */
  datatype Labels = Labels(
    byId: int -> string, byStatus: (string, bool) -> string, shown: (string, int, bool) -> string)

  datatype OptInt = Absent | Given(value: int)

  /** The AMS object of a report; `snow` is the override decoded from the extruder, -1 if none. */
  datatype OptTrays = NoTrays | TrayUpdate(now: OptInt, tar: OptInt, snow: int)

  /** The HMS codes decoded from an hms field, in order. */
  datatype OptHms = NoHms | HmsUpdate(items: seq<nat>)

  /** A decoded "print" object. Whether layer or progress advanced is left open. */
  datatype Payload = Payload(
    gcodeState: string, stageId: int, stageName: string, amsStatus: int, printError: OptInt, hms: OptHms,
    hwSwitch: OptInt, trays: OptTrays, advanced: bool)

  datatype Texts = Texts(rawStatus: string, rawStage: string, stage: string)
  datatype Verdicts = Verdicts(lifecycle: Lifecycle, hasError: bool, nonErrorStop: bool)
  datatype Codes = Codes(printError: int, hms: seq<nat>, hmsCount: nat)
  datatype AmsLatch = AmsLatch(changing: bool, statusMain: int)
  datatype Filament = Filament(hwSwitch: int, trayNow: int, trayTar: int)

  datatype Runtime = Runtime(texts: Texts, verdicts: Verdicts, codes: Codes, ams: AmsLatch, filament: Filament)

  const INITIAL: Runtime := Runtime(
    Texts("", "", ""), Verdicts(Unknown, false, false), Codes(0, [], 0), AmsLatch(false, -1), Filament(-1, -1, -1))

  function OrElse(o: OptInt, current: int): int {
    if o.Given? then o.value else current
  }

  /** strlcpy into a buffer holding at most n characters. */
  function Truncated(s: string, n: nat): string {
    if |s| <= n then s else s[..n]
  }

  // ----- classifiers

  predicate IsPlaceholderStage(name: string) {
    Lower(name) in ["", "status", "stage", "unknown"]
  }

  predicate IsActiveState(state: string) {
    state in ["RUNNING", "PREPARE", "PAUSE", "PAUSED", "INIT", "SLICING"]
  }

  predicate IsMeaningfulStage(name: string) {
    Lower(name) !in ["idle", "finished", "failed", "printing", "preparing", "paused"] && !IsPlaceholderStage(name)
  }

  predicate IsFilamentChangeStage(name: string) {
    Lower(name) in ["changing_filament", "filament_loading", "filament_unloading"]
  }

  /** A pause the printer entered on its own account. */
  predicate IsFaultPauseStage(name: string) {
    var lower := Lower(name);
    "paused_" <= lower && lower !in ["paused_user", "paused_user_gcode"]
  }

  // ----- the fold, piece by piece

  function EffectiveState(r: Runtime, p: Payload): string {
    if p.gcodeState != "" then p.gcodeState else r.texts.rawStatus
  }

  /** Set and cleared only by reports that carry ams_status. */
  function NextAms(a: AmsLatch, amsStatus: int): AmsLatch {
    if amsStatus < 0 then a
    else
      var main := (amsStatus / 256) % 256;
      AmsLatch(main == 1, main)
  }

  function EffectiveStageId(changing: bool, stageId: int): int {
    if changing && stageId in {0, -1, 255} then 4 else stageId
  }

  predicate IsSuppressed(code: nat) {
    code == SUPPRESSED_HMS
  }

  /** extract_hms_codes with append_unique: first occurrences of reportable codes. */
  function ReportableCodes(items: seq<nat>): seq<nat> {
    if items == [] then []
    else
      var kept, code := ReportableCodes(items[..|items| - 1]), items[|items| - 1];
      if code == 0 || IsSuppressed(code) || code in kept then kept else kept + [code]
  }

  function NextCodes(c: Codes, p: Payload): Codes {
    var printError := OrElse(p.printError, c.printError);
    if p.hms.NoHms? then Codes(printError, c.hms, c.hmsCount)
    else
      var codes := ReportableCodes(p.hms.items);
      Codes(printError, codes, |codes| % 0x1_0000)
  }

  function NextFilament(f: Filament, p: Payload): Filament {
    var hw := OrElse(p.hwSwitch, f.hwSwitch);
    if p.trays.NoTrays? then f.(hwSwitch := hw)
    else
      var now := if p.trays.snow >= 0 then p.trays.snow else OrElse(p.trays.now, f.trayNow);
      Filament(hw, now, OrElse(p.trays.tar, f.trayTar))
  }

  /** resolved_stage_from_payload */
  function ResolvedStage(state: string, name: string, id: int, concrete: bool, labels: Labels): string {
    if state == "FAILED" then if concrete then "Failed" else "Stopped"
    else if state == "FINISH" then "Finished"
    else if state == "IDLE" then "Idle"
    else if (state == "PAUSE" || state == "PAUSED") && (id in {-1, 255} || labels.byId(id) == "")
            && (IsPlaceholderStage(name) || Lower(name) == "idle") then "Paused"
    else if !IsPlaceholderStage(name) then if Lower(name) == "idle" && IsActiveState(state) then "" else name
    else if id in {-1, 255} && IsActiveState(state) then ""
    else if labels.byId(id) != "" then labels.byId(id)
    else labels.byStatus(state, concrete)
  }

  predicate FilamentDone(rawStage: string, f: Filament, changing: bool) {
    IsFilamentChangeStage(rawStage) && f.hwSwitch == 1 && f.trayNow >= 0 && f.trayNow == f.trayTar && !changing
  }

  /** Between sub-states an active job keeps its last meaningful stage. */
  function LatchedStage(r: Runtime, p: Payload, resolved: string, id: int, f: Filament, changing: bool): string {
    var previous := r.texts.rawStage;
    var idleMarker := id in {-1, 255} || Lower(p.stageName) == "idle";
    if resolved != "" then Truncated(resolved, STAGE_MAX)
    else if IsActiveState(EffectiveState(r, p)) && idleMarker then
      if !FilamentDone(previous, f, changing) && IsMeaningfulStage(previous) then previous else ""
    else previous
  }

  /** A generic filament change is refined by the extruder switch and the trays. */
  function RefinedStage(stage: string, f: Filament): string {
    var known := f.trayNow >= 0 && f.trayTar >= 0;
    if stage != "changing_filament" then stage
    else if f.hwSwitch == 0 then
      if (known && f.trayNow == f.trayTar) || f.trayTar == 254 then "filament_loading" else "filament_unloading"
    else if f.hwSwitch == 1 && known && f.trayNow != f.trayTar then "filament_unloading"
    else stage
  }

  /** A preparation stage is dropped once a running job demonstrably lays down layers. */
  function FreshStage(stage: string, state: string, resolved: string, advanced: bool): string {
    var prep := stage != "" && !Contains(stage, "printing") && !IsFilamentStage(stage)
                && !IsDownloadStage(stage, state) && IsPostDownloadHandoff(stage, state);
    if resolved == "" && state == "RUNNING" && prep && advanced then "printing" else stage
  }

  /** A cancelled job reports FAILED without an error code. */
  function LifecycleFromState(state: string, concrete: bool): Lifecycle {
    if state == "FAILED" && !concrete then Idle else LifecycleFromStatus(state, concrete)
  }

  predicate PauseFault(r: Runtime) {
    r.verdicts.hasError && IsPaused(r.texts.rawStatus)
  }

  /** The stage a report resolves to. */
  function StageOf(r: Runtime, p: Payload, labels: Labels): string {
    ResolvedStage(EffectiveState(r, p), p.stageName,
                  EffectiveStageId(NextAms(r.ams, p.amsStatus).changing, p.stageId),
                  NextCodes(r.codes, p).printError != 0, labels)
  }

  predicate FaultPauseLatched(r: Runtime, p: Payload, labels: Labels) {
    IsPaused(EffectiveState(r, p)) &&
    (NextCodes(r.codes, p).printError != 0 || IsFaultPauseStage(StageOf(r, p, labels))
     || IsFaultPauseStage(p.stageName) || PauseFault(r))
  }

  function NextTexts(r: Runtime, p: Payload, labels: Labels): Texts {
    var ams, filament, resolved := NextAms(r.ams, p.amsStatus), NextFilament(r.filament, p), StageOf(r, p, labels);
    var id := EffectiveStageId(ams.changing, p.stageId);
    var latched := LatchedStage(r, p, resolved, id, filament, ams.changing);
    var rawStage := FreshStage(RefinedStage(latched, filament), EffectiveState(r, p), resolved, p.advanced);
    var rawStatus := Truncated(EffectiveState(r, p), RAW_STATUS_MAX);
    var stage := if rawStage != "" then rawStage
                 else if rawStatus != "" then
                   Truncated(labels.shown(rawStatus, p.stageId, NextCodes(r.codes, p).printError != 0), STAGE_MAX)
                 else r.texts.stage;
    Texts(rawStatus, rawStage, stage)
  }

  /** During a filament stage the print error code is a prompt, not an error. */
  predicate RealError(codes: Codes, texts: Texts) {
    codes.printError != 0 && !IsFilamentStage(texts.rawStage)
  }

  function NextVerdicts(codes: Codes, texts: Texts, latched: bool): Verdicts {
    var isError := RealError(codes, texts);
    Verdicts(
      if latched then LifecycleError else LifecycleFromState(texts.rawStatus, isError),
      isError || latched,
      texts.rawStatus == "FAILED" && codes.printError == 0 && codes.hms == [])
  }

  function Fold(r: Runtime, p: Payload, labels: Labels): Runtime {
    var codes, texts := NextCodes(r.codes, p), NextTexts(r, p, labels);
    Runtime(texts, NextVerdicts(codes, texts, FaultPauseLatched(r, p, labels)), codes,
            NextAms(r.ams, p.amsStatus), NextFilament(r.filament, p))
  }

  function FoldAll(r: Runtime, ps: seq<Payload>, labels: Labels): Runtime {
    if ps == [] then r
    else Fold(FoldAll(r, ps[..|ps| - 1], labels), ps[|ps| - 1], labels)
  }
}
