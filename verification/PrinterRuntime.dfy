/** The runtime state of a printer client, rewritten by every local report. */
module PrinterRuntime {
  import opened Text
  import opened BambuStatus
  import opened UiState
  import opened ReportFold

  /** append_unique_hms_code, once per decoded code. */
  method ExtractHmsCodes(items: seq<nat>) returns (codes: seq<nat>)
    ensures codes == ReportableCodes(items)
  {
    codes := [];
    for i := 0 to |items|
      invariant codes == ReportableCodes(items[..i])
    {
      assert items[..i + 1][..i] == items[..i];
      var code := items[i];
      if code != 0 && !IsSuppressed(code) {
        if code !in codes {
          codes := codes + [code];
        }
      }
    }
    assert items[..|items|] == items;
  }

  class RuntimeState {
    var texts: Texts
    var verdicts: Verdicts
    var codes: Codes
    var ams: AmsLatch
    var filament: Filament

    ghost function View(): Runtime
      reads this
    {
      Runtime(texts, verdicts, codes, ams, filament)
    }

    constructor ()
      ensures View() == INITIAL
    {
      texts := Texts("", "", "");
      verdicts := Verdicts(Unknown, false, false);
      codes := Codes(0, [], 0);
      ams := AmsLatch(false, -1);
      filament := Filament(-1, -1, -1);
    }

    method UpdateAmsLatch(amsStatus: int)
      modifies this`ams
      ensures ams == NextAms(old(ams), amsStatus)
    {
      if amsStatus >= 0 {
        var main := (amsStatus / 256) % 256;
        ams := AmsLatch(main == 1, main);
      }
    }

    method UpdateFilament(p: Payload)
      modifies this`filament
      ensures filament == NextFilament(old(filament), p)
    {
      if p.hwSwitch.Given? {
        filament := filament.(hwSwitch := p.hwSwitch.value);
      }
      if p.trays.TrayUpdate? {
        var now := OrElse(p.trays.now, filament.trayNow);
        if p.trays.snow >= 0 && p.trays.snow != now {
          now := p.trays.snow;
        }
        filament := filament.(trayNow := now, trayTar := OrElse(p.trays.tar, filament.trayTar));
      }
    }

    method UpdateCodes(p: Payload)
      modifies this`codes
      ensures codes == NextCodes(old(codes), p)
    {
      codes := codes.(printError := OrElse(p.printError, codes.printError));
      if p.hms.HmsUpdate? {
        var parsed := ExtractHmsCodes(p.hms.items);
        codes := codes.(hms := parsed, hmsCount := |parsed| % 0x1_0000);
      }
    }

    /** The "print" object of a report. */
    method HandleReport(p: Payload, labels: Labels)
      modifies this
      ensures View() == Fold(old(View()), p, labels)
    {
      hide IsPaused, IsFaultPauseStage, ResolvedStage, RefinedStage, FreshStage, FilamentDone, IsMeaningfulStage,
           IsActiveState, LifecycleFromState, IsFilamentStage, EffectiveStageId;
      ghost var before := View();
      var previousPauseFault := verdicts.hasError && IsPaused(texts.rawStatus);
      var state := if p.gcodeState != "" then p.gcodeState else texts.rawStatus;
      UpdateAmsLatch(p.amsStatus);
      UpdateCodes(p);
      UpdateFilament(p);
      var concrete := codes.printError != 0;
      var id := EffectiveStageId(ams.changing, p.stageId);
      var resolved := ResolvedStage(state, p.stageName, id, concrete, labels);
      assert resolved == StageOf(before, p, labels);
      var pausedState := IsPaused(state);
      var faultSignal := pausedState && (concrete || IsFaultPauseStage(resolved) || IsFaultPauseStage(p.stageName));
      var latched := pausedState && (faultSignal || previousPauseFault);
      assert latched == FaultPauseLatched(before, p, labels);
      hide FaultPauseLatched, StageOf, NextCodes, NextAms, NextFilament;
      UpdateTexts(p, labels, state, resolved, id);
      UpdateVerdicts(latched);
    }

    method UpdateTexts(p: Payload, labels: Labels, state: string, resolved: string, id: int)
      modifies this`texts
      ensures texts.rawStatus == Truncated(state, RAW_STATUS_MAX)
      ensures texts.rawStage == FreshStage(
        RefinedStage(
          if resolved != "" then Truncated(resolved, STAGE_MAX)
          else if IsActiveState(state) && (id in {-1, 255} || Lower(p.stageName) == "idle") then
            if !FilamentDone(old(texts).rawStage, filament, ams.changing) && IsMeaningfulStage(old(texts).rawStage)
            then old(texts).rawStage else ""
          else old(texts).rawStage,
          filament), state, resolved, p.advanced)
      ensures texts.stage == if texts.rawStage != "" then texts.rawStage
                             else if texts.rawStatus != "" then
                               Truncated(labels.shown(texts.rawStatus, p.stageId, codes.printError != 0), STAGE_MAX)
                             else old(texts).stage
    {
      hide IsMeaningfulStage, FilamentDone, FreshStage, RefinedStage, IsActiveState;
      var previous := texts.rawStage;
      texts := texts.(rawStatus := Truncated(state, RAW_STATUS_MAX));
      if resolved != "" {
        texts := texts.(rawStage := Truncated(resolved, STAGE_MAX));
      } else if IsActiveState(state) && (id in {-1, 255} || Lower(p.stageName) == "idle") {
        var filamentDone := FilamentDone(previous, filament, ams.changing);
        texts := texts.(rawStage := if !filamentDone && IsMeaningfulStage(previous) then previous else "");
      }
      texts := texts.(rawStage := FreshStage(RefinedStage(texts.rawStage, filament), state, resolved, p.advanced));
      if texts.rawStage != "" {
        texts := texts.(stage := texts.rawStage);
      } else if texts.rawStatus != "" {
        var shown := labels.shown(texts.rawStatus, p.stageId, codes.printError != 0);
        texts := texts.(stage := Truncated(shown, STAGE_MAX));
      }
    }

    method UpdateVerdicts(latched: bool)
      modifies this`verdicts
      ensures verdicts == NextVerdicts(codes, texts, latched)
    {
      hide LifecycleFromState, IsFilamentStage;
      var concrete := codes.printError != 0;
      var filamentStageNow := IsFilamentStage(texts.rawStage);
      verdicts := verdicts.(hasError := (concrete && !filamentStageNow) || latched,
                            nonErrorStop := texts.rawStatus == "FAILED" && !concrete && codes.hms == [],
                            lifecycle := LifecycleFromState(texts.rawStatus, concrete && !filamentStageNow));
      if latched {
        verdicts := verdicts.(lifecycle := LifecycleError);
      }
    }
  }
}
