/** What is stored after any sequence of reports, read off the reports themselves. */
module ReportOutcomes {
  import B = BambuStatus
  import opened BambuStatus
  import opened Text
  import opened UiState
  import opened ReportFold
  import opened ReportLaws
  import opened StatusWords
  import opened UiStateLaws

  // ----- the last report that says it

  /** The print error code of the last report that carries one. */
  function LastPrintError(ps: seq<Payload>): OptInt {
    if ps == [] then Absent
    else if ps[|ps| - 1].printError.Given? then ps[|ps| - 1].printError
    else LastPrintError(ps[..|ps| - 1])
  }

  /** The HMS codes of the last report with an hms field. */
  function LastHms(ps: seq<Payload>): OptHms {
    if ps == [] then NoHms
    else if ps[|ps| - 1].hms.HmsUpdate? then ps[|ps| - 1].hms
    else LastHms(ps[..|ps| - 1])
  }

  /** The last state name that arrived. */
  function LastState(ps: seq<Payload>): string {
    if ps == [] then ""
    else if ps[|ps| - 1].gcodeState != "" then ps[|ps| - 1].gcodeState
    else LastState(ps[..|ps| - 1])
  }

  function LastSwitch(ps: seq<Payload>): OptInt {
    if ps == [] then Absent
    else if ps[|ps| - 1].hwSwitch.Given? then ps[|ps| - 1].hwSwitch
    else LastSwitch(ps[..|ps| - 1])
  }

  /** The tray in use: the extruder's word comes before the AMS's. */
  function LastTray(ps: seq<Payload>): OptInt {
    if ps == [] then Absent
    else
      var t, before := ps[|ps| - 1].trays, LastTray(ps[..|ps| - 1]);
      if t.NoTrays? then before
      else if t.snow >= 0 then Given(t.snow)
      else if t.now.Given? then t.now else before
  }

  function LastTarget(ps: seq<Payload>): OptInt {
    if ps == [] then Absent
    else
      var t := ps[|ps| - 1].trays;
      if t.TrayUpdate? && t.tar.Given? then t.tar else LastTarget(ps[..|ps| - 1])
  }

  /** The codes worth showing: not zero, not the one the printers send without cause, each once, in the
      order in which they first came. */
  predicate Reportable(code: nat) {
    code != 0 && code != 0x050002000003000A
  }

  /** `codes` lists the reportable items by first occurrence. */
  ghost predicate ListsFirsts(codes: seq<nat>, items: seq<nat>) {
    && (forall c: nat :: c in codes <==> c in items && Reportable(c))
    && (forall i, j | 0 <= i < j < |codes| :: EarlierIn(items, codes[i], codes[j]))
  }

  /** `a` occurs in `items` before any `b`. */
  ghost predicate EarlierIn(items: seq<nat>, a: nat, b: nat) {
    exists k | 0 <= k < |items| :: items[k] == a && b !in items[..k + 1]
  }

  lemma {:induction false} ReportableCodesInOrder(items: seq<nat>)
    ensures ListsFirsts(ReportableCodes(items), items)
  {
    if items != [] {
      var init, last := items[..|items| - 1], items[|items| - 1];
      assert items == init + [last];
      ReportableCodesInOrder(init);
      var kept, codes := ReportableCodes(init), ReportableCodes(items);
      forall i, j | 0 <= i < j < |codes| ensures EarlierIn(items, codes[i], codes[j]) {
        if j < |kept| {
          StillEarlier(init, last, kept[i], kept[j]);
        } else {
          assert codes[i] in init && last !in init;
          var k :| 0 <= k < |init| && init[k] == codes[i];
          assert items[k] == codes[i] && items[..k + 1] == init[..k + 1];
          assert codes[j] !in items[..k + 1];
        }
      }
    }
  }

  lemma StillEarlier(init: seq<nat>, last: nat, a: nat, b: nat)
    requires EarlierIn(init, a, b)
    ensures EarlierIn(init + [last], a, b)
  {
    var k :| 0 <= k < |init| && init[k] == a && b !in init[..k + 1];
    assert (init + [last])[k] == a && (init + [last])[..k + 1] == init[..k + 1];
  }

  // ----- over all runs

  function Last(o: OptInt, initial: int): int {
    if o.Given? then o.value else initial
  }

  /** The code stored after a run is the last one that was reported, and the alerts are those of the last list. */
  lemma {:induction false} CodesAreTheLastReported(r: Runtime, ps: seq<Payload>, labels: Labels)
    ensures var codes := FoldAll(r, ps, labels).codes;
      && codes.printError == Last(LastPrintError(ps), r.codes.printError)
      && (LastHms(ps).NoHms? ==> codes.hms == r.codes.hms && codes.hmsCount == r.codes.hmsCount)
      && (LastHms(ps).HmsUpdate? ==> ListsFirsts(codes.hms, LastHms(ps).items)
                                     && codes.hmsCount == |codes.hms| % 65536)
  {
    if ps != [] {
      hide NextTexts, NextVerdicts, NextFilament, FaultPauseLatched, NextAms, ListsFirsts, ReportableCodes;
      CodesAreTheLastReported(r, ps[..|ps| - 1], labels);
      if ps[|ps| - 1].hms.HmsUpdate? {
        ReportableCodesInOrder(ps[|ps| - 1].hms.items);
      }
    }
  }

  lemma {:induction false} FilamentIsTheLastReported(r: Runtime, ps: seq<Payload>, labels: Labels)
    ensures FoldAll(r, ps, labels).filament ==
            Filament(Last(LastSwitch(ps), r.filament.hwSwitch), Last(LastTray(ps), r.filament.trayNow),
                     Last(LastTarget(ps), r.filament.trayTar))
  {
    if ps != [] {
      hide NextTexts, NextVerdicts, NextCodes, FaultPauseLatched, NextAms;
      FilamentIsTheLastReported(r, ps[..|ps| - 1], labels);
    }
  }

  /** The status text after a run is the last state name, cut to 15 characters. */
  lemma {:induction false} StatusIsTheLastState(r: Runtime, ps: seq<Payload>, labels: Labels)
    requires |r.texts.rawStatus| <= 15
    ensures var status, state := FoldAll(r, ps, labels).texts.rawStatus, LastState(ps);
      status == if state == "" then r.texts.rawStatus else if |state| <= 15 then state else state[..15]
  {
    if ps != [] {
      hide Fold;
      StatusIsTheLastState(r, ps[..|ps| - 1], labels);
      StoredStatus(FoldAll(r, ps[..|ps| - 1], labels), ps[|ps| - 1], labels);
    }
  }

  // ----- when an error is shown

  /** The state a report leaves in force. */
  function InForce(r: Runtime, p: Payload): string {
    if p.gcodeState == "" then r.texts.rawStatus else p.gcodeState
  }

  /** A stage the printer pauses in on its own account. */
  predicate FaultPause(name: string) {
    var lower := Lower(name);
    |lower| >= 7 && lower[..7] == "paused_" && lower != "paused_user" && lower != "paused_user_gcode"
  }

  /** A report raises an error: a code outside a filament change, where it is a prompt, or a paused state
      with a code, or in a stage the printer pauses in on its own account. */
  predicate Raises(r: Runtime, p: Payload, labels: Labels) {
    var code := Last(p.printError, r.codes.printError);
    || (code != 0 && !IsFilamentStage(Fold(r, p, labels).texts.rawStage))
    || (IsPaused(InForce(r, p))
        && (code != 0 || FaultPause(p.stageName) || FaultPause(StageOf(r, p, labels))))
  }

  lemma FaultPauseNames(name: string)
    ensures IsFaultPauseStage(name) <==> FaultPause(name)
  {
    hide Lower;
    PrefixIsSlice("paused_", Lower(name));
  }

  lemma PrefixIsSlice(a: string, b: string)
    ensures a <= b <==> |b| >= |a| && b[..|a|] == a
  {
  }

  /** One report: it raises an error, or the job was paused in error and still is. */
  lemma ErrorStep(r: Runtime, p: Payload, labels: Labels)
    ensures Fold(r, p, labels).verdicts.hasError <==>
            || Raises(r, p, labels)
            || (IsPaused(InForce(r, p)) && r.verdicts.hasError && IsPaused(r.texts.rawStatus))
  {
    hide IsPaused, IsFaultPauseStage, FaultPause, StageOf, NextTexts, NextAms, NextFilament, LifecycleFromState,
         IsFilamentStage;
    FaultPauseNames(p.stageName);
    FaultPauseNames(StageOf(r, p, labels));
  }

  /** The state after the first n reports. */
  function After(r: Runtime, ps: seq<Payload>, labels: Labels, n: nat): Runtime
    requires n <= |ps|
  {
    FoldAll(r, ps[..n], labels)
  }

  /** An error was there at the start, or was raised by the k-th report. */
  predicate ErrorBegan(r: Runtime, ps: seq<Payload>, labels: Labels, k: nat)
    requires k <= |ps|
  {
    if k == 0 then r.verdicts.hasError else Raises(After(r, ps, labels, k - 1), ps[k - 1], labels)
  }

  /** The job has been paused from the k-th report on. */
  ghost predicate PausedSince(r: Runtime, ps: seq<Payload>, labels: Labels, k: nat)
    requires k <= |ps|
  {
    forall j :: k <= j < |ps| ==>
      IsPaused(After(r, ps, labels, j).texts.rawStatus) && IsPaused(InForce(After(r, ps, labels, j), ps[j]))
  }

  /** Over all runs: an error is shown exactly if some report raised one and the job has been paused
      ever since. */
  lemma {:induction false} ErrorShownExactly(r: Runtime, ps: seq<Payload>, labels: Labels)
    ensures FoldAll(r, ps, labels).verdicts.hasError <==>
            exists k :: 0 <= k <= |ps| && ErrorBegan(r, ps, labels, k) && PausedSince(r, ps, labels, k)
  {
    hide Fold, Raises, IsPaused, ErrorBegan, PausedSince;
    if ps == [] {
      BeginningIsStart(r, labels);
    } else {
      var init := ps[..|ps| - 1];
      ErrorShownExactly(r, init, labels);
      ErrorStep(FoldAll(r, init, labels), ps[|ps| - 1], labels);
      forall k | 0 <= k <= |ps| ensures k < |ps| ==>
          && ErrorBegan(r, ps, labels, k) == ErrorBegan(r, init, labels, k)
          && (PausedSince(r, ps, labels, k) <==>
                PausedSince(r, init, labels, k) && IsPaused(FoldAll(r, init, labels).texts.rawStatus)
                && IsPaused(InForce(FoldAll(r, init, labels), ps[|ps| - 1])))
      {
        if k < |ps| {
          OneMoreReport(r, ps, labels, k);
        }
      }
      AtTheEnd(r, ps, labels);
    }
  }

  lemma BeginningIsStart(r: Runtime, labels: Labels)
    ensures ErrorBegan(r, [], labels, 0) == r.verdicts.hasError && PausedSince(r, [], labels, 0)
  {
  }

  lemma AtTheEnd(r: Runtime, ps: seq<Payload>, labels: Labels)
    requires ps != []
    ensures PausedSince(r, ps, labels, |ps|)
    ensures ErrorBegan(r, ps, labels, |ps|) == Raises(FoldAll(r, ps[..|ps| - 1], labels), ps[|ps| - 1], labels)
  {
    hide Fold, Raises, IsPaused;
  }

  lemma OneMoreReport(r: Runtime, ps: seq<Payload>, labels: Labels, k: nat)
    requires k < |ps|
    ensures var init, before := ps[..|ps| - 1], FoldAll(r, ps[..|ps| - 1], labels);
      && ErrorBegan(r, ps, labels, k) == ErrorBegan(r, init, labels, k)
      && (PausedSince(r, ps, labels, k) <==>
            PausedSince(r, init, labels, k) && IsPaused(before.texts.rawStatus)
            && IsPaused(InForce(before, ps[|ps| - 1])))
  {
    hide Fold, FoldAll, Raises, IsPaused;
    var init := ps[..|ps| - 1];
    assert forall j :: 0 <= j <= |init| ==> init[..j] == ps[..j];
    assert After(r, ps, labels, |init|) == FoldAll(r, init, labels);
    if PausedSince(r, ps, labels, k) {
      assert forall j :: k <= j < |init| ==> After(r, init, labels, j) == After(r, ps, labels, j) && init[j] == ps[j];
      assert PausedSince(r, init, labels, k);
    }
    if PausedSince(r, init, labels, k) {
      assert forall j :: k <= j < |init| ==> After(r, ps, labels, j) == After(r, init, labels, j) && init[j] == ps[j];
    }
  }

  /** The lifecycle and the stop flag: an error shows as one, and FAILED without one is a job the user
      stopped, which leaves the printer idle. */
  lemma VerdictTable(r: Runtime, p: Payload, labels: Labels)
    ensures var t := Fold(r, p, labels);
      && t.verdicts.lifecycle == (if t.verdicts.hasError then LifecycleError
                                  else if t.texts.rawStatus == "FAILED" then B.Idle
                                  else LifecycleFromStatus(t.texts.rawStatus, false))
      && t.verdicts.nonErrorStop == (t.texts.rawStatus == "FAILED" && t.codes.printError == 0 && t.codes.hms == [])
  {
    hide IsPaused, IsFailed, IsFinished, IsPreparing, IsPrinting, Normalize, Contains, FaultPauseLatched, NextTexts,
         IsFilamentStage, NextCodes, NextAms, NextFilament;
    FailedUnlessReal(r, p, labels);
  }

  lemma FailedUnlessReal(r: Runtime, p: Payload, labels: Labels)
    ensures var t := Fold(r, p, labels);
      RealError(t.codes, t.texts) ==> t.verdicts.hasError && t.codes.printError != 0
  {
    hide NextTexts, NextCodes, FaultPauseLatched, NextAms, NextFilament, LifecycleFromState, IsFilamentStage;
  }

  // ----- stage texts

  predicate Unnamed(name: string) {
    Lower(name) in {"", "status", "stage", "unknown"}
  }

  predicate Running(state: string) {
    state in {"RUNNING", "PREPARE", "PAUSE", "PAUSED", "INIT", "SLICING"}
  }

  /** A stage worth keeping between sub-states. */
  predicate TellsMore(stage: string) {
    Lower(stage) !in {"", "status", "stage", "unknown", "idle", "finished", "failed", "printing", "preparing", "paused"}
  }

  predicate ChangesFilament(stage: string) {
    Lower(stage) in {"changing_filament", "filament_loading", "filament_unloading"}
  }

  lemma StageClasses(name: string, state: string)
    ensures IsPlaceholderStage(name) == Unnamed(name) && IsActiveState(state) == Running(state)
    ensures IsMeaningfulStage(name) == TellsMore(name) && IsFilamentChangeStage(name) == ChangesFilament(name)
  {
    hide Lower;
  }

  /** The stage id in force: a report of an AMS filament change that names no stage of its own means that change. */
  function IdInForce(r: Runtime, p: Payload): int {
    var changing := if p.amsStatus < 0 then r.ams.changing else (p.amsStatus / 256) % 256 == 1;
    if changing && (p.stageId == 0 || p.stageId == -1 || p.stageId == 255) then 4 else p.stageId
  }

  /** The stage a report names: a state that ends a job names it, and then a stage name of its own, then its
      stage id, then its state. */
  lemma StageNamed(r: Runtime, p: Payload, labels: Labels)
    ensures var stage, state, id := StageOf(r, p, labels), InForce(r, p), IdInForce(r, p);
      var error, none := Last(p.printError, r.codes.printError) != 0, id == -1 || id == 255;
      var idle, named := Lower(p.stageName) == "idle", !Unnamed(p.stageName);
      stage ==
      if state == "FAILED" && error then "Failed" else if state == "FAILED" then "Stopped"
      else if state == "FINISH" then "Finished" else if state == "IDLE" then "Idle"
      else if state in {"PAUSE", "PAUSED"} && (none || labels.byId(id) == "") && (idle || !named) then "Paused"
      else if Running(state) && (idle || (!named && none)) then ""
      else if named then p.stageName
      else if labels.byId(id) != "" then labels.byId(id)
      else labels.byStatus(state, error)
  {
    hide Lower;
    StageClasses(p.stageName, InForce(r, p));
    hide IsPlaceholderStage, IsActiveState, Unnamed, Running;
    IdleIsNamed(p.stageName);
  }

  lemma IdleIsNamed(name: string)
    ensures Lower(name) == "idle" ==> !Unnamed(name)
  {
    hide Lower;
  }

  /** What of the stage so far is kept when a report names none. */
  function KeptStage(r: Runtime, p: Payload, f: Filament, changing: bool): string {
    var previous, id := r.texts.rawStage, IdInForce(r, p);
    var between := Running(InForce(r, p)) && (id == -1 || id == 255 || Lower(p.stageName) == "idle");
    var changed := ChangesFilament(previous) && f.hwSwitch == 1 && 0 <= f.trayNow == f.trayTar && !changing;
    if between && (changed || !TellsMore(previous)) then "" else previous
  }

  /** Which half of a filament change the switch and the trays tell of. */
  function HalfOfChange(stage: string, f: Filament): string {
    var known, arrived := f.trayNow >= 0 && f.trayTar >= 0, f.trayNow == f.trayTar;
    if stage != "changing_filament" || f.hwSwitch !in {0, 1} then stage
    else if f.hwSwitch == 0 && ((known && arrived) || f.trayTar == 254) then "filament_loading"
    else if f.hwSwitch == 0 || (known && !arrived) then "filament_unloading"
    else stage
  }

  /** A stage before the first layer, or one that speaks of printing in capitals. */
  predicate BeforePrinting(stage: string) {
    !Contains(stage, "printing") && !Contains(Lower(stage), "download") && !IsFilamentStage(stage)
    && (IsPreheatStage(Lower(stage)) || IsCleanStage(Lower(stage)) || IsLevelStage(Lower(stage))
        || IsSetupStage(Lower(stage)) || Contains(Lower(stage), "printing"))
  }

  function Cut(text: string, max: nat): string {
    if |text| <= max then text else text[..max]
  }

  /** The stage texts after a report: the stage it names, else what is kept of the last one; a filament change
      told apart into its halves; and no preparation once layers are laid down. */
  lemma StageTable(r: Runtime, p: Payload, labels: Labels)
    ensures var t, state, named := Fold(r, p, labels), InForce(r, p), StageOf(r, p, labels);
      var kept := if named != "" then Cut(named, 31) else KeptStage(r, p, t.filament, t.ams.changing);
      var stage := HalfOfChange(kept, t.filament);
      && t.texts.rawStage == (if named == "" && state == "RUNNING" && p.advanced && BeforePrinting(stage)
                              then "printing" else stage)
      && t.texts.stage == (if t.texts.rawStage != "" then t.texts.rawStage
                           else if t.texts.rawStatus != ""
                           then Cut(labels.shown(t.texts.rawStatus, p.stageId, t.codes.printError != 0), 31)
                           else r.texts.stage)
  {
    var f, ams := NextFilament(r.filament, p), NextAms(r.ams, p.amsStatus);
    IdsAgree(r, p);
    KeptIsLatched(r, p, StageOf(r, p, labels));
    FreshIs(RefinedStage(LatchedStage(r, p, StageOf(r, p, labels), IdInForce(r, p), f, ams.changing), f),
            InForce(r, p), StageOf(r, p, labels), p.advanced);
    HalfIsRefined(LatchedStage(r, p, StageOf(r, p, labels), IdInForce(r, p), f, ams.changing), f);
    hide LatchedStage, RefinedStage, FreshStage, StageOf, NextVerdicts, FaultPauseLatched, NextCodes, NextAms,
         NextFilament, KeptStage, HalfOfChange, BeforePrinting, EffectiveStageId, IdInForce;
  }

  lemma IdsAgree(r: Runtime, p: Payload)
    ensures EffectiveStageId(NextAms(r.ams, p.amsStatus).changing, p.stageId) == IdInForce(r, p)
    ensures EffectiveState(r, p) == InForce(r, p)
  {
  }

  lemma KeptIsLatched(r: Runtime, p: Payload, named: string)
    ensures var f, changing := NextFilament(r.filament, p), NextAms(r.ams, p.amsStatus).changing;
      LatchedStage(r, p, named, IdInForce(r, p), f, changing) ==
      if named != "" then Cut(named, 31) else KeptStage(r, p, f, changing)
  {
    hide Lower, NextFilament, NextAms, IdInForce;
    StageClasses(r.texts.rawStage, InForce(r, p));
    hide IsMeaningfulStage, IsFilamentChangeStage, IsActiveState, Running, TellsMore, ChangesFilament;
  }

  lemma HalfIsRefined(stage: string, f: Filament)
    ensures RefinedStage(stage, f) == HalfOfChange(stage, f)
  {
  }

  lemma FreshIs(stage: string, state: string, named: string, advanced: bool)
    ensures FreshStage(stage, state, named, advanced) ==
            if named == "" && state == "RUNNING" && advanced && BeforePrinting(stage) then "printing" else stage
  {
    hide Contains, Lower, IsPreheatStage, IsCleanStage, IsLevelStage, IsSetupStage;
    if state == "RUNNING" {
      RunningIsNoDownload();
      LoweredTwice(stage);
      NothingIsNoStage();
    }
  }

  lemma LoweredTwice(stage: string)
    ensures Lower(Lower(stage)) == Lower(stage)
  {
    assert forall k :: 0 <= k < |stage| ==> LowerChar(LowerChar(stage[k])) == LowerChar(stage[k]);
  }

  lemma RunningIsNoDownload()
    ensures !Contains(Lower("RUNNING"), "download")
  {
    assert Lower("RUNNING")[0] == 'r';
    assert 'd' !in Lower("RUNNING");
    MissingLetter(Lower("RUNNING"), "download", 0);
  }

  lemma NothingIsNoStage()
    ensures !BeforePrinting("")
  {
    assert forall word: string :: word != "" ==> !Contains("", word);
    hide Contains;
  }

  /** A client that has just been made shows what its reports say, and an error only if one of them raised it. */
  lemma FromTheFirstReport(ps: seq<Payload>, labels: Labels)
    ensures var t := FoldAll(INITIAL, ps, labels);
      && t.codes.printError == Last(LastPrintError(ps), 0) && (LastHms(ps).NoHms? ==> t.codes.hms == [])
      && t.filament == Filament(Last(LastSwitch(ps), -1), Last(LastTray(ps), -1), Last(LastTarget(ps), -1))
      && t.texts.rawStatus == Cut(LastState(ps), 15)
      && (LastAmsStatus(ps).Absent? ==> t.ams == AmsLatch(false, -1))
      && (ps == [] ==> t.texts == Texts("", "", "") && t.verdicts == Verdicts(Unknown, false, false)
                       && t.codes.hmsCount == 0)
      && (t.verdicts.hasError ==> exists k :: 1 <= k <= |ps| && ErrorBegan(INITIAL, ps, labels, k))
  {
    hide Fold, LastPrintError, LastHms, LastState, LastSwitch, LastTray, LastTarget, LastAmsStatus, PausedSince, Raises;
    CodesAreTheLastReported(INITIAL, ps, labels);
    FilamentIsTheLastReported(INITIAL, ps, labels);
    StatusIsTheLastState(INITIAL, ps, labels);
    LatchIsTheLastVerdict(INITIAL, ps, labels);
    ErrorShownExactly(INITIAL, ps, labels);
  }

  /** The stored texts fit their buffers after any run. */
  lemma {:induction false} TextsFitTheirBuffers(ps: seq<Payload>, labels: Labels)
    ensures var t := FoldAll(INITIAL, ps, labels).texts;
      |t.rawStatus| <= 15 && |t.rawStage| <= 31 && |t.stage| <= 31
  {
    hide Fold, StageOf, KeptStage, HalfOfChange, BeforePrinting, InForce;
    if ps != [] {
      var r, p := FoldAll(INITIAL, ps[..|ps| - 1], labels), ps[|ps| - 1];
      TextsFitTheirBuffers(ps[..|ps| - 1], labels);
      StageTable(r, p, labels);
      StoredStatus(r, p, labels);
      var t := Fold(r, p, labels);
      KeptIsShort(r, p, t.filament, t.ams.changing);
      HalfIsShort(if StageOf(r, p, labels) != "" then Cut(StageOf(r, p, labels), 31)
                  else KeptStage(r, p, t.filament, t.ams.changing), t.filament);
    }
  }

  lemma KeptIsShort(r: Runtime, p: Payload, f: Filament, changing: bool)
    ensures |KeptStage(r, p, f, changing)| <= |r.texts.rawStage|
  {
    hide Running, TellsMore, ChangesFilament, InForce, IdInForce;
  }

  lemma HalfIsShort(stage: string, f: Filament)
    ensures |stage| <= 31 ==> |HalfOfChange(stage, f)| <= 31
  {
  }
}
