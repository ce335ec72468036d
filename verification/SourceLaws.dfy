/** What a merge comes to, written out over its inputs: which source supplies which bundle, and what is
    then shown of it. Twelve phases of the merge come down to one choice per bundle. */
module SourceLaws {
  import B = BambuStatus
  import opened BambuStatus
  import opened Text
  import opened PrinterState
  import opened UiState
  import opened UiStateLaws
  import opened EmptyStatusLaws
  import opened StatusMerge
  import opened StatusMergeLaws
  import opened IgnoredSourceLaws
  import opened StatusWords

  // ----- the printers

  const ENCLOSED: set<Model> := {P2S, H2C, H2D, H2DPro, H2S, X1, X1C, X1E, X2D}

  /** Every printer can be watched locally; the enclosed ones have a chamber to measure and prefer the cloud. */
  lemma ModelTable(m: Model)
    ensures HasChamberTemperature(m) <==> m in ENCLOSED
    ensures PrefersCloudStatus(m) <==> m in ENCLOSED
    ensures HasChamberLight(m) <==> m in ENCLOSED || m == P1S
    ensures HasSecondaryNozzle(m) <==> m in {H2D, H2DPro, X2D}
    ensures SupportsLocalStatus(m)
  {
  }

  // ----- what each source offers

  predicate LocalOn(i: Input) {
    i.mode in {LocalOnly, Hybrid} && i.localPrinterEnabled
  }

  predicate CloudOn(i: Input) {
    i.mode in {CloudOnly, Hybrid} && i.cloud.meta.configured
  }

  /** The printer prefers the cloud; its model is the cloud's word, and the local one where the cloud has none. */
  predicate CloudFirst(i: Input) {
    var l, c := i.local.local.model, i.cloud.meta.model;
    i.mode == Hybrid && (c in ENCLOSED || (c == UnknownModel && l in ENCLOSED))
  }

  /** An update that is neither missing, nor from the future, nor older than the window. */
  predicate Fresh(update: nat, now: nat, window: nat) {
    0 < update <= now <= update + window
  }

  predicate Complains(e: Errors, flag: bool) {
    flag || e.nonErrorStop || e.printErrorCode != 0 || e.hmsCodes != [] || e.hmsAlertCount != 0
  }

  /** A local printer with nothing to say about a job. */
  predicate LocalSilent(s: Snapshot) {
    && !Complains(s.errors, s.status.hasError) && s.status.lifecycle in {Unknown, B.Idle}
    && s.metrics.progressPercent <= 0.0 && s.status.rawStatus == "" && s.status.rawStage == ""
    && s.status.stage in {"", "boot", "wifi", "mqtt", "connected", "setup", "ready", "cloud", "cloud-online"}
  }

  predicate CloudSilent(c: CloudSnapshot) {
    && !Complains(c.errors, c.hasError) && c.lifecycle == Unknown
    && c.metrics.progressPercent <= 0.0 && c.rawStatus == "" && c.rawStage == "" && c.stage == ""
  }

  predicate Measures(m: Metrics) {
    m.progressPercent > 0.0 || m.remainingSeconds != 0 || m.currentLayer != 0 || m.totalLayers != 0
  }

  predicate Lit(l: Light) {
    l.supported && l.known
  }

  predicate Loaded(t: Trays) {
    t.ams.SharedAms? && t.ams.count != 0
  }

  const NOTHING: Usable := Usable(false, false, false, false, false, false)

  /** An enabled, connected local printer offers for 90 seconds after its last update. */
  function LocalOffer(i: Input): Usable {
    var s := i.local;
    if !(LocalOn(i) && s.local.connected && Fresh(s.local.lastUpdateMs, i.nowMs, 90000)) then NOTHING
    else Usable(!LocalSilent(s), !LocalSilent(s) || Measures(s.metrics) || s.metrics.jobName != "",
                s.local.capabilities.temperatures, Lit(s.light), Complains(s.errors, s.status.hasError),
                Loaded(s.trays))
  }

  /** A configured, connected cloud offers for five minutes. */
  function CloudOffer(i: Input): Usable {
    var c := i.cloud;
    if !(CloudOn(i) && c.meta.connected && Fresh(c.meta.lastUpdateMs, i.nowMs, 300000)) then NOTHING
    else Usable(!CloudSilent(c), !CloudSilent(c) || Measures(c.metrics) || c.preview.title != "",
                c.meta.capabilities.temperatures
                && (c.nozzle.lastUpdateMs != 0 || c.bed.lastUpdateMs != 0 || c.chamber.lastUpdateMs != 0
                    || c.secondary.lastUpdateMs != 0),
                Lit(c.light), Complains(c.errors, c.hasError), Loaded(c.trays))
  }

  lemma LocalSupply(i: Input)
    ensures LocalUsable(i) == LocalOffer(i)
    ensures LocalEnabled(i) == LocalOn(i)
  {
    StageNames(i.local.status.stage);
    hide IsGenericLocalStage;
  }

  lemma StageNames(stage: string)
    ensures IsGenericLocalStage(stage) <==>
            stage in {"", "boot", "wifi", "mqtt", "connected", "setup", "ready", "cloud", "cloud-online"}
  {
  }

  lemma CloudSupply(i: Input)
    ensures CloudUsable(i) == CloudOffer(i)
    ensures CloudEnabled(i) == CloudOn(i)
  {
  }

  lemma Preference(i: Input)
    ensures PrefersCloud(i) == CloudFirst(i)
  {
    ModelTable(i.cloud.meta.model);
    ModelTable(i.local.local.model);
    hide PrefersCloudStatus;
  }

  // ----- who wins each bundle

  function Winner(i: Input, local: bool, cloud: bool): FieldSource {
    if cloud && (CloudFirst(i) || !local) then Cloud else if local then Local else NoSource
  }

  datatype Winners = Winners(
    status: FieldSource, metrics: FieldSource, temperatures: FieldSource, light: FieldSource, error: FieldSource,
    trays: FieldSource)

  /** The AMS stays local whenever it can, whatever the printer prefers. */
  function WinnersOf(i: Input): Winners {
    var l, c := LocalOffer(i), CloudOffer(i);
    Winners(Winner(i, l.status, c.status), Winner(i, l.metrics, c.metrics),
            Winner(i, l.temperatures, c.temperatures), Winner(i, l.light, c.light), Winner(i, l.error, c.error),
            if l.ams then Local else if c.ams then Cloud else NoSource)
  }

  /** A flag set for a bundle that the local source, or only the cloud, supplies. */
  predicate Supplies(w: FieldSource, local: bool, cloud: bool) {
    (w == Local <==> local) && (w == Cloud <==> !local && cloud)
  }

  lemma WinnersAreUsed(i: Input)
    ensures var w, l, c := WinnersOf(i), LocalUsed(i), CloudUsable(i);
      && w.status == StatusSource(i) && w.metrics == MetricsSource(i) && w.error == ErrorSource(i)
      && Supplies(w.temperatures, l.temperatures, c.temperatures) && Supplies(w.light, l.light, c.light)
      && Supplies(w.trays, l.ams, c.ams)
  {
    hide LocalOffer, CloudOffer, LocalUsable, CloudUsable, CloudFirst, PrefersCloud, LocalEnabled, CloudEnabled,
         LocalOn, CloudOn, Winner, Choose;
    LocalSupply(i);
    CloudSupply(i);
    Preference(i);
    OneWins(i, LocalOffer(i).status, CloudOffer(i).status);
    OneWins(i, LocalOffer(i).metrics, CloudOffer(i).metrics);
    OneWins(i, LocalOffer(i).temperatures, CloudOffer(i).temperatures);
    OneWins(i, LocalOffer(i).light, CloudOffer(i).light);
    OneWins(i, LocalOffer(i).error, CloudOffer(i).error);
  }

  lemma OneWins(i: Input, local: bool, cloud: bool)
    ensures Winner(i, local, cloud) == Choose(local && !(CloudFirst(i) && cloud), cloud)
    ensures Supplies(Winner(i, local, cloud), local && !(CloudFirst(i) && cloud), cloud)
  {
    hide CloudFirst;
  }

  // ----- phases that change nothing

  lemma LettersOfGenericStage(stage: string)
    requires IsGenericLocalStage(stage)
    ensures 'h' !in stage && '_' !in stage
    ensures 'a' !in stage || ('c' !in stage && 'p' !in stage)
    ensures 'w' !in stage || 'd' !in stage
  {
    if 'a' in stage {
      assert stage == "ready";
    } else if 'w' in stage {
      assert stage == "wifi";
    }
  }

  lemma LowerOfGenericStage(stage: string)
    requires IsGenericLocalStage(stage)
    ensures Lower(stage) == stage && |stage| <= 12
  {
    assert forall k :: 0 <= k < |stage| ==> !('A' <= stage[k] <= 'Z');
  }

  lemma WordsOfGenericStage(stage: string)
    requires IsGenericLocalStage(stage)
    ensures Lower(stage) == stage && |stage| <= 12
    ensures !Contains(stage, "preheat") && !Contains(stage, "clean") && !Contains(stage, "bed_level")
    ensures !Contains(stage, "cool") && !Contains(stage, "download") && !Contains(stage, "pause")
  {
    hide IsGenericLocalStage, Contains, Lower;
    LowerOfGenericStage(stage);
    LettersOfGenericStage(stage);
    MissingLetter(stage, "preheat", 3);
    MissingLetter(stage, "bed_level", 3);
    MissingLetter(stage, "clean", if 'a' in stage then 0 else 3);
    MissingLetter(stage, "pause", if 'a' in stage then 0 else 1);
    MissingLetter(stage, "download", if 'w' in stage then 0 else 2);
    NotCool(stage);
  }

  lemma NotCool(stage: string)
    requires IsGenericLocalStage(stage)
    ensures !Contains(stage, "cool")
  {
    if stage in ["cloud", "cloud-online"] {
      assert forall i: nat :: i + 1 < |stage| && stage[i] == 'c' ==> stage[i + 1] == 'l';
      forall i: nat ensures !OccursAt(stage, "cool", i) {
        if i + 4 <= |stage| {
          assert stage[i..i + 4][0] == stage[i] && stage[i..i + 4][1] == stage[i + 1];
        }
      }
    } else {
      MissingLetter(stage, "cool", if stage == "connected" then 3 else 0);
    }
  }

  lemma TooLong(stage: string, word: string)
    requires |stage| < |word|
    ensures !Contains(stage, word)
  {
  }

  lemma NotSetup(stage: string)
    requires |stage| <= 12
    ensures !IsSetupStage(stage)
  {
    forall word: string | |word| > 12 ensures !Contains(stage, word) {
      TooLong(stage, word);
    }
    hide Contains;
  }

  lemma NotSpecific(stage: string)
    requires IsGenericLocalStage(stage)
    ensures !IsSpecificRuntimeStage(stage) && !IsPreheatStage(stage)
  {
    hide IsGenericLocalStage, Contains, Lower, IsFilamentStage, IsPreheatStage, IsCleanStage, IsLevelStage,
         IsCoolingStage, IsSetupStage;
    WordsOfGenericStage(stage);
    NotSetup(stage);
    TooLong(stage, "filament_loading");
    TooLong(stage, "filament_unloading");
    TooLong(stage, "changing_filament");
    TooLong(stage, "heating_hotend");
    TooLong(stage, "heating_chamber");
    TooLong(stage, "waiting_for_heatbed_temperature");
    TooLong(stage, "thermal_preconditioning");
    TooLong(stage, "measuring_surface");
    FilamentWords(stage);
    PreheatWords(stage);
    CleanWords(stage);
    LevelWords(stage);
    CoolingWords(stage, "");
    TooLong("", "cool");
  }

  /** A silent local printer never says more than what is shown already. */
  lemma SilenceSaysNothingMore(target: Status, local: Status)
    requires local.rawStatus == "" && local.rawStage == "" && local.lifecycle in {Unknown, B.Idle}
    requires IsGenericLocalStage(local.stage)
    requires target.rawStage == "" && target.stage == "" ==> local.stage == ""
    ensures !LocalSubstateOverrides(target, local)
  {
    hide IsGenericLocalStage, Contains, Lower, IsFilamentStage, IsPreheatStage, IsCleanStage, IsLevelStage,
         IsCoolingStage, IsSetupStage, IsPreparing, IsPaused, IsSpecificRuntimeStage, Token;
    WordsOfGenericStage(local.stage);
    NotSpecific(local.stage);
    TokenFacts(local.lifecycle);
    LowerKeepsLength(local.stage);
    LowerKeepsLength(target.stage);
    LowerKeepsLength(target.rawStage);
  }

  lemma LowerKeepsLength(s: string)
    ensures |Lower(s)| == |s|
  {
  }

  // ----- what is shown

  function Pick<T>(source: FieldSource, local: T, cloud: T, neither: T): T {
    match source
    case Local => local
    case Cloud => cloud
    case NoSource => neither
  }

  function Or(text: string, otherwise: string): string {
    if text == "" then otherwise else text
  }

  /** The source that answers before, or in place of, a usable status. */
  function BaseSource(i: Input): FieldSource {
    if CloudOn(i) && (CloudFirst(i) || !LocalOn(i)) then Cloud else if LocalOn(i) then Local else NoSource
  }

  /** What is shown as long as no source has a status. */
  function BaseStatus(i: Input): Status {
    var b, l, c := BaseSource(i), i.local.status, i.cloud;
    Status(Pick(b, l.connection, if c.meta.connected then Online else Connecting, WaitingForCredentials),
           Pick(b, l.lifecycle, c.lifecycle, Unknown),
           Pick(b, l.stage, if c.meta.connected then "cloud-online" else "cloud",
                if i.mode == CloudOnly then "cloud" else "setup"),
           Pick(b, l.detail, Or(c.meta.detail, "Cloud path ready"),
                if i.mode == CloudOnly then "Cloud login not configured"
                else if i.mode == LocalOnly then "Need printer host, serial and access code"
                else "Configure cloud or local printer access"),
           "", "", false)
  }

  /** The merged status before errors are looked at. */
  function ChosenStatus(i: Input): Status {
    var w, b, l, c := WinnersOf(i).status, BaseStatus(i), i.local.status, i.cloud;
    Status(Pick(w, l.connection, Online, b.connection), Pick(w, l.lifecycle, c.lifecycle, b.lifecycle),
           Or(Pick(w, l.stage, c.stage, ""), b.stage), Or(Pick(w, l.detail, c.meta.detail, ""), b.detail),
           Pick(w, l.rawStatus, c.rawStatus, ""), Pick(w, l.rawStage, c.rawStage, ""),
           Pick(w, l.hasError, c.hasError, false))
  }

  /** The merge up to its base state, its status and its metrics. */
  function Based(i: Input): Snapshot {
    ApplyBase(CopyMetadata(DEFAULT_SNAPSHOT, i), i)
  }

  function Chosen(i: Input): Snapshot {
    StatusPhase(Based(i), i)
  }

  function Measured(i: Input): Snapshot {
    MetricsPhase(Chosen(i), i)
  }

  lemma BaseIsShown(i: Input)
    ensures Based(i) == CopyMetadata(DEFAULT_SNAPSHOT, i).(status := BaseStatus(i))
  {
    hide CopyMetadata, BaseStatus, ApplyBase;
    FreshStatus(i);
    BaseIsApplied(CopyMetadata(DEFAULT_SNAPSHOT, i), i);
  }

  lemma FreshStatus(i: Input)
    ensures CopyMetadata(DEFAULT_SNAPSHOT, i).status == Status(Booting, Unknown, "boot", "Starting up", "", "", false)
  {
  }

  lemma BaseIsChosen(t: Snapshot, i: Input)
    ensures ApplyBase(t, i) ==
            match BaseSource(i)
            case Cloud => BaseFromCloud(t, i.cloud)
            case Local => BaseFromLocal(t, i.local)
            case NoSource =>
              if i.mode == CloudOnly then BaseWaiting(t, "cloud", "Cloud login not configured")
              else if i.mode == LocalOnly then BaseWaiting(t, "setup", "Need printer host, serial and access code")
              else BaseWaiting(t, "setup", "Configure cloud or local printer access")
  {
    hide PrefersCloud, CloudFirst, BaseFromCloud, BaseFromLocal, BaseWaiting, LocalOn, CloudOn, LocalEnabled,
         CloudEnabled;
    LocalSupply(i);
    CloudSupply(i);
    Preference(i);
    ModesOfSources(i);
  }

  lemma ModesOfSources(i: Input)
    ensures LocalOn(i) ==> i.mode != CloudOnly
    ensures CloudOn(i) ==> i.mode != LocalOnly
    ensures CloudFirst(i) ==> i.mode == Hybrid
  {
  }

  lemma BaseIsApplied(t: Snapshot, i: Input)
    requires t.status == Status(Booting, Unknown, "boot", "Starting up", "", "", false)
    ensures ApplyBase(t, i) == t.(status := BaseStatus(i))
  {
    hide ApplyBase, BaseSource;
    BaseIsChosen(t, i);
  }

  lemma CloudOffersWhenConnected(i: Input)
    ensures WinnersOf(i).status == Cloud ==> i.cloud.meta.connected
  {
    hide LocalOffer, CloudFirst, CloudSilent;
  }

  lemma StatusIsChosen(i: Input)
    ensures Chosen(i).status == ChosenStatus(i)
    ensures Chosen(i) == Based(i).(status := ChosenStatus(i),
                                   sources := Sources(WinnersOf(i).status, NoSource, NoSource, NoSource))
  {
    hide WinnersOf, BaseStatus, StatusSource;
    BaseIsShown(i);
    WinnersAreUsed(i);
    CloudOffersWhenConnected(i);
  }

  /** Metrics from the local source beside a status from elsewhere: the local source was silent. */
  lemma SilentUnlessChosen(i: Input)
    ensures var w := WinnersOf(i); w.metrics == Local && w.status != Local ==> LocalSilent(i.local)
  {
    hide LocalSilent, CloudSilent, CloudFirst, LocalOn, CloudOn, Fresh;
  }

  /** The stage is missing only where the local one is, too. */
  lemma StageIsKept(i: Input)
    ensures WinnersOf(i).metrics == Local && ChosenStatus(i).stage == "" ==> i.local.status.stage == ""
  {
    hide LocalSilent, CloudSilent, CloudFirst, Fresh;
  }

  /** The local sub-state never replaces anything: where the local status is shown it is shown already,
      and where it is not, the local source has nothing to say. */
  lemma SubstateOverrideIsDead(i: Input)
    ensures Measured(i).status == Chosen(i).status
  {
    var w, l, u := WinnersOf(i), i.local.status, Chosen(i).status;
    hide WinnersOf, Based, Chosen, ChosenStatus, LocalSubstateOverrides, MetricsSource, BelievesRemaining;
    WinnersAreUsed(i);
    StatusIsChosen(i);
    SilentUnlessChosen(i);
    StageIsKept(i);
    if w.metrics == Local && w.status != Local {
      StageNames(l.stage);
      SilenceSaysNothingMore(u, l);
    } else if w.metrics == Local {
      LocalIsShownAlready(i);
    }
  }

  lemma LocalIsShownAlready(i: Input)
    requires WinnersOf(i).status == Local
    ensures var l, u := i.local.status, ChosenStatus(i);
      && OrKeep(l.rawStatus, u.rawStatus) == u.rawStatus && OrKeep(l.rawStage, u.rawStage) == u.rawStage
      && OrKeep(l.stage, u.stage) == u.stage && OrKeep(l.detail, u.detail) == u.detail
  {
    hide WinnersOf, BaseStatus;
  }

  /** The metrics of the winner; a missing job name is the cloud's title, and the filament estimate is the
      cloud's alone. */
  function ShownMetrics(i: Input): Metrics {
    var w, c := WinnersOf(i).metrics, i.cloud;
    var m := Pick(w, i.local.metrics, c.metrics, Metrics(0.0, false, 0, 0, 0, "", 0.0, 0.0));
    Metrics(m.progressPercent, m.downloadRelated, m.remainingSeconds, m.currentLayer, m.totalLayers,
            Or(Pick(w, i.local.metrics.jobName, "", ""), if CloudOn(i) then c.preview.title else ""),
            if CloudOn(i) && c.metrics.filamentWeight > 0.0 then c.metrics.filamentWeight else 0.0,
            if CloudOn(i) && c.metrics.filamentLength > 0.0 then c.metrics.filamentLength else 0.0)
  }

  lemma BasedRest(i: Input)
    ensures var d, t := DEFAULT_SNAPSHOT, Chosen(i);
      && t.metrics == Metrics(0.0, false, 0, 0, 0, "", 0.0, 0.0)
      && t.temperatures == Temperatures(Temperature(0.0, false), Temperature(0.0, false), Temperature(0.0, false),
                                        Temperature(0.0, false), -1)
      && t.light == Light(false, false, false) && t.errors == Errors(0, [], 0, false, false)
      && t.trays == Trays(-1, -1, -1, NoAms) && t.preview == Preview("", 0, "") && t.ui == Ui("", false, false)
  {
    hide Chosen, Based, BaseStatus, WinnersOf, ChosenStatus;
    BaseIsShown(i);
    StatusIsChosen(i);
  }

  lemma CloudWinsWhenOn(i: Input)
    ensures WinnersOf(i).metrics == Cloud || CloudOffer(i).metrics ==> CloudOn(i)
  {
    hide CloudSilent, CloudFirst, LocalOffer;
  }

  lemma MetricsAreShown(i: Input)
    ensures ApplyCloudEstimate(Measured(i), i).metrics == ShownMetrics(i)
    ensures ApplyCloudEstimate(Measured(i), i) == Chosen(i).(metrics := ShownMetrics(i),
              sources := Sources(WinnersOf(i).status, WinnersOf(i).metrics, NoSource, NoSource))
  {
    hide WinnersOf, Chosen, ChosenStatus, Based, LocalSubstateOverrides, MetricsSource, CloudOn;
    WinnersAreUsed(i);
    StatusIsChosen(i);
    SubstateOverrideIsDead(i);
    BasedRest(i);
    CloudWinsWhenOn(i);
    CloudSupply(i);
  }

  // ----- the rest of the merge

  function ShownTemperatures(i: Input): Temperatures {
    var w, l, c := WinnersOf(i).temperatures, i.local.temperatures, i.cloud;
    Temperatures(ShownTemperature(w, l.nozzle, c.nozzle), ShownTemperature(w, l.bed, c.bed),
                 ShownTemperature(w, l.chamber, c.chamber), ShownTemperature(w, l.secondary, c.secondary),
                 var nozzle := Pick(w, l.activeNozzle, c.activeNozzle, -1); if nozzle < 0 then -1 else nozzle)
  }

  /** A local temperature above zero is known; a cloud temperature is known once it was updated. */
  function ShownTemperature(w: FieldSource, l: Temperature, c: CloudTemperature): Temperature {
    Pick(w, Temperature(l.celsius, l.known || l.celsius > 0.0),
         if c.lastUpdateMs != 0 then Temperature(c.celsius, true) else Temperature(0.0, false),
         Temperature(0.0, false))
  }

  function ShownLight(i: Input): Light {
    var w := WinnersOf(i).light;
    Light((LocalOn(i) && i.local.light.supported) || (CloudOn(i) && i.cloud.light.supported),
          w != NoSource, Pick(w, i.local.light.on, i.cloud.light.on, false))
  }

  lemma CloudReadingsAreConnected(i: Input)
    ensures WinnersOf(i).temperatures == Cloud ==> i.cloud.meta.connected
  {
    hide CloudSilent, CloudFirst, LocalOffer;
  }

  lemma ReadingsAreShown(t: Snapshot, i: Input)
    requires t.temperatures.activeNozzle == -1
    requires t.temperatures == DEFAULT_SNAPSHOT.temperatures
    ensures ApplyLight(ApplyTemperatures(t, i), i) ==
            t.(temperatures := ShownTemperatures(i), light := ShownLight(i))
  {
    hide WinnersOf, LocalUsed, CloudUsable, LocalEnabled, CloudEnabled, LocalOn, CloudOn;
    WinnersAreUsed(i);
    LocalSupply(i);
    CloudSupply(i);
    CloudReadingsAreConnected(i);
  }

  lemma BeforeErrorsIsShown(i: Input)
    ensures BeforeErrors(i) ==
            CopyMetadata(DEFAULT_SNAPSHOT, i).(
              status := ChosenStatus(i), metrics := ShownMetrics(i), temperatures := ShownTemperatures(i),
              light := ShownLight(i), sources := Sources(WinnersOf(i).status, WinnersOf(i).metrics, NoSource, NoSource))
  {
    hide WinnersOf, ChosenStatus, ShownMetrics, ShownTemperatures, ShownLight, BaseStatus, ApplyBase, StatusPhase,
         MetricsPhase, ApplyCloudEstimate, ApplyTemperatures, ApplyLight;
    BaseIsShown(i);
    StatusIsChosen(i);
    BasedRest(i);
    MetricsAreShown(i);
    ReadingsAreShown(ApplyCloudEstimate(Measured(i), i), i);
  }

  /** The errors of the winner, the stop banner of the local source alone, and its word on them. */
  function ShownErrors(i: Input): Errors {
    Pick(WinnersOf(i).error, i.local.errors, i.cloud.errors.(showStopBanner := false), Errors(0, [], 0, false, false))
  }

  function ShownStatus(i: Input): Status {
    var s := ChosenStatus(i);
    s.(detail := Or(Pick(WinnersOf(i).error, i.local.status.detail, i.cloud.meta.detail, ""), s.detail))
  }

  lemma ErrorsAreShown(i: Input)
    ensures ErrorPhase(BeforeErrors(i), i) ==
            BeforeErrors(i).(errors := ShownErrors(i), status := ShownStatus(i))
  {
    hide WinnersOf, ChosenStatus, ShownMetrics, ShownTemperatures, ShownLight, BeforeErrors, ErrorPhase, ErrorSource;
    ErrorFallbackIsDead(i);
    BeforeErrorsIsShown(i);
    WinnersAreUsed(i);
    NoErrorsBefore(i);
  }

  lemma NoErrorsBefore(i: Input)
    ensures BeforeErrors(i).errors == Errors(0, [], 0, false, false)
    ensures BeforeErrors(i).trays == Trays(-1, -1, -1, NoAms) && BeforeErrors(i).preview == Preview("", 0, "")
  {
    hide WinnersOf, ChosenStatus, ShownMetrics, ShownTemperatures, ShownLight, BeforeErrors;
    BeforeErrorsIsShown(i);
  }

  function ShownTrays(i: Input): Trays {
    Pick(WinnersOf(i).trays, i.local.trays, i.cloud.trays, Trays(-1, -1, -1, NoAms))
  }

  /** A cloud picture or title is shown for half an hour. */
  predicate ShowsPreview(i: Input) {
    var p := i.cloud.preview;
    CloudOn(i) && Fresh(i.cloud.meta.lastUpdateMs, i.nowMs, 1800000) && (p.url != "" || p.blob != 0 || p.title != "")
  }

  function ShownSources(i: Input): Sources {
    var w := WinnersOf(i);
    Sources(w.status, w.metrics, if ShowsPreview(i) then Cloud else NoSource,
            if LocalOn(i) && i.local.local.capabilities.cameraJpegSocket then Local else NoSource)
  }

  lemma TraysAndMediaAreShown(t: Snapshot, i: Input)
    requires t.trays == Trays(-1, -1, -1, NoAms) && t.preview == Preview("", 0, "")
    requires t.sources == Sources(WinnersOf(i).status, WinnersOf(i).metrics, NoSource, NoSource)
    ensures MediaPhase(TraysPhase(t, i), i) ==
            t.(trays := ShownTrays(i), preview := if ShowsPreview(i) then i.cloud.preview else Preview("", 0, ""),
               sources := ShownSources(i))
  {
    hide WinnersOf, LocalUsed, CloudUsable, LocalEnabled, CloudEnabled, LocalOn, CloudOn;
    WinnersAreUsed(i);
    LocalSupply(i);
    CloudSupply(i);
  }

  /** What a merge knows of each source; a cloud that lists no capability at all counts as able to do everything
      but the camera. */
  function KnownOfLocal(i: Input): LocalMeta {
    i.local.local.(configured := i.local.local.configured || i.localPrinterEnabled)
  }

  function KnownOfCloud(i: Input): CloudMeta {
    var can := i.cloud.meta.capabilities;
    var all := Capabilities(true, true, true, true, true, true, false);
    var nothing := Capabilities(false, false, false, false, false, false, can.cameraJpegSocket);
    i.cloud.meta.(capabilities := if can == nothing then all else can)
  }

  /** Everything but the masks. */
  function Shown(i: Input): Snapshot {
    Snapshot(ShownStatus(i), Ui("", false, false), ShownMetrics(i), ShownTemperatures(i), ShownLight(i), ShownErrors(i),
             ShownTrays(i), if ShowsPreview(i) then i.cloud.preview else Preview("", 0, ""), KnownOfLocal(i),
             KnownOfCloud(i), Or(i.cloud.resolvedSerial, i.local.resolvedSerial), i.network, ShownSources(i))
  }

  lemma MetadataIsKnown(i: Input)
    ensures var t := CopyMetadata(DEFAULT_SNAPSHOT, i);
      && t.local == KnownOfLocal(i) && t.cloud == KnownOfCloud(i) && t.network == i.network
      && t.resolvedSerial == Or(i.cloud.resolvedSerial, i.local.resolvedSerial) && t.ui == Ui("", false, false)
  {
  }

  lemma DetailIsBase(i: Input)
    ensures ShownStatus(i).detail == "" ==>
      var w, b := WinnersOf(i).status, BaseSource(i);
      && b == Local && i.local.status.detail == "" && (w == Cloud ==> i.cloud.meta.detail == "")
  {
    hide WinnersOf, BaseSource;
  }

  lemma StageIsBase(i: Input)
    ensures ShownStatus(i).stage == "" ==>
      && (WinnersOf(i).status == Local ==> i.local.status.stage == "")
      && (WinnersOf(i).status == Cloud ==> i.cloud.stage == "")
  {
    hide WinnersOf, BaseStatus;
  }

  /** By the time the fallbacks for missing texts are tried, nothing they could supply is still missing. */
  lemma TextFallbacksAreDead(i: Input)
    ensures TextPhase(Shown(i), i) == Shown(i)
  {
    JobNameIsKept(i);
    DetailIsKept(i);
    StageFallbackIsDead(i);
    hide WinnersOf, ShownStatus, ShownMetrics, JobNameFallback, DetailFallback, StageFallback, ShownTemperatures,
         ShownLight, ShownErrors, ShownTrays, ShowsPreview, LocalOn, KnownOfLocal, KnownOfCloud;
  }

  lemma JobNameIsKept(i: Input)
    ensures JobNameFallback(ShownMetrics(i).jobName, i) == ShownMetrics(i).jobName
  {
    hide WinnersOf, LocalUsed, CloudUsable, CloudOn, CloudOffer, StatusSource, ErrorSource;
    WinnersAreUsed(i);
    CloudSupply(i);
    CloudWinsWhenOn(i);
  }

  lemma DetailIsKept(i: Input)
    ensures DetailFallback(ShownStatus(i).detail, WinnersOf(i).status, i) == ShownStatus(i).detail
  {
    hide WinnersOf, ShownStatus, CloudOn, LocalOn, LocalEnabled, CloudEnabled, CloudFirst;
    DetailIsBase(i);
    LocalSupply(i);
    CloudSupply(i);
    CloudOnlyHasNoLocal(i);
  }

  lemma CloudOnlyHasNoLocal(i: Input)
    ensures i.mode.CloudOnly? ==> !LocalOn(i)
  {
  }

  lemma StageFallbackIsDead(i: Input)
    ensures StageFallback(ShownStatus(i).stage, WinnersOf(i).status, i) == ShownStatus(i).stage
  {
    hide WinnersOf, ShownStatus;
    StageIsBase(i);
  }

  lemma UnmaskedIsShown(i: Input)
    ensures Unmasked(i) == Shown(i)
  {
    hide WinnersOf, ChosenStatus, ShownMetrics, ShownTemperatures, ShownLight, ShownStatus, ShownErrors, ShownTrays,
         ShownSources, ShowsPreview, BeforeErrors, ErrorPhase, TraysPhase, MediaPhase, TextPhase, CopyMetadata,
         KnownOfLocal, KnownOfCloud;
    MetadataIsKnown(i);
    BeforeErrorsIsShown(i);
    ErrorsAreShown(i);
    NoErrorsBefore(i);
    TraysAndMediaAreShown(ErrorPhase(BeforeErrors(i), i), i);
    TextFallbacksAreDead(i);
  }

  // ----- the whole merge

  /** The model the readings are masked by: the winner's own word on it, or whatever is known. */
  function ShownModel(i: Input): Model {
    var l, c := i.local.local.model, i.cloud.meta.model;
    if c != UnknownModel && (WinnersOf(i).status == Cloud || l == UnknownModel) then c else l
  }

  predicate HasChamber(i: Input) {
    var m, serial := ShownModel(i), Or(i.cloud.resolvedSerial, i.local.resolvedSerial);
    if m == UnknownModel then !(|serial| >= 3 && serial[..2] == "01" && serial[2] in {'P', 'p'}) else m in ENCLOSED
  }

  lemma MasksAre(i: Input)
    ensures HidesChamber(i) <==> !HasChamber(i)
    ensures HidesSecondary(i) <==> ShownModel(i) !in {UnknownModel, H2D, H2DPro, X2D}
    ensures LightRuleOf(i) == if ShownModel(i) == UnknownModel then LeaveLight
                              else if ShownModel(i) in ENCLOSED || ShownModel(i) == P1S then ForceSupported
                              else DropLight
  {
    hide WinnersOf, StatusSource, HasChamberTemperature, HasSecondaryNozzle, HasChamberLight;
    WinnersAreUsed(i);
    ModelTable(ModelSeen(i));
    var s := SerialSeen(i);
    assert |s| >= 3 ==> (s[..2] == "01" <==> s[0] == '0' && s[1] == '1');
  }

  /** Every merge in full: each bundle is its winner's, what is missing is what the base has, and
      readings the printer cannot have are dropped. */
  lemma MergeIsSelection(i: Input)
    ensures var t, s, m := Merge(i), Shown(i), ShownModel(i);
      && t == s.(temperatures := t.temperatures, light := t.light)
      && t.temperatures == s.temperatures.(
           chamber := if HasChamber(i) then s.temperatures.chamber else Temperature(0.0, false),
           secondary := if m in {UnknownModel, H2D, H2DPro, X2D} then s.temperatures.secondary
                        else Temperature(0.0, false))
      && t.light == (if m == UnknownModel then s.light
                     else if m in ENCLOSED || m == P1S then s.light.(supported := true)
                     else Light(false, false, false))
  {
    hide Shown, Merge, Unmasked, HidesChamber, HidesSecondary, LightRuleOf, HasChamber, ShownModel, MaskPhase;
    UnmaskedIsShown(i);
    MergeIsMasked(i);
    MaskKeepsState(Unmasked(i), i);
    MaskedReadings(i);
    MasksAre(i);
  }

  /** Where both sources can supply a bundle, an enclosed printer's comes from the cloud and any other's from
      the local source; the AMS comes from the local one for either. */
  lemma HybridTakesThePreferred(i: Input)
    requires i.mode == Hybrid
    ensures var l, c, t := LocalOffer(i), CloudOffer(i), Merge(i);
      var model := if i.cloud.meta.model != UnknownModel then i.cloud.meta.model else i.local.local.model;
      var preferred := if model in ENCLOSED then Cloud else Local;
      && (l.status && c.status ==>
            (&& t.sources.status == preferred
             && t.status.lifecycle == Pick(preferred, i.local.status.lifecycle, i.cloud.lifecycle, Unknown)
             && t.status.rawStatus == Pick(preferred, i.local.status.rawStatus, i.cloud.rawStatus, "")
             && t.status.hasError == Pick(preferred, i.local.status.hasError, i.cloud.hasError, false)))
      && (l.metrics && c.metrics ==>
            (&& t.sources.metrics == preferred
             && t.metrics.progressPercent ==
                Pick(preferred, i.local.metrics.progressPercent, i.cloud.metrics.progressPercent, 0.0)))
      && (l.temperatures && c.temperatures ==>
            t.temperatures.nozzle == ShownTemperature(preferred, i.local.temperatures.nozzle, i.cloud.nozzle))
      && (l.light && c.light && t.light.supported ==>
            t.light.on == Pick(preferred, i.local.light.on, i.cloud.light.on, false))
      && (l.error && c.error ==>
            t.errors == Pick(preferred, i.local.errors, i.cloud.errors.(showStopBanner := false), t.errors))
      && (l.ams && c.ams ==> t.trays == i.local.trays)
  {
    hide LocalOffer, CloudOffer, Merge, HasChamber, ShownModel, BaseStatus, KnownOfLocal, KnownOfCloud, ShowsPreview,
         LocalOn, CloudOn, Or;
    MergeIsSelection(i);
  }
}
