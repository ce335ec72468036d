/** merge_status_sources of main/src/status_resolver.cpp as a function on the two source snapshots.
    SnapshotObject.dfy proves the in-place code against it. */
module StatusMerge {
  import opened Text
  import opened BambuStatus
  import opened PrinterState
  import opened UiState

  const LOCAL_SOURCE_FRESH_MS: nat := 90 * 1000
  const CLOUD_SOURCE_FRESH_MS: nat := 5 * 60 * 1000
  const CLOUD_PREVIEW_FRESH_MS: nat := 30 * 60 * 1000

  datatype SourceMode = CloudOnly | LocalOnly | Hybrid

  /** The arguments of a merge. */
  datatype Input = Input(
    local: Snapshot, localPrinterEnabled: bool, cloud: CloudSnapshot, mode: SourceMode, nowMs: nat, network: Network)

  predicate LocalEnabled(i: Input) {
    !i.mode.CloudOnly? && i.localPrinterEnabled
  }

  predicate CloudEnabled(i: Input) {
    !i.mode.LocalOnly? && i.cloud.meta.configured
  }

  function RoutingModel(i: Input): Model {
    if i.cloud.meta.model != UnknownModel then i.cloud.meta.model else i.local.local.model
  }

  predicate PrefersCloud(i: Input) {
    i.mode.Hybrid? && PrefersCloudStatus(RoutingModel(i))
  }

  // ----- what each source has to say

  predicate HasErrorCodes(e: Errors) {
    e.printErrorCode != 0 || e.hmsCodes != [] || e.hmsAlertCount > 0
  }

  predicate ReportsError(e: Errors, hasError: bool) {
    HasErrorCodes(e) || e.nonErrorStop || hasError
  }

  predicate IsGenericLocalStage(stage: string) {
    stage in ["", "boot", "wifi", "mqtt", "connected", "setup", "ready", "cloud", "cloud-online"]
  }

  predicate LocalStateHasSignal(s: Snapshot) {
    || HasErrorCodes(s.errors) || s.status.hasError || s.status.lifecycle == LifecycleError
    || IsNonErrorStop(s)
    || s.status.lifecycle in {Preparing, Printing, Paused, Finished}
    || s.metrics.progressPercent > 0.0 || s.status.rawStatus != "" || s.status.rawStage != ""
    || !IsGenericLocalStage(s.status.stage)
  }

  predicate CloudStateHasSignal(c: CloudSnapshot) {
    c.meta.connected &&
    (|| c.lifecycle != Unknown || c.metrics.progressPercent > 0.0
     || c.stage != "" || c.rawStatus != "" || c.rawStage != ""
     || ReportsError(c.errors, c.hasError))
  }

  predicate HasMetrics(m: Metrics) {
    m.progressPercent > 0.0 || m.remainingSeconds > 0 || m.currentLayer > 0 || m.totalLayers > 0
  }

  predicate LocalMetricsHaveSignal(s: Snapshot) {
    LocalStateHasSignal(s) || HasMetrics(s.metrics) || s.metrics.jobName != ""
  }

  predicate CloudMetricsHaveSignal(c: CloudSnapshot) {
    CloudStateHasSignal(c) || HasMetrics(c.metrics) || c.preview.title != ""
  }

  predicate IsRecentEnough(lastUpdateMs: nat, nowMs: nat, maxAgeMs: nat) {
    lastUpdateMs != 0 && lastUpdateMs <= nowMs && nowMs - lastUpdateMs <= maxAgeMs
  }

  predicate CloudTemperatureKnown(t: CloudTemperature, connected: bool) {
    connected && t.lastUpdateMs != 0
  }

  predicate HasAms(t: Trays) {
    t.ams.SharedAms? && t.ams.count > 0
  }

  /** Which bundles a source may supply. */
  datatype Usable = Usable(
    status: bool, metrics: bool, temperatures: bool, light: bool, error: bool, ams: bool)

  function LocalUsable(i: Input): Usable {
    var s := i.local;
    var recent := LocalEnabled(i) && s.local.connected &&
                 IsRecentEnough(s.local.lastUpdateMs, i.nowMs, LOCAL_SOURCE_FRESH_MS);
    var supported := LocalEnabled(i) && SupportsLocalStatus(RoutingModel(i));
    Usable(
      supported && recent && LocalStateHasSignal(s),
      supported && recent && LocalMetricsHaveSignal(s),
      supported && recent && s.local.capabilities.temperatures,
      supported && recent && s.light.supported && s.light.known,
      supported && recent && ReportsError(s.errors, s.status.hasError),
      recent && HasAms(s.trays))
  }

  function CloudUsable(i: Input): Usable {
    var c := i.cloud;
    var caps := c.meta.capabilities;
    var enabled := CloudEnabled(i);
    var recent := enabled && c.meta.connected && IsRecentEnough(c.meta.lastUpdateMs, i.nowMs, CLOUD_SOURCE_FRESH_MS);
    var reports := ReportsError(c.errors, c.hasError);
    Usable(
      enabled && (caps.status || CloudStateHasSignal(c)) && recent && CloudStateHasSignal(c),
      enabled && (caps.metrics || CloudMetricsHaveSignal(c)) && recent && CloudMetricsHaveSignal(c),
      enabled && caps.temperatures && recent &&
      (CloudTemperatureKnown(c.nozzle, c.meta.connected) || CloudTemperatureKnown(c.bed, c.meta.connected)
       || CloudTemperatureKnown(c.chamber, c.meta.connected) || CloudTemperatureKnown(c.secondary, c.meta.connected)),
      recent && c.light.supported && c.light.known,
      enabled && (caps.hms || caps.printError || reports) && recent && reports,
      recent && HasAms(c.trays))
  }

  /** A cloud-preferring model takes each bundle but the AMS from the cloud whenever it can. */
  function LocalUsed(i: Input): Usable {
    var l, c := LocalUsable(i), CloudUsable(i);
    if PrefersCloud(i)
    then Usable(l.status && !c.status, l.metrics && !c.metrics, l.temperatures && !c.temperatures,
                l.light && !c.light, l.error && !c.error, l.ams)
    else l
  }

  function Choose(local: bool, cloud: bool): FieldSource {
    if local then Local else if cloud then Cloud else NoSource
  }

  function StatusSource(i: Input): FieldSource {
    Choose(LocalUsed(i).status, CloudUsable(i).status)
  }

  function MetricsSource(i: Input): FieldSource {
    Choose(LocalUsed(i).metrics, CloudUsable(i).metrics)
  }

  function ErrorSource(i: Input): FieldSource {
    Choose(LocalUsed(i).error, CloudUsable(i).error)
  }

  // ----- bundles

  function CloudConnection(c: CloudSnapshot): Connection {
    if c.meta.connected then Online else Connecting
  }

  function CapabilitiesOrDefault(caps: Capabilities): Capabilities {
    if caps.status || caps.metrics || caps.temperatures || caps.preview || caps.hms || caps.printError then caps
    else DEFAULT_CLOUD_CAPABILITIES
  }

  function CopyMetadata(target: Snapshot, i: Input): Snapshot {
    target.(
      network := i.network,
      local := i.local.local.(configured := i.localPrinterEnabled || i.local.local.configured),
      cloud := i.cloud.meta.(capabilities := CapabilitiesOrDefault(i.cloud.meta.capabilities)),
      resolvedSerial := if i.cloud.resolvedSerial != "" then i.cloud.resolvedSerial else i.local.resolvedSerial,
      sources := Sources(NoSource, NoSource, NoSource, NoSource))
  }

  function BaseFromCloud(target: Snapshot, c: CloudSnapshot): Snapshot {
    target.(status := target.status.(
              connection := CloudConnection(c), lifecycle := c.lifecycle,
              stage := if c.meta.connected then "cloud-online" else "cloud",
              detail := if c.meta.detail == "" then "Cloud path ready" else c.meta.detail))
  }

  function BaseFromLocal(target: Snapshot, local: Snapshot): Snapshot {
    target.(status := target.status.(
              connection := local.status.connection, lifecycle := local.status.lifecycle,
              stage := local.status.stage, detail := local.status.detail))
  }

  function BaseWaiting(target: Snapshot, stage: string, detail: string): Snapshot {
    target.(status := target.status.(
              connection := WaitingForCredentials, lifecycle := Unknown, stage := stage, detail := detail))
  }

  function ApplyBase(target: Snapshot, i: Input): Snapshot {
    match i.mode
    case CloudOnly =>
      if CloudEnabled(i) then BaseFromCloud(target, i.cloud)
      else BaseWaiting(target, "cloud", "Cloud login not configured")
    case LocalOnly =>
      if LocalEnabled(i) then BaseFromLocal(target, i.local)
      else BaseWaiting(target, "setup", "Need printer host, serial and access code")
    case Hybrid =>
      if CloudEnabled(i) && PrefersCloud(i) then BaseFromCloud(target, i.cloud)
      else if LocalEnabled(i) then BaseFromLocal(target, i.local)
      else if CloudEnabled(i) then BaseFromCloud(target, i.cloud)
      else BaseWaiting(target, "setup", "Configure cloud or local printer access")
  }

  function OrKeep(value: string, current: string): string {
    if value != "" then value else current
  }

  function ApplyLocalStatus(target: Snapshot, local: Snapshot): Snapshot {
    var s := local.status;
    target.(status := Status(s.connection, s.lifecycle, OrKeep(s.stage, target.status.stage),
                             OrKeep(s.detail, target.status.detail), s.rawStatus, s.rawStage, s.hasError))
  }

  function ApplyCloudStatus(target: Snapshot, c: CloudSnapshot): Snapshot {
    target.(status := Status(CloudConnection(c), c.lifecycle, OrKeep(c.stage, target.status.stage),
                             OrKeep(c.meta.detail, target.status.detail), c.rawStatus, c.rawStage, c.hasError))
  }

  predicate IsSpecificRuntimeStage(stage: string) {
    IsFilamentStage(stage) || Contains(stage, "download") || IsPreheatStage(stage) || IsCleanStage(stage)
    || IsLevelStage(stage) || IsCoolingStage(stage, "") || IsSetupStage(stage)
  }

  /** The local sub-state says more than the status chosen so far. */
  predicate LocalSubstateOverrides(target: Status, local: Status) {
    var localStage, targetStage := EffectiveStage(local), EffectiveStage(target);
    var localStatus, targetStatus := EffectiveStatus(local), EffectiveStatus(target);
    || (IsSpecificRuntimeStage(localStage) && !IsSpecificRuntimeStage(targetStage))
    || (IsPrepareStatus(localStatus, localStage) && !IsPrepareStatus(targetStatus, targetStage))
    || (IsPausedStatus(localStatus, localStage) && !IsPausedStatus(targetStatus, targetStage))
    || (targetStage == "" && localStage != "")
  }

  /** A zero remaining time is believed only from a job that is over. */
  predicate BelievesRemaining(m: Metrics, lifecycle: Lifecycle) {
    m.remainingSeconds > 0 || lifecycle in {Finished, Idle, LifecycleError}
  }

  function ApplyLocalMetrics(target: Snapshot, local: Snapshot): Snapshot {
    var m, t := local.metrics, target.metrics;
    var s, u := local.status, target.status;
    target.(
      metrics := t.(
        progressPercent := m.progressPercent, downloadRelated := m.downloadRelated,
        remainingSeconds := if BelievesRemaining(m, s.lifecycle) then m.remainingSeconds else t.remainingSeconds,
        currentLayer := if m.currentLayer > 0 then m.currentLayer else t.currentLayer,
        totalLayers := if m.totalLayers > 0 then m.totalLayers else t.totalLayers,
        jobName := OrKeep(m.jobName, t.jobName)),
      status :=
        if LocalSubstateOverrides(u, s)
        then u.(rawStatus := OrKeep(s.rawStatus, u.rawStatus), rawStage := OrKeep(s.rawStage, u.rawStage),
                stage := OrKeep(s.stage, u.stage), detail := OrKeep(s.detail, u.detail))
        else u)
  }

  function ApplyCloudMetrics(target: Snapshot, c: CloudSnapshot): Snapshot {
    var m, t := c.metrics, target.metrics;
    target.(metrics := Metrics(
              m.progressPercent, m.downloadRelated,
              if BelievesRemaining(m, c.lifecycle) then m.remainingSeconds else t.remainingSeconds,
              if m.currentLayer > 0 then m.currentLayer else t.currentLayer,
              if m.totalLayers > 0 then m.totalLayers else t.totalLayers,
              OrKeep(t.jobName, c.preview.title),
              if m.filamentWeight > 0.0 then m.filamentWeight else t.filamentWeight,
              if m.filamentLength > 0.0 then m.filamentLength else t.filamentLength))
  }

  /** The filament estimate exists only in the cloud, so it is merged whoever wins the metrics. */
  function ApplyCloudEstimate(target: Snapshot, i: Input): Snapshot {
    var m, t := i.cloud.metrics, target.metrics;
    if !CloudEnabled(i) then target
    else target.(metrics := t.(
                   filamentWeight := if t.filamentWeight <= 0.0 && m.filamentWeight > 0.0
                                     then m.filamentWeight else t.filamentWeight,
                   filamentLength := if t.filamentLength <= 0.0 && m.filamentLength > 0.0
                                     then m.filamentLength else t.filamentLength,
                   jobName := OrKeep(t.jobName, i.cloud.preview.title)))
  }

  function LocalTemperature(t: Temperature): Temperature {
    Temperature(t.celsius, t.known || t.celsius > 0.0)
  }

  function FromCloudTemperature(t: CloudTemperature, connected: bool): Temperature {
    var known := CloudTemperatureKnown(t, connected);
    Temperature(if known then t.celsius else 0.0, known)
  }

  function ApplyTemperatures(target: Snapshot, i: Input): Snapshot {
    var l, c := i.local.temperatures, i.cloud;
    var current := target.temperatures.activeNozzle;
    if LocalUsed(i).temperatures then
      target.(temperatures := Temperatures(
                LocalTemperature(l.nozzle), LocalTemperature(l.bed), LocalTemperature(l.chamber),
                LocalTemperature(l.secondary), if l.activeNozzle >= 0 then l.activeNozzle else current))
    else if CloudUsable(i).temperatures then
      target.(temperatures := Temperatures(
                FromCloudTemperature(c.nozzle, c.meta.connected), FromCloudTemperature(c.bed, c.meta.connected),
                FromCloudTemperature(c.chamber, c.meta.connected),
                FromCloudTemperature(c.secondary, c.meta.connected),
                if c.activeNozzle >= 0 then c.activeNozzle else current))
    else target
  }

  function ApplyLight(target: Snapshot, i: Input): Snapshot {
    target.(light := Light(
              (LocalEnabled(i) && i.local.light.supported) || (CloudEnabled(i) && i.cloud.light.supported),
              LocalUsed(i).light || CloudUsable(i).light,
              if LocalUsed(i).light then i.local.light.on else CloudUsable(i).light && i.cloud.light.on))
  }

  function ApplyLocalErrors(target: Snapshot, local: Snapshot): Snapshot {
    var reports := ReportsError(local.errors, local.status.hasError);
    var explained := target.(
      errors := local.errors,
      status := if reports then target.status.(detail := OrKeep(local.status.detail, target.status.detail))
                else target.status);
    if target.sources.status == NoSource && reports then ApplyLocalStatus(explained, local) else explained
  }

  function ApplyCloudErrors(target: Snapshot, c: CloudSnapshot): Snapshot {
    var reports := ReportsError(c.errors, c.hasError);
    var explained := target.(
      errors := c.errors.(showStopBanner := false),
      status := if reports then target.status.(detail := OrKeep(c.meta.detail, target.status.detail))
                else target.status);
    if target.sources.status == NoSource && reports then ApplyCloudStatus(explained, c) else explained
  }

  // ----- the merge, bundle by bundle

  function StatusPhase(target: Snapshot, i: Input): Snapshot {
    var tagged := target.(sources := target.sources.(status := StatusSource(i)));
    match StatusSource(i)
    case Local => ApplyLocalStatus(tagged, i.local)
    case Cloud => ApplyCloudStatus(tagged, i.cloud)
    case NoSource => tagged
  }

  function MetricsPhase(target: Snapshot, i: Input): Snapshot {
    var tagged := target.(sources := target.sources.(metrics := MetricsSource(i)));
    match MetricsSource(i)
    case Local => ApplyLocalMetrics(tagged, i.local)
    case Cloud => ApplyCloudMetrics(tagged, i.cloud)
    case NoSource => tagged
  }

  function ErrorPhase(target: Snapshot, i: Input): Snapshot {
    match ErrorSource(i)
    case Local => ApplyLocalErrors(target, i.local)
    case Cloud => ApplyCloudErrors(target, i.cloud)
    case NoSource => target
  }

  function TraysPhase(target: Snapshot, i: Input): Snapshot {
    if LocalUsed(i).ams then target.(trays := i.local.trays)
    else if CloudUsable(i).ams then target.(trays := i.cloud.trays)
    else target
  }

  function MediaPhase(target: Snapshot, i: Input): Snapshot {
    var p := i.cloud.preview;
    var preview := CloudEnabled(i) && IsRecentEnough(i.cloud.meta.lastUpdateMs, i.nowMs, CLOUD_PREVIEW_FRESH_MS)
                   && (p.url != "" || p.blob != 0 || p.title != "");
    var camera := LocalEnabled(i) && i.local.local.capabilities.cameraJpegSocket;
    target.(preview := if preview then p else target.preview,
            sources := target.sources.(preview := if preview then Cloud else target.sources.preview,
                                       camera := if camera then Local else target.sources.camera))
  }

  function JobNameFallback(current: string, i: Input): string {
    var withLocal := if LocalUsed(i).metrics then OrKeep(current, i.local.metrics.jobName) else current;
    if CloudUsable(i).metrics then OrKeep(withLocal, i.cloud.preview.title) else withLocal
  }

  function DetailFallback(current: string, source: FieldSource, i: Input): string {
    var l, c := i.local.status.detail, i.cloud.meta.detail;
    if current != "" then current
    else if source == Cloud && c != "" then c
    else if source == Local && l != "" then l
    else if l != "" && LocalEnabled(i) then l
    else if c != "" && CloudEnabled(i) && (i.mode.CloudOnly? || !LocalEnabled(i) || source == Cloud) then c
    else current
  }

  function StageFallback(current: string, source: FieldSource, i: Input): string {
    if current != "" then current
    else if source == Local then i.local.status.stage
    else if source == Cloud then i.cloud.stage
    else current
  }

  function TextPhase(target: Snapshot, i: Input): Snapshot {
    var source := target.sources.status;
    target.(metrics := target.metrics.(jobName := JobNameFallback(target.metrics.jobName, i)),
            status := target.status.(detail := DetailFallback(target.status.detail, source, i),
                                     stage := StageFallback(target.status.stage, source, i)))
  }

  predicate SerialHasNoChamberTemperature(serial: string) {
    |serial| >= 3 && serial[0] == '0' && serial[1] == '1' && UpperChar(serial[2]) == 'P'
  }

  /** Readings the printer model cannot have are dropped. */
  function MaskPhase(target: Snapshot, i: Input): Snapshot {
    var model := EffectiveModel(target);
    var t := target.temperatures;
    var hideChamber := if model != UnknownModel then !HasChamberTemperature(model)
                       else SerialHasNoChamberTemperature(target.resolvedSerial);
    var hideSecondary := model != UnknownModel && !HasSecondaryNozzle(model);
    target.(temperatures := t.(chamber := if hideChamber then UNKNOWN_TEMPERATURE else t.chamber,
                               secondary := if hideSecondary then UNKNOWN_TEMPERATURE else t.secondary),
            light := if model == UnknownModel then target.light
                     else if HasChamberLight(model) then target.light.(supported := true)
                     else Light(false, false, false))
  }

  /** Everything up to the error bundle. */
  function BeforeErrors(i: Input): Snapshot {
    var based := ApplyBase(CopyMetadata(DEFAULT_SNAPSHOT, i), i);
    var measured := MetricsPhase(StatusPhase(based, i), i);
    ApplyLight(ApplyTemperatures(ApplyCloudEstimate(measured, i), i), i)
  }

  function Merge(i: Input): Snapshot {
    MaskPhase(TextPhase(MediaPhase(TraysPhase(ErrorPhase(BeforeErrors(i), i), i), i), i), i)
  }
}
