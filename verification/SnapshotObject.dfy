/** The snapshot object that status_resolver.cpp fills and rewrites in place. */
module SnapshotObject {
  import opened Text
  import opened BambuStatus
  import opened PrinterState
  import opened UiState
  import opened StatusMerge

  class LiveSnapshot {
    var status: Status
    var ui: Ui
    var metrics: Metrics
    var temperatures: Temperatures
    var light: Light
    var errors: Errors
    var trays: Trays
    var preview: Preview
    var local: LocalMeta
    var cloud: CloudMeta
    var resolvedSerial: string
    var network: Network
    var sources: Sources

    function View(): Snapshot
      reads this
    {
      Snapshot(status, ui, metrics, temperatures, light, errors, trays, preview, local, cloud, resolvedSerial,
               network, sources)
    }

    constructor ()
      ensures View() == DEFAULT_SNAPSHOT
    {
      status, ui, metrics := DEFAULT_SNAPSHOT.status, DEFAULT_SNAPSHOT.ui, DEFAULT_SNAPSHOT.metrics;
      temperatures, light, errors := DEFAULT_SNAPSHOT.temperatures, DEFAULT_SNAPSHOT.light, DEFAULT_SNAPSHOT.errors;
      trays, preview, local := DEFAULT_SNAPSHOT.trays, DEFAULT_SNAPSHOT.preview, DEFAULT_SNAPSHOT.local;
      cloud, resolvedSerial := DEFAULT_SNAPSHOT.cloud, DEFAULT_SNAPSHOT.resolvedSerial;
      network, sources := DEFAULT_SNAPSHOT.network, DEFAULT_SNAPSHOT.sources;
    }

    // ----- resolve_ui_state

    /** Gathers the signals in the order of build_ui_state_signals; a download that has handed off stops
        counting as one before the download signal is read. */
    method BuildUiStateSignals() returns (g: Signals)
      modifies this`metrics
      ensures g == BuildSignals(old(View()))
      ensures metrics == old(metrics).(downloadRelated := StillDownloading(old(View())))
    {
      hide EffectiveStatus, EffectiveStage, Percent, Contains, IsDownloadStage, IsPostDownloadHandoff, IsFilamentStage,
           IsPreheatStage, IsCleanStage, IsLevelStage, IsCoolingStage, IsSetupStage, IsFailed, IsFinished,
           IsPausedStatus, IsPrepareStatus, IsPrinting, IsPreparing;
      var text, stage := EffectiveStatus(status), EffectiveStage(status);
      var progress := Percent(metrics.progressPercent);
      var downloadByName := IsDownloadStage(stage, text);
      if metrics.downloadRelated && progress == 100 && IsPostDownloadHandoff(stage, text) {
        metrics := metrics.(downloadRelated := false);
      }
      var downloadStage := metrics.downloadRelated || downloadByName;
      var filamentStage, preheatStage, cleanStage := IsFilamentStage(stage), IsPreheatStage(stage), IsCleanStage(stage);
      var levelStage, coolingStage, setupStage := IsLevelStage(stage), IsCoolingStage(stage, text), IsSetupStage(stage);
      var errHms := errors.hmsCodes != [] || errors.hmsAlertCount > 0;
      var paused, preparing := IsPausedStatus(text, stage), IsPrepareStatus(text, stage);
      var idleStatus := text == "idle" || text == "offline" || Contains(text, "wait");
      var idleish := Contains(stage, "idle") || Contains(stage, "offline");
      var doneStrict := status.lifecycle == Finished
        || (IsFinished(text) && (progress == 100 || metrics.remainingSeconds == 0 || Contains(stage, "idle")));
      var runningLike := IsPrinting(text) || IsPreparing(text) || Contains(text, "print") || Contains(text, "download")
        || 0 < progress < 100;
      var activeHint := runningLike || paused || preparing || filamentStage || downloadStage || preheatStage
        || cleanStage || levelStage || coolingStage || setupStage || Contains(stage, "printing")
        || (metrics.currentLayer > 0 && progress < 100) || (metrics.remainingSeconds > 0 && !IsFinished(text));
      g := Signals(
        TextSignals(text, stage, progress, downloadStage, filamentStage, preheatStage, cleanStage, levelStage,
                    coolingStage, setupStage, IsFailed(text), errors.printErrorCode != 0, errHms, paused, preparing,
                    idleStatus, idleish),
        status.hasError, doneStrict, activeHint);
    }

    method StopWithoutError()
      modifies this
      ensures View() == ApplyNonErrorStop(old(View()))
    {
      status := status.(lifecycle := Idle, hasError := false);
      ui := ui.(printActive := false, warnHms := false);
      metrics := metrics.(remainingSeconds := 0);
      if errors.showStopBanner {
        status := status.(rawStage := "Stopped", stage := "Stopped", detail := "");
        ui := ui.(uiStatus := "stopped");
      } else {
        status := status.(rawStatus := "IDLE", rawStage := "Idle", stage := "Idle", detail := "");
        ui := ui.(uiStatus := "ready");
      }
    }

    method ApplyActiveAndErrorFlags(g: Signals)
      modifies this`status, this`ui
      ensures status == old(status).(hasError := SelectHasError(g))
      ensures ui == old(ui).(printActive := SelectPrintActive(g), warnHms := SelectWarnHms(g))
    {
      if g.text.failed || g.doneStrict {
        ui := ui.(printActive := false);
      } else if g.activeHint {
        ui := ui.(printActive := true);
      } else {
        ui := ui.(printActive := false);
      }
      status := status.(hasError := g.inputError || g.text.failed || (g.text.errPrint && !g.text.filamentStage));
      ui := ui.(warnHms := g.text.errHms && ui.printActive && !status.hasError);
    }

    method ResolveDetail(text: ErrorText)
      modifies this`status, this`metrics
      ensures View() == ApplyResolvedDetail(old(View()), text)
    {
      hide EffectiveModel, IsGenericFinishedDetail;
      var finishedNoError := (status.lifecycle == Finished || ui.uiStatus == "done") && errors.printErrorCode == 0;
      if !finishedNoError {
        var error := text(errors.printErrorCode, errors.hmsCodes, errors.hmsAlertCount, EffectiveModel(View()));
        if error != "" {
          status := status.(detail := error);
          return;
        }
      }
      if status.lifecycle == Finished || ui.uiStatus == "done" {
        metrics := metrics.(remainingSeconds := 0);
        if IsGenericFinishedDetail(status.detail, status.stage) {
          status := status.(detail := "");
        }
      }
    }

    method Resolve(text: ErrorText)
      modifies this
      ensures View() == ResolveUiState(old(View()), text)
    {
      hide BuildSignals, StillDownloading, SelectLifecycle, SelectHasError, SelectPrintActive, SelectWarnHms,
           ApplyResolvedDetail, ApplyNonErrorStop, SelectFallback, Contains;
      if IsNonErrorStop(View()) {
        StopWithoutError();
        return;
      }
      var g := BuildUiStateSignals();
      ApplyActiveAndErrorFlags(g);
      status := status.(lifecycle := SelectLifecycle(status.lifecycle, g));
      ui := ui.(uiStatus := SelectUiStatus(View(), g));
      ResolveDetail(text);
    }

    // ----- merge_status_sources

    method CopySourceMetadata(i: Input)
      modifies this
      ensures View() == CopyMetadata(old(View()), i)
      ensures sources == Sources(NoSource, NoSource, NoSource, NoSource)
    {
      hide CapabilitiesOrDefault;
      network := i.network;
      local := i.local.local.(configured := i.localPrinterEnabled || i.local.local.configured);
      cloud := i.cloud.meta.(capabilities := CapabilitiesOrDefault(i.cloud.meta.capabilities));
      resolvedSerial := if i.cloud.resolvedSerial != "" then i.cloud.resolvedSerial else i.local.resolvedSerial;
      sources := Sources(NoSource, NoSource, NoSource, NoSource);
    }

    method SetBase(connection: Connection, lifecycle: Lifecycle, stage: string, detail: string)
      modifies this`status
      ensures status == old(status).(connection := connection, lifecycle := lifecycle, stage := stage, detail := detail)
    {
      status := status.(connection := connection, lifecycle := lifecycle, stage := stage, detail := detail);
    }

    method BaseOnCloud(c: CloudSnapshot)
      modifies this`status
      ensures View() == BaseFromCloud(old(View()), c)
    {
      var stage := if c.meta.connected then "cloud-online" else "cloud";
      var detail := if c.meta.detail == "" then "Cloud path ready" else c.meta.detail;
      SetBase(if c.meta.connected then Online else Connecting, c.lifecycle, stage, detail);
    }

    method BaseOnLocal(l: Snapshot)
      modifies this`status
      ensures View() == BaseFromLocal(old(View()), l)
    {
      SetBase(l.status.connection, l.status.lifecycle, l.status.stage, l.status.detail);
    }

    method BaseOnNothing(stage: string, detail: string)
      modifies this`status
      ensures View() == BaseWaiting(old(View()), stage, detail)
    {
      SetBase(WaitingForCredentials, Unknown, stage, detail);
    }

    /** apply_base_state_for_mode */
    method ApplyBaseState(i: Input)
      modifies this`status
      ensures View() == ApplyBase(old(View()), i)
    {
      hide PrefersCloud, LocalEnabled, CloudEnabled, BaseFromCloud, BaseFromLocal, BaseWaiting, View;
      var cloudEnabled, localEnabled := CloudEnabled(i), LocalEnabled(i);
      match i.mode {
        case CloudOnly =>
          if cloudEnabled {
            BaseOnCloud(i.cloud);
          } else {
            BaseOnNothing("cloud", "Cloud login not configured");
          }
        case LocalOnly =>
          if localEnabled {
            BaseOnLocal(i.local);
          } else {
            BaseOnNothing("setup", "Need printer host, serial and access code");
          }
        case Hybrid =>
          if cloudEnabled && PrefersCloud(i) {
            BaseOnCloud(i.cloud);
          } else if localEnabled {
            BaseOnLocal(i.local);
          } else if cloudEnabled {
            BaseOnCloud(i.cloud);
          } else {
            BaseOnNothing("setup", "Configure cloud or local printer access");
          }
      }
    }

    method ApplyLocalStatusBundle(l: Snapshot)
      modifies this`status
      ensures View() == ApplyLocalStatus(old(View()), l)
    {
      status := status.(connection := l.status.connection, lifecycle := l.status.lifecycle,
                        rawStatus := l.status.rawStatus, rawStage := l.status.rawStage);
      if l.status.stage != "" {
        status := status.(stage := l.status.stage);
      }
      status := status.(hasError := l.status.hasError);
      if l.status.detail != "" {
        status := status.(detail := l.status.detail);
      }
    }

    method ApplyCloudStatusBundle(c: CloudSnapshot)
      modifies this`status
      ensures View() == ApplyCloudStatus(old(View()), c)
    {
      status := status.(connection := CloudConnection(c), lifecycle := c.lifecycle,
                        rawStatus := c.rawStatus, rawStage := c.rawStage);
      if c.stage != "" {
        status := status.(stage := c.stage);
      }
      status := status.(hasError := c.hasError);
      if c.meta.detail != "" {
        status := status.(detail := c.meta.detail);
      }
    }

    method ApplyLocalMetricsBundle(l: Snapshot)
      modifies this`status, this`metrics
      ensures View() == ApplyLocalMetrics(old(View()), l)
    {
      hide LocalSubstateOverrides;
      var m, t := l.metrics, metrics;
      t := t.(progressPercent := m.progressPercent, downloadRelated := m.downloadRelated);
      if m.remainingSeconds > 0 || l.status.lifecycle in {Finished, Idle, LifecycleError} {
        t := t.(remainingSeconds := m.remainingSeconds);
      }
      t := t.(currentLayer := if m.currentLayer > 0 then m.currentLayer else t.currentLayer,
              totalLayers := if m.totalLayers > 0 then m.totalLayers else t.totalLayers);
      if m.jobName != "" {
        t := t.(jobName := m.jobName);
      }
      metrics := t;
      if LocalSubstateOverrides(status, l.status) {
        status := status.(rawStatus := OrKeep(l.status.rawStatus, status.rawStatus),
                          rawStage := OrKeep(l.status.rawStage, status.rawStage),
                          stage := OrKeep(l.status.stage, status.stage),
                          detail := OrKeep(l.status.detail, status.detail));
      }
    }

    method ApplyCloudMetricsBundle(c: CloudSnapshot)
      modifies this`metrics
      ensures View() == ApplyCloudMetrics(old(View()), c)
    {
      var m, t := c.metrics, metrics;
      t := t.(progressPercent := m.progressPercent, downloadRelated := m.downloadRelated);
      if m.remainingSeconds > 0 || c.lifecycle in {Finished, Idle, LifecycleError} {
        t := t.(remainingSeconds := m.remainingSeconds);
      }
      t := t.(currentLayer := if m.currentLayer > 0 then m.currentLayer else t.currentLayer,
              totalLayers := if m.totalLayers > 0 then m.totalLayers else t.totalLayers,
              filamentWeight := if m.filamentWeight > 0.0 then m.filamentWeight else t.filamentWeight,
              filamentLength := if m.filamentLength > 0.0 then m.filamentLength else t.filamentLength);
      if t.jobName == "" && c.preview.title != "" {
        t := t.(jobName := c.preview.title);
      }
      metrics := t;
    }

    method ApplyCloudFilamentEstimate(i: Input)
      modifies this`metrics
      ensures View() == ApplyCloudEstimate(old(View()), i)
    {
      if CloudEnabled(i) {
        if metrics.filamentWeight <= 0.0 && i.cloud.metrics.filamentWeight > 0.0 {
          metrics := metrics.(filamentWeight := i.cloud.metrics.filamentWeight);
        }
        if metrics.filamentLength <= 0.0 && i.cloud.metrics.filamentLength > 0.0 {
          metrics := metrics.(filamentLength := i.cloud.metrics.filamentLength);
        }
        if metrics.jobName == "" && i.cloud.preview.title != "" {
          metrics := metrics.(jobName := i.cloud.preview.title);
        }
      }
    }

    method ApplyLocalErrorBundle(l: Snapshot)
      modifies this`errors, this`status
      ensures View() == ApplyLocalErrors(old(View()), l)
    {
      hide HasErrorCodes;
      errors := l.errors;
      if ReportsError(l.errors, l.status.hasError) && l.status.detail != "" {
        status := status.(detail := l.status.detail);
      }
      if sources.status == NoSource && ReportsError(l.errors, l.status.hasError) {
        ApplyLocalStatusBundle(l);
      }
    }

    method ApplyCloudErrorBundle(c: CloudSnapshot)
      modifies this`errors, this`status
      ensures View() == ApplyCloudErrors(old(View()), c)
    {
      hide HasErrorCodes;
      errors := c.errors.(showStopBanner := false);
      if ReportsError(c.errors, c.hasError) && c.meta.detail != "" {
        status := status.(detail := c.meta.detail);
      }
      if sources.status == NoSource && ReportsError(c.errors, c.hasError) {
        ApplyCloudStatusBundle(c);
      }
    }

    /** The status bundle of the source that wins it; without one the base state stands. */
    method ChooseStatus(i: Input)
      requires sources.status == NoSource
      modifies this`status, this`sources
      ensures View() == StatusPhase(old(View()), i) && sources.metrics == old(sources).metrics
    {
      hide LocalUsed, CloudUsable;
      if LocalUsed(i).status {
        sources := sources.(status := Local);
        ApplyLocalStatusBundle(i.local);
      } else if CloudUsable(i).status {
        sources := sources.(status := Cloud);
        ApplyCloudStatusBundle(i.cloud);
      }
    }

    /** The metrics bundle of the source that wins it. */
    method ChooseMetrics(i: Input)
      requires sources.metrics == NoSource
      modifies this`status, this`metrics, this`sources
      ensures View() == MetricsPhase(old(View()), i)
    {
      hide LocalUsed, CloudUsable, LocalSubstateOverrides, BelievesRemaining;
      if LocalUsed(i).metrics {
        sources := sources.(metrics := Local);
        ApplyLocalMetricsBundle(i.local);
      } else if CloudUsable(i).metrics {
        sources := sources.(metrics := Cloud);
        ApplyCloudMetricsBundle(i.cloud);
      }
    }

    /** apply_local_temperature_bundle */
    method ApplyLocalTemperatureBundle(l: Temperatures)
      modifies this`temperatures
      ensures temperatures == Temperatures(
                LocalTemperature(l.nozzle), LocalTemperature(l.bed), LocalTemperature(l.chamber),
                LocalTemperature(l.secondary),
                if l.activeNozzle >= 0 then l.activeNozzle else old(temperatures).activeNozzle)
    {
      temperatures := temperatures.(nozzle := Temperature(l.nozzle.celsius, l.nozzle.known || l.nozzle.celsius > 0.0));
      temperatures := temperatures.(bed := Temperature(l.bed.celsius, l.bed.known || l.bed.celsius > 0.0));
      temperatures := temperatures.(
        chamber := Temperature(l.chamber.celsius, l.chamber.known || l.chamber.celsius > 0.0));
      temperatures := temperatures.(
        secondary := Temperature(l.secondary.celsius, l.secondary.known || l.secondary.celsius > 0.0));
      if l.activeNozzle >= 0 {
        temperatures := temperatures.(activeNozzle := l.activeNozzle);
      }
    }

    /** One reading of apply_cloud_temperature_bundle: what was never updated reads as zero. */
    static method ReadCloudTemperature(t: CloudTemperature, connected: bool) returns (r: Temperature)
      ensures r.known == (connected && t.lastUpdateMs != 0)
      ensures r.celsius == if connected && t.lastUpdateMs != 0 then t.celsius else 0.0
    {
      var known := connected && t.lastUpdateMs != 0;
      r := Temperature(0.0, known);
      if known {
        r := r.(celsius := t.celsius);
      }
    }

    /** apply_cloud_temperature_bundle */
    method ApplyCloudTemperatureBundle(c: CloudSnapshot)
      modifies this`temperatures
      ensures temperatures == Temperatures(
                FromCloudTemperature(c.nozzle, c.meta.connected), FromCloudTemperature(c.bed, c.meta.connected),
                FromCloudTemperature(c.chamber, c.meta.connected),
                FromCloudTemperature(c.secondary, c.meta.connected),
                if c.activeNozzle >= 0 then c.activeNozzle else old(temperatures).activeNozzle)
    {
      var nozzle := ReadCloudTemperature(c.nozzle, c.meta.connected);
      var bed := ReadCloudTemperature(c.bed, c.meta.connected);
      var chamber := ReadCloudTemperature(c.chamber, c.meta.connected);
      var secondary := ReadCloudTemperature(c.secondary, c.meta.connected);
      temperatures := temperatures.(nozzle := nozzle, bed := bed, chamber := chamber, secondary := secondary);
      if c.activeNozzle >= 0 {
        temperatures := temperatures.(activeNozzle := c.activeNozzle);
      }
    }

    method ApplyTemperatureAndLight(i: Input)
      modifies this`temperatures, this`light
      ensures View() == ApplyLight(ApplyTemperatures(old(View()), i), i)
    {
      hide LocalUsed, CloudUsable, LocalEnabled, CloudEnabled, LocalTemperature, FromCloudTemperature;
      if LocalUsed(i).temperatures {
        ApplyLocalTemperatureBundle(i.local.temperatures);
      } else if CloudUsable(i).temperatures {
        ApplyCloudTemperatureBundle(i.cloud);
      }
      light := Light((LocalEnabled(i) && i.local.light.supported) || (CloudEnabled(i) && i.cloud.light.supported),
                     false, false);
      if LocalUsed(i).light {
        light := light.(known := true, on := i.local.light.on);
      } else if CloudUsable(i).light {
        light := light.(known := true, on := i.cloud.light.on);
      }
    }

    // ----- media, text fallbacks and masks

    method ApplyMedia(i: Input)
      modifies this`preview, this`sources
      ensures View() == MediaPhase(old(View()), i)
    {
      hide LocalEnabled, CloudEnabled, IsRecentEnough;
      var p := i.cloud.preview;
      if CloudEnabled(i) && IsRecentEnough(i.cloud.meta.lastUpdateMs, i.nowMs, CLOUD_PREVIEW_FRESH_MS)
         && (p.url != "" || p.blob != 0 || p.title != "") {
        sources := sources.(preview := Cloud);
        preview := p;
      }
      if LocalEnabled(i) && i.local.local.capabilities.cameraJpegSocket {
        sources := sources.(camera := Local);
      }
    }

    method FillJobName(i: Input)
      modifies this`metrics
      ensures metrics == old(metrics).(jobName := JobNameFallback(old(metrics).jobName, i))
    {
      hide LocalUsed, CloudUsable;
      if metrics.jobName == "" && i.local.metrics.jobName != "" && LocalUsed(i).metrics {
        metrics := metrics.(jobName := i.local.metrics.jobName);
      }
      if metrics.jobName == "" && i.cloud.preview.title != "" && CloudUsable(i).metrics {
        metrics := metrics.(jobName := i.cloud.preview.title);
      }
    }

    method FillDetail(i: Input)
      modifies this`status
      ensures status == old(status).(detail := DetailFallback(old(status).detail, sources.status, i))
    {
      hide LocalEnabled, CloudEnabled;
      var l, c := i.local.status.detail, i.cloud.meta.detail;
      if status.detail == "" {
        if sources.status == Cloud && c != "" {
          status := status.(detail := c);
        } else if sources.status == Local && l != "" {
          status := status.(detail := l);
        } else if l != "" && LocalEnabled(i) {
          status := status.(detail := l);
        } else if c != "" && CloudEnabled(i)
                  && (i.mode.CloudOnly? || !LocalEnabled(i) || sources.status == Cloud) {
          status := status.(detail := c);
        }
      }
    }

    method FillStage(i: Input)
      modifies this`status
      ensures status == old(status).(stage := StageFallback(old(status).stage, sources.status, i))
    {
      if status.stage == "" {
        if sources.status == Local {
          status := status.(stage := i.local.status.stage);
        } else if sources.status == Cloud {
          status := status.(stage := i.cloud.stage);
        }
      }
    }

    method FillGaps(i: Input)
      modifies this`preview, this`sources, this`metrics, this`status
      ensures View() == TextPhase(MediaPhase(old(View()), i), i)
    {
      hide JobNameFallback, DetailFallback, StageFallback, MediaPhase;
      ghost var before := View();
      ApplyMedia(i);
      MediaTouches(before, i);
      FillJobName(i);
      FillDetail(i);
      FillStage(i);
    }

    /** Drops what the printer model cannot have. */
    method MaskReadings(i: Input)
      modifies this`temperatures, this`light
      ensures View() == MaskPhase(old(View()), i)
    {
      hide EffectiveModel, HasChamberTemperature, HasSecondaryNozzle, HasChamberLight, SerialHasNoChamberTemperature;
      var model := EffectiveModel(View());
      if model != UnknownModel {
        if !HasChamberTemperature(model) {
          temperatures := temperatures.(chamber := Temperature(0.0, false));
        }
        if !HasSecondaryNozzle(model) {
          temperatures := temperatures.(secondary := Temperature(0.0, false));
        }
        if !HasChamberLight(model) {
          light := Light(false, false, false);
        } else {
          light := light.(supported := true);
        }
      } else if SerialHasNoChamberTemperature(resolvedSerial) {
        temperatures := temperatures.(chamber := Temperature(0.0, false));
      }
    }
  }

  /** merge_status_sources: builds the merged snapshot bundle by bundle. */
  method MergeStatusSources(i: Input) returns (snapshot: LiveSnapshot)
    ensures fresh(snapshot) && snapshot.View() == Merge(i)
  {
    hide LocalUsed, CloudUsable, CopyMetadata, ApplyBase, ApplyLocalStatus, ApplyCloudStatus, ApplyLocalMetrics,
         ApplyCloudMetrics, ApplyCloudEstimate, ApplyTemperatures, ApplyLight, TextPhase, MediaPhase, MaskPhase,
         StatusPhase, MetricsPhase;
    snapshot := new LiveSnapshot();
    snapshot.CopySourceMetadata(i);
    snapshot.ApplyBaseState(i);
    snapshot.ChooseStatus(i);
    snapshot.ChooseMetrics(i);
    snapshot.ApplyCloudFilamentEstimate(i);
    snapshot.ApplyTemperatureAndLight(i);
    FinishMerge(snapshot, i);
  }

  /** Error bundle and trays, then media and the text fallbacks. */
  method FinishMerge(snapshot: LiveSnapshot, i: Input)
    requires snapshot.View() == BeforeErrors(i)
    modifies snapshot
    ensures snapshot.View() == Merge(i)
  {
    hide LocalUsed, CloudUsable, BeforeErrors, ApplyLocalErrors, ApplyCloudErrors, TextPhase, MaskPhase, MediaPhase;
    if LocalUsed(i).error {
      snapshot.ApplyLocalErrorBundle(i.local);
    } else if CloudUsable(i).error {
      snapshot.ApplyCloudErrorBundle(i.cloud);
    }
    if LocalUsed(i).ams {
      snapshot.trays := i.local.trays;
    } else if CloudUsable(i).ams {
      snapshot.trays := i.cloud.trays;
    }
    snapshot.FillGaps(i);
    snapshot.MaskReadings(i);
  }

  lemma MediaTouches(t: Snapshot, i: Input)
    ensures MediaPhase(t, i) == t.(preview := MediaPhase(t, i).preview, sources := MediaPhase(t, i).sources)
  {
  }
}
