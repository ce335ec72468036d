/** What the merge of the two status sources guarantees. */
module StatusMergeLaws {
  import opened Text
  import opened BambuStatus
  import opened PrinterState
  import opened UiState
  import opened UiStateLaws
  import opened StatusMerge

  // ----- which source wins

  /** A usable error makes the status usable, and a usable status the metrics. */
  lemma StrongerBundlesAreUsable(i: Input)
    ensures LocalUsable(i).error ==> LocalUsable(i).status
    ensures CloudUsable(i).error ==> CloudUsable(i).status
    ensures LocalUsable(i).status ==> LocalUsable(i).metrics
    ensures CloudUsable(i).status ==> CloudUsable(i).metrics
  {
    hide IsGenericLocalStage;
  }

  lemma ChosenSources(i: Input)
    ensures ErrorSource(i) != NoSource ==> StatusSource(i) != NoSource
    ensures StatusSource(i) != NoSource ==> MetricsSource(i) != NoSource
    ensures PrefersCloud(i) && StatusSource(i) == Cloud ==> MetricsSource(i) == Cloud
    ensures !PrefersCloud(i) && StatusSource(i) == Local ==> MetricsSource(i) == Local
  {
    hide LocalUsable, CloudUsable, PrefersCloud;
    StrongerBundlesAreUsable(i);
  }

  // ----- what each phase does to the recorded sources

  lemma BasePhasesKeepSources(t: Snapshot, i: Input)
    ensures ApplyBase(t, i).sources == t.sources
    ensures ApplyLight(ApplyTemperatures(ApplyCloudEstimate(t, i), i), i).sources == t.sources
  {
    hide LocalUsed, CloudUsable, PrefersCloud;
  }

  lemma BundlePhasesRecordSources(t: Snapshot, i: Input)
    ensures StatusPhase(t, i).sources == t.sources.(status := StatusSource(i))
    ensures MetricsPhase(t, i).sources == t.sources.(metrics := MetricsSource(i))
    ensures ErrorPhase(t, i).sources == t.sources
  {
    hide StatusSource, MetricsSource, ErrorSource, LocalSubstateOverrides, BelievesRemaining, OrKeep, ReportsError;
  }

  lemma LastPhasesKeepSources(t: Snapshot, i: Input)
    ensures TraysPhase(t, i).sources == t.sources
    ensures MediaPhase(t, i).sources.status == t.sources.status
    ensures MediaPhase(t, i).sources.metrics == t.sources.metrics
    ensures TextPhase(t, i).sources == t.sources
    ensures MaskPhase(t, i).sources == t.sources
  {
    hide LocalUsed, CloudUsable, JobNameFallback, DetailFallback, StageFallback, EffectiveModel;
  }

  lemma SourcesBeforeErrors(i: Input)
    ensures BeforeErrors(i).sources == Sources(StatusSource(i), MetricsSource(i), NoSource, NoSource)
  {
    hide ApplyBase, StatusPhase, MetricsPhase, ApplyLight, ApplyTemperatures, ApplyCloudEstimate, StatusSource,
         MetricsSource;
    var base := CopyMetadata(DEFAULT_SNAPSHOT, i);
    BasePhasesKeepSources(base, i);
    BundlePhasesRecordSources(ApplyBase(base, i), i);
    var measured := StatusPhase(ApplyBase(base, i), i);
    BundlePhasesRecordSources(measured, i);
    BasePhasesKeepSources(MetricsPhase(measured, i), i);
  }

  lemma SourcesOfMerge(i: Input)
    ensures Merge(i).sources.status == StatusSource(i)
    ensures Merge(i).sources.metrics == MetricsSource(i)
  {
    hide BeforeErrors, ErrorPhase, TraysPhase, MediaPhase, TextPhase, MaskPhase, StatusSource, MetricsSource;
    SourcesBeforeErrors(i);
    BundlePhasesRecordSources(BeforeErrors(i), i);
    var t := ErrorPhase(BeforeErrors(i), i);
    LastPhasesKeepSources(t, i);
    LastPhasesKeepSources(TraysPhase(t, i), i);
    LastPhasesKeepSources(MediaPhase(TraysPhase(t, i), i), i);
    LastPhasesKeepSources(TextPhase(MediaPhase(TraysPhase(t, i), i), i), i);
  }

  /** Status and metrics come from one source wherever the preferred source has a status. */
  lemma SourcesCohere(i: Input)
    ensures var s := Merge(i).sources;
      && (PrefersCloud(i) && s.status == Cloud ==> s.metrics == Cloud)
      && (!PrefersCloud(i) && s.status == Local ==> s.metrics == Local)
      && (s.status != NoSource ==> s.metrics != NoSource)
  {
    hide Merge, StatusSource, MetricsSource, ErrorSource, PrefersCloud;
    ChosenSources(i);
    SourcesOfMerge(i);
  }

  /** The error bundle without its status fallback. */
  function ErrorBundleOnly(target: Snapshot, i: Input): Snapshot {
    var source := ErrorSource(i);
    var errors := if source == Local then i.local.errors else i.cloud.errors.(showStopBanner := false);
    var detail := if source == Local then i.local.status.detail else i.cloud.meta.detail;
    if source == NoSource then target
    else target.(errors := errors, status := target.status.(detail := OrKeep(detail, target.status.detail)))
  }

  /** An error bundle is applied only where a status source is already set, so its own status
      fallback never runs. */
  lemma ErrorFallbackIsDead(i: Input)
    ensures ErrorSource(i) != NoSource ==> BeforeErrors(i).sources.status != NoSource
    ensures ErrorPhase(BeforeErrors(i), i) == ErrorBundleOnly(BeforeErrors(i), i)
  {
    hide BeforeErrors, StatusSource, MetricsSource, ErrorSource, OrKeep, ReportsError;
    ErrorSourceReports(i);
    ChosenSources(i);
    SourcesBeforeErrors(i);
  }

  lemma ErrorSourceReports(i: Input)
    ensures ErrorSource(i) == Local ==> ReportsError(i.local.errors, i.local.status.hasError)
    ensures ErrorSource(i) == Cloud ==> ReportsError(i.cloud.errors, i.cloud.hasError)
  {
    hide LocalStateHasSignal, LocalMetricsHaveSignal, CloudStateHasSignal, CloudMetricsHaveSignal, ReportsError;
  }

  // ----- a single-source mode does not see the other source

  /** Equal in everything but the metadata of the two sources. */
  predicate AgreeOnState(t: Snapshot, u: Snapshot) {
    && t.status == u.status && t.ui == u.ui && t.metrics == u.metrics && t.temperatures == u.temperatures
    && t.light == u.light && t.errors == u.errors && t.trays == u.trays && t.preview == u.preview
    && t.network == u.network && t.sources == u.sources
  }

  /** Two merges that differ only in the source their mode ignores. */
  predicate DifferInIgnoredSource(i: Input, j: Input) {
    && i.mode == j.mode && i.nowMs == j.nowMs && i.network == j.network
    && ((i.mode.LocalOnly? && i.local == j.local && i.localPrinterEnabled == j.localPrinterEnabled)
        || (i.mode.CloudOnly? && i.cloud == j.cloud))
  }

  /** The ignored source supplies nothing. */
  lemma IgnoredSourceIsUnusable(i: Input, j: Input)
    requires DifferInIgnoredSource(i, j)
    ensures LocalUsed(i) == LocalUsed(j) && CloudUsable(i) == CloudUsable(j)
    ensures LocalEnabled(i) == LocalEnabled(j) && CloudEnabled(i) == CloudEnabled(j)
    ensures !PrefersCloud(i) && !PrefersCloud(j)
    ensures i.mode.LocalOnly? ==> CloudUsable(i) == Usable(false, false, false, false, false, false) && !CloudEnabled(i)
    ensures i.mode.CloudOnly? ==> LocalUsed(i) == Usable(false, false, false, false, false, false) && !LocalEnabled(i)
  {
    hide LocalStateHasSignal, LocalMetricsHaveSignal, CloudStateHasSignal, CloudMetricsHaveSignal, ReportsError,
         IsRecentEnough, CloudTemperatureKnown, HasAms;
  }

  lemma PhasesAgree(t: Snapshot, u: Snapshot, i: Input, j: Input)
    requires DifferInIgnoredSource(i, j) && AgreeOnState(t, u)
    ensures AgreeOnState(ApplyBase(t, i), ApplyBase(u, j))
    ensures AgreeOnState(StatusPhase(t, i), StatusPhase(u, j))
    ensures AgreeOnState(MetricsPhase(t, i), MetricsPhase(u, j))
    ensures AgreeOnState(ApplyCloudEstimate(t, i), ApplyCloudEstimate(u, j))
  {
    hide LocalUsable, LocalUsed, CloudUsable, LocalEnabled, CloudEnabled, PrefersCloud, LocalSubstateOverrides, OrKeep,
         BelievesRemaining;
    IgnoredSourceIsUnusable(i, j);
  }

  lemma LaterPhasesAgree(t: Snapshot, u: Snapshot, i: Input, j: Input)
    requires DifferInIgnoredSource(i, j) && AgreeOnState(t, u)
    ensures AgreeOnState(ApplyTemperatures(t, i), ApplyTemperatures(u, j))
    ensures AgreeOnState(ApplyLight(t, i), ApplyLight(u, j))
  {
    hide LocalUsable, LocalUsed, CloudUsable, LocalEnabled, CloudEnabled, PrefersCloud, LocalTemperature,
         FromCloudTemperature;
    IgnoredSourceIsUnusable(i, j);
  }

  lemma ErrorPhasesAgree(t: Snapshot, u: Snapshot, i: Input, j: Input)
    requires DifferInIgnoredSource(i, j) && AgreeOnState(t, u)
    ensures AgreeOnState(ErrorPhase(t, i), ErrorPhase(u, j))
  {
    hide LocalUsable, LocalUsed, CloudUsable, LocalEnabled, CloudEnabled, PrefersCloud, OrKeep, ReportsError;
    IgnoredSourceIsUnusable(i, j);
  }

  lemma LastPhasesAgree(t: Snapshot, u: Snapshot, i: Input, j: Input)
    requires DifferInIgnoredSource(i, j) && AgreeOnState(t, u)
    ensures AgreeOnState(TraysPhase(t, i), TraysPhase(u, j))
    ensures AgreeOnState(MediaPhase(t, i), MediaPhase(u, j))
    ensures t.sources.status == StatusSource(i) ==> AgreeOnState(TextPhase(t, i), TextPhase(u, j))
  {
    hide LocalUsable, LocalUsed, CloudUsable, LocalEnabled, CloudEnabled, PrefersCloud, OrKeep, IsRecentEnough;
    IgnoredSourceIsUnusable(i, j);
  }

  lemma MaskKeepsState(t: Snapshot, i: Input)
    ensures MaskPhase(t, i) == t.(temperatures := MaskPhase(t, i).temperatures, light := MaskPhase(t, i).light)
  {
    hide EffectiveModel;
  }

  lemma BeforeErrorsAgree(i: Input, j: Input)
    requires DifferInIgnoredSource(i, j)
    ensures AgreeOnState(BeforeErrors(i), BeforeErrors(j))
  {
    var t0, u0 := CopyMetadata(DEFAULT_SNAPSHOT, i), CopyMetadata(DEFAULT_SNAPSHOT, j);
    assert AgreeOnState(t0, u0);
    hide CopyMetadata, AgreeOnState, DifferInIgnoredSource, ApplyBase, StatusPhase, MetricsPhase, ApplyCloudEstimate,
         ApplyTemperatures, ApplyLight;
    PhasesAgree(t0, u0, i, j);
    var t1, u1 := ApplyBase(t0, i), ApplyBase(u0, j);
    PhasesAgree(t1, u1, i, j);
    var t2, u2 := StatusPhase(t1, i), StatusPhase(u1, j);
    PhasesAgree(t2, u2, i, j);
    var t3, u3 := MetricsPhase(t2, i), MetricsPhase(u2, j);
    PhasesAgree(t3, u3, i, j);
    var t4, u4 := ApplyCloudEstimate(t3, i), ApplyCloudEstimate(u3, j);
    LaterPhasesAgree(t4, u4, i, j);
    LaterPhasesAgree(ApplyTemperatures(t4, i), ApplyTemperatures(u4, j), i, j);
  }

  /** In local-only mode any two cloud snapshots, and in cloud-only mode any two local snapshots,
      give the same status, labels, metrics, errors, trays, preview and sources. */
  lemma SingleSourceModeIgnoresTheOther(i: Input, j: Input)
    requires DifferInIgnoredSource(i, j)
    ensures var t, u := Merge(i), Merge(j);
      && t.status == u.status && t.ui == u.ui && t.metrics == u.metrics && t.errors == u.errors
      && t.trays == u.trays && t.preview == u.preview && t.network == u.network && t.sources == u.sources
  {
    hide BeforeErrors, DifferInIgnoredSource, ErrorPhase, TraysPhase, MediaPhase, TextPhase, MaskPhase, StatusSource;
    BeforeErrorsAgree(i, j);
    var t0, u0 := BeforeErrors(i), BeforeErrors(j);
    ErrorPhasesAgree(t0, u0, i, j);
    var t1, u1 := ErrorPhase(t0, i), ErrorPhase(u0, j);
    LastPhasesAgree(t1, u1, i, j);
    var t2, u2 := TraysPhase(t1, i), TraysPhase(u1, j);
    LastPhasesAgree(t2, u2, i, j);
    var t3, u3 := MediaPhase(t2, i), MediaPhase(u2, j);
    SourcesBeforeErrors(i);
    BundlePhasesRecordSources(t0, i);
    LastPhasesKeepSources(t1, i);
    LastPhasesKeepSources(t2, i);
    LastPhasesAgree(t3, u3, i, j);
    MaskKeepsState(TextPhase(t3, i), i);
    MaskKeepsState(TextPhase(u3, j), j);
  }

  /** The lifecycle, flags and label shown to the user are equally blind to the ignored source. */
  lemma ShownStateIgnoresTheOther(i: Input, j: Input, text: ErrorText)
    requires DifferInIgnoredSource(i, j)
    ensures var t, u := ResolveUiState(Merge(i), text), ResolveUiState(Merge(j), text);
      && t.ui == u.ui && t.status.lifecycle == u.status.lifecycle && t.status.hasError == u.status.hasError
      && t.status.rawStatus == u.status.rawStatus && t.status.stage == u.status.stage
      && t.errors == u.errors && t.trays == u.trays
  {
    hide Merge, ReadText, ActiveHint, DoneStrict, StillDownloading, ApplySelectors, ApplyResolvedDetail, ResolvedError,
         SelectUiStatus, SelectLifecycle, SelectHasError, SelectPrintActive, SelectWarnHms, IsGenericFinishedDetail;
    SingleSourceModeIgnoresTheOther(i, j);
    var t, u := Merge(i), Merge(j);
    if !IsNonErrorStop(t) {
      Decisions(t, text);
      Decisions(u, text);
      SameFieldsSameSignals(t, u);
    }
  }

  lemma SameFieldsSameSignals(t: Snapshot, u: Snapshot)
    requires t.status == u.status && t.metrics == u.metrics && t.errors == u.errors && t.network == u.network
    ensures BuildSignals(t) == BuildSignals(u)
    ensures SelectUiStatus(t, BuildSignals(t)) == SelectUiStatus(u, BuildSignals(u))
  {
    hide Contains, IsFilamentStage, IsPreheatStage, IsCleanStage, IsLevelStage, IsCoolingStage, IsSetupStage,
         IsDownloadStage, IsPausedStatus, IsPrepareStatus, IsFailed, IsFinished, IsPrinting, IsPreparing,
         EffectiveStatus, EffectiveStage, SelectFallback;
  }
}
