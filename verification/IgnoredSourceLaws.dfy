/** What of the ignored source still reaches the display: its printer model and its serial number. */
module IgnoredSourceLaws {
  import opened PrinterState
  import opened BambuStatus
  import opened UiState
  import opened UiStateLaws
  import opened StatusMerge
  import opened StatusMergeLaws

  // ----- the model a merge ends up with

  /** The model the readings are masked by and error texts are looked up under. */
  function ModelSeen(i: Input): Model {
    var l, c := i.local.local.model, i.cloud.meta.model;
    if StatusSource(i) == Cloud && c != UnknownModel then c else if l != UnknownModel then l else c
  }

  function SerialSeen(i: Input): string {
    if i.cloud.resolvedSerial != "" then i.cloud.resolvedSerial else i.local.resolvedSerial
  }

  /** The merge before its last step. */
  function Unmasked(i: Input): Snapshot {
    TextPhase(MediaPhase(TraysPhase(ErrorPhase(BeforeErrors(i), i), i), i), i)
  }

  /** The fields that identify the printer are set once and kept. */
  predicate KeepsIdentity(t: Snapshot, u: Snapshot) {
    t.local == u.local && t.cloud == u.cloud && t.resolvedSerial == u.resolvedSerial
  }

  lemma EarlyPhasesKeepIdentity(t: Snapshot, i: Input)
    ensures KeepsIdentity(t, ApplyBase(t, i))
    ensures KeepsIdentity(t, StatusPhase(t, i)) && KeepsIdentity(t, MetricsPhase(t, i))
    ensures KeepsIdentity(t, ApplyCloudEstimate(t, i)) && KeepsIdentity(t, ApplyTemperatures(t, i))
    ensures KeepsIdentity(t, ApplyLight(t, i))
  {
    hide LocalUsable, LocalUsed, CloudUsable, LocalEnabled, CloudEnabled, PrefersCloud, LocalSubstateOverrides, OrKeep,
         BelievesRemaining, LocalTemperature, FromCloudTemperature, StatusSource, MetricsSource;
  }

  lemma LatePhasesKeepIdentity(t: Snapshot, i: Input)
    ensures KeepsIdentity(t, ErrorPhase(t, i)) && KeepsIdentity(t, TraysPhase(t, i))
    ensures KeepsIdentity(t, MediaPhase(t, i)) && KeepsIdentity(t, TextPhase(t, i))
  {
    hide LocalUsable, LocalUsed, CloudUsable, LocalEnabled, CloudEnabled, PrefersCloud, OrKeep, ReportsError,
         IsRecentEnough, ErrorSource, JobNameFallback, DetailFallback, StageFallback;
  }

  lemma IdentityOfUnmasked(i: Input)
    ensures var t := Unmasked(i);
      && t.local.model == i.local.local.model && t.cloud.model == i.cloud.meta.model
      && t.resolvedSerial == SerialSeen(i)
  {
    var t0 := CopyMetadata(DEFAULT_SNAPSHOT, i);
    assert t0.local.model == i.local.local.model && t0.cloud.model == i.cloud.meta.model;
    assert t0.resolvedSerial == SerialSeen(i);
    hide CopyMetadata, ApplyBase, StatusPhase, MetricsPhase, ApplyCloudEstimate, ApplyTemperatures, ApplyLight,
         ErrorPhase, TraysPhase, MediaPhase, TextPhase;
    EarlyPhasesKeepIdentity(t0, i);
    var t1 := ApplyBase(t0, i);
    EarlyPhasesKeepIdentity(t1, i);
    var t2 := StatusPhase(t1, i);
    EarlyPhasesKeepIdentity(t2, i);
    var t3 := MetricsPhase(t2, i);
    EarlyPhasesKeepIdentity(t3, i);
    var t4 := ApplyCloudEstimate(t3, i);
    EarlyPhasesKeepIdentity(t4, i);
    EarlyPhasesKeepIdentity(ApplyTemperatures(t4, i), i);
    var t5 := BeforeErrors(i);
    LatePhasesKeepIdentity(t5, i);
    var t6 := ErrorPhase(t5, i);
    LatePhasesKeepIdentity(t6, i);
    LatePhasesKeepIdentity(TraysPhase(t6, i), i);
    LatePhasesKeepIdentity(MediaPhase(TraysPhase(t6, i), i), i);
  }

  lemma SourceOfUnmasked(i: Input)
    ensures Unmasked(i).sources.status == StatusSource(i)
  {
    hide BeforeErrors, ErrorPhase, TraysPhase, MediaPhase, TextPhase, StatusSource, MetricsSource;
    SourcesBeforeErrors(i);
    var t5 := BeforeErrors(i);
    BundlePhasesRecordSources(t5, i);
    var t6 := ErrorPhase(t5, i);
    LastPhasesKeepSources(t6, i);
    LastPhasesKeepSources(TraysPhase(t6, i), i);
    LastPhasesKeepSources(MediaPhase(TraysPhase(t6, i), i), i);
  }

  lemma ModelOfUnmasked(i: Input)
    ensures EffectiveModel(Unmasked(i)) == ModelSeen(i)
  {
    hide Unmasked, StatusSource;
    IdentityOfUnmasked(i);
    SourceOfUnmasked(i);
  }

  lemma MergeIsMasked(i: Input)
    ensures Merge(i) == MaskPhase(Unmasked(i), i)
  {
    hide BeforeErrors, ErrorPhase, TraysPhase, MediaPhase, TextPhase, MaskPhase;
  }

  lemma MaskKeepsModel(t: Snapshot, i: Input)
    ensures EffectiveModel(MaskPhase(t, i)) == EffectiveModel(t)
  {
    hide HasChamberTemperature, HasSecondaryNozzle, HasChamberLight, SerialHasNoChamberTemperature;
  }

  lemma ModelOfMerge(i: Input)
    ensures EffectiveModel(Merge(i)) == ModelSeen(i)
  {
    hide Unmasked, Merge, MaskPhase, EffectiveModel, ModelSeen;
    MergeIsMasked(i);
    MaskKeepsModel(Unmasked(i), i);
    ModelOfUnmasked(i);
  }

  // ----- the masks

  predicate HidesChamber(i: Input) {
    var model := ModelSeen(i);
    if model != UnknownModel then !HasChamberTemperature(model) else SerialHasNoChamberTemperature(SerialSeen(i))
  }

  predicate HidesSecondary(i: Input) {
    ModelSeen(i) != UnknownModel && !HasSecondaryNozzle(ModelSeen(i))
  }

  datatype LightRule = LeaveLight | ForceSupported | DropLight

  function LightRuleOf(i: Input): LightRule {
    if ModelSeen(i) == UnknownModel then LeaveLight
    else if HasChamberLight(ModelSeen(i)) then ForceSupported else DropLight
  }

  /** Two rules do the same to this light. */
  predicate SameOnLight(a: LightRule, b: LightRule, l: Light) {
    || a == b
    || ({a, b} == {LeaveLight, ForceSupported} && l.supported)
    || ({a, b} == {LeaveLight, DropLight} && l == Light(false, false, false))
  }

  lemma MaskedReadings(i: Input)
    ensures var t, m := Unmasked(i), Merge(i);
      && m.temperatures == t.temperatures.(
           chamber := if HidesChamber(i) then UNKNOWN_TEMPERATURE else t.temperatures.chamber,
           secondary := if HidesSecondary(i) then UNKNOWN_TEMPERATURE else t.temperatures.secondary)
      && m.light == match LightRuleOf(i)
                    case LeaveLight => t.light
                    case ForceSupported => t.light.(supported := true)
                    case DropLight => Light(false, false, false)
  {
    hide Unmasked, Merge, EffectiveModel, ModelSeen, HasChamberTemperature, HasSecondaryNozzle, HasChamberLight,
         SerialHasNoChamberTemperature, SerialSeen;
    MergeIsMasked(i);
    ModelOfUnmasked(i);
    IdentityOfUnmasked(i);
  }

  lemma UnmaskedAgree(i: Input, j: Input)
    requires DifferInIgnoredSource(i, j)
    ensures AgreeOnState(Unmasked(i), Unmasked(j))
  {
    hide BeforeErrors, DifferInIgnoredSource, ErrorPhase, TraysPhase, MediaPhase, TextPhase, StatusSource, AgreeOnState,
         MetricsSource;
    BeforeErrorsAgree(i, j);
    var t0, u0 := BeforeErrors(i), BeforeErrors(j);
    ErrorPhasesAgree(t0, u0, i, j);
    var t1, u1 := ErrorPhase(t0, i), ErrorPhase(u0, j);
    LastPhasesAgree(t1, u1, i, j);
    var t2, u2 := TraysPhase(t1, i), TraysPhase(u1, j);
    LastPhasesAgree(t2, u2, i, j);
    SourcesBeforeErrors(i);
    BundlePhasesRecordSources(t0, i);
    LastPhasesKeepSources(t1, i);
    LastPhasesKeepSources(t2, i);
    LastPhasesAgree(MediaPhase(t2, i), MediaPhase(u2, j), i, j);
  }

  /** The readings of two merges that differ in the ignored source agree exactly when the two masks do
      the same to them. */
  lemma ReadingsAgreeExactly(i: Input, j: Input)
    requires DifferInIgnoredSource(i, j)
    ensures var t := Unmasked(i);
      && (Merge(i).temperatures == Merge(j).temperatures <==>
            && (HidesChamber(i) == HidesChamber(j) || t.temperatures.chamber == UNKNOWN_TEMPERATURE)
            && (HidesSecondary(i) == HidesSecondary(j) || t.temperatures.secondary == UNKNOWN_TEMPERATURE))
      && (Merge(i).light == Merge(j).light <==> SameOnLight(LightRuleOf(i), LightRuleOf(j), t.light))
  {
    hide Unmasked, Merge, DifferInIgnoredSource, HidesChamber, HidesSecondary, LightRuleOf;
    UnmaskedAgree(i, j);
    MaskedReadings(i);
    MaskedReadings(j);
    var a, b, l := LightRuleOf(i), LightRuleOf(j), Unmasked(i).light;
    assert {a, b} == {LeaveLight, ForceSupported} <==>
      (a.LeaveLight? && b.ForceSupported?) || (b.LeaveLight? && a.ForceSupported?);
    assert {a, b} == {LeaveLight, DropLight} <==> (a.LeaveLight? && b.DropLight?) || (b.LeaveLight? && a.DropLight?);
  }

  // ----- the error text

  /** Resolving asks for an error text at all. */
  predicate AsksForText(t: Snapshot) {
    !IsNonErrorStop(t) && !(ShowsFinished(ApplySelectors(t)) && t.errors.printErrorCode == 0)
  }

  /** Two texts leave the same detail and remaining time: they are equal, or one is empty and what is
      kept instead reads like the other. */
  predicate SameOutcome(t: Snapshot, e: string, f: string) {
    var finished := ShowsFinished(ApplySelectors(t));
    var kept := if finished && IsGenericFinishedDetail(t.status.detail, t.status.stage) then "" else t.status.detail;
    || e == f
    || ((e == "" || f == "") && e + f == kept && (finished ==> t.metrics.remainingSeconds == 0))
  }

  lemma DetailOf(t: Snapshot, text: ErrorText)
    requires !IsNonErrorStop(t)
    ensures var r, v := ResolveUiState(t, text), ApplySelectors(t);
      var finished := ShowsFinished(v);
      var kept := if finished && IsGenericFinishedDetail(t.status.detail, t.status.stage) then "" else t.status.detail;
      var e := if AsksForText(t) then ResolvedError(t, text) else "";
      && r.status.detail == (if e != "" then e else kept)
      && r.metrics.remainingSeconds == (if e == "" && finished then 0 else t.metrics.remainingSeconds)
  {
    hide BuildSignals, SelectUiStatus, SelectLifecycle, SelectHasError, SelectPrintActive, SelectWarnHms,
         StillDownloading, IsGenericFinishedDetail, EffectiveModel;
    assert EffectiveModel(ApplySelectors(t)) == EffectiveModel(t) by {
      ModelIgnoresState(t, ApplySelectors(t));
    }
  }

  lemma ModelIgnoresState(t: Snapshot, u: Snapshot)
    requires t.sources == u.sources && t.local == u.local && t.cloud == u.cloud
    ensures EffectiveModel(t) == EffectiveModel(u)
  {
  }

  lemma SelectorsAgree(t: Snapshot, u: Snapshot)
    requires t.status == u.status && t.metrics == u.metrics && t.errors == u.errors && t.network == u.network
    ensures ShowsFinished(ApplySelectors(t)) == ShowsFinished(ApplySelectors(u))
  {
    hide BuildSignals, SelectUiStatus, SelectLifecycle, SelectHasError, SelectPrintActive, SelectWarnHms,
         StillDownloading;
    SameFieldsSameSignals(t, u);
  }

  /** In a single-source mode the detail text and the remaining time are blind to the ignored source
      exactly when no error text is asked for, or the texts of the two models come to the same. */
  lemma ShownDetailAgreesExactly(i: Input, j: Input, text: ErrorText)
    requires DifferInIgnoredSource(i, j)
    ensures var t, u := Merge(i), Merge(j);
      var r, q := ResolveUiState(t, text), ResolveUiState(u, text);
      (r.status.detail == q.status.detail && r.metrics.remainingSeconds == q.metrics.remainingSeconds) <==>
      !AsksForText(t) || SameOutcome(t, ResolvedError(t, text), ResolvedError(u, text))
  {
    hide Merge, ApplySelectors, ApplyResolvedDetail, ResolvedError, IsGenericFinishedDetail, ResolveUiState,
         DifferInIgnoredSource;
    SingleSourceModeIgnoresTheOther(i, j);
    var t, u := Merge(i), Merge(j);
    SelectorsAgree(t, u);
    if IsNonErrorStop(t) {
      StopsAgree(t, u, text);
    } else {
      DetailOf(t, text);
      DetailOf(u, text);
      EmptyText(ResolvedError(t, text));
      EmptyText(ResolvedError(u, text));
    }
  }

  lemma EmptyText(e: string)
    ensures e + "" == e && "" + e == e
  {
  }

  lemma StopsAgree(t: Snapshot, u: Snapshot, text: ErrorText)
    requires IsNonErrorStop(t) && IsNonErrorStop(u)
    ensures ResolveUiState(t, text).status.detail == ResolveUiState(u, text).status.detail
    ensures ResolveUiState(t, text).metrics.remainingSeconds == ResolveUiState(u, text).metrics.remainingSeconds
  {
    hide ApplySelectors, ApplyResolvedDetail;
  }

  // ----- when nothing leaks

  /** The preferred source knows its model, and its status is used where that is what decides. */
  predicate ModelIsOwn(i: Input) {
    match i.mode
    case LocalOnly => i.local.local.model != UnknownModel
    case CloudOnly => i.cloud.meta.model != UnknownModel && StatusSource(i) == Cloud
    case Hybrid => false
  }

  /** Where the source in use knows its model, everything shown is blind to the other one. */
  lemma KnownModelIsBlind(i: Input, j: Input, text: ErrorText)
    requires DifferInIgnoredSource(i, j) && ModelIsOwn(i)
    ensures ModelSeen(i) == ModelSeen(j)
    ensures var r, q := ResolveUiState(Merge(i), text), ResolveUiState(Merge(j), text);
      && r.status.detail == q.status.detail && r.metrics.remainingSeconds == q.metrics.remainingSeconds
      && Merge(i).temperatures == Merge(j).temperatures && Merge(i).light == Merge(j).light
  {
    hide Merge, Unmasked, ApplySelectors, ApplyResolvedDetail, IsGenericFinishedDetail, ResolveUiState, LocalUsable,
         CloudUsable, LocalUsed, EffectiveModel, SerialHasNoChamberTemperature;
    SingleSourceModeIgnoresTheOther(i, j);
    StatusSourcesAgree(i, j);
    ModelOfMerge(i);
    ModelOfMerge(j);
    ReadingsAgreeExactly(i, j);
    ShownDetailAgreesExactly(i, j, text);
  }

  lemma StatusSourcesAgree(i: Input, j: Input)
    requires DifferInIgnoredSource(i, j)
    ensures StatusSource(i) == StatusSource(j)
    ensures i.mode.LocalOnly? ==> StatusSource(i) != Cloud
  {
    hide LocalUsable, LocalUsed, CloudUsable;
    IgnoredSourceIsUnusable(i, j);
  }

  // ----- an input where it does leak

  /** A local printer of unknown model in error, beside a cloud account that the mode ignores. */
  function Unidentified(code: int, cloudModel: Model): Input {
    var printer := DEFAULT_SNAPSHOT.(
      errors := Errors(code, [], 0, false, false),
      local := LocalMeta(true, true, 1, UnknownModel, NO_CAPABILITIES, false));
    var none := CloudTemperature(0.0, 0);
    var account := CloudSnapshot(
      CloudMeta(true, true, 1, cloudModel, DEFAULT_CLOUD_CAPABILITIES, ""), "", Unknown, "", "", "", false,
      DEFAULT_SNAPSHOT.metrics, DEFAULT_SNAPSHOT.preview, none, none, none, none, -1,
      DEFAULT_SNAPSHOT.light, DEFAULT_SNAPSHOT.errors, DEFAULT_SNAPSHOT.trays);
    Input(printer, true, account, LocalOnly, 1, Network(true, ""))
  }

  lemma ErrorsOfMerge(i: Input)
    requires ErrorSource(i) == Local
    ensures Merge(i).errors == i.local.errors
  {
    hide BeforeErrors, ErrorSource, LocalUsed, CloudUsable, JobNameFallback, DetailFallback, StageFallback, OrKeep,
         EffectiveModel;
  }

  /** With an unknown local model the cloud model decides the text of a local error, although the mode
      ignores the cloud. */
  lemma IgnoredModelLeaks(code: int, a: Model, b: Model, text: ErrorText)
    requires code != 0 && text(code, [], 0, a) != "" && text(code, [], 0, b) != ""
    requires text(code, [], 0, a) != text(code, [], 0, b)
    ensures var i, j := Unidentified(code, a), Unidentified(code, b);
      && DifferInIgnoredSource(i, j)
      && ResolveUiState(Merge(i), text).status.detail != ResolveUiState(Merge(j), text).status.detail
  {
    UnidentifiedShowsItsText(code, a, text);
    UnidentifiedShowsItsText(code, b, text);
  }

  lemma UnidentifiedShowsItsText(code: int, model: Model, text: ErrorText)
    requires code != 0 && text(code, [], 0, model) != ""
    ensures ResolveUiState(Merge(Unidentified(code, model)), text).status.detail == text(code, [], 0, model)
  {
    hide Merge, ApplySelectors, ResolveUiState, IsGenericFinishedDetail, ErrorSource, StatusSource, EffectiveModel;
    var i := Unidentified(code, model);
    UnidentifiedSources(code, model);
    ErrorsOfMerge(i);
    ModelOfMerge(i);
    DetailOf(Merge(i), text);
  }

  lemma UnidentifiedSources(code: int, model: Model)
    requires code != 0
    ensures var i := Unidentified(code, model);
      ErrorSource(i) == Local && StatusSource(i) == Local
  {
  }
}
