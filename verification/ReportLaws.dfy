/** What any sequence of reports preserves. */
module ReportLaws {
  import opened Text
  import opened BambuStatus
  import opened UiState
  import opened ReportFold

  // ----- the AMS latch

  /** The last report that carries ams_status, if any. */
  function LastAmsStatus(ps: seq<Payload>): OptInt {
    if ps == [] then Absent
    else if ps[|ps| - 1].amsStatus >= 0 then Given(ps[|ps| - 1].amsStatus)
    else LastAmsStatus(ps[..|ps| - 1])
  }

  /** The latch is the verdict of the last report carrying ams_status, whatever came after it. */
  lemma {:induction false} LatchIsTheLastVerdict(r: Runtime, ps: seq<Payload>, labels: Labels)
    ensures FoldAll(r, ps, labels).ams ==
            match LastAmsStatus(ps)
            case Absent => r.ams
            case Given(raw) => AmsLatch((raw / 256) % 256 == 1, (raw / 256) % 256)
  {
    if ps != [] {
      LatchIsTheLastVerdict(r, ps[..|ps| - 1], labels);
      hide NextCodes, NextTexts, NextVerdicts, NextFilament, FaultPauseLatched;
    }
  }

  // ----- HMS codes

  ghost predicate WellFormedCodes(codes: Codes) {
    && (forall i, j | 0 <= i < j < |codes.hms| :: codes.hms[i] != codes.hms[j])
    && (forall c | c in codes.hms :: c != 0 && !IsSuppressed(c))
    && codes.hmsCount == |codes.hms| % 0x1_0000
  }

  lemma {:induction false} ReportableCodesAreDistinct(items: seq<nat>)
    ensures var codes := ReportableCodes(items);
      && (forall i, j | 0 <= i < j < |codes| :: codes[i] != codes[j])
      && (forall c :: c in codes <==> c in items && c != 0 && !IsSuppressed(c))
      && |codes| <= |items|
  {
    if items != [] {
      ReportableCodesAreDistinct(items[..|items| - 1]);
      assert items == items[..|items| - 1] + [items[|items| - 1]];
    }
  }

  /** Over all runs the stored codes are distinct, non-zero and unsuppressed, and are counted. */
  lemma {:induction false} CodesStayWellFormed(r: Runtime, ps: seq<Payload>, labels: Labels)
    requires WellFormedCodes(r.codes)
    ensures WellFormedCodes(FoldAll(r, ps, labels).codes)
  {
    if ps != [] {
      var last := ps[|ps| - 1];
      CodesStayWellFormed(r, ps[..|ps| - 1], labels);
      hide NextTexts, NextVerdicts, NextFilament, FaultPauseLatched;
      if last.hms.HmsUpdate? {
        ReportableCodesAreDistinct(last.hms.items);
      }
    }
  }

  /** The 16-bit counter equals the number of codes for every report that fits the 64 KiB payload
      limit, since each code takes at least one byte. */
  lemma CountIsExact(items: seq<nat>, c: Codes, p: Payload)
    requires p.hms == HmsUpdate(items) && |items| < 0x1_0000
    ensures NextCodes(c, p).hmsCount == |NextCodes(c, p).hms|
  {
    ReportableCodesAreDistinct(items);
  }

  // ----- errors

  lemma NormalizeOfPrefix(s: string, n: nat)
    requires n <= |s|
    ensures Normalize(s[..n]) <= Normalize(s)
  {
    if n > 0 {
      NormalizeOfPrefix(s[1..], n - 1);
      assert s[..n][1..] == s[1..][..n - 1];
    }
  }

  lemma ContainsInPrefix(a: string, b: string, t: string)
    requires a <= b && Contains(a, t)
    ensures Contains(b, t)
  {
    var i: nat :| i <= |a| && OccursAt(a, t, i);
    assert b[i..i + |t|] == a[i..i + |t|];
    assert OccursAt(b, t, i);
  }

  /** Truncation can only lose a pause, never invent one. */
  lemma TruncationKeepsNoNewPause(s: string, n: nat)
    ensures IsPaused(Truncated(s, n)) ==> IsPaused(s)
  {
    if |s| > n && IsPaused(s[..n]) {
      NormalizeOfPrefix(s, n);
      ContainsInPrefix(Normalize(s[..n]), Normalize(s), "PAUSE");
    }
  }

  lemma ShortIsKept(s: string, n: nat)
    ensures |Truncated(s, n)| <= n && (|s| <= n ==> Truncated(s, n) == s)
  {
  }

  lemma FailedIsNotPaused()
    ensures !IsPaused("FAILED")
  {
    assert Normalize("FAILED") == "FAILED";
    assert forall i: nat | i <= 6 :: !OccursAt("FAILED", "PAUSE", i);
  }

  /** Every report leaves the error flag consistent: an error shows the error lifecycle and is never
      taken for a cancelled job. */
  lemma ErrorIsConsistent(r: Runtime, p: Payload, labels: Labels)
    ensures var t := Fold(r, p, labels);
      t.verdicts.hasError ==> t.verdicts.lifecycle == LifecycleError && !t.verdicts.nonErrorStop
  {
    hide IsPaused, IsFailed, Normalize, Contains, IsFaultPauseStage, StageOf, LatchedStage, RefinedStage, FreshStage,
         IsFilamentStage, NextCodes, NextAms, NextFilament, IsPreparing, IsPrinting, IsFinished;
    FailedIsNotPaused();
  }

  /** A paused job in error stays in error as long as the reports do not say otherwise. */
  lemma PauseFaultSurvives(r: Runtime, p: Payload, labels: Labels)
    requires PauseFault(r) && (p.gcodeState == "" || IsPaused(p.gcodeState))
    ensures Fold(r, p, labels).verdicts.hasError
  {
    hide IsPaused, IsFaultPauseStage, StageOf, NextTexts, NextCodes, NextAms, NextFilament, RealError,
         LifecycleFromState;
  }

  /** The report repeats a paused state that fits the status buffer, or none at all. */
  predicate StaysPaused(p: Payload) {
    p.gcodeState == "" || IsPaused(Truncated(p.gcodeState, RAW_STATUS_MAX))
  }

  /** Over whole runs: the error stays until a state that is not paused arrives. */
  lemma {:induction false} PauseFaultPersists(r: Runtime, ps: seq<Payload>, labels: Labels)
    requires PauseFault(r) && |r.texts.rawStatus| <= RAW_STATUS_MAX
    requires forall p | p in ps :: StaysPaused(p)
    ensures var t := FoldAll(r, ps, labels);
      && PauseFault(t) && |t.texts.rawStatus| <= RAW_STATUS_MAX
      && (ps != [] ==> t.verdicts.lifecycle == LifecycleError)
  {
    hide IsPaused, Fold, Truncated;
    if ps != [] {
      var init, last := ps[..|ps| - 1], ps[|ps| - 1];
      assert last in ps && forall p | p in init :: p in ps;
      PauseFaultPersists(r, init, labels);
      var s := FoldAll(r, init, labels);
      TruncationKeepsNoNewPause(last.gcodeState, RAW_STATUS_MAX);
      PauseFaultSurvives(s, last, labels);
      ErrorIsConsistent(s, last, labels);
      StoredStatus(s, last, labels);
      ShortIsKept(s.texts.rawStatus, RAW_STATUS_MAX);
      ShortIsKept(last.gcodeState, RAW_STATUS_MAX);
    }
  }

  /** One report of any kind keeps a pause fault exactly if the state it leaves stored, cut to the status
      buffer, reads as paused. */
  lemma PauseFaultStepExactly(r: Runtime, p: Payload, labels: Labels)
    requires PauseFault(r)
    ensures PauseFault(Fold(r, p, labels)) <==> IsPaused(Truncated(EffectiveState(r, p), RAW_STATUS_MAX))
  {
    hide IsPaused, Fold, Truncated;
    StoredStatus(r, p, labels);
    TruncationKeepsNoNewPause(EffectiveState(r, p), RAW_STATUS_MAX);
    if IsPaused(EffectiveState(r, p)) {
      PausedStateSurvives(r, p, labels);
    }
  }

  lemma PausedStateSurvives(r: Runtime, p: Payload, labels: Labels)
    requires PauseFault(r) && IsPaused(EffectiveState(r, p))
    ensures Fold(r, p, labels).verdicts.hasError
  {
    hide IsPaused, IsFaultPauseStage, StageOf, NextTexts, NextCodes, NextAms, NextFilament, RealError,
         LifecycleFromState;
  }

  /** Over any run: the job is seen as paused in error after every single report exactly if every state
      name that arrives still reads as paused in its first 15 characters. */
  lemma {:induction false} PauseFaultAlongRunExactly(r: Runtime, ps: seq<Payload>, labels: Labels)
    requires PauseFault(r) && |r.texts.rawStatus| <= RAW_STATUS_MAX
    ensures (forall n :: 0 <= n <= |ps| ==> PauseFault(FoldAll(r, ps[..n], labels))) <==>
            (forall k :: 0 <= k < |ps| ==> StaysPaused(ps[k]))
  {
    hide PauseFault, StaysPaused, FoldAll, Fold;
    if ps == [] {
      RunOfNothing(r, labels);
      assert ps[..0] == [];
    } else {
      var init, last := ps[..|ps| - 1], ps[|ps| - 1];
      assert forall n :: 0 <= n <= |init| ==> init[..n] == ps[..n];
      assert ps[..|ps|] == ps;
      PauseFaultAlongRunExactly(r, init, labels);
      if forall k :: 0 <= k < |init| ==> StaysPaused(init[k]) {
        PauseFaultPersists(r, init, labels);
        LastReportDecides(r, ps, labels);
      }
      assert forall k :: 0 <= k < |init| ==> init[k] == ps[k];
    }
  }

  lemma RunOfNothing(r: Runtime, labels: Labels)
    ensures FoldAll(r, [], labels) == r
  {
  }

  lemma LastReportDecides(r: Runtime, ps: seq<Payload>, labels: Labels)
    requires ps != []
    requires var s := FoldAll(r, ps[..|ps| - 1], labels);
      PauseFault(s) && |s.texts.rawStatus| <= RAW_STATUS_MAX
    ensures PauseFault(FoldAll(r, ps, labels)) <==> StaysPaused(ps[|ps| - 1])
  {
    hide IsPaused, Fold, Truncated;
    var s, last := FoldAll(r, ps[..|ps| - 1], labels), ps[|ps| - 1];
    PauseFaultStepExactly(s, last, labels);
    ShortIsKept(s.texts.rawStatus, RAW_STATUS_MAX);
  }

  lemma StoredStatus(r: Runtime, p: Payload, labels: Labels)
    ensures Fold(r, p, labels).texts.rawStatus == Truncated(EffectiveState(r, p), RAW_STATUS_MAX)
  {
    hide LatchedStage, RefinedStage, FreshStage, StageOf, NextVerdicts, FaultPauseLatched, NextCodes, NextAms,
         NextFilament;
  }

  /** A report that carries nothing. */
  const SILENT: Payload := Payload("", -1, "", -1, Absent, NoHms, Absent, NoTrays, false)

  /** Without an error code, a report that names no state keeps an error exactly if the stored status
      still reads as paused; whatever stage it names makes no difference. */
  lemma SilentReportKeepsPauseFaultExactly(r: Runtime, p: Payload, labels: Labels)
    requires r.verdicts.hasError && p.gcodeState == "" && NextCodes(r.codes, p).printError == 0
    ensures Fold(r, p, labels).verdicts.hasError <==> IsPaused(r.texts.rawStatus)
  {
    hide IsPaused, IsFaultPauseStage, StageOf, NextTexts, NextAms, NextFilament, LifecycleFromState;
  }

  // ----- a state name too long for the buffer

  lemma {:induction false} NormalizeConcat(a: string, b: string)
    ensures Normalize(a + b) == Normalize(a) + Normalize(b)
  {
    if a == "" {
      assert a + b == b;
    } else {
      NormalizeConcat(a[1..], b);
      assert (a + b)[1..] == a[1..] + b;
    }
  }

  const DASHES: string := seq(15, _ => '-')

  lemma DashesSayNothing()
    ensures Normalize(DASHES) == "" && !IsPaused(DASHES) && IsPaused(DASHES + "PAUSE")
    ensures Truncated(DASHES + "PAUSE", RAW_STATUS_MAX) == DASHES
  {
    AllDashes(DASHES);
    NormalizeConcat(DASHES, "PAUSE");
    assert Normalize("PAUSE") == "PAUSE";
    hide Normalize;
    assert Normalize(DASHES + "PAUSE") == "PAUSE";
    assert !OccursAt("", "PAUSE", 0) && OccursAt("PAUSE", "PAUSE", 0);
    assert |DASHES| == 15;
    assert (DASHES + "PAUSE")[..15] == DASHES;
  }

  lemma {:induction false} AllDashes(s: string)
    requires forall i | 0 <= i < |s| :: s[i] == '-'
    ensures Normalize(s) == ""
  {
    if s != "" {
      AllDashes(s[1..]);
    }
  }

  /** The truncation matters: after this state name a paused job in error loses its error on the
      next silent report, although no other state arrived. */
  lemma LongStateNameLosesTheFault(r: Runtime, labels: Labels)
    requires PauseFault(r) && r.codes.printError == 0
    ensures var p := SILENT.(gcodeState := DASHES + "PAUSE");
      var s := Fold(r, p, labels);
      s.verdicts.hasError && !Fold(s, SILENT, labels).verdicts.hasError
  {
    DashesSayNothing();
    var p := SILENT.(gcodeState := DASHES + "PAUSE");
    PauseFaultSurvives(r, p, labels);
    StoredStatus(r, p, labels);
    var s := Fold(r, p, labels);
    assert s.codes.printError == 0;
    assert DASHES[0] == '-';
    hide Fold, IsPaused;
    SilentReportKeepsPauseFaultExactly(s, SILENT, labels);
  }
}
