/** The no-data watchdog over whole runs, with a wrapping tick counter. */
module Watchdog {
  import opened Ticks
  import opened MqttSession
  import opened SessionSafety
  import opened SessionOutcomes

  /** The steps that restart the silence measured by the watchdog. */
  predicate RestartsSilence(s: Session, step: Step, now: Tick) {
    || AcceptsReport(s, step)
    || AcceptsConnect(s, step)
    || (step.Loop? && Next(s, step, now).life.client.Client? && Next(s, step, now).life.client != s.life.client)
  }

  predicate SendsProbe(s: Session, step: Step, now: Tick) {
    step.Loop? && LoopVerdict(s, now, step.creation) == SendProbe
  }

  /** The time of the latest accepted report, 0 if there was none. */
  function LastReport(run: seq<TimedStep>): nat {
    if run == [] then 0
    else
      var init, last := run[..|run| - 1], run[|run| - 1];
      if AcceptsReport(Run(init), last.step) then last.time else LastReport(init)
  }

  function LastRestart(run: seq<TimedStep>): nat {
    if run == [] then 0
    else
      var init, last := run[..|run| - 1], run[|run| - 1];
      if RestartsSilence(Run(init), last.step, TickAt(last.time)) then last.time else LastRestart(init)
  }

  function LastProbe(run: seq<TimedStep>): nat {
    if run == [] then 0
    else
      var init, last := run[..|run| - 1], run[|run| - 1];
      if SendsProbe(Run(init), last.step, TickAt(last.time)) then last.time else LastProbe(init)
  }

  function EndTime(run: seq<TimedStep>): nat {
    if run == [] then 0 else run[|run| - 1].time
  }

  /** While connected, the loop never looks at a silence of 2^31 ticks or more. */
  predicate GapsBounded(run: seq<TimedStep>) {
    run == [] ||
    var init, last := run[..|run| - 1], run[|run| - 1];
    && GapsBounded(init)
    && (last.step.Loop? && Run(init).flow.mqttConnected ==> last.time < LastRestart(init) + HALF_RANGE)
  }

  /** The stored ticks are the true times they stand for, and a pending probe was sent only after
      the full probe window of the current model. */
  ghost predicate Tracks(run: seq<TimedStep>) {
    var s := Run(run);
    && LastReport(run) <= LastRestart(run) <= EndTime(run)
    && (s.timers.lastMessage != 0 ==> s.timers.lastMessage == TickAt(LastRestart(run)))
    && (s.timers.watchdogProbe != 0 ==>
          && s.timers.watchdogProbe == TickAt(LastProbe(run))
          && LastRestart(run) + NoDataProbe(s.inputs.devModeModel) <= LastProbe(run) <= EndTime(run))
  }

  lemma {:induction false} RunTracks(run: seq<TimedStep>)
    requires ValidRun(run) && GapsBounded(run)
    ensures Tracks(run)
  {
    if run != [] {
      var init, last := run[..|run| - 1], run[|run| - 1];
      RunTracks(init);
      RunKeepsInv(init);
      StepTicks(Run(init), last.step, TickAt(last.time));
      hide Inv, Next;
      if SendsProbe(Run(init), last.step, TickAt(last.time)) {
        TickElapsedIsTrueElapsed(LastRestart(init), last.time, NoDataProbe(Run(init).inputs.devModeModel));
      }
    }
  }

  lemma VerdictMeaning(s: Session, now: Tick)
    ensures WatchdogVerdict(s, now) in {SendProbe, ForceReconnect} ==>
              s.flow.mqttConnected && TickElapsed(s.timers.lastMessage, now, NoDataProbe(s.inputs.devModeModel))
    ensures WatchdogVerdict(s, now) == ForceReconnect ==>
              && s.timers.watchdogProbe != 0
              && TickElapsed(s.timers.watchdogProbe, now, NoDataReconnect(s.inputs.devModeModel))
  {
  }

  /** A watchdog decision in an iteration is a decision about the state the iteration started in. */
  lemma LoopTicks(s: Session, now: Tick, creation: Creation)
    requires Inv(s)
    ensures var t, verdict := LoopIteration(s, now, creation), LoopVerdict(s, now, creation);
      && (verdict != Idle ==>
            && verdict == WatchdogVerdict(s, now) && s.flow.mqttConnected && t.life == s.life
            && t.timers.lastMessage == s.timers.lastMessage && t.inputs == s.inputs)
      && (verdict == SendProbe ==> t.timers.watchdogProbe == now)
      && (t.life.client.Client? && t.life.client != s.life.client ==>
            t.timers.lastMessage == now && t.timers.watchdogProbe == 0)
      && (verdict != SendProbe && (t.life.client.Null? || t.life.client == s.life.client) ==>
            && t.timers.lastMessage in {s.timers.lastMessage, 0}
            && (t.timers.watchdogProbe != 0 ==>
                  t.timers.watchdogProbe == s.timers.watchdogProbe && t.inputs == s.inputs))
  {
    var t := ConnectPhases(s, now, creation).s;
    ConnectKeeps(s, now, creation);
    assert t.life.client.Null? ==> !t.flow.mqttConnected && t.timers.watchdogProbe == 0;
    MonitorsKeep(t, now);
    assert t.flow == s.flow && t.timers == s.timers && t.inputs == s.inputs ==>
        WatchdogVerdict(t, now) == WatchdogVerdict(s, now);
  }

  /** How one step moves the ticks the watchdog reads. */
  lemma StepTicks(s: Session, step: Step, now: Tick)
    requires Inv(s) && Allowed(s, step)
    ensures var t := Next(s, step, now);
      if RestartsSilence(s, step, now) then t.timers.lastMessage == now && t.timers.watchdogProbe == 0
      else if SendsProbe(s, step, now) then
        && s.flow.mqttConnected && TickElapsed(s.timers.lastMessage, now, NoDataProbe(s.inputs.devModeModel))
        && t.timers.lastMessage == s.timers.lastMessage && t.timers.watchdogProbe == now && t.inputs == s.inputs
      else
        && t.timers.lastMessage in {s.timers.lastMessage, 0}
        && (t.timers.watchdogProbe != 0 ==>
              && t.timers.watchdogProbe == s.timers.watchdogProbe
              && t.inputs.devModeModel == s.inputs.devModeModel)
  {
    if step.Loop? {
      hide Inv, LoopIteration, LoopVerdict, WatchdogVerdict;
      LoopTicks(s, now, step.creation);
      VerdictMeaning(s, now);
    } else {
      HandlersKeep(s, step, now);
    }
  }

  /** Every accepted report lies at or before the last one. */
  lemma {:induction false} LastReportIsLatest(run: seq<TimedStep>, i: nat)
    requires ValidRun(run) && i < |run|
    requires AcceptsReport(Run(run[..i]), run[i].step)
    ensures run[i].time <= LastReport(run) <= EndTime(run)
  {
    var init := run[..|run| - 1];
    if i < |run| - 1 {
      assert init[..i] == run[..i] && init[i] == run[i];
      LastReportIsLatest(init, i);
    }
  }

  /** The probe the reconnect waited for is a step of the run. */
  lemma {:induction false} LastProbeIsAStep(run: seq<TimedStep>)
    returns (i: nat)
    requires LastProbe(run) != 0
    ensures i < |run| && SendsProbe(Run(run[..i]), run[i].step, TickAt(run[i].time))
    ensures run[i].time == LastProbe(run)
  {
    var init := run[..|run| - 1];
    i := |run| - 1;
    if !SendsProbe(Run(init), run[i].step, TickAt(run[i].time)) {
      i := LastProbeIsAStep(init);
      assert init[..i] == run[..i] && init[i] == run[i];
    }
  }

  /** A forced reconnect, measured against the last report and the last probe of the run before it. */
  lemma ReconnectTimes(init: seq<TimedStep>, last: TimedStep)
    requires ValidRun(init + [last]) && GapsBounded(init + [last]) && last.step.Loop?
    requires LoopVerdict(Run(init), TickAt(last.time), last.step.creation) == ForceReconnect
    ensures var devMode := Run(init).inputs.devModeModel;
      && LastReport(init) + NoDataProbe(devMode) <= LastProbe(init)
      && LastProbe(init) + NoDataReconnect(devMode) <= last.time
  {
    hide Inv, Next, LoopVerdict, WatchdogVerdict;
    assert (init + [last])[..|init|] == init;
    var s, now := Run(init), TickAt(last.time);
    RunTracks(init);
    RunKeepsInv(init);
    LoopTicks(s, now, last.step.creation);
    VerdictMeaning(s, now);
    assert init != [] by { BootIsDisconnected(); }
    TickElapsedIsTrueElapsed(LastProbe(init), last.time, NoDataReconnect(s.inputs.devModeModel));
  }

  lemma BootIsDisconnected()
    ensures !Run([]).flow.mqttConnected
  {
  }

  /** In every run, the watchdog forces a reconnect only after it sent a probe and no report
      arrived for the whole probe plus reconnect window: 45 s, or 90 s for Developer Mode models. */
  lemma ReconnectIsNeverPremature(init: seq<TimedStep>, last: TimedStep)
    requires ValidRun(init + [last]) && GapsBounded(init + [last]) && last.step.Loop?
    requires LoopVerdict(Run(init), TickAt(last.time), last.step.creation) == ForceReconnect
    ensures var devMode := Run(init).inputs.devModeModel;
      && (forall i | 0 <= i < |init| && AcceptsReport(Run(init[..i]), init[i].step) ::
            init[i].time + (if devMode then 90000 else 45000) <= last.time)
      && (exists i | 0 <= i < |init| ::
            && SendsProbe(Run(init[..i]), init[i].step, TickAt(init[i].time))
            && init[i].time + NoDataReconnect(devMode) <= last.time)
  {
    hide Inv, Next, LoopVerdict, Run;
    assert (init + [last])[..|init|] == init;
    ReconnectTimes(init, last);
    var i := LastProbeIsAStep(init);
    forall j | 0 <= j < |init| && AcceptsReport(Run(init[..j]), init[j].step)
      ensures init[j].time <= LastReport(init)
    {
      LastReportIsLatest(init, j);
    }
  }

  // ----- the reconnect comes

  /** From step n on the run consists of iterations alone: nothing is heard of the printer. */
  ghost predicate NothingHeard(run: seq<TimedStep>, n: nat) {
    n <= |run| && forall k :: n <= k < |run| ==> run[k].step.Loop?
  }

  lemma {:induction false} PrefixIsValid(run: seq<TimedStep>, k: nat)
    requires ValidRun(run) && GapsBounded(run) && k <= |run|
    ensures ValidRun(run[..k]) && GapsBounded(run[..k])
    decreases |run|
  {
    if k < |run| {
      assert run[..|run| - 1][..k] == run[..k];
      PrefixIsValid(run[..|run| - 1], k);
    } else {
      assert run[..k] == run;
    }
  }

  lemma RunStep(run: seq<TimedStep>, k: nat)
    requires k < |run|
    ensures Run(run[..k + 1]) == Next(Run(run[..k]), run[k].step, TickAt(run[k].time))
    ensures LastRestart(run[..k + 1]) ==
            if RestartsSilence(Run(run[..k]), run[k].step, TickAt(run[k].time)) then run[k].time
            else LastRestart(run[..k])
    ensures EndTime(run[..k + 1]) == run[k].time
    ensures GapsBounded(run[..k + 1]) && run[k].step.Loop? && Run(run[..k]).flow.mqttConnected ==>
              run[k].time < LastRestart(run[..k]) + HALF_RANGE
  {
    hide Next, RestartsSilence;
    assert run[..k + 1][..k] == run[..k];
  }

  lemma {:induction false} TimesGrow(run: seq<TimedStep>, i: nat, k: nat)
    requires ValidRun(run) && i <= k < |run|
    ensures run[i].time <= run[k].time
    decreases |run|
  {
    hide Next, Run, Allowed;
    var init := run[..|run| - 1];
    if k < |run| - 1 {
      TimesGrow(init, i, k);
    } else if i < k {
      TimesGrow(init, i, k - 1);
    }
  }

  /** The session as it was when the silence began, still listening. */
  ghost predicate StillListening(before: Session, s: Session) {
    Listening(s) && s.inputs == before.inputs && s.timers.lastMessage == before.timers.lastMessage
  }

  /** One iteration within a silence: the session goes on listening, unless its end is asked for. */
  lemma SilentStep(run: seq<TimedStep>, n: nat, k: nat)
    requires ValidRun(run) && GapsBounded(run) && n <= k < |run| && NothingHeard(run, n)
    requires StillListening(Run(run[..n]), Run(run[..k])) && LastRestart(run[..k]) == LastRestart(run[..n])
    requires Run(run[..n]).timers.lastMessage != 0
    ensures var before, s, u := Run(run[..n]), Run(run[..k]), Run(run[..k + 1]);
      var dev := before.inputs.devModeModel;
      var silent := run[k].time >= LastRestart(run[..n]) + ProbeAfter(dev);
      var now := TickAt(run[k].time);
      && LastRestart(run[..k + 1]) == LastRestart(run[..n])
      && (u.rebuild.force || StillListening(before, u))
      && (silent ==> u.timers.watchdogProbe == if s.timers.watchdogProbe == 0 then now else s.timers.watchdogProbe)
      && (silent && s.timers.watchdogProbe != 0 && TickElapsed(s.timers.watchdogProbe, now, ReconnectAfter(dev))
          ==> u.rebuild.force)
  {
    hide Next, TickElapsed, ProbeAfter, ReconnectAfter, Tracks, Inv;
    var s := Run(run[..k]);
    PrefixIsValid(run, k);
    PrefixIsValid(run, k + 1);
    RunStep(run, k);
    ListeningOutcome(s, run[k].step.creation, TickAt(run[k].time));
    RunTracks(run[..k]);
    TicksAreTimes(run[..k]);
    if k > 0 {
      assert run[..k][|run[..k]| - 1] == run[k - 1];
      TimesGrow(run, k - 1, k);
    }
    TickElapsedIsTrueElapsed(LastRestart(run[..k]), run[k].time, ProbeAfter(s.inputs.devModeModel));
  }

  lemma TicksAreTimes(run: seq<TimedStep>)
    requires Tracks(run)
    ensures var s := Run(run);
      && LastRestart(run) <= EndTime(run)
      && (s.timers.lastMessage != 0 ==> s.timers.lastMessage == TickAt(LastRestart(run)))
      && (s.timers.watchdogProbe != 0 ==>
            s.timers.watchdogProbe == TickAt(LastProbe(run)) && LastRestart(run) <= LastProbe(run) <= EndTime(run))
  {
  }

  ghost predicate EndAskedFor(run: seq<TimedStep>, n: nat, k: nat) {
    exists m: nat :: n < m <= k <= |run| && Run(run[..m]).rebuild.force
  }

  /** Until its end is asked for, a silent session listens on. */
  lemma {:induction false} SilenceGoesOn(run: seq<TimedStep>, n: nat, k: nat)
    requires ValidRun(run) && GapsBounded(run) && n <= k <= |run| && NothingHeard(run, n)
    requires Listening(Run(run[..n])) && Run(run[..n]).timers.lastMessage != 0
    ensures EndAskedFor(run, n, k)
            || (StillListening(Run(run[..n]), Run(run[..k])) && LastRestart(run[..k]) == LastRestart(run[..n]))
  {
    hide Run, Listening, ValidRun, GapsBounded, LastRestart;
    if k == n {
    } else {
      SilenceGoesOn(run, n, k - 1);
      if !EndAskedFor(run, n, k - 1) {
        SilentStep(run, n, k - 1);
        if Run(run[..k]).rebuild.force {
          assert EndAskedFor(run, n, k);
        }
      } else {
        var m: nat :| n < m <= k - 1 <= |run| && Run(run[..m]).rebuild.force;
        assert EndAskedFor(run, n, k);
      }
    }
  }

  /** From the iteration that finds the silence long enough on, a probe is out, not later than that. */
  lemma {:induction false} ProbeStaysOut(run: seq<TimedStep>, n: nat, i: nat, k: nat) returns (sent: nat)
    requires ValidRun(run) && GapsBounded(run) && n <= i < k <= |run| && NothingHeard(run, n)
    requires Listening(Run(run[..n])) && Run(run[..n]).timers.lastMessage != 0
    requires run[i].time >= LastRestart(run[..n]) + ProbeAfter(Run(run[..n]).inputs.devModeModel)
    requires TickAt(run[i].time) != 0 && !EndAskedFor(run, n, k)
    ensures LastRestart(run[..n]) <= sent <= run[i].time && TickAt(sent) == Run(run[..k]).timers.watchdogProbe != 0
    decreases k
  {
    hide Run, Listening, ValidRun, GapsBounded, LastRestart, ProbeAfter, Tracks, Inv;
    EndAskedLater(run, n, k - 1, k);
    SilenceGoesOn(run, n, k - 1);
    SilentStep(run, n, k - 1);
    if k - 1 == i {
      PrefixIsValid(run, k);
      RunTracks(run[..k]);
      TicksAreTimes(run[..k]);
      sent := LastProbe(run[..k]);
      EndTimeOfPrefix(run, k);
    } else {
      TimesGrow(run, i, k - 1);
      sent := ProbeStaysOut(run, n, i, k - 1);
    }
  }

  lemma EndTimeOfPrefix(run: seq<TimedStep>, k: nat)
    requires 0 < k <= |run|
    ensures EndTime(run[..k]) == run[k - 1].time
  {
  }

  lemma EndAskedLater(run: seq<TimedStep>, n: nat, j: nat, k: nat)
    requires j <= k <= |run|
    ensures EndAskedFor(run, n, j) ==> EndAskedFor(run, n, k)
  {
    hide Run;
    if EndAskedFor(run, n, j) {
      var m: nat :| n < m <= j <= |run| && Run(run[..m]).rebuild.force;
      assert n < m <= k;
    }
  }

  lemma GapOfStep(run: seq<TimedStep>, k: nat)
    requires ValidRun(run) && GapsBounded(run) && k < |run| && run[k].step.Loop? && Listening(Run(run[..k]))
    ensures run[k].time < LastRestart(run[..k]) + HALF_RANGE
  {
    hide Run, ValidRun, GapsBounded, LastRestart;
    PrefixIsValid(run, k + 1);
    RunStep(run, k);
  }

  /** A dead session does not hang: once an iteration has found the silence as long as the probe window and
      a later one finds the probe unanswered for the reconnect window, the forced rebuild has been asked
      for. (A tick of exactly 0 counts as no time at all, so the probe must not fall on it.) */
  lemma DeadSessionIsDropped(run: seq<TimedStep>, n: nat, i: nat, j: nat)
    requires ValidRun(run) && GapsBounded(run) && n <= i < j < |run| && NothingHeard(run, n)
    requires Listening(Run(run[..n])) && Run(run[..n]).timers.lastMessage != 0
    requires run[i].time >= LastRestart(run[..n]) + ProbeAfter(Run(run[..n]).inputs.devModeModel)
    requires run[j].time >= run[i].time + ReconnectAfter(Run(run[..n]).inputs.devModeModel)
    requires TickAt(run[i].time) != 0
    ensures EndAskedFor(run, n, j + 1)
  {
    hide Run, Listening, ValidRun, GapsBounded, LastRestart, ProbeAfter, ReconnectAfter, TickElapsed;
    EndAskedLater(run, n, j, j + 1);
    if !EndAskedFor(run, n, j) {
      SilenceGoesOn(run, n, j);
      var sent := ProbeStaysOut(run, n, i, j);
      SilentStep(run, n, j);
      TimesGrow(run, i, j);
      GapOfStep(run, j);
      TickElapsedIsTrueElapsed(sent, run[j].time, ReconnectAfter(Run(run[..n]).inputs.devModeModel));
      AskedAt(run, n, j + 1);
    }
  }

  lemma AskedAt(run: seq<TimedStep>, n: nat, m: nat)
    requires n < m <= |run| && Run(run[..m]).rebuild.force
    ensures EndAskedFor(run, n, m)
  {
  }
}
