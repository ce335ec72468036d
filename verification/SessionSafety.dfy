/** What every reachable state and every step of the session machine satisfies. */
module SessionSafety {
  import opened Ticks
  import opened MqttSession

  /** The flags form a chain, exactly the current client is alive, and once a session has been
      established no pending rebuild waits longer than the cap. */
  ghost predicate Inv(s: Session) {
    && (s.flow.delayedPushallSent ==> s.flow.initialSyncSent)
    && (s.flow.initialSyncSent <==> s.flow.subscriptionAcknowledged)
    && (s.flow.subscriptionAcknowledged ==> s.flow.mqttConnected)
    && (s.flow.mqttConnected ==> s.flow.sessionEverEstablished)
    && (s.flow.sessionEverEstablished ==> s.life.client.Client?)
    && (s.rebuild.force ==> s.rebuild.requested)
    && (s.life.started <==> s.life.client.Client?)
    && s.life.live == (if s.life.client.Client? then {s.life.client.handle} else {})
    && (s.life.client.Client? ==> s.life.client.handle < s.life.nextHandle)
    && (s.life.client.Null? ==> s.timers.watchdogProbe == 0)
    && (!s.inputs.credentialsReady && !s.inputs.reconfigureRequested ==> s.life.client.Null?)
    && (s.flow.sessionEverEstablished && s.rebuild.requested ==>
          s.rebuild.delayTicks <= ESTABLISHED_BACKOFF_CAP_MS)
  }

  lemma BootKeepsInv()
    ensures Inv(BOOT)
  {
  }

  // ----- the start of a loop iteration

  /** What the phases up to client creation can do. */
  ghost predicate Connects(s: Session, now: Tick, creation: Creation, phase: Phase) {
    var t := phase.s;
    && Inv(t)
    && (t.rebuild.force ==> s.rebuild.force)
    && (t.life.client.Null? ==> phase.Done? && t.timers.lastMessage in {s.timers.lastMessage, 0})
    && (t.life.client.Client? && t.life.client != s.life.client ==>
          && phase.Onward? && creation == Starts
          && t.life.client == Client(s.life.nextHandle) && t.life.live == {s.life.nextHandle}
          && s.inputs.networkReady && s.inputs.credentialsReady && !t.flow.mqttConnected && !t.rebuild.requested
          && t.timers.connectionState == now && t.timers.lastMessage == now && t.timers.watchdogProbe == 0
          && ((s.life.client.Null? && !s.rebuild.requested) || s.inputs.reconfigureRequested))
    && (t.life.client.Client? && t.life.client == s.life.client ==>
          t.life == s.life && t.flow == s.flow && t.timers == s.timers && t.inputs == s.inputs)
    && (s.flow.mqttConnected && !t.flow.mqttConnected ==>
          s.inputs.reconfigureRequested || !s.inputs.networkReady || (s.rebuild.requested && s.rebuild.force))
  }

  /** The part of Inv that a teardown needs. */
  lemma StopKeeps(s: Session)
    requires s.life.live == (if s.life.client.Client? then {s.life.client.handle} else {})
    ensures Inv(StopClient(s)) && StopClient(s).life.live == {}
  {
  }

  lemma ConnectKeeps(s: Session, now: Tick, creation: Creation)
    requires Inv(s)
    ensures Connects(s, now, creation, ConnectPhases(s, now, creation))
  {
    hide TickElapsed;
    StopKeeps(s.(inputs := s.inputs.(reconfigureRequested := false)));
    var configured := ReconfigurePhase(s);
    assert Inv(configured);
    StopKeeps(configured);
    var rebuilt := RebuildPhase(configured, now);
    assert Inv(rebuilt.s);
    if rebuilt.Onward? {
      StopKeeps(rebuilt.s);
      assert Inv(ReadinessPhase(rebuilt.s).s);
    }
  }

  // ----- the end of a loop iteration

  /** The monitors move only the delayed-pushall flag, the rebuild request and two timers. */
  predicate Monitored(s: Session, t: Session, verdict: Verdict, now: Tick) {
    && t.life == s.life && t.inputs == s.inputs && t.consecutiveErrors == s.consecutiveErrors
    && t.flow == s.flow.(delayedPushallSent := t.flow.delayedPushallSent)
    && t.timers == s.timers.(watchdogProbe := t.timers.watchdogProbe, periodicPushall := t.timers.periodicPushall)
    && t.timers.watchdogProbe ==
       (if verdict == Quiet then 0 else if verdict == SendProbe then now else s.timers.watchdogProbe)
    && (verdict != Idle ==> s.flow.mqttConnected)
    && (t.rebuild.force ==>
          || s.rebuild.force || verdict == ForceReconnect
          || (s.flow.mqttConnected && s.flow.subscriptionAcknowledged && !s.flow.receivedPayload
              && TickElapsed(s.timers.initialSync, now, INITIAL_SYNC_TIMEOUT_MS)))
    && (t.rebuild.requested ==>
          || s.rebuild.requested || s.flow.mqttConnected
          || TickElapsed(s.timers.connectionState, now, DISCONNECTED_STALL_MS))
  }

  lemma MonitorsKeep(s: Session, now: Tick)
    requires Inv(s)
    ensures Inv(Monitors(s, now))
    ensures Monitored(s, Monitors(s, now), WatchdogVerdict(s, now), now)
    ensures WatchdogVerdict(InitialSyncPhase(s, now), now) == WatchdogVerdict(s, now)
  {
    hide TickElapsed, StallBackoff;
    var synced := InitialSyncPhase(s, now);
    assert Inv(synced);
    var watched := WatchdogPhase(synced, now);
    assert Inv(watched);
    assert Inv(StallPhase(watched, now));
  }

  // ----- the other steps

  predicate AcceptsReport(s: Session, step: Step) {
    step.Data? && FromCurrentClient(s, step.handle) && step.payload.Completed?
  }

  predicate AcceptsConnect(s: Session, step: Step) {
    step.Connected? && FromCurrentClient(s, step.handle)
  }

  /** What a handler or a hint keeps, going from s to t. */
  ghost predicate KeptByHandler(s: Session, t: Session) {
    Inv(t) && t.life == s.life && (t.rebuild.force ==> s.rebuild.force)
  }

  /** Only an accepted report or connection restarts the silence timer. */
  predicate SilenceKept(s: Session, t: Session) {
    && t.timers.lastMessage == s.timers.lastMessage
    && t.timers.watchdogProbe in {s.timers.watchdogProbe, 0}
    && t.inputs.devModeModel == s.inputs.devModeModel
  }

  predicate SilenceRestarted(t: Session, now: Tick) {
    t.timers.lastMessage == now && t.timers.watchdogProbe == 0
  }

  lemma ConnectedKeeps(s: Session, now: Tick)
    requires Inv(s) && s.life.client.Client?
    ensures var t := OnConnected(s, now); KeptByHandler(s, t) && SilenceRestarted(t, now) && t.flow.mqttConnected
  {
  }

  lemma SubscribedKeeps(s: Session, now: Tick)
    requires Inv(s) && s.flow.mqttConnected
    ensures var t := OnSubscribed(s, now); KeptByHandler(s, t) && SilenceKept(s, t) && t.flow.mqttConnected
  {
  }

  lemma DisconnectedKeeps(s: Session, now: Tick)
    requires Inv(s)
    ensures var t := OnDisconnected(s, now); KeptByHandler(s, t) && SilenceKept(s, t)
  {
  }

  lemma ReportKeeps(s: Session, now: Tick, report: Report)
    requires Inv(s) && s.life.client.Client?
    ensures var t := OnReport(s, now, report);
      KeptByHandler(s, t) && SilenceRestarted(t, now) && t.flow.mqttConnected == s.flow.mqttConnected
  {
  }

  lemma ErrorKeeps(s: Session, now: Tick)
    requires Inv(s)
    ensures var t := OnError(s, now); KeptByHandler(s, t) && SilenceKept(s, t)
  {
    hide OnDisconnected, ErrorBackoff;
    DisconnectedKeeps(s, now);
  }

  lemma ConfigureKeeps(s: Session, ready: bool)
    requires Inv(s)
    ensures var t := Configure(s, ready);
      KeptByHandler(s, t) && SilenceKept(s, t) && t.flow.mqttConnected == s.flow.mqttConnected
  {
  }

  lemma NetworkKeeps(s: Session, now: Tick, ready: bool)
    requires Inv(s)
    ensures var t := SetNetworkReady(s, now, ready);
      KeptByHandler(s, t) && SilenceKept(s, t) && t.flow.mqttConnected == s.flow.mqttConnected
  {
  }

  lemma PresenceKeeps(s: Session, now: Tick, online: bool)
    requires Inv(s)
    ensures var t := NotifyCloudPresence(s, now, online);
      KeptByHandler(s, t) && SilenceKept(s, t) && t.flow.mqttConnected == s.flow.mqttConnected
  {
  }

  lemma NothingKept(s: Session)
    requires Inv(s)
    ensures KeptByHandler(s, s) && SilenceKept(s, s)
  {
  }

  /** One line for each handler: it keeps the chain, and what it may do to the session and the silence. */
  lemma EachHandlerKeeps(s: Session, step: Step, now: Tick)
    requires Inv(s) && Allowed(s, step) && !step.Loop?
    ensures var t := Next(s, step, now);
      && KeptByHandler(s, t)
      && (s.flow.mqttConnected && !t.flow.mqttConnected ==>
            (step.Disconnected? || step.Error?) && FromCurrentClient(s, step.handle))
      && if AcceptsReport(s, step) || AcceptsConnect(s, step) then SilenceRestarted(t, now) else SilenceKept(s, t)
  {
    hide Inv, KeptByHandler, SilenceKept, SilenceRestarted, OnConnected, OnSubscribed, OnDisconnected, OnReport,
         OnError, Configure, SetNetworkReady, NotifyCloudPresence, LoopIteration;
    NothingKept(s);
    match step
    case Connected(h) => if FromCurrentClient(s, h) { ConnectedKeeps(s, now); }
    case Subscribed(h) => if FromCurrentClient(s, h) { SubscribedKeeps(s, now); }
    case Disconnected(h) => DisconnectedKeeps(s, now);
    case Data(h, payload) =>
      if FromCurrentClient(s, h) && payload.Completed? { ReportKeeps(s, now, payload.report); }
    case Error(h) => ErrorKeeps(s, now);
    case Reconfigure(ready) => ConfigureKeeps(s, ready);
    case Network(ready) => NetworkKeeps(s, now, ready);
    case CloudPresence(online) => PresenceKeeps(s, now, online);
  }

  /** No step but the loop touches the client or asks for force; only an accepted report or
      connection restarts the silence timer. */
  lemma HandlersKeep(s: Session, step: Step, now: Tick)
    requires Inv(s) && Allowed(s, step) && !step.Loop?
    ensures var t := Next(s, step, now);
      && Inv(t)
      && t.life == s.life
      && (t.rebuild.force ==> s.rebuild.force)
      && (s.flow.mqttConnected && !t.flow.mqttConnected ==>
            (step.Disconnected? || step.Error?) && FromCurrentClient(s, step.handle))
      && if AcceptsReport(s, step) || AcceptsConnect(s, step)
         then t.timers.lastMessage == now && t.timers.watchdogProbe == 0
         else && t.timers.lastMessage == s.timers.lastMessage
              && t.timers.watchdogProbe in {s.timers.watchdogProbe, 0}
              && t.inputs.devModeModel == s.inputs.devModeModel
  {
    hide Inv, Next, AcceptsReport, AcceptsConnect;
    EachHandlerKeeps(s, step, now);
  }

  // ----- whole steps and whole runs

  lemma NextKeepsInv(s: Session, step: Step, now: Tick)
    requires Inv(s) && Allowed(s, step)
    ensures Inv(Next(s, step, now))
  {
    if step.Loop? {
      hide Inv, ConnectPhases, Monitors;
      ConnectKeeps(s, now, step.creation);
      MonitorsKeep(ConnectPhases(s, now, step.creation).s, now);
    } else {
      HandlersKeep(s, step, now);
    }
  }

  /** The broker rule is exactly what the invariant needs: a SUBACK taken on a client that is not
      connected breaks it. */
  lemma SubackRuleIsNeeded(s: Session, step: Step, now: Tick)
    requires Inv(s)
    ensures Inv(Next(s, step, now)) <==> Allowed(s, step)
  {
    if Allowed(s, step) { NextKeepsInv(s, step, now); }
  }

  /** Safety over whole runs. */
  lemma {:induction false} RunKeepsInv(run: seq<TimedStep>)
    requires ValidRun(run)
    ensures Inv(Run(run))
  {
    hide Inv, Next;
    if run == [] {
      BootKeepsInv();
    } else {
      var init, last := run[..|run| - 1], run[|run| - 1];
      RunKeepsInv(init);
      NextKeepsInv(Run(init), last.step, TickAt(last.time));
    }
  }

  /** At most one MQTT client is ever alive, and it is the one the session refers to. */
  lemma AtMostOneLiveClient(run: seq<TimedStep>)
    requires ValidRun(run)
    ensures |Run(run).life.live| <= 1
    ensures forall h :: h in Run(run).life.live <==> Run(run).life.client == Client(h)
  {
    RunKeepsInv(run);
  }

  /** A client appears only in a loop iteration, under a fresh handle, with network and
      credentials ready and no rebuild pending, and only where none was left alive. */
  lemma CreationIsGuarded(s: Session, step: Step, now: Tick)
    requires Inv(s) && Allowed(s, step)
    requires Next(s, step, now).life.client.Client? && Next(s, step, now).life.client != s.life.client
    ensures var t := Next(s, step, now);
      && step == Loop(Starts)
      && t.life.client == Client(s.life.nextHandle)
      && t.life.live == {s.life.nextHandle}
      && s.inputs.networkReady && s.inputs.credentialsReady && !t.rebuild.requested
      && ((s.life.client.Null? && !s.rebuild.requested) || s.inputs.reconfigureRequested)
  {
    hide ConnectPhases, Monitors, Inv;
    if !step.Loop? { HandlersKeep(s, step, now); }
    ConnectKeeps(s, now, step.creation);
    MonitorsKeep(ConnectPhases(s, now, step.creation).s, now);
    assert !TickElapsed(now, now, DISCONNECTED_STALL_MS);
  }

  /** A connected session goes down only through the broker, a reconfiguration, lost network,
      or a forced rebuild: an ordinary pending rebuild is dropped instead. */
  lemma ConnectedSessionLossHasACause(s: Session, step: Step, now: Tick)
    requires Inv(s) && Allowed(s, step)
    requires s.flow.mqttConnected && !Next(s, step, now).flow.mqttConnected
    ensures
      || (step.Disconnected? && FromCurrentClient(s, step.handle))
      || (step.Error? && FromCurrentClient(s, step.handle))
      || (step.Loop? && (s.inputs.reconfigureRequested || !s.inputs.networkReady
                         || (s.rebuild.requested && s.rebuild.force)))
  {
    if step.Loop? {
      hide ConnectPhases, Monitors, Inv;
      ConnectKeeps(s, now, step.creation);
      MonitorsKeep(ConnectPhases(s, now, step.creation).s, now);
    } else {
      HandlersKeep(s, step, now);
    }
  }

  /** A rebuild becomes forced only in an iteration in which the initial sync timed out after its
      delayed pushall, or the no-data watchdog gave up. */
  lemma ForceHasACause(s: Session, step: Step, now: Tick)
    requires Inv(s) && Allowed(s, step)
    requires !s.rebuild.force && Next(s, step, now).rebuild.force
    ensures step.Loop?
    ensures
      || LoopVerdict(s, now, step.creation) == ForceReconnect
      || (s.flow.mqttConnected && s.flow.subscriptionAcknowledged && !s.flow.receivedPayload
          && TickElapsed(s.timers.initialSync, now, INITIAL_SYNC_TIMEOUT_MS))
  {
    hide ConnectPhases, Monitors, Inv, WatchdogVerdict, InitialSyncPhase, TickElapsed;
    if !step.Loop? { HandlersKeep(s, step, now); }
    ConnectKeeps(s, now, step.creation);
    MonitorsKeep(ConnectPhases(s, now, step.creation).s, now);
  }

  /** A due rebuild recovers: the iteration that fires it leaves a clean state, and the next one
      brings up a fresh client. */
  lemma DueRebuildRecovers(s: Session, now: Tick, later: Tick, ignored: Creation)
    requires Inv(s) && s.inputs.networkReady && s.inputs.credentialsReady && !s.inputs.reconfigureRequested
    requires s.rebuild.requested && (s.rebuild.force || !s.flow.mqttConnected)
    requires s.rebuild.requestTick == 0 || TickElapsed(s.rebuild.requestTick, now, s.rebuild.delayTicks)
    ensures var t := LoopIteration(s, now, ignored);
      t.life.client.Null? && t.life.live == {} && !t.rebuild.requested &&
      var u := LoopIteration(t, later, Starts);
      && u.life.client == Client(s.life.nextHandle) && u.life.live == {s.life.nextHandle}
      && !u.rebuild.requested && !u.flow.mqttConnected
  {
    StopKeeps(s);
    var t := CancelRebuild(StopClient(s));
    assert LoopIteration(s, now, ignored) == t && Inv(t);
    hide Monitors, Inv;
    ConnectKeeps(t, later, Starts);
    MonitorsKeep(ConnectPhases(t, later, Starts).s, later);
    assert !TickElapsed(later, later, DISCONNECTED_STALL_MS);
  }
}
