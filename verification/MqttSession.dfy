/** The local MQTT session of one printer: the connection flags, rebuild scheduling and
    watchdog of main/src/printer_client.cpp, as a step function on a record of the
    client's fields. PrinterClient.dfy proves the in-place code against it. */
module MqttSession {
  import opened Ticks

  const DELAYED_PUSHALL_MS: Duration := 3000
  const INITIAL_SYNC_TIMEOUT_MS: Duration := 12000
  const PERIODIC_PUSHALL_MS: Duration := 60000
  const NO_DATA_PROBE_MS: Duration := 30000
  const NO_DATA_RECONNECT_MS: Duration := 15000
  const NO_DATA_PROBE_MS_DEV_MODE: Duration := 60000
  const NO_DATA_RECONNECT_MS_DEV_MODE: Duration := 30000
  const DISCONNECTED_STALL_MS: Duration := 20000
  const REBUILD_DELAY_MS: Duration := 1500
  const ESTABLISHED_BACKOFF_CAP_MS: Duration := 5000
  const HINT_DELAY_MS: Duration := 250

  /** A handle returned by esp_mqtt_client_init; handles are never reused. */
  type Handle = nat
  datatype OptHandle = Null | Client(handle: Handle)

  /** The MQTT library client: `live` holds the handles initialised and not yet destroyed. */
  datatype Life = Life(client: OptHandle, live: set<Handle>, nextHandle: Handle, started: bool)

  datatype Flow = Flow(
    mqttConnected: bool,
    sessionEverEstablished: bool,
    receivedPayload: bool,
    subscriptionAcknowledged: bool,
    initialSyncSent: bool,
    delayedPushallSent: bool,
    firstPayloadObserved: bool)

  datatype Rebuild = Rebuild(requested: bool, force: bool, requestTick: Tick, delayTicks: Duration)

  datatype Timers = Timers(
    lastMessage: Tick,
    initialSync: Tick,
    connectionState: Tick,
    watchdogProbe: Tick,
    periodicPushall: Tick)

  /** credentialsReady is desired_connection_.is_ready(); devModeModel says that the detected model
      reports local status only in Developer Mode. */
  datatype Inputs = Inputs(
    networkReady: bool,
    reconfigureRequested: bool,
    credentialsReady: bool,
    devModeModel: bool)

  datatype Session = Session(
    life: Life, flow: Flow, rebuild: Rebuild, timers: Timers, inputs: Inputs, consecutiveErrors: nat)

  const NO_FLOW: Flow := Flow(false, false, false, false, false, false, false)
  const NO_REBUILD: Rebuild := Rebuild(false, false, 0, 0)

  /** A freshly constructed client. */
  const BOOT: Session := Session(
    Life(Null, {}, 0, false), NO_FLOW, NO_REBUILD, Timers(0, 0, 0, 0, 0), Inputs(false, false, false, false), 0)

  /** What a completed report payload does to the fields modelled here: a "print" object sets
      received_payload_, and both "print" and "info" may re-detect the model. */
  datatype Report = Report(isPrint: bool, devModeModel: bool)
  datatype OptReport = NoReport | Completed(report: Report)

  function NoDataProbe(devMode: bool): Duration {
    if devMode then NO_DATA_PROBE_MS_DEV_MODE else NO_DATA_PROBE_MS
  }

  function NoDataReconnect(devMode: bool): Duration {
    if devMode then NO_DATA_RECONNECT_MS_DEV_MODE else NO_DATA_RECONNECT_MS
  }

  // ----- rebuild scheduling and teardown

  function CappedDelay(established: bool, delay: Duration): Duration {
    var effective := if delay == 0 then REBUILD_DELAY_MS else delay;
    if established && effective > ESTABLISHED_BACKOFF_CAP_MS then ESTABLISHED_BACKOFF_CAP_MS else effective
  }

  /** A pending request keeps its schedule unless the new one is forced. */
  function Scheduled(r: Rebuild, established: bool, now: Tick, delay: Duration, force: bool): Rebuild {
    if r.requested && !force then r
    else Rebuild(true, r.force || force, now, CappedDelay(established, delay))
  }

  function ScheduleRebuild(s: Session, now: Tick, delay: Duration, force: bool): Session {
    s.(rebuild := Scheduled(s.rebuild, s.flow.sessionEverEstablished, now, delay, force))
  }

  function CancelRebuild(s: Session): Session {
    s.(rebuild := NO_REBUILD)
  }

  function Destroyed(l: Life): Life {
    Life(Null, if l.client.Client? then l.live - {l.client.handle} else l.live, l.nextHandle, false)
  }

  function StopClient(s: Session): Session {
    s.(life := Destroyed(s.life), flow := NO_FLOW, rebuild := NO_REBUILD,
       timers := Timers(0, 0, 0, 0, s.timers.periodicPushall))
  }

  // ----- MQTT event handlers

  function OnConnected(s: Session, now: Tick): Session {
    s.(flow := NO_FLOW.(mqttConnected := true, sessionEverEstablished := true),
       rebuild := NO_REBUILD,
       timers := Timers(now, 0, now, 0, s.timers.periodicPushall),
       consecutiveErrors := 0)
  }

  function OnSubscribed(s: Session, now: Tick): Session {
    s.(flow := s.flow.(subscriptionAcknowledged := true, initialSyncSent := true, delayedPushallSent := false),
       rebuild := NO_REBUILD,
       timers := s.timers.(initialSync := now, watchdogProbe := 0))
  }

  function OnDisconnected(s: Session, now: Tick): Session {
    var since := if s.flow.mqttConnected || s.timers.connectionState == 0 then now else s.timers.connectionState;
    s.(flow := s.flow.(mqttConnected := false, subscriptionAcknowledged := false, initialSyncSent := false,
                       delayedPushallSent := false),
       timers := s.timers.(initialSync := 0, connectionState := since, watchdogProbe := 0))
  }

  function OnReport(s: Session, now: Tick, report: Report): Session {
    s.(flow := s.flow.(firstPayloadObserved := true, receivedPayload := s.flow.receivedPayload || report.isPrint),
       rebuild := if s.flow.firstPayloadObserved then s.rebuild else NO_REBUILD,
       timers := s.timers.(lastMessage := now, watchdogProbe := 0),
       inputs := s.inputs.(devModeModel := report.devModeModel))
  }

  function ErrorBackoff(errors: nat): Duration {
    if errors <= 1 then 2000 else if errors <= 2 then 4000 else if errors <= 4 then 8000
    else if errors <= 6 then 15000 else 30000
  }

  function OnError(s: Session, now: Tick): Session {
    var down := OnDisconnected(s, now).(consecutiveErrors := s.consecutiveErrors + 1);
    ScheduleRebuild(down, now, ErrorBackoff(down.consecutiveErrors), false)
  }

  // ----- hints from other tasks

  function Configure(s: Session, ready: bool): Session {
    s.(inputs := s.inputs.(credentialsReady := ready, reconfigureRequested := true))
  }

  function CollapseBackoff(s: Session, now: Tick): Session {
    s.(consecutiveErrors := 0,
       rebuild := if s.rebuild.requested then s.rebuild.(requestTick := now, delayTicks := HINT_DELAY_MS)
                  else s.rebuild)
  }

  function SetNetworkReady(s: Session, now: Tick, ready: bool): Session {
    var updated := s.(inputs := s.inputs.(networkReady := ready));
    if ready && !s.inputs.networkReady then CollapseBackoff(updated, now) else updated
  }

  function NotifyCloudPresence(s: Session, now: Tick, online: bool): Session {
    if !online || s.flow.mqttConnected then s else CollapseBackoff(s, now)
  }

  // ----- one iteration of the client loop

  /** The iteration either ends early or goes on. */
  datatype Phase = Done(s: Session) | Onward(s: Session)

  function ReconfigurePhase(s: Session): Session {
    if s.inputs.reconfigureRequested then StopClient(s.(inputs := s.inputs.(reconfigureRequested := false))) else s
  }

  function RebuildPhase(s: Session, now: Tick): Phase {
    if !s.rebuild.requested then Onward(s)
    else if s.flow.mqttConnected && !s.rebuild.force then Onward(CancelRebuild(s))
    else if s.rebuild.requestTick == 0 || TickElapsed(s.rebuild.requestTick, now, s.rebuild.delayTicks)
    then Done(CancelRebuild(StopClient(s)))
    else Done(s)
  }

  function ReadinessPhase(s: Session): Phase {
    if !s.inputs.credentialsReady then Done(s.(inputs := s.inputs.(devModeModel := false)))
    else if !s.inputs.networkReady then Done(StopClient(s))
    else Onward(s)
  }

  /** The outcomes of esp_mqtt_client_init and esp_mqtt_client_start. */
  datatype Creation = InitFails | StartFails | Starts

  function CreatePhase(s: Session, now: Tick, creation: Creation): Phase {
    var l := s.life;
    if l.client.Client? then Onward(s)
    else if creation == InitFails then Done(s)
    else if creation == StartFails
    then Done(s.(life := l.(live := l.live - {l.nextHandle}, nextHandle := l.nextHandle + 1)))
    else Onward(s.(life := Life(Client(l.nextHandle), l.live + {l.nextHandle}, l.nextHandle + 1, true),
                   timers := s.timers.(connectionState := now, lastMessage := now)))
  }

  function InitialSyncPhase(s: Session, now: Tick): Session {
    var f := s.flow;
    var waiting := f.mqttConnected && f.subscriptionAcknowledged && f.initialSyncSent && !f.receivedPayload;
    var poked := f.delayedPushallSent || (waiting && TickElapsed(s.timers.initialSync, now, DELAYED_PUSHALL_MS));
    var after := s.(flow := f.(delayedPushallSent := poked));
    if waiting && poked && TickElapsed(s.timers.initialSync, now, INITIAL_SYNC_TIMEOUT_MS)
    then ScheduleRebuild(after, now, REBUILD_DELAY_MS, true) else after
  }

  datatype Verdict = Idle | Quiet | SendProbe | AwaitProbe | ForceReconnect

  /** The two-phase no-data watchdog. */
  function WatchdogVerdict(s: Session, now: Tick): Verdict {
    if !(s.flow.mqttConnected && s.flow.subscriptionAcknowledged && s.flow.receivedPayload) then Idle
    else if !TickElapsed(s.timers.lastMessage, now, NO_DATA_PROBE_MS) then Quiet
    else if !TickElapsed(s.timers.lastMessage, now, NoDataProbe(s.inputs.devModeModel)) then Idle
    else if s.timers.watchdogProbe == 0 then SendProbe
    else if TickElapsed(s.timers.watchdogProbe, now, NoDataReconnect(s.inputs.devModeModel)) then ForceReconnect
    else AwaitProbe
  }

  function WatchdogPhase(s: Session, now: Tick): Session {
    var verdict := WatchdogVerdict(s, now);
    var probe := if verdict == Quiet then 0 else if verdict == SendProbe then now else s.timers.watchdogProbe;
    var watched := s.(timers := s.timers.(watchdogProbe := probe));
    if verdict == ForceReconnect then ScheduleRebuild(watched, now, REBUILD_DELAY_MS, true) else watched
  }

  function StallBackoff(errors: nat): Duration {
    if errors <= 1 then REBUILD_DELAY_MS else if errors <= 2 then 4000 else if errors <= 4 then 8000
    else if errors <= 6 then 15000 else if errors <= 8 then 30000 else if errors <= 10 then 60000
    else if errors <= 12 then 120000 else 300000
  }

  function StallPhase(s: Session, now: Tick): Session {
    if s.life.client.Client? && !s.flow.mqttConnected
       && TickElapsed(s.timers.connectionState, now, DISCONNECTED_STALL_MS)
    then ScheduleRebuild(s, now, StallBackoff(s.consecutiveErrors), false) else s
  }

  function PeriodicPhase(s: Session, now: Tick): Session {
    var synced := s.flow.mqttConnected && s.flow.subscriptionAcknowledged && s.flow.receivedPayload;
    var last := s.timers.periodicPushall;
    var due := last == 0 || TickElapsed(last, now, PERIODIC_PUSHALL_MS);
    s.(timers := s.timers.(periodicPushall := if !synced then 0 else if due then now else last))
  }

  /** The part of the iteration up to and including client creation. */
  function ConnectPhases(s: Session, now: Tick, creation: Creation): Phase {
    match RebuildPhase(ReconfigurePhase(s), now)
    case Done(t) => Done(t)
    case Onward(t) =>
      match ReadinessPhase(t)
      case Done(u) => Done(u)
      case Onward(u) => CreatePhase(u, now, creation)
  }

  /** The timers checked at the end of the iteration. */
  function Monitors(s: Session, now: Tick): Session {
    PeriodicPhase(StallPhase(WatchdogPhase(InitialSyncPhase(s, now), now), now), now)
  }

  function LoopIteration(s: Session, now: Tick, creation: Creation): Session {
    match ConnectPhases(s, now, creation)
    case Done(t) => t
    case Onward(t) => Monitors(t, now)
  }

  /** What the watchdog decides in an iteration; Idle when the iteration ends before it. */
  function LoopVerdict(s: Session, now: Tick, creation: Creation): Verdict {
    match ConnectPhases(s, now, creation)
    case Done(_) => Idle
    case Onward(t) => WatchdogVerdict(InitialSyncPhase(t, now), now)
  }

  // ----- the whole machine

  datatype Step =
    | Connected(handle: Handle)
    | Subscribed(handle: Handle)
    | Disconnected(handle: Handle)
    | Data(handle: Handle, payload: OptReport)
    | Error(handle: Handle)
    | Reconfigure(ready: bool)
    | Network(ready: bool)
    | CloudPresence(online: bool)
    | Loop(creation: Creation)

  predicate FromCurrentClient(s: Session, handle: Handle) {
    s.life.client == Client(handle)
  }

  /** Events of any client but the current one are ignored. */
  function Next(s: Session, step: Step, now: Tick): Session {
    match step
    case Connected(h) => if FromCurrentClient(s, h) then OnConnected(s, now) else s
    case Subscribed(h) => if FromCurrentClient(s, h) then OnSubscribed(s, now) else s
    case Disconnected(h) => if FromCurrentClient(s, h) then OnDisconnected(s, now) else s
    case Data(h, payload) =>
      if FromCurrentClient(s, h) && payload.Completed? then OnReport(s, now, payload.report) else s
    case Error(h) => if FromCurrentClient(s, h) then OnError(s, now) else s
    case Reconfigure(ready) => Configure(s, ready)
    case Network(ready) => SetNetworkReady(s, now, ready)
    case CloudPresence(online) => NotifyCloudPresence(s, now, online)
    case Loop(creation) => LoopIteration(s, now, creation)
  }

  /** The broker acknowledges a subscription only on a connection it has accepted
      (MQTT 3.1.1, sections 3.1 and 3.8.4). */
  predicate Allowed(s: Session, step: Step) {
    step.Subscribed? && FromCurrentClient(s, step.handle) ==> s.flow.mqttConnected
  }

  datatype TimedStep = TimedStep(step: Step, time: nat)

  /** The state after a run, from boot. */
  function Run(run: seq<TimedStep>): Session {
    if run == [] then BOOT
    else
      var last := run[|run| - 1];
      Next(Run(run[..|run| - 1]), last.step, TickAt(last.time))
  }

  predicate ValidRun(run: seq<TimedStep>) {
    run == [] ||
    var init, last := run[..|run| - 1], run[|run| - 1];
    && ValidRun(init)
    && Allowed(Run(init), last.step)
    && (init != [] ==> init[|init| - 1].time <= last.time)
  }
}
