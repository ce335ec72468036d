/** What each event and each loop iteration comes to, in the protocol's own numbers: the windows in
    milliseconds, the back-off ladders as lists, and the session that results. */
module SessionOutcomes {
  import opened Ticks
  import opened MqttSession

  // ----- back-off ladders

  /** Milliseconds to wait after so many errors in a row, and from the last entry on. */
  const ERROR_LADDER: seq<Duration> := [2000, 2000, 4000, 8000, 8000, 15000, 15000, 30000]
  const STALL_LADDER: seq<Duration> :=
    [1500, 1500, 4000, 8000, 8000, 15000, 15000, 30000, 30000, 60000, 60000, 120000, 120000, 300000]

  function Rung(ladder: seq<Duration>, errors: nat): Duration
    requires ladder != []
  {
    ladder[if errors < |ladder| then errors else |ladder| - 1]
  }

  /** Once a session has been up, no wait is longer than five seconds. */
  function Capped(established: bool, delay: Duration): Duration {
    if established && delay > 5000 then 5000 else delay
  }

  const NOT_PENDING := Rebuild(false, false, 0, 0)
  const NOTHING_SEEN := Flow(false, false, false, false, false, false, false)

  // ----- events

  lemma ConnectedOutcome(s: Session, h: Handle, now: Tick)
    requires s.life.client == Client(h)
    ensures Next(s, Connected(h), now) ==
            Session(s.life, Flow(true, true, false, false, false, false, false), NOT_PENDING,
                    Timers(now, 0, now, 0, s.timers.periodicPushall), s.inputs, 0)
  {
  }

  /** The acknowledgement is answered with the initial sync at once, and any rebuild is called off. */
  lemma SubscribedOutcome(s: Session, h: Handle, now: Tick)
    requires s.life.client == Client(h)
    ensures var f, t := s.flow, s.timers;
      Next(s, Subscribed(h), now) ==
      Session(s.life, Flow(f.mqttConnected, f.sessionEverEstablished, f.receivedPayload, true, true, false,
                           f.firstPayloadObserved),
              NOT_PENDING, Timers(t.lastMessage, now, t.connectionState, 0, t.periodicPushall), s.inputs,
              s.consecutiveErrors)
  {
  }

  /** A lost connection keeps what was learnt, and the stall clock of one that was down already. */
  lemma DisconnectedOutcome(s: Session, h: Handle, now: Tick)
    requires s.life.client == Client(h)
    ensures var f, t := s.flow, s.timers;
      var since := if f.mqttConnected then now else if t.connectionState == 0 then now else t.connectionState;
      Next(s, Disconnected(h), now) ==
      Session(s.life, Flow(false, f.sessionEverEstablished, f.receivedPayload, false, false, false,
                           f.firstPayloadObserved),
              s.rebuild, Timers(t.lastMessage, 0, since, 0, t.periodicPushall), s.inputs, s.consecutiveErrors)
  {
  }

  /** Any whole report ends the silence; the first one calls off a rebuild, a status report ends the wait
      for the first status. */
  lemma DataOutcome(s: Session, h: Handle, payload: OptReport, now: Tick)
    requires s.life.client == Client(h)
    ensures var f, t := s.flow, s.timers;
      Next(s, Data(h, payload), now) ==
      match payload
      case NoReport => s
      case Completed(report) =>
        Session(s.life, Flow(f.mqttConnected, f.sessionEverEstablished, f.receivedPayload || report.isPrint,
                             f.subscriptionAcknowledged, f.initialSyncSent, f.delayedPushallSent, true),
                if f.firstPayloadObserved then s.rebuild else NOT_PENDING,
                Timers(now, t.initialSync, t.connectionState, 0, t.periodicPushall),
                Inputs(s.inputs.networkReady, s.inputs.reconfigureRequested, s.inputs.credentialsReady,
                       report.devModeModel),
                s.consecutiveErrors)
  {
  }

  /** An error drops the session like a disconnection, counts, and asks for a rebuild after the rung of the
      ladder the count has reached, unless one is pending. */
  lemma ErrorOutcome(s: Session, h: Handle, now: Tick)
    requires s.life.client == Client(h)
    ensures var down, n := Next(s, Disconnected(h), now), s.consecutiveErrors + 1;
      Next(s, Error(h), now) ==
      Session(down.life, down.flow,
              if s.rebuild.requested then s.rebuild
              else Rebuild(true, s.rebuild.force, now, Capped(s.flow.sessionEverEstablished, Rung(ERROR_LADDER, n))),
              down.timers, down.inputs, n)
  {
    LaddersAgree(s.consecutiveErrors + 1);
  }

  lemma LaddersAgree(errors: nat)
    ensures ErrorBackoff(errors) == Rung(ERROR_LADDER, errors) && StallBackoff(errors) == Rung(STALL_LADDER, errors)
  {
    assert errors in {0, 1, 2, 3, 4, 5, 6, 7, 8, 9, 10, 11, 12} || errors > 12;
  }

  /** Nothing that comes from a client that was replaced has any effect. */
  lemma StaleEventsDoNothing(s: Session, h: Handle, payload: OptReport, now: Tick)
    requires s.life.client != Client(h)
    ensures Next(s, Connected(h), now) == Next(s, Subscribed(h), now) == Next(s, Disconnected(h), now) == s
    ensures Next(s, Data(h, payload), now) == Next(s, Error(h), now) == s
  {
  }

  // ----- hints

  /** A pending rebuild starts over with a quarter of a second to wait, and the errors are forgiven. */
  function Hurried(s: Session, now: Tick): Session {
    Session(s.life, s.flow,
            if s.rebuild.requested then Rebuild(true, s.rebuild.force, now, 250) else s.rebuild,
            s.timers, s.inputs, 0)
  }

  lemma HintOutcomes(s: Session, ready: bool, now: Tick)
    ensures var i := s.inputs;
      && Next(s, Reconfigure(ready), now) ==
         Session(s.life, s.flow, s.rebuild, s.timers, Inputs(i.networkReady, true, ready, i.devModeModel),
                 s.consecutiveErrors)
      && (var told := Session(s.life, s.flow, s.rebuild, s.timers,
                              Inputs(ready, i.reconfigureRequested, i.credentialsReady, i.devModeModel),
                              s.consecutiveErrors);
          Next(s, Network(ready), now) == if ready && !i.networkReady then Hurried(told, now) else told)
      && Next(s, CloudPresence(ready), now) == if ready && !s.flow.mqttConnected then Hurried(s, now) else s
  {
  }

  // ----- the start of an iteration

  /** Everything of the session is gone; what it was told and how often it failed is kept. */
  function TornDown(s: Session): Session {
    var left := if s.life.client.Client? then s.life.live - {s.life.client.handle} else s.life.live;
    Session(Life(Null, left, s.life.nextHandle, false), NOTHING_SEEN, NOT_PENDING,
            Timers(0, 0, 0, 0, s.timers.periodicPushall), s.inputs, s.consecutiveErrors)
  }

  predicate Told(s: Session) {
    s.inputs.credentialsReady && s.inputs.networkReady && !s.inputs.reconfigureRequested
  }

  /** A new configuration is taken up by tearing the session down and going on from there. */
  lemma ReconfigureOutcome(s: Session, c: Creation, now: Tick)
    requires s.inputs.reconfigureRequested
    ensures var i := s.inputs;
      Next(s, Loop(c), now) ==
      Next(TornDown(s).(inputs := Inputs(i.networkReady, false, i.credentialsReady, i.devModeModel)), Loop(c), now)
  {
    hide Monitors, CreatePhase;
  }

  /** A pending rebuild holds everything up until it is due, and then takes the session down; a healthy
      session waits for none but a forced one. */
  lemma PendingRebuildOutcome(s: Session, c: Creation, now: Tick)
    requires !s.inputs.reconfigureRequested && s.rebuild.requested
    ensures s.flow.mqttConnected && !s.rebuild.force ==>
              Next(s, Loop(c), now) == Next(s.(rebuild := NOT_PENDING), Loop(c), now)
    ensures !s.flow.mqttConnected || s.rebuild.force ==>
              Next(s, Loop(c), now) ==
              if s.rebuild.requestTick == 0 || TickElapsed(s.rebuild.requestTick, now, s.rebuild.delayTicks)
              then TornDown(s) else s
  {
    hide Monitors, CreatePhase, TickElapsed;
  }

  /** Without credentials nothing is done but to forget the model; without network the session goes. */
  lemma UnreadyOutcome(s: Session, c: Creation, now: Tick)
    requires !s.inputs.reconfigureRequested && !s.rebuild.requested
    ensures !s.inputs.credentialsReady ==>
              Next(s, Loop(c), now) ==
              s.(inputs := Inputs(s.inputs.networkReady, false, false, false))
    ensures s.inputs.credentialsReady && !s.inputs.networkReady ==> Next(s, Loop(c), now) == TornDown(s)
  {
  }

  /** With no client a fresh one is made; if that fails, nothing is left of it but the used-up handle. */
  lemma CreationOutcome(s: Session, c: Creation, now: Tick)
    requires Told(s) && !s.rebuild.requested && s.life.client.Null? && s.flow == NOTHING_SEEN
    requires s.life.nextHandle !in s.life.live
    ensures var n, t := s.life.nextHandle, s.timers;
      match c
      case InitFails => Next(s, Loop(c), now) == s
      case StartFails => Next(s, Loop(c), now) == s.(life := Life(Null, s.life.live, n + 1, s.life.started))
      case Starts =>
        Next(s, Loop(c), now) ==
        s.(life := Life(Client(n), s.life.live + {n}, n + 1, true),
           timers := Timers(now, t.initialSync, now, t.watchdogProbe, 0))
  {
    assert !TickElapsed(now, now, DISCONNECTED_STALL_MS);
    assert s.life.live - {s.life.nextHandle} == s.life.live;
  }

  // ----- the end of an iteration

  predicate Up(s: Session) {
    Told(s) && !s.rebuild.requested && s.life.client.Client?
  }

  /** A client that does not come up is rebuilt twenty seconds after it went down, slower every time. */
  lemma StallOutcome(s: Session, c: Creation, now: Tick)
    requires Up(s) && !s.flow.mqttConnected
    ensures var t := s.timers;
      var stalled := TickElapsed(t.connectionState, now, 20000);
      Next(s, Loop(c), now) ==
      Session(s.life, s.flow,
              if stalled
              then Rebuild(true, s.rebuild.force, now,
                           Capped(s.flow.sessionEverEstablished, Rung(STALL_LADDER, s.consecutiveErrors)))
              else s.rebuild,
              Timers(t.lastMessage, t.initialSync, t.connectionState, t.watchdogProbe, 0), s.inputs,
              s.consecutiveErrors)
  {
    hide TickElapsed, Rung;
    LaddersAgree(s.consecutiveErrors);
  }

  /** A session without a first status asks once more after three seconds and gives up after twelve. */
  lemma FirstStatusOutcome(s: Session, c: Creation, now: Tick)
    requires Up(s) && s.flow.mqttConnected && s.flow.subscriptionAcknowledged && s.flow.initialSyncSent
    requires !s.flow.receivedPayload
    ensures var f, t := s.flow, s.timers;
      var asked := f.delayedPushallSent || TickElapsed(t.initialSync, now, 3000);
      Next(s, Loop(c), now) ==
      Session(s.life, Flow(true, f.sessionEverEstablished, false, true, true, asked, f.firstPayloadObserved),
              if asked && TickElapsed(t.initialSync, now, 12000) then Rebuild(true, true, now, 1500) else s.rebuild,
              Timers(t.lastMessage, t.initialSync, t.connectionState, t.watchdogProbe, 0), s.inputs,
              s.consecutiveErrors)
  {
    hide TickElapsed;
  }

  /** The silence after which a probe is sent, and the silence after the probe that ends the session. */
  function ProbeAfter(devMode: bool): Duration { if devMode then 60000 else 30000 }

  function ReconnectAfter(devMode: bool): Duration { if devMode then 30000 else 15000 }

  /** A session with status is probed when it falls silent and dropped when the probe is not answered. */
  lemma SilenceOutcome(s: Session, c: Creation, now: Tick)
    requires Up(s) && s.flow.mqttConnected && s.flow.subscriptionAcknowledged && s.flow.receivedPayload
    ensures var t, dev := s.timers, s.inputs.devModeModel;
      var silent := TickElapsed(t.lastMessage, now, ProbeAfter(dev));
      var probe := if !TickElapsed(t.lastMessage, now, 30000) then 0
                   else if silent && t.watchdogProbe == 0 then now else t.watchdogProbe;
      var dead := silent && t.watchdogProbe != 0 && TickElapsed(t.watchdogProbe, now, ReconnectAfter(dev));
      var pushed := if t.periodicPushall == 0 || TickElapsed(t.periodicPushall, now, 60000) then now
                    else t.periodicPushall;
      Next(s, Loop(c), now) ==
      Session(s.life, s.flow, if dead then Rebuild(true, true, now, 1500) else s.rebuild,
              Timers(t.lastMessage, t.initialSync, t.connectionState, probe, pushed), s.inputs, s.consecutiveErrors)
  {
    LongSilenceIsSilence(s.timers.lastMessage, now);
    hide TickElapsed;
  }

  lemma LongSilenceIsSilence(start: Tick, now: Tick)
    ensures TickElapsed(start, now, 60000) ==> TickElapsed(start, now, 30000)
  {
  }

  /** Between connection and acknowledgement no monitor acts. */
  lemma AwaitingAcknowledgement(s: Session, c: Creation, now: Tick)
    requires Up(s) && s.flow.mqttConnected && !s.flow.subscriptionAcknowledged
    ensures var t := s.timers;
      Next(s, Loop(c), now) ==
      s.(timers := Timers(t.lastMessage, t.initialSync, t.connectionState, t.watchdogProbe, 0))
  {
    hide TickElapsed;
  }

  /** A session with status, whose end has not been asked for yet. */
  predicate Listening(s: Session) {
    && Told(s) && s.life.client.Client? && !s.rebuild.force
    && s.flow.mqttConnected && s.flow.subscriptionAcknowledged && s.flow.receivedPayload
  }

  /** What an iteration makes of such a session, an ordinary pending rebuild or not. */
  lemma ListeningOutcome(s: Session, c: Creation, now: Tick)
    requires Listening(s)
    ensures var u, t, dev := Next(s, Loop(c), now), s.timers, s.inputs.devModeModel;
      var silent := TickElapsed(t.lastMessage, now, ProbeAfter(dev));
      var dead := silent && t.watchdogProbe != 0 && TickElapsed(t.watchdogProbe, now, ReconnectAfter(dev));
      && u.life == s.life && u.flow == s.flow && u.inputs == s.inputs && u.timers.lastMessage == t.lastMessage
      && (silent ==> u.timers.watchdogProbe == if t.watchdogProbe == 0 then now else t.watchdogProbe)
      && (dead ==> u.rebuild == Rebuild(true, true, now, 1500))
      && (!dead ==> !u.rebuild.force)
  {
    hide Next, TickElapsed, ProbeAfter, ReconnectAfter;
    var clean := if s.rebuild.requested then s.(rebuild := NOT_PENDING) else s;
    if s.rebuild.requested {
      PendingRebuildOutcome(s, c, now);
    }
    SilenceOutcome(clean, c, now);
    ProbeWindowIsLong(s.timers.lastMessage, now, s.inputs.devModeModel);
  }

  lemma ProbeWindowIsLong(start: Tick, now: Tick, devMode: bool)
    ensures TickElapsed(start, now, ProbeAfter(devMode)) ==> TickElapsed(start, now, 30000)
  {
  }
}
