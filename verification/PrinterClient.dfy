/** The printer client object itself: its handlers and its task loop update fields in place, and
    each is proved to perform exactly one step of the session machine. Every method runs
    atomically, at the tick it is given. */
module PrinterClientObject {
  import opened Ticks
  import opened MqttSession

  class PrinterClient {
    var life: Life
    var flow: Flow
    var rebuild: Rebuild
    var timers: Timers
    var inputs: Inputs
    var consecutiveErrors: nat

    ghost function View(): Session
      reads this
    {
      Session(life, flow, rebuild, timers, inputs, consecutiveErrors)
    }

    constructor ()
      ensures View() == BOOT
    {
      life := Life(Null, {}, 0, false);
      flow := NO_FLOW;
      rebuild := NO_REBUILD;
      timers := Timers(0, 0, 0, 0, 0);
      inputs := Inputs(false, false, false, false);
      consecutiveErrors := 0;
    }

    method ScheduleClientRebuild(now: Tick, delay: Duration, force: bool)
      modifies this
      ensures View() == ScheduleRebuild(old(View()), now, delay, force)
    {
      var effective := if delay == 0 then REBUILD_DELAY_MS else delay;
      if flow.sessionEverEstablished && effective > ESTABLISHED_BACKOFF_CAP_MS {
        effective := ESTABLISHED_BACKOFF_CAP_MS;
      }
      if force {
        rebuild := rebuild.(force := true);
      }
      var pending := rebuild.requested;
      rebuild := rebuild.(requested := true);
      if pending {
        if force {
          rebuild := rebuild.(requestTick := now, delayTicks := effective);
        }
        return;
      }
      rebuild := rebuild.(requestTick := now, delayTicks := effective);
    }

    method CancelClientRebuild()
      modifies this
      ensures View() == CancelRebuild(old(View()))
    {
      rebuild := rebuild.(requested := false, force := false, requestTick := 0, delayTicks := 0);
    }

    method Stop()
      modifies this
      ensures View() == StopClient(old(View()))
    {
      flow := flow.(mqttConnected := false, sessionEverEstablished := false, receivedPayload := false,
                    subscriptionAcknowledged := false, initialSyncSent := false, delayedPushallSent := false,
                    firstPayloadObserved := false);
      life := life.(started := false);
      rebuild := rebuild.(requested := false, force := false);
      timers := timers.(lastMessage := 0, initialSync := 0, connectionState := 0, watchdogProbe := 0);
      rebuild := rebuild.(requestTick := 0, delayTicks := 0);
      if life.client.Client? {
        life := life.(live := life.live - {life.client.handle}, client := Null);
      }
    }

    // ----- MQTT events

    method HandleConnected(handle: Handle, now: Tick)
      modifies this
      ensures View() == Next(old(View()), Connected(handle), now)
    {
      if life.client != Client(handle) {
        return;
      }
      CancelClientRebuild();
      consecutiveErrors := 0;
      flow := flow.(mqttConnected := true, sessionEverEstablished := true, receivedPayload := false,
                    subscriptionAcknowledged := false, initialSyncSent := false, delayedPushallSent := false,
                    firstPayloadObserved := false);
      timers := timers.(initialSync := 0, connectionState := now, watchdogProbe := 0, lastMessage := now);
    }

    method HandleSubscribed(handle: Handle, now: Tick)
      modifies this
      ensures View() == Next(old(View()), Subscribed(handle), now)
    {
      if life.client != Client(handle) {
        return;
      }
      CancelClientRebuild();
      flow := flow.(subscriptionAcknowledged := true, initialSyncSent := true, delayedPushallSent := false);
      timers := timers.(initialSync := now, watchdogProbe := 0);
    }

    method DropSession(now: Tick)
      modifies this
      ensures View() == OnDisconnected(old(View()), now)
    {
      var wasConnected := flow.mqttConnected;
      flow := flow.(mqttConnected := false, subscriptionAcknowledged := false, initialSyncSent := false,
                    delayedPushallSent := false);
      timers := timers.(initialSync := 0);
      if wasConnected || timers.connectionState == 0 {
        timers := timers.(connectionState := now);
      }
      timers := timers.(watchdogProbe := 0);
    }

    method HandleDisconnected(handle: Handle, now: Tick)
      modifies this
      ensures View() == Next(old(View()), Disconnected(handle), now)
    {
      if life.client == Client(handle) {
        DropSession(now);
      }
    }

    method HandleData(handle: Handle, payload: OptReport, now: Tick)
      modifies this
      ensures View() == Next(old(View()), Data(handle, payload), now)
    {
      if life.client != Client(handle) || payload.NoReport? {
        return;
      }
      if !flow.firstPayloadObserved {
        CancelClientRebuild();
      }
      flow := flow.(firstPayloadObserved := true);
      timers := timers.(lastMessage := now, watchdogProbe := 0);
      if payload.report.isPrint {
        flow := flow.(receivedPayload := true);
      }
      inputs := inputs.(devModeModel := payload.report.devModeModel);
    }

    method HandleError(handle: Handle, now: Tick)
      modifies this
      ensures View() == Next(old(View()), Error(handle), now)
    {
      if life.client != Client(handle) {
        return;
      }
      DropSession(now);
      consecutiveErrors := consecutiveErrors + 1;
      ScheduleClientRebuild(now, ErrorBackoff(consecutiveErrors), false);
    }

    // ----- hints

    method ConfigureConnection(ready: bool)
      modifies this
      ensures View() == Configure(old(View()), ready)
    {
      inputs := inputs.(credentialsReady := ready, reconfigureRequested := true);
    }

    method SetNetwork(ready: bool, now: Tick)
      modifies this
      ensures View() == SetNetworkReady(old(View()), now, ready)
    {
      var previous := inputs.networkReady;
      inputs := inputs.(networkReady := ready);
      if ready && !previous {
        consecutiveErrors := 0;
        if rebuild.requested {
          rebuild := rebuild.(requestTick := now, delayTicks := HINT_DELAY_MS);
        }
      }
    }

    method CloudPresenceHint(online: bool, now: Tick)
      modifies this
      ensures View() == NotifyCloudPresence(old(View()), now, online)
    {
      if !online || flow.mqttConnected {
        return;
      }
      consecutiveErrors := 0;
      if rebuild.requested {
        rebuild := rebuild.(requestTick := now, delayTicks := HINT_DELAY_MS);
      }
    }

    // ----- the client loop

    /** Reconfiguration, pending rebuilds, readiness and client creation; true when the
        iteration goes on to the monitors. */
    method Connect(now: Tick, creation: Creation) returns (onward: bool)
      modifies this
      ensures ConnectPhases(old(View()), now, creation) == if onward then Onward(View()) else Done(View())
    {
      hide StopClient, CancelRebuild, TickElapsed;
      if inputs.reconfigureRequested {
        inputs := inputs.(reconfigureRequested := false);
        Stop();
      }
      if rebuild.requested {
        if flow.mqttConnected && !rebuild.force {
          CancelClientRebuild();
        } else {
          if rebuild.requestTick == 0 || TickElapsed(rebuild.requestTick, now, rebuild.delayTicks) {
            Stop();
            CancelClientRebuild();
          }
          return false;
        }
      }
      onward := Establish(now, creation);
    }

    method Establish(now: Tick, creation: Creation) returns (onward: bool)
      modifies this
      ensures
        (if onward then Onward(View()) else Done(View())) ==
        match ReadinessPhase(old(View())) { case Done(u) => Done(u) case Onward(u) => CreatePhase(u, now, creation) }
    {
      if !inputs.credentialsReady {
        inputs := inputs.(devModeModel := false);
        return false;
      }
      if !inputs.networkReady {
        Stop();
        return false;
      }
      if life.client.Null? {
        if creation == InitFails {
          return false;
        }
        ghost var before := life.live;
        life := life.(client := Client(life.nextHandle), live := life.live + {life.nextHandle},
                      nextHandle := life.nextHandle + 1);
        if creation == StartFails {
          life := life.(live := life.live - {life.client.handle}, client := Null);
          assert life.live == before - {life.nextHandle - 1};
          return false;
        }
        life := life.(started := true);
        timers := timers.(connectionState := now, lastMessage := now);
      }
      onward := true;
    }

    method CheckInitialSync(now: Tick)
      modifies this
      ensures View() == InitialSyncPhase(old(View()), now)
    {
      hide TickElapsed;
      if flow.mqttConnected && flow.subscriptionAcknowledged && flow.initialSyncSent && !flow.receivedPayload
         && !flow.delayedPushallSent {
        if TickElapsed(timers.initialSync, now, DELAYED_PUSHALL_MS) {
          flow := flow.(delayedPushallSent := true);
        }
      }
      if flow.mqttConnected && flow.subscriptionAcknowledged && flow.initialSyncSent && !flow.receivedPayload
         && flow.delayedPushallSent {
        if TickElapsed(timers.initialSync, now, INITIAL_SYNC_TIMEOUT_MS) {
          ScheduleClientRebuild(now, REBUILD_DELAY_MS, true);
        }
      }
    }

    method CheckWatchdog(now: Tick)
      modifies this
      ensures View() == WatchdogPhase(old(View()), now)
    {
      hide TickElapsed, ScheduleRebuild;
      if flow.mqttConnected && flow.subscriptionAcknowledged && flow.receivedPayload {
        if TickElapsed(timers.lastMessage, now, NO_DATA_PROBE_MS) {
          if TickElapsed(timers.lastMessage, now, NoDataProbe(inputs.devModeModel)) {
            if timers.watchdogProbe == 0 {
              timers := timers.(watchdogProbe := now);
            } else if TickElapsed(timers.watchdogProbe, now, NoDataReconnect(inputs.devModeModel)) {
              ScheduleClientRebuild(now, REBUILD_DELAY_MS, true);
            }
          }
        } else {
          timers := timers.(watchdogProbe := 0);
        }
      }
    }

    method CheckStall(now: Tick)
      modifies this
      ensures View() == StallPhase(old(View()), now)
    {
      hide TickElapsed, ScheduleRebuild, StallBackoff;
      if life.client.Client? && !flow.mqttConnected && TickElapsed(timers.connectionState, now, DISCONNECTED_STALL_MS) {
        ScheduleClientRebuild(now, StallBackoff(consecutiveErrors), false);
      }
    }

    method CheckPeriodicPushall(now: Tick)
      modifies this
      ensures View() == PeriodicPhase(old(View()), now)
    {
      hide TickElapsed;
      if flow.mqttConnected && flow.subscriptionAcknowledged && flow.receivedPayload {
        if timers.periodicPushall == 0 {
          timers := timers.(periodicPushall := now);
        } else if TickElapsed(timers.periodicPushall, now, PERIODIC_PUSHALL_MS) {
          timers := timers.(periodicPushall := now);
        }
      } else {
        timers := timers.(periodicPushall := 0);
      }
    }

    /** One pass of the client loop. */
    method LoopOnce(now: Tick, creation: Creation)
      modifies this
      ensures View() == Next(old(View()), Loop(creation), now)
    {
      hide ConnectPhases, InitialSyncPhase, WatchdogPhase, StallPhase, PeriodicPhase, View;
      var onward := Connect(now, creation);
      if onward {
        CheckInitialSync(now);
        CheckWatchdog(now);
        CheckStall(now);
        CheckPeriodicPushall(now);
      }
    }
  }
}
