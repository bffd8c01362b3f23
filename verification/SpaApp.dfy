/** The application logic as the firmware runs it, with its fields updated in place. */
module SpaApplication {
  import opened Bytes
  import opened Protocol
  import Tracking
  import Timers
  import opened Spa

  class SpaApp {
    var registration: Registration
    var registrationStartedAt: Option<nat>
    const cmdTracker: Tracking.CommandTracker
    var commandQueue: seq<Command>
    ghost var tickets: Queue
    const pumpTimers: Timers.PumpTimerManager
    const holdTimer: Timers.HoldModeTimer
    var lastStatus: Option<Status>
    var lastFault: Option<string>
    var clientId: Option<u8>
    var lastStatusTime: Option<nat>
    var lastProbeTime: Option<nat>
    var lastDiagTime: Option<nat>
    var wasStale: bool
    var framesReceived: nat
    var unregisteredFramesReceived: nat
    var noQueryAlertSent: bool
    const bootTime: nat
    var failedRegistrationAttempts: u8
    var lastCtsTime: Option<nat>

    /** The ghost tickets describe the queue entry by entry. */
    ghost predicate Valid()
      reads this, cmdTracker, pumpTimers, holdTimer
    {
      && pumpTimers.Valid()
      && |tickets.entries| == |commandQueue|
      && forall i :: 0 <= i < |commandQueue| ==> tickets.entries[i].command == commandQueue[i]
    }

    ghost function LinkModel(): Link
      reads this
    {
      Link(registration, registrationStartedAt, clientId, lastCtsTime, failedRegistrationAttempts, noQueryAlertSent,
           unregisteredFramesReceived)
    }

    ghost function WorkModel(): Work
      requires pumpTimers.Valid()
      reads this, cmdTracker, pumpTimers
    {
      Work(cmdTracker.Model(), tickets, pumpTimers.timers)
    }

    ghost function HealthModel(): Health
      reads this
    {
      Health(lastStatus, lastFault, lastStatusTime, lastProbeTime, wasStale, framesReceived)
    }

    ghost function Model(): App
      requires pumpTimers.Valid()
      reads this, cmdTracker, pumpTimers, holdTimer
    {
      App(LinkModel(), WorkModel(), HealthModel(), holdTimer.Model(), lastDiagTime, bootTime)
    }

    constructor (now: nat, hash: (u8, u8), previous: Option<u8>)
      ensures Valid() && fresh(cmdTracker) && fresh(pumpTimers) && fresh(holdTimer)
      ensures Model() == Boot(now, hash, previous)
    {
      registration := Registration(WaitingForQuery, hash, previous);
      registrationStartedAt := None;
      cmdTracker := new Tracking.CommandTracker();
      commandQueue := [];
      tickets := Queue([], 0);
      pumpTimers := new Timers.PumpTimerManager();
      holdTimer := new Timers.HoldModeTimer(Timers.DEFAULT_HOLD_MODE_TIMEOUT_MS);
      lastStatus := None;
      lastFault := None;
      clientId := None;
      lastStatusTime := None;
      lastProbeTime := None;
      lastDiagTime := None;
      wasStale := false;
      framesReceived := 0;
      unregisteredFramesReceived := 0;
      noQueryAlertSent := false;
      bootTime := now;
      failedRegistrationAttempts := 0;
      lastCtsTime := None;
    }

    // ---- The queue --------------------------------------------------------------------

    method PushBack(command: Command, ghost origin: Origin)
      requires Valid()
      modifies this`commandQueue, this`tickets
      ensures Valid() && tickets == old(tickets).Push(command, origin)
    {
      commandQueue := commandQueue + [command];
      tickets := tickets.Push(command, origin);
    }

    method PushBackAll(commands: seq<Command>, ghost origin: Origin)
      requires Valid()
      modifies this`commandQueue, this`tickets
      ensures Valid() && tickets == old(tickets).PushAll(commands, origin)
    {
      for i := 0 to |commands|
        invariant Valid() && tickets == old(tickets).PushAll(commands[..i], origin)
      {
        PushBack(commands[i], origin);
        assert commands[..i + 1][..i] == commands[..i];
      }
      assert commands[..|commands|] == commands;
    }

    /** Append a command from MQTT, or count it as dropped. */
    method QueueOrDrop(command: Command)
      requires Valid()
      modifies this`commandQueue, this`tickets, cmdTracker
      ensures Valid() && tickets == old(tickets).Offer(command)
      ensures cmdTracker.Model() == if old(tickets).IsFull() then old(cmdTracker.Model()).RecordDropped()
                                    else old(cmdTracker.Model())
    {
      if |commandQueue| >= MAX_COMMAND_QUEUE {
        cmdTracker.RecordDropped();
      } else {
        PushBack(command, FromMqtt);
      }
    }

    /** The index of the first queued command that matches, or the length of the queue. */
    method IndexOf(w: Wanted) returns (i: nat)
      requires Valid()
      ensures i == Find(tickets.entries, w)
    {
      i := 0;
      while i < |commandQueue|
        invariant i <= Find(tickets.entries, w)
      {
        if w.Matches(commandQueue[i]) {
          return;
        }
        i := i + 1;
      }
    }

    /** Queue the clock mode ahead of a 24-hour time, unless it is queued already. */
    method QueueClockMode(command: Command)
      requires Valid()
      modifies this`commandQueue, this`tickets, cmdTracker
      ensures Valid() && tickets == WithClockMode(old(tickets), command)
      ensures cmdTracker.Model() == if NeedsClockMode(old(tickets), command) && old(tickets).IsFull()
                                    then old(cmdTracker.Model()).RecordDropped() else old(cmdTracker.Model())
    {
      if command.SetTime? && command.is24h {
        var c := IndexOf(AnyClockMode);
        if c == |commandQueue| {
          QueueOrDrop(SetPreference(CLOCK_MODE, 1));
        }
      }
    }

    /** Cancel a queued toggle of the same item, or append the command. */
    method CancelOrQueue(command: Command)
      requires Valid()
      modifies this`commandQueue, this`tickets, cmdTracker
      ensures Valid()
      ensures var i := if command.Toggle? then Find(old(tickets).entries, TheToggle(command.item)) else |old(tickets).entries|;
              && tickets == (if i < |old(tickets).entries| then old(tickets).Without(i) else old(tickets).Offer(command))
              && cmdTracker.Model() == (if i == |old(tickets).entries| && old(tickets).IsFull()
                                        then old(cmdTracker.Model()).RecordDropped() else old(cmdTracker.Model()))
    {
      if command.Toggle? {
        var i := IndexOf(TheToggle(command.item));
        if i < |commandQueue| {
          commandQueue := commandQueue[..i] + commandQueue[i + 1..];
          tickets := tickets.Without(i);
          return;
        }
      }
      QueueOrDrop(command);
    }

    method OnMqttCommand(command: Command)
      requires Valid()
      modifies this`commandQueue, this`tickets, cmdTracker
      ensures Valid() && WorkModel() == Spa.OnMqttCommand(old(WorkModel()), command)
    {
      if command.SetTemperature? {
        var t := IndexOf(AnyTemperature);
        if t < |commandQueue| {
          commandQueue := commandQueue[t := command];
          tickets := tickets.(entries := tickets.entries[t := tickets.entries[t].(command := command)]);
          return;
        }
      }
      QueueClockMode(command);
      CancelOrQueue(command);
    }

    // ---- Frames -----------------------------------------------------------------------

    method HandleRegistration(now: nat, message: Option<RegistrationMessage>) returns (actions: seq<Action>)
      requires !registration.IsRegistered()
      modifies this`registration, this`registrationStartedAt, this`clientId, this`failedRegistrationAttempts,
               this`unregisteredFramesReceived
      ensures (LinkModel(), actions) == OnUnregistered(old(LinkModel()), now, message)
    {
      unregisteredFramesReceived := unregisteredFramesReceived + 1;
      actions := [];
      if message.None? {
        return;
      }
      var (after, action) := registration.Process(message.value);
      registration := after;
      match action {
        case SendNewClientResponse =>
          registrationStartedAt := Some(now);
        case SendClientIdAck(id) =>
          actions := [SendAck(id)];
          clientId := Some(id);
          registrationStartedAt := None;
          failedRegistrationAttempts := 0;
        case SendExistingClientRequest(channel) =>
          actions := [SendExistingRequest(channel)];
          registrationStartedAt := Some(now);
        case NoAction =>
      }
    }

    /** Queue what the tracker wants sent again and what the timers ask for. */
    method UpdateWork(now: nat, status: Status)
      requires Valid()
      modifies this`commandQueue, this`tickets, cmdTracker, pumpTimers, holdTimer
      ensures Valid() && holdTimer.Model() == old(holdTimer.Model()).Tick(now, status.isHold).0
      ensures WorkModel() == WorkOnStatus(old(WorkModel()), now, status, old(holdTimer.Model()).Tick(now, status.isHold).1)
    {
      var retries, dropped := cmdTracker.Verify(status, now);
      PushBackAll(retries, FromRetry);
      var expired := pumpTimers.TickAll(now, status.pumps);
      PushBackAll(expired, FromTimer);
      var release := holdTimer.Tick(now, status.isHold);
      if release.Some? {
        PushBack(release.value, FromTimer);
      }
    }

    method NoteStatus(now: nat, status: Status) returns (recovering: bool)
      modifies this`framesReceived, this`lastStatus, this`lastStatusTime, this`lastProbeTime, this`wasStale
      ensures HealthModel() == Health(Some(status), old(lastFault), Some(now), Some(now), false, old(framesReceived) + 1)
      ensures recovering == old(wasStale)
    {
      framesReceived := framesReceived + 1;
      lastStatus := Some(status);
      lastStatusTime := Some(now);
      lastProbeTime := Some(now);
      recovering := wasStale;
      if recovering {
        wasStale := false;
      }
    }

    method HandleStatus(now: nat, status: Status) returns (actions: seq<Action>)
      requires Valid()
      modifies this`framesReceived, this`lastStatus, this`lastStatusTime, this`lastProbeTime, this`wasStale,
               this`commandQueue, this`tickets, cmdTracker, pumpTimers, holdTimer
      ensures Valid() && Step(Model(), actions, None) == OnStatus(old(Model()), now, status)
    {
      UpdateWork(now, status);
      var recovering := NoteStatus(now, status);
      actions := [PublishState(status, lastFault, recovering)];
    }

    method HandleReady(now: nat, channel: u8) returns (actions: seq<Action>, ghost sent: Option<Entry>)
      requires Valid()
      modifies this, cmdTracker
      ensures Valid() && Step(Model(), actions, sent) == OnReady(old(Model()), now, channel)
    {
      actions, sent := [], None;
      if clientId.Some? && channel != clientId.value {
        return;
      }
      lastCtsTime := Some(now);
      if |commandQueue| > 0 {
        var command := commandQueue[0];
        commandQueue := commandQueue[1..];
        sent := Some(tickets.entries[0]);
        tickets := tickets.(entries := tickets.entries[1..]);
        actions := [SendCommand(command)];
        if lastStatus.Some? {
          cmdTracker.Track(command, lastStatus.value, now);
        }
      } else if clientId.Some? {
        actions := [SendCommand(NothingToSend(clientId.value))];
      }
    }

    method ProcessFrame(now: nat, frame: Frame) returns (actions: seq<Action>, ghost sent: Option<Entry>)
      requires Valid()
      modifies this, cmdTracker, pumpTimers, holdTimer
      ensures Valid() && Step(Model(), actions, sent) == Perform(old(Model()), FrameArrives(now, frame))
    {
      actions, sent := [], None;
      if !registration.IsRegistered() {
        actions := HandleRegistration(now, frame.registration);
        return;
      }
      match frame.message {
        case StatusUpdate(status) =>
          actions := HandleStatus(now, status);
        case ReadyToSend(channel) =>
          actions, sent := HandleReady(now, channel);
        case RegistrationFrame(message) =>
          if message.ClientIdAssignment? {
            clientId := Some(message.channel);
          }
        case FaultLogResponse(text) =>
          lastFault := Some(text);
        case OtherMessage =>
      }
    }

    // ---- Ticks ------------------------------------------------------------------------

    method ClearCommands()
      requires Valid()
      modifies this`commandQueue, this`tickets, cmdTracker, pumpTimers
      ensures Valid() && WorkModel() == ClearWork(old(WorkModel()))
    {
      commandQueue := [];
      tickets := tickets.(entries := []);
      cmdTracker.Reset();
      pumpTimers.CancelAll();
    }

    method ResetRegistrationState()
      requires Valid()
      modifies this`registration, this`clientId, this`registrationStartedAt, this`lastCtsTime,
               this`commandQueue, this`tickets, cmdTracker, pumpTimers
      ensures Valid() && LinkModel() == ResetLink(old(LinkModel())) && WorkModel() == ClearWork(old(WorkModel()))
    {
      registration := registration.Reset();
      clientId := None;
      registrationStartedAt := None;
      lastCtsTime := None;
      ClearCommands();
    }

    method CheckRegistration(now: nat) returns (actions: seq<Action>)
      modifies this`registration, this`registrationStartedAt, this`failedRegistrationAttempts, this`noQueryAlertSent
      ensures LinkModel() == TickLink(old(LinkModel()), now, bootTime).0
      ensures actions == TickLink(old(LinkModel()), now, bootTime).1
    {
      actions := [];
      if !registration.IsRegistered() {
        if registrationStartedAt.Some? {
          if Elapsed(now, registrationStartedAt.value) >= REGISTRATION_TIMEOUT_MS {
            failedRegistrationAttempts := (failedRegistrationAttempts as int + 1) % 0x100;
            actions := actions + [PublishAlert(RegistrationTimeout)];
            registration := registration.Reset();
            registrationStartedAt := None;
          }
        }
        ghost var l := LinkModel();
        assert l == AbandonLate(old(LinkModel()), now);
        if !noQueryAlertSent && registrationStartedAt.None? {
          if Elapsed(now, bootTime) >= STALE_THRESHOLD_MS {
            actions := actions + [PublishAlert(NoRegistrationQuery)];
            noQueryAlertSent := true;
          }
        }
      } else {
        registrationStartedAt := None;
        noQueryAlertSent := false;
      }
    }

    method CheckCts(now: nat) returns (actions: seq<Action>)
      requires Valid()
      modifies this`registration, this`clientId, this`registrationStartedAt, this`lastCtsTime,
               this`commandQueue, this`tickets, cmdTracker, pumpTimers
      ensures Valid()
      ensures var lost := CtsLost(old(LinkModel()), old(wasStale), now);
              && LinkModel() == (if lost then ResetLink(old(LinkModel())) else old(LinkModel()))
              && WorkModel() == (if lost then ClearWork(old(WorkModel())) else old(WorkModel()))
              && actions == (if lost then [PublishAlert(CtsLoss)] else [])
    {
      actions := [];
      if registration.IsRegistered() && !wasStale {
        if lastCtsTime.Some? && Elapsed(now, lastCtsTime.value) >= CTS_LOSS_THRESHOLD_MS {
          ResetRegistrationState();
          actions := [PublishAlert(CtsLoss)];
        }
      }
    }

    method CheckStale(now: nat) returns (actions: seq<Action>)
      requires Valid()
      modifies this`registration, this`clientId, this`registrationStartedAt, this`lastCtsTime, this`lastProbeTime,
               this`wasStale, this`commandQueue, this`tickets, cmdTracker, pumpTimers
      ensures Valid()
      ensures var stale := GoesStale(old(HealthModel()), now);
              && LinkModel() == (if stale then ResetLink(old(LinkModel())) else old(LinkModel()))
              && WorkModel() == (if stale then ClearWork(old(WorkModel())) else old(WorkModel()))
              && HealthModel() == TickHealth(old(HealthModel()), now)
              && actions == HealthActions(old(HealthModel()), old(clientId), now)
    {
      actions := [];
      if lastStatusTime.None? {
        return;
      }
      var elapsed := Elapsed(now, lastStatusTime.value);
      var shouldProbe := lastProbeTime.None? || Elapsed(now, lastProbeTime.value) >= STALE_PROBE_INTERVAL_MS;
      if elapsed >= STALE_PROBE_INTERVAL_MS && shouldProbe {
        if clientId.Some? {
          actions := [SendCommand(NothingToSend(clientId.value))];
        }
        lastProbeTime := Some(now);
      }
      if elapsed >= STALE_THRESHOLD_MS && !wasStale {
        wasStale := true;
        ResetRegistrationState();
        actions := actions + [PublishAlert(CommunicationLost)];
        if lastStatus.Some? {
          actions := actions + [PublishState(lastStatus.value, lastFault, false), PublishStaleAvailability];
        }
      }
    }

    /** Publish diagnostics once a minute; `a` is the state at the start of the tick. */
    method Diagnose(now: nat, ghost a: App) returns (actions: seq<Action>)
      requires Valid() && WorkModel() == WorkAfterTick(a, now)
      requires lastDiagTime == a.lastDiagTime && bootTime == a.bootTime
      requires framesReceived == a.health.framesReceived && unregisteredFramesReceived == a.link.unregisteredFrames
      modifies this`lastDiagTime
      ensures actions == DiagnosticsActions(a, now)
      ensures lastDiagTime == if DiagnosticsDue(a, now) then Some(now) else a.lastDiagTime
    {
      actions := [];
      if lastDiagTime.None? || Elapsed(now, lastDiagTime.value) >= DIAGNOSTICS_INTERVAL_MS {
        lastDiagTime := Some(now);
        actions := [PublishDiagnostics(Elapsed(now, bootTime) / 1000, framesReceived, unregisteredFramesReceived,
                                       cmdTracker.retryCount, cmdTracker.droppedCount)];
      }
    }

    /** The part of a tick that looks at the registration; `a` is the state before. */
    method CheckLink(now: nat, ghost a: App) returns (actions: seq<Action>)
      requires Valid() && LinkModel() == a.link && WorkModel() == a.work && wasStale == a.health.wasStale
      requires bootTime == a.bootTime
      modifies this`registration, this`clientId, this`registrationStartedAt, this`lastCtsTime,
               this`failedRegistrationAttempts, this`noQueryAlertSent,
               this`commandQueue, this`tickets, cmdTracker, pumpTimers
      ensures Valid() && LinkModel() == LinkAfterCts(a, now) && actions == LinkActions(a, now)
      ensures WorkModel() == if CtsClears(a, now) then ClearWork(a.work) else a.work
    {
      var linkActions := CheckRegistration(now);
      var ctsActions := CheckCts(now);
      actions := linkActions + ctsActions;
    }

    /** Everything a tick does but the diagnostics; `a` is the state before. */
    method CheckAll(now: nat, ghost a: App) returns (actions: seq<Action>)
      requires Valid() && a == Model()
      modifies this`registration, this`clientId, this`registrationStartedAt, this`lastCtsTime, this`lastProbeTime,
               this`failedRegistrationAttempts, this`noQueryAlertSent,
               this`wasStale, this`commandQueue, this`tickets, cmdTracker, pumpTimers
      ensures Valid()
      ensures actions == LinkActions(a, now) + HealthActions(a.health, LinkAfterCts(a, now).clientId, now)
      ensures LinkModel() == LinkAfterTick(a, now) && WorkModel() == WorkAfterTick(a, now)
      ensures HealthModel() == TickHealth(a.health, now)
    {
      var linkActions := CheckLink(now, a);
      var healthActions := CheckStale(now);
      ClearTwice(a.work);
      actions := linkActions + healthActions;
    }

    method Tick(now: nat) returns (actions: seq<Action>)
      requires Valid()
      modifies this, cmdTracker, pumpTimers
      ensures Valid() && Step(Model(), actions, None) == Perform(old(Model()), TickElapses(now))
    {
      ghost var a := Model();
      var checks := CheckAll(now, a);
      var diagnostics := Diagnose(now, a);
      actions := checks + diagnostics;
    }

    method StartPumpTimer(index: u8, minutes: nat, now: nat) returns (actions: seq<Action>)
      requires Valid()
      modifies pumpTimers
      ensures Valid() && Step(Model(), actions, None) == Perform(old(Model()), PumpTimerStarts(index, minutes, now))
    {
      actions := [];
      var command := pumpTimers.StartTimer(index, minutes, now);
      if command.Some? {
        actions := [SendCommand(command.value)];
      }
    }
  }

  lemma ClearTwice(w: Work)
    ensures ClearWork(ClearWork(w)) == ClearWork(w)
  {
    assert Timers.CancelledAll(Timers.CancelledAll(w.pumpTimers)) == Timers.CancelledAll(w.pumpTimers);
  }
}
