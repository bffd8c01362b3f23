/**
 * The application logic as a state machine: frames from the bus, commands from MQTT and
 * periodic ticks go in, actions come out.
 *
 * Queue entries carry a ticket number and where they came from. The program does not store
 * either; they are there to say what happens to each entry.
 */
module Spa {
  import opened Bytes
  import opened Protocol
  import opened Tracking
  import opened Timers

  const MAX_COMMAND_QUEUE: nat := 32
  const STALE_PROBE_INTERVAL_MS: nat := 5_000
  const STALE_THRESHOLD_MS: nat := 30_000
  const CTS_LOSS_THRESHOLD_MS: nat := 5_000
  const REGISTRATION_TIMEOUT_MS: nat := 5_000
  const DIAGNOSTICS_INTERVAL_MS: nat := 60_000

  datatype Origin = FromMqtt | FromRetry | FromTimer
  datatype Entry = Entry(command: Command, ticket: nat, origin: Origin)

  datatype Alert = RegistrationTimeout | NoRegistrationQuery | CtsLoss | CommunicationLost

  datatype Action =
    | SendCommand(command: Command)
    | SendAck(channel: u8)
    | SendExistingRequest(channel: u8)
    | PublishState(status: Status, fault: Option<string>, recovering: bool)
    | PublishStaleAvailability
    | PublishDiagnostics(uptimeSecs: nat, frames: nat, unregistered: nat, retries: nat, drops: nat)
    | PublishAlert(alert: Alert)

  /** What the dispatcher makes of a frame. */
  datatype Incoming =
    | StatusUpdate(status: Status)
    | ReadyToSend(channel: u8)
    | RegistrationFrame(message: RegistrationMessage)
    | FaultLogResponse(text: string)
    | OtherMessage

  /** A frame, by what the registration parser and the dispatcher make of it. */
  datatype Frame = Frame(registration: Option<RegistrationMessage>, message: Incoming)

  /** The commands waiting for the next Ready window. */
  datatype Queue = Queue(entries: seq<Entry>, nextTicket: nat) {
    function Push(command: Command, origin: Origin): Queue {
      Queue(entries + [Entry(command, nextTicket, origin)], nextTicket + 1)
    }

    function PushAll(commands: seq<Command>, origin: Origin): Queue {
      if commands == [] then this else
        PushAll(commands[..|commands| - 1], origin).Push(commands[|commands| - 1], origin)
    }

    predicate IsFull() {
      |entries| >= MAX_COMMAND_QUEUE
    }

    /** A command that does not fit is dropped. */
    function Offer(command: Command): Queue {
      if IsFull() then this else Push(command, FromMqtt)
    }

    function Without(i: nat): Queue
      requires i < |entries|
    {
      this.(entries := entries[..i] + entries[i + 1..])
    }
  }

  /** Registration on the bus. */
  datatype Link = Link(
    registration: Registration,
    startedAt: Option<nat>,
    clientId: Option<u8>,
    lastCtsTime: Option<nat>,
    failedAttempts: u8,
    noQueryAlertSent: bool,
    unregisteredFrames: nat)

  /** Commands on their way, and the timers that produce them. */
  datatype Work = Work(tracker: Tracker, queue: Queue, pumpTimers: PumpTimers)

  /** What is known of the spa. */
  datatype Health = Health(
    lastStatus: Option<Status>,
    lastFault: Option<string>,
    lastStatusTime: Option<nat>,
    lastProbeTime: Option<nat>,
    wasStale: bool,
    framesReceived: nat)

  datatype App = App(
    link: Link,
    work: Work,
    health: Health,
    holdTimer: HoldTimer,
    lastDiagTime: Option<nat>,
    bootTime: nat)

  function Boot(now: nat, hash: (u8, u8), previous: Option<u8>): App {
    App(
      Link(Registration(WaitingForQuery, hash, previous), None, None, None, 0, false, 0),
      Work(EMPTY, Queue([], 0), NewTimers()),
      Health(None, None, None, None, false, 0),
      NewHoldTimer(DEFAULT_HOLD_MODE_TIMEOUT_MS), None, now)
  }

  /** The new state, the actions, and the queue entry that was sent, if any. */
  datatype Step = Step(app: App, actions: seq<Action>, sent: Option<Entry>)

  // ---- Commands from MQTT -------------------------------------------------------------

  /** What a queue is searched for. */
  datatype Wanted = AnyTemperature | AnyClockMode | TheToggle(item: ToggleItem) {
    predicate Matches(command: Command) {
      match this
      case AnyTemperature => command.SetTemperature?
      case AnyClockMode => command.SetPreference? && command.code == CLOCK_MODE
      case TheToggle(item) => command == Toggle(item)
    }
  }

  /** The first entry that matches, or the length of the queue. */
  function Find(entries: seq<Entry>, w: Wanted): (i: nat)
    ensures i <= |entries|
    ensures forall j :: 0 <= j < i ==> !w.Matches(entries[j].command)
    ensures i < |entries| ==> w.Matches(entries[i].command)
  {
    if entries == [] || w.Matches(entries[0].command) then 0 else 1 + Find(entries[1..], w)
  }

  /** Setting a 24-hour clock queues the clock mode first, unless it is queued already. */
  predicate NeedsClockMode(q: Queue, command: Command) {
    command.SetTime? && command.is24h && Find(q.entries, AnyClockMode) == |q.entries|
  }

  function WithClockMode(q: Queue, command: Command): Queue {
    if NeedsClockMode(q, command) then q.Offer(SetPreference(CLOCK_MODE, 1)) else q
  }

  /** The queue after a command: replace a temperature, cancel a toggle, or append. */
  function Requested(q: Queue, command: Command): Queue {
    var t := Find(q.entries, AnyTemperature);
    if command.SetTemperature? && t < |q.entries| then
      q.(entries := q.entries[t := q.entries[t].(command := command)])
    else
      var b := WithClockMode(q, command);
      if command.Toggle? && Find(b.entries, TheToggle(command.item)) < |b.entries| then
        b.Without(Find(b.entries, TheToggle(command.item)))
      else
        b.Offer(command)
  }

  /** How many commands a request drops because the queue is full. */
  function Drops(q: Queue, command: Command): nat {
    if command.SetTemperature? && Find(q.entries, AnyTemperature) < |q.entries| then 0
    else
      var b := WithClockMode(q, command);
      (if NeedsClockMode(q, command) && q.IsFull() then 1 else 0)
      + if command.Toggle? && Find(b.entries, TheToggle(command.item)) < |b.entries| then 0
        else if b.IsFull() then 1 else 0
  }

  function OnMqttCommand(w: Work, command: Command): Work {
    w.(queue := Requested(w.queue, command),
       tracker := w.tracker.(dropped := w.tracker.dropped + Drops(w.queue, command)))
  }

  // ---- Frames -------------------------------------------------------------------------

  function ResetLink(l: Link): Link {
    l.(registration := l.registration.Reset(), clientId := None, startedAt := None, lastCtsTime := None)
  }

  function ClearWork(w: Work): Work {
    Work(EMPTY, w.queue.(entries := []), CancelledAll(w.pumpTimers))
  }

  /** An unregistered application only takes part in the registration handshake. */
  function OnUnregistered(l: Link, now: nat, message: Option<RegistrationMessage>): (Link, seq<Action>) {
    var b := l.(unregisteredFrames := l.unregisteredFrames + 1);
    if message.None? then (b, []) else
      var (registration, action) := l.registration.Process(message.value);
      var c := b.(registration := registration);
      match action
      case SendNewClientResponse =>
        (c.(startedAt := Some(now)), [])
      case SendClientIdAck(id) =>
        (c.(clientId := Some(id), startedAt := None, failedAttempts := 0), [SendAck(id)])
      case SendExistingClientRequest(channel) =>
        (c.(startedAt := Some(now)), [SendExistingRequest(channel)])
      case NoAction =>
        (c, [])
  }

  /** A status confirms or retries commands and moves the timers on. */
  function WorkOnStatus(w: Work, now: nat, status: Status, release: bool): Work {
    var retried := w.queue.PushAll(Retries(w.tracker.pending, status, now), FromRetry);
    var timed := retried.PushAll(Expiring(w.pumpTimers, now, status.pumps, 6), FromTimer);
    Work(
      w.tracker.Verify(status, now),
      if release then timed.Push(Toggle(HoldMode), FromTimer) else timed,
      TickedAll(w.pumpTimers, now, status.pumps))
  }

  function OnStatus(a: App, now: nat, status: Status): Step {
    var (hold, release) := a.holdTimer.Tick(now, status.isHold);
    Step(
      a.(work := WorkOnStatus(a.work, now, status, release),
         holdTimer := hold,
         health := Health(Some(status), a.health.lastFault, Some(now), Some(now), false, a.health.framesReceived + 1)),
      [PublishState(status, a.health.lastFault, a.health.wasStale)],
      None)
  }

  function OnReady(a: App, now: nat, channel: u8): Step {
    if a.link.clientId.Some? && channel != a.link.clientId.value then
      Step(a, [], None)
    else
      var b := a.(link := a.link.(lastCtsTime := Some(now)));
      var q := a.work.queue;
      if q.entries != [] then
        var entry := q.entries[0];
        Step(
          b.(work := a.work.(
               queue := q.(entries := q.entries[1..]),
               tracker := if a.health.lastStatus.None? then a.work.tracker
                          else a.work.tracker.Track(entry.command, a.health.lastStatus.value, now))),
          [SendCommand(entry.command)],
          Some(entry))
      else if a.link.clientId.Some? then
        Step(b, [SendCommand(NothingToSend(a.link.clientId.value))], None)
      else
        Step(b, [], None)
  }

  function ProcessFrame(a: App, now: nat, frame: Frame): Step {
    if !a.link.registration.IsRegistered() then
      var (link, actions) := OnUnregistered(a.link, now, frame.registration);
      Step(a.(link := link), actions, None)
    else
      match frame.message
      case StatusUpdate(status) => OnStatus(a, now, status)
      case ReadyToSend(channel) => OnReady(a, now, channel)
      case RegistrationFrame(message) =>
        Step(if message.ClientIdAssignment? then a.(link := a.link.(clientId := Some(message.channel))) else a, [], None)
      case FaultLogResponse(text) => Step(a.(health := a.health.(lastFault := Some(text))), [], None)
      case OtherMessage => Step(a, [], None)
  }

  // ---- Ticks --------------------------------------------------------------------------

  /** Whether the handshake under way has taken too long. */
  predicate RegistrationLate(l: Link, now: nat) {
    !l.registration.IsRegistered() && l.startedAt.Some? && Elapsed(now, l.startedAt.value) >= REGISTRATION_TIMEOUT_MS
  }

  /** A counter of one byte wraps around. */
  function Counted(n: u8): u8 {
    (n as int + 1) % 0x100
  }

  function AbandonLate(l: Link, now: nat): Link {
    if RegistrationLate(l, now) then
      l.(failedAttempts := Counted(l.failedAttempts), registration := l.registration.Reset(), startedAt := None)
    else l
  }

  /** Whether no query has been seen for too long after booting. */
  predicate NoQuery(l: Link, now: nat, bootTime: nat) {
    !l.noQueryAlertSent && l.startedAt.None? && Elapsed(now, bootTime) >= STALE_THRESHOLD_MS
  }

  function TickLink(l: Link, now: nat, bootTime: nat): (Link, seq<Action>) {
    if l.registration.IsRegistered() then
      (l.(startedAt := None, noQueryAlertSent := false), [])
    else
      var b := AbandonLate(l, now);
      (if NoQuery(b, now, bootTime) then b.(noQueryAlertSent := true) else b,
       (if RegistrationLate(l, now) then [PublishAlert(RegistrationTimeout)] else [])
       + if NoQuery(b, now, bootTime) then [PublishAlert(NoRegistrationQuery)] else [])
  }

  predicate CtsLost(l: Link, wasStale: bool, now: nat) {
    l.registration.IsRegistered() && !wasStale
    && l.lastCtsTime.Some? && Elapsed(now, l.lastCtsTime.value) >= CTS_LOSS_THRESHOLD_MS
  }

  predicate ProbeDue(h: Health, now: nat) {
    h.lastStatusTime.Some? && Elapsed(now, h.lastStatusTime.value) >= STALE_PROBE_INTERVAL_MS
    && (h.lastProbeTime.None? || Elapsed(now, h.lastProbeTime.value) >= STALE_PROBE_INTERVAL_MS)
  }

  predicate GoesStale(h: Health, now: nat) {
    h.lastStatusTime.Some? && Elapsed(now, h.lastStatusTime.value) >= STALE_THRESHOLD_MS && !h.wasStale
  }

  function TickHealth(h: Health, now: nat): Health {
    h.(lastProbeTime := if ProbeDue(h, now) then Some(now) else h.lastProbeTime,
       wasStale := h.wasStale || GoesStale(h, now))
  }

  predicate DiagnosticsDue(a: App, now: nat) {
    a.lastDiagTime.None? || Elapsed(now, a.lastDiagTime.value) >= DIAGNOSTICS_INTERVAL_MS
  }

  function StaleActions(h: Health): seq<Action> {
    [PublishAlert(CommunicationLost)]
    + if h.lastStatus.None? then [] else
        [PublishState(h.lastStatus.value, h.lastFault, false), PublishStaleAvailability]
  }

  /** The registration after a tick has looked at timeouts and at lost CTS. */
  function LinkAfterCts(a: App, now: nat): Link {
    var l := TickLink(a.link, now, a.bootTime).0;
    if CtsLost(l, a.health.wasStale, now) then ResetLink(l) else l
  }

  function LinkAfterTick(a: App, now: nat): Link {
    if GoesStale(a.health, now) then ResetLink(LinkAfterCts(a, now)) else LinkAfterCts(a, now)
  }

  predicate CtsClears(a: App, now: nat) {
    CtsLost(TickLink(a.link, now, a.bootTime).0, a.health.wasStale, now)
  }

  /** Whether a tick gives up on everything that is queued, tracked or timed. */
  predicate TickClears(a: App, now: nat) {
    CtsClears(a, now) || GoesStale(a.health, now)
  }

  function ProbeActions(h: Health, clientId: Option<u8>, now: nat): seq<Action> {
    if ProbeDue(h, now) && clientId.Some? then [SendCommand(NothingToSend(clientId.value))] else []
  }

  /** What a tick does about a silent spa: probe it, and finally declare it lost. */
  function HealthActions(h: Health, clientId: Option<u8>, now: nat): seq<Action> {
    ProbeActions(h, clientId, now) + if GoesStale(h, now) then StaleActions(h) else []
  }

  /** The alerts about registration that a tick raises. */
  function LinkActions(a: App, now: nat): seq<Action> {
    var (l, alerts) := TickLink(a.link, now, a.bootTime);
    alerts + if CtsLost(l, a.health.wasStale, now) then [PublishAlert(CtsLoss)] else []
  }

  function WorkAfterTick(a: App, now: nat): Work {
    if TickClears(a, now) then ClearWork(a.work) else a.work
  }

  function DiagnosticsActions(a: App, now: nat): seq<Action> {
    var tracker := WorkAfterTick(a, now).tracker;
    if DiagnosticsDue(a, now) then
      [PublishDiagnostics(Elapsed(now, a.bootTime) / 1000, a.health.framesReceived, a.link.unregisteredFrames,
                          tracker.retried, tracker.dropped)]
    else []
  }

  function Tick(a: App, now: nat): Step {
    Step(
      a.(link := LinkAfterTick(a, now),
         work := WorkAfterTick(a, now),
         health := TickHealth(a.health, now),
         lastDiagTime := if DiagnosticsDue(a, now) then Some(now) else a.lastDiagTime),
      LinkActions(a, now) + HealthActions(a.health, LinkAfterCts(a, now).clientId, now) + DiagnosticsActions(a, now),
      None)
  }

  /** Starting a pump timer sends its toggle at once, without waiting for a Ready. */
  function StartPumpTimer(a: App, index: u8, minutes: nat, now: nat): Step {
    Step(a.(work := a.work.(pumpTimers := Started(a.work.pumpTimers, index, minutes, now))),
         if index == 0 || index > 6 then [] else
           var i: int := index;
           [SendCommand(Toggle(a.work.pumpTimers[i - 1].pump))],
         None)
  }

  datatype Event =
    | FrameArrives(now: nat, frame: Frame)
    | MqttCommand(command: Command)
    | TickElapses(now: nat)
    | PumpTimerStarts(index: u8, minutes: nat, now: nat)

  function Perform(a: App, e: Event): Step {
    match e
    case FrameArrives(now, frame) => ProcessFrame(a, now, frame)
    case MqttCommand(command) => Step(a.(work := OnMqttCommand(a.work, command)), [], None)
    case TickElapses(now) => Tick(a, now)
    case PumpTimerStarts(index, minutes, now) => StartPumpTimer(a, index, minutes, now)
  }

  function End(a: App, es: seq<Event>): App {
    if es == [] then a else Perform(End(a, es[..|es| - 1]), es[|es| - 1]).app
  }
}
