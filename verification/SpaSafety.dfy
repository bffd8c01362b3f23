/** What every run of the application logic keeps. */
module SpaSafety {
  import opened Bytes
  import opened Protocol
  import opened Tracking
  import opened Timers
  import opened Spa

  // ---- Tickets: each queued command is sent at most once, in queueing order -----------

  /** The tickets of a queue are in order, none below `low`, all given out already. */
  ghost predicate InOrder(q: Queue, low: nat) {
    && low <= q.nextTicket
    && (forall i, j :: 0 <= i < j < |q.entries| ==> q.entries[i].ticket < q.entries[j].ticket)
    && (forall i :: 0 <= i < |q.entries| ==> low <= q.entries[i].ticket < q.nextTicket)
  }

  lemma {:induction false} PushAllOrdered(q: Queue, commands: seq<Command>, origin: Origin, low: nat)
    requires InOrder(q, low)
    ensures InOrder(q.PushAll(commands, origin), low)
  {
    if commands != [] {
      PushAllOrdered(q, commands[..|commands| - 1], origin, low);
    }
  }

  lemma RequestedOrdered(q: Queue, command: Command, low: nat)
    requires InOrder(q, low)
    ensures InOrder(Requested(q, command), low)
  {
    if !(command.SetTemperature? && Find(q.entries, AnyTemperature) < |q.entries|) {
      OfferOrdered(q, SetPreference(CLOCK_MODE, 1), low);
      var b := WithClockMode(q, command);
      OfferOrdered(b, command, low);
      if command.Toggle? && Find(b.entries, TheToggle(command.item)) < |b.entries| {
        WithoutOrdered(b, Find(b.entries, TheToggle(command.item)), low);
      }
    }
  }

  lemma OfferOrdered(q: Queue, command: Command, low: nat)
    requires InOrder(q, low)
    ensures InOrder(q.Offer(command), low)
  {}

  lemma WithoutOrdered(q: Queue, i: nat, low: nat)
    requires InOrder(q, low) && i < |q.entries|
    ensures InOrder(q.Without(i), low)
  {}

  lemma StatusOrdered(w: Work, now: nat, status: Status, release: bool, low: nat)
    requires InOrder(w.queue, low)
    ensures InOrder(WorkOnStatus(w, now, status, release).queue, low)
  {
    var retries := Retries(w.tracker.pending, status, now);
    PushAllOrdered(w.queue, retries, FromRetry, low);
    PushAllOrdered(w.queue.PushAll(retries, FromRetry), Expiring(w.pumpTimers, now, status.pumps, 6), FromTimer, low);
  }

  /** One event: what is sent was first in the queue, and everything left is behind it. */
  lemma StepOrdered(a: App, e: Event, low: nat)
    requires InOrder(a.work.queue, low)
    ensures var s := Perform(a, e);
            if s.sent.Some? then
              && a.work.queue.entries != [] && s.sent.value == a.work.queue.entries[0]
              && InOrder(s.app.work.queue, s.sent.value.ticket + 1)
            else InOrder(s.app.work.queue, low)
  {
    match e
    case FrameArrives(now, frame) =>
      if a.link.registration.IsRegistered() && frame.message.StatusUpdate? {
        var status := frame.message.status;
        StatusOrdered(a.work, now, status, a.holdTimer.Tick(now, status.isHold).1, low);
      }
    case MqttCommand(command) => RequestedOrdered(a.work.queue, command, low);
    case TickElapses(now) =>
    case PumpTimerStarts(_, _, _) =>
  }

  /** The tickets sent over a run, in order. */
  function Sent(a: App, es: seq<Event>): seq<nat> {
    if es == [] then [] else
      var s := Perform(End(a, es[..|es| - 1]), es[|es| - 1]);
      Sent(a, es[..|es| - 1]) + if s.sent.Some? then [s.sent.value.ticket] else []
  }

  ghost predicate Increasing(s: seq<nat>) {
    forall i, j :: 0 <= i < j < |s| ==> s[i] < s[j]
  }

  function Above(sent: seq<nat>): nat {
    if sent == [] then 0 else sent[|sent| - 1] + 1
  }

  /**
   * Over every run, tickets are sent in strictly increasing order: no queued command is sent
   * twice or overtakes an older one, and what is still queued is younger than all that was sent.
   */
  lemma {:induction false} SentInOrder(a: App, es: seq<Event>)
    requires InOrder(a.work.queue, 0)
    ensures Increasing(Sent(a, es)) && InOrder(End(a, es).work.queue, Above(Sent(a, es)))
  {
    if es != [] {
      var n := |es| - 1;
      var sent, s := Sent(a, es[..n]), Perform(End(a, es[..n]), es[n]);
      SentInOrder(a, es[..n]);
      StepOrdered(End(a, es[..n]), es[n], Above(sent));
      if s.sent.Some? {
        AppendIncreasing(sent, s.sent.value.ticket);
      } else {
        assert sent + [] == sent;
      }
    }
  }

  lemma AppendIncreasing(s: seq<nat>, x: nat)
    requires Increasing(s) && Above(s) <= x
    ensures Increasing(s + [x]) && Above(s + [x]) == x + 1
  {}

  // ---- When commands are sent ---------------------------------------------------------

  function Commands(actions: seq<Action>): seq<Command> {
    if actions == [] then [] else
      Commands(actions[..|actions| - 1])
      + if actions[|actions| - 1].SendCommand? then [actions[|actions| - 1].command] else []
  }

  /** A Ready that the application may answer: it is registered and the channel is its own. */
  predicate MayAnswer(a: App, frame: Frame) {
    && a.link.registration.IsRegistered()
    && frame.message.ReadyToSend?
    && (a.link.clientId.Some? ==> frame.message.channel == a.link.clientId.value)
  }

  lemma CommandsShort(actions: seq<Action>)
    requires |actions| <= 1
    ensures Commands(actions) ==
              if actions != [] && actions[0].SendCommand? then [actions[0].command] else []
  {}

  /**
   * A queue entry is sent only in answer to such a Ready, as the only command of that step; a
   * Ready without queued commands is answered with nothing to send, and no other frame with
   * any command at all.
   */
  lemma SentOnlyOnReady(a: App, e: Event)
    ensures var s := Perform(a, e);
            && (s.sent.Some? <==> e.FrameArrives? && MayAnswer(a, e.frame) && a.work.queue.entries != [])
            && (s.sent.Some? ==> Commands(s.actions) == [s.sent.value.command])
            && (e.FrameArrives? && s.sent.None? ==>
                  Commands(s.actions) ==
                    if MayAnswer(a, e.frame) && a.link.clientId.Some? then [NothingToSend(a.link.clientId.value)] else [])
  {}

  /** A Ready for somebody else changes nothing at all. */
  lemma ForeignReadyIgnored(a: App, now: nat, frame: Frame)
    requires a.link.registration.IsRegistered() && frame.message.ReadyToSend?
    ensures ProcessFrame(a, now, frame) == Step(a, [], None)
       <==> (a.link.clientId.Some? && frame.message.channel != a.link.clientId.value)
            || (a.link.clientId.None? && a.work.queue.entries == [] && a.link.lastCtsTime == Some(now))
  {}

  lemma {:induction false} CommandsConcat(a: seq<Action>, b: seq<Action>)
    ensures Commands(a + b) == Commands(a) + Commands(b)
  {
    if b == [] {
      assert a + b == a;
    } else {
      assert (a + b)[..|a + b| - 1] == a + b[..|b| - 1];
      CommandsConcat(a, b[..|b| - 1]);
    }
  }

  lemma NoCommands(actions: seq<Action>)
    requires forall i :: 0 <= i < |actions| ==> !actions[i].SendCommand?
    ensures Commands(actions) == []
  {}

  lemma AlertsSilent(a: App, now: nat)
    ensures Commands(LinkActions(a, now)) == [] && Commands(DiagnosticsActions(a, now)) == []
  {
    NoCommands(LinkActions(a, now));
    NoCommands(DiagnosticsActions(a, now));
  }

  lemma HealthCommands(h: Health, clientId: Option<u8>, now: nat)
    ensures Commands(HealthActions(h, clientId, now)) ==
              if ProbeDue(h, now) && clientId.Some? then [NothingToSend(clientId.value)] else []
  {
    var stale := if GoesStale(h, now) then StaleActions(h) else [];
    CommandsConcat(ProbeActions(h, clientId, now), stale);
    NoCommands(stale);
    CommandsShort(ProbeActions(h, clientId, now));
  }

  lemma ThreeParts(a: seq<Action>, b: seq<Action>, c: seq<Action>)
    ensures Commands(a + b + c) == Commands(a) + Commands(b) + Commands(c)
  {
    CommandsConcat(a + b, c);
    CommandsConcat(a, b);
  }

  /** A tick sends at most the stale probe, and that only with a client id left after the CTS check. */
  lemma TickCommands(a: App, now: nat)
    ensures var id := LinkAfterCts(a, now).clientId;
            Commands(Tick(a, now).actions) == if ProbeDue(a.health, now) && id.Some? then [NothingToSend(id.value)] else []
  {
    var id := LinkAfterCts(a, now).clientId;
    ThreeParts(LinkActions(a, now), HealthActions(a.health, id, now), DiagnosticsActions(a, now));
    AlertsSilent(a, now);
    HealthCommands(a.health, id, now);
  }

  // ---- The bound on MQTT commands -----------------------------------------------------

  function FromMqttCount(queue: seq<Entry>): nat {
    if queue == [] then 0 else
      FromMqttCount(queue[..|queue| - 1]) + if queue[|queue| - 1].origin == FromMqtt then 1 else 0
  }

  lemma {:induction false} MqttCountConcat(a: seq<Entry>, b: seq<Entry>)
    ensures FromMqttCount(a + b) == FromMqttCount(a) + FromMqttCount(b)
  {
    if b == [] {
      assert a + b == a;
    } else {
      assert (a + b)[..|a + b| - 1] == a + b[..|b| - 1];
      MqttCountConcat(a, b[..|b| - 1]);
    }
  }

  lemma {:induction false} MqttCountBound(queue: seq<Entry>)
    ensures FromMqttCount(queue) <= |queue|
  {
    if queue != [] {
      MqttCountBound(queue[..|queue| - 1]);
    }
  }

  lemma MqttCountPush(q: Queue, command: Command, origin: Origin)
    ensures FromMqttCount(q.Push(command, origin).entries)
         == FromMqttCount(q.entries) + if origin == FromMqtt then 1 else 0
  {
    var entries := q.Push(command, origin).entries;
    assert entries[..|entries| - 1] == q.entries;
  }

  lemma {:induction false} MqttCountPushAll(q: Queue, commands: seq<Command>, origin: Origin)
    requires origin != FromMqtt
    ensures FromMqttCount(q.PushAll(commands, origin).entries) == FromMqttCount(q.entries)
  {
    if commands != [] {
      var n := |commands| - 1;
      MqttCountPushAll(q, commands[..n], origin);
      MqttCountPush(q.PushAll(commands[..n], origin), commands[n], origin);
    }
  }

  lemma MqttCountReplace(queue: seq<Entry>, i: nat, command: Command)
    requires i < |queue|
    ensures FromMqttCount(queue[i := queue[i].(command := command)]) == FromMqttCount(queue)
  {
    var e, f := queue[i], queue[i].(command := command);
    assert queue == queue[..i] + ([e] + queue[i + 1..]);
    assert queue[i := f] == queue[..i] + ([f] + queue[i + 1..]);
    MqttCountConcat(queue[..i], [e] + queue[i + 1..]);
    MqttCountConcat(queue[..i], [f] + queue[i + 1..]);
    MqttCountConcat([e], queue[i + 1..]);
    MqttCountConcat([f], queue[i + 1..]);
    assert [e][..0] == [] && [f][..0] == [];
  }

  lemma MqttCountRemove(queue: seq<Entry>, i: nat)
    requires i < |queue|
    ensures FromMqttCount(queue[..i] + queue[i + 1..]) <= FromMqttCount(queue)
  {
    MqttCountInsert(queue[..i], [queue[i]], queue[i + 1..]);
    SplitAt(queue, i);
  }

  lemma MqttCountInsert(a: seq<Entry>, b: seq<Entry>, c: seq<Entry>)
    ensures FromMqttCount(a + (b + c)) == FromMqttCount(a + c) + FromMqttCount(b)
  {
    MqttCountConcat(a, b + c);
    MqttCountConcat(b, c);
    MqttCountConcat(a, c);
  }

  lemma OfferBounded(q: Queue, command: Command)
    requires FromMqttCount(q.entries) <= MAX_COMMAND_QUEUE
    ensures FromMqttCount(q.Offer(command).entries) <= MAX_COMMAND_QUEUE
  {
    MqttCountBound(q.entries);
    MqttCountPush(q, command, FromMqtt);
  }

  lemma RequestedBounded(q: Queue, command: Command)
    requires FromMqttCount(q.entries) <= MAX_COMMAND_QUEUE
    ensures FromMqttCount(Requested(q, command).entries) <= MAX_COMMAND_QUEUE
  {
    var t := Find(q.entries, AnyTemperature);
    if command.SetTemperature? && t < |q.entries| {
      MqttCountReplace(q.entries, t, command);
    } else {
      OfferBounded(q, SetPreference(CLOCK_MODE, 1));
      var b := WithClockMode(q, command);
      if command.Toggle? && Find(b.entries, TheToggle(command.item)) < |b.entries| {
        MqttCountRemove(b.entries, Find(b.entries, TheToggle(command.item)));
      } else {
        OfferBounded(b, command);
      }
    }
  }

  lemma StatusBounded(w: Work, now: nat, status: Status, release: bool)
    ensures FromMqttCount(WorkOnStatus(w, now, status, release).queue.entries) == FromMqttCount(w.queue.entries)
  {
    var retries, expired := Retries(w.tracker.pending, status, now), Expiring(w.pumpTimers, now, status.pumps, 6);
    var b := w.queue.PushAll(retries, FromRetry);
    MqttCountPushAll(w.queue, retries, FromRetry);
    MqttCountPushAll(b, expired, FromTimer);
    MqttCountPush(b.PushAll(expired, FromTimer), Toggle(HoldMode), FromTimer);
  }

  lemma ReadyBounded(a: App, now: nat, channel: u8)
    ensures FromMqttCount(OnReady(a, now, channel).app.work.queue.entries) <= FromMqttCount(a.work.queue.entries)
  {
    var entries := a.work.queue.entries;
    if entries != [] {
      assert entries == [entries[0]] + entries[1..];
      MqttCountConcat([entries[0]], entries[1..]);
    }
  }

  lemma StepBounded(a: App, e: Event)
    requires FromMqttCount(a.work.queue.entries) <= MAX_COMMAND_QUEUE
    ensures FromMqttCount(Perform(a, e).app.work.queue.entries) <= MAX_COMMAND_QUEUE
  {
    match e
    case FrameArrives(now, frame) =>
      if a.link.registration.IsRegistered() && frame.message.StatusUpdate? {
        var status := frame.message.status;
        StatusBounded(a.work, now, status, a.holdTimer.Tick(now, status.isHold).1);
      } else if a.link.registration.IsRegistered() && frame.message.ReadyToSend? {
        ReadyBounded(a, now, frame.message.channel);
      }
    case MqttCommand(command) => RequestedBounded(a.work.queue, command);
    case TickElapses(_) =>
    case PumpTimerStarts(_, _, _) =>
  }

  /**
   * Over every run, at most 32 commands from MQTT are queued, whatever retries and timers add.
   * Those are pushed without a check; `SpaQueue` says what becomes of the queue as a whole.
   */
  lemma {:induction false} MqttQueueBounded(a: App, es: seq<Event>)
    requires a.work.queue.entries == []
    ensures FromMqttCount(End(a, es).work.queue.entries) <= MAX_COMMAND_QUEUE
  {
    if es != [] {
      MqttQueueBounded(a, es[..|es| - 1]);
      StepBounded(End(a, es[..|es| - 1]), es[|es| - 1]);
    }
  }

  // ---- Registration and the client id -------------------------------------------------

  /** The application has a client id exactly while it is registered. */
  predicate Coherent(l: Link) {
    l.registration.IsRegistered() <==> l.clientId.Some?
  }

  /** The answer to a reconnection request, which registers without passing on the channel. */
  predicate Reconnects(l: Link, e: Event) {
    && e.FrameArrives?
    && l.registration.state.WaitingForExistingResponse?
    && e.frame.registration.Some?
    && e.frame.registration.value.ExistingClientResponse?
    && e.frame.registration.value.hash == l.registration.hash
  }

  /** Registered and client id go together after every event but one: a reconnection. */
  lemma StepCoherentIff(a: App, e: Event)
    requires Coherent(a.link)
    ensures Coherent(Perform(a, e).app.link) <==> !Reconnects(a.link, e)
  {}

  /** After a reconnection there is no client id, and a Ready for anybody is answered. */
  lemma ReconnectedAnswersAnybody(a: App, e: Event, now: nat, channel: u8)
    requires Coherent(a.link) && Reconnects(a.link, e) && a.work.queue.entries != []
    ensures var b := Perform(a, e).app;
            b.link.clientId == None
            && Perform(b, FrameArrives(now, Frame(None, ReadyToSend(channel)))).sent == Some(a.work.queue.entries[0])
  {}

  /** An assignment to somebody else's channel, seen while registered. */
  predicate ForeignAssignment(l: Link, e: Event) {
    && e.FrameArrives?
    && l.registration.IsRegistered()
    && e.frame.message.RegistrationFrame?
    && e.frame.message.message.ClientIdAssignment?
    && e.frame.message.message.channel != l.registration.state.clientId
  }

  /** The client id is the channel that registration was granted. */
  predicate OwnChannel(l: Link) {
    if l.registration.IsRegistered() then l.clientId == Some(l.registration.state.clientId) else l.clientId == None
  }

  /**
   * The client id stays the granted channel exactly until a reconnection or an assignment that
   * names another channel: that one is adopted without looking at whom it is for.
   */
  lemma StepOwnChannelIff(a: App, e: Event)
    requires OwnChannel(a.link)
    ensures OwnChannel(Perform(a, e).app.link) <==> !Reconnects(a.link, e) && !ForeignAssignment(a.link, e)
  {}

  predicate FirstTime(l: Link) {
    l.registration.previous == None && !l.registration.state.WaitingForExistingResponse?
  }

  lemma StepFirstTime(a: App, e: Event)
    requires FirstTime(a.link)
    ensures FirstTime(Perform(a, e).app.link)
  {}

  /** Without a previous channel there is no reconnection, so every run is coherent. */
  lemma {:induction false} RunCoherent(now: nat, hash: (u8, u8), es: seq<Event>)
    ensures var l := End(Boot(now, hash, None), es).link;
            Coherent(l) && FirstTime(l)
  {
    if es != [] {
      var a := End(Boot(now, hash, None), es[..|es| - 1]);
      RunCoherent(now, hash, es[..|es| - 1]);
      StepFirstTime(a, es[|es| - 1]);
      StepCoherentIff(a, es[|es| - 1]);
    }
  }

  /** Actions that put a frame on the bus. */
  predicate IsFrame(action: Action) {
    action.SendCommand? || action.SendAck? || action.SendExistingRequest?
  }

  ghost predicate NoFrames(actions: seq<Action>) {
    forall action :: action in actions ==> !IsFrame(action)
  }

  lemma QuietParts(a: App, now: nat)
    ensures NoFrames(LinkActions(a, now)) && NoFrames(DiagnosticsActions(a, now))
  {}

  lemma QuietHealth(h: Health, now: nat)
    ensures NoFrames(HealthActions(h, None, now))
  {}

  lemma QuietSum(a: seq<Action>, b: seq<Action>, c: seq<Action>)
    requires NoFrames(a) && NoFrames(b) && NoFrames(c)
    ensures NoFrames(a + b + c)
  {}

  lemma UnregisteredKeepsNoId(a: App, now: nat)
    requires !a.link.registration.IsRegistered() && a.link.clientId == None
    ensures LinkAfterCts(a, now).clientId == None
  {}

  /**
   * While unregistered, all that a frame is answered with is at most one frame of the
   * handshake, nothing is taken from the queue, and a tick puts no frame on the bus.
   */
  lemma UnregisteredIsSilent(a: App, now: nat, frame: Frame)
    requires !a.link.registration.IsRegistered() && Coherent(a.link)
    ensures var s := ProcessFrame(a, now, frame);
            && |s.actions| <= 1 && s.sent == None && s.app.work == a.work
            && forall action :: action in s.actions ==> action.SendAck? || action.SendExistingRequest?
    ensures NoFrames(Tick(a, now).actions)
  {
    UnregisteredKeepsNoId(a, now);
    QuietParts(a, now);
    QuietHealth(a.health, now);
    QuietSum(LinkActions(a, now), HealthActions(a.health, None, now), DiagnosticsActions(a, now));
  }

  // ---- Whose Ready is answered --------------------------------------------------------

  /** Neither of the first `n` events is a reconnection or an assignment to another channel. */
  ghost predicate Undisturbed(a: App, es: seq<Event>, n: nat)
    requires n <= |es|
  {
    forall j :: 0 <= j < n ==>
      !Reconnects(End(a, es[..j]).link, es[j]) && !ForeignAssignment(End(a, es[..j]).link, es[j])
  }

  lemma {:induction false} OwnChannelUntil(a: App, es: seq<Event>, n: nat)
    requires OwnChannel(a.link) && n <= |es| && Undisturbed(a, es, n)
    ensures OwnChannel(End(a, es[..n]).link)
    decreases n
  {
    if n > 0 {
      OwnChannelUntil(a, es, n - 1);
      assert es[..n][..n - 1] == es[..n - 1];
      StepOwnChannelIff(End(a, es[..n - 1]), es[n - 1]);
    }
  }

  /**
   * In every run from a boot, up to the first reconnection or foreign assignment: whatever is
   * taken from the queue is its first entry, and it answers a Ready on the very channel that
   * registration was granted.
   */
  lemma SentOnGrantedChannel(now: nat, hash: (u8, u8), previous: Option<u8>, es: seq<Event>, n: nat)
    requires n < |es| && Undisturbed(Boot(now, hash, previous), es, n)
    ensures var a, e := End(Boot(now, hash, previous), es[..n]), es[n];
            Perform(a, e).sent.Some? ==>
              && Perform(a, e).sent.value == a.work.queue.entries[0]
              && a.link.registration.IsRegistered()
              && e.FrameArrives? && e.frame.message == ReadyToSend(a.link.registration.state.clientId)
  {
    OwnChannelUntil(Boot(now, hash, previous), es, n);
    SentOnlyOnReady(End(Boot(now, hash, previous), es[..n]), es[n]);
  }

  /** Booted without a previous channel, a run meets no reconnection: only assignments disturb it. */
  lemma NoReconnection(now: nat, hash: (u8, u8), es: seq<Event>, n: nat)
    requires n <= |es|
    requires forall j :: 0 <= j < n ==> !ForeignAssignment(End(Boot(now, hash, None), es[..j]).link, es[j])
    ensures Undisturbed(Boot(now, hash, None), es, n)
  {
    forall j | 0 <= j < n
      ensures !Reconnects(End(Boot(now, hash, None), es[..j]).link, es[j])
    {
      RunCoherent(now, hash, es[..j]);
    }
  }

  // ---- Losing the spa -----------------------------------------------------------------

  /**
   * A tick unregisters a registered application exactly when it detects lost CTS or staleness,
   * and then nothing is queued, tracked or timed any more; otherwise it leaves all of that alone.
   */
  lemma TickGivesUpIff(a: App, now: nat)
    requires a.link.registration.IsRegistered()
    ensures var b := Tick(a, now).app;
            && (!b.link.registration.IsRegistered() <==> TickClears(a, now))
            && (TickClears(a, now) ==>
                  && b.link.clientId == None && b.work.queue.entries == [] && b.work.tracker == EMPTY
                  && forall i :: 0 <= i < 6 ==> b.work.pumpTimers[i].startedAt == None)
            && (!TickClears(a, now) ==> b.work == a.work && b.link.clientId == a.link.clientId)
  {}

  function Losses(actions: seq<Action>): nat {
    if actions == [] then 0 else
      Losses(actions[..|actions| - 1]) + if actions[|actions| - 1] == PublishAlert(CommunicationLost) then 1 else 0
  }

  function Recoveries(actions: seq<Action>): nat {
    if actions == [] then 0 else
      Recoveries(actions[..|actions| - 1])
      + if actions[|actions| - 1].PublishState? && actions[|actions| - 1].recovering then 1 else 0
  }

  lemma {:induction false} BalanceConcat(a: seq<Action>, b: seq<Action>)
    ensures Losses(a + b) == Losses(a) + Losses(b)
    ensures Recoveries(a + b) == Recoveries(a) + Recoveries(b)
  {
    if b == [] {
      assert a + b == a;
    } else {
      assert (a + b)[..|a + b| - 1] == a + b[..|b| - 1];
      BalanceConcat(a, b[..|b| - 1]);
    }
  }

  lemma NoBalance(actions: seq<Action>)
    requires forall i :: 0 <= i < |actions| ==>
               actions[i] != PublishAlert(CommunicationLost) && !(actions[i].PublishState? && actions[i].recovering)
    ensures Losses(actions) == 0 && Recoveries(actions) == 0
  {}

  lemma StaleBalance(h: Health)
    ensures Losses(StaleActions(h)) == 1 && Recoveries(StaleActions(h)) == 0
  {
    var first, rest := [PublishAlert(CommunicationLost)], StaleActions(h)[1..];
    assert StaleActions(h) == first + rest;
    BalanceConcat(first, rest);
    NoBalance(rest);
    assert first[..0] == [];
    assert Losses(first) == 1;
  }

  lemma TickBalance(a: App, now: nat)
    ensures Losses(Tick(a, now).actions) == (if GoesStale(a.health, now) then 1 else 0)
    ensures Recoveries(Tick(a, now).actions) == 0
  {
    var id := LinkAfterCts(a, now).clientId;
    BalanceThree(LinkActions(a, now), HealthActions(a.health, id, now), DiagnosticsActions(a, now));
    AlertsBalance(a, now);
    HealthBalance(a.health, id, now);
  }

  lemma BalanceThree(a: seq<Action>, b: seq<Action>, c: seq<Action>)
    ensures Losses(a + b + c) == Losses(a) + Losses(b) + Losses(c)
    ensures Recoveries(a + b + c) == Recoveries(a) + Recoveries(b) + Recoveries(c)
  {
    BalanceConcat(a + b, c);
    BalanceConcat(a, b);
  }

  lemma AlertsBalance(a: App, now: nat)
    ensures Losses(LinkActions(a, now)) == 0 && Losses(DiagnosticsActions(a, now)) == 0
    ensures Recoveries(LinkActions(a, now)) == 0 && Recoveries(DiagnosticsActions(a, now)) == 0
  {
    NoBalance(LinkActions(a, now));
    NoBalance(DiagnosticsActions(a, now));
  }

  lemma HealthBalance(h: Health, clientId: Option<u8>, now: nat)
    ensures Losses(HealthActions(h, clientId, now)) == (if GoesStale(h, now) then 1 else 0)
    ensures Recoveries(HealthActions(h, clientId, now)) == 0
  {
    BalanceConcat(ProbeActions(h, clientId, now), if GoesStale(h, now) then StaleActions(h) else []);
    NoBalance(ProbeActions(h, clientId, now));
    StaleBalance(h);
  }

  lemma ShortBalance(actions: seq<Action>)
    requires |actions| <= 1
    ensures Losses(actions) == (if actions != [] && actions[0] == PublishAlert(CommunicationLost) then 1 else 0)
    ensures Recoveries(actions) == (if actions != [] && actions[0].PublishState? && actions[0].recovering then 1 else 0)
  {}

  /** All actions of a run, in order. */
  function Actions(a: App, es: seq<Event>): seq<Action> {
    if es == [] then [] else
      Actions(a, es[..|es| - 1]) + Perform(End(a, es[..|es| - 1]), es[|es| - 1]).actions
  }

  lemma StepBalance(a: App, e: Event)
    ensures Losses(Perform(a, e).actions) + (if a.health.wasStale then 1 else 0)
         == Recoveries(Perform(a, e).actions) + (if Perform(a, e).app.health.wasStale then 1 else 0)
  {
    if e.TickElapses? {
      TickBalance(a, e.now);
    } else {
      ShortBalance(Perform(a, e).actions);
    }
  }

  /** Over every run, each lost spa is found again before it can be lost again. */
  lemma {:induction false} LossesMatchRecoveries(now: nat, hash: (u8, u8), previous: Option<u8>, es: seq<Event>)
    ensures var a := Boot(now, hash, previous);
            Losses(Actions(a, es)) == Recoveries(Actions(a, es)) + if End(a, es).health.wasStale then 1 else 0
  {
    if es != [] {
      var a := Boot(now, hash, previous);
      var n := |es| - 1;
      LossesMatchRecoveries(now, hash, previous, es[..n]);
      StepBalance(End(a, es[..n]), es[n]);
      BalanceConcat(Actions(a, es[..n]), Perform(End(a, es[..n]), es[n]).actions);
    }
  }

  // ---- The tracker inside the application ---------------------------------------------

  /** What one event makes of the tracker: nothing, a reset, or these calls on it. */
  function TrackerCalls(a: App, e: Event): seq<TrackerEvent> {
    match e
    case MqttCommand(command) => seq(Drops(a.work.queue, command), i => Dropped)
    case FrameArrives(now, frame) =>
      if !a.link.registration.IsRegistered() then []
      else if frame.message.StatusUpdate? then [Verified(frame.message.status, now)]
      else if MayAnswer(a, frame) && a.work.queue.entries != [] && a.health.lastStatus.Some? then
        [Tracked(a.work.queue.entries[0].command, a.health.lastStatus.value, now)]
      else []
    case TickElapses(_) => []
    case PumpTimerStarts(_, _, _) => []
  }

  /** The calls on the tracker since the last tick that gave up. */
  function TrackerTrace(a: App, es: seq<Event>): seq<TrackerEvent> {
    if es == [] then [] else
      var b, e := End(a, es[..|es| - 1]), es[|es| - 1];
      if e.TickElapses? && TickClears(b, e.now) then [] else TrackerTrace(a, es[..|es| - 1]) + TrackerCalls(b, e)
  }

  lemma {:induction false} RunTrackerAppend(es: seq<TrackerEvent>, more: seq<TrackerEvent>)
    requires |more| <= 2
    ensures RunTracker(es + more).0
         == if more == [] then RunTracker(es).0
            else if |more| == 1 then Tracking.Apply(RunTracker(es).0, more[0])
            else Tracking.Apply(Tracking.Apply(RunTracker(es).0, more[0]), more[1])
    decreases |more|
  {
    if more == [] {
      assert es + more == es;
    } else {
      var n := |more| - 1;
      assert (es + more)[..|es + more| - 1] == es + more[..n];
      RunTrackerAppend(es, more[..n]);
    }
  }

  /**
   * In every run of the application the tracker is the result of the calls since the last time
   * it was given up: what it tracked is confirmed, expired or pending, at most eight commands
   * are pending, all with different expectations, and none was retried more than twice.
   */
  lemma {:induction false} TrackerInApp(a: App, es: seq<Event>)
    requires a.work.tracker == EMPTY
    ensures var (t, y) := RunTracker(TrackerTrace(a, es));
            End(a, es).work.tracker == t && Consistent(t, y) && t.retried <= MAX_COMMAND_RETRIES * y.pushed
  {
    RunKeeps(TrackerTrace(a, es));
    if es != [] {
      var n := |es| - 1;
      var b, e := End(a, es[..n]), es[n];
      TrackerInApp(a, es[..n]);
      RunTrackerAppend(TrackerTrace(a, es[..n]), TrackerCalls(b, e));
      StepTracker(b, e);
    }
  }

  lemma StepTracker(a: App, e: Event)
    ensures var t, calls, next := a.work.tracker, TrackerCalls(a, e), Perform(a, e).app.work.tracker;
            if e.TickElapses? && TickClears(a, e.now) then next == EMPTY
            else next == (if calls == [] then t
                          else if |calls| == 1 then Tracking.Apply(t, calls[0])
                          else Tracking.Apply(Tracking.Apply(t, calls[0]), calls[1]))
  {}
}
