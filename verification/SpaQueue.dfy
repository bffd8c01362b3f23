/** How long the command queue gets. Only requests over MQTT check its capacity. */
module SpaQueue {
  import opened Bytes
  import opened Protocol
  import opened Tracking
  import opened Timers
  import opened Spa

  // ---- One event ----------------------------------------------------------------------

  /** How many commands a status adds: retries, expired pump timers and the release of hold mode. */
  function Added(a: App, now: nat, status: Status): nat {
    |Retries(a.work.tracker.pending, status, now)|
    + |Expiring(a.work.pumpTimers, now, status.pumps, 6)|
    + if a.holdTimer.Tick(now, status.isHold).1 then 1 else 0
  }

  /** A status that adds more than there is room for. */
  predicate Overfills(a: App, e: Event) {
    && e.FrameArrives? && e.frame.message.StatusUpdate?
    && a.link.registration.IsRegistered()
    && |a.work.queue.entries| + Added(a, e.now, e.frame.message.status) > MAX_COMMAND_QUEUE
  }

  lemma {:induction false} PushAllLength(q: Queue, commands: seq<Command>, origin: Origin)
    ensures |q.PushAll(commands, origin).entries| == |q.entries| + |commands|
  {
    if commands != [] {
      PushAllLength(q, commands[..|commands| - 1], origin);
    }
  }

  lemma StatusLength(a: App, now: nat, status: Status)
    ensures |OnStatus(a, now, status).app.work.queue.entries| == |a.work.queue.entries| + Added(a, now, status)
  {
    var retries := Retries(a.work.tracker.pending, status, now);
    PushAllLength(a.work.queue, retries, FromRetry);
    PushAllLength(a.work.queue.PushAll(retries, FromRetry), Expiring(a.work.pumpTimers, now, status.pumps, 6), FromTimer);
  }

  lemma RequestedFits(q: Queue, command: Command)
    requires |q.entries| <= MAX_COMMAND_QUEUE
    ensures |Requested(q, command).entries| <= MAX_COMMAND_QUEUE
  {}

  lemma OtherFrameFits(a: App, now: nat, frame: Frame)
    requires !(a.link.registration.IsRegistered() && frame.message.StatusUpdate?)
    ensures |ProcessFrame(a, now, frame).app.work.queue.entries| <= |a.work.queue.entries|
  {}

  /** A queue within its capacity stays so at every event, except at a status that adds too much. */
  lemma QueueFitsIff(a: App, e: Event)
    requires |a.work.queue.entries| <= MAX_COMMAND_QUEUE
    ensures |Perform(a, e).app.work.queue.entries| <= MAX_COMMAND_QUEUE <==> !Overfills(a, e)
  {
    match e
    case FrameArrives(now, frame) =>
      if a.link.registration.IsRegistered() && frame.message.StatusUpdate? {
        StatusLength(a, now, frame.message.status);
      } else {
        OtherFrameFits(a, now, frame);
      }
    case MqttCommand(command) => RequestedFits(a.work.queue, command);
    case TickElapses(_) =>
    case PumpTimerStarts(_, _, _) =>
  }

  // ---- A queue of any length ----------------------------------------------------------

  /** Registered, with nothing tracked or timed. */
  predicate Idle(a: App) {
    && a.link.registration.IsRegistered()
    && a.work.tracker.pending == []
    && forall i :: 0 <= i < 6 ==> a.work.pumpTimers[i].startedAt == None
  }

  /** The first pump is on. */
  const PUMP_ON: Status :=
    StatusFields(None, [High, Off, Off, Off, Off, Off], [false, false, false, false], false, false, Ready, LowRange)

  function Query(now: nat): Event {
    FrameArrives(now, Frame(Some(NewClientQuery), OtherMessage))
  }

  function Grant(now: nat, hash: (u8, u8), channel: u8): Event {
    FrameArrives(now, Frame(Some(ClientIdAssignment(channel, hash)), OtherMessage))
  }

  /** Registration, with whatever channel is granted. */
  function Handshake(now: nat, hash: (u8, u8), channel: u8): seq<Event> {
    [Query(now), Grant(now, hash, channel)]
  }

  /** Time in which a timer runs off. */
  function Later(now: nat, minutes: nat): nat {
    now + minutes * 60 * 1000
  }

  /** When a number of rounds is over, each as long as the timer of the first pump runs. */
  function RoundsOver(now: nat, minutes: nat, n: nat): nat {
    if n == 0 then now else Later(RoundsOver(now, minutes, n - 1), minutes)
  }

  /** The timer of the first pump is started; a status shows that pump on. */
  function Started(minutes: nat, at: nat): Event {
    PumpTimerStarts(1, minutes, at)
  }

  function Seen(at: nat): Event {
    FrameArrives(at, Frame(None, StatusUpdate(PUMP_ON)))
  }

  /** Again and again that timer is started, and has run off by the time of the status. */
  function Rounds(now: nat, minutes: nat, n: nat): seq<Event> {
    if n == 0 then [] else
      var at := RoundsOver(now, minutes, n - 1);
      Rounds(now, minutes, n - 1)
      + [Started(minutes, at), Seen(Later(at, minutes))]
  }

  lemma EndNext(a: App, es: seq<Event>, e: Event)
    ensures End(a, es + [e]) == Perform(End(a, es), e).app
  {
    assert (es + [e])[..|es|] == es;
  }

  /** Of six timers only the first has been started, and that has run off. */
  predicate FirstOff(timers: PumpTimers, now: nat) {
    && timers[0].Tick(now, High) == (timers[0].Cancel(), true)
    && forall i :: 1 <= i < 6 ==> timers[i].startedAt == None
  }

  lemma {:induction false} FirstExpires(timers: PumpTimers, now: nat, pumps: seq<PumpState>, n: nat)
    requires |pumps| == 6 && pumps[0] == High && n <= 6 && FirstOff(timers, now)
    ensures |Expiring(timers, now, pumps, n)| == if n == 0 then 0 else 1
  {
    if n > 0 {
      FirstExpires(timers, now, pumps, n - 1);
    }
  }

  lemma StartFirst(a: App, minutes: nat, now: nat)
    requires Idle(a)
    ensures var b := Perform(a, PumpTimerStarts(1, minutes, now)).app;
            && b.link == a.link && b.holdTimer == a.holdTimer
            && b.work.queue == a.work.queue && b.work.tracker == a.work.tracker
            && FirstOff(b.work.pumpTimers, Later(now, minutes))
  {}

  lemma SeeFirst(a: App, now: nat)
    requires a.link.registration.IsRegistered() && a.work.tracker.pending == [] && FirstOff(a.work.pumpTimers, now)
    ensures var b := Perform(a, FrameArrives(now, Frame(None, StatusUpdate(PUMP_ON)))).app;
            Idle(b) && |b.work.queue.entries| == |a.work.queue.entries| + 1
  {
    StatusLength(a, now, PUMP_ON);
    FirstExpires(a.work.pumpTimers, now, PUMP_ON.pumps, 6);
  }

  lemma OneRound(a: App, minutes: nat, at: nat)
    requires Idle(a)
    ensures var b := Perform(Perform(a, Started(minutes, at)).app, Seen(Later(at, minutes))).app;
            Idle(b) && |b.work.queue.entries| == |a.work.queue.entries| + 1
  {
    StartFirst(a, minutes, at);
    SeeFirst(Perform(a, Started(minutes, at)).app, Later(at, minutes));
  }

  predicate IdleWith(a: App, n: nat) {
    Idle(a) && |a.work.queue.entries| == n
  }

  lemma TwoMore(es: seq<Event>, e: Event, f: Event)
    ensures es + [e, f] == es + [e] + [f]
  {}

  lemma Joined(a: seq<Event>, b: seq<Event>, c: seq<Event>)
    ensures a + (b + c) == (a + b) + c
  {}

  lemma EndTwo(a: App, es: seq<Event>, e: Event, f: Event)
    ensures End(a, es + [e, f]) == Perform(Perform(End(a, es), e).app, f).app
  {
    TwoMore(es, e, f);
    EndNext(a, es, e);
    EndNext(a, es + [e], f);
  }

  lemma RoundEnds(a: App, es: seq<Event>, minutes: nat, at: nat, n: nat)
    requires IdleWith(End(a, es), n)
    ensures IdleWith(End(a, es + [Started(minutes, at), Seen(Later(at, minutes))]), n + 1)
  {
    EndTwo(a, es, Started(minutes, at), Seen(Later(at, minutes)));
    OneRound(End(a, es), minutes, at);
  }

  lemma {:induction false} RoundsGrow(a: App, es: seq<Event>, now: nat, minutes: nat, n: nat)
    requires IdleWith(End(a, es), 0)
    ensures IdleWith(End(a, es + Rounds(now, minutes, n)), n)
  {
    if n == 0 {
      assert es + [] == es;
    } else {
      var at, before := RoundsOver(now, minutes, n - 1), es + Rounds(now, minutes, n - 1);
      RoundsGrow(a, es, now, minutes, n - 1);
      RoundEnds(a, before, minutes, at, n - 1);
      Joined(es, Rounds(now, minutes, n - 1), [Started(minutes, at), Seen(Later(at, minutes))]);
    }
  }

  lemma Granted(now: nat, hash: (u8, u8), channel: u8)
    ensures var (query, grant) := (Query(now), Grant(now, hash, channel));
            IdleWith(Perform(Perform(Boot(now, hash, None), query).app, grant).app, 0)
  {}

  lemma HandshakeRegisters(now: nat, hash: (u8, u8), channel: u8)
    ensures IdleWith(End(Boot(now, hash, None), Handshake(now, hash, channel)), 0)
  {
    EndTwo(Boot(now, hash, None), [], Query(now), Grant(now, hash, channel));
    Granted(now, hash, channel);
    assert [] + Handshake(now, hash, channel) == Handshake(now, hash, channel);
  }

  /**
   * No length bounds the queue over all runs: starting a pump timer and letting it run off
   * in turn, with no Ready in between, queues one more toggle each time.
   */
  lemma QueueUnbounded(now: nat, hash: (u8, u8), channel: u8, minutes: nat, n: nat)
    ensures |End(Boot(now, hash, None), Handshake(now, hash, channel) + Rounds(now, minutes, n)).work.queue.entries| == n
  {
    HandshakeRegisters(now, hash, channel);
    RoundsGrow(Boot(now, hash, None), Handshake(now, hash, channel), now, minutes, n);
  }
}
