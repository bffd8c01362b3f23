/** A configuration on its way: the tool sends it, the bytes trickle in, the receiver polls for them. */
module SerialRun {
  import opened Bytes
  import opened SerialConfig

  /** Bytes cut into pieces of the given sizes, the rest in one piece. */
  function Cut(b: bytes, sizes: seq<nat>): seq<bytes>
    decreases |sizes|
  {
    if sizes == [] then [b] else
      var n := if sizes[0] <= |b| then sizes[0] else |b|;
      [b[..n]] + Cut(b[n..], sizes[1..])
  }

  lemma {:induction false} CutJoins(b: bytes, sizes: seq<nat>)
    ensures Join(Cut(b, sizes)) == b
    decreases |sizes|
  {
    if sizes == [] {
      assert [b][1..] == [];
    } else {
      var n := if sizes[0] <= |b| then sizes[0] else |b|;
      CutJoins(b[n..], sizes[1..]);
      assert ([b[..n]] + Cut(b[n..], sizes[1..]))[1..] == Cut(b[n..], sizes[1..]);
    }
  }

  function Configs(events: seq<Event>): seq<AppConfig> {
    if events == [] then [] else (if events[0].Configured? then [events[0].config] else []) + Configs(events[1..])
  }

  function Responses(events: seq<Event>): bytes {
    if events == [] then [] else Response(events[0]) + Responses(events[1..])
  }

  /** However often it is polled, every configuration that comes out is free of line breaks and long lines. */
  lemma {:induction false} PollsArePlain(r: Receiver, fifo: bytes, chunks: seq<bytes>, valid: bytes -> bool)
    requires PlainReceiver(r)
    ensures forall config :: config in Configs(Polls(r, fifo, chunks, valid).1) ==> Plain(config)
    decreases |chunks|
  {
    if chunks != [] {
      var p := Polled(r, fifo + chunks[0], valid);
      OnlyPlainReceived(r, fifo + chunks[0], valid);
      PolledStaysPlain(r, fifo + chunks[0], valid);
      PollsArePlain(p.0, p.2, chunks[1..], valid);
      ConfigsFirst(p.1, Polls(p.0, p.2, chunks[1..], valid).1);
    }
  }

  function AsEvents(event: Option<Event>): seq<Event> {
    if event.Some? then [event.value] else []
  }

  lemma OneEvent(event: Event)
    ensures Configs([event]) == (if event.Configured? then [event.config] else []) && Responses([event]) == Response(event)
  {
    assert [event][1..] == [];
  }

  lemma OneMore(event: Event, events: seq<Event>)
    ensures Configs([event] + events) == (if event.Configured? then [event.config] else []) + Configs(events)
    ensures Responses([event] + events) == Response(event) + Responses(events)
  {
    assert ([event] + events)[1..] == events;
  }

  lemma ConfigsFirst(event: Option<Event>, events: seq<Event>)
    ensures Configs(AsEvents(event) + events) == Configs(AsEvents(event)) + Configs(events)
    ensures Responses(AsEvents(event) + events) == Responses(AsEvents(event)) + Responses(events)
  {
    if event.Some? {
      OneEvent(event.value);
      OneMore(event.value, events);
    } else {
      assert [] + events == events;
    }
  }

  lemma {:induction false} PolledStaysPlain(r: Receiver, fifo: bytes, valid: bytes -> bool)
    requires PlainReceiver(r)
    ensures PlainReceiver(Polled(r, fifo, valid).0)
    decreases |fifo|
  {
    if fifo != [] {
      StepPlain(r, fifo[0], valid);
      if Step(r, fifo[0], valid).1 == None {
        PolledStaysPlain(Step(r, fifo[0], valid).0, fifo[1..], valid);
      }
    }
  }

  /** What the receiver has reported, and what is still to come from the bytes left to arrive. */
  ghost predicate Polling(receiver: SerialConfigReceiver, fifo: bytes, todo: seq<bytes>, valid: bytes -> bool,
                          configs: seq<AppConfig>, responses: bytes, goal: (Receiver, seq<Event>, bytes))
    reads receiver
  {
    PollingFrom(receiver.State(), fifo, todo, valid, configs, responses, goal)
  }

  ghost predicate PollingFrom(r: Receiver, fifo: bytes, todo: seq<bytes>, valid: bytes -> bool,
                              configs: seq<AppConfig>, responses: bytes, goal: (Receiver, seq<Event>, bytes))
  {
    var rest := Polls(r, fifo, todo, valid);
    && rest.0 == goal.0 && rest.2 == goal.2
    && configs + Configs(rest.1) == Configs(goal.1)
    && responses + Responses(rest.1) == Responses(goal.1)
  }

  lemma Regroup<T>(a: seq<T>, b: seq<T>, c: seq<T>)
    ensures a + (b + c) == (a + b) + c
  {}

  lemma PollNext(r: Receiver, fifo: bytes, todo: seq<bytes>, valid: bytes -> bool,
                 configs: seq<AppConfig>, responses: bytes, goal: (Receiver, seq<Event>, bytes))
    requires todo != [] && PollingFrom(r, fifo, todo, valid, configs, responses, goal)
    ensures var (next, event, left) := Polled(r, fifo + todo[0], valid);
            PollingFrom(next, left, todo[1..], valid, configs + Configs(AsEvents(event)),
                        responses + Responses(AsEvents(event)), goal)
  {
    var (next, event, left) := Polled(r, fifo + todo[0], valid);
    var later := Polls(next, left, todo[1..], valid).1;
    ConfigsFirst(event, later);
    Regroup(configs, Configs(AsEvents(event)), Configs(later));
    Regroup(responses, Responses(AsEvents(event)), Responses(later));
  }

  /** Poll the receiver each time another piece has arrived. */
  method PollAll(receiver: SerialConfigReceiver, chunks: seq<bytes>, valid: bytes -> bool)
    returns (configs: seq<AppConfig>, responses: bytes, fifo: bytes)
    modifies receiver
    ensures var goal := Polls(old(receiver.State()), [], chunks, valid);
            && receiver.State() == goal.0 && fifo == goal.2
            && configs == Configs(goal.1) && responses == Responses(goal.1)
  {
    configs, responses, fifo := [], [], [];
    ghost var goal := Polls(receiver.State(), [], chunks, valid);
    assert [] + Configs(goal.1) == Configs(goal.1) && [] + Responses(goal.1) == Responses(goal.1);
    assert chunks[0..] == chunks;
    for i := 0 to |chunks|
      invariant Polling(receiver, fifo, chunks[i..], valid, configs, responses, goal)
    {
      assert chunks[i..][0] == chunks[i] && chunks[i..][1..] == chunks[i + 1..];
      PollNext(receiver.State(), fifo, chunks[i..], valid, configs, responses, goal);
      ghost var event := Polled(receiver.State(), fifo + chunks[i], valid).1;
      var config, response;
      config, fifo, response := receiver.Poll(fifo + chunks[i], valid);
      if event.Some? {
        OneEvent(event.value);
      }
      configs := configs + if config.Some? then [config.value] else [];
      responses := responses + response;
    }
  }

  /**
   * From the tool to a new receiver, the bytes arriving in pieces of any sizes: the configuration
   * comes out exactly if it is plain, and then it is all that comes out, is acknowledged once
   * and leaves nothing over.
   */
  method Transfer(c: AppConfig, sizes: seq<nat>, valid: bytes -> bool)
    returns (configs: seq<AppConfig>, responses: bytes, fifo: bytes)
    requires Utf8(c, valid)
    ensures c in configs <==> Plain(c)
    ensures Plain(c) ==> configs == [c] && responses == Ascii("CONFIG_OK\n") && fifo == []
  {
    var port := SendConfig(c);
    var receiver := new SerialConfigReceiver();
    var chunks := Cut(port, sizes);
    CutJoins(port, sizes);
    ConfigRoundTrip(c, chunks, valid);
    PollsArePlain(FRESH, [], chunks, valid);
    OneEvent(Configured(c));
    configs, responses, fifo := PollAll(receiver, chunks, valid);
  }
}
