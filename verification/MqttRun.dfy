/** The client class on a whole stream of messages, read by read. */
module MqttRun {
  import opened Bytes
  import opened Mqtt
  import opened MqttBuffer
  import opened MqttPublish
  import opened MqttSession
  import opened MqttClient

  lemma {:induction false} HandleConcat(a: seq<Answer>, b: seq<Answer>)
    ensures Handle(a + b) == Then(Handle(a), Handle(b))
    decreases |a|
  {
    if a == [] {
      assert a + b == b;
      StartsEmpty(Handle(b));
    } else {
      assert (a + b)[1..] == a[1..] + b;
      HandleConcat(a[1..], b);
      ThenAssociative(One(a[0]), Handle(a[1..]), Handle(b));
    }
  }

  lemma ProcessConcat(a: seq<bytes>, b: seq<bytes>, valid: bytes -> bool)
    ensures ProcessAll(a + b, valid) == ProcessAll(a, valid) + ProcessAll(b, valid)
  {}

  /** With `data` waiting, the reads still to come complete what has been handled to the goal. */
  ghost predicate OnTheWay(data: bytes, todo: seq<bytes>, done: Session, goal: Session, valid: bytes -> bool) {
    var later := ReceiveBounded(data, todo);
    && done.alive && goal.alive
    && later.Some? && later.value.1 == []
    && Then(done, Handle(ProcessAll(later.value.0, valid))) == goal
  }

  /** One read fits, what it completes is handled, and the rest is still on the way. */
  lemma ReadNext(data: bytes, todo: seq<bytes>, done: Session, goal: Session, valid: bytes -> bool)
    requires todo != [] && OnTheWay(data, todo, done, goal, valid)
    ensures |data| + |todo[0]| <= RX_BUFFER_MAX
    ensures var s := Handle(Todo(data + todo[0], valid));
            s.alive && OnTheWay(ExtractAll(data + todo[0]).1, todo[1..], Then(done, s), goal, valid)
  {
    var now := ExtractAll(data + todo[0]);
    var later := ReceiveBounded(now.1, todo[1..]).value;
    var s, rest := Handle(ProcessAll(now.0, valid)), Handle(ProcessAll(later.0, valid));
    ProcessConcat(now.0, later.0, valid);
    HandleConcat(ProcessAll(now.0, valid), ProcessAll(later.0, valid));
    ThenAssociative(done, s, rest);
  }

  lemma Arrived(data: bytes, done: Session, goal: Session, valid: bytes -> bool)
    requires OnTheWay(data, [], done, goal, valid)
    ensures data == [] && done == goal
  {
    assert done.messages + [] == done.messages && done.sent + [] == done.sent;
  }

  /** What arrives, as long as no packet is too long for the buffer. */
  lemma SetsOut(ms: seq<Outgoing>, chunks: seq<bytes>, valid: bytes -> bool)
    requires Sendable(ms, valid) && IsCut(chunks, EncodeAll(ms))
    requires forall i: nat :: i < |ms| ==> !TooLongAt(EncodeAll(ms), i)
    ensures OnTheWay([], chunks, Session([], [], true), Session(Contents(ms), Acks(ms), true), valid)
  {
    forall i | 0 <= i < |ms|
      ensures PacketSize(EncodeAll(ms)[i]) == Some(|EncodeAll(ms)[i]|)
    {
      MessageArrives(ms[i], valid);
    }
    NeverOverfull(EncodeAll(ms), chunks);
    MessagesArrive(ms, valid);
    StartsEmpty(Session(Contents(ms), Acks(ms), true));
  }

  /** Store one read and ask for all messages that it completes. */
  method ReadOnce(client: Client, read: bytes, valid: bytes -> bool)
    returns (messages: seq<(bytes, bytes)>, alive: bool)
    requires |client.rx.data| + |read| <= RX_BUFFER_MAX
    modifies client, client.rx
    ensures var s := Handle(Todo(old(client.rx.data) + read, valid));
            && messages == s.messages && alive == s.alive && client.sent == old(client.sent) + s.sent
            && (alive ==> client.rx.data == ExtractAll(old(client.rx.data) + read).1)
  {
    var ok := client.Feed(read);
    messages, alive := client.RecvAll(valid);
  }

  /**
   * Any list of messages that the codec can carry, none of them too long for the receive buffer,
   * in reads of at most 512 bytes cut anyhow: a new client hands over exactly these messages,
   * sends exactly their acknowledgements, and keeps nothing.
   */
  method Deliver(ghost ms: seq<Outgoing>, chunks: seq<bytes>, valid: bytes -> bool)
    returns (messages: seq<(bytes, bytes)>, client: Client)
    requires Sendable(ms, valid) && IsCut(chunks, EncodeAll(ms))
    requires forall i: nat :: i < |ms| ==> !TooLongAt(EncodeAll(ms), i)
    ensures fresh(client) && messages == Contents(ms) && client.sent == Acks(ms) && client.rx.data == []
  {
    client := new Client();
    messages := [];
    ghost var goal, done := Session(Contents(ms), Acks(ms), true), Session([], [], true);
    SetsOut(ms, chunks, valid);
    assert chunks[0..] == chunks;
    for i := 0 to |chunks|
      invariant fresh(client) && fresh(client.rx)
      invariant done.messages == messages && done.sent == client.sent
      invariant OnTheWay(client.rx.data, chunks[i..], done, goal, valid)
    {
      assert chunks[i..][0] == chunks[i] && chunks[i..][1..] == chunks[i + 1..];
      ReadNext(client.rx.data, chunks[i..], done, goal, valid);
      done := Then(done, Handle(Todo(client.rx.data + chunks[i], valid)));
      var more, alive := ReadOnce(client, chunks[i], valid);
      messages := messages + more;
    }
    Arrived(client.rx.data, done, goal, valid);
  }
}
