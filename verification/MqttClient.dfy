/**
 * The MQTT client: how it handles packets, its receive loop, and the way of a list of messages
 * through a network that cuts them up anyhow.
 */
module MqttClient {
  import opened Bytes
  import opened Mqtt
  import opened MqttBuffer
  import opened MqttPublish
  import opened MqttSession

  function Puback(id: u16): bytes {
    [0x40, 0x02] + ToBe16(id)
  }

  /** What handling one packet comes to, and what is sent in answer. */
  function Process(packet: bytes, valid: bytes -> bool): Answer {
    if packet == [] then Answer(Handled, [])
    else if packet[0] / 0x10 == 3 then
      match ParseInline(packet, valid)
      case None => Answer(Fatal, [])
      case Some(m) => Answer(Message(m.topic, m.payload), if m.packetId.Some? then [Puback(m.packetId.value)] else [])
    else if packet[0] / 0x10 == 12 then Answer(Handled, [[0xD0, 0x00]])
    else if packet[0] / 0x10 == 14 then Answer(Fatal, [])
    else Answer(Handled, [])
  }

  function ProcessAll(packets: seq<bytes>, valid: bytes -> bool): seq<Answer> {
    seq(|packets|, i requires 0 <= i < |packets| => Process(packets[i], valid))
  }

  lemma ProcessFirst(packets: seq<bytes>, valid: bytes -> bool)
    requires packets != []
    ensures ProcessAll(packets, valid) == [Process(packets[0], valid)] + ProcessAll(packets[1..], valid)
    ensures ProcessAll(packets, valid)[1..] == ProcessAll(packets[1..], valid)
  {}

  // ---- Through the network ------------------------------------------------------------

  /** A message to send, with the encoder's other arguments. */
  datatype Outgoing = Outgoing(message: Publish, retain: bool) {
    function Qos(): u8 {
      if message.packetId.Some? then 1 else 0
    }

    function Encoded(): bytes {
      Packet(FirstByte(Qos(), retain), message)
    }
  }

  function EncodeAll(ms: seq<Outgoing>): seq<bytes> {
    seq(|ms|, i requires 0 <= i < |ms| => ms[i].Encoded())
  }

  function Contents(ms: seq<Outgoing>): seq<(bytes, bytes)> {
    seq(|ms|, i requires 0 <= i < |ms| => (ms[i].message.topic, ms[i].message.payload))
  }

  function Acks(ms: seq<Outgoing>): seq<bytes> {
    if ms == [] then [] else
      (if ms[0].message.packetId.Some? then [Puback(ms[0].message.packetId.value)] else []) + Acks(ms[1..])
  }

  predicate Sendable(ms: seq<Outgoing>, valid: bytes -> bool) {
    forall i :: 0 <= i < |ms| ==> valid(ms[i].message.topic) && Fits(ms[i].message)
  }

  lemma MessageArrives(m: Outgoing, valid: bytes -> bool)
    requires valid(m.message.topic) && Fits(m.message)
    ensures ParsePublish(m.Encoded(), valid) == Ok(m.message)
    ensures PacketSize(m.Encoded()) == Some(|m.Encoded()|)
    ensures Process(m.Encoded(), valid) == Answer(Message(m.message.topic, m.message.payload), Acks([m]))
  {
    PublishRoundTrip(m.Qos(), m.retain, m.message, valid);
    PacketComplete(FirstByte(m.Qos(), m.retain), m.message);
    ParsersAgree(m.Encoded(), valid);
    assert [m][1..] == [];
  }

  lemma {:induction false} MessagesArrive(ms: seq<Outgoing>, valid: bytes -> bool)
    requires Sendable(ms, valid)
    ensures Handle(ProcessAll(EncodeAll(ms), valid)) == Session(Contents(ms), Acks(ms), true)
  {
    if ms != [] {
      FirstOfAll(ms);
      MessageArrives(ms[0], valid);
      MessagesArrive(ms[1..], valid);
      ProcessFirst(EncodeAll(ms), valid);
    }
  }

  lemma FirstOfAll(ms: seq<Outgoing>)
    requires ms != []
    ensures EncodeAll(ms)[0] == ms[0].Encoded() && EncodeAll(ms)[1..] == EncodeAll(ms[1..])
    ensures Contents(ms) == [(ms[0].message.topic, ms[0].message.payload)] + Contents(ms[1..])
    ensures Acks(ms) == Acks([ms[0]]) + Acks(ms[1..])
  {
    assert [ms[0]][1..] == [];
  }

  /**
   * Any list of messages the codec can carry, encoded, joined up and cut into reads in any way,
   * arrives as the same topics and payloads in the same order, with one acknowledgement for
   * each message that has a packet id, and nothing is left over.
   */
  lemma MessagesSurviveSegmentation(ms: seq<Outgoing>, chunks: seq<bytes>, valid: bytes -> bool)
    requires Sendable(ms, valid)
    requires Join(chunks) == Join(EncodeAll(ms))
    ensures Receive([], chunks) == (EncodeAll(ms), [])
    ensures Handle(ProcessAll(Receive([], chunks).0, valid)) == Session(Contents(ms), Acks(ms), true)
    ensures forall i :: 0 <= i < |ms| ==> ParsePublish(Receive([], chunks).0[i], valid) == Ok(ms[i].message)
  {
    forall i | 0 <= i < |ms|
      ensures PacketSize(EncodeAll(ms)[i]) == Some(|EncodeAll(ms)[i]|)
      ensures ParsePublish(EncodeAll(ms)[i], valid) == Ok(ms[i].message)
    {
      MessageArrives(ms[i], valid);
    }
    ExtractJoined(EncodeAll(ms));
    assert [] + Join(chunks) == Join(chunks);
    ReassemblyIndependent([], chunks);
    MessagesArrive(ms, valid);
  }

  // ---- The client's receive loop ------------------------------------------------------

  /** What is still to be done with the bytes in the receive buffer. */
  function Todo(data: bytes, valid: bytes -> bool): seq<Answer> {
    ProcessAll(ExtractAll(data).0, valid)
  }

  lemma TodoFirst(data: bytes, valid: bytes -> bool)
    ensures match PacketSize(data)
            case None => Todo(data, valid) == [] && ExtractAll(data).1 == data
            case Some(n) => && Todo(data, valid) == [Process(data[..n], valid)] + Todo(data[n..], valid)
                            && ExtractAll(data).1 == ExtractAll(data[n..]).1
  {
    if PacketSize(data).Some? {
      var n := PacketSize(data).value;
      assert ExtractAll(data).0[1..] == ExtractAll(data[n..]).0;
      ProcessFirst(ExtractAll(data).0, valid);
    }
  }

  lemma TodoDone(data: bytes, valid: bytes -> bool)
    requires Todo(data, valid) == []
    ensures ExtractAll(data).1 == data
  {
    TodoFirst(data, valid);
  }

  lemma JoinSent(a: seq<bytes>, b: seq<bytes>, c: seq<bytes>)
    ensures a + (b + c) == (a + b) + c
  {}

  /** The client: its receive buffer and what it has sent in answer. */
  class Client {
    const rx: RxBuffer
    var sent: seq<bytes>

    constructor ()
      ensures fresh(rx) && rx.data == [] && sent == []
    {
      rx := new RxBuffer();
      sent := [];
    }

    /** Store one read; a buffer that would overflow is cleared and the connection ends. */
    method Feed(read: bytes) returns (ok: bool)
      modifies rx
      ensures ok == (|old(rx.data)| + |read| <= RX_BUFFER_MAX)
      ensures rx.data == if ok then old(rx.data) + read else []
    {
      if |rx.data| + |read| > RX_BUFFER_MAX {
        rx.Clear();
        return false;
      }
      rx.Append(read);
      ok := true;
    }

    method ProcessPackets(packet: bytes, valid: bytes -> bool) returns (r: Outcome)
      modifies this`sent
      ensures r == Process(packet, valid).outcome && sent == old(sent) + Process(packet, valid).sent
    {
      assert sent + [] == sent;
      if packet == [] {
        return Handled;
      }
      var kind := packet[0] / 0x10;
      if kind == 3 {
        r := ProcessPublish(packet, valid);
      } else if kind == 12 {
        sent := sent + [[0xD0, 0x00]];
        r := Handled;
      } else if kind == 14 {
        r := Fatal;
      } else {
        r := Handled;
      }
    }

    method ProcessPublish(packet: bytes, valid: bytes -> bool) returns (r: Outcome)
      requires packet != [] && packet[0] / 0x10 == 3
      modifies this`sent
      ensures r == Process(packet, valid).outcome && sent == old(sent) + Process(packet, valid).sent
    {
      assert sent + [] == sent;
      var message := ReadPublish(packet, valid);
      if message.None? {
        return Fatal;
      }
      if message.value.packetId.Some? {
        sent := sent + [Puback(message.value.packetId.value)];
      }
      r := Message(message.value.topic, message.value.payload);
    }

    /** Extract and handle one packet, if one is complete. */
    method ProcessNext(valid: bytes -> bool) returns (outcome: Option<Outcome>)
      modifies rx, this`sent
      ensures var todo := Todo(old(rx.data), valid);
              if todo == [] then outcome == None && rx.data == old(rx.data) && sent == old(sent)
              else && outcome == Some(todo[0].outcome) && sent == old(sent) + todo[0].sent
                   && Todo(rx.data, valid) == todo[1..] && |rx.data| < |old(rx.data)|
      ensures ExtractAll(rx.data).1 == ExtractAll(old(rx.data)).1
    {
      TodoFirst(rx.data, valid);
      var packet := rx.TryExtractPacket();
      if packet.None? {
        return None;
      }
      var r := ProcessPackets(packet.value, valid);
      outcome := Some(r);
    }

    /** `before` has been sent on the way to what asking from `start` on comes to. */
    ghost predicate Asking(valid: bytes -> bool, goal: Receipt, start: seq<bytes>, before: seq<bytes>)
      reads this, rx
    {
      sent == start + before && After(before, Next(Todo(rx.data, valid))) == goal
    }

    /** One packet on the way to the next message. */
    method Ask(valid: bytes -> bool, ghost goal: Receipt, ghost start: seq<bytes>, ghost before: seq<bytes>)
      returns (outcome: Option<Outcome>, ghost after: seq<bytes>)
      requires Asking(valid, goal, start, before)
      modifies rx, this`sent
      ensures ExtractAll(rx.data).1 == ExtractAll(old(rx.data)).1
      ensures outcome == Some(Handled) ==> Asking(valid, goal, start, after) && |rx.data| < |old(rx.data)|
      ensures outcome != Some(Handled) ==> sent == start + after && goal == Receipt(outcome, after, Todo(rx.data, valid))
    {
      ghost var todo := Todo(rx.data, valid);
      outcome := ProcessNext(valid);
      after := before;
      if todo == [] {
        assert before + [] == before;
      } else {
        after := before + todo[0].sent;
        JoinSent(start, before, todo[0].sent);
        AfterBoth(before, todo[0].sent, Next(todo[1..]));
      }
    }

    /** Hand over the next message, or say that the connection ends, or that a read is needed. */
    method Recv(valid: bytes -> bool) returns (outcome: Option<Outcome>)
      modifies rx, this`sent
      ensures var next := Next(Todo(old(rx.data), valid));
              outcome == next.outcome && sent == old(sent) + next.sent && Todo(rx.data, valid) == next.rest
      ensures ExtractAll(rx.data).1 == ExtractAll(old(rx.data)).1
    {
      ghost var goal, start, before := Next(Todo(rx.data, valid)), sent, [];
      ghost var residue := ExtractAll(rx.data).1;
      AfterNothing(goal);
      assert sent + [] == sent;
      while true
        invariant Asking(valid, goal, start, before) && ExtractAll(rx.data).1 == residue
        decreases |rx.data|
      {
        outcome, before := Ask(valid, goal, start, before);
        if outcome != Some(Handled) {
          return;
        }
      }
    }

    /** `done` has been handled on the way to `goal`, the sum of all. */
    ghost predicate Handling(valid: bytes -> bool, goal: Session, start: seq<bytes>, done: Session)
      reads this, rx
    {
      done.alive && sent == start + done.sent && Then(done, Handle(Todo(rx.data, valid))) == goal
    }

    /** One message on the way. */
    method HandleOne(valid: bytes -> bool, ghost goal: Session, ghost start: seq<bytes>, ghost done: Session)
      returns (outcome: Option<Outcome>, ghost next: Session)
      requires Handling(valid, goal, start, done)
      modifies rx, this`sent
      ensures ExtractAll(rx.data).1 == ExtractAll(old(rx.data)).1
      ensures sent == start + next.sent
      ensures next.messages == done.messages + (if outcome.Some? then Reported(outcome.value) else [])
      ensures Progress(goal, outcome, next, Todo(rx.data, valid), |Todo(old(rx.data), valid)|)
    {
      ghost var todo := Todo(rx.data, valid);
      HandleStep(done, goal, todo);
      next := Then(done, AsSession(Next(todo)));
      outcome := Recv(valid);
      JoinSent(start, done.sent, Next(todo).sent);
    }

    /** Ask for messages until a read is needed or the connection ends. */
    method RecvAll(valid: bytes -> bool) returns (messages: seq<(bytes, bytes)>, alive: bool)
      modifies rx, this`sent
      ensures var s := Handle(Todo(old(rx.data), valid));
              messages == s.messages && alive == s.alive && sent == old(sent) + s.sent
      ensures alive ==> rx.data == ExtractAll(old(rx.data)).1
    {
      messages, alive := [], true;
      ghost var done, goal, start := Session([], [], true), Handle(Todo(rx.data, valid)), sent;
      ghost var residue := ExtractAll(rx.data).1;
      StartsEmpty(goal);
      assert sent + [] == sent;
      while true
        invariant Handling(valid, goal, start, done) && done.messages == messages
        invariant ExtractAll(rx.data).1 == residue
        decreases |Todo(rx.data, valid)|
      {
        var outcome;
        outcome, done := HandleOne(valid, goal, start, done);
        if outcome.None? {
          TodoDone(rx.data, valid);
          return;
        }
        if !outcome.value.Message? {
          alive := false;
          return;
        }
        messages := messages + [(outcome.value.topic, outcome.value.payload)];
      }
    }
  }
}
