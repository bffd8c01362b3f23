/**
 * PUBLISH packets (MQTT 3.1.1, section 3.3): the codec's encoder and parser, and the parser
 * that the client has of its own.
 */
module MqttPublish {
  import opened Bytes
  import opened Mqtt

  /** A message as the parser returns it; the topic is the bytes of a string. */
  datatype Publish = Publish(topic: bytes, payload: bytes, packetId: Option<u16>)

  datatype PublishError = InvalidQoS(qos: u8) | MissingPacketId
  datatype ParseError = TooShort | NotPublish(first: u8) | InvalidRemainingLength | InvalidTopic

  // ---- The codec ----------------------------------------------------------------------

  /** Topic length (truncated to 16 bits), topic, packet id, payload. */
  function Body(m: Publish): bytes {
    ToBe16(|m.topic| % 0x1_0000) + m.topic + IdBytes(m) + m.payload
  }

  function IdBytes(m: Publish): bytes {
    if m.packetId.Some? then ToBe16(m.packetId.value) else []
  }

  function FirstByte(qos: u8, retain: bool): u8
    requires qos <= 1
  {
    0x30 + 2 * qos + if retain then 1 else 0
  }

  function Packet(first: u8, m: Publish): bytes {
    [first] + EncodeLength(|Body(m)|) + Body(m)
  }

  method EncodePublish(topic: bytes, payload: bytes, qos: u8, retain: bool, packetId: Option<u16>)
    returns (r: Result<bytes, PublishError>)
    ensures r == if qos > 1 then Err(InvalidQoS(qos))
                 else if qos == 1 && packetId == None then Err(MissingPacketId)
                 else Ok(Packet(FirstByte(qos, retain), Publish(topic, payload, if qos == 1 then packetId else None)))
  {
    if qos > 1 {
      return Err(InvalidQoS(qos));
    }
    var packet: bytes := [FirstByte(qos, retain)];
    var remaining := 2 + |topic| + |payload|;
    if qos > 0 {
      remaining := remaining + 2;
    }
    packet := EncodeRemainingLength(packet, remaining);
    packet := packet + ToBe16(|topic| % 0x1_0000);
    packet := packet + topic;
    if qos > 0 {
      if packetId == None {
        return Err(MissingPacketId);
      }
      packet := packet + ToBe16(packetId.value);
    }
    packet := packet + payload;
    r := Ok(packet);
    ghost var m := Publish(topic, payload, if qos == 1 then packetId else None);
    assert packet == [FirstByte(qos, retain)] + EncodeLength(|Body(m)|) + Body(m);
  }

  /** QoS of a first byte. */
  function Qos(first: u8): nat {
    first / 2 % 4
  }

  /** The body of a PUBLISH whose QoS says whether a packet id follows the topic. */
  function ParseBody(body: bytes, qos: nat, valid: bytes -> bool): Result<Publish, ParseError> {
    if |body| < 2 then Err(TooShort) else
      var topicLen := FromBe16(body[0], body[1]);
      if |body| < 2 + topicLen then Err(TooShort) else
        var idx := 2 + topicLen;
        var topic := body[2..idx];
        if !valid(topic) then Err(InvalidTopic)
        else if qos == 0 then Ok(Publish(topic, body[idx..], None))
        else if |body| < idx + 2 then Err(TooShort)
        else Ok(Publish(topic, body[idx + 2..], Some(FromBe16(body[idx], body[idx + 1]))))
  }

  /** The codec's parser; `valid` says which bytes are UTF-8. */
  function ParsePublish(buf: bytes, valid: bytes -> bool): Result<Publish, ParseError> {
    if buf == [] then Err(TooShort)
    else if buf[0] / 0x10 != 3 then Err(NotPublish(buf[0]))
    else
      match DecodeLength(buf)
      case None => Err(InvalidRemainingLength)
      case Some((remaining, header)) =>
        if |buf| < header + remaining then Err(TooShort)
        else
          HeaderAtMost(buf);
          ParseBody(buf[header..header + remaining], Qos(buf[0]), valid)
  }

  lemma HeaderAtMost(buf: bytes)
    ensures DecodeLength(buf).Some? ==> 2 <= DecodeLength(buf).value.1 <= |buf|
  {
    DecodedHeader(buf, 1, LENGTH_BYTES);
  }

  lemma Be16RoundTrip(x: u16)
    ensures FromBe16(ToBe16(x)[0], ToBe16(x)[1]) == x
  {}

  lemma Pieces(a: bytes, b: bytes, c: bytes, d: bytes)
    ensures var all := a + b + c + d;
            && |all| == |a| + |b| + |c| + |d|
            && all[..|a|] == a
            && all[|a|..|a| + |b|] == b
            && all[|a| + |b|..|a| + |b| + |c|] == c
            && all[|a| + |b| + |c|..] == d
  {}

  lemma At(all: bytes, part: bytes, from: nat, k: nat)
    requires from + |part| <= |all| && all[from..from + |part|] == part && k < |part|
    ensures all[from + k] == part[k]
  {
    assert all[from..from + |part|][k] == part[k];
  }

  lemma BodyLayout(m: Publish)
    ensures var n, end := |IdBytes(m)|, 2 + |m.topic|;
            && |Body(m)| == end + n + |m.payload|
            && FromBe16(Body(m)[0], Body(m)[1]) == |m.topic| % 0x1_0000
            && Body(m)[2..end] == m.topic
            && Body(m)[end + n..] == m.payload
            && (n == 2 ==> FromBe16(Body(m)[end], Body(m)[end + 1]) == m.packetId.value)
  {
    var length, end := ToBe16(|m.topic| % 0x1_0000), 2 + |m.topic|;
    Be16RoundTrip(|m.topic| % 0x1_0000);
    Pieces(length, m.topic, IdBytes(m), m.payload);
    At(Body(m), length, 0, 0);
    At(Body(m), length, 0, 1);
    if m.packetId.Some? {
      Be16RoundTrip(m.packetId.value);
      At(Body(m), IdBytes(m), end, 0);
      At(Body(m), IdBytes(m), end, 1);
    }
  }

  /** A body parses back to its message exactly when the topic's length fits 16 bits. */
  lemma BodyRoundTrip(m: Publish, qos: nat, valid: bytes -> bool)
    requires valid(m.topic)
    requires qos == if m.packetId.Some? then 1 else 0
    ensures ParseBody(Body(m), qos, valid) == Ok(m) <==> |m.topic| < 0x1_0000
  {
    BodyLayout(m);
    if |m.topic| < 0x1_0000 {
      ParseFits(Body(m), m, qos, valid);
    } else {
      ParseTruncated(Body(m), m, qos, valid);
    }
  }

  /** A body laid out for a message whose topic length is right parses to it. */
  lemma ParseFits(body: bytes, m: Publish, qos: nat, valid: bytes -> bool)
    requires valid(m.topic) && qos == if m.packetId.Some? then 1 else 0
    requires |body| >= 2 && FromBe16(body[0], body[1]) == |m.topic|
    requires var end := 2 + |m.topic|;
             && end + 2 * qos <= |body| && body[2..end] == m.topic && body[end + 2 * qos..] == m.payload
             && (qos == 1 ==> FromBe16(body[end], body[end + 1]) == m.packetId.value)
    ensures ParseBody(body, qos, valid) == Ok(m)
  {}

  /** Whatever is parsed from a body has the topic length that the body says. */
  lemma ParseTruncated(body: bytes, m: Publish, qos: nat, valid: bytes -> bool)
    requires |body| >= 2 && FromBe16(body[0], body[1]) < |m.topic|
    ensures ParseBody(body, qos, valid) != Ok(m)
  {
    var parsed := ParseBody(body, qos, valid);
    assert parsed.Ok? ==> |parsed.value.topic| == FromBe16(body[0], body[1]);
  }

  /** What the codec can carry: a 16-bit topic length and five length bytes. */
  predicate Fits(m: Publish) {
    |m.topic| < 0x1_0000 && |Body(m)| < DECODER_LIMIT
  }

  lemma PacketHeader(first: u8, m: Publish)
    ensures DecodeLength(Packet(first, m))
         == if |Body(m)| < DECODER_LIMIT then Some((|Body(m)|, 1 + |EncodeLength(|Body(m)|)|)) else None
    ensures Packet(first, m)[1 + |EncodeLength(|Body(m)|)|..] == Body(m)
  {
    LengthRoundTrip(first, |Body(m)|, Body(m));
  }

  /** A packet of exactly its announced length is parsed by its body. */
  lemma ParseWhole(buf: bytes, header: nat, valid: bytes -> bool)
    requires buf != [] && buf[0] / 0x10 == 3 && header <= |buf|
    requires DecodeLength(buf) == Some((|buf| - header, header))
    ensures ParsePublish(buf, valid) == ParseBody(buf[header..], Qos(buf[0]), valid)
  {
    assert buf[header..header + (|buf| - header)] == buf[header..];
  }

  /** Encoding followed by parsing gives the message back exactly when the codec can carry it. */
  lemma PublishRoundTrip(qos: u8, retain: bool, m: Publish, valid: bytes -> bool)
    requires qos <= 1 && (qos == 1 <==> m.packetId.Some?) && valid(m.topic)
    ensures ParsePublish(Packet(FirstByte(qos, retain), m), valid) == Ok(m) <==> Fits(m)
  {
    var first := FirstByte(qos, retain);
    assert first / 0x10 == 3 && Qos(first) == qos;
    PacketHeader(first, m);
    if |Body(m)| < DECODER_LIMIT {
      ParseWhole(Packet(first, m), 1 + |EncodeLength(|Body(m)|)|, valid);
      BodyRoundTrip(m, qos, valid);
    }
  }

  /** An encoded message is one whole packet of a stream. */
  lemma PacketComplete(first: u8, m: Publish)
    requires |Body(m)| < DECODER_LIMIT
    ensures PacketSize(Packet(first, m)) == Some(|Packet(first, m)|)
  {
    PacketHeader(first, m);
  }

  // ---- The client's parser ------------------------------------------------------------

  /** The client's parser from the end of the fixed header on. */
  function InlineBody(packet: bytes, header: nat, qos: nat, valid: bytes -> bool): Option<Publish>
    requires header <= |packet|
  {
    var idx := header + 2;
    if |packet| < idx then None else
      var topicLen := FromBe16(packet[header], packet[header + 1]);
      var end := idx + topicLen;
      if |packet| < end then None else
        var topic := if valid(packet[idx..end]) then packet[idx..end] else [];
        if qos == 0 then Some(Publish(topic, packet[end..], None))
        else if |packet| < end + 2 then None
        else Some(Publish(topic, packet[end + 2..], Some(FromBe16(packet[end], packet[end + 1]))))
  }

  /** The client's own PUBLISH parser: no check of the total length, a bad topic becomes empty. */
  function ParseInline(packet: bytes, valid: bytes -> bool): Option<Publish>
    requires packet != []
  {
    match DecodeLength(packet)
    case None => None
    case Some((_, header)) =>
      HeaderAtMost(packet);
      InlineBody(packet, header, Qos(packet[0]), valid)
  }

  /** The message with a topic that is not UTF-8 made empty. */
  function Lenient(m: Publish, valid: bytes -> bool): Publish {
    if valid(m.topic) then m else m.(topic := [])
  }

  /** Whether a body has room for all that it must hold: its topic, and the packet id if there is one. */
  predicate LongEnough(body: bytes, qos: nat) {
    && |body| >= 2
    && |body| >= 2 + FromBe16(body[0], body[1]) as int + if qos == 0 then 0 else 2
  }

  /**
   * On a packet of exactly its announced length, which is what extraction hands over, the two
   * parsers agree wherever the codec's accepts, and differ only in what becomes of a topic that
   * is not UTF-8: there the client returns the message with an empty topic, exactly if the
   * packet is long enough.
   */
  lemma ParsersAgree(packet: bytes, valid: bytes -> bool)
    requires packet != [] && packet[0] / 0x10 == 3
    requires PacketSize(packet) == Some(|packet|)
    ensures match ParsePublish(packet, valid)
            case Ok(m) => ParseInline(packet, valid) == Some(m)
            case Err(InvalidTopic) =>
              var body, any := packet[DecodeLength(packet).value.1..], ParsePublish(packet, _ => true);
              if LongEnough(body, Qos(packet[0])) then
                any.Ok? && ParseInline(packet, valid) == Some(any.value.(topic := []))
              else
                any == Err(TooShort) && ParseInline(packet, valid) == None
            case Err(e) => e == TooShort && ParseInline(packet, valid) == None
  {
    var header := DecodeLength(packet).value.1;
    HeaderAtMost(packet);
    ParseWhole(packet, header, valid);
    ParseWhole(packet, header, _ => true);
    BodiesAgree(packet, header, Qos(packet[0]), valid);
    TopicsAside(packet[header..], Qos(packet[0]), valid);
  }

  /** The client's parser is the codec's with any topic accepted, and the bad ones emptied afterwards. */
  lemma BodiesAgree(packet: bytes, header: nat, qos: nat, valid: bytes -> bool)
    requires header <= |packet|
    ensures var any := ParseBody(packet[header..], qos, _ => true);
            InlineBody(packet, header, qos, valid) == if any.Ok? then Some(Lenient(any.value, valid)) else None
  {
    var body := packet[header..];
    if |body| >= 2 {
      var end: nat := 2 + FromBe16(body[0], body[1]) as int;
      if |body| >= end {
        assert body[2..end] == packet[header + 2..header + end];
        assert body[end..] == packet[header + end..];
        if |body| >= end + 2 {
          assert body[end + 2..] == packet[header + end + 2..];
        }
      }
    }
  }

  /** What the test of the topic makes of the parse of a body. */
  lemma TopicsAside(body: bytes, qos: nat, valid: bytes -> bool)
    ensures var any, r := ParseBody(body, qos, _ => true), ParseBody(body, qos, valid);
            && (any.Ok? <==> LongEnough(body, qos)) && (any.Err? ==> any == Err(TooShort))
            && (r.Ok? ==> any == r && valid(r.value.topic))
            && (r == Err(InvalidTopic) ==> (any.Ok? ==> !valid(any.value.topic)))
            && (r.Err? && r != Err(InvalidTopic) ==> r == any)
  {}

  /** The client's PUBLISH parser with its moving index. */
  method ReadPublish(packet: bytes, valid: bytes -> bool) returns (message: Option<Publish>)
    requires packet != []
    ensures message == ParseInline(packet, valid)
  {
    var qos := packet[0] / 2 % 4;
    var decoded := DecodeRemainingLength(packet);
    if decoded.None? {
      return None;
    }
    HeaderAtMost(packet);
    message := ReadBody(packet, decoded.value.1, qos, valid);
  }

  method ReadBody(packet: bytes, header: nat, qos: nat, valid: bytes -> bool) returns (message: Option<Publish>)
    requires header <= |packet|
    ensures message == InlineBody(packet, header, qos, valid)
  {
    var idx := header;
    if idx + 2 > |packet| {
      return None;
    }
    var topicLen: nat := FromBe16(packet[idx], packet[idx + 1]);
    idx := idx + 2;
    if idx + topicLen > |packet| {
      return None;
    }
    var text := packet[idx..idx + topicLen];
    var topic := if valid(text) then text else [];
    idx := idx + topicLen;
    var id: Option<u16> := None;
    if qos > 0 {
      if idx + 2 > |packet| {
        return None;
      }
      id := Some(FromBe16(packet[idx], packet[idx + 1]));
      idx := idx + 2;
    }
    message := Some(Publish(topic, packet[idx..], id));
  }
}
