/**
 * MQTT 3.1.1 framing: the variable-length remaining length (section 2.2.3), packets cut out of
 * a byte stream, and PUBLISH packets (section 3.3).
 */
module Mqtt {
  import opened Bytes

  // ---- Remaining length ---------------------------------------------------------------

  /** The decoder takes up to five length bytes, one more than the standard has. */
  const LENGTH_BYTES: nat := 5
  /** The largest remaining length of the standard, four length bytes. */
  const MAX_REMAINING: nat := 268_435_455
  /** What five length bytes can express, exclusively. */
  const DECODER_LIMIT: nat := 34_359_738_368

  function EncodeLength(len: nat): (r: bytes)
    ensures 0 < |r|
  {
    if len < 0x80 then [len] else [0x80 + len % 0x80] + EncodeLength(len / 0x80)
  }

  /** The length that starts at `at`, within `budget` bytes, and where it ends. */
  function DecodeFrom(buf: bytes, at: nat, budget: nat): Option<(nat, nat)>
    decreases budget
  {
    if at >= |buf| || budget == 0 then None
    else if buf[at] < 0x80 then Some((buf[at], at + 1))
    else
      match DecodeFrom(buf, at + 1, budget - 1)
      case None => None
      case Some((rest, end)) => Some((buf[at] - 0x80 + 0x80 * rest, end))
  }

  /** Remaining length and header size of the packet at the front of the buffer. */
  function DecodeLength(buf: bytes): Option<(nat, nat)> {
    DecodeFrom(buf, 1, LENGTH_BYTES)
  }

  method EncodeRemainingLength(buf: bytes, length: nat) returns (r: bytes)
    ensures r == buf + EncodeLength(length)
  {
    r := buf;
    var len := length;
    while true
      invariant r + EncodeLength(len) == buf + EncodeLength(length)
      decreases len
    {
      var byte: int := len % 0x80;
      var rest := len / 0x80;
      if rest > 0 {
        byte := byte + 0x80;
      }
      assert rest > 0 ==> EncodeLength(len) == [byte] + EncodeLength(rest);
      r := r + [byte];
      if rest == 0 {
        return;
      }
      len := rest;
    }
  }

  /** The decoder's loop carries `value` and `multiplier`; here is what they stand for. */
  function Scaled(value: nat, multiplier: nat, rest: Option<(nat, nat)>): Option<(nat, nat)> {
    match rest
    case None => None
    case Some((v, end)) => Some((value + multiplier * v, end))
  }

  lemma ScaledStep(value: nat, multiplier: nat, buf: bytes, idx: nat, budget: nat, next: nat)
    requires idx < |buf| && budget > 0
    requires next == value + (buf[idx] % 0x80) * multiplier
    ensures Scaled(value, multiplier, DecodeFrom(buf, idx, budget))
         == if buf[idx] < 0x80 then Some((next, idx + 1))
            else Scaled(next, multiplier * 0x80, DecodeFrom(buf, idx + 1, budget - 1))
  {
    var rest := DecodeFrom(buf, idx + 1, budget - 1);
    if buf[idx] < 0x80 {
      assert buf[idx] % 0x80 == buf[idx];
    } else if rest.Some? {
      assert buf[idx] % 0x80 == buf[idx] - 0x80;
      Distribute(value, multiplier, buf[idx] - 0x80, rest.value.0);
    }
  }

  lemma Distribute(value: nat, multiplier: nat, low: nat, rest: nat)
    ensures value + multiplier * (low + 0x80 * rest) == (value + low * multiplier) + (multiplier * 0x80) * rest
  {}

  /** The multiplier when `budget` length bytes may still come. */
  function Weight(budget: nat): nat {
    if budget == 5 then 1 else if budget == 4 then 0x80 else if budget == 3 then 0x4000
    else if budget == 2 then 0x20_0000 else 0x1000_0000
  }

  method DecodeRemainingLength(buf: bytes) returns (r: Option<(nat, nat)>)
    ensures r == DecodeLength(buf)
  {
    if |buf| == 0 {
      return None;
    }
    var multiplier: nat, value: nat, idx: nat := 1, 0, 1;
    ghost var budget := LENGTH_BYTES;
    while true
      invariant 1 <= budget <= LENGTH_BYTES
      invariant multiplier == Weight(budget)
      invariant DecodeLength(buf) == Scaled(value, multiplier, DecodeFrom(buf, idx, budget))
      decreases budget
    {
      if idx >= |buf| {
        return None;
      }
      var byte := buf[idx];
      var next: nat := value + (byte % 0x80) * multiplier;
      ScaledStep(value, multiplier, buf, idx, budget, next);
      value := next;
      multiplier := multiplier * 0x80;
      idx := idx + 1;
      if byte < 0x80 {
        break;
      }
      if multiplier > 0x80 * 0x80 * 0x80 * 0x80 {
        return None;
      }
      budget := budget - 1;
    }
    r := Some((value, idx));
  }

  /** The largest length that `n` bytes can express, exclusively. */
  function Capacity(n: nat): nat {
    if n == 0 then 0 else if n == 1 then 0x80 else 0x80 * Capacity(n - 1)
  }

  lemma {:induction false} DecodeEncoded(pre: bytes, len: nat, post: bytes, budget: nat)
    requires budget > 0
    ensures DecodeFrom(pre + EncodeLength(len) + post, |pre|, budget)
         == if len < Capacity(budget) then Some((len, |pre| + |EncodeLength(len)|)) else None
    decreases budget
  {
    var buf := pre + EncodeLength(len) + post;
    if len >= 0x80 {
      var first: u8 := 0x80 + len % 0x80;
      assert buf == (pre + [first]) + EncodeLength(len / 0x80) + post;
      assert buf[|pre|] == first;
      if budget > 1 {
        DecodeEncoded(pre + [first], len / 0x80, post, budget - 1);
      }
    } else {
      assert buf[|pre|] == len;
      CapacityPositive(budget);
    }
  }

  lemma {:induction false} CapacityPositive(n: nat)
    requires n > 0
    ensures Capacity(n) >= 0x80
  {
    if n > 1 {
      CapacityPositive(n - 1);
    }
  }

  /**
   * Decoding what was encoded gives the length back exactly below the decoder's limit, which
   * covers every length the standard allows.
   */
  lemma LengthRoundTrip(kind: u8, len: nat, post: bytes)
    ensures DecodeLength([kind] + EncodeLength(len) + post)
         == if len < DECODER_LIMIT then Some((len, 1 + |EncodeLength(len)|)) else None
    ensures MAX_REMAINING < DECODER_LIMIT
  {
    DecodeEncoded([kind], len, post, LENGTH_BYTES);
    assert Capacity(2) == 0x4000;
    assert Capacity(3) == 0x20_0000;
    assert Capacity(4) == 0x1000_0000;
    assert Capacity(5) == DECODER_LIMIT;
  }

  /** What `n` length bytes can express is below their capacity, and a larger budget reads it too. */
  lemma {:induction false} DecodedBelow(buf: bytes, at: nat, n: nat)
    requires DecodeFrom(buf, at, n).Some?
    ensures DecodeFrom(buf, at, n).value.0 < Capacity(n)
    ensures DecodeFrom(buf, at, n + 1) == DecodeFrom(buf, at, n)
    decreases n
  {
    if buf[at] >= 0x80 {
      DecodedBelow(buf, at + 1, n - 1);
    } else {
      CapacityPositive(n);
    }
  }

  /** Four length bytes stay within the standard's largest length, whatever they are. */
  lemma FourBytesAreStandard(buf: bytes)
    requires DecodeFrom(buf, 1, 4).Some?
    ensures DecodeLength(buf) == DecodeFrom(buf, 1, 4) && DecodeLength(buf).value.0 <= MAX_REMAINING
  {
    DecodedBelow(buf, 1, 4);
    assert Capacity(2) == 0x4000;
    assert Capacity(3) == 0x20_0000;
    assert Capacity(4) == 0x1000_0000;
  }

  /** A decoded header does not change when more bytes arrive, and never reaches past them. */
  lemma {:induction false} DecodeStable(buf: bytes, more: bytes, at: nat, budget: nat)
    requires DecodeFrom(buf, at, budget).Some?
    ensures DecodeFrom(buf + more, at, budget) == DecodeFrom(buf, at, budget)
    ensures at < DecodeFrom(buf, at, budget).value.1 <= |buf|
    decreases budget
  {
    if buf[at] >= 0x80 {
      DecodeStable(buf, more, at + 1, budget - 1);
    }
  }

  // ---- Packets out of a stream --------------------------------------------------------

  /** The size of the complete packet at the front of the buffer, if there is one. */
  function PacketSize(buffer: bytes): (r: Option<nat>)
    ensures r.Some? ==> 2 <= r.value <= |buffer|
  {
    match DecodeLength(buffer)
    case None => None
    case Some((remaining, header)) =>
      if 2 <= header && header + remaining <= |buffer| then Some(header + remaining) else None
  }

  lemma PacketSizeStable(buffer: bytes, more: bytes)
    requires PacketSize(buffer).Some?
    ensures PacketSize(buffer + more) == PacketSize(buffer)
  {
    DecodeStable(buffer, more, 1, LENGTH_BYTES);
  }

  /** All complete packets in the buffer, and what is left. */
  function ExtractAll(buffer: bytes): (seq<bytes>, bytes)
    decreases |buffer|
  {
    match PacketSize(buffer)
    case None => ([], buffer)
    case Some(n) =>
      var (packets, residue) := ExtractAll(buffer[n..]);
      ([buffer[..n]] + packets, residue)
  }

  lemma {:induction false} ExtractConserves(buffer: bytes)
    ensures var (packets, residue) := ExtractAll(buffer);
            Join(packets) + residue == buffer && PacketSize(residue) == None
    decreases |buffer|
  {
    var size := PacketSize(buffer);
    if size.Some? {
      ExtractConserves(buffer[size.value..]);
      var (packets, residue) := ExtractAll(buffer[size.value..]);
      assert buffer == buffer[..size.value] + buffer[size.value..];
      assert ([buffer[..size.value]] + packets)[1..] == packets;
    }
  }

  /** Extracting early changes nothing: the rest joins up with what arrives later. */
  lemma {:induction false} ExtractLater(buffer: bytes, more: bytes)
    ensures var first, second := ExtractAll(buffer), ExtractAll(ExtractAll(buffer).1 + more);
            ExtractAll(buffer + more) == (first.0 + second.0, second.1)
    decreases |buffer|
  {
    var size := PacketSize(buffer);
    if size.Some? {
      var n := size.value;
      PacketSizeStable(buffer, more);
      ExtractLater(buffer[n..], more);
      assert (buffer + more)[..n] == buffer[..n];
      assert (buffer + more)[n..] == buffer[n..] + more;
      var first, second := ExtractAll(buffer[n..]), ExtractAll(ExtractAll(buffer[n..]).1 + more);
      assert ([buffer[..n]] + first.0) + second.0 == [buffer[..n]] + (first.0 + second.0);
    } else {
      var second := ExtractAll(buffer + more);
      assert [] + second.0 == second.0;
    }
  }

  /** Append each read to what was left over and extract all complete packets. */
  function Receive(residue: bytes, chunks: seq<bytes>): (seq<bytes>, bytes)
    decreases |chunks|
  {
    if chunks == [] then ([], residue) else
      var (packets, rest) := ExtractAll(residue + chunks[0]);
      var (later, end) := Receive(rest, chunks[1..]);
      (packets + later, end)
  }

  lemma JoinFirst(residue: bytes, chunks: seq<bytes>)
    requires chunks != []
    ensures residue + Join(chunks) == (residue + chunks[0]) + Join(chunks[1..])
  {
    assert (residue + chunks[0]) + Join(chunks[1..]) == residue + (chunks[0] + Join(chunks[1..]));
  }

  lemma ReceiveFirst(residue: bytes, chunks: seq<bytes>)
    requires chunks != []
    ensures var now := ExtractAll(residue + chunks[0]);
            var later := Receive(now.1, chunks[1..]);
            Receive(residue, chunks) == (now.0 + later.0, later.1)
  {}

  /**
   * Reassembly does not depend on how the stream was cut into reads: packets and residue are
   * those of the stream taken as a whole.
   */
  lemma {:induction false} ReassemblyIndependent(residue: bytes, chunks: seq<bytes>)
    requires PacketSize(residue) == None
    ensures Receive(residue, chunks) == ExtractAll(residue + Join(chunks))
    decreases |chunks|
  {
    if chunks == [] {
      assert residue + Join(chunks) == residue;
    } else {
      ReceiveFirst(residue, chunks);
      ExtractConserves(residue + chunks[0]);
      ReassemblyIndependent(ExtractAll(residue + chunks[0]).1, chunks[1..]);
      ExtractLater(residue + chunks[0], Join(chunks[1..]));
      JoinFirst(residue, chunks);
    }
  }

  /** Whole packets joined up come apart again as they were. */
  lemma {:induction false} ExtractJoined(packets: seq<bytes>)
    requires forall i :: 0 <= i < |packets| ==> PacketSize(packets[i]) == Some(|packets[i]|)
    ensures ExtractAll(Join(packets)) == (packets, [])
  {
    if packets != [] {
      var first, rest := packets[0], Join(packets[1..]);
      PacketSizeStable(first, rest);
      assert (first + rest)[..|first|] == first && (first + rest)[|first|..] == rest;
      ExtractJoined(packets[1..]);
      assert [first] + packets[1..] == packets;
    }
  }

  /** The receive buffer of the client. */
  class RxBuffer {
    var data: bytes

    constructor ()
      ensures data == []
    {
      data := [];
    }

    method Append(read: bytes)
      modifies this
      ensures data == old(data) + read
    {
      data := data + read;
    }

    method Clear()
      modifies this
      ensures data == []
    {
      data := [];
    }

    method TryExtractPacket() returns (packet: Option<bytes>)
      modifies this
      ensures match PacketSize(old(data))
              case None => packet == None && data == old(data)
              case Some(n) => packet == Some(old(data)[..n]) && data == old(data)[n..]
    {
      if |data| < 2 {
        DecodedHeader(data, 1, LENGTH_BYTES);
        return None;
      }
      var decoded := DecodeRemainingLength(data);
      DecodedHeader(data, 1, LENGTH_BYTES);
      if decoded.None? {
        return None;
      }
      var total := decoded.value.1 + decoded.value.0;
      if |data| >= total {
        packet := Some(data[..total]);
        data := data[total..];
      } else {
        packet := None;
      }
    }

    /** Extract until no complete packet is left. */
    method ExtractPackets() returns (packets: seq<bytes>)
      modifies this
      ensures (packets, data) == ExtractAll(old(data))
    {
      packets := [];
      ghost var all := ExtractAll(data);
      var packet := TryExtractPacket();
      assert packet.Some? ==> [] + [packet.value] + ExtractAll(data).0 == [packet.value] + ExtractAll(data).0;
      while packet.Some?
        invariant match packet
                  case None => (packets, data) == all
                  case Some(p) => (packets + [p] + ExtractAll(data).0, ExtractAll(data).1) == all
        decreases packet.Some?, |data|
      {
        packets := packets + [packet.value];
        ghost var before := data;
        packet := TryExtractPacket();
        if packet.Some? {
          assert packets + ExtractAll(before).0 == packets + [packet.value] + ExtractAll(data).0;
        } else {
          assert packets + ExtractAll(before).0 == packets;
        }
      }
    }
  }

  lemma {:induction false} DecodedHeader(buf: bytes, at: nat, budget: nat)
    requires at > 0
    ensures var d := DecodeFrom(buf, at, budget);
            d.Some? ==> at < d.value.1 <= |buf|
    decreases budget
  {
    if at < |buf| && budget > 0 && buf[at] >= 0x80 {
      DecodedHeader(buf, at + 1, budget - 1);
    }
  }
}
