/** The client's receive buffer is bounded: which streams can overfill it. */
module MqttBuffer {
  import opened Bytes
  import opened Mqtt

  /** Most bytes the receive buffer may hold, and most bytes of one read. */
  const RX_BUFFER_MAX: nat := 2048
  const READ_MAX: nat := 512

  /** A packet of at most this length can wait in the buffer for any read. */
  const ROOM: nat := RX_BUFFER_MAX - READ_MAX + 1

  /** Like `Receive`, but a read that would overfill the buffer ends the connection. */
  function ReceiveBounded(residue: bytes, chunks: seq<bytes>): Option<(seq<bytes>, bytes)>
    decreases |chunks|
  {
    if chunks == [] then Some(([], residue))
    else if |residue| + |chunks[0]| > RX_BUFFER_MAX then None
    else
      var now := ExtractAll(residue + chunks[0]);
      match ReceiveBounded(now.1, chunks[1..])
      case None => None
      case Some(later) => Some((now.0 + later.0, later.1))
  }

  predicate Whole(packets: seq<bytes>) {
    forall i :: 0 <= i < |packets| ==> PacketSize(packets[i]) == Some(|packets[i]|)
  }

  predicate Short(chunks: seq<bytes>) {
    forall i :: 0 <= i < |chunks| ==> |chunks[i]| <= READ_MAX
  }

  /** The stream of the packets, cut into reads. */
  predicate IsCut(chunks: seq<bytes>, packets: seq<bytes>) {
    Join(chunks) == Join(packets) && Short(chunks)
  }

  /** Packet `i` is too long to wait for any read, and enough follows to overfill the buffer. */
  predicate TooLongAt(packets: seq<bytes>, i: nat)
    requires i < |packets|
  {
    |packets[i]| > ROOM && |Join(packets[i..])| > RX_BUFFER_MAX
  }

  // ---- Streams that never overfill ----------------------------------------------------

  /** With `left` bytes still to come, `residue` bytes of packet `i` are waiting. */
  predicate WaitsIn(packets: seq<bytes>, residue: nat, left: nat, i: nat)
    requires i < |packets|
  {
    residue < |packets[i]| && |Join(packets[i..])| == residue + left
  }

  lemma InFirst(first: bytes, tail: bytes, sofar: bytes, rest: bytes)
    requires sofar + rest == first + tail && |sofar| < |first|
    ensures sofar == first[..|sofar|]
  {
    assert sofar == (sofar + rest)[..|sofar|] && first[..|sofar|] == (first + tail)[..|sofar|];
  }

  lemma BehindFirst(first: bytes, tail: bytes, sofar: bytes, rest: bytes)
    requires sofar + rest == first + tail && |sofar| >= |first|
    ensures sofar == first + sofar[|first|..] && sofar[|first|..] + rest == tail
  {
    assert first == (first + tail)[..|first|] == (sofar + rest)[..|first|] == sofar[..|first|];
    assert tail == (first + tail)[|first|..] == (sofar + rest)[|first|..] == sofar[|first|..] + rest;
  }

  /** Of a stream of whole packets, `sofar` has arrived: what waits is a proper part of one of them. */
  lemma {:induction false} ResidueWaits(packets: seq<bytes>, sofar: bytes, rest: bytes) returns (i: nat)
    requires Whole(packets) && sofar + rest == Join(packets)
    ensures var residue := ExtractAll(sofar).1;
            residue == [] || (i < |packets| && WaitsIn(packets, |residue|, |rest|, i))
    decreases |packets|
  {
    i := 0;
    if packets == [] {
      assert sofar == [];
    } else {
      var first, tail := packets[0], Join(packets[1..]);
      if |sofar| < |first| {
        InFirst(first, tail, sofar, rest);
        Waits(first, sofar);
        assert packets[0..] == packets;
      } else {
        BehindFirst(first, tail, sofar, rest);
        ExtractBehind(first, sofar[|first|..]);
        i := ResidueWaits(packets[1..], sofar[|first|..], rest);
        if i < |packets[1..]| {
          assert packets[1..][i..] == packets[i + 1..];
        }
        i := i + 1;
      }
    }
  }

  /** A whole packet in front does not change what is left behind it. */
  lemma ExtractBehind(first: bytes, rest: bytes)
    requires PacketSize(first) == Some(|first|)
    ensures ExtractAll(first + rest).1 == ExtractAll(rest).1
  {
    PacketSizeStable(first, rest);
    assert (first + rest)[|first|..] == rest;
  }

  /** Less than the whole packet is no packet. */
  lemma Waits(packet: bytes, part: bytes)
    requires PacketSize(packet) == Some(|packet|)
    requires |part| < |packet| && part == packet[..|part|]
    ensures PacketSize(part) == None
  {
    if PacketSize(part).Some? {
      assert packet == part + packet[|part|..];
      PacketSizeStable(part, packet[|part|..]);
    }
  }

  lemma ReadFits(packets: seq<bytes>, sofar: bytes, read: bytes, rest: bytes)
    requires Whole(packets) && |read| <= READ_MAX && sofar + (read + rest) == Join(packets)
    requires forall i: nat :: i < |packets| ==> !TooLongAt(packets, i)
    ensures |ExtractAll(sofar).1| + |read| <= RX_BUFFER_MAX
  {
    var i := ResidueWaits(packets, sofar, read + rest);
    if ExtractAll(sofar).1 != [] {
      assert !TooLongAt(packets, i);
    }
  }

  /** The part of the stream that has arrived, `sofar`, and the reads still to come. */
  lemma {:induction false} BoundedFrom(packets: seq<bytes>, sofar: bytes, chunks: seq<bytes>)
    requires Whole(packets) && Short(chunks)
    requires sofar + Join(chunks) == Join(packets)
    requires forall i: nat :: i < |packets| ==> !TooLongAt(packets, i)
    ensures ReceiveBounded(ExtractAll(sofar).1, chunks) == Some(Receive(ExtractAll(sofar).1, chunks))
    decreases |chunks|
  {
    if chunks != [] {
      ReadFits(packets, sofar, chunks[0], Join(chunks[1..]));
      ExtractLater(sofar, chunks[0]);
      JoinFirst(sofar, chunks);
      BoundedFrom(packets, sofar + chunks[0], chunks[1..]);
      ReceiveFirst(ExtractAll(sofar).1, chunks);
    }
  }

  /** Without such a packet, every cut of the stream arrives complete. */
  lemma NeverOverfull(packets: seq<bytes>, chunks: seq<bytes>)
    requires Whole(packets) && IsCut(chunks, packets)
    requires forall i: nat :: i < |packets| ==> !TooLongAt(packets, i)
    ensures ReceiveBounded([], chunks) == Some((packets, []))
  {
    assert [] + Join(chunks) == Join(chunks);
    BoundedFrom(packets, [], chunks);
    ReassemblyIndependent([], chunks);
    ExtractJoined(packets);
  }

  // ---- Streams that may overfill ------------------------------------------------------

  /** Five reads that leave 1,537 bytes of a packet waiting when the last of them comes. */
  function UnluckyReads(stream: bytes): (chunks: seq<bytes>)
    requires |stream| > RX_BUFFER_MAX
    ensures Short(chunks)
  {
    [stream[..512], stream[512..1024], stream[1024..1536], stream[1536..ROOM], stream[ROOM..ROOM + READ_MAX]]
  }

  lemma UnluckyReadsOverfill(packet: bytes, tail: bytes)
    requires PacketSize(packet) == Some(|packet|) && |packet| > ROOM && |packet + tail| > RX_BUFFER_MAX
    ensures ReceiveBounded([], UnluckyReads(packet + tail)) == None
  {
    var stream := packet + tail;
    var five := UnluckyReads(stream);
    var a, b, c, d, e := five[0], five[1], five[2], five[3], five[4];
    Waits(packet, stream[..512]);
    Waits(packet, stream[..1024]);
    Waits(packet, stream[..1536]);
    Waits(packet, stream[..ROOM]);
    assert [] + a == a && a + b == stream[..1024] && stream[..1024] + c == stream[..1536] && stream[..1536] + d == stream[..ROOM];
    BoundedWaits(stream[..ROOM], [e]);
    BoundedWaits(stream[..1536], [d, e]);
    BoundedWaits(stream[..1024], [c, d, e]);
    BoundedWaits(a, [b, c, d, e]);
    BoundedWaits([], [a, b, c, d, e]);
  }

  lemma BoundedWaits(residue: bytes, chunks: seq<bytes>)
    requires chunks != []
    requires |residue| + |chunks[0]| > RX_BUFFER_MAX
          || (PacketSize(residue + chunks[0]) == None && ReceiveBounded(residue + chunks[0], chunks[1..]) == None)
    ensures ReceiveBounded(residue, chunks) == None
  {}

  /** Any bytes as reads. */
  function Pieces(b: bytes): (chunks: seq<bytes>)
    ensures Short(chunks)
    decreases |b|
  {
    if |b| <= READ_MAX then [b] else [b[..READ_MAX]] + Pieces(b[READ_MAX..])
  }

  lemma {:induction false} PiecesJoin(b: bytes)
    ensures Join(Pieces(b)) == b
    decreases |b|
  {
    if |b| <= READ_MAX {
      assert [b][1..] == [];
    } else {
      var first, rest := b[..READ_MAX], Pieces(b[READ_MAX..]);
      PiecesJoin(b[READ_MAX..]);
      assert ([first] + rest)[1..] == rest;
    }
  }

  lemma {:induction false} JoinConcat(a: seq<bytes>, b: seq<bytes>)
    ensures Join(a + b) == Join(a) + Join(b)
    decreases |a|
  {
    if a == [] {
      assert a + b == b;
    } else {
      assert (a + b)[1..] == a[1..] + b;
      JoinConcat(a[1..], b);
    }
  }

  /** Reads that have overfilled the buffer, or leave what later ones overfill, do so in front of any others. */
  lemma {:induction false} BoundedConcat(residue: bytes, a: seq<bytes>, b: seq<bytes>)
    requires var first := ReceiveBounded(residue, a);
             first == None || ReceiveBounded(first.value.1, b) == None
    ensures ReceiveBounded(residue, a + b) == None
    decreases |a|
  {
    if a == [] {
      assert a + b == b;
    } else {
      assert (a + b)[1..] == a[1..] + b;
      if |residue| + |a[0]| <= RX_BUFFER_MAX {
        BoundedConcat(ExtractAll(residue + a[0]).1, a[1..], b);
      }
    }
  }

  lemma {:induction false} BoundedIsReceive(residue: bytes, chunks: seq<bytes>)
    requires ReceiveBounded(residue, chunks).Some?
    ensures ReceiveBounded(residue, chunks).value == Receive(residue, chunks)
    decreases |chunks|
  {
    if chunks != [] {
      BoundedIsReceive(ExtractAll(residue + chunks[0]).1, chunks[1..]);
      ReceiveFirst(residue, chunks);
    }
  }

  /** Whole packets in front, however they arrive, leave nothing waiting or have overfilled already. */
  lemma FrontLeavesNothing(packets: seq<bytes>, chunks: seq<bytes>)
    requires Whole(packets) && Join(chunks) == Join(packets)
    ensures var front := ReceiveBounded([], chunks); front == None || front.value.1 == []
  {
    if ReceiveBounded([], chunks).Some? {
      BoundedIsReceive([], chunks);
      assert [] + Join(chunks) == Join(chunks);
      ReassemblyIndependent([], chunks);
      ExtractJoined(packets);
    }
  }

  lemma SomeCutOverfills(packets: seq<bytes>, i: nat) returns (chunks: seq<bytes>)
    requires Whole(packets) && i < |packets| && TooLongAt(packets, i)
    ensures IsCut(chunks, packets) && ReceiveBounded([], chunks) == None
  {
    var stream, tail := Join(packets[i..]), Join(packets[i + 1..]);
    assert packets[i..][1..] == packets[i + 1..];
    var front, five, back := Pieces(Join(packets[..i])), UnluckyReads(stream), Pieces(stream[ROOM + READ_MAX..]);
    PiecesJoin(Join(packets[..i]));
    FrontLeavesNothing(packets[..i], front);
    UnluckyReadsOverfill(packets[i], tail);
    BoundedConcat([], five, back);
    BoundedConcat([], front, five + back);
    chunks := front + (five + back);
    UnluckyJoin(stream);
    PiecesJoin(stream[ROOM + READ_MAX..]);
    JoinConcat(five, back);
    JoinConcat(front, five + back);
    JoinConcat(packets[..i], packets[i..]);
    assert packets[..i] + packets[i..] == packets;
  }

  lemma UnluckyJoin(stream: bytes)
    requires |stream| > RX_BUFFER_MAX
    ensures Join(UnluckyReads(stream)) + stream[ROOM + READ_MAX..] == stream
  {
    var five := UnluckyReads(stream);
    JoinFive(five[0], five[1], five[2], five[3], five[4]);
    UnluckySlices(stream);
  }

  lemma UnluckySlices(stream: bytes)
    requires |stream| > RX_BUFFER_MAX
    ensures stream[..512] + stream[512..1024] + stream[1024..1536] + stream[1536..ROOM] + stream[ROOM..ROOM + READ_MAX]
         == stream[..ROOM + READ_MAX]
  {
    assert stream[..512] + stream[512..1024] == stream[..1024];
    assert stream[..1024] + stream[1024..1536] == stream[..1536];
    assert stream[..1536] + stream[1536..ROOM] == stream[..ROOM];
  }

  lemma JoinCons(a: bytes, rest: seq<bytes>)
    ensures Join([a] + rest) == a + Join(rest)
  {
    assert ([a] + rest)[1..] == rest;
  }

  lemma JoinFive(a: bytes, b: bytes, c: bytes, d: bytes, e: bytes)
    ensures Join([a, b, c, d, e]) == a + b + c + d + e
  {
    JoinCons(a, [b] + ([c] + ([d] + ([e] + []))));
    JoinCons(b, [c] + ([d] + ([e] + [])));
    JoinCons(c, [d] + ([e] + []));
    JoinCons(d, [e] + []);
    JoinCons(e, []);
    assert [a] + ([b] + ([c] + ([d] + ([e] + [])))) == [a, b, c, d, e];
    assert a + (b + (c + (d + (e + [])))) == a + b + c + d + e;
  }

  /**
   * A stream of whole packets can overfill the buffer, cut unluckily into reads, exactly if
   * it has a packet of more than 1,537 bytes that exceeds 2,048 bytes together with all that
   * follows it.
   */
  lemma OverfullIff(packets: seq<bytes>)
    requires Whole(packets)
    ensures (exists chunks :: IsCut(chunks, packets) && ReceiveBounded([], chunks) == None)
       <==> (exists i: nat :: i < |packets| && TooLongAt(packets, i))
  {
    if i: nat :| i < |packets| && TooLongAt(packets, i) {
      var chunks := SomeCutOverfills(packets, i);
    }
    if chunks :| IsCut(chunks, packets) && ReceiveBounded([], chunks) == None {
      if forall i: nat :: i < |packets| ==> !TooLongAt(packets, i) {
        NeverOverfull(packets, chunks);
      }
    }
  }
}
