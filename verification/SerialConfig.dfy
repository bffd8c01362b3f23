/**
 * Configuration over the serial line: what the host tool prints and what the receiver in the
 * firmware makes of it. Strings are the bytes of their UTF-8 form.
 */
module SerialConfig {
  import opened Bytes

  const CR: u8 := 0x0D
  const LF: u8 := 0x0A
  const EQUALS: u8 := 0x3D
  const CRLF: bytes := [CR, LF]
  const MAX_LINE: nat := 256

  function Ascii(s: string): (r: bytes)
    ensures |r| == |s| && forall i :: 0 <= i < |s| ==> r[i] == s[i] as int % 0x100
  {
    seq(|s|, i requires 0 <= i < |s| => s[i] as int % 0x100)
  }

  datatype AppConfig = AppConfig(
    wifiSsid: bytes,
    wifiPassword: bytes,
    mqttHost: bytes,
    mqttPort: u16,
    mqttUser: bytes,
    mqttPassword: bytes,
    deviceId: bytes)

  function DefaultConfig(): AppConfig {
    AppConfig(Ascii("YOUR_WIFI_SSID"), Ascii("YOUR_WIFI_PASSWORD"), Ascii("192.168.1.100"), 1883, [], [], Ascii("launa_spa"))
  }

  datatype Field = Ssid | WifiPassword | Host | Port | User | MqttPassword | DeviceId

  function KeyName(f: Field): string {
    match f
    case Ssid => "wifi.ssid"
    case WifiPassword => "wifi.password"
    case Host => "mqtt.host"
    case Port => "mqtt.port"
    case User => "mqtt.user"
    case MqttPassword => "mqtt.password"
    case DeviceId => "device.id"
  }

  function Key(f: Field): bytes {
    Ascii(KeyName(f))
  }

  /** The field a key names; any other key is ignored. */
  function FieldOf(key: bytes): Option<Field> {
    if key == Key(Ssid) then Some(Ssid)
    else if key == Key(WifiPassword) then Some(WifiPassword)
    else if key == Key(Host) then Some(Host)
    else if key == Key(Port) then Some(Port)
    else if key == Key(User) then Some(User)
    else if key == Key(MqttPassword) then Some(MqttPassword)
    else if key == Key(DeviceId) then Some(DeviceId)
    else None
  }

  /** Length, first and sixth letter tell the keys apart. */
  function Letters(f: Field): (nat, char, char) {
    match f
    case Ssid => (9, 'w', 's')
    case WifiPassword => (13, 'w', 'p')
    case Host => (9, 'm', 'h')
    case Port => (9, 'm', 'p')
    case User => (9, 'm', 'u')
    case MqttPassword => (13, 'm', 'p')
    case DeviceId => (9, 'd', 'e')
  }

  lemma KeyLetters(f: Field)
    ensures var (n, first, sixth) := Letters(f);
            |Key(f)| == n && Key(f)[0] == first as int % 0x100 && Key(f)[5] == sixth as int % 0x100
  {
    assert var (n, first, sixth) := Letters(f); |KeyName(f)| == n && KeyName(f)[0] == first && KeyName(f)[5] == sixth;
  }

  lemma KeysDiffer(f: Field, g: Field)
    requires f != g
    ensures Key(f) != Key(g)
  {
    KeyLetters(f);
    KeyLetters(g);
  }

  lemma KeyOf(f: Field)
    ensures FieldOf(Key(f)) == Some(f)
  {
    forall g: Field | g != f
      ensures Key(g) != Key(f)
    {
      KeysDiffer(f, g);
    }
  }

  // ---- Port numbers -------------------------------------------------------------------

  function Decimal(n: nat): (r: bytes)
    ensures r != []
    ensures forall i :: 0 <= i < |r| ==> 0x30 <= r[i] <= 0x39
  {
    if n < 10 then [0x30 + n] else Decimal(n / 10) + [0x30 + n % 10]
  }

  function Digits(s: bytes): Option<nat> {
    if s == [] then Some(0) else
      var last, high := s[|s| - 1], Digits(s[..|s| - 1]);
      if high.Some? && 0x30 <= last <= 0x39 then Some(10 * high.value + (last - 0x30)) else None
  }

  /** The library's parser: an optional plus sign, digits, no overflow. */
  function ParsePort(s: bytes): Option<u16> {
    var digits := if s != [] && s[0] == 0x2B then s[1..] else s;
    var value := Digits(digits);
    if digits != [] && value.Some? && value.value < 0x1_0000 then Some(value.value) else None
  }

  lemma {:induction false} DigitsOfDecimal(n: nat)
    ensures Digits(Decimal(n)) == Some(n)
  {
    if n >= 10 {
      DigitsOfDecimal(n / 10);
      assert Decimal(n)[..|Decimal(n)| - 1] == Decimal(n / 10);
    }
  }

  lemma PortRoundTrip(p: u16)
    ensures ParsePort(Decimal(p)) == Some(p)
  {
    DigitsOfDecimal(p);
  }

  // ---- The receiver as a state machine ------------------------------------------------

  type Pair = (bytes, bytes)

  datatype Receiver = Receiver(line: bytes, started: bool, pairs: seq<Pair>)

  const FRESH: Receiver := Receiver([], false, [])

  datatype Event = Configured(config: AppConfig) | Refused(port: bytes)

  function Response(e: Event): bytes {
    match e
    case Configured(_) => Ascii("CONFIG_OK\n")
    case Refused(port) => Ascii("CONFIG_ERROR:invalid_port=") + port + Ascii("\n")
  }

  function Put(c: AppConfig, f: Field, v: bytes): Result<AppConfig, bytes> {
    match f
    case Ssid => Ok(c.(wifiSsid := v))
    case WifiPassword => Ok(c.(wifiPassword := v))
    case Host => Ok(c.(mqttHost := v))
    case Port => (match ParsePort(v)
                  case Some(p) => Ok(c.(mqttPort := p))
                  case None => Err(v))
    case User => Ok(c.(mqttUser := v))
    case MqttPassword => Ok(c.(mqttPassword := v))
    case DeviceId => Ok(c.(deviceId := v))
  }

  function PutPair(c: AppConfig, p: Pair): Result<AppConfig, bytes> {
    match FieldOf(p.0)
    case None => Ok(c)
    case Some(f) => Put(c, f, p.1)
  }

  /** Pairs in order, later ones winning, up to a port that does not parse. */
  function PutAll(c: AppConfig, pairs: seq<Pair>): Event
    decreases |pairs|
  {
    if pairs == [] then Configured(c) else
      match PutPair(c, pairs[0])
      case Err(port) => Refused(port)
      case Ok(next) => PutAll(next, pairs[1..])
  }

  /** Where the first '=' is. */
  function FindEquals(line: bytes): (r: Option<nat>)
    ensures r.Some? ==> r.value < |line| && line[r.value] == EQUALS && EQUALS !in line[..r.value]
    ensures r.None? ==> EQUALS !in line
  {
    if line == [] then None
    else if line[0] == EQUALS then Some(0)
    else
      match FindEquals(line[1..])
      case None => None
      case Some(i) =>
        assert line[..i + 1] == [line[0]] + line[1..][..i];
        Some(i + 1)
  }

  function PairOf(line: bytes): seq<Pair> {
    match FindEquals(line)
    case None => []
    case Some(i) => [(line[..i], line[i + 1..])]
  }

  /** A complete line; what is not UTF-8 counts as empty. */
  function EndLine(r: Receiver, valid: bytes -> bool): (Receiver, Option<Event>) {
    var line := if valid(r.line) then r.line else [];
    if !r.started then
      (if line == Ascii("CONFIG_START") then Receiver([], true, []) else r.(line := []), None)
    else if line == Ascii("CONFIG_END") then (FRESH, Some(PutAll(DefaultConfig(), r.pairs)))
    else (r.(line := [], pairs := r.pairs + PairOf(line)), None)
  }

  function Step(r: Receiver, byte: u8, valid: bytes -> bool): (Receiver, Option<Event>) {
    if byte == LF then EndLine(r, valid)
    else (if byte != CR && |r.line| < MAX_LINE then r.(line := r.line + [byte]) else r, None)
  }

  /** One poll: bytes are taken until none is left or a configuration is complete. */
  function Polled(r: Receiver, fifo: bytes, valid: bytes -> bool): (Receiver, Option<Event>, bytes)
    decreases |fifo|
  {
    if fifo == [] then (r, None, []) else
      var (next, event) := Step(r, fifo[0], valid);
      if event.Some? then (next, event, fifo[1..]) else Polled(next, fifo[1..], valid)
  }

  /** A poll on less is a poll on more, interrupted. */
  lemma {:induction false} PollLater(r: Receiver, fifo: bytes, more: bytes, valid: bytes -> bool)
    ensures var p := Polled(r, fifo, valid);
            && (p.1 == None ==> p.2 == [] && Polled(r, fifo + more, valid) == Polled(p.0, more, valid))
            && (p.1.Some? ==> Polled(r, fifo + more, valid) == (p.0, p.1, p.2 + more))
    decreases |fifo|
  {
    if fifo == [] {
      assert fifo + more == more;
    } else {
      var (next, event) := Step(r, fifo[0], valid);
      assert (fifo + more)[1..] == fifo[1..] + more;
      if event == None {
        PollLater(next, fifo[1..], more, valid);
      }
    }
  }

  /** What successive polls report when each finds one more chunk in the FIFO. */
  function Polls(r: Receiver, fifo: bytes, chunks: seq<bytes>, valid: bytes -> bool): (Receiver, seq<Event>, bytes)
    decreases |chunks|
  {
    if chunks == [] then (r, [], fifo) else
      var (next, event, rest) := Polled(r, fifo + chunks[0], valid);
      var (end, events, left) := Polls(next, rest, chunks[1..], valid);
      (end, (if event.Some? then [event.value] else []) + events, left)
  }

  /** A transmission that one poll would report is reported once however it is cut up. */
  lemma {:induction false} PollsReportOnce(r: Receiver, chunks: seq<bytes>, valid: bytes -> bool, end: Receiver, event: Event)
    requires Polled(r, Join(chunks), valid) == (end, Some(event), [])
    ensures Polls(r, [], chunks, valid) == (end, [event], [])
    decreases |chunks|
  {
    if chunks == [] {
      assert false;
    } else {
      assert [] + chunks[0] == chunks[0];
      var p := Polled(r, chunks[0], valid);
      PollLater(r, chunks[0], Join(chunks[1..]), valid);
      if p.1 == None {
        PollsReportOnce(p.0, chunks[1..], valid, end, event);
        assert [] + [event] == [event];
      } else {
        assert p.2 == [] && Join(chunks[1..]) == [];
        PollsOfNothing(end, chunks[1..], valid);
        assert [event] + [] == [event];
      }
    }
  }

  lemma {:induction false} PollsOfNothing(r: Receiver, chunks: seq<bytes>, valid: bytes -> bool)
    requires Join(chunks) == []
    ensures Polls(r, [], chunks, valid) == (r, [], [])
    decreases |chunks|
  {
    if chunks != [] {
      assert chunks[0] == [] && [] + chunks[0] == [];
      PollsOfNothing(r, chunks[1..], valid);
    }
  }

  // ---- The printer --------------------------------------------------------------------

  predicate NoBreaks(s: bytes) {
    CR !in s && LF !in s
  }

  function Value(c: AppConfig, f: Field): bytes {
    match f
    case Ssid => c.wifiSsid
    case WifiPassword => c.wifiPassword
    case Host => c.mqttHost
    case Port => Decimal(c.mqttPort)
    case User => c.mqttUser
    case MqttPassword => c.mqttPassword
    case DeviceId => c.deviceId
  }

  function Line(c: AppConfig, f: Field): bytes {
    Key(f) + [EQUALS] + Value(c, f)
  }

  /** Empty broker credentials are not printed. */
  function Printed(c: AppConfig): seq<Field> {
    [Ssid, WifiPassword, Host, Port] + (if c.mqttUser != [] then [User] else [])
      + (if c.mqttPassword != [] then [MqttPassword] else []) + [DeviceId]
  }

  function LinesOf(c: AppConfig, fields: seq<Field>): bytes {
    if fields == [] then [] else Line(c, fields[0]) + CRLF + LinesOf(c, fields[1..])
  }

  function Payload(c: AppConfig): bytes {
    Ascii("CONFIG_START") + CRLF + LinesOf(c, Printed(c)) + (Ascii("CONFIG_END") + CRLF)
  }

  /** The lines of a text, each with one CR LF: `line` is what has been read of the current one. */
  function Relined(line: bytes, text: bytes): bytes
    decreases |text|
  {
    if text == [] then (if line == [] then [] else line + CRLF)
    else if text[0] == LF then
      (if line != [] && line[|line| - 1] == CR then line[..|line| - 1] else line) + CRLF + Relined([], text[1..])
    else Relined(line + [text[0]], text[1..])
  }

  /** The bytes the tool sends. */
  function Sent(c: AppConfig): bytes {
    Relined([], Payload(c))
  }

  /** No value holds a line break. */
  predicate Unbroken(c: AppConfig) {
    forall f: Field :: NoBreaks(Value(c, f))
  }

  /** What survives: no line breaks in the values, and no line longer than the receiver's. */
  predicate Plain(c: AppConfig) {
    forall f: Field :: NoBreaks(Value(c, f)) && |Line(c, f)| <= MAX_LINE
  }

  /** The lines of a configuration are text. */
  predicate Utf8(c: AppConfig, valid: bytes -> bool) {
    && valid(Ascii("CONFIG_START")) && valid(Ascii("CONFIG_END"))
    && forall f: Field :: valid(Line(c, f))
  }

  // ---- From printer to receiver -------------------------------------------------------

  lemma {:induction false} RelinedLine(line: bytes, rest: bytes, text: bytes)
    requires NoBreaks(rest)
    ensures Relined(line, rest + CRLF + text) == line + rest + CRLF + Relined([], text)
    decreases |rest|
  {
    var all := rest + CRLF + text;
    if rest == [] {
      assert all[0] == CR && all[1..] == [LF] + text && all[1..][1..] == text;
      assert (line + [CR])[..|line|] == line && line + rest == line;
    } else {
      assert all[0] == rest[0] && all[1..] == rest[1..] + CRLF + text;
      RelinedLine(line + [rest[0]], rest[1..], text);
      assert line + [rest[0]] + rest[1..] == line + rest;
    }
  }

  /** One line in, and the poll goes on behind it. */
  lemma {:induction false} PollLine(r: Receiver, rest: bytes, text: bytes, valid: bytes -> bool)
    requires NoBreaks(rest) && |r.line| + |rest| <= MAX_LINE
    ensures var e := EndLine(r.(line := r.line + rest), valid);
            Polled(r, rest + CRLF + text, valid) == if e.1.Some? then (e.0, e.1, text) else Polled(e.0, text, valid)
    decreases |rest|
  {
    var all := rest + CRLF + text;
    if rest == [] {
      assert all[0] == CR && all[1..] == [LF] + text && all[1..][1..] == text;
      assert r.line + rest == r.line;
    } else {
      assert all[0] == rest[0] && all[1..] == rest[1..] + CRLF + text;
      PollLine(r.(line := r.line + [rest[0]]), rest[1..], text, valid);
      assert r.line + [rest[0]] + rest[1..] == r.line + rest;
    }
  }

  lemma NameLetters(f: Field)
    ensures KeyName(f) != [] && forall i :: 0 <= i < |KeyName(f)| ==> KeyName(f)[i] == '.' || 'a' <= KeyName(f)[i] <= 'z'
  {}

  lemma KeyHasNoBreaks(f: Field)
    ensures NoBreaks(Key(f)) && EQUALS !in Key(f) && Key(f) != []
  {
    NameLetters(f);
    forall i | 0 <= i < |Key(f)|
      ensures Key(f)[i] >= 0x2E && Key(f)[i] != EQUALS
    {
      var letter := KeyName(f)[i];
      assert letter == '.' || 'a' <= letter <= 'z';
      assert letter as int % 0x100 == letter as int;
    }
  }

  lemma LineSplits(c: AppConfig, f: Field)
    ensures PairOf(Line(c, f)) == [(Key(f), Value(c, f))]
    ensures NoBreaks(Value(c, f)) ==> NoBreaks(Line(c, f))
    ensures Line(c, f) != Ascii("CONFIG_END")
  {
    KeyHasNoBreaks(f);
    SplitAtEquals(Key(f), Value(c, f));
    JoinedUnbroken(Key(f), Value(c, f));
    MarkerHasNoEquals();
    assert Line(c, f)[|Key(f)|] == EQUALS;
  }

  lemma SplitAtEquals(key: bytes, value: bytes)
    requires EQUALS !in key
    ensures PairOf(key + [EQUALS] + value) == [(key, value)]
  {
    var line, n := key + [EQUALS] + value, |key|;
    assert line[n] == EQUALS && line[..n] == key && line[n + 1..] == value;
    FirstEquals(line, n);
  }

  lemma {:induction false} FirstEquals(line: bytes, n: nat)
    requires n < |line| && line[n] == EQUALS && EQUALS !in line[..n]
    ensures FindEquals(line) == Some(n)
    decreases n
  {
    if n > 0 {
      assert line[..n][0] == line[0] && line[1..][..n - 1] == line[..n][1..];
      FirstEquals(line[1..], n - 1);
    }
  }

  lemma JoinedUnbroken(key: bytes, value: bytes)
    requires NoBreaks(key)
    ensures NoBreaks(value) ==> NoBreaks(key + [EQUALS] + value)
  {}

  lemma MarkerHasNoEquals()
    ensures forall i :: 0 <= i < |Ascii("CONFIG_END")| ==> Ascii("CONFIG_END")[i] != EQUALS
  {
    assert forall i :: 0 <= i < 10 ==> '?' <= "CONFIG_END"[i] <= '_';
  }

  function PairsOf(c: AppConfig, fields: seq<Field>): seq<Pair> {
    if fields == [] then [] else [(Key(fields[0]), Value(c, fields[0]))] + PairsOf(c, fields[1..])
  }

  lemma FirstLine(c: AppConfig, fields: seq<Field>, text: bytes)
    requires fields != []
    ensures LinesOf(c, fields) + text == Line(c, fields[0]) + CRLF + (LinesOf(c, fields[1..]) + text)
  {}

  lemma PollField(c: AppConfig, f: Field, pairs: seq<Pair>, rest: bytes, valid: bytes -> bool)
    requires Plain(c) && Utf8(c, valid)
    ensures Polled(Receiver([], true, pairs), Line(c, f) + CRLF + rest, valid)
         == Polled(Receiver([], true, pairs + [(Key(f), Value(c, f))]), rest, valid)
  {
    LineSplits(c, f);
    assert [] + Line(c, f) == Line(c, f);
    PollLine(Receiver([], true, pairs), Line(c, f), rest, valid);
  }

  lemma {:induction false} PollFields(c: AppConfig, fields: seq<Field>, pairs: seq<Pair>, text: bytes, valid: bytes -> bool)
    requires Plain(c) && Utf8(c, valid)
    ensures Polled(Receiver([], true, pairs), LinesOf(c, fields) + text, valid)
         == Polled(Receiver([], true, pairs + PairsOf(c, fields)), text, valid)
    decreases |fields|
  {
    if fields == [] {
      assert LinesOf(c, fields) + text == text && pairs + PairsOf(c, fields) == pairs;
    } else {
      var first := (Key(fields[0]), Value(c, fields[0]));
      FirstLine(c, fields, text);
      PollField(c, fields[0], pairs, LinesOf(c, fields[1..]) + text, valid);
      PollFields(c, fields[1..], pairs + [first], text, valid);
      assert pairs + [first] + PairsOf(c, fields[1..]) == pairs + PairsOf(c, fields);
    }
  }

  lemma {:induction false} RelinedFields(c: AppConfig, fields: seq<Field>, text: bytes)
    requires Unbroken(c)
    ensures Relined([], LinesOf(c, fields) + text) == LinesOf(c, fields) + Relined([], text)
    decreases |fields|
  {
    if fields == [] {
      assert LinesOf(c, fields) + text == text;
    } else {
      var f := fields[0];
      var rest := LinesOf(c, fields[1..]) + text;
      FirstLine(c, fields, text);
      LineSplits(c, f);
      RelinedLine([], Line(c, f), rest);
      RelinedFields(c, fields[1..], text);
      FirstLine(c, fields, Relined([], text));
      assert [] + Line(c, f) == Line(c, f);
    }
  }

  // ---- The round trip -----------------------------------------------------------------

  /** The tool's line-by-line sending leaves its payload as it is. */
  lemma SentIsPayload(c: AppConfig)
    requires Unbroken(c)
    ensures Sent(c) == Payload(c)
  {
    var start, end, fields := Ascii("CONFIG_START"), Ascii("CONFIG_END"), Printed(c);
    MarkersHaveNoBreaks();
    var rest := LinesOf(c, fields) + (end + CRLF);
    assert Payload(c) == start + CRLF + rest;
    RelinedLine([], start, rest);
    RelinedFields(c, fields, end + CRLF);
    assert end + CRLF + [] == end + CRLF;
    RelinedLine([], end, []);
    assert [] + start == start && [] + end == end;
    assert Sent(c) == start + CRLF + (LinesOf(c, fields) + (end + CRLF));
  }

  lemma MarkersHaveNoBreaks()
    ensures NoBreaks(Ascii("CONFIG_START")) && NoBreaks(Ascii("CONFIG_END"))
    ensures Ascii("CONFIG_START") != Ascii("CONFIG_END")
  {
    assert forall i :: 0 <= i < 12 ==> '?' <= "CONFIG_START"[i] <= '_';
    assert forall i :: 0 <= i < 10 ==> '?' <= "CONFIG_END"[i] <= '_';
    assert |Ascii("CONFIG_START")| == 12 && |Ascii("CONFIG_END")| == 10;
  }

  predicate Agree(a: AppConfig, b: AppConfig, f: Field) {
    match f
    case Ssid => a.wifiSsid == b.wifiSsid
    case WifiPassword => a.wifiPassword == b.wifiPassword
    case Host => a.mqttHost == b.mqttHost
    case Port => a.mqttPort == b.mqttPort
    case User => a.mqttUser == b.mqttUser
    case MqttPassword => a.mqttPassword == b.mqttPassword
    case DeviceId => a.deviceId == b.deviceId
  }

  lemma PutAgrees(d: AppConfig, c: AppConfig, f: Field)
    ensures var put := PutPair(d, (Key(f), Value(c, f)));
            put.Ok? && Agree(put.value, c, f) && forall g: Field :: Agree(d, c, g) ==> Agree(put.value, c, g)
  {
    KeyOf(f);
    PortRoundTrip(c.mqttPort);
  }

  /** Fields that were printed agree with the configuration, the others stay as they were. */
  lemma {:induction false} PutAllAgrees(d: AppConfig, c: AppConfig, fields: seq<Field>)
    ensures var e := PutAll(d, PairsOf(c, fields));
            e.Configured? && forall g: Field :: g in fields || Agree(d, c, g) ==> Agree(e.config, c, g)
    decreases |fields|
  {
    if fields != [] {
      PutAgrees(d, c, fields[0]);
      assert PairsOf(c, fields)[1..] == PairsOf(c, fields[1..]);
      PutAllAgrees(PutPair(d, PairsOf(c, fields)[0]).value, c, fields[1..]);
    }
  }

  /** The printed pairs put the configuration back together over the defaults. */
  lemma PairsMakeConfig(c: AppConfig)
    ensures PutAll(DefaultConfig(), PairsOf(c, Printed(c))) == Configured(c)
  {
    PutAllAgrees(DefaultConfig(), c, Printed(c));
    var e := PutAll(DefaultConfig(), PairsOf(c, Printed(c))).config;
    assert forall g: Field :: Agree(e, c, g) by {
      forall g: Field
        ensures g in Printed(c) || Agree(DefaultConfig(), c, g)
      {
        PrintedUnlessEmpty(c, g);
      }
    }
    assert Agree(e, c, Ssid) && Agree(e, c, WifiPassword) && Agree(e, c, Host) && Agree(e, c, Port);
    assert Agree(e, c, User) && Agree(e, c, MqttPassword) && Agree(e, c, DeviceId);
  }

  lemma PrintedUnlessEmpty(c: AppConfig, g: Field)
    ensures g in Printed(c) || Agree(DefaultConfig(), c, g)
  {
    var front := [Ssid, WifiPassword, Host, Port];
    assert Ssid in front && WifiPassword in front && Host in front && Port in front;
  }

  lemma PollStart(rest: bytes, valid: bytes -> bool)
    requires valid(Ascii("CONFIG_START"))
    ensures Polled(FRESH, Ascii("CONFIG_START") + CRLF + rest, valid) == Polled(Receiver([], true, []), rest, valid)
  {
    var start := Ascii("CONFIG_START");
    MarkersHaveNoBreaks();
    assert [] + start == start;
    PollLine(FRESH, start, rest, valid);
  }

  lemma PollEnd(pairs: seq<Pair>, valid: bytes -> bool)
    requires valid(Ascii("CONFIG_END"))
    ensures Polled(Receiver([], true, pairs), Ascii("CONFIG_END") + CRLF, valid)
         == (FRESH, Some(PutAll(DefaultConfig(), pairs)), [])
  {
    var end := Ascii("CONFIG_END");
    MarkersHaveNoBreaks();
    assert [] + end == end && end + CRLF + [] == end + CRLF;
    PollLine(Receiver([], true, pairs), end, [], valid);
  }

  /** One poll over everything the tool sends. */
  lemma PollSent(c: AppConfig, valid: bytes -> bool)
    requires Plain(c) && Utf8(c, valid)
    ensures Polled(FRESH, Sent(c), valid) == (FRESH, Some(Configured(c)), [])
  {
    var fields, end := Printed(c), Ascii("CONFIG_END") + CRLF;
    SentIsPayload(c);
    JoinThree(Ascii("CONFIG_START") + CRLF, LinesOf(c, fields), end);
    PollStart(LinesOf(c, fields) + end, valid);
    PollFields(c, fields, [], end, valid);
    assert [] + PairsOf(c, fields) == PairsOf(c, fields);
    PollEnd(PairsOf(c, fields), valid);
    PairsMakeConfig(c);
  }

  // ---- What can come out at all -------------------------------------------------------

  predicate PlainPair(p: Pair) {
    NoBreaks(p.1) && |p.0| + 1 + |p.1| <= MAX_LINE
  }

  predicate PlainReceiver(r: Receiver) {
    NoBreaks(r.line) && |r.line| <= MAX_LINE && forall i :: 0 <= i < |r.pairs| ==> PlainPair(r.pairs[i])
  }

  lemma {:induction false} DecimalIsShort(n: nat, digits: nat, limit: nat)
    requires digits > 0 && n < limit && (digits == 1 ==> limit <= 10) && (digits > 1 ==> limit <= 100_000)
    requires limit == (if digits == 1 then 10 else if digits == 2 then 100 else if digits == 3 then 1000
                       else if digits == 4 then 10_000 else 100_000) && digits <= 5
    ensures |Decimal(n)| <= digits
    decreases digits
  {
    if n >= 10 {
      DecimalIsShort(n / 10, digits - 1, limit / 10);
    }
  }

  lemma PortIsPlain(c: AppConfig)
    ensures NoBreaks(Decimal(c.mqttPort)) && |Line(c, Port)| <= MAX_LINE
  {
    DecimalIsShort(c.mqttPort, 5, 100_000);
    KeyLetters(Port);
  }

  lemma TextIsPlain(s: string)
    requires forall i :: 0 <= i < |s| ==> '-' <= s[i] <= 'z'
    ensures NoBreaks(Ascii(s))
  {
    forall i | 0 <= i < |s|
      ensures Ascii(s)[i] >= 0x2D
    {
      assert s[i] as int % 0x100 == s[i] as int;
    }
  }

  lemma DefaultIsPlain()
    ensures Plain(DefaultConfig())
  {
    TextIsPlain("YOUR_WIFI_SSID");
    TextIsPlain("YOUR_WIFI_PASSWORD");
    TextIsPlain("192.168.1.100");
    TextIsPlain("launa_spa");
    PortIsPlain(DefaultConfig());
    forall f: Field
      ensures NoBreaks(Value(DefaultConfig(), f)) && |Line(DefaultConfig(), f)| <= MAX_LINE
    {
      KeyLetters(f);
    }
  }

  lemma {:induction false} PutAllPlain(c: AppConfig, pairs: seq<Pair>)
    requires Plain(c) && forall i :: 0 <= i < |pairs| ==> PlainPair(pairs[i])
    ensures PutAll(c, pairs).Configured? ==> Plain(PutAll(c, pairs).config)
    decreases |pairs|
  {
    if pairs != [] {
      var put := PutPair(c, pairs[0]);
      if put.Ok? {
        PutPlain(c, pairs[0]);
        PutAllPlain(put.value, pairs[1..]);
      }
    }
  }

  lemma PutPlain(c: AppConfig, p: Pair)
    requires Plain(c) && PlainPair(p) && PutPair(c, p).Ok?
    ensures Plain(PutPair(c, p).value)
  {
    var d := PutPair(c, p).value;
    PortIsPlain(d);
    forall g: Field
      ensures NoBreaks(Value(d, g)) && |Line(d, g)| <= MAX_LINE
    {
      if g != Port {
        PutValue(c, p, g);
      }
      assert |Line(c, g)| == |Key(g)| + 1 + |Value(c, g)| && |Line(c, g)| <= MAX_LINE;
      assert |Line(d, g)| == |Key(g)| + 1 + |Value(d, g)|;
    }
  }

  lemma PutValue(c: AppConfig, p: Pair, g: Field)
    requires PutPair(c, p).Ok? && g != Port
    ensures Value(PutPair(c, p).value, g) == if p.0 == Key(g) then p.1 else Value(c, g)
  {
    FieldOfIs(p.0, g);
    if FieldOf(p.0).Some? {
      PutField(c, FieldOf(p.0).value, p.1, g);
    }
  }

  lemma FieldOfIs(key: bytes, g: Field)
    ensures FieldOf(key) == Some(g) <==> key == Key(g)
  {
    KeyOf(g);
  }

  lemma PutField(c: AppConfig, field: Field, v: bytes, g: Field)
    requires g != Port && Put(c, field, v).Ok?
    ensures Value(Put(c, field, v).value, g) == if field == g then v else Value(c, g)
  {}

  lemma StepPlain(r: Receiver, byte: u8, valid: bytes -> bool)
    requires PlainReceiver(r)
    ensures var (next, event) := Step(r, byte, valid);
            PlainReceiver(next) && (event.Some? && event.value.Configured? ==> Plain(event.value.config))
  {
    DefaultIsPlain();
    PutAllPlain(DefaultConfig(), r.pairs);
  }

  /** A configuration that is received has no line breaks and no overlong lines. */
  lemma {:induction false} OnlyPlainReceived(r: Receiver, fifo: bytes, valid: bytes -> bool)
    requires PlainReceiver(r)
    ensures var p := Polled(r, fifo, valid);
            p.1.Some? && p.1.value.Configured? ==> Plain(p.1.value.config)
    decreases |fifo|
  {
    if fifo != [] {
      StepPlain(r, fifo[0], valid);
      if Step(r, fifo[0], valid).1 == None {
        OnlyPlainReceived(Step(r, fifo[0], valid).0, fifo[1..], valid);
      }
    }
  }

  /**
   * What the tool sends for a configuration is received as that configuration exactly when no
   * value holds a line break and no line is longer than the receiver's; and then it is received
   * once and nothing is left over, however the bytes are spread over polls.
   */
  lemma ConfigRoundTrip(c: AppConfig, chunks: seq<bytes>, valid: bytes -> bool)
    requires Utf8(c, valid) && Join(chunks) == Sent(c)
    ensures Polled(FRESH, Sent(c), valid) == (FRESH, Some(Configured(c)), []) <==> Plain(c)
    ensures Plain(c) ==> Polls(FRESH, [], chunks, valid) == (FRESH, [Configured(c)], [])
  {
    OnlyPlainReceived(FRESH, Sent(c), valid);
    if Plain(c) {
      PollSent(c, valid);
      PollsReportOnce(FRESH, chunks, valid, FRESH, Configured(c));
    }
  }

  // ---- The two programs ---------------------------------------------------------------

  method BuildPayload(c: AppConfig) returns (payload: bytes)
    ensures payload == Payload(c)
  {
    payload := Ascii("CONFIG_START") + CRLF;
    ghost var fields: seq<Field> := [];
    assert Holds(payload, c, fields);
    payload, fields := PushLine(payload, c, Ssid, fields);
    payload, fields := PushLine(payload, c, WifiPassword, fields);
    payload, fields := PushLine(payload, c, Host, fields);
    payload, fields := PushLine(payload, c, Port, fields);
    if c.mqttUser != [] {
      payload, fields := PushLine(payload, c, User, fields);
    }
    if c.mqttPassword != [] {
      payload, fields := PushLine(payload, c, MqttPassword, fields);
    }
    payload, fields := PushLine(payload, c, DeviceId, fields);
    PrintedInOrder(c);
    payload := payload + (Ascii("CONFIG_END") + CRLF);
  }

  lemma PrintedInOrder(c: AppConfig)
    ensures var required := [] + [Ssid] + [WifiPassword] + [Host] + [Port];
            var user := if c.mqttUser != [] then required + [User] else required;
            (if c.mqttPassword != [] then user + [MqttPassword] else user) + [DeviceId] == Printed(c)
  {
    assert [] + [Ssid] + [WifiPassword] + [Host] + [Port] == [Ssid, WifiPassword, Host, Port];
  }

  /** The payload up to and with the lines of the fields. */
  predicate Holds(payload: bytes, c: AppConfig, fields: seq<Field>) {
    payload == Ascii("CONFIG_START") + CRLF + LinesOf(c, fields)
  }

  /** One more line of the payload. */
  method PushLine(payload: bytes, c: AppConfig, f: Field, ghost fields: seq<Field>) returns (r: bytes, ghost more: seq<Field>)
    requires Holds(payload, c, fields)
    ensures Holds(r, c, more) && more == fields + [f]
  {
    r, more := payload + (Line(c, f) + CRLF), fields + [f];
    HoldsMore(payload, c, f, fields);
  }

  lemma HoldsMore(payload: bytes, c: AppConfig, f: Field, fields: seq<Field>)
    requires Holds(payload, c, fields)
    ensures Holds(payload + (Line(c, f) + CRLF), c, fields + [f])
  {
    AppendLine(c, fields, f);
    JoinThree(Ascii("CONFIG_START") + CRLF, LinesOf(c, fields), Line(c, f) + CRLF);
  }

  lemma JoinThree(a: bytes, b: bytes, c: bytes)
    ensures a + (b + c) == (a + b) + c
  {}

  lemma {:induction false} AppendLine(c: AppConfig, fields: seq<Field>, f: Field)
    ensures LinesOf(c, fields + [f]) == LinesOf(c, fields) + (Line(c, f) + CRLF)
    decreases |fields|
  {
    if fields == [] {
      assert fields + [f] == [f] && [f][1..] == [];
    } else {
      assert (fields + [f])[1..] == fields[1..] + [f];
      AppendLine(c, fields[1..], f);
    }
  }

  /** Send a text line by line. */
  method SendLines(payload: bytes) returns (port: bytes)
    ensures port == Relined([], payload)
  {
    port := [];
    var line: bytes := [];
    assert payload[0..] == payload;
    for i := 0 to |payload|
      invariant port + Relined(line, payload[i..]) == Relined([], payload)
    {
      assert payload[i..][0] == payload[i] && payload[i..][1..] == payload[i + 1..];
      if payload[i] == LF {
        if line != [] && line[|line| - 1] == CR {
          line := line[..|line| - 1];
        }
        port := port + line;
        port := port + CRLF;
        line := [];
      } else {
        line := line + [payload[i]];
      }
    }
    if line != [] {
      port := port + line;
      port := port + CRLF;
    }
  }

  method SendConfig(c: AppConfig) returns (port: bytes)
    ensures port == Sent(c)
  {
    var payload := BuildPayload(c);
    port := SendLines(payload);
  }

  /** The receiver in the firmware; `State` is its state in the machine above. */
  class SerialConfigReceiver {
    var lineBuf: bytes
    var started: bool
    var kvPairs: seq<Pair>

    function State(): Receiver
      reads this
    {
      Receiver(lineBuf, started, kvPairs)
    }

    constructor ()
      ensures State() == FRESH
    {
      lineBuf, started, kvPairs := [], false, [];
    }

    method Reset()
      modifies this
      ensures State() == FRESH
    {
      lineBuf, started, kvPairs := [], false, [];
    }

    /** Take bytes off the FIFO until it is empty or a configuration is complete. */
    method Poll(fifo: bytes, valid: bytes -> bool) returns (config: Option<AppConfig>, rest: bytes, response: bytes)
      modifies this
      ensures var (next, event, left) := Polled(old(State()), fifo, valid);
              && State() == next && rest == left
              && config == (if event.Some? && event.value.Configured? then Some(event.value.config) else None)
              && response == if event.Some? then Response(event.value) else []
    {
      rest, response := fifo, [];
      ghost var result := Polled(State(), fifo, valid);
      while rest != []
        invariant response == []
        invariant Polled(State(), rest, valid) == result
        decreases |rest|
      {
        var byte := rest[0];
        rest := rest[1..];
        if byte == LF {
          var complete;
          complete, config, response := FinishLine(valid);
          if complete {
            return;
          }
        } else if byte != CR && |lineBuf| < MAX_LINE {
          lineBuf := lineBuf + [byte];
        }
      }
      config := None;
    }

    /** The end of a line; `complete` when it was the last of a configuration. */
    method FinishLine(valid: bytes -> bool) returns (complete: bool, config: Option<AppConfig>, response: bytes)
      modifies this
      ensures var (next, event) := EndLine(old(State()), valid);
              && State() == next && complete == event.Some?
              && config == (if event.Some? && event.value.Configured? then Some(event.value.config) else None)
              && response == if event.Some? then Response(event.value) else []
    {
      var line := if valid(lineBuf) then lineBuf else [];
      lineBuf := [];
      complete, config, response := false, None, [];
      if !started {
        if line == Ascii("CONFIG_START") {
          started := true;
          kvPairs := [];
        }
      } else if line == Ascii("CONFIG_END") {
        config, response := ParseAndRespond();
        complete := true;
      } else if line != [] {
        var at := FindEquals(line);
        assert kvPairs + [] == kvPairs;
        if at.Some? {
          kvPairs := kvPairs + [(line[..at.value], line[at.value + 1..])];
        }
      } else {
        assert kvPairs + [] == kvPairs;
      }
    }

    method ParseAndRespond() returns (config: Option<AppConfig>, response: bytes)
      modifies this
      ensures State() == FRESH
      ensures var event := PutAll(DefaultConfig(), old(kvPairs));
              && config == (if event.Configured? then Some(event.config) else None)
              && response == Response(event)
    {
      var appConfig := DefaultConfig();
      ghost var event := PutAll(appConfig, kvPairs);
      assert kvPairs[0..] == kvPairs;
      for i := 0 to |kvPairs|
        invariant kvPairs == old(kvPairs)
        invariant PutAll(appConfig, kvPairs[i..]) == event
      {
        assert kvPairs[i..][0] == kvPairs[i] && kvPairs[i..][1..] == kvPairs[i + 1..];
        var put := PutPair(appConfig, kvPairs[i]);
        if put.Err? {
          response := Ascii("CONFIG_ERROR:invalid_port=") + put.error + Ascii("\n");
          Reset();
          return None, response;
        }
        appConfig := put.value;
      }
      response := Ascii("CONFIG_OK\n");
      Reset();
      config := Some(appConfig);
    }
  }
}
