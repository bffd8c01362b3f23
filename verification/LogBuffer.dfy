/** The ring buffer of log messages against a plain history of what was logged. */
module LogBuffer {
  const CAPACITY: nat := 16
  const MAX_MESSAGE: nat := 128

  datatype LogEntry = LogEntry(level: string, message: string, timestamp: nat)

  // ---- Truncation ---------------------------------------------------------------------

  /** Bytes of a character in UTF-8. */
  function Width(c: char): (r: nat)
    ensures 1 <= r <= 4
  {
    var code := c as int;
    if code < 0x80 then 1 else if code < 0x800 then 2 else if code < 0x1_0000 then 3 else 4
  }

  function Size(s: string): nat {
    if s == [] then 0 else Size(s[..|s| - 1]) + Width(s[|s| - 1])
  }

  lemma {:induction false} SizeGrows(s: string, i: nat, j: nat)
    requires i <= j <= |s|
    ensures Size(s[..i]) + (j - i) <= Size(s[..j])
    decreases j
  {
    if i < j {
      SizeGrows(s, i, j - 1);
      assert s[..j][..j - 1] == s[..j - 1];
    }
  }

  /** Characters are dropped from the end until the rest fits. */
  function Truncated(s: string): (t: string)
    ensures |t| <= |s| && t == s[..|t|] && Size(t) <= MAX_MESSAGE
    ensures |t| < |s| ==> Size(s[..|t| + 1]) > MAX_MESSAGE
    decreases |s|
  {
    if Size(s) <= MAX_MESSAGE then s else
      assert s[..|s|] == s;
      var t := Truncated(s[..|s| - 1]);
      assert |t| < |s| - 1 ==> s[..|s| - 1][..|t| + 1] == s[..|t| + 1];
      t
  }

  /** The truncated message is the longest prefix of whole characters that fits. */
  lemma TruncatedLongest(s: string, n: nat)
    requires n <= |s|
    ensures Size(s[..n]) <= MAX_MESSAGE <==> n <= |Truncated(s)|
  {
    var t := Truncated(s);
    if |t| < n {
      SizeGrows(s, |t| + 1, n);
    } else {
      SizeGrows(s, n, |t|);
    }
  }

  method Truncate(message: string) returns (t: string)
    ensures t == Truncated(message)
  {
    t := "";
    var bytes := 0;
    while |t| < |message|
      invariant |t| <= |message| && t == message[..|t|]
      invariant bytes == Size(t) <= MAX_MESSAGE
    {
      var ch := message[|t|];
      assert message[..|t| + 1] == t + [ch] && (t + [ch])[..|t|] == t;
      bytes := bytes + Width(ch);
      if bytes > MAX_MESSAGE {
        TruncatedLongest(message, |t|);
        TruncatedLongest(message, |t| + 1);
        return;
      }
      t := t + [ch];
    }
    TruncatedLongest(message, |t|);
  }

  // ---- The ring -----------------------------------------------------------------------

  /** The last entries a full buffer keeps. */
  function Last(s: seq<LogEntry>): (r: seq<LogEntry>)
    ensures |r| <= CAPACITY
  {
    if |s| <= CAPACITY then s else s[|s| - CAPACITY..]
  }

  /** The entries, oldest first: until it is full the ring grows at the end, then `head` is the oldest. */
  function Chronological(ring: seq<LogEntry>, head: nat): (r: seq<LogEntry>)
    requires head <= |ring|
    ensures |r| == |ring|
  {
    ring[head..] + ring[..head]
  }

  function Wrap(i: nat, n: nat): nat {
    if i < n then i else i - n
  }

  lemma WrapIsModulo(i: nat, n: nat)
    requires i < n + n
    ensures i % n == Wrap(i, n)
  {
    var q, r := i / n, i % n;
    assert i == n * q + r;
    if q == 1 {
      assert n * q == n;
    } else if q == 0 {
      assert n * q == 0;
    }
  }

  /** A growing ring takes one more entry at its end. */
  lemma RingGrows(ring: seq<LogEntry>, entry: LogEntry)
    requires |ring| < CAPACITY
    ensures var next := ring + [entry];
            Chronological(next, |next| % CAPACITY) == Last(Chronological(ring, |ring|) + [entry])
  {
    var next := ring + [entry];
    assert ring[|ring|..] + ring[..|ring|] == ring;
    assert next[|next|..] + next[..|next|] == next && next[0..] + next[..0] == next;
  }

  lemma Rotated(a: seq<LogEntry>, x: LogEntry, b: seq<LogEntry>)
    ensures Chronological(a + [x] + b, |a|) == [x] + (b + a)
    ensures Chronological(a + [x] + b, |a| + 1) == (b + a) + [x]
    ensures b == [] ==> Chronological(a + [x] + b, 0) == (b + a) + [x]
  {
    var ring := a + [x] + b;
    assert ring[|a|..] == [x] + b && ring[..|a|] == a;
    assert ring[|a| + 1..] == b && ring[..|a| + 1] == a + [x];
    assert ring[0..] == ring && ring[..0] == [];
  }

  lemma Parts(ring: seq<LogEntry>, head: nat, entry: LogEntry)
    requires head < |ring|
    ensures ring == ring[..head] + [ring[head]] + ring[head + 1..]
    ensures ring[head := entry] == ring[..head] + [entry] + ring[head + 1..]
  {}

  lemma LastOfFull(x: LogEntry, s: seq<LogEntry>, entry: LogEntry)
    requires |s| + 1 == CAPACITY
    ensures Last([x] + s + [entry]) == s + [entry]
  {}

  /** A full ring takes it in the place of its oldest. */
  lemma RingPush(ring: seq<LogEntry>, head: nat, entry: LogEntry)
    requires head < |ring| == CAPACITY
    ensures Chronological(ring[head := entry], (head + 1) % CAPACITY) == Last(Chronological(ring, head) + [entry])
  {
    RingPushed(ring[..head], ring[head], ring[head + 1..], entry);
    Parts(ring, head, entry);
  }

  lemma RingPushed(a: seq<LogEntry>, x: LogEntry, b: seq<LogEntry>, entry: LogEntry)
    requires |a| + 1 + |b| == CAPACITY
    ensures Chronological(a + [entry] + b, (|a| + 1) % CAPACITY) == Last(Chronological(a + [x] + b, |a|) + [entry])
  {
    Rotated(a, x, b);
    Rotated(a, entry, b);
    LastOfFull(x, b + a, entry);
  }

  lemma RingAt(ring: seq<LogEntry>, head: nat, i: nat)
    requires head <= |ring| && i < |ring|
    ensures ring[(head + i) % |ring|] == Chronological(ring, head)[i]
  {
    WrapIsModulo(head + i, |ring|);
  }

  /** The first `n` entries in chronological order. */
  method Copy(ring: seq<LogEntry>, head: nat, n: nat) returns (result: seq<LogEntry>)
    requires head <= |ring| && n <= |ring|
    ensures result == Chronological(ring, head)[..n]
  {
    result := [];
    for i := 0 to n
      invariant result == Chronological(ring, head)[..i]
    {
      RingAt(ring, head, i);
      var idx := (head + i) % |ring|;
      result := result + [ring[idx]];
    }
  }

  class RemoteLogBuffer {
    var entries: seq<LogEntry>
    var head: nat
    var len: nat
    var enabled: bool

    ghost predicate Valid()
      reads this
    {
      len == |entries| <= CAPACITY && if len < CAPACITY then head == len else head < CAPACITY
    }

    function Contents(): seq<LogEntry>
      requires Valid()
      reads this
    {
      Chronological(entries, head)
    }

    constructor ()
      ensures Valid() && Contents() == [] && !enabled
    {
      entries, head, len, enabled := [], 0, 0, false;
    }

    method SetEnabled(on: bool)
      requires Valid()
      modifies this`enabled
      ensures Valid() && enabled == on && Contents() == old(Contents())
    {
      enabled := on;
    }

    method Push(level: string, message: string, timestamp: nat)
      requires Valid()
      modifies this`entries, this`head, this`len
      ensures Valid()
      ensures Contents() == if enabled then Last(old(Contents()) + [LogEntry(level, Truncated(message), timestamp)])
                            else old(Contents())
    {
      if !enabled {
        return;
      }
      var truncated := Truncate(message);
      Insert(LogEntry(level, truncated, timestamp));
    }

    method Insert(entry: LogEntry)
      requires Valid()
      modifies this`entries, this`head, this`len
      ensures Valid() && Contents() == Last(old(Contents()) + [entry])
    {
      if len < CAPACITY {
        assert head == |entries|;
        RingGrows(entries, entry);
        entries := entries + [entry];
        len := |entries|;
        head := |entries| % CAPACITY;
      } else {
        RingPush(entries, head, entry);
        if head < |entries| {
          entries := entries[head := entry];
        }
        head := (head + 1) % CAPACITY;
      }
    }

    method Drain() returns (result: seq<LogEntry>)
      requires Valid()
      modifies this`entries, this`head, this`len
      ensures Valid() && result == old(Contents()) && Contents() == []
    {
      if len == 0 {
        return [];
      }
      var capacity := if |entries| < len then |entries| else len;
      result := Copy(entries, head, capacity);
      assert Chronological(entries, head)[..capacity] == Chronological(entries, head);
      entries, head, len := [], 0, 0;
    }
  }

  // ---- Any interleaving of calls ------------------------------------------------------

  datatype Call = Push(entry: LogEntry) | SetEnabled(on: bool) | Drain

  datatype State = State(contents: seq<LogEntry>, enabled: bool, drained: seq<seq<LogEntry>>)

  const EMPTY: State := State([], false, [])

  /** What a call does to the buffer; entries are already truncated. */
  function Perform(s: State, c: Call): State {
    match c
    case Push(e) => if s.enabled then s.(contents := Last(s.contents + [e])) else s
    case SetEnabled(on) => s.(enabled := on)
    case Drain => s.(contents := [], drained := s.drained + [s.contents])
  }

  function Run(s: State, calls: seq<Call>): State
    decreases |calls|
  {
    if calls == [] then s else Perform(Run(s, calls[..|calls| - 1]), calls[|calls| - 1])
  }

  /** Whether logging is on after the calls. */
  predicate Enabled(calls: seq<Call>) {
    calls != [] && (if calls[|calls| - 1].SetEnabled? then calls[|calls| - 1].on else Enabled(calls[..|calls| - 1]))
  }

  /** Everything pushed while enabled since the last drain. */
  function Logged(calls: seq<Call>): seq<LogEntry> {
    if calls == [] || calls[|calls| - 1].Drain? then [] else
      var before, c := calls[..|calls| - 1], calls[|calls| - 1];
      Logged(before) + if c.Push? && Enabled(before) then [c.entry] else []
  }

  /** What each drain should return: the last entries of that history. */
  function Drains(calls: seq<Call>): seq<seq<LogEntry>> {
    if calls == [] then [] else
      var before, c := calls[..|calls| - 1], calls[|calls| - 1];
      Drains(before) + if c.Drain? then [Last(Logged(before))] else []
  }

  lemma LastOfLast(s: seq<LogEntry>, e: LogEntry)
    ensures Last(Last(s) + [e]) == Last(s + [e])
  {}

  /** After any calls the buffer and every drain are the last entries of the history. */
  lemma {:induction false} BufferIsHistory(calls: seq<Call>)
    ensures Run(EMPTY, calls) == State(Last(Logged(calls)), Enabled(calls), Drains(calls))
    decreases |calls|
  {
    if calls != [] {
      var before, c := calls[..|calls| - 1], calls[|calls| - 1];
      BufferIsHistory(before);
      assert Logged(before) + [] == Logged(before) && Drains(before) + [] == Drains(before);
      if c.Push? {
        LastOfLast(Logged(before), c.entry);
      }
    }
  }

  /** The calls with every message truncated as the buffer does it. */
  function Shortened(calls: seq<Call>): (r: seq<Call>)
    ensures |r| == |calls|
  {
    seq(|calls|, i requires 0 <= i < |calls| => Short(calls[i]))
  }

  function Short(c: Call): Call {
    if c.Push? then Push(c.entry.(message := Truncated(c.entry.message))) else c
  }

  /** One call on the buffer. */
  method Make(buffer: RemoteLogBuffer, c: Call) returns (drained: seq<seq<LogEntry>>)
    requires buffer.Valid()
    modifies buffer
    ensures buffer.Valid()
    ensures State(buffer.Contents(), buffer.enabled, drained) == Perform(State(old(buffer.Contents()), old(buffer.enabled), []), Short(c))
  {
    drained := [];
    match c
    case Push(e) => buffer.Push(e.level, e.message, e.timestamp);
    case SetEnabled(on) => buffer.SetEnabled(on);
    case Drain =>
      var entries := buffer.Drain();
      drained := [entries];
      assert [] + [entries] == [entries];
  }

  lemma MakeNext(calls: seq<Call>, i: nat, drained: seq<seq<LogEntry>>)
    requires i < |calls|
    requires var s := Run(EMPTY, Shortened(calls[..i]));
             drained == Perform(s.(drained := []), Short(calls[i])).drained
    ensures var s, n := Run(EMPTY, Shortened(calls[..i])), Run(EMPTY, Shortened(calls[..i + 1]));
            n == Perform(s, Short(calls[i])) && n.drained == s.drained + drained
  {
    assert Shortened(calls[..i + 1])[..i] == Shortened(calls[..i]);
    var s := Run(EMPTY, Shortened(calls[..i]));
    assert s.drained + [] == s.drained && [] + [s.contents] == [s.contents];
  }

  /** A new buffer returns, drain by drain, the last sixteen entries of the history told from the calls. */
  method MakeAll(calls: seq<Call>) returns (drained: seq<seq<LogEntry>>)
    ensures drained == Drains(Shortened(calls))
  {
    var buffer := new RemoteLogBuffer();
    drained := [];
    for i := 0 to |calls|
      invariant fresh(buffer) && buffer.Valid()
      invariant State(buffer.Contents(), buffer.enabled, drained) == Run(EMPTY, Shortened(calls[..i]))
    {
      var more := Make(buffer, calls[i]);
      MakeNext(calls, i, more);
      drained := drained + more;
    }
    assert calls[..|calls|] == calls;
    BufferIsHistory(Shortened(calls));
  }
}
