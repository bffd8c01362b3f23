/** Rapid requests over MQTT: toggles cancel in pairs and only the last temperature counts. */
module SpaRequests {
  import opened Bytes
  import opened Protocol
  import opened Spa

  function CountOf(entries: seq<Entry>, w: Wanted): nat {
    if entries == [] then 0 else
      CountOf(entries[..|entries| - 1], w) + if w.Matches(entries[|entries| - 1].command) then 1 else 0
  }

  lemma {:induction false} CountConcat(a: seq<Entry>, b: seq<Entry>, w: Wanted)
    ensures CountOf(a + b, w) == CountOf(a, w) + CountOf(b, w)
  {
    if b == [] {
      assert a + b == a;
    } else {
      assert (a + b)[..|a + b| - 1] == a + b[..|b| - 1];
      CountConcat(a, b[..|b| - 1], w);
    }
  }

  lemma CountOne(e: Entry, w: Wanted)
    ensures CountOf([e], w) == if w.Matches(e.command) then 1 else 0
  {
    assert [e][..0] == [];
  }

  lemma CountSplit(entries: seq<Entry>, i: nat, w: Wanted)
    requires i < |entries|
    ensures CountOf(entries, w) == CountOf(entries[..i], w) + CountOf([entries[i]], w) + CountOf(entries[i + 1..], w)
  {
    assert entries == entries[..i] + ([entries[i]] + entries[i + 1..]);
    CountConcat(entries[..i], [entries[i]] + entries[i + 1..], w);
    CountConcat([entries[i]], entries[i + 1..], w);
  }

  lemma CountOffer(q: Queue, command: Command, w: Wanted)
    ensures CountOf(q.Offer(command).entries, w)
         == CountOf(q.entries, w) + if !q.IsFull() && w.Matches(command) then 1 else 0
  {
    var entry := Entry(command, q.nextTicket, FromMqtt);
    CountConcat(q.entries, [entry], w);
    CountOne(entry, w);
  }

  lemma CountWithout(q: Queue, i: nat, w: Wanted)
    requires i < |q.entries|
    ensures CountOf(q.Without(i).entries, w)
         == CountOf(q.entries, w) - if w.Matches(q.entries[i].command) then 1 else 0
  {
    CountSplit(q.entries, i, w);
    CountOne(q.entries[i], w);
    CountConcat(q.entries[..i], q.entries[i + 1..], w);
  }

  lemma CountReplace(entries: seq<Entry>, i: nat, command: Command, w: Wanted)
    requires i < |entries| && (w.Matches(command) <==> w.Matches(entries[i].command))
    ensures CountOf(entries[i := entries[i].(command := command)], w) == CountOf(entries, w)
  {
    var changed := entries[i := entries[i].(command := command)];
    CountSplit(entries, i, w);
    CountSplit(changed, i, w);
    assert changed[..i] == entries[..i] && changed[i + 1..] == entries[i + 1..];
    CountOne(entries[i], w);
    CountOne(changed[i], w);
  }

  lemma {:induction false} FoundIffCounted(entries: seq<Entry>, w: Wanted)
    ensures CountOf(entries, w) > 0 <==> exists i :: 0 <= i < |entries| && w.Matches(entries[i].command)
  {
    if entries != [] {
      var n := |entries| - 1;
      FoundIffCounted(entries[..n], w);
      if exists i :: 0 <= i < |entries| && w.Matches(entries[i].command) {
        var i :| 0 <= i < |entries| && w.Matches(entries[i].command);
        assert i < n ==> w.Matches(entries[..n][i].command);
      }
    }
  }

  /** Searching finds an entry exactly when there is one to count. */
  lemma FindIffCounted(entries: seq<Entry>, w: Wanted)
    ensures Find(entries, w) < |entries| <==> CountOf(entries, w) > 0
  {
    FoundIffCounted(entries, w);
  }

  // ---- Sequences of requests ----------------------------------------------------------

  function AfterAll(q: Queue, commands: seq<Command>): Queue {
    if commands == [] then q else Requested(AfterAll(q, commands[..|commands| - 1]), commands[|commands| - 1])
  }

  function DropsOf(q: Queue, commands: seq<Command>): nat {
    if commands == [] then 0 else
      DropsOf(q, commands[..|commands| - 1]) + Drops(AfterAll(q, commands[..|commands| - 1]), commands[|commands| - 1])
  }

  function Presses(commands: seq<Command>, item: ToggleItem): nat {
    if commands == [] then 0 else
      Presses(commands[..|commands| - 1], item) + if commands[|commands| - 1] == Toggle(item) then 1 else 0
  }

  function LastTemperature(commands: seq<Command>): Option<u8> {
    if commands == [] then None
    else if commands[|commands| - 1].SetTemperature? then Some(commands[|commands| - 1].temp)
    else LastTemperature(commands[..|commands| - 1])
  }

  /** The clock mode that may be queued first is neither a toggle nor a temperature. */
  lemma ClockModeApart(q: Queue, command: Command, w: Wanted)
    requires w != AnyClockMode
    ensures CountOf(WithClockMode(q, command).entries, w) == CountOf(q.entries, w)
  {
    CountOffer(q, SetPreference(CLOCK_MODE, 1), w);
  }

  /** One request that drops nothing flips its own toggle and leaves every other toggle alone. */
  lemma RequestedToggles(q: Queue, command: Command, item: ToggleItem)
    requires Drops(q, command) == 0 && CountOf(q.entries, TheToggle(item)) <= 1
    ensures CountOf(Requested(q, command).entries, TheToggle(item))
         == if command == Toggle(item) then 1 - CountOf(q.entries, TheToggle(item))
            else CountOf(q.entries, TheToggle(item))
  {
    var t := Find(q.entries, AnyTemperature);
    if command.SetTemperature? && t < |q.entries| {
      CountReplace(q.entries, t, command, TheToggle(item));
    } else {
      var b := WithClockMode(q, command);
      ClockModeApart(q, command, TheToggle(item));
      if command.Toggle? && Find(b.entries, TheToggle(command.item)) < |b.entries| {
        CountWithout(b, Find(b.entries, TheToggle(command.item)), TheToggle(item));
        FindIffCounted(b.entries, TheToggle(command.item));
      } else {
        CountOffer(b, command, TheToggle(item));
        FindIffCounted(b.entries, TheToggle(item));
      }
    }
  }

  ghost predicate OnlyTemperature(entries: seq<Entry>, last: Option<u8>) {
    && CountOf(entries, AnyTemperature) == (if last.Some? then 1 else 0)
    && (forall i :: 0 <= i < |entries| && entries[i].command.SetTemperature? ==> last == Some(entries[i].command.temp))
  }

  lemma OfferTemperature(q: Queue, command: Command, last: Option<u8>)
    requires OnlyTemperature(q.entries, last) && (command.SetTemperature? ==> last == None)
    ensures OnlyTemperature(q.Offer(command).entries,
                            if command.SetTemperature? && !q.IsFull() then Some(command.temp) else last)
  {
    CountOffer(q, command, AnyTemperature);
    FoundIffCounted(q.entries, AnyTemperature);
  }

  lemma WithoutTemperature(q: Queue, i: nat, last: Option<u8>)
    requires OnlyTemperature(q.entries, last) && i < |q.entries| && q.entries[i].command.Toggle?
    ensures OnlyTemperature(q.Without(i).entries, last)
  {
    CountWithout(q, i, AnyTemperature);
  }

  lemma RequestedTemperature(q: Queue, command: Command, last: Option<u8>)
    requires Drops(q, command) == 0 && OnlyTemperature(q.entries, last)
    ensures OnlyTemperature(Requested(q, command).entries,
                            if command.SetTemperature? then Some(command.temp) else last)
  {
    var t := Find(q.entries, AnyTemperature);
    FindIffCounted(q.entries, AnyTemperature);
    if command.SetTemperature? && t < |q.entries| {
      ReplacedTemperature(q.entries, t, command);
    } else {
      var b := WithClockMode(q, command);
      OfferTemperature(q, SetPreference(CLOCK_MODE, 1), last);
      if command.Toggle? && Find(b.entries, TheToggle(command.item)) < |b.entries| {
        WithoutTemperature(b, Find(b.entries, TheToggle(command.item)), last);
      } else {
        OfferTemperature(b, command, last);
      }
    }
  }

  lemma CountTwo(entries: seq<Entry>, i: nat, j: nat, w: Wanted)
    requires i < j < |entries| && w.Matches(entries[i].command) && w.Matches(entries[j].command)
    ensures CountOf(entries, w) >= 2
  {
    CountSplit(entries, j, w);
    CountOne(entries[j], w);
    assert w.Matches(entries[..j][i].command);
    FoundIffCounted(entries[..j], w);
  }

  lemma ReplacedTemperature(entries: seq<Entry>, t: nat, command: Command)
    requires t < |entries| && entries[t].command.SetTemperature? && command.SetTemperature?
    requires CountOf(entries, AnyTemperature) == 1
    ensures OnlyTemperature(entries[t := entries[t].(command := command)], Some(command.temp))
  {
    CountReplace(entries, t, command, AnyTemperature);
    forall i | 0 <= i < |entries| && i != t ensures !entries[i].command.SetTemperature? {
      if entries[i].command.SetTemperature? {
        CountTwo(entries, if i < t then i else t, if i < t then t else i, AnyTemperature);
      }
    }
  }

  /** Each item is queued for toggling exactly when it was pressed an odd number of times. */
  ghost predicate Paired(entries: seq<Entry>, commands: seq<Command>) {
    forall item :: CountOf(entries, TheToggle(item)) == Presses(commands, item) % 2
  }

  lemma RequestedPaired(q: Queue, commands: seq<Command>)
    requires commands != [] && Paired(q.entries, commands[..|commands| - 1])
    requires Drops(q, commands[|commands| - 1]) == 0
    ensures Paired(Requested(q, commands[|commands| - 1]).entries, commands)
  {
    var n := |commands| - 1;
    forall item ensures CountOf(Requested(q, commands[n]).entries, TheToggle(item)) == Presses(commands, item) % 2 {
      assert CountOf(q.entries, TheToggle(item)) == Presses(commands[..n], item) % 2;
      RequestedToggles(q, commands[n], item);
    }
  }

  /**
   * However fast requests come in, as long as none is dropped: toggles cancel in pairs, and the
   * one queued temperature, if any was requested, is the last one requested.
   */
  lemma {:induction false} RapidRequests(q: Queue, commands: seq<Command>)
    requires q.entries == [] && DropsOf(q, commands) == 0
    ensures Paired(AfterAll(q, commands).entries, commands)
    ensures OnlyTemperature(AfterAll(q, commands).entries, LastTemperature(commands))
  {
    if commands != [] {
      var n := |commands| - 1;
      RapidRequests(q, commands[..n]);
      RequestedPaired(AfterAll(q, commands[..n]), commands);
      RequestedTemperature(AfterAll(q, commands[..n]), commands[n], LastTemperature(commands[..n]));
    }
  }
}
