/** Commands that have been sent and wait to be confirmed by a status update. */
module Tracking {
  import opened Bytes
  import opened Protocol

  const COMMAND_ACK_TIMEOUT_MS: nat := 5_000
  const MAX_COMMAND_RETRIES: nat := 2
  const MAX_PENDING_COMMANDS: nat := 8

  datatype ExpectedChange =
    | PumpToggled(pump: ToggleItem, prePump: PumpState)
    | BlowerToggled(preBlower: bool)
    | TemperatureSet(temp: u8)
    | LightToggled(light: ToggleItem, preLight: bool)
    | HoldModeToggled(preHold: bool)
    | HeatingModeToggled(preHeating: Heating)
    | TempRangeToggled(preRange: TempRange)

  function FromCommand(cmd: Command, pre: Status): Option<ExpectedChange> {
    match cmd
    case Toggle(item) =>
      if item.PumpIndex().Some? then
        Some(PumpToggled(item, pre.pumps[item.PumpIndex().value]))
      else if item.LightIndex().Some? then
        Some(LightToggled(item, pre.lights[item.LightIndex().value]))
      else (
        match item
        case Blower => Some(BlowerToggled(pre.blower))
        case HoldMode => Some(HoldModeToggled(pre.isHold))
        case HeatingMode => Some(HeatingModeToggled(pre.heating))
        case TemperatureRange => Some(TempRangeToggled(pre.range))
        case _ => None
      )
    case SetTemperature(temp) => Some(TemperatureSet(temp))
    case _ => None
  }

  predicate IsConfirmed(expected: ExpectedChange, status: Status) {
    match expected
    case PumpToggled(item, pre) =>
      item.PumpIndex().Some? && status.pumps[item.PumpIndex().value] != pre
    case BlowerToggled(pre) => status.blower != pre
    case TemperatureSet(temp) => status.setTemp == Some(temp)
    case LightToggled(item, pre) =>
      if item.LightIndex().Some? then status.lights[item.LightIndex().value] != pre else status.lights[0] != pre
    case HoldModeToggled(pre) => status.isHold != pre
    case HeatingModeToggled(pre) => status.heating != pre
    case TempRangeToggled(pre) => status.range != pre
  }

  datatype Pending = Pending(command: Command, expected: ExpectedChange, sentAt: nat, retries: nat)

  /** What a status update means for one pending command. */
  datatype Verdict = Confirmed | Retry | Expired | Waiting

  function Judge(p: Pending, status: Status, now: nat): Verdict {
    if IsConfirmed(p.expected, status) then Confirmed
    else if Elapsed(now, p.sentAt) < COMMAND_ACK_TIMEOUT_MS then Waiting
    else if p.retries < MAX_COMMAND_RETRIES then Retry
    else Expired
  }

  /** The pending commands left after a status update, in order. */
  function Survivors(pending: seq<Pending>, status: Status, now: nat): seq<Pending> {
    if pending == [] then [] else
      (match Judge(pending[0], status, now)
       case Confirmed => []
       case Expired => []
       case Waiting => [pending[0]]
       case Retry => [pending[0].(retries := pending[0].retries + 1, sentAt := now)])
      + Survivors(pending[1..], status, now)
  }

  /** The commands to send again, the youngest first. */
  function Retries(pending: seq<Pending>, status: Status, now: nat): seq<Command> {
    if pending == [] then [] else
      Retries(pending[1..], status, now)
      + if Judge(pending[0], status, now) == Retry then [pending[0].command] else []
  }

  function Count(pending: seq<Pending>, status: Status, now: nat, verdict: Verdict): nat {
    if pending == [] then 0 else
      (if Judge(pending[0], status, now) == verdict then 1 else 0) + Count(pending[1..], status, now, verdict)
  }

  function Position(pending: seq<Pending>, expected: ExpectedChange): (i: nat)
    ensures i <= |pending|
    ensures forall j :: 0 <= j < i ==> pending[j].expected != expected
    ensures i < |pending| ==> pending[i].expected == expected
  {
    if pending == [] || pending[0].expected == expected then 0 else 1 + Position(pending[1..], expected)
  }

  // ---- The tracker as a value ---------------------------------------------------------

  datatype Tracker = Tracker(pending: seq<Pending>, dropped: nat, retried: nat) {
    function Track(command: Command, pre: Status, now: nat): Tracker {
      var expected := FromCommand(command, pre);
      if expected.None? then this else
        var i := Position(pending, expected.value);
        if i < |pending| then
          this.(pending := pending[i := pending[i].(command := command, sentAt := now)])
        else if |pending| >= MAX_PENDING_COMMANDS then
          this.(dropped := dropped + 1)
        else
          this.(pending := pending + [Pending(command, expected.value, now, 0)])
    }

    function Verify(status: Status, now: nat): Tracker {
      Tracker(
        Survivors(pending, status, now),
        dropped + Count(pending, status, now, Expired),
        retried + Count(pending, status, now, Retry))
    }

    function RecordDropped(): Tracker {
      this.(dropped := dropped + 1)
    }
  }

  const EMPTY := Tracker([], 0, 0)

  // ---- What every run keeps -----------------------------------------------------------

  datatype TrackerEvent = Tracked(command: Command, pre: Status, at: nat) | Verified(status: Status, at: nat) | Dropped

  /** Entries pushed, confirmed and expired since the last reset. */
  datatype Tally = Tally(pushed: nat, confirmed: nat, expired: nat)

  function Apply(t: Tracker, e: TrackerEvent): Tracker {
    match e
    case Tracked(command, pre, now) => t.Track(command, pre, now)
    case Verified(status, now) => t.Verify(status, now)
    case Dropped => t.RecordDropped()
  }

  function Tallied(t: Tracker, y: Tally, e: TrackerEvent): Tally {
    match e
    case Tracked(_, _, _) => if |Apply(t, e).pending| > |t.pending| then y.(pushed := y.pushed + 1) else y
    case Verified(status, now) =>
      y.(confirmed := y.confirmed + Count(t.pending, status, now, Confirmed),
         expired := y.expired + Count(t.pending, status, now, Expired))
    case Dropped => y
  }

  function RunTracker(es: seq<TrackerEvent>): (Tracker, Tally) {
    if es == [] then (EMPTY, Tally(0, 0, 0)) else
      var (t, y) := RunTracker(es[..|es| - 1]);
      (Apply(t, es[|es| - 1]), Tallied(t, y, es[|es| - 1]))
  }

  function SumRetries(pending: seq<Pending>): nat {
    if pending == [] then 0 else pending[0].retries + SumRetries(pending[1..])
  }

  ghost predicate Distinct(pending: seq<Pending>) {
    forall i, j :: 0 <= i < j < |pending| ==> pending[i].expected != pending[j].expected
  }

  ghost predicate FewRetries(pending: seq<Pending>) {
    forall i :: 0 <= i < |pending| ==> pending[i].retries <= MAX_COMMAND_RETRIES
  }

  ghost predicate Consistent(t: Tracker, y: Tally) {
    && |t.pending| <= MAX_PENDING_COMMANDS
    && Distinct(t.pending)
    && FewRetries(t.pending)
    && y.pushed == y.confirmed + y.expired + |t.pending|
    && t.retried <= MAX_COMMAND_RETRIES * (y.confirmed + y.expired) + SumRetries(t.pending)
  }

  lemma {:induction false} SumRetriesAppend(a: seq<Pending>, b: seq<Pending>)
    ensures SumRetries(a + b) == SumRetries(a) + SumRetries(b)
  {
    if a == [] {
      assert a + b == b;
    } else {
      assert (a + b)[1..] == a[1..] + b;
      SumRetriesAppend(a[1..], b);
    }
  }

  lemma {:induction false} SumRetriesBound(pending: seq<Pending>)
    requires FewRetries(pending)
    ensures SumRetries(pending) <= MAX_COMMAND_RETRIES * |pending|
  {
    if pending != [] {
      SumRetriesBound(pending[1..]);
    }
  }

  /** Every survivor stems from a pending entry with its expectation, in order and only once. */
  lemma {:induction false} SurvivorsDistinct(pending: seq<Pending>, status: Status, now: nat)
    requires Distinct(pending) && FewRetries(pending)
    ensures var s := Survivors(pending, status, now);
            && Distinct(s) && FewRetries(s)
            && (forall p :: p in s ==> exists q :: q in pending && q.expected == p.expected)
  {
    if pending != [] {
      var first, rest := pending[0], pending[1..];
      SurvivorsDistinct(rest, status, now);
      var s, r := Survivors(pending, status, now), Survivors(rest, status, now);
      forall p | p in r ensures p.expected != first.expected {
        var q :| q in rest && q.expected == p.expected;
      }
      forall p | p in s ensures exists q :: q in pending && q.expected == p.expected {
        if p in r {
          var q :| q in rest && q.expected == p.expected;
          assert q in pending;
        } else {
          assert first in pending;
        }
      }
      if s != r {
        assert s == [s[0]] + r && s[0].expected == first.expected;
      }
    }
  }

  /** Nothing is lost: an entry survives, is confirmed or expires; only survivors gain a retry. */
  lemma {:induction false} SurvivorsConserve(pending: seq<Pending>, status: Status, now: nat)
    requires FewRetries(pending)
    ensures var s, gone := Survivors(pending, status, now),
              Count(pending, status, now, Confirmed) + Count(pending, status, now, Expired);
            && |s| + gone == |pending|
            && SumRetries(pending) + Count(pending, status, now, Retry)
               <= SumRetries(s) + MAX_COMMAND_RETRIES * gone
  {
    if pending != [] {
      SurvivorsConserve(pending[1..], status, now);
      var s, r := Survivors(pending, status, now), Survivors(pending[1..], status, now);
      assert pending[0].retries <= MAX_COMMAND_RETRIES;
      assert s == r || s[1..] == r;
    }
  }

  lemma TrackKeeps(t: Tracker, y: Tally, e: TrackerEvent)
    requires e.Tracked? && Consistent(t, y)
    ensures Consistent(Apply(t, e), Tallied(t, y, e))
  {
    var expected := FromCommand(e.command, e.pre);
    if expected.Some? {
      var i := Position(t.pending, expected.value);
      if i < |t.pending| {
        UpdateKeepsSum(t.pending, i, t.pending[i].(command := e.command, sentAt := e.at));
      } else if |t.pending| < MAX_PENDING_COMMANDS {
        SumRetriesAppend(t.pending, [Pending(e.command, expected.value, e.at, 0)]);
      }
    }
  }

  lemma UpdateKeepsSum(pending: seq<Pending>, i: nat, p: Pending)
    requires i < |pending| && p.retries == pending[i].retries
    ensures SumRetries(pending[i := p]) == SumRetries(pending)
  {
    assert pending == pending[..i] + [pending[i]] + pending[i + 1..];
    assert pending[i := p] == pending[..i] + [p] + pending[i + 1..];
    SumRetriesAppend(pending[..i] + [pending[i]], pending[i + 1..]);
    SumRetriesAppend(pending[..i], [pending[i]]);
    SumRetriesAppend(pending[..i] + [p], pending[i + 1..]);
    SumRetriesAppend(pending[..i], [p]);
  }

  /**
   * Over every run since a reset: what was pushed is confirmed, expired or still pending; at
   * most eight commands are pending, all with different expectations; and nothing was retried
   * more than twice.
   */
  lemma {:induction false} RunKeeps(es: seq<TrackerEvent>)
    ensures var (t, y) := RunTracker(es);
            Consistent(t, y) && t.retried <= MAX_COMMAND_RETRIES * y.pushed
  {
    if es != [] {
      var n := |es| - 1;
      RunKeeps(es[..n]);
      var (t, y) := RunTracker(es[..n]);
      match es[n]
      case Tracked(_, _, _) => TrackKeeps(t, y, es[n]);
      case Verified(status, now) =>
        SurvivorsDistinct(t.pending, status, now);
        SurvivorsConserve(t.pending, status, now);
      case Dropped =>
    }
    var (t, y) := RunTracker(es);
    SumRetriesBound(t.pending);
  }

  // ---- The code: collect indices, then edit in place ----------------------------------

  ghost predicate Descending(s: seq<nat>) {
    forall i, j :: 0 <= i < j < |s| ==> s[i] > s[j]
  }

  function Insert(x: nat, s: seq<nat>): seq<nat> {
    if s == [] || x <= s[0] then [x] + s else [s[0]] + Insert(x, s[1..])
  }

  /** The library's sort of a vector of indices. */
  function Sort(s: seq<nat>): seq<nat> {
    if s == [] then [] else Insert(s[0], Sort(s[1..]))
  }

  function Reverse(s: seq<nat>): (r: seq<nat>)
    ensures |r| == |s| && forall i :: 0 <= i < |s| ==> r[i] == s[|s| - 1 - i]
  {
    seq(|s|, i requires 0 <= i < |s| => s[|s| - 1 - i])
  }

  lemma {:induction false} InsertLargest(x: nat, s: seq<nat>)
    requires forall i :: 0 <= i < |s| ==> s[i] < x
    ensures Insert(x, s) == s + [x]
  {
    if s != [] {
      InsertLargest(x, s[1..]);
    }
  }

  lemma {:induction false} SortDescending(s: seq<nat>)
    requires Descending(s)
    ensures Sort(s) == Reverse(s)
  {
    if s != [] {
      SortDescending(s[1..]);
      InsertLargest(s[0], Reverse(s[1..]));
    }
  }

  predicate IsGone(p: Pending, status: Status, now: nat) {
    Judge(p, status, now) == Confirmed || Judge(p, status, now) == Expired
  }

  function Bump(p: Pending, status: Status, now: nat): Pending {
    if Judge(p, status, now) == Retry then p.(retries := p.retries + 1, sentAt := now) else p
  }

  /** Where nothing is removed, the survivors are the entries themselves, retries counted. */
  lemma {:induction false} SurvivorsOfStretch(p: seq<Pending>, lo: nat, hi: nat, status: Status, now: nat)
    requires lo <= hi <= |p|
    requires forall j :: lo <= j < hi ==> !IsGone(p[j], status, now)
    ensures Survivors(p[lo..], status, now)
         == seq(hi - lo, k requires 0 <= k < hi - lo => Bump(p[lo + k], status, now)) + Survivors(p[hi..], status, now)
    decreases hi - lo
  {
    if lo < hi {
      SurvivorsOfStretch(p, lo + 1, hi, status, now);
      assert p[lo..][1..] == p[lo + 1..];
      var head := seq(hi - lo, k requires 0 <= k < hi - lo => Bump(p[lo + k], status, now));
      var tail := seq(hi - (lo + 1), k requires 0 <= k < hi - (lo + 1) => Bump(p[lo + 1 + k], status, now));
      assert head == [Bump(p[lo], status, now)] + tail;
    }
  }

  ghost predicate CollectsGone(gone: seq<nat>, p: seq<Pending>, from: nat, status: Status, now: nat) {
    && Descending(gone)
    && (forall k :: 0 <= k < |gone| ==> from <= gone[k] < |p|)
    && (forall j :: from <= j < |p| ==> (IsGone(p[j], status, now) <==> j in gone))
  }

  ghost predicate CollectsRetries(retry: seq<nat>, p: seq<Pending>, from: nat, status: Status, now: nat)
    requires from <= |p|
  {
    var again := Retries(p[from..], status, now);
    && Descending(retry)
    && |retry| == |again| == Count(p[from..], status, now, Retry)
    && (forall k :: 0 <= k < |retry| ==> from <= retry[k] < |p| && again[k] == p[retry[k]].command)
    && (forall j :: from <= j < |p| ==> (Judge(p[j], status, now) == Retry <==> j in retry))
  }

  lemma CollectGoneNext(gone: seq<nat>, p: seq<Pending>, i: nat, status: Status, now: nat)
    requires i < |p| && CollectsGone(gone, p, i + 1, status, now)
    ensures CollectsGone(if IsGone(p[i], status, now) then gone + [i] else gone, p, i, status, now)
  {}

  lemma FirstOfRest(p: seq<Pending>, i: nat, status: Status, now: nat)
    requires i < |p|
    ensures Retries(p[i..], status, now)
         == Retries(p[i + 1..], status, now) + if Judge(p[i], status, now) == Retry then [p[i].command] else []
    ensures Count(p[i..], status, now, Retry)
         == (if Judge(p[i], status, now) == Retry then 1 else 0) + Count(p[i + 1..], status, now, Retry)
    ensures Count(p[i..], status, now, Expired)
         == (if Judge(p[i], status, now) == Expired then 1 else 0) + Count(p[i + 1..], status, now, Expired)
  {
    assert p[i..][1..] == p[i + 1..];
  }

  lemma CollectRetryNext(retry: seq<nat>, p: seq<Pending>, i: nat, status: Status, now: nat)
    requires i < |p| && CollectsRetries(retry, p, i + 1, status, now)
    ensures CollectsRetries(if Judge(p[i], status, now) == Retry then retry + [i] else retry, p, i, status, now)
  {
    FirstOfRest(p, i, status, now);
    if Judge(p[i], status, now) == Retry {
      CollectedRetry(retry, p, i, status, now);
    } else {
      assert Retries(p[i..], status, now) == Retries(p[i + 1..], status, now);
    }
  }

  lemma CollectedRetry(retry: seq<nat>, p: seq<Pending>, i: nat, status: Status, now: nat)
    requires i < |p| && CollectsRetries(retry, p, i + 1, status, now) && Judge(p[i], status, now) == Retry
    ensures CollectsRetries(retry + [i], p, i, status, now)
  {
    FirstOfRest(p, i, status, now);
    forall j | i <= j < |p|
      ensures Judge(p[j], status, now) == Retry <==> j in retry + [i]
    {
      assert j in retry + [i] <==> j in retry || j == i;
    }
  }

  ghost predicate Collects(gone: seq<nat>, retry: seq<nat>, expired: nat, p: seq<Pending>, from: nat, status: Status, now: nat)
    requires from <= |p|
  {
    && CollectsGone(gone, p, from, status, now)
    && CollectsRetries(retry, p, from, status, now)
    && expired == Count(p[from..], status, now, Expired)
  }

  lemma CollectNext(gone: seq<nat>, retry: seq<nat>, expired: nat, p: seq<Pending>, i: nat, status: Status, now: nat)
    requires i < |p| && Collects(gone, retry, expired, p, i + 1, status, now)
    ensures match Judge(p[i], status, now)
            case Confirmed => Collects(gone + [i], retry, expired, p, i, status, now)
            case Waiting => Collects(gone, retry, expired, p, i, status, now)
            case Retry => Collects(gone, retry + [i], expired, p, i, status, now)
            case Expired => Collects(gone + [i], retry, expired + 1, p, i, status, now)
  {
    CollectGoneNext(gone, p, i, status, now);
    CollectRetryNext(retry, p, i, status, now);
    FirstOfRest(p, i, status, now);
  }

  lemma CollectNothing(p: seq<Pending>, status: Status, now: nat)
    ensures Collects([], [], 0, p, |p|, status, now)
  {}

  /** The vector with the entries at some indices counted as sent again. */
  function Resent(p: seq<Pending>, done: seq<nat>, status: Status, now: nat): seq<Pending> {
    seq(|p|, j requires 0 <= j < |p| => if j in done then Bump(p[j], status, now) else p[j])
  }

  lemma ResentNext(p: seq<Pending>, retry: seq<nat>, k: nat, status: Status, now: nat)
    requires CollectsRetries(retry, p, 0, status, now) && k < |retry|
    ensures var q, i := Resent(p, retry[..k], status, now), retry[k];
            && i < |p| && q[i] == p[i]
            && Resent(p, retry[..k + 1], status, now) == q[i := p[i].(retries := p[i].retries + 1, sentAt := now)]
  {
    var i := retry[k];
    assert i !in retry[..k];
    assert retry[..k + 1] == retry[..k] + [i];
    assert i in retry;
  }

  /** The entries between two collected indices are not removed. */
  lemma BetweenGone(gone: seq<nat>, p: seq<Pending>, m: nat, status: Status, now: nat)
    requires CollectsGone(gone, p, 0, status, now) && m <= |gone|
    ensures var b := if m == 0 then |p| else gone[m - 1];
            var i := if m < |gone| then gone[m] else -1;
            i < b && forall j :: i < j < b ==> !IsGone(p[j], status, now)
  {
    var b := if m == 0 then |p| else gone[m - 1];
    var i := if m < |gone| then gone[m] else -1;
    forall j | i < j < b ensures !IsGone(p[j], status, now) {
      assert forall k :: 0 <= k < |gone| ==> gone[k] != j;
    }
  }

  /** The vector after the entries collected first have been removed. */
  function Removed(p: seq<Pending>, b: nat, status: Status, now: nat): seq<Pending>
    requires b <= |p|
  {
    seq(b, k requires 0 <= k < b => Bump(p[k], status, now)) + Survivors(p[b..], status, now)
  }

  lemma RemoveNext(p: seq<Pending>, i: nat, b: nat, status: Status, now: nat)
    requires i < b <= |p| && IsGone(p[i], status, now)
    requires forall j :: i < j < b ==> !IsGone(p[j], status, now)
    ensures var r := Removed(p, b, status, now);
            i < |r| && r[..i] + r[i + 1..] == Removed(p, i, status, now)
  {
    SurvivorsOfStretch(p, i + 1, b, status, now);
    assert p[i..][1..] == p[i + 1..];
    var s := seq(b - (i + 1), k requires 0 <= k < b - (i + 1) => Bump(p[i + 1 + k], status, now));
    var r := Removed(p, b, status, now);
    assert r[i + 1..] == s + Survivors(p[b..], status, now);
  }

  class CommandTracker {
    var pending: seq<Pending>
    var droppedCount: nat
    var retryCount: nat

    ghost function Model(): Tracker
      reads this
    {
      Tracker(pending, droppedCount, retryCount)
    }

    constructor ()
      ensures Model() == EMPTY
    {
      pending := [];
      droppedCount := 0;
      retryCount := 0;
    }

    method Track(command: Command, pre: Status, now: nat)
      modifies this
      ensures Model() == old(Model()).Track(command, pre, now)
    {
      var expected := FromCommand(command, pre);
      if expected.None? {
        return;
      }
      for i := 0 to |pending|
        invariant i <= Position(pending, expected.value)
        invariant pending == old(pending) && droppedCount == old(droppedCount) && retryCount == old(retryCount)
      {
        if pending[i].expected == expected.value {
          pending := pending[i := pending[i].(command := command, sentAt := now)];
          return;
        }
      }
      if |pending| >= MAX_PENDING_COMMANDS {
        droppedCount := droppedCount + 1;
        return;
      }
      pending := pending + [Pending(command, expected.value, now, 0)];
    }

    /** The indices of the entries to remove and to send again, and how many have expired. */
    method Collect(status: Status, now: nat) returns (gone: seq<nat>, retry: seq<nat>, expired: nat)
      ensures CollectsGone(gone, pending, 0, status, now)
      ensures CollectsRetries(retry, pending, 0, status, now)
      ensures expired == Count(pending, status, now, Expired)
    {
      gone, retry, expired := [], [], 0;
      var i := |pending|;
      CollectNothing(pending, status, now);
      while i > 0
        invariant 0 <= i <= |pending|
        invariant Collects(gone, retry, expired, pending, i, status, now)
      {
        i := i - 1;
        CollectNext(gone, retry, expired, pending, i, status, now);
        var p := pending[i];
        var elapsed := Elapsed(now, p.sentAt);
        if IsConfirmed(p.expected, status) {
          gone := gone + [i];
        } else if elapsed >= COMMAND_ACK_TIMEOUT_MS {
          if p.retries < MAX_COMMAND_RETRIES {
            retry := retry + [i];
          } else {
            gone := gone + [i];
            expired := expired + 1;
          }
        }
      }
      assert pending[0..] == pending;
    }

    /** Count the retries of the collected entries and gather their commands. */
    method Resend(retry: seq<nat>, status: Status, now: nat) returns (commands: seq<Command>)
      requires CollectsRetries(retry, pending, 0, status, now)
      modifies this`pending
      ensures |pending| == |old(pending)|
      ensures forall j :: 0 <= j < |pending| ==> pending[j] == Bump(old(pending)[j], status, now)
      ensures commands == Retries(old(pending), status, now)
    {
      commands := [];
      ghost var before := pending;
      assert before[0..] == before && Resent(before, retry[..0], status, now) == before;
      for k := 0 to |retry|
        invariant pending == Resent(before, retry[..k], status, now)
        invariant commands == Retries(before, status, now)[..k]
      {
        ResentNext(before, retry, k, status, now);
        var i := retry[k];
        pending := pending[i := pending[i].(retries := pending[i].retries + 1, sentAt := now)];
        commands := commands + [pending[i].command];
      }
      assert retry[..|retry|] == retry && commands == Retries(before, status, now);
    }

    /** Remove the collected entries, highest index first. */
    method Remove(gone: seq<nat>, ghost before: seq<Pending>, status: Status, now: nat)
      requires CollectsGone(gone, before, 0, status, now)
      requires |pending| == |before|
      requires forall j :: 0 <= j < |pending| ==> pending[j] == Bump(before[j], status, now)
      modifies this`pending
      ensures pending == Survivors(before, status, now)
    {
      var sorted := Sort(gone);
      SortDescending(gone);
      ghost var b := |before|;
      var m := 0;
      assert pending == Removed(before, b, status, now);
      while m < |sorted|
        invariant m <= |gone| && b == (if m == 0 then |before| else gone[m - 1]) && b <= |before|
        invariant pending == Removed(before, b, status, now)
      {
        var i := sorted[|sorted| - 1 - m];
        BetweenGone(gone, before, m, status, now);
        assert i == gone[m] && gone[m] in gone;
        RemoveNext(before, i, b, status, now);
        pending := pending[..i] + pending[i + 1..];
        b := i;
        m := m + 1;
      }
      BetweenGone(gone, before, m, status, now);
      SurvivorsOfStretch(before, 0, b, status, now);
      assert before[0..] == before;
    }

    method Verify(status: Status, now: nat) returns (retries: seq<Command>, dropped: nat)
      modifies this
      ensures Model() == old(Model()).Verify(status, now)
      ensures retries == Retries(old(pending), status, now)
      ensures dropped == Count(old(pending), status, now, Expired)
    {
      var gone, retry;
      gone, retry, dropped := Collect(status, now);
      assert pending[0..] == pending;
      retries := Resend(retry, status, now);
      retryCount := retryCount + |retries|;
      Remove(gone, old(pending), status, now);
      droppedCount := droppedCount + dropped;
    }

    method RecordDropped()
      modifies this
      ensures Model() == old(Model()).RecordDropped()
    {
      droppedCount := droppedCount + 1;
    }

    method Reset()
      modifies this
      ensures Model() == EMPTY
    {
      pending := [];
      droppedCount := 0;
      retryCount := 0;
    }
  }
}
