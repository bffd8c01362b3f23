/** Automatic pump shut-off and the release of a forgotten hold mode. */
module Timers {
  import opened Bytes
  import opened Protocol

  const DEFAULT_PUMP_DURATION_MS: nat := 20 * 60 * 1000
  const DEFAULT_HOLD_MODE_TIMEOUT_MS: nat := 60 * 60 * 1000

  // ---- Pump timers --------------------------------------------------------------------

  datatype PumpTimer = PumpTimer(pump: ToggleItem, startedAt: Option<nat>, durationMs: nat) {
    function StartWithMinutes(minutes: nat, now: nat): PumpTimer {
      this.(durationMs := minutes * 60 * 1000, startedAt := Some(now))
    }

    function Cancel(): PumpTimer {
      this.(startedAt := None)
    }

    /** The timer after an observation of its pump, and whether it asks for a toggle. */
    function Tick(now: nat, state: PumpState): (PumpTimer, bool) {
      if startedAt.None? then (this, false)
      else if state == Off then (Cancel(), false)
      else if Elapsed(now, startedAt.value) >= durationMs then (Cancel(), true)
      else (this, false)
    }
  }

  const PUMPS: seq<ToggleItem> := [Pump1, Pump2, Pump3, Pump4, Pump5, Pump6]

  type PumpTimers = s: seq<PumpTimer> | |s| == 6
    witness seq(6, i => PumpTimer(Pump1, None, 0))

  function NewTimers(): PumpTimers {
    seq(6, i requires 0 <= i < 6 => PumpTimer(PUMPS[i], None, DEFAULT_PUMP_DURATION_MS))
  }

  function TickedAll(timers: PumpTimers, now: nat, pumps: seq<PumpState>): (r: PumpTimers)
    requires |pumps| == 6
  {
    seq(6, i requires 0 <= i < 6 => timers[i].Tick(now, pumps[i]).0)
  }

  /** The toggles asked for by the first `n` timers, in order. */
  function Expiring(timers: PumpTimers, now: nat, pumps: seq<PumpState>, n: nat): seq<Command>
    requires |pumps| == 6 && n <= 6
  {
    if n == 0 then [] else
      Expiring(timers, now, pumps, n - 1)
      + if timers[n - 1].Tick(now, pumps[n - 1]).1 then [Toggle(timers[n - 1].pump)] else []
  }

  function Started(timers: PumpTimers, index: u8, minutes: nat, now: nat): PumpTimers {
    if index == 0 || index > 6 then timers else
      var i: int := index;
      timers[i - 1 := timers[i - 1].StartWithMinutes(minutes, now)]
  }

  function CancelledAll(timers: PumpTimers): PumpTimers {
    seq(6, i requires 0 <= i < 6 => timers[i].Cancel())
  }

  /** An observation of a pump, and the timer after a list of them. */
  datatype PumpSeen = PumpSeen(at: nat, state: PumpState)

  function RunPump(t: PumpTimer, seen: seq<PumpSeen>): PumpTimer {
    if seen == [] then t else
      RunPump(t, seen[..|seen| - 1]).Tick(seen[|seen| - 1].at, seen[|seen| - 1].state).0
  }

  predicate PumpFires(t: PumpTimer, seen: seq<PumpSeen>, i: nat)
    requires i < |seen|
  {
    RunPump(t, seen[..i]).Tick(seen[i].at, seen[i].state).1
  }

  lemma {:induction false} PumpStillRunning(t: PumpTimer, seen: seq<PumpSeen>)
    requires t.startedAt.Some?
    ensures var r := RunPump(t, seen);
            && r == t.(startedAt := r.startedAt)
            && (r.startedAt == t.startedAt || r.startedAt == None)
            && (r.startedAt.Some? <==>
                  forall j :: 0 <= j < |seen| ==>
                    seen[j].state != Off && Elapsed(seen[j].at, t.startedAt.value) < t.durationMs)
  {
    if seen != [] {
      var n := |seen| - 1;
      PumpStillRunning(t, seen[..n]);
      assert forall j :: 0 <= j < n ==> seen[..n][j] == seen[j];
    }
  }

  /**
   * A started pump timer fires at an observation exactly when it is the first one at or past
   * the deadline and the pump has been seen on ever since: so at most once for each start.
   */
  lemma PumpFiresIff(t: PumpTimer, seen: seq<PumpSeen>, i: nat)
    requires t.startedAt.Some? && i < |seen|
    ensures PumpFires(t, seen, i) <==>
              && (forall j :: 0 <= j <= i ==> seen[j].state != Off)
              && Elapsed(seen[i].at, t.startedAt.value) >= t.durationMs
              && (forall j :: 0 <= j < i ==> Elapsed(seen[j].at, t.startedAt.value) < t.durationMs)
  {
    PumpStillRunning(t, seen[..i]);
    assert forall j :: 0 <= j < i ==> seen[..i][j] == seen[j];
  }

  class PumpTimerManager {
    var timers: seq<PumpTimer>

    ghost predicate Valid()
      reads this
    {
      |timers| == 6
    }

    constructor ()
      ensures Valid() && timers == NewTimers()
    {
      timers := NewTimers();
    }

    method TickAll(now: nat, pumps: seq<PumpState>) returns (cmds: seq<Command>)
      requires Valid() && |pumps| == 6
      modifies this
      ensures Valid() && timers == TickedAll(old(timers), now, pumps)
      ensures cmds == Expiring(old(timers), now, pumps, 6)
    {
      cmds := [];
      for i := 0 to 6
        invariant |timers| == 6
        invariant forall k :: 0 <= k < i ==> timers[k] == old(timers)[k].Tick(now, pumps[k]).0
        invariant forall k :: i <= k < 6 ==> timers[k] == old(timers)[k]
        invariant cmds == Expiring(old(timers), now, pumps, i)
      {
        var (timer, fires) := timers[i].Tick(now, pumps[i]);
        timers := timers[i := timer];
        if fires {
          cmds := cmds + [Toggle(timer.pump)];
        }
      }
    }

    method StartTimer(index: u8, minutes: nat, now: nat) returns (cmd: Option<Command>)
      requires Valid()
      modifies this
      ensures Valid() && timers == Started(old(timers), index, minutes, now)
      ensures cmd == if index == 0 || index > 6 then None else Some(Toggle(old(timers)[index - 1].pump))
    {
      if index == 0 {
        return None;
      }
      var i: int := index - 1;
      if i >= |timers| {
        return None;
      }
      timers := timers[i := timers[i].StartWithMinutes(minutes, now)];
      cmd := Some(Toggle(timers[i].pump));
    }

    method CancelAll()
      requires Valid()
      modifies this
      ensures Valid() && timers == CancelledAll(old(timers))
    {
      for i := 0 to 6
        invariant |timers| == 6
        invariant forall k :: 0 <= k < i ==> timers[k] == old(timers)[k].Cancel()
        invariant forall k :: i <= k < 6 ==> timers[k] == old(timers)[k]
      {
        timers := timers[i := timers[i].Cancel()];
      }
    }
  }

  // ---- Hold mode ----------------------------------------------------------------------

  datatype HoldTimer = HoldTimer(enteredAt: Option<nat>, timeoutMs: nat, fired: bool) {
    /** The timer after an observation, and whether it asks for hold mode to be released. */
    function Tick(now: nat, isHold: bool): (HoldTimer, bool) {
      if !isHold then (HoldTimer(None, timeoutMs, false), false)
      else if fired then (this, false)
      else if enteredAt.None? then (this.(enteredAt := Some(now)), false)
      else if Elapsed(now, enteredAt.value) >= timeoutMs then (HoldTimer(None, timeoutMs, true), true)
      else (this, false)
    }
  }

  function NewHoldTimer(timeoutMs: nat): HoldTimer {
    HoldTimer(None, timeoutMs, false)
  }

  datatype HoldSeen = HoldSeen(at: nat, hold: bool)

  function RunHold(timeoutMs: nat, seen: seq<HoldSeen>): HoldTimer {
    if seen == [] then NewHoldTimer(timeoutMs) else
      RunHold(timeoutMs, seen[..|seen| - 1]).Tick(seen[|seen| - 1].at, seen[|seen| - 1].hold).0
  }

  predicate HoldFires(timeoutMs: nat, seen: seq<HoldSeen>, i: nat)
    requires i < |seen|
  {
    RunHold(timeoutMs, seen[..i]).Tick(seen[i].at, seen[i].hold).1
  }

  /** Where the unbroken stretch of hold observations that includes `i` begins. */
  function StretchStart(seen: seq<HoldSeen>, i: nat): (s: nat)
    requires i < |seen| && seen[i].hold
    ensures s <= i && forall j :: s <= j <= i ==> seen[j].hold
    ensures s == 0 || !seen[s - 1].hold
  {
    if i > 0 && seen[i - 1].hold then StretchStart(seen, i - 1) else i
  }

  /** By observation `i` the stretch it belongs to has been observed for the timeout. */
  predicate Due(timeoutMs: nat, seen: seq<HoldSeen>, i: nat)
    requires i < |seen|
  {
    seen[i].hold && StretchStart(seen, i) < i
    && Elapsed(seen[i].at, seen[StretchStart(seen, i)].at) >= timeoutMs
  }

  ghost predicate FirstDue(timeoutMs: nat, seen: seq<HoldSeen>, i: nat)
    requires i < |seen|
  {
    Due(timeoutMs, seen, i) && forall j :: StretchStart(seen, i) <= j < i ==> !Due(timeoutMs, seen, j)
  }

  /** The timer after `n` observations, from the stretch that is going on. */
  ghost predicate DueWithin(timeoutMs: nat, seen: seq<HoldSeen>, from: nat, n: nat)
    requires n <= |seen|
  {
    exists j :: from <= j < n && Due(timeoutMs, seen, j)
  }

  lemma DueNext(timeoutMs: nat, seen: seq<HoldSeen>, from: nat, n: nat)
    requires from <= n < |seen|
    ensures DueWithin(timeoutMs, seen, from, n + 1)
       <==> DueWithin(timeoutMs, seen, from, n) || Due(timeoutMs, seen, n)
  {
    if Due(timeoutMs, seen, n) {
      assert from <= n < n + 1 && Due(timeoutMs, seen, n);
    }
  }

  ghost predicate HoldState(timeoutMs: nat, seen: seq<HoldSeen>, n: nat)
    requires n <= |seen|
  {
    var h := RunHold(timeoutMs, seen[..n]);
    && h.timeoutMs == timeoutMs
    && if n == 0 || !seen[n - 1].hold then h == NewHoldTimer(timeoutMs)
       else
         var s := StretchStart(seen, n - 1);
         if DueWithin(timeoutMs, seen, s, n) then h == HoldTimer(None, timeoutMs, true)
         else h == HoldTimer(Some(seen[s].at), timeoutMs, false)
  }

  lemma {:induction false} HoldStateHolds(timeoutMs: nat, seen: seq<HoldSeen>, n: nat)
    requires n <= |seen|
    ensures HoldState(timeoutMs, seen, n)
  {
    if n > 0 {
      HoldStateHolds(timeoutMs, seen, n - 1);
      assert seen[..n][..n - 1] == seen[..n - 1];
      if seen[n - 1].hold {
        var s := StretchStart(seen, n - 1);
        DueNext(timeoutMs, seen, s, n - 1);
      }
    }
  }

  /** All observations of a stretch agree on where it begins. */
  lemma {:induction false} StretchShared(seen: seq<HoldSeen>, i: nat)
    requires i < |seen| && seen[i].hold
    ensures forall j :: StretchStart(seen, i) <= j <= i ==> StretchStart(seen, j) == StretchStart(seen, i)
  {
    if i > 0 && seen[i - 1].hold {
      StretchShared(seen, i - 1);
    }
  }

  /**
   * Over every trace of observations, the hold timer fires exactly at the first observation of
   * each unbroken stretch that is at least the timeout after the first one of the stretch.
   */
  lemma HoldFiresIff(timeoutMs: nat, seen: seq<HoldSeen>, i: nat)
    requires i < |seen|
    ensures HoldFires(timeoutMs, seen, i) <==> FirstDue(timeoutMs, seen, i)
  {
    HoldStateHolds(timeoutMs, seen, i);
    if seen[i].hold {
      StretchShared(seen, i);
    }
  }

  /** So it fires at most once per stretch. */
  lemma HoldFiresOncePerStretch(timeoutMs: nat, seen: seq<HoldSeen>, i: nat, j: nat)
    requires i < j < |seen| && HoldFires(timeoutMs, seen, i) && HoldFires(timeoutMs, seen, j)
    ensures exists k :: i < k < j && !seen[k].hold
  {
    HoldFiresIff(timeoutMs, seen, i);
    HoldFiresIff(timeoutMs, seen, j);
    var s := StretchStart(seen, j);
    StretchShared(seen, j);
    assert s > i;
    assert s - 1 != i && !seen[s - 1].hold;
  }

  class HoldModeTimer {
    var enteredAt: Option<nat>
    const timeoutMs: nat
    var fired: bool

    ghost function Model(): HoldTimer
      reads this
    {
      HoldTimer(enteredAt, timeoutMs, fired)
    }

    constructor (timeoutMs: nat)
      ensures Model() == NewHoldTimer(timeoutMs)
    {
      enteredAt := None;
      this.timeoutMs := timeoutMs;
      fired := false;
    }

    method Tick(now: nat, isHold: bool) returns (cmd: Option<Command>)
      modifies this
      ensures Model() == old(Model()).Tick(now, isHold).0
      ensures cmd == if old(Model()).Tick(now, isHold).1 then Some(Toggle(HoldMode)) else None
    {
      if isHold {
        if fired {
          return None;
        }
        if enteredAt.Some? {
          if Elapsed(now, enteredAt.value) >= timeoutMs {
            enteredAt := None;
            fired := true;
            return Some(Toggle(HoldMode));
          }
        } else {
          enteredAt := Some(now);
        }
      } else {
        enteredAt := None;
        fired := false;
      }
      cmd := None;
    }
  }
}
