/** Rate limiting of MQTT commands: a counter over windows that start with a command. */
module RateLimiting {
  const MAX_COMMANDS: nat := 10
  const WINDOW_MS: nat := 10_000

  datatype Limiter = Limiter(count: nat, windowStart: nat)

  const FRESH: Limiter := Limiter(0, 0)

  function SaturatingSub(a: nat, b: nat): nat {
    if a >= b then a - b else 0
  }

  function Step(l: Limiter, now: nat): (Limiter, bool) {
    var w := if SaturatingSub(now, l.windowStart) >= WINDOW_MS then Limiter(0, now) else l;
    (w.(count := w.count + 1), w.count + 1 <= MAX_COMMANDS)
  }

  class RateLimiter {
    var count: nat
    var windowStartMs: nat

    function State(): Limiter
      reads this
    {
      Limiter(count, windowStartMs)
    }

    constructor ()
      ensures State() == FRESH
    {
      count, windowStartMs := 0, 0;
    }

    method Check(now: nat) returns (allowed: bool)
      modifies this
      ensures (State(), allowed) == Step(old(State()), now)
    {
      if SaturatingSub(now, windowStartMs) >= WINDOW_MS {
        count := 0;
        windowStartMs := now;
      }
      count := count + 1;
      allowed := count <= MAX_COMMANDS;
    }
  }

  // ---- What the counter stands for ----------------------------------------------------

  predicate Nondecreasing(times: seq<nat>) {
    forall i, j :: 0 <= i <= j < |times| ==> times[i] <= times[j]
  }

  function After(times: seq<nat>): Limiter
    decreases |times|
  {
    if times == [] then FRESH else Step(After(times[..|times| - 1]), times[|times| - 1]).0
  }

  /** The verdict on command `i`. */
  predicate Allowed(times: seq<nat>, i: nat)
    requires i < |times|
  {
    Step(After(times[..i]), times[i]).1
  }

  /**
   * Windows told from the times alone: the first command of the window that command `i` falls
   * into, and when that window started. The first window starts at time 0.
   */
  function Window(times: seq<nat>, i: nat): (r: (nat, nat))
    requires i < |times|
    ensures r.0 <= i
    decreases i
  {
    var (first, start) := if i == 0 then (0, 0) else Window(times, i - 1);
    if times[i] >= start + WINDOW_MS then (i, times[i]) else (first, start)
  }

  lemma {:induction false} CounterIsWindow(times: seq<nat>, i: nat)
    requires i < |times|
    ensures After(times[..i + 1]) == Limiter(i + 1 - Window(times, i).0, Window(times, i).1)
    decreases i
  {
    assert times[..i + 1][..i] == times[..i];
    if i > 0 {
      CounterIsWindow(times, i - 1);
    }
  }

  /** A command passes exactly if it is among the first ten of its window. */
  lemma AllowedIff(times: seq<nat>, i: nat)
    requires i < |times|
    ensures Allowed(times, i) <==> i - Window(times, i).0 < MAX_COMMANDS
  {
    assert times[..i + 1][..i] == times[..i];
    CounterIsWindow(times, i);
  }

  lemma {:induction false} SameWindow(times: seq<nat>, i: nat, j: nat)
    requires i < |times| && Window(times, i).0 <= j <= i
    ensures Window(times, j) == Window(times, i)
    decreases i
  {
    if j < i {
      SameWindow(times, i - 1, j);
    }
  }

  /**
   * A command is dropped only if ten commands of the same window passed before it, and that
   * window started less than its length ago.
   */
  lemma DroppedOnlyWhenFull(times: seq<nat>, i: nat)
    requires i < |times| && !Allowed(times, i)
    ensures var (first, start) := Window(times, i);
            && first + MAX_COMMANDS <= i
            && (forall j :: first <= j < first + MAX_COMMANDS ==> Allowed(times, j) && Window(times, j) == (first, start))
            && times[i] < start + WINDOW_MS
  {
    var first := Window(times, i).0;
    AllowedIff(times, i);
    forall j | first <= j < first + MAX_COMMANDS
      ensures Allowed(times, j) && Window(times, j) == Window(times, i)
    {
      SameWindow(times, i, j);
      AllowedIff(times, j);
    }
  }

  // ---- How many commands pass in any stretch of time ----------------------------------

  /** Commands that pass at a time in [lo, hi), from a state on. */
  function Passed(l: Limiter, times: seq<nat>, lo: nat, hi: nat): nat
    decreases |times|
  {
    if times == [] then 0 else
      var (next, allowed) := Step(l, times[0]);
      (if allowed && lo <= times[0] < hi then 1 else 0) + Passed(next, times[1..], lo, hi)
  }

  function Quota(l: Limiter): nat {
    if l.count < MAX_COMMANDS then MAX_COMMANDS - l.count else 0
  }

  lemma {:induction false} PassedNone(l: Limiter, times: seq<nat>, lo: nat, hi: nat)
    requires forall i :: 0 <= i < |times| ==> times[i] >= hi
    ensures Passed(l, times, lo, hi) == 0
    decreases |times|
  {
    if times != [] {
      PassedNone(Step(l, times[0]).0, times[1..], lo, hi);
    }
  }

  function Min(a: nat, b: nat): nat {
    if a <= b then a else b
  }

  /** How many of the times lie below `t`. */
  function Before(times: seq<nat>, t: nat): (n: nat)
    ensures n <= |times|
  {
    if times == [] then 0 else (if times[0] < t then 1 else 0) + Before(times[1..], t)
  }

  lemma {:induction false} NoneBefore(times: seq<nat>, t: nat)
    requires forall i :: 0 <= i < |times| ==> times[i] >= t
    ensures Before(times, t) == 0
    decreases |times|
  {
    if times != [] {
      NoneBefore(times[1..], t);
    }
  }

  lemma {:induction false} BeforeGrows(times: seq<nat>, s: nat, t: nat)
    requires s <= t
    ensures Before(times, s) <= Before(times, t)
    decreases |times|
  {
    if times != [] {
      BeforeGrows(times[1..], s, t);
    }
  }

  /**
   * What passes in one window length from `lo` on, counted without running the limiter: out of
   * the commands up to the end of the current window what its quota leaves, and out of the
   * others, which share one more window, up to the limit.
   */
  function Share(l: Limiter, times: seq<nat>, lo: nat): nat {
    var all := Before(times, lo + WINDOW_MS);
    if l.windowStart >= lo then Min(Quota(l), all)
    else
      var a := Before(times, l.windowStart + WINDOW_MS);
      BeforeGrows(times, l.windowStart + WINDOW_MS, lo + WINDOW_MS);
      Min(Quota(l), a) + Min(MAX_COMMANDS, all - a)
  }

  /** One command more, at or after `lo`. */
  lemma ShareNext(l: Limiter, times: seq<nat>, lo: nat)
    requires times != [] && Nondecreasing(times) && lo <= times[0] < lo + WINDOW_MS
    ensures var (next, allowed) := Step(l, times[0]);
            Share(l, times, lo) == (if allowed then 1 else 0) + Share(next, times[1..], lo)
  {
    var live := l.windowStart + WINDOW_MS;
    if l.windowStart < lo && times[0] >= live {
      NoneBefore(times, live);
    }
  }

  lemma {:induction false} PassedIsShare(l: Limiter, times: seq<nat>, lo: nat)
    requires Nondecreasing(times) && forall i :: 0 <= i < |times| ==> times[i] >= lo
    ensures Passed(l, times, lo, lo + WINDOW_MS) == Share(l, times, lo)
    decreases |times|
  {
    if times != [] {
      if times[0] >= lo + WINDOW_MS {
        PassedNone(l, times, lo, lo + WINDOW_MS);
        NoneBefore(times, lo + WINDOW_MS);
        if l.windowStart < lo {
          NoneBefore(times, l.windowStart + WINDOW_MS);
        }
      } else {
        ShareNext(l, times, lo);
        PassedIsShare(Step(l, times[0]).0, times[1..], lo);
      }
    }
  }

  /** At most twice the limit passes in any stretch of one window length. */
  lemma {:induction false} PassedAtMostTwice(l: Limiter, times: seq<nat>, lo: nat)
    requires Nondecreasing(times)
    ensures Passed(l, times, lo, lo + WINDOW_MS) <= 2 * MAX_COMMANDS
    decreases |times|
  {
    if times != [] {
      if times[0] >= lo {
        PassedIsShare(l, times, lo);
      } else {
        PassedAtMostTwice(Step(l, times[0]).0, times[1..], lo);
      }
    }
  }

  // ---- When more than the limit passes ------------------------------------------------

  /** Commands in front of the stretch only change the state it starts in. */
  lemma {:induction false} PassedFrom(times: seq<nat>, k: nat, lo: nat, hi: nat)
    requires k <= |times| && forall i :: 0 <= i < k ==> times[i] < lo
    ensures Passed(FRESH, times, lo, hi) == Passed(After(times[..k]), times[k..], lo, hi)
    decreases k
  {
    if k == 0 {
      assert times[0..] == times;
    } else {
      PassedFrom(times, k - 1, lo, hi);
      assert times[..k][..k - 1] == times[..k - 1];
      assert times[k - 1..][1..] == times[k..];
    }
  }

  lemma {:induction false} BeforeSplits(times: seq<nat>, t: nat)
    requires Nondecreasing(times)
    ensures var k := Before(times, t);
            && (forall i :: 0 <= i < k ==> times[i] < t)
            && (forall i :: k <= i < |times| ==> times[i] >= t)
    decreases |times|
  {
    if times != [] {
      BeforeSplits(times[1..], t);
      if times[0] >= t {
        NoneBefore(times, t);
      }
    }
  }

  /** The window that is current when the stretch from `lo` on begins: its commands so far, and its start. */
  function Current(times: seq<nat>, lo: nat): (nat, nat) {
    var k := Before(times, lo);
    if k == 0 then (0, 0) else (k - Window(times, k - 1).0, Window(times, k - 1).1)
  }

  /** How many commands have a time in [from, to). */
  function Between(times: seq<nat>, from: nat, to: nat): (n: nat)
    ensures n <= |times|
  {
    if Before(times, from) <= Before(times, to) then Before(times, to) - Before(times, from) else 0
  }

  lemma {:induction false} BeforeBehind(times: seq<nat>, lo: nat, t: nat)
    requires Nondecreasing(times) && lo <= t
    ensures Before(times[Before(times, lo)..], t) == Between(times, lo, t)
    decreases |times|
  {
    BeforeGrows(times, lo, t);
    if times != [] {
      if times[0] < lo {
        BeforeBehind(times[1..], lo, t);
        assert times[Before(times, lo)..] == times[1..][Before(times[1..], lo)..];
      } else {
        NoneBefore(times, lo);
        assert times[0..] == times;
      }
    }
  }

  /** Where the window that is current at `lo` ends, or `lo` if that has happened already. */
  function Turn(times: seq<nat>, lo: nat): (t: nat)
    ensures t >= lo
  {
    var live := Current(times, lo).1 + WINDOW_MS;
    if live < lo then lo else live
  }

  lemma CurrentIsAfter(times: seq<nat>, lo: nat)
    requires Nondecreasing(times)
    ensures After(times[..Before(times, lo)]) == Limiter(Current(times, lo).0, Current(times, lo).1)
    ensures Current(times, lo).1 <= lo && Turn(times, lo) <= lo + WINDOW_MS
  {
    var k := Before(times, lo);
    BeforeSplits(times, lo);
    if k > 0 {
      CounterIsWindow(times, k - 1);
      WindowStarted(times, k - 1);
    }
  }

  lemma {:induction false} WindowStarted(times: seq<nat>, i: nat)
    requires Nondecreasing(times) && i < |times|
    ensures Window(times, i).1 <= times[i]
    decreases i
  {
    if i > 0 {
      WindowStarted(times, i - 1);
    }
  }

  lemma ShareAtTurn(l: Limiter, times: seq<nat>, lo: nat, turn: nat)
    requires l.windowStart <= lo && (forall i :: 0 <= i < |times| ==> times[i] >= lo)
    requires var live := l.windowStart + WINDOW_MS; turn == if live < lo then lo else live
    ensures Before(times, turn) <= Before(times, lo + WINDOW_MS)
    ensures Share(l, times, lo) == Min(SaturatingSub(MAX_COMMANDS, l.count), Before(times, turn))
                                   + Min(MAX_COMMANDS, Before(times, lo + WINDOW_MS) - Before(times, turn))
  {
    BeforeGrows(times, turn, lo + WINDOW_MS);
    if l.windowStart + WINDOW_MS < lo {
      NoneBefore(times, lo);
      NoneBefore(times, l.windowStart + WINDOW_MS);
    }
  }

  lemma BetweenSplits(times: seq<nat>, from: nat, mid: nat, to: nat)
    requires from <= mid <= to
    ensures Between(times, from, to) == Between(times, from, mid) + Between(times, mid, to)
  {
    BeforeGrows(times, from, mid);
    BeforeGrows(times, mid, to);
  }

  /** The commands in front of the stretch only matter for the window that they leave. */
  lemma PassedBehind(times: seq<nat>, lo: nat)
    requires Nondecreasing(times)
    ensures var rest, turn := times[Before(times, lo)..], Turn(times, lo);
            && turn <= lo + WINDOW_MS && Before(rest, turn) <= Before(rest, lo + WINDOW_MS)
            && Passed(FRESH, times, lo, lo + WINDOW_MS)
               == Min(SaturatingSub(MAX_COMMANDS, Current(times, lo).0), Before(rest, turn))
                  + Min(MAX_COMMANDS, Before(rest, lo + WINDOW_MS) - Before(rest, turn))
  {
    var l, rest := Limiter(Current(times, lo).0, Current(times, lo).1), times[Before(times, lo)..];
    BeforeSplits(times, lo);
    CurrentIsAfter(times, lo);
    PassedFrom(times, Before(times, lo), lo, lo + WINDOW_MS);
    PassedIsShare(l, rest, lo);
    ShareAtTurn(l, rest, lo, Turn(times, lo));
  }

  /**
   * How many commands pass in any stretch of one window length, told from the times alone: of
   * those before the current window turns what it has left of the limit, and of those behind
   * the turn again up to the limit.
   */
  lemma PassedInStretch(times: seq<nat>, lo: nat)
    requires Nondecreasing(times)
    ensures Passed(FRESH, times, lo, lo + WINDOW_MS)
         == Min(SaturatingSub(MAX_COMMANDS, Current(times, lo).0), Between(times, lo, Turn(times, lo)))
            + Min(MAX_COMMANDS, Between(times, Turn(times, lo), lo + WINDOW_MS))
  {
    var turn := Turn(times, lo);
    PassedBehind(times, lo);
    BeforeBehind(times, lo, turn);
    BeforeBehind(times, lo, lo + WINDOW_MS);
    BetweenSplits(times, lo, turn, lo + WINDOW_MS);
  }

  /** So the limit is exceeded in a stretch exactly if a window turns in it with so many on both sides. */
  lemma MoreThanLimitIff(times: seq<nat>, lo: nat)
    requires Nondecreasing(times)
    ensures Passed(FRESH, times, lo, lo + WINDOW_MS) > MAX_COMMANDS
       <==> Min(SaturatingSub(MAX_COMMANDS, Current(times, lo).0), Between(times, lo, Turn(times, lo)))
            + Min(MAX_COMMANDS, Between(times, Turn(times, lo), lo + WINDOW_MS)) > MAX_COMMANDS
  {
    PassedInStretch(times, lo);
  }

  function Burst(n: nat, at: nat): seq<nat> {
    seq(n, i => at)
  }

  lemma {:induction false} BurstPasses(l: Limiter, n: nat, at: nat, rest: seq<nat>, lo: nat, hi: nat)
    requires l.windowStart <= at < l.windowStart + WINDOW_MS && l.count + n <= MAX_COMMANDS && lo <= at < hi
    ensures Passed(l, Burst(n, at) + rest, lo, hi) == n + Passed(l.(count := l.count + n), rest, lo, hi)
    decreases n
  {
    if n == 0 {
      assert Burst(n, at) + rest == rest;
    } else {
      assert (Burst(n, at) + rest)[1..] == Burst(n - 1, at) + rest;
      BurstPasses(l.(count := l.count + 1), n - 1, at, rest, lo, hi);
    }
  }

  lemma BurstsInOrder()
    ensures Nondecreasing(Burst(10, 9_999) + Burst(10, 10_000))
  {}

  /** A burst behind the window opens one of its own. */
  lemma BurstOpens(l: Limiter, at: nat, lo: nat, hi: nat)
    requires l.windowStart + WINDOW_MS <= at && lo <= at < hi
    ensures Passed(l, Burst(MAX_COMMANDS, at), lo, hi) == MAX_COMMANDS
  {
    var burst := Burst(MAX_COMMANDS, at);
    assert Step(l, at) == (Limiter(1, at), true);
    assert burst[1..] == Burst(MAX_COMMANDS - 1, at) + [];
    BurstPasses(Limiter(1, at), MAX_COMMANDS - 1, at, [], lo, hi);
  }

  /** The bound is met: ten at the end of a window and ten at the start of the next. */
  lemma TwiceIsReached()
    ensures var times := Burst(10, 9_999) + Burst(10, 10_000);
            Nondecreasing(times) && Passed(FRESH, times, 9_999, 9_999 + WINDOW_MS) == 2 * MAX_COMMANDS
  {
    BurstsInOrder();
    BurstPasses(FRESH, 10, 9_999, Burst(10, 10_000), 9_999, 19_999);
    BurstOpens(Limiter(10, 0), 10_000, 9_999, 19_999);
  }

  // ---- A run of the limiter -----------------------------------------------------------

  /** The verdicts so far let through the first ten commands of each window. */
  predicate FirstTen(times: seq<nat>, verdicts: seq<bool>)
    requires |verdicts| <= |times|
  {
    forall i :: 0 <= i < |verdicts| ==> (verdicts[i] <==> i - Window(times, i).0 < MAX_COMMANDS)
  }

  lemma NextVerdict(times: seq<nat>, i: nat)
    requires i < |times|
    ensures Step(After(times[..i]), times[i]) == (After(times[..i + 1]), i - Window(times, i).0 < MAX_COMMANDS)
  {
    AllowedIff(times, i);
    assert times[..i + 1][..i] == times[..i];
  }

  /** A new limiter asked for each command in turn lets through the first ten of each window. */
  method CheckAll(times: seq<nat>) returns (verdicts: seq<bool>)
    ensures |verdicts| == |times| && FirstTen(times, verdicts)
  {
    var limiter := new RateLimiter();
    verdicts := [];
    for i := 0 to |times|
      invariant |verdicts| == i && FirstTen(times, verdicts)
      invariant limiter.State() == After(times[..i])
    {
      NextVerdict(times, i);
      var allowed := limiter.Check(times[i]);
      verdicts := verdicts + [allowed];
    }
  }
}
