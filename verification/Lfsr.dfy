/**
 * Linear feedback shift registers, as abstractly as the error-detection results need them.
 * The three checks of the firmware (module Crc) are instances.
 */
module Lfsr {
  import opened Bytes

  /** Registers and their bitwise XOR. */
  datatype Registers<!R> = Registers(zero: R, xor: (R, R) -> R)

  ghost predicate Exchange<R>(v: Registers<R>, a: R, b: R, c: R, d: R) {
    v.xor(v.xor(a, b), v.xor(c, d)) == v.xor(v.xor(a, c), v.xor(b, d))
  }

  /** Registers form a vector space over the two-element field. */
  ghost predicate Space<R(!new)>(v: Registers<R>) {
    && (forall a: R :: v.xor(a, v.zero) == a)
    && (forall a: R, b: R :: v.xor(a, b) == v.zero <==> a == b)
    && (forall a: R, b: R, c: R, d: R :: Exchange(v, a, b, c, d))
  }

  /**
   * A register machine: `step` shifts out one bit, `place(b, 0)` is where the next byte is
   * mixed in, and `place(b, j)` the same byte `j` byte times ahead of its turn.
   */
  datatype Machine<!R> = Machine(v: Registers<R>, step: R -> R, place: (u8, nat) -> R)

  /** A step is linear and loses nothing. */
  ghost predicate StepLaw<R(!new)>(m: Machine<R>) {
    && (forall a: R, b: R :: m.step(m.v.xor(a, b)) == m.v.xor(m.step(a), m.step(b)))
    && (forall a: R :: m.step(a) == m.v.zero <==> a == m.v.zero)
  }

  /** Mixing a byte in is linear and loses nothing. */
  ghost predicate PlaceLaw<R>(m: Machine<R>) {
    && (forall x: u8, y: u8 :: m.place(Xor(x, y), 0) == m.v.xor(m.place(x, 0), m.place(y, 0)))
    && (forall x: u8 :: m.place(x, 0) == m.v.zero <==> x == 0)
  }

  ghost predicate Linear<R(!new)>(m: Machine<R>) {
    Space(m.v) && StepLaw(m) && PlaceLaw(m)
  }

  function Steps<R>(m: Machine<R>, c: R, n: nat): R {
    if n == 0 then c else m.step(Steps(m, c, n - 1))
  }

  function Feed<R>(m: Machine<R>, c: R, b: u8): R {
    Steps(m, m.v.xor(c, m.place(b, 0)), 8)
  }

  /** The register after `data`, starting from `c`. */
  function Fold<R>(m: Machine<R>, c: R, data: bytes): R {
    if data == [] then c else Feed(m, Fold(m, c, data[..|data| - 1]), data[|data| - 1])
  }

  /** Incremental equals one-shot: the split of the data into chunks leaves no trace. */
  lemma {:induction false} FoldConcat<R>(m: Machine<R>, c: R, a: bytes, b: bytes)
    ensures Fold(m, c, a + b) == Fold(m, Fold(m, c, a), b)
  {
    if b == [] {
      assert a + b == a;
    } else {
      var n := |b| - 1;
      assert (a + b)[..|a + b| - 1] == a + b[..n];
      FoldConcat(m, c, a, b[..n]);
    }
  }

  lemma {:induction false} StepsAdd<R>(m: Machine<R>, c: R, k: nat, n: nat)
    ensures Steps(m, Steps(m, c, k), n) == Steps(m, c, k + n)
  {
    if n > 0 {
      StepsAdd(m, c, k, n - 1);
    }
  }

  lemma {:induction false} StepsLinear<R(!new)>(m: Machine<R>, c: R, d: R, n: nat)
    requires Linear(m)
    ensures Steps(m, m.v.xor(c, d), n) == m.v.xor(Steps(m, c, n), Steps(m, d, n))
  {
    if n > 0 {
      StepsLinear(m, c, d, n - 1);
    }
  }

  lemma {:induction false} StepsKernel<R(!new)>(m: Machine<R>, c: R, n: nat)
    requires Linear(m)
    ensures Steps(m, c, n) == m.v.zero <==> c == m.v.zero
  {
    if n > 0 {
      StepsKernel(m, c, n - 1);
    }
  }

  lemma {:induction false} FoldLinear<R(!new)>(m: Machine<R>, c: R, d: R, a: bytes, b: bytes)
    requires Linear(m) && |a| == |b|
    ensures Fold(m, m.v.xor(c, d), XorSeq(a, b)) == m.v.xor(Fold(m, c, a), Fold(m, d, b))
  {
    if a != [] {
      var n := |a| - 1;
      assert XorSeq(a, b)[..n] == XorSeq(a[..n], b[..n]);
      FoldLinear(m, c, d, a[..n], b[..n]);
      var x, y := Fold(m, c, a[..n]), Fold(m, d, b[..n]);
      var p, q := m.place(a[n], 0), m.place(b[n], 0);
      assert Exchange(m.v, x, y, p, q);
      StepsLinear(m, m.v.xor(x, p), m.v.xor(y, q), 8);
    }
  }

  /** Zero bytes neither create nor destroy a difference. */
  lemma {:induction false} FoldZeros<R(!new)>(m: Machine<R>, c: R, n: nat)
    requires Linear(m)
    ensures Fold(m, c, Fill(n, 0)) == m.v.zero <==> c == m.v.zero
  {
    if n > 0 {
      assert Fill(n, 0)[..n - 1] == Fill(n - 1, 0);
      FoldZeros(m, c, n - 1);
      StepsKernel(m, Fold(m, c, Fill(n - 1, 0)), 8);
    }
  }

  /**
   * Which alterations go unseen: two messages of one length collide exactly when their
   * difference drives the zero register back to zero, whatever the starting register.
   */
  lemma CollisionIffZeroSyndrome<R(!new)>(m: Machine<R>, c: R, a: bytes, b: bytes)
    requires Linear(m) && |a| == |b|
    ensures Fold(m, c, a) == Fold(m, c, b) <==> Fold(m, m.v.zero, XorSeq(a, b)) == m.v.zero
  {
    FoldLinear(m, c, c, a, b);
    assert m.v.xor(c, c) == m.v.zero;
  }

  /** Every nonzero difference confined to `n` consecutive bytes leaves a mark. */
  ghost predicate Detects<R>(m: Machine<R>, n: nat) {
    forall e: bytes :: |e| == n && Fold(m, m.v.zero, e) == m.v.zero ==> e == Fill(n, 0)
  }

  lemma SyndromeInWindow<R(!new)>(m: Machine<R>, i: nat, e: bytes, t: nat)
    requires Linear(m)
    ensures Fold(m, m.v.zero, Fill(i, 0) + (e + Fill(t, 0))) == m.v.zero <==> Fold(m, m.v.zero, e) == m.v.zero
  {
    FoldConcat(m, m.v.zero, Fill(i, 0), e + Fill(t, 0));
    FoldZeros(m, m.v.zero, i);
    FoldConcat(m, m.v.zero, e, Fill(t, 0));
    FoldZeros(m, Fold(m, m.v.zero, e), t);
  }

  /** The difference of two messages that agree outside a window is zero outside it. */
  lemma WindowDifference(a: bytes, b: bytes, i: nat, n: nat)
    requires |a| == |b| && i + n <= |a|
    requires forall k :: 0 <= k < |a| && !(i <= k < i + n) ==> a[k] == b[k]
    ensures var e := XorSeq(a, b)[i..i + n];
            && XorSeq(a, b) == Fill(i, 0) + (e + Fill(|a| - (i + n), 0))
            && (e == Fill(n, 0) ==> a == b)
  {
    var d := XorSeq(a, b);
    forall k | 0 <= k < |a| ensures d[k] == 0 <==> a[k] == b[k] {
      XorZero(a[k], b[k]);
    }
    var e := d[i..i + n];
    assert d == Fill(i, 0) + (e + Fill(|a| - (i + n), 0));
    assert forall k :: i <= k < i + n ==> d[k] == e[k - i];
  }

  /** Every linear machine detects an error confined to one byte. */
  lemma DetectsByte<R(!new)>(m: Machine<R>, e: bytes)
    requires Linear(m) && |e| == 1 && Fold(m, m.v.zero, e) == m.v.zero
    ensures e == Fill(1, 0)
  {
    assert e[..0] == [];
    StepsKernel(m, m.v.xor(m.v.zero, m.place(e[0], 0)), 8);
    assert m.v.zero == m.place(e[0], 0);
  }

  lemma QuietWindow<R(!new)>(m: Machine<R>, d: bytes, i: nat, n: nat)
    requires Linear(m) && Detects(m, n) && i + n <= |d|
    requires d == Fill(i, 0) + (d[i..i + n] + Fill(|d| - (i + n), 0))
    requires Fold(m, m.v.zero, d) == m.v.zero
    ensures d[i..i + n] == Fill(n, 0)
  {
    SyndromeInWindow(m, i, d[i..i + n], |d| - (i + n));
  }

  lemma CollisionInside<R(!new)>(m: Machine<R>, c: R, a: bytes, b: bytes, i: nat, n: nat)
    requires Linear(m) && Detects(m, n)
    requires |a| == |b| && i + n <= |a|
    requires forall k :: 0 <= k < |a| && !(i <= k < i + n) ==> a[k] == b[k]
    requires Fold(m, c, a) == Fold(m, c, b)
    ensures a == b
  {
    CollisionIffZeroSyndrome(m, c, a, b);
    WindowDifference(a, b, i, n);
    QuietWindow(m, XorSeq(a, b), i, n);
  }

  /**
   * Two messages of one length that differ only within `n` consecutive bytes (a window that
   * may reach past the end of a short message) have the same check value only if they are equal.
   */
  lemma WindowDetected<R(!new)>(m: Machine<R>, c: R, a: bytes, b: bytes, i: nat, n: nat)
    requires Linear(m) && Detects(m, n)
    requires |a| == |b| && i <= |a|
    requires forall k :: 0 <= k < |a| && !(i <= k < i + n) ==> a[k] == b[k]
    ensures Fold(m, c, a) == Fold(m, c, b) ==> a == b
  {
    if Fold(m, c, a) == Fold(m, c, b) {
      var z := Fill(n, 0);
      FoldConcat(m, c, a, z);
      FoldConcat(m, c, b, z);
      CollisionInside(m, c, a + z, b + z, i, n);
      assert a == (a + z)[..|a|] == (b + z)[..|b|] == b;
    }
  }

  ghost predicate Injective<R(!new)>(f: R -> R) {
    forall x: R, y: R :: f(x) == f(y) ==> x == y
  }

  /** A check value is the final register, passed through a last bijection. */
  function Check<R>(m: Machine<R>, c: R, finish: R -> R, data: bytes): R {
    finish(Fold(m, c, data))
  }

  lemma CheckDetectsWindow<R(!new)>(m: Machine<R>, c: R, finish: R -> R, a: bytes, b: bytes, i: nat, n: nat)
    requires Linear(m) && Detects(m, n) && Injective(finish)
    requires |a| == |b| && i <= |a|
    requires forall k :: 0 <= k < |a| && !(i <= k < i + n) ==> a[k] == b[k]
    ensures Check(m, c, finish, a) == Check(m, c, finish, b) ==> a == b
  {
    WindowDetected(m, c, a, b, i, n);
  }

  /** Eight steps bring a byte placed ahead of its turn one place closer. */
  ghost predicate Ahead<R>(m: Machine<R>) {
    forall b: u8, j: nat :: j < 3 ==> Steps(m, m.place(b, j + 1), 8) == m.place(b, j)
  }

  /** A byte placed `j` byte times ahead arrives at its turn as if it were mixed in then. */
  lemma {:induction false} AheadArrives<R>(m: Machine<R>, b: u8, j: nat)
    requires Ahead(m) && j <= 3
    ensures Steps(m, m.place(b, j), 8 * j) == m.place(b, 0)
  {
    if j > 0 {
      StepsAdd(m, m.place(b, j), 8, 8 * (j - 1));
      AheadArrives(m, b, j - 1);
    }
  }

  /** The word that a short message amounts to when all of it is mixed in at once. */
  function Word<R>(m: Machine<R>, e: bytes): R {
    if e == [] then m.v.zero else m.v.xor(Word(m, e[..|e| - 1]), m.place(e[|e| - 1], |e| - 1))
  }

  /** Serial equals parallel: up to four bytes fed in turn are one word and then all the steps. */
  lemma {:induction false} WordParallel<R(!new)>(m: Machine<R>, e: bytes)
    requires Linear(m) && Ahead(m) && |e| <= 4
    ensures Fold(m, m.v.zero, e) == Steps(m, Word(m, e), 8 * |e|)
  {
    if e != [] {
      var n := |e| - 1;
      var w, p := Word(m, e[..n]), m.place(e[n], n);
      WordParallel(m, e[..n]);
      AheadArrives(m, e[n], n);
      StepsLinear(m, w, p, 8 * n);
      StepsAdd(m, m.v.xor(w, p), 8 * n, 8);
    }
  }
}
