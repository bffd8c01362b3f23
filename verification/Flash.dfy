/**
 * NOR flash: erasing sets bytes to 0xFF, programming can only clear bits, and the power may
 * fail between any two operations.
 */
module Flash {
  import opened Bytes

  const SECTOR_SIZE: nat := 4096
  const WORD_SIZE: nat := 4

  datatype Op = Erase(from: nat, to: nat) | Program(at: nat, data: bytes) {
    function From(): nat {
      match this
      case Erase(from, _) => from
      case Program(at, _) => at
    }

    function To(): nat {
      match this
      case Erase(_, to) => to
      case Program(at, data) => at + |data|
    }

    predicate Within(lo: nat, hi: nat) {
      lo <= From() && To() <= hi
    }
  }

  function Apply(cells: bytes, op: Op): (r: bytes)
    ensures |r| == |cells|
    ensures forall i :: 0 <= i < |cells| && !(op.From() <= i < op.To()) ==> r[i] == cells[i]
  {
    match op
    case Erase(from, to) =>
      seq(|cells|, i requires 0 <= i < |cells| => if from <= i < to then 0xFF else cells[i])
    case Program(at, data) =>
      seq(|cells|, i requires 0 <= i < |cells| =>
        if at <= i < at + |data| then And(cells[i], data[i - at]) else cells[i])
  }

  /** The flash after a list of operations. A power cut leaves `Run(cells, ops[..k])` for some k. */
  function Run(cells: bytes, ops: seq<Op>): (r: bytes)
    ensures |r| == |cells|
  {
    if ops == [] then cells else Apply(Run(cells, ops[..|ops| - 1]), ops[|ops| - 1])
  }

  lemma {:induction false} RunConcat(cells: bytes, a: seq<Op>, b: seq<Op>)
    ensures Run(cells, a + b) == Run(Run(cells, a), b)
  {
    if b == [] {
      assert a + b == a;
    } else {
      var n := |b| - 1;
      assert (a + b)[..|a + b| - 1] == a + b[..n];
      RunConcat(cells, a, b[..n]);
    }
  }

  lemma RunOne(cells: bytes, a: Op)
    ensures Run(cells, [a]) == Apply(cells, a)
  {
    assert [a][..0] == [];
  }

  lemma RunTwo(cells: bytes, a: Op, b: Op)
    ensures Run(cells, [a, b]) == Apply(Apply(cells, a), b)
  {
    RunOne(cells, a);
    assert [a, b][..1] == [a];
  }

  /** A cut inside `a + b` is a cut inside `a`, or all of `a` and a cut inside `b`. */
  lemma RunPrefix(cells: bytes, a: seq<Op>, b: seq<Op>, k: nat)
    requires k <= |a + b|
    ensures k <= |a| ==> Run(cells, (a + b)[..k]) == Run(cells, a[..k])
    ensures k >= |a| ==> Run(cells, (a + b)[..k]) == Run(Run(cells, a), b[..k - |a|])
  {
    if k <= |a| {
      assert (a + b)[..k] == a[..k];
    }
    if k >= |a| {
      assert (a + b)[..k] == a + b[..k - |a|];
      RunConcat(cells, a, b[..k - |a|]);
    }
  }

  ghost predicate AllWithin(ops: seq<Op>, lo: nat, hi: nat) {
    forall op :: op in ops ==> op.Within(lo, hi)
  }

  /** Operations confined to a range change nothing outside it. */
  lemma {:induction false} RunWithin(cells: bytes, ops: seq<Op>, lo: nat, hi: nat)
    requires AllWithin(ops, lo, hi)
    ensures forall i :: 0 <= i < |cells| && !(lo <= i < hi) ==> Run(cells, ops)[i] == cells[i]
  {
    if ops != [] {
      RunWithin(cells, ops[..|ops| - 1], lo, hi);
      assert ops[|ops| - 1] in ops;
    }
  }

  ghost predicate Erased(cells: bytes, lo: nat, hi: nat) {
    hi <= |cells| && forall i :: lo <= i < hi ==> cells[i] == 0xFF
  }

  /** Programming erased cells stores the data as it is. */
  lemma ProgramErased(cells: bytes, at: nat, data: bytes)
    requires Erased(cells, at, at + |data|)
    ensures forall i :: 0 <= i < |data| ==> Apply(cells, Program(at, data))[at + i] == data[i]
    ensures Apply(cells, Program(at, data))[at..at + |data|] == data
  {
    var r := Apply(cells, Program(at, data));
    forall i | 0 <= i < |data| ensures r[at + i] == data[i] {
      AndErased(data[i]);
    }
  }

  /**
   * What a routine that follows `plan` may have done to a chip with contents `before` and
   * history `log0`: some prefix of the plan, all of it if nothing failed.
   */
  ghost predicate Follows(before: bytes, log0: seq<Op>, after: bytes, log: seq<Op>, plan: seq<Op>) {
    && log0 <= log
    && log[|log0|..] <= plan
    && after == Run(before, log[|log0|..])
  }

  lemma FollowsPrefix(cells: bytes, log: seq<Op>, done: seq<Op>, plan: seq<Op>)
    requires done <= plan
    ensures Follows(cells, log, Run(cells, done), log + done, plan)
  {
    assert (log + done)[|log|..] == done;
  }

  lemma FollowsNothing(cells: bytes, log: seq<Op>, plan: seq<Op>)
    ensures Follows(cells, log, cells, log, plan)
  {
    assert log[|log|..] == [];
  }

  /** A finished first part followed by progress in the second is progress in the whole. */
  lemma FollowsConcat(c0: bytes, l0: seq<Op>, c1: bytes, l1: seq<Op>, c2: bytes, l2: seq<Op>, a: seq<Op>, b: seq<Op>)
    requires l1 == l0 + a && c1 == Run(c0, a)
    requires Follows(c1, l1, c2, l2, b)
    ensures Follows(c0, l0, c2, l2, a + b)
  {
    var done := l2[|l1|..];
    assert l2[|l0|..] == a + done;
    assert a + b == (a + done) + b[|done|..];
    RunConcat(c0, a, done);
  }

  /** Stopping in the first part is progress in the whole. */
  lemma FollowsFirst(c0: bytes, l0: seq<Op>, c1: bytes, l1: seq<Op>, a: seq<Op>, b: seq<Op>)
    requires Follows(c0, l0, c1, l1, a)
    ensures Follows(c0, l0, c1, l1, a + b)
  {
    var done := l1[|l0|..];
    assert a + b == done + (a[|done|..] + b);
  }

  /**
   * A NOR flash chip: it erases whole sectors and programs whole words inside its bounds.
   * An unreliable chip may refuse any operation, which then has no effect. `ops` is the
   * history of the operations carried out.
   */
  class Chip {
    const reliable: bool
    var cells: bytes
    ghost var ops: seq<Op>

    constructor (contents: bytes, reliable: bool)
      ensures cells == contents && ops == [] && this.reliable == reliable
    {
      cells := contents;
      ops := [];
      this.reliable := reliable;
    }

    /** Whether the chip refuses for a reason of its own. */
    method Fault() returns (fault: bool)
      ensures reliable ==> !fault
    {
      fault := *;
      if reliable {
        fault := false;
      }
    }

    method Read(at: nat, n: nat) returns (r: Option<bytes>)
      ensures r.Some? ==> at + n <= |cells| && r.value == cells[at..at + n]
      ensures reliable && at + n <= |cells| ==> r.Some?
    {
      var fault := Fault();
      if !fault && at + n <= |cells| {
        r := Some(cells[at..at + n]);
      } else {
        r := None;
      }
    }

    method Erase(from: nat, to: nat) returns (ok: bool)
      modifies this
      ensures ok ==> from <= to <= |old(cells)| && from % SECTOR_SIZE == 0 && to % SECTOR_SIZE == 0
      ensures ok ==> cells == Apply(old(cells), Op.Erase(from, to)) && ops == old(ops) + [Op.Erase(from, to)]
      ensures !ok ==> cells == old(cells) && ops == old(ops)
      ensures reliable && from <= to <= |old(cells)| && from % SECTOR_SIZE == 0 && to % SECTOR_SIZE == 0 ==> ok
    {
      var fault := Fault();
      ok := !fault && from <= to <= |cells| && from % SECTOR_SIZE == 0 && to % SECTOR_SIZE == 0;
      if ok {
        cells := Apply(cells, Op.Erase(from, to));
        ops := ops + [Op.Erase(from, to)];
      }
    }

    method Write(at: nat, data: bytes) returns (ok: bool)
      modifies this
      ensures ok ==> at + |data| <= |old(cells)| && at % WORD_SIZE == 0 && |data| % WORD_SIZE == 0
      ensures ok ==> cells == Apply(old(cells), Program(at, data)) && ops == old(ops) + [Program(at, data)]
      ensures !ok ==> cells == old(cells) && ops == old(ops)
      ensures reliable && at + |data| <= |old(cells)| && at % WORD_SIZE == 0 && |data| % WORD_SIZE == 0 ==> ok
    {
      var fault := Fault();
      ok := !fault && at + |data| <= |cells| && at % WORD_SIZE == 0 && |data| % WORD_SIZE == 0;
      if ok {
        cells := Apply(cells, Program(at, data));
        ops := ops + [Program(at, data)];
      }
    }
  }
}
