/**
 * Boot selection: two otadata sectors, each opening with a 32-byte entry whose sequence number
 * is guarded by a CRC. The bootloader boots the partition named by the higher valid number.
 */
module Otadata {
  import opened Bytes
  import opened Flash
  import CrcOta

  const OTADATA_OFFSET: nat := 0x10000
  const OTA_0_OFFSET: nat := 0x160000
  const OTA_1_OFFSET: nat := 0x2A0000
  const OTA_SIZE: nat := 0x140000
  /** The end of the last partition: every chip is at least this large. */
  const LAYOUT_END: nat := 0x3E0000
  const ENTRY_SIZE: nat := 32
  const ERASED_SEQ: u32 := 0xFFFF_FFFF
  /** The largest maximum from which the next numbers are still ordinary numbers. */
  const MAX_SEQ: u32 := 0xFFFF_FFFC

  datatype OtaError =
    | BeginFailed
    | WriteFailed(byteOffset: nat)
    | FinalizeFailed
    | FlashError(address: nat)
    | HashMismatch(expected: bv32, actual: bv32)
    | InvalidImageHeader

  datatype Partition = Ota0 | Ota1 {
    function Offset(): nat {
      match this
      case Ota0 => OTA_0_OFFSET
      case Ota1 => OTA_1_OFFSET
    }

    function Index(): nat {
      match this
      case Ota0 => 0
      case Ota1 => 1
    }

    function Other(): Partition {
      match this
      case Ota0 => Ota1
      case Ota1 => Ota0
    }
  }

  type Cells = c: bytes | |c| >= LAYOUT_END witness Fill(LAYOUT_END, 0xFF)

  function SlotOffset(p: Partition): nat {
    OTADATA_OFFSET + p.Index() * SECTOR_SIZE
  }

  function EntryAt(cells: Cells, p: Partition): (e: bytes)
    ensures |e| == ENTRY_SIZE
  {
    cells[SlotOffset(p)..SlotOffset(p) + ENTRY_SIZE]
  }

  function StoredCheck(seqBytes: bytes): u32
    requires |seqBytes| == 4
  {
    CrcOta.Crc32Ota(seqBytes) as int
  }

  predicate EntryValid(entry: bytes)
    requires |entry| == ENTRY_SIZE
  {
    FromLe32(entry[..4]) != ERASED_SEQ && FromLe32(entry[28..32]) == StoredCheck(entry[..4])
  }

  function SeqFromEntry(entry: bytes): u32
    requires |entry| == ENTRY_SIZE
  {
    var raw := FromLe32(entry[..4]);
    if raw == ERASED_SEQ then 0 else raw
  }

  predicate Valid(cells: Cells, p: Partition) {
    EntryValid(EntryAt(cells, p))
  }

  function Seq(cells: Cells, p: Partition): u32 {
    if Valid(cells, p) then SeqFromEntry(EntryAt(cells, p)) else 0
  }

  function MaxSeq(cells: Cells): u32 {
    var s0, s1 := Seq(cells, Ota0), Seq(cells, Ota1);
    if s1 > s0 then s1 else s0
  }

  /** `n` selects `p`: odd numbers the first partition, even numbers the second. */
  predicate Maps(n: nat, p: Partition) {
    n > 0 && (n - 1) % 2 == p.Index()
  }

  function Detect(cells: Cells): Partition {
    var running := MaxSeq(cells);
    if running == 0 || (running - 1) % 2 == 0 then Ota0 else Ota1
  }

  function BuildEntry(n: u32): (e: bytes)
    ensures |e| == ENTRY_SIZE
  {
    var s := ToLe32(n);
    s + Fill(24, 0xFF) + ToLe32(StoredCheck(s))
  }

  /** The least number above `max` that selects `p`. */
  function NextSeq(max: u32, p: Partition): (n: nat)
    ensures n > max && Maps(n, p)
    ensures forall k: nat :: max < k < n ==> !Maps(k, p)
    ensures n <= max + 2
  {
    if Maps(max + 1, p) then max + 1 else max + 2
  }

  /** The number seeded into an invalid other slot. */
  function SeedSeq(max: u32, p: Partition): nat {
    if max == 0 then p.Other().Index() + 1 else NextSeq(max, p) - 1
  }

  /** Rewriting one slot: erase its sector, program the entry and the old rest of the sector. */
  function SlotOps(cells: Cells, p: Partition, entry: bytes): seq<Op>
    requires |entry| == ENTRY_SIZE
  {
    var at := SlotOffset(p);
    [Erase(at, at + SECTOR_SIZE), Program(at, entry + cells[at + ENTRY_SIZE..at + SECTOR_SIZE])]
  }

  function TargetOps(cells: Cells, p: Partition): seq<Op>
    requires MaxSeq(cells) <= MAX_SEQ
  {
    SlotOps(cells, p, BuildEntry(NextSeq(MaxSeq(cells), p)))
  }

  function SeedOps(cells: Cells, p: Partition): seq<Op>
    requires MaxSeq(cells) <= MAX_SEQ
  {
    SlotOps(cells, p.Other(), BuildEntry(SeedSeq(MaxSeq(cells), p)))
  }

  /** The flash operations that make `p` the boot partition, in order. */
  function SetBootOps(cells: Cells, p: Partition): seq<Op>
    requires MaxSeq(cells) <= MAX_SEQ
  {
    TargetOps(cells, p) + if Valid(cells, p.Other()) then [] else SeedOps(cells, p)
  }

  // ---- The entry codec ----------------------------------------------------------------

  lemma EntryRoundTrip(n: u32)
    ensures EntryValid(BuildEntry(n)) <==> n != ERASED_SEQ
    ensures n != ERASED_SEQ ==> SeqFromEntry(BuildEntry(n)) == n
  {
    var e := BuildEntry(n);
    assert e[..4] == ToLe32(n);
    assert e[28..32] == ToLe32(StoredCheck(ToLe32(n)));
    Le32RoundTrip(n);
    Le32RoundTrip(StoredCheck(ToLe32(n)));
  }

  lemma CheckValueInjective(c: bv32, d: bv32)
    requires c as int == d as int
    ensures c == d
  {
    RegisterOf(c);
    RegisterOf(d);
  }

  lemma RegisterOf(c: bv32)
    ensures (c as int) as bv32 == c
  {}

  /** An entry whose sequence bytes alone are altered never validates. */
  lemma AlteredSeqRejected(entry: bytes, altered: bytes)
    requires |entry| == |altered| == ENTRY_SIZE && entry[4..] == altered[4..]
    requires EntryValid(entry) && EntryValid(altered)
    ensures entry == altered
  {
    assert entry[28..32] == entry[4..][24..28] == altered[28..32];
    CheckValueInjective(CrcOta.Crc32Ota(entry[..4]), CrcOta.Crc32Ota(altered[..4]));
    CrcOta.SequenceCheckInjective(entry[..4], altered[..4]);
    assert entry == entry[..4] + entry[4..] && altered == altered[..4] + altered[4..];
  }

  lemma ErasedInvalid(entry: bytes)
    requires |entry| == ENTRY_SIZE && forall i :: 0 <= i < 4 ==> entry[i] == 0xFF
    ensures !EntryValid(entry)
  {}

  // ---- What rewriting one slot does ---------------------------------------------------

  /** The flash agrees with `other` everywhere except possibly in the two 32-byte entries. */
  ghost predicate SameOutsideEntries(a: Cells, b: Cells) {
    && |a| == |b|
    && forall i :: 0 <= i < |a|
         && !(SlotOffset(Ota0) <= i < SlotOffset(Ota0) + ENTRY_SIZE)
         && !(SlotOffset(Ota1) <= i < SlotOffset(Ota1) + ENTRY_SIZE)
         ==> a[i] == b[i]
  }

  /** After the erase alone, the slot is invalid and the other slot is as before. */
  lemma SlotErased(cells: Cells, p: Partition, entry: bytes)
    requires |entry| == ENTRY_SIZE
    ensures var c := Run(cells, SlotOps(cells, p, entry)[..1]);
            && |c| == |cells|
            && !Valid(c, p)
            && EntryAt(c, p.Other()) == EntryAt(cells, p.Other())
            && (forall i :: 0 <= i < |cells| && !(OTADATA_OFFSET <= i < OTADATA_OFFSET + 2 * SECTOR_SIZE)
                  ==> c[i] == cells[i])
  {
    var at := SlotOffset(p);
    var op := Erase(at, at + SECTOR_SIZE);
    assert SlotOps(cells, p, entry)[..1] == [op];
    RunOne(cells, op);
    var c := Apply(cells, op);
    assert forall i :: 0 <= i < 4 ==> EntryAt(c, p)[i] == c[at + i];
    ErasedInvalid(EntryAt(c, p));
    EntrySame(c, cells, p.Other());
  }

  /** Erasing a sector and programming it with an entry and its old rest changes the entry only. */
  lemma SectorRewritten(cells: bytes, at: nat, entry: bytes)
    requires |entry| == ENTRY_SIZE && at + SECTOR_SIZE <= |cells|
    ensures var sector := entry + cells[at + ENTRY_SIZE..at + SECTOR_SIZE];
            var c := Apply(Apply(cells, Erase(at, at + SECTOR_SIZE)), Program(at, sector));
            && (forall i :: 0 <= i < ENTRY_SIZE ==> c[at + i] == entry[i])
            && (forall i :: 0 <= i < |cells| && !(at <= i < at + ENTRY_SIZE) ==> c[i] == cells[i])
  {
    var sector := entry + cells[at + ENTRY_SIZE..at + SECTOR_SIZE];
    var c := Apply(Apply(cells, Erase(at, at + SECTOR_SIZE)), Program(at, sector));
    forall i | 0 <= i < ENTRY_SIZE
      ensures c[at + i] == entry[i]
    {
      SectorCell(cells, at, entry, at + i);
    }
    forall i | 0 <= i < |cells| && !(at <= i < at + ENTRY_SIZE)
      ensures c[i] == cells[i]
    {
      SectorCell(cells, at, entry, i);
    }
  }

  lemma SectorCell(cells: bytes, at: nat, entry: bytes, i: nat)
    requires |entry| == ENTRY_SIZE && at + SECTOR_SIZE <= |cells| && i < |cells|
    ensures var sector := entry + cells[at + ENTRY_SIZE..at + SECTOR_SIZE];
            var c := Apply(Apply(cells, Erase(at, at + SECTOR_SIZE)), Program(at, sector));
            c[i] == if at <= i < at + ENTRY_SIZE then entry[i - at] else cells[i]
  {
    if at <= i < at + SECTOR_SIZE {
      var sector := entry + cells[at + ENTRY_SIZE..at + SECTOR_SIZE];
      AndErased(sector[i - at]);
    }
  }

  /** After both operations the slot holds the entry and nothing else has changed. */
  lemma SlotRewritten(cells: Cells, p: Partition, entry: bytes)
    requires |entry| == ENTRY_SIZE
    ensures var c := Run(cells, SlotOps(cells, p, entry));
            && EntryAt(c, p) == entry
            && EntryAt(c, p.Other()) == EntryAt(cells, p.Other())
            && SameOutsideEntries(c, cells)
  {
    var at := SlotOffset(p);
    var sector := entry + cells[at + ENTRY_SIZE..at + SECTOR_SIZE];
    RunTwo(cells, Erase(at, at + SECTOR_SIZE), Program(at, sector));
    SectorRewritten(cells, at, entry);
    var c := Run(cells, SlotOps(cells, p, entry));
    EntryIs(c, p, entry);
    EntrySame(c, cells, p.Other());
  }

  lemma EntryIs(c: Cells, p: Partition, entry: bytes)
    requires |entry| == ENTRY_SIZE && forall i :: 0 <= i < ENTRY_SIZE ==> c[SlotOffset(p) + i] == entry[i]
    ensures EntryAt(c, p) == entry
  {}

  lemma EntrySame(a: Cells, b: Cells, p: Partition)
    requires forall i :: SlotOffset(p) <= i < SlotOffset(p) + ENTRY_SIZE ==> a[i] == b[i]
    ensures EntryAt(a, p) == EntryAt(b, p)
  {}

  // ---- What switching the boot partition does -----------------------------------------

  /** The slots as the bootloader sees them. */
  datatype Slots = Slots(valid0: bool, seq0: nat, valid1: bool, seq1: nat) {
    predicate ValidAt(p: Partition) {
      if p == Ota0 then valid0 else valid1
    }

    function SeqAt(p: Partition): nat {
      if p == Ota0 then seq0 else seq1
    }

    function With(p: Partition, valid: bool, n: nat): Slots {
      if p == Ota0 then this.(valid0 := valid, seq0 := n) else this.(valid1 := valid, seq1 := n)
    }

    function Max(): nat {
      if seq1 > seq0 then seq1 else seq0
    }

    function Selected(): Partition {
      if Max() == 0 || (Max() - 1) % 2 == 0 then Ota0 else Ota1
    }

    /** Every valid slot carries a nonzero number that selects the slot's own partition. */
    predicate WellFormed() {
      (valid0 ==> Maps(seq0, Ota0)) && (valid1 ==> Maps(seq1, Ota1))
    }
  }

  function View(cells: Cells): (v: Slots)
    ensures v.Max() == MaxSeq(cells) && v.Selected() == Detect(cells)
    ensures forall p: Partition :: v.ValidAt(p) == Valid(cells, p)
    ensures forall p: Partition :: !v.ValidAt(p) ==> v.SeqAt(p) == 0
    ensures (!v.valid0 ==> v.seq0 == 0) && (!v.valid1 ==> v.seq1 == 0)
  {
    Slots(Valid(cells, Ota0), Seq(cells, Ota0), Valid(cells, Ota1), Seq(cells, Ota1))
  }

  /** The slots after `k` of the operations of `SetBootOps`. */
  function AfterCut(v: Slots, p: Partition, k: nat): Slots {
    var max := if v.Max() > MAX_SEQ then MAX_SEQ else v.Max();
    var next := v.With(p, true, NextSeq(max, p));
    if k == 0 then v
    else if k == 1 then v.With(p, false, 0)
    else if k <= 3 then next
    else next.With(p.Other(), true, SeedSeq(max, p))
  }

  lemma SlotErasedView(cells: Cells, p: Partition, entry: bytes)
    requires |entry| == ENTRY_SIZE
    ensures |Run(cells, SlotOps(cells, p, entry)[..1])| == |cells|
    ensures View(Run(cells, SlotOps(cells, p, entry)[..1])) == View(cells).With(p, false, 0)
  {
    SlotErased(cells, p, entry);
  }

  lemma SlotRewrittenView(cells: Cells, p: Partition, n: u32)
    requires n != ERASED_SEQ
    ensures |Run(cells, SlotOps(cells, p, BuildEntry(n)))| == |cells|
    ensures View(Run(cells, SlotOps(cells, p, BuildEntry(n)))) == View(cells).With(p, true, n)
  {
    SlotRewritten(cells, p, BuildEntry(n));
    EntryRoundTrip(n);
  }

  /** Rewriting the second slot reads a sector rest that rewriting the first left alone. */
  lemma SecondSlotOps(cells: Cells, c: Cells, p: Partition, entry: bytes)
    requires |entry| == ENTRY_SIZE && SameOutsideEntries(c, cells)
    ensures SlotOps(c, p, entry) == SlotOps(cells, p, entry)
  {
    var at := SlotOffset(p);
    assert c[at + ENTRY_SIZE..at + SECTOR_SIZE] == cells[at + ENTRY_SIZE..at + SECTOR_SIZE];
  }

  /** The slots after `k` of the two operations that write number `n` into slot `p`. */
  function SlotAfterCut(v: Slots, p: Partition, n: nat, k: nat): Slots {
    if k == 0 then v else if k == 1 then v.With(p, false, 0) else v.With(p, true, n)
  }

  lemma SlotCut(cells: Cells, p: Partition, n: u32, k: nat)
    requires n != ERASED_SEQ && k <= 2
    ensures |Run(cells, SlotOps(cells, p, BuildEntry(n))[..k])| == |cells|
    ensures View(Run(cells, SlotOps(cells, p, BuildEntry(n))[..k])) == SlotAfterCut(View(cells), p, n, k)
  {
    var ops := SlotOps(cells, p, BuildEntry(n));
    if k == 0 {
      assert ops[..0] == [];
    } else if k == 1 {
      SlotErasedView(cells, p, BuildEntry(n));
    } else {
      assert ops[..2] == ops;
      SlotRewrittenView(cells, p, n);
    }
  }

  lemma TargetCut(cells: Cells, p: Partition, k: nat)
    requires MaxSeq(cells) <= MAX_SEQ && k <= 2
    ensures View(Run(cells, TargetOps(cells, p)[..k])) == SlotAfterCut(View(cells), p, NextSeq(MaxSeq(cells), p), k)
  {
    SlotCut(cells, p, NextSeq(MaxSeq(cells), p), k);
  }

  lemma TargetFrame(cells: Cells, p: Partition)
    requires MaxSeq(cells) <= MAX_SEQ
    ensures SameOutsideEntries(Run(cells, TargetOps(cells, p)), cells)
  {
    SlotRewritten(cells, p, BuildEntry(NextSeq(MaxSeq(cells), p)));
  }

  /** The seed is written by the operations computed beforehand. */
  lemma SeedOpsAfterTarget(cells: Cells, p: Partition)
    requires MaxSeq(cells) <= MAX_SEQ
    ensures SeedOps(cells, p)
         == SlotOps(Run(cells, TargetOps(cells, p)), p.Other(), BuildEntry(SeedSeq(MaxSeq(cells), p)))
  {
    TargetFrame(cells, p);
    SecondSlotOps(cells, Run(cells, TargetOps(cells, p)), p.Other(), BuildEntry(SeedSeq(MaxSeq(cells), p)));
  }

  lemma SeedCut(cells: Cells, p: Partition, k: nat)
    requires MaxSeq(cells) <= MAX_SEQ && k <= 2
    ensures View(Run(Run(cells, TargetOps(cells, p)), SeedOps(cells, p)[..k]))
         == SlotAfterCut(SlotAfterCut(View(cells), p, NextSeq(MaxSeq(cells), p), 2),
                         p.Other(), SeedSeq(MaxSeq(cells), p), k)
  {
    SeedOpsAfterTarget(cells, p);
    assert TargetOps(cells, p)[..2] == TargetOps(cells, p);
    TargetCut(cells, p, 2);
    SlotCut(Run(cells, TargetOps(cells, p)), p.Other(), SeedSeq(MaxSeq(cells), p), k);
  }

  lemma SeedFrame(cells: Cells, p: Partition)
    requires MaxSeq(cells) <= MAX_SEQ
    ensures SameOutsideEntries(Run(Run(cells, TargetOps(cells, p)), SeedOps(cells, p)), cells)
  {
    SeedOpsAfterTarget(cells, p);
    TargetFrame(cells, p);
    SlotRewritten(Run(cells, TargetOps(cells, p)), p.Other(), BuildEntry(SeedSeq(MaxSeq(cells), p)));
  }

  lemma SetBootCutEarly(cells: Cells, p: Partition, k: nat)
    requires MaxSeq(cells) <= MAX_SEQ && k <= |SetBootOps(cells, p)| && k <= 2
    ensures View(Run(cells, SetBootOps(cells, p)[..k])) == AfterCut(View(cells), p, k)
  {
    assert SetBootOps(cells, p)[..k] == TargetOps(cells, p)[..k];
    TargetCut(cells, p, k);
  }

  lemma SetBootCutLate(cells: Cells, p: Partition, k: nat)
    requires MaxSeq(cells) <= MAX_SEQ && 2 < k <= |SetBootOps(cells, p)|
    ensures View(Run(cells, SetBootOps(cells, p)[..k])) == AfterCut(View(cells), p, k)
  {
    var a, b := TargetOps(cells, p), SeedOps(cells, p);
    assert SetBootOps(cells, p) == a + b;
    RunPrefix(cells, a, b, k);
    SeedCut(cells, p, k - 2);
    SeedHasNoPast(View(cells), p, k);
  }

  /** Wherever the power fails, the slots are exactly as `AfterCut` says. */
  lemma SetBootCut(cells: Cells, p: Partition, k: nat)
    requires MaxSeq(cells) <= MAX_SEQ && k <= |SetBootOps(cells, p)|
    ensures View(Run(cells, SetBootOps(cells, p)[..k])) == AfterCut(View(cells), p, k)
  {
    if k <= 2 {
      SetBootCutEarly(cells, p, k);
    } else {
      SetBootCutLate(cells, p, k);
    }
  }

  /** The other slot is invalid when it is seeded, so erasing it first changes nothing. */
  lemma SeedHasNoPast(v: Slots, p: Partition, k: nat)
    requires v.Max() <= MAX_SEQ && 2 <= k <= 4
    requires !v.ValidAt(p.Other()) && v.SeqAt(p.Other()) == 0
    ensures SlotAfterCut(SlotAfterCut(v, p, NextSeq(v.Max(), p), 2), p.Other(), SeedSeq(v.Max(), p), k - 2)
         == AfterCut(v, p, k)
  {}

  /** Nothing but the two entries changes, sector tails and every partition included. */
  lemma SetBootFrame(cells: Cells, p: Partition)
    requires MaxSeq(cells) <= MAX_SEQ
    ensures SameOutsideEntries(Run(cells, SetBootOps(cells, p)), cells)
  {
    var a := TargetOps(cells, p);
    if Valid(cells, p.Other()) {
      TargetFrame(cells, p);
      assert SetBootOps(cells, p) == a;
    } else {
      SeedFrame(cells, p);
      RunConcat(cells, a, SeedOps(cells, p));
    }
  }

  lemma SetBootAllWithin(cells: Cells, p: Partition)
    requires MaxSeq(cells) <= MAX_SEQ
    ensures AllWithin(SetBootOps(cells, p), OTADATA_OFFSET, OTADATA_OFFSET + 2 * SECTOR_SIZE)
  {}

  // ---- Selection, on the slots alone --------------------------------------------------

  /** Invalid slots count as number 0, and numbers are small enough to go on counting. */
  ghost predicate Usable(v: Slots) {
    (!v.valid0 ==> v.seq0 == 0) && (!v.valid1 ==> v.seq1 == 0) && v.Max() <= MAX_SEQ
  }

  lemma SwitchSelects(v: Slots, p: Partition)
    requires Usable(v)
    ensures var w := AfterCut(v, p, if v.ValidAt(p.Other()) then 2 else 4);
            && w.valid0 && w.valid1
            && v.Max() < w.Max() <= v.Max() + 2
            && (w.Selected() == p <==> v.Max() > 0 || p == Ota1 || v.valid1)
  {}

  lemma CutWellFormed(v: Slots, p: Partition, k: nat)
    requires Usable(v) && v.WellFormed() && (k <= 2 || !v.ValidAt(p.Other()))
    ensures AfterCut(v, p, k).WellFormed()
  {}

  lemma CutSelected(v: Slots, p: Partition, k: nat)
    requires Usable(v) && v.WellFormed() && (k <= 2 || !v.ValidAt(p.Other()))
    ensures v.Selected() != p ==> AfterCut(v, p, k).Selected() == if k < 2 then v.Selected() else p
    ensures v.Selected() == p ==>
              (AfterCut(v, p, k).Selected() == p
               <==> (k == 1 ==> p == Ota0 && !v.valid1) && (k > 3 ==> v.Max() > 0))
  {}

  // ---- Selection, on the flash --------------------------------------------------------

  /**
   * Both slots end up valid, the maximum grows by one or two, and `p` is selected, with one
   * exception: asked for the first partition on otadata without any usable number and with the
   * second slot invalid, the seed written into that slot outranks the number just set.
   */
  lemma SetBootSelects(cells: Cells, p: Partition)
    requires MaxSeq(cells) <= MAX_SEQ
    ensures var c := Run(cells, SetBootOps(cells, p));
            && Valid(c, Ota0) && Valid(c, Ota1)
            && MaxSeq(cells) < MaxSeq(c) <= MaxSeq(cells) + 2
            && (Detect(c) == p <==> MaxSeq(cells) > 0 || p == Ota1 || Valid(cells, Ota1))
  {
    var ops, v := SetBootOps(cells, p), View(cells);
    assert ops[..|ops|] == ops;
    SetBootCut(cells, p, |ops|);
    SwitchSelects(v, p);
    ghost var w := View(Run(cells, ops));
    assert w.ValidAt(Ota0) && w.ValidAt(Ota1);
  }

  /** Well-formed otadata stays well-formed at every cut. */
  lemma SetBootWellFormed(cells: Cells, p: Partition, k: nat)
    requires MaxSeq(cells) <= MAX_SEQ && k <= |SetBootOps(cells, p)|
    requires View(cells).WellFormed()
    ensures View(Run(cells, SetBootOps(cells, p)[..k])).WellFormed()
  {
    SetBootCut(cells, p, k);
    CutWellFormed(View(cells), p, k);
  }

  /**
   * Switching to the partition that is not selected is safe against a power cut at any point:
   * what is selected is always the old partition or, once its entry is written, the new one.
   */
  lemma SwitchCutSafe(cells: Cells, p: Partition, k: nat)
    requires MaxSeq(cells) <= MAX_SEQ && k <= |SetBootOps(cells, p)|
    requires View(cells).WellFormed() && Detect(cells) != p
    ensures Detect(Run(cells, SetBootOps(cells, p)[..k])) == if k < 2 then Detect(cells) else p
  {
    SetBootCut(cells, p, k);
    CutSelected(View(cells), p, k);
  }

  /**
   * When one cut while rewriting the selected partition's own slot leaves it selected: after
   * the erase only the default without a rival is, and once a seed has been written the
   * otadata must not have been blank.
   */
  lemma ReselectCut(cells: Cells, p: Partition, k: nat)
    requires MaxSeq(cells) <= MAX_SEQ && k <= |SetBootOps(cells, p)|
    requires View(cells).WellFormed() && Detect(cells) == p
    ensures Detect(Run(cells, SetBootOps(cells, p)[..k])) == p
       <==> (k == 1 ==> p == Ota0 && !Valid(cells, Ota1)) && (k == 4 ==> MaxSeq(cells) > 0)
  {
    SetBootCut(cells, p, k);
    CutSelected(View(cells), p, k);
  }

  /**
   * Rewriting the partition that is selected already is safe against a power cut at any point
   * exactly when `p` is the default, the other slot is invalid and the otadata is not blank:
   * otherwise the other partition is selected between the erase and the program, or by the
   * seed at the end.
   */
  lemma ReselectCutSafeIff(cells: Cells, p: Partition)
    requires MaxSeq(cells) <= MAX_SEQ
    requires View(cells).WellFormed() && Detect(cells) == p
    ensures (forall k: nat :: k <= |SetBootOps(cells, p)| ==>
               Detect(Run(cells, SetBootOps(cells, p)[..k])) == p)
            <==> p == Ota0 && !Valid(cells, Ota1) && MaxSeq(cells) > 0
  {
    forall k: nat | k <= |SetBootOps(cells, p)|
      ensures Detect(Run(cells, SetBootOps(cells, p)[..k])) == p
         <==> (k == 1 ==> p == Ota0 && !Valid(cells, Ota1)) && (k == 4 ==> MaxSeq(cells) > 0)
    {
      ReselectCut(cells, p, k);
    }
    ReselectCut(cells, p, 1);
    if !Valid(cells, p.Other()) {
      ReselectCut(cells, p, 4);
    }
  }

  /** On blank otadata, asking for the first partition selects the second. */
  lemma BlankExceptionExample(cells: Cells)
    requires !Valid(cells, Ota0) && !Valid(cells, Ota1)
    ensures Detect(Run(cells, SetBootOps(cells, Ota0))) == Ota1
  {
    SetBootSelects(cells, Ota0);
  }

  // ---- The code -----------------------------------------------------------------------

  ghost predicate Fits(chip: Chip)
    reads chip
  {
    |chip.cells| >= LAYOUT_END
  }

  method ReadEntry(chip: Chip, p: Partition) returns (r: Result<bytes, OtaError>)
    requires Fits(chip)
    ensures r.Ok? ==> r.value == EntryAt(chip.cells, p)
    ensures chip.reliable ==> r.Ok?
  {
    var data := chip.Read(SlotOffset(p), ENTRY_SIZE);
    if data.None? {
      return Err(FlashError(SlotOffset(p)));
    }
    r := Ok(data.value);
  }

  /** Both entries, whether they are valid, and their numbers. */
  method ReadSlots(chip: Chip) returns (r: Result<Slots, OtaError>)
    requires Fits(chip)
    ensures r.Ok? ==> r.value == View(chip.cells)
    ensures chip.reliable ==> r.Ok?
  {
    var entry0 := ReadEntry(chip, Ota0);
    if entry0.Err? {
      return Err(entry0.error);
    }
    var entry1 := ReadEntry(chip, Ota1);
    if entry1.Err? {
      return Err(entry1.error);
    }
    var valid0, valid1 := EntryValid(entry0.value), EntryValid(entry1.value);
    var seq0 := if valid0 then SeqFromEntry(entry0.value) else 0;
    var seq1 := if valid1 then SeqFromEntry(entry1.value) else 0;
    r := Ok(Slots(valid0, seq0, valid1, seq1));
  }

  method DetectRunning(chip: Chip) returns (r: Result<Partition, OtaError>)
    requires Fits(chip)
    ensures r.Ok? ==> r.value == Detect(chip.cells)
    ensures chip.reliable ==> r.Ok?
  {
    var slots := ReadSlots(chip);
    if slots.Err? {
      return Err(slots.error);
    }
    var running := slots.value.Max();
    if running == 0 {
      return Ok(Ota0);
    }
    r := Ok(if (running - 1) % 2 == 0 then Ota0 else Ota1);
  }

  /** Read-modify-write of one otadata sector. */
  method WriteSlot(chip: Chip, p: Partition, entry: bytes) returns (r: Result<(), OtaError>)
    requires Fits(chip) && |entry| == ENTRY_SIZE
    modifies chip
    ensures Follows(old(chip.cells), old(chip.ops), chip.cells, chip.ops, SlotOps(old(chip.cells), p, entry))
    ensures r.Ok? ==> chip.ops == old(chip.ops) + SlotOps(old(chip.cells), p, entry)
    ensures chip.reliable ==> r.Ok?
  {
    var at := SlotOffset(p);
    ghost var plan := SlotOps(chip.cells, p, entry);
    FollowsNothing(chip.cells, chip.ops, plan);
    var read := chip.Read(at, SECTOR_SIZE);
    if read.None? {
      return Err(FlashError(at));
    }
    var sector := entry + read.value[ENTRY_SIZE..];
    assert sector == entry + chip.cells[at + ENTRY_SIZE..at + SECTOR_SIZE];
    var ok := chip.Erase(at, at + SECTOR_SIZE);
    if !ok {
      return Err(FlashError(at));
    }
    RunOne(old(chip.cells), plan[0]);
    assert chip.ops[|old(chip.ops)|..] == [plan[0]];
    ok := chip.Write(at, sector);
    if !ok {
      return Err(FlashError(at));
    }
    RunTwo(old(chip.cells), plan[0], plan[1]);
    assert chip.ops[|old(chip.ops)|..] == plan;
    r := Ok(());
  }

  /** The search loop for the target's number. */
  method SearchNext(max: u32, p: Partition) returns (n: nat)
    ensures n == NextSeq(max, p)
  {
    if max == 0 {
      return p.Index() + 1;
    }
    n := max + 1;
    while (n - 1) % 2 != p.Index()
      invariant max < n <= max + 2
      invariant n == max + 1 || (n == max + 2 && Maps(n, p))
      invariant forall k: nat :: max < k < n ==> !Maps(k, p)
      decreases max + 2 - n
    {
      n := n + 1;
    }
  }

  /** The search loop for the number that seeds an invalid slot of partition `other`. */
  method SearchSeed(max: u32, next: nat, other: Partition) returns (n: nat)
    requires next > 0
    ensures max == 0 ==> n == other.Index() + 1
    ensures max > 0 && (forall k: nat :: k < next ==> !Maps(k, other)) ==> n == other.Index() + 1
    ensures max > 0 && (exists k: nat :: k < next && Maps(k, other)) ==>
              n < next && Maps(n, other) && forall k: nat :: n < k < next ==> !Maps(k, other)
  {
    if max == 0 {
      return other.Index() + 1;
    }
    n := next - 1;
    while n > 0 && (n - 1) % 2 != other.Index()
      invariant 0 <= n < next
      invariant forall k: nat :: n < k < next ==> !Maps(k, other)
    {
      n := n - 1;
    }
    if n == 0 {
      n := other.Index() + 1;
    } else {
      assert Maps(n, other);
    }
  }

  /** The second half of `SetBootPartition`: seed the other slot if it was found invalid. */
  method SeedOther(chip: Chip, p: Partition, v: Slots, next: nat, ghost c0: Cells, ghost l0: seq<Op>)
    returns (r: Result<(), OtaError>)
    requires Fits(chip) && MaxSeq(c0) <= MAX_SEQ && v == View(c0) && next == NextSeq(v.Max(), p)
    requires chip.cells == Run(c0, TargetOps(c0, p)) && chip.ops == l0 + TargetOps(c0, p)
    modifies chip
    ensures Follows(c0, l0, chip.cells, chip.ops, SetBootOps(c0, p))
    ensures r.Ok? ==> chip.ops == l0 + SetBootOps(c0, p)
    ensures chip.reliable ==> r.Ok?
  {
    if v.ValidAt(p.Other()) {
      SeedNotNeeded(c0, l0, chip.cells, chip.ops, p);
      return Ok(());
    }
    ghost var c1, l1 := chip.cells, chip.ops;
    var seed := SearchSeed(v.Max(), next, p.Other());
    SeedFound(c0, c1, p, seed);
    r := WriteSlot(chip, p.Other(), BuildEntry(seed));
    SeedFollows(c0, l0, c1, l1, chip.cells, chip.ops, p);
  }

  /** The number found is the one that the plan writes. */
  lemma SeedFound(c0: Cells, c1: Cells, p: Partition, seed: nat)
    requires MaxSeq(c0) <= MAX_SEQ && c1 == Run(c0, TargetOps(c0, p))
    requires var max := MaxSeq(c0);
             && (max == 0 ==> seed == p.Other().Index() + 1)
             && (max > 0 ==> seed < NextSeq(max, p) && Maps(seed, p.Other()))
             && (max > 0 ==> forall k: nat :: seed < k < NextSeq(max, p) ==> !Maps(k, p.Other()))
    ensures seed == SeedSeq(MaxSeq(c0), p) && SlotOps(c1, p.Other(), BuildEntry(seed)) == SeedOps(c0, p)
  {
    SeedIsPredecessor(MaxSeq(c0), p, seed);
    SeedOpsAfterTarget(c0, p);
  }

  lemma SeedNotNeeded(c0: Cells, l0: seq<Op>, c1: bytes, l1: seq<Op>, p: Partition)
    requires MaxSeq(c0) <= MAX_SEQ && Valid(c0, p.Other())
    requires c1 == Run(c0, TargetOps(c0, p)) && l1 == l0 + TargetOps(c0, p)
    ensures l1 == l0 + SetBootOps(c0, p) && Follows(c0, l0, c1, l1, SetBootOps(c0, p))
  {
    assert SetBootOps(c0, p) == TargetOps(c0, p);
    assert l1[|l0|..] == SetBootOps(c0, p);
  }

  lemma SeedFollows(c0: Cells, l0: seq<Op>, c1: bytes, l1: seq<Op>, c2: bytes, l2: seq<Op>, p: Partition)
    requires MaxSeq(c0) <= MAX_SEQ && !Valid(c0, p.Other())
    requires c1 == Run(c0, TargetOps(c0, p)) && l1 == l0 + TargetOps(c0, p)
    requires Follows(c1, l1, c2, l2, SeedOps(c0, p))
    ensures Follows(c0, l0, c2, l2, SetBootOps(c0, p))
    ensures l2 == l1 + SeedOps(c0, p) ==> l2 == l0 + SetBootOps(c0, p)
  {
    FollowsConcat(c0, l0, c1, l1, c2, l2, TargetOps(c0, p), SeedOps(c0, p));
  }

  method SetBootPartition(chip: Chip, p: Partition) returns (r: Result<(), OtaError>)
    requires Fits(chip) && MaxSeq(chip.cells) <= MAX_SEQ
    modifies chip
    ensures Follows(old(chip.cells), old(chip.ops), chip.cells, chip.ops, SetBootOps(old(chip.cells), p))
    ensures r.Ok? ==> chip.ops == old(chip.ops) + SetBootOps(old(chip.cells), p)
    ensures chip.reliable ==> r.Ok?
  {
    ghost var c0, l0 := chip.cells, chip.ops;
    FollowsNothing(c0, l0, SetBootOps(c0, p));
    var slots := ReadSlots(chip);
    if slots.Err? {
      return Err(slots.error);
    }
    var next := SearchNext(slots.value.Max(), p);
    r := WriteSlot(chip, p, BuildEntry(next));
    FollowsFirst(c0, l0, chip.cells, chip.ops, TargetOps(c0, p), SetBootOps(c0, p)[2..]);
    assert SetBootOps(c0, p) == TargetOps(c0, p) + SetBootOps(c0, p)[2..];
    if r.Ok? {
      assert chip.ops[|l0|..] == TargetOps(c0, p);
      r := SeedOther(chip, p, slots.value, next, c0, l0);
    }
  }

  lemma SeedIsPredecessor(max: u32, p: Partition, n: nat)
    requires max == 0 ==> n == p.Other().Index() + 1
    requires max > 0 ==> n < NextSeq(max, p) && Maps(n, p.Other())
    requires max > 0 ==> forall k: nat :: n < k < NextSeq(max, p) ==> !Maps(k, p.Other())
    ensures n == SeedSeq(max, p)
  {
    var k := NextSeq(max, p) - 1;
    assert max > 0 ==> Maps(k, p.Other());
  }
}
