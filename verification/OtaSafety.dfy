/**
 * Safety of updates over whole lifetimes: any calls in any order, the power failing between
 * any two flash operations, and a reboot after every failure.
 */
module OtaSafety {
  import opened Bytes
  import opened Flash
  import opened Otadata
  import opened OtaUpdater
  import opened OtaHeader

  datatype Call = Begin | Write(chunk: bytes) | Finalize | MarkValid | Rollback

  /** The updater, the flash, and the bytes accepted since the last `begin`. */
  datatype World = World(s: Updater, cells: Cells, image: bytes)

  /** A device that has just booted: the updater runs from the selected partition. */
  function Boot(cells: Cells): World {
    World(Fresh(Detect(cells)), cells, [])
  }

  /** The sequence numbers leave room for another update. */
  ghost predicate Ready(w: World) {
    MaxSeq(w.cells) <= MAX_SEQ && CanFinalize(w.s, w.cells)
  }

  function Perform(w: World, call: Call): Outcome
    requires Ready(w)
  {
    match call
    case Begin => BeginCall(w.s)
    case Write(chunk) => WriteCall(w.s, chunk)
    case Finalize => FinalizeCall(w.s, w.cells)
    case MarkValid => Outcome(w.s, MarkValidOps(w.s.running, w.cells), Ok(()))
    case Rollback => Outcome(w.s, SetBootOps(w.cells, w.s.running), Ok(()))
  }

  function After(w: World, call: Call): World
    requires Ready(w)
  {
    var o := Perform(w, call);
    World(o.state, Run(w.cells, o.ops),
      if o.result.Err? then w.image
      else if call.Begin? then []
      else if call.Write? then w.image + call.chunk
      else w.image)
  }

  /**
   * Rewriting the slot of `p` up to operation `k` leaves `p` selected if it was: by
   * `ReselectCut`, all that can go wrong is a cut between erase and program while the other
   * partition has a number or is the default, and the seed at the end on blank otadata.
   */
  ghost predicate RewriteKeeps(cells: Cells, p: Partition, k: nat) {
    Detect(cells) == p ==>
      (k == 1 ==> p == Ota0 && !Valid(cells, Ota1)) && (k == 4 ==> MaxSeq(cells) > 0)
  }

  /**
   * The care that a call asks for when `k` of its operations are carried out: an update begins
   * while the running partition is the selected one, is completed only if it fits, and the
   * rewriting of the running slot is not cut off where that changes the selection.
   */
  ghost predicate Careful(w: World, call: Call, k: nat) {
    match call
    case Begin => w.s.inProgress || Detect(w.cells) == w.s.running
    case Write(_) => true
    case Finalize => w.s.inProgress ==> w.s.bytesWritten <= OTA_SIZE
    case MarkValid => NeedsRepair(w.s.running, View(w.cells)) ==> RewriteKeeps(w.cells, w.s.running, k)
    case Rollback => RewriteKeeps(w.cells, w.s.running, k)
  }

  /** What a bootloader finds: `origin` where it ran from, or the complete image. */
  ghost predicate Bootable(cells: Cells, running: Partition, origin: bytes, image: bytes) {
    && View(cells).WellFormed()
    && Region(cells, running) == origin
    && (Detect(cells) == running
        || (|image| <= OTA_SIZE && Region(cells, running.Other()) == Padded(image)))
  }

  ghost predicate Safe(w: World, origin: bytes) {
    && Bootable(w.cells, w.s.running, origin, w.image)
    && (!w.s.inProgress ==> w.s.pending == [])
    && (w.s.inProgress ==> Detect(w.cells) == w.s.running && Streaming(w.s, w.cells, w.image))
  }

  /** The call that makes the streamed image the boot image. */
  predicate Completes(w: World, call: Call) {
    call.Finalize? && w.s.inProgress && w.s.bytesWritten > 0
  }

  // ---- Frames -------------------------------------------------------------------------

  lemma PrefixWithin(ops: seq<Op>, k: nat, lo: nat, hi: nat)
    requires AllWithin(ops, lo, hi) && k <= |ops|
    ensures AllWithin(ops[..k], lo, hi)
  {
    forall op | op in ops[..k] ensures op.Within(lo, hi) {
      assert op in ops;
    }
  }

  /** Operations inside one partition touch neither the other partition nor the otadata. */
  lemma InsidePartition(cells: Cells, ops: seq<Op>, p: Partition)
    requires AllWithin(ops, p.Offset(), p.Offset() + OTA_SIZE)
    ensures View(Run(cells, ops)) == View(cells)
    ensures Region(Run(cells, ops), p.Other()) == Region(cells, p.Other())
  {
    RunWithin(cells, ops, p.Offset(), p.Offset() + OTA_SIZE);
    EntrySame(Run(cells, ops), cells, Ota0);
    EntrySame(Run(cells, ops), cells, Ota1);
  }

  /** Rewriting otadata touches neither partition. */
  lemma InsideOtadata(cells: Cells, ops: seq<Op>, p: Partition)
    requires AllWithin(ops, OTADATA_OFFSET, OTADATA_OFFSET + 2 * SECTOR_SIZE)
    ensures Region(Run(cells, ops), p) == Region(cells, p)
  {
    RunWithin(cells, ops, OTADATA_OFFSET, OTADATA_OFFSET + 2 * SECTOR_SIZE);
    var c := Run(cells, ops);
    assert forall i :: p.Offset() <= i < p.Offset() + OTA_SIZE ==> c[i] == cells[i];
  }

  // ---- One call, one cut --------------------------------------------------------------

  lemma InsideTargetCutSafe(cells: Cells, ops: seq<Op>, k: nat, running: Partition, origin: bytes, image: bytes)
    requires AllWithin(ops, running.Other().Offset(), running.Other().Offset() + OTA_SIZE) && k <= |ops|
    requires View(cells).WellFormed() && Region(cells, running) == origin && Detect(cells) == running
    ensures Bootable(Run(cells, ops[..k]), running, origin, image)
    ensures Detect(Run(cells, ops[..k])) == running
  {
    PrefixWithin(ops, k, running.Other().Offset(), running.Other().Offset() + OTA_SIZE);
    InsidePartition(cells, ops[..k], running.Other());
  }

  /** Switching to the target after it has been filled. */
  lemma SwitchToTargetSafe(cells: Cells, k: nat, running: Partition, origin: bytes, image: bytes)
    requires MaxSeq(cells) <= MAX_SEQ && k <= |SetBootOps(cells, running.Other())|
    requires View(cells).WellFormed() && Region(cells, running) == origin && Detect(cells) == running
    requires |image| <= OTA_SIZE && Region(cells, running.Other()) == Padded(image)
    ensures Bootable(Run(cells, SetBootOps(cells, running.Other())[..k]), running, origin, image)
  {
    var ops := SetBootOps(cells, running.Other());
    SetBootAllWithin(cells, running.Other());
    PrefixWithin(ops, k, OTADATA_OFFSET, OTADATA_OFFSET + 2 * SECTOR_SIZE);
    InsideOtadata(cells, ops[..k], running);
    InsideOtadata(cells, ops[..k], running.Other());
    SetBootWellFormed(cells, running.Other(), k);
  }

  /** Rewriting the running partition's slot, when that keeps the selection. */
  lemma RewriteRunningSafe(cells: Cells, k: nat, running: Partition, origin: bytes, image: bytes)
    requires MaxSeq(cells) <= MAX_SEQ && k <= |SetBootOps(cells, running)|
    requires Bootable(cells, running, origin, image) && RewriteKeeps(cells, running, k)
    ensures var c := Run(cells, SetBootOps(cells, running)[..k]);
            && Bootable(c, running, origin, image)
            && (Detect(cells) == running ==> Detect(c) == running)
            && Region(c, running.Other()) == Region(cells, running.Other())
  {
    var ops := SetBootOps(cells, running);
    SetBootAllWithin(cells, running);
    PrefixWithin(ops, k, OTADATA_OFFSET, OTADATA_OFFSET + 2 * SECTOR_SIZE);
    InsideOtadata(cells, ops[..k], running);
    InsideOtadata(cells, ops[..k], running.Other());
    SetBootWellFormed(cells, running, k);
    if Detect(cells) == running {
      ReselectCut(cells, running, k);
    }
  }

  lemma FillThenSwitchSafe(cells: Cells, fill: seq<Op>, k: nat, running: Partition, origin: bytes, image: bytes)
    requires AllWithin(fill, running.Other().Offset(), running.Other().Offset() + OTA_SIZE)
    requires |image| <= OTA_SIZE && Region(Run(cells, fill), running.Other()) == Padded(image)
    requires View(cells).WellFormed() && Region(cells, running) == origin && Detect(cells) == running
    requires MaxSeq(Run(cells, fill)) <= MAX_SEQ
    requires k <= |fill + SetBootOps(Run(cells, fill), running.Other())|
    ensures Bootable(Run(cells, (fill + SetBootOps(Run(cells, fill), running.Other()))[..k]), running, origin, image)
  {
    var full := Run(cells, fill);
    var switch := SetBootOps(full, running.Other());
    RunPrefix(cells, fill, switch, k);
    if k <= |fill| {
      InsideTargetCutSafe(cells, fill, k, running, origin, image);
    } else {
      InsidePartition(cells, fill, running.Other());
      SwitchToTargetSafe(full, k - |fill|, running, origin, image);
    }
  }

  lemma FinalizeCutSafe(s: Updater, cells: Cells, image: bytes, origin: bytes, k: nat)
    requires CanFinalize(s, cells) && Streaming(s, cells, image) && |image| <= OTA_SIZE
    requires View(cells).WellFormed() && Region(cells, s.running) == origin && Detect(cells) == s.running
    requires k <= |FlushOps(s) + SetBootOps(Run(cells, FlushOps(s)), s.Target())|
    ensures Bootable(Run(cells, (FlushOps(s) + SetBootOps(Run(cells, FlushOps(s)), s.Target()))[..k]),
                     s.running, origin, image)
  {
    FlushCompletes(s, cells, image);
    FillThenSwitchSafe(cells, FlushOps(s), k, s.running, origin, image);
  }

  /** Flushing the last word never reaches the otadata, even when it overruns the partition. */
  lemma FlushKeepsView(s: Updater, cells: Cells, image: bytes)
    requires Streaming(s, cells, image)
    ensures View(Run(cells, FlushOps(s))) == View(cells)
  {
    var base := s.Target().Offset();
    RunWithin(cells, FlushOps(s), base, base + OTA_SIZE + WORD_SIZE);
    var c := Run(cells, FlushOps(s));
    assert EntryAt(c, Ota0) == EntryAt(cells, Ota0);
    assert EntryAt(c, Ota1) == EntryAt(cells, Ota1);
  }

  lemma SafeReady(w: World, origin: bytes)
    requires Safe(w, origin) && MaxSeq(w.cells) <= MAX_SEQ
    ensures Ready(w)
  {
    if w.s.inProgress {
      FlushKeepsView(w.s, w.cells, w.image);
    }
  }

  lemma BeginSafe(w: World, origin: bytes, k: nat)
    requires Safe(w, origin) && Ready(w) && Careful(w, Begin, k)
    requires k <= |Perform(w, Begin).ops|
    ensures Bootable(Run(w.cells, Perform(w, Begin).ops[..k]), w.s.running, origin, After(w, Begin).image)
    ensures Safe(After(w, Begin), origin)
    ensures Detect(w.cells) == w.s.running ==>
              Detect(Run(w.cells, Perform(w, Begin).ops[..k])) == w.s.running
  {
    var ops := Perform(w, Begin).ops;
    assert ops[..|ops|] == ops;
    if w.s.inProgress {
      assert ops == [] && ops[..k] == [];
    } else {
      BeginStreams(w.s, w.cells);
      InsideTargetCutSafe(w.cells, ops, k, w.s.running, origin, []);
      InsideTargetCutSafe(w.cells, ops, |ops|, w.s.running, origin, []);
    }
  }

  lemma WriteSafe(w: World, origin: bytes, chunk: bytes, k: nat)
    requires Safe(w, origin) && Ready(w)
    requires k <= |Perform(w, Write(chunk)).ops|
    ensures Bootable(Run(w.cells, Perform(w, Write(chunk)).ops[..k]), w.s.running, origin, After(w, Write(chunk)).image)
    ensures Safe(After(w, Write(chunk)), origin)
    ensures Detect(Run(w.cells, Perform(w, Write(chunk)).ops[..k])) == Detect(w.cells)
    ensures !w.s.inProgress ==> After(w, Write(chunk)).image == w.image
  {
    var ops := Perform(w, Write(chunk)).ops;
    assert ops[..|ops|] == ops;
    if !w.s.inProgress || !Accepts(w.s, chunk) {
      assert ops == [] && ops[..k] == [];
      if w.s.inProgress {
        WriteRejects(w.s, w.cells, w.image, chunk);
      }
    } else {
      WriteStreams(w.s, w.cells, w.image, chunk);
      InsideTargetCutSafe(w.cells, ops, k, w.s.running, origin, w.image + chunk);
      InsideTargetCutSafe(w.cells, ops, |ops|, w.s.running, origin, w.image + chunk);
    }
  }

  lemma FinalizeSafe(w: World, origin: bytes, k: nat)
    requires Safe(w, origin) && Ready(w) && Careful(w, Finalize, k)
    requires k <= |Perform(w, Finalize).ops|
    ensures Bootable(Run(w.cells, Perform(w, Finalize).ops[..k]), w.s.running, origin, w.image)
    ensures Safe(After(w, Finalize), origin)
    ensures !Completes(w, Finalize) ==> Run(w.cells, Perform(w, Finalize).ops[..k]) == w.cells
  {
    var ops := Perform(w, Finalize).ops;
    assert ops[..|ops|] == ops;
    if !w.s.inProgress || w.s.bytesWritten == 0 {
      assert ops == [] && ops[..k] == [];
    } else {
      FinalizeCutSafe(w.s, w.cells, w.image, origin, k);
      FinalizeCutSafe(w.s, w.cells, w.image, origin, |ops|);
    }
  }

  lemma RewriteSafe(w: World, origin: bytes, call: Call, k: nat)
    requires call.MarkValid? || call.Rollback?
    requires Safe(w, origin) && Ready(w) && Careful(w, call, k)
    requires k <= |Perform(w, call).ops|
    ensures Bootable(Run(w.cells, Perform(w, call).ops[..k]), w.s.running, origin, w.image)
    ensures Region(Run(w.cells, Perform(w, call).ops[..k]), w.s.Target()) == Region(w.cells, w.s.Target())
    ensures Detect(w.cells) == w.s.running ==>
              Detect(Run(w.cells, Perform(w, call).ops[..k])) == w.s.running
  {
    var ops := Perform(w, call).ops;
    if ops == [] {
      assert ops[..k] == [];
    } else {
      assert ops == SetBootOps(w.cells, w.s.running);
      RewriteRunningSafe(w.cells, k, w.s.running, origin, w.image);
    }
  }

  lemma RewriteDone(w: World, origin: bytes, call: Call)
    requires call.MarkValid? || call.Rollback?
    requires Safe(w, origin) && Ready(w) && Careful(w, call, |Perform(w, call).ops|)
    ensures Safe(After(w, call), origin)
  {
    var ops := Perform(w, call).ops;
    RewriteMoves(w, call);
    RewriteSafe(w, origin, call, |ops|);
    RewrittenSafe(w, origin, Run(w.cells, ops));
  }

  /** A rewrite only moves the flash. */
  lemma RewriteMoves(w: World, call: Call)
    requires (call.MarkValid? || call.Rollback?) && Ready(w)
    ensures var ops := Perform(w, call).ops; ops[..|ops|] == ops && After(w, call) == w.(cells := Run(w.cells, ops))
  {}

  /** A safe world is safe with other otadata that still selects what it did. */
  lemma RewrittenSafe(w: World, origin: bytes, cells: Cells)
    requires Safe(w, origin) && Bootable(cells, w.s.running, origin, w.image)
    requires Region(cells, w.s.Target()) == Region(w.cells, w.s.Target())
    requires Detect(w.cells) == w.s.running ==> Detect(cells) == w.s.running
    ensures Safe(w.(cells := cells), origin)
  {}

  /**
   * One careful call from a safe world: wherever the power fails, the running partition is
   * untouched and what is selected is either it or the complete image.
   */
  lemma CallSafe(w: World, origin: bytes, call: Call, k: nat)
    requires Safe(w, origin) && Ready(w) && Careful(w, call, k)
    requires k <= |Perform(w, call).ops|
    ensures Bootable(Run(w.cells, Perform(w, call).ops[..k]), w.s.running, origin, After(w, call).image)
    ensures Detect(Run(w.cells, Perform(w, call).ops[..k])) != w.s.running ==>
              After(w, call).image == w.image && (Completes(w, call) || Detect(w.cells) != w.s.running)
  {
    match call
    case Begin => BeginSafe(w, origin, k);
    case Write(chunk) => WriteSafe(w, origin, chunk, k);
    case Finalize => FinalizeSafe(w, origin, k);
    case MarkValid => RewriteSafe(w, origin, call, k);
    case Rollback => RewriteSafe(w, origin, call, k);
  }

  /** A careful call that finishes leaves the world safe. */
  lemma CallDone(w: World, origin: bytes, call: Call)
    requires Safe(w, origin) && Ready(w) && Careful(w, call, |Perform(w, call).ops|)
    ensures Safe(After(w, call), origin)
  {
    match call
    case Begin => BeginSafe(w, origin, |Perform(w, call).ops|);
    case Write(chunk) => WriteSafe(w, origin, chunk, |Perform(w, call).ops|);
    case Finalize => FinalizeSafe(w, origin, |Perform(w, call).ops|);
    case MarkValid => RewriteDone(w, origin, call);
    case Rollback => RewriteDone(w, origin, call);
  }

  // ---- Lifetimes ----------------------------------------------------------------------

  /** A call that finishes, or one that is cut off after `k` flash operations and a reboot. */
  datatype Event = Do(call: Call) | Cut(call: Call, k: nat)

  /** How many of the call's operations are carried out. */
  ghost function Reached(w: World, e: Event): (k: nat)
    requires Ready(w)
    ensures k <= |Perform(w, e.call).ops|
  {
    var n := |Perform(w, e.call).ops|;
    if e.Cut? && e.k <= n then e.k else n
  }

  ghost function Next(w: World, e: Event): World {
    if !Ready(w) then w else
      match e
      case Do(call) => After(w, call)
      case Cut(call, k) => Boot(Run(w.cells, Perform(w, call).ops[..Reached(w, e)]))
  }

  ghost predicate CarefulEvent(w: World, e: Event) {
    Ready(w) ==> Careful(w, e.call, Reached(w, e))
  }

  ghost function End(w: World, es: seq<Event>): World
    decreases |es|
  {
    if es == [] then w else End(Next(w, es[0]), es[1..])
  }

  ghost predicate CarefulRun(w: World, es: seq<Event>)
    decreases |es|
  {
    es == [] || (CarefulEvent(w, es[0]) && CarefulRun(Next(w, es[0]), es[1..]))
  }

  /** The images streamed in full for which `finalize` was called, as a partition holds them. */
  ghost function Completed(w: World, es: seq<Event>): set<bytes>
    decreases |es|
  {
    if es == [] then {} else CompletedBy(w, es[0].call) + Completed(Next(w, es[0]), es[1..])
  }

  ghost function CompletedBy(w: World, call: Call): set<bytes> {
    if Completes(w, call) && |w.image| <= OTA_SIZE then {Padded(w.image)} else {}
  }

  lemma BootSafe(cells: Cells)
    requires View(cells).WellFormed()
    ensures Safe(Boot(cells), Region(cells, Detect(cells)))
  {}

  lemma CutGrowth(v: Slots, p: Partition, k: nat)
    requires v.Max() <= MAX_SEQ
    ensures AfterCut(v, p, k).Max() <= v.Max() + 2
  {}

  lemma SetBootGrowth(cells: Cells, p: Partition, k: nat)
    requires MaxSeq(cells) <= MAX_SEQ && k <= |SetBootOps(cells, p)|
    ensures MaxSeq(Run(cells, SetBootOps(cells, p)[..k])) <= MaxSeq(cells) + 2
  {
    SetBootCut(cells, p, k);
    CutGrowth(View(cells), p, k);
  }

  lemma FinalizeGrowth(s: Updater, cells: Cells, image: bytes, k: nat)
    requires CanFinalize(s, cells) && Streaming(s, cells, image) && |image| <= OTA_SIZE
    requires k <= |FlushOps(s) + SetBootOps(Run(cells, FlushOps(s)), s.Target())|
    ensures MaxSeq(Run(cells, (FlushOps(s) + SetBootOps(Run(cells, FlushOps(s)), s.Target()))[..k]))
         <= MaxSeq(cells) + 2
  {
    var flush := FlushOps(s);
    var full := Run(cells, flush);
    var switch := SetBootOps(full, s.Target());
    FlushCompletes(s, cells, image);
    RunPrefix(cells, flush, switch, k);
    if k <= |flush| {
      PrefixWithin(flush, k, s.Target().Offset(), s.Target().Offset() + OTA_SIZE);
      InsidePartition(cells, flush[..k], s.Target());
    } else {
      InsidePartition(cells, flush, s.Target());
      SetBootGrowth(full, s.Target(), k - |flush|);
    }
  }

  /** No call, cut or not, uses up more than two sequence numbers. */
  lemma CallGrowth(w: World, origin: bytes, call: Call, k: nat)
    requires Safe(w, origin) && Ready(w) && Careful(w, call, k)
    requires k <= |Perform(w, call).ops|
    ensures MaxSeq(Run(w.cells, Perform(w, call).ops[..k])) <= MaxSeq(w.cells) + 2
  {
    var ops := Perform(w, call).ops;
    if ops == [] {
      assert ops[..k] == [];
    } else {
      match call
      case Begin =>
        BeginStreams(w.s, w.cells);
        PrefixWithin(ops, k, w.s.Target().Offset(), w.s.Target().Offset() + OTA_SIZE);
        InsidePartition(w.cells, ops[..k], w.s.Target());
      case Write(chunk) =>
        WriteStreams(w.s, w.cells, w.image, chunk);
        PrefixWithin(ops, k, w.s.Target().Offset(), w.s.Target().Offset() + OTA_SIZE);
        InsidePartition(w.cells, ops[..k], w.s.Target());
      case Finalize =>
        FinalizeGrowth(w.s, w.cells, w.image, k);
      case _ =>
        SetBootGrowth(w.cells, w.s.running, k);
    }
  }

  /** What holds of the flash after `k` operations of a call, in terms of the good contents. */
  lemma CutGood(w: World, call: Call, k: nat, good: set<bytes>)
    requires Safe(w, Region(w.cells, w.s.running)) && Ready(w) && Careful(w, call, k)
    requires k <= |Perform(w, call).ops|
    requires Region(w.cells, w.s.running) in good && Region(w.cells, Detect(w.cells)) in good
    ensures var c := Run(w.cells, Perform(w, call).ops[..k]);
            && View(c).WellFormed()
            && MaxSeq(c) <= MaxSeq(w.cells) + 2
            && Region(c, w.s.running) == Region(w.cells, w.s.running)
            && Region(c, Detect(c)) in good + CompletedBy(w, call)
  {
    var origin := Region(w.cells, w.s.running);
    CallSafe(w, origin, call, k);
    CallGrowth(w, origin, call, k);
  }

  lemma DoneGood(w: World, call: Call, good: set<bytes>)
    requires Safe(w, Region(w.cells, w.s.running)) && Ready(w) && Careful(w, call, |Perform(w, call).ops|)
    requires Region(w.cells, w.s.running) in good && Region(w.cells, Detect(w.cells)) in good
    ensures var n := After(w, call);
            && Safe(n, Region(n.cells, n.s.running))
            && MaxSeq(n.cells) <= MaxSeq(w.cells) + 2
            && Region(n.cells, n.s.running) in good + CompletedBy(w, call)
            && Region(n.cells, Detect(n.cells)) in good + CompletedBy(w, call)
  {
    var ops := Perform(w, call).ops;
    assert ops[..|ops|] == ops;
    CutGood(w, call, |ops|, good);
    CallDone(w, Region(w.cells, w.s.running), call);
  }

  /** One event keeps the world safe and the selected contents among those known to be good. */
  lemma EventSafe(w: World, e: Event, good: set<bytes>)
    requires Safe(w, Region(w.cells, w.s.running)) && CarefulEvent(w, e)
    requires MaxSeq(w.cells) <= MAX_SEQ
    requires Region(w.cells, w.s.running) in good && Region(w.cells, Detect(w.cells)) in good
    ensures var n := Next(w, e);
            && Safe(n, Region(n.cells, n.s.running))
            && MaxSeq(n.cells) <= MaxSeq(w.cells) + 2
            && Region(n.cells, n.s.running) in good + CompletedBy(w, e.call)
            && Region(n.cells, Detect(n.cells)) in good + CompletedBy(w, e.call)
  {
    SafeReady(w, Region(w.cells, w.s.running));
    match e
    case Do(call) => DoneGood(w, call, good);
    case Cut(call, _) =>
      CutGood(w, call, Reached(w, e), good);
      BootSafe(Run(w.cells, Perform(w, call).ops[..Reached(w, e)]));
  }

  /** What an event leaves to be shown about the rest of the run. */
  ghost predicate Going(w: World, es: seq<Event>, good: set<bytes>) {
    && Safe(w, Region(w.cells, w.s.running))
    && CarefulRun(w, es)
    && MaxSeq(w.cells) + 2 * |es| <= MAX_SEQ
    && Region(w.cells, w.s.running) in good
    && Region(w.cells, Detect(w.cells)) in good
  }

  lemma GoingOn(w: World, es: seq<Event>, good: set<bytes>)
    requires Going(w, es, good) && es != []
    ensures Going(Next(w, es[0]), es[1..], good + CompletedBy(w, es[0].call))
  {
    EventSafe(w, es[0], good);
  }

  /** Over any run: the flash stays well-formed, the world safe, and the selected contents good. */
  lemma {:induction false} RunSafe(w: World, es: seq<Event>, good: set<bytes>)
    requires Going(w, es, good)
    ensures var n := End(w, es);
            && View(n.cells).WellFormed()
            && Safe(n, Region(n.cells, n.s.running))
            && Region(n.cells, Detect(n.cells)) in good + Completed(w, es)
    decreases |es|
  {
    if es != [] {
      GoingOn(w, es, good);
      RunSafe(Next(w, es[0]), es[1..], good + CompletedBy(w, es[0].call));
    }
  }

  // ---- The running partition over a lifetime ------------------------------------------

  lemma {:induction false} EndNext(w: World, es: seq<Event>, k: nat)
    requires k < |es|
    ensures End(w, es[..k + 1]) == Next(End(w, es[..k]), es[k])
    decreases k
  {
    if k > 0 {
      assert es[..k + 1][1..] == es[1..][..k] && es[..k][1..] == es[1..][..k - 1];
      EndNext(Next(w, es[0]), es[1..], k - 1);
    }
  }

  lemma FirstOfTwo(es: seq<Event>, k: nat)
    requires 0 < k <= |es|
    ensures es[..k][0] == es[0] && es[..k][1..] == es[1..][..k - 1] && es[1..][k - 1..] == es[k..]
  {}

  lemma {:induction false} EndFrom(w: World, es: seq<Event>, k: nat)
    requires k <= |es|
    ensures End(End(w, es[..k]), es[k..]) == End(w, es)
    decreases k
  {
    if k == 0 {
      assert es[..0] == [] && es[0..] == es;
    } else {
      FirstOfTwo(es, k);
      EndFrom(Next(w, es[0]), es[1..], k - 1);
    }
  }

  /** What is good of a world on its own account. */
  ghost function Own(w: World): set<bytes> {
    {Region(w.cells, w.s.running), Region(w.cells, Detect(w.cells))}
  }

  /** Wherever a run has come to, it goes on from there. */
  lemma {:induction false} GoingFrom(w: World, es: seq<Event>, good: set<bytes>, k: nat)
    requires Going(w, es, good) && k <= |es|
    ensures Going(End(w, es[..k]), es[k..], Own(End(w, es[..k])))
    decreases k
  {
    if k == 0 {
      assert es[..0] == [] && es[0..] == es;
    } else {
      FirstOfTwo(es, k);
      GoingOn(w, es, good);
      GoingFrom(Next(w, es[0]), es[1..], good + CompletedBy(w, es[0].call), k - 1);
    }
  }

  /** The partition that `before` runs from has the same bytes in `after`. */
  predicate RunningKept(before: World, after: World) {
    Region(after.cells, before.s.running) == Region(before.cells, before.s.running)
  }

  lemma AfterRuns(w: World, call: Call)
    requires Ready(w)
    ensures After(w, call).s.running == w.s.running && After(w, call).cells == Run(w.cells, Perform(w, call).ops)
  {}

  lemma CallKeepsRunning(w: World, call: Call, k: nat)
    requires Safe(w, Region(w.cells, w.s.running)) && Ready(w) && Careful(w, call, k)
    requires k <= |Perform(w, call).ops|
    ensures Region(Run(w.cells, Perform(w, call).ops[..k]), w.s.running) == Region(w.cells, w.s.running)
  {
    CallSafe(w, Region(w.cells, w.s.running), call, k);
  }

  /** One event, cut off or not, leaves the partition it ran from alone, and only a reboot leaves it. */
  lemma EventKeepsRunning(w: World, e: Event)
    requires Safe(w, Region(w.cells, w.s.running)) && CarefulEvent(w, e)
    requires MaxSeq(w.cells) <= MAX_SEQ
    ensures RunningKept(w, Next(w, e))
    ensures if e.Do? then Next(w, e).s.running == w.s.running else Next(w, e) == Boot(Next(w, e).cells)
  {
    SafeReady(w, Region(w.cells, w.s.running));
    CallKeepsRunning(w, e.call, Reached(w, e));
    if e.Do? {
      var ops := Perform(w, e.call).ops;
      AfterRuns(w, e.call);
      assert ops[..|ops|] == ops;
    }
  }

  predicate Uncut(es: seq<Event>) {
    forall i :: 0 <= i < |es| ==> es[i].Do?
  }

  /** How many events there are up to the last power cut, after which the device booted again. */
  function LastBoot(es: seq<Event>): (b: nat)
    ensures b <= |es| && Uncut(es[b..]) && (b > 0 ==> es[b - 1].Cut?)
  {
    if es == [] || es[|es| - 1].Cut? then |es|
    else
      var b := LastBoot(es[..|es| - 1]);
      assert es[b..] == es[..|es| - 1][b..] + [es[|es| - 1]];
      b
  }

  /** Calls without a power cut never move or change the running partition. */
  lemma {:induction false} SessionSafe(w: World, origin: bytes, es: seq<Event>)
    requires Safe(w, origin) && CarefulRun(w, es) && MaxSeq(w.cells) + 2 * |es| <= MAX_SEQ
    requires Uncut(es)
    ensures End(w, es).s.running == w.s.running
    ensures Safe(End(w, es), origin) && Region(End(w, es).cells, w.s.running) == origin
    decreases |es|
  {
    if es != [] {
      EventKeepsRunning(w, es[0]);
      GoingOn(w, es, Own(w));
      SessionSafe(Next(w, es[0]), origin, es[1..]);
    }
  }

  /**
   * Since its last boot a device has run from one partition, the one that was then selected;
   * this has the same bytes still, and what is selected has those or an image completed since.
   */
  ghost predicate SessionKept(booted: World, now: World, completed: set<bytes>) {
    && booted == Boot(booted.cells)
    && now.s.running == booted.s.running
    && RunningKept(booted, now)
    && (Region(now.cells, Detect(now.cells)) == Region(booted.cells, booted.s.running)
        || Region(now.cells, Detect(now.cells)) in completed)
  }

  lemma SessionFromBoot(booted: World, es: seq<Event>)
    requires booted == Boot(booted.cells) && Going(booted, es, Own(booted))
    requires Uncut(es)
    ensures SessionKept(booted, End(booted, es), Completed(booted, es))
  {
    SessionSafe(booted, Region(booted.cells, booted.s.running), es);
    RunSafe(booted, es, Own(booted));
  }

  lemma SessionHolds(cells: Cells, es: seq<Event>)
    requires View(cells).WellFormed() && MaxSeq(cells) + 2 * |es| <= MAX_SEQ && CarefulRun(Boot(cells), es)
    ensures var booted := End(Boot(cells), es[..LastBoot(es)]);
            SessionKept(booted, End(Boot(cells), es), Completed(booted, es[LastBoot(es)..]))
  {
    var b := LastBoot(es);
    BootSafe(cells);
    GoingFrom(Boot(cells), es, Own(Boot(cells)), b);
    EndFrom(Boot(cells), es, b);
    Booted(cells, es);
    SessionFromBoot(End(Boot(cells), es[..b]), es[b..]);
  }

  lemma Booted(cells: Cells, es: seq<Event>)
    requires View(cells).WellFormed() && MaxSeq(cells) + 2 * |es| <= MAX_SEQ && CarefulRun(Boot(cells), es)
    ensures var booted := End(Boot(cells), es[..LastBoot(es)]); booted == Boot(booted.cells)
  {
    BootedAt(cells, es, LastBoot(es));
  }

  lemma BootedAt(cells: Cells, es: seq<Event>, b: nat)
    requires View(cells).WellFormed() && MaxSeq(cells) + 2 * |es| <= MAX_SEQ && CarefulRun(Boot(cells), es)
    requires b <= |es| && (b > 0 ==> es[b - 1].Cut?)
    ensures var booted := End(Boot(cells), es[..b]); booted == Boot(booted.cells)
  {
    if b == 0 {
      assert es[..0] == [];
    } else {
      RunningKeptAt(cells, es, b - 1);
    }
  }

  lemma RunningKeptAt(cells: Cells, es: seq<Event>, k: nat)
    requires View(cells).WellFormed() && MaxSeq(cells) + 2 * |es| <= MAX_SEQ && CarefulRun(Boot(cells), es)
    requires k < |es|
    ensures var w, n := End(Boot(cells), es[..k]), End(Boot(cells), es[..k + 1]);
            RunningKept(w, n) && (es[k].Cut? ==> n == Boot(n.cells))
  {
    BootSafe(cells);
    GoingFrom(Boot(cells), es, Own(Boot(cells)), k);
    EventKeepsRunning(End(Boot(cells), es[..k]), es[k]);
    EndNext(Boot(cells), es, k);
  }

  // ---- The header over a lifetime -----------------------------------------------------

  /** While an image is streamed, the header flag tells whether it has begun. */
  predicate Told(w: World) {
    w.s.inProgress ==> HeaderTold(w.s, w.image)
  }

  predicate ShortWrites(es: seq<Event>) {
    forall i :: 0 <= i < |es| && es[i].call.Write? ==> !Oversize(es[i].call.chunk)
  }

  lemma EventTold(w: World, e: Event)
    requires Safe(w, Region(w.cells, w.s.running)) && Told(w)
    requires e.call.Write? ==> !Oversize(e.call.chunk)
    ensures Told(Next(w, e))
  {
    if Ready(w) && e.Do? {
      if e.call.Write? {
        WriteTold(w, e.call.chunk);
      } else {
        OtherTold(w, e.call);
      }
    }
  }

  lemma WriteTold(w: World, chunk: bytes)
    requires Safe(w, Region(w.cells, w.s.running)) && Told(w) && Ready(w) && !Oversize(chunk)
    ensures Told(After(w, Write(chunk)))
  {
    var n := After(w, Write(chunk));
    assert n.s == WriteCall(w.s, chunk).state;
    if w.s.inProgress {
      HeaderStepIff(w.s, w.image, chunk);
      assert n.image == Accepted(w.s, w.image, chunk);
    }
  }

  lemma OtherTold(w: World, call: Call)
    requires Told(w) && Ready(w) && !call.Write?
    ensures Told(After(w, call))
  {
    var s := After(w, call).s;
    match call
    case Begin => assert s == BeginCall(w.s).state;
    case Finalize => assert !s.inProgress;
    case MarkValid => assert s == w.s;
    case Rollback => assert s == w.s;
  }

  lemma CompletedTold(w: World, call: Call)
    requires Safe(w, Region(w.cells, w.s.running)) && Told(w)
    ensures forall held :: held in CompletedBy(w, call) ==> HasMagic(held)
  {
    if Completes(w, call) && |w.image| <= OTA_SIZE {
      PaddedAt(w.image, 0);
    }
  }

  lemma {:induction false} RunTold(w: World, es: seq<Event>, good: set<bytes>)
    requires Going(w, es, good) && Told(w) && ShortWrites(es)
    ensures forall held :: held in Completed(w, es) ==> HasMagic(held)
    decreases |es|
  {
    if es != [] {
      GoingOn(w, es, good);
      EventTold(w, es[0]);
      CompletedTold(w, es[0].call);
      RunTold(Next(w, es[0]), es[1..], good + CompletedBy(w, es[0].call));
    }
  }

  /**
   * Over the whole life of a device: whatever is called, in whatever order, chunked however,
   * with power failing anywhere, the partition that boots holds either what booted at the
   * start or an image that was accepted in full before it was made the boot image. No event
   * changes a byte of the partition that it runs from, and since the last boot nothing but that
   * partition's contents or an image completed since can be selected. If no chunk was longer
   * than a partition, every completed image begins with the magic.
   */
  lemma LifetimeSafe(cells: Cells, es: seq<Event>)
    requires View(cells).WellFormed() && MaxSeq(cells) + 2 * |es| <= MAX_SEQ
    requires CarefulRun(Boot(cells), es)
    ensures var c := End(Boot(cells), es).cells;
            || Region(c, Detect(c)) == Region(cells, Detect(cells))
            || Region(c, Detect(c)) in Completed(Boot(cells), es)
    ensures forall k: nat :: k < |es| ==> RunningKept(End(Boot(cells), es[..k]), End(Boot(cells), es[..k + 1]))
    ensures var booted := End(Boot(cells), es[..LastBoot(es)]);
            SessionKept(booted, End(Boot(cells), es), Completed(booted, es[LastBoot(es)..]))
    ensures ShortWrites(es) ==> forall held :: held in Completed(Boot(cells), es) ==> HasMagic(held)
  {
    var good := {Region(cells, Detect(cells))};
    BootSafe(cells);
    RunSafe(Boot(cells), es, good);
    forall k: nat | k < |es|
      ensures RunningKept(End(Boot(cells), es[..k]), End(Boot(cells), es[..k + 1]))
    {
      RunningKeptAt(cells, es, k);
    }
    SessionHolds(cells, es);
    if ShortWrites(es) {
      RunTold(Boot(cells), es, good);
    }
  }

  // ---- Why the care is needed ---------------------------------------------------------

  /**
   * `begin` keeps what the bootloader would boot exactly when the running partition is the
   * selected one (or there was nothing to lose): after a completed update and before the
   * reboot, the selected partition is the one it erases.
   */
  lemma BeginKeepsSelectedIff(w: World)
    requires !w.s.inProgress
    ensures var c := Run(w.cells, BeginCall(w.s).ops);
            Region(c, Detect(c)) == Region(w.cells, Detect(w.cells))
            <==> Detect(w.cells) == w.s.running || Region(w.cells, Detect(w.cells)) == Padded([])
  {
    BeginStreams(w.s, w.cells);
    InsidePartition(w.cells, BeginCall(w.s).ops, w.s.Target());
  }

  /**
   * The bound checked by `write` leaves out the pending bytes, so up to three bytes more than
   * the partition holds are accepted; completing the image stays inside the partition exactly
   * when the total fits.
   */
  lemma FlushInsideIff(s: Updater, cells: Cells, image: bytes)
    requires Streaming(s, cells, image)
    ensures |image| <= OTA_SIZE + 3
    ensures AllWithin(FlushOps(s), s.Target().Offset(), s.Target().Offset() + OTA_SIZE) <==> |image| <= OTA_SIZE
  {
    if s.pending != [] {
      assert FlushOps(s)[0] in FlushOps(s);
    }
  }

  /** Three bytes too many are accepted when they arrive behind a partial word. */
  lemma OverrunAccepted(s: Updater, cells: Cells, image: bytes, chunk: bytes)
    requires Streaming(s, cells, image) && s.headerSeen
    requires |image| == OTA_SIZE - 1 && |chunk| == WORD_SIZE
    ensures WriteCall(s, chunk).result == Ok(()) && WriteCall(s, chunk).state.bytesWritten == OTA_SIZE + 3
  {}

  /**
   * An overrun of the first partition reaches the first word of the second, where the running
   * firmware starts; the running partition survives exactly when clearing those bits changes
   * nothing.
   */
  lemma OverrunHitsRunning(s: Updater, cells: Cells, image: bytes)
    requires Streaming(s, cells, image) && |image| > OTA_SIZE && s.running == Ota1
    ensures Region(Run(cells, FlushOps(s)), Ota1) == Region(cells, Ota1)
       <==> forall i :: 0 <= i < |s.pending| ==>
              And(cells[OTA_1_OFFSET + i], s.pending[i]) == cells[OTA_1_OFFSET + i]
  {
    OverrunOps(s, cells, image);
    RunOne(cells, Program(OTA_1_OFFSET, PadWord(s.pending)));
    OverrunKeepsIff(cells, s.pending);
  }

  lemma OverrunKeepsIff(cells: Cells, data: bytes)
    requires 0 < |data| < WORD_SIZE
    ensures Region(Apply(cells, Program(OTA_1_OFFSET, PadWord(data))), Ota1) == Region(cells, Ota1)
       <==> forall i :: 0 <= i < |data| ==> And(cells[OTA_1_OFFSET + i], data[i]) == cells[OTA_1_OFFSET + i]
  {
    ProgramAtStartKeepsIff(cells, Ota1, PadWord(data));
    PaddingKeeps(cells, OTA_1_OFFSET, data);
  }

  lemma OverrunOps(s: Updater, cells: Cells, image: bytes)
    requires Streaming(s, cells, image) && |image| > OTA_SIZE && s.running == Ota1
    ensures s.pending != [] && FlushOps(s) == [Program(OTA_1_OFFSET, PadWord(s.pending))]
  {}

  lemma PaddingKeeps(cells: bytes, at: nat, data: bytes)
    requires 0 < |data| <= WORD_SIZE && at + WORD_SIZE <= |cells|
    ensures (forall i :: 0 <= i < |PadWord(data)| ==> And(cells[at + i], PadWord(data)[i]) == cells[at + i])
       <==> (forall i :: 0 <= i < |data| ==> And(cells[at + i], data[i]) == cells[at + i])
  {
    var word := PadWord(data);
    forall i | |data| <= i < WORD_SIZE ensures And(cells[at + i], word[i]) == cells[at + i] {
      AndErasedRight(cells[at + i]);
    }
    assert forall i :: 0 <= i < |data| ==> word[i] == data[i];
  }

  lemma ProgramAtStartKeepsIff(cells: Cells, p: Partition, data: bytes)
    requires |data| <= OTA_SIZE
    ensures Region(Apply(cells, Program(p.Offset(), data)), p) == Region(cells, p)
       <==> forall i :: 0 <= i < |data| ==> And(cells[p.Offset() + i], data[i]) == cells[p.Offset() + i]
  {
    var at, c := p.Offset(), Apply(cells, Program(p.Offset(), data));
    if Region(c, p) == Region(cells, p) {
      forall i | 0 <= i < |data|
        ensures And(cells[at + i], data[i]) == cells[at + i]
      {
        SameAt(cells, c, p, i);
      }
    }
    if forall i :: 0 <= i < |data| ==> And(cells[at + i], data[i]) == cells[at + i] {
      ProgramKeeps(cells, at, data);
    }
  }

  lemma SameAt(a: Cells, b: Cells, p: Partition, i: nat)
    requires Region(a, p) == Region(b, p) && i < OTA_SIZE
    ensures a[p.Offset() + i] == b[p.Offset() + i]
  {
    assert a[p.Offset() + i] == Region(a, p)[i] && b[p.Offset() + i] == Region(b, p)[i];
  }

  lemma ProgramKeeps(cells: bytes, at: nat, data: bytes)
    requires at + |data| <= |cells|
    requires forall i :: 0 <= i < |data| ==> And(cells[at + i], data[i]) == cells[at + i]
    ensures Apply(cells, Program(at, data)) == cells
  {
    var c := Apply(cells, Program(at, data));
    forall i | 0 <= i < |cells|
      ensures c[i] == cells[i]
    {
      if at <= i < at + |data| {
        assert And(cells[at + (i - at)], data[i - at]) == cells[at + (i - at)];
      }
    }
  }

  // ---- An update that goes through ----------------------------------------------------

  /** What `finalize` does to a flash that holds the streamed image. */
  lemma FinalizeTakesEffect(s: Updater, cells: Cells, image: bytes)
    requires Streaming(s, cells, image) && 0 < |image| <= OTA_SIZE
    requires View(cells).WellFormed() && Detect(cells) == s.running && MaxSeq(cells) <= MAX_SEQ
    ensures CanFinalize(s, cells) && FinalizeCall(s, cells).result == Ok(())
    ensures var c := Run(cells, FinalizeCall(s, cells).ops);
            && View(c).WellFormed() && Detect(c) == s.Target()
            && Region(c, s.Target()) == Padded(image) && Region(c, s.running) == Region(cells, s.running)
  {
    FlushKeepsView(s, cells, image);
    FlushCompletes(s, cells, image);
    InsidePartition(cells, FlushOps(s), s.Target());
    var full := Run(cells, FlushOps(s));
    SwitchTakesEffect(full, s.running);
    RunConcat(cells, FlushOps(s), SetBootOps(full, s.Target()));
  }

  lemma SwitchTakesEffect(cells: Cells, running: Partition)
    requires View(cells).WellFormed() && Detect(cells) == running && MaxSeq(cells) <= MAX_SEQ
    ensures var c := Run(cells, SetBootOps(cells, running.Other()));
            && View(c).WellFormed() && Detect(c) == running.Other()
            && forall p :: Region(c, p) == Region(cells, p)
  {
    SetBootSelects(cells, running.Other());
    SetBootKeepsRegions(cells, running.Other());
    SetBootDone(cells, running.Other());
  }

  lemma SetBootDone(cells: Cells, boot: Partition)
    requires View(cells).WellFormed() && MaxSeq(cells) <= MAX_SEQ
    ensures View(Run(cells, SetBootOps(cells, boot))).WellFormed()
  {
    var ops := SetBootOps(cells, boot);
    assert ops[..|ops|] == ops;
    SetBootWellFormed(cells, boot, |ops|);
  }

  lemma SetBootKeepsRegions(cells: Cells, boot: Partition)
    requires MaxSeq(cells) <= MAX_SEQ
    ensures var c := Run(cells, SetBootOps(cells, boot)); forall p :: Region(c, p) == Region(cells, p)
  {
    SetBootAllWithin(cells, boot);
    InsideOtadata(cells, SetBootOps(cells, boot), Ota0);
    InsideOtadata(cells, SetBootOps(cells, boot), Ota1);
  }

  /** Begun and written, a legal image is in the target, and nothing else has changed. */
  lemma ImageStreams(cells: Cells, chunks: seq<bytes>)
    requires var image := Flatten(chunks); image != [] && image[0] == IMAGE_MAGIC && |image| <= OTA_SIZE
    ensures var begun := BeginCall(Fresh(Detect(cells)));
            var written := WriteAll(begun.state, chunks);
            var filled := Run(Run(cells, begun.ops), written.ops);
            && begun.result == written.result == Ok(())
            && written.state.running == Detect(cells) && Streaming(written.state, filled, Flatten(chunks))
            && View(filled) == View(cells) && Region(filled, Detect(cells)) == Region(cells, Detect(cells))
  {
    var s, image := Fresh(Detect(cells)), Flatten(chunks);
    var begun := BeginCall(s);
    var erased := Run(cells, begun.ops);
    BeginStreams(s, cells);
    InsidePartition(cells, begun.ops, s.Target());
    assert image + [] == image;
    AnyChunking(begun.state, erased, chunks, image, []);
    InsidePartition(erased, WriteAll(begun.state, chunks).ops, s.Target());
  }

  /**
   * From any well-formed flash, an update of a legal image in any chunks goes through: after
   * `finalize` the other partition is selected and holds exactly the image, and the partition
   * it ran from is as it was.
   */
  lemma UpdateTakesEffect(cells: Cells, chunks: seq<bytes>)
    requires View(cells).WellFormed() && MaxSeq(cells) <= MAX_SEQ
    requires var image := Flatten(chunks); image != [] && image[0] == IMAGE_MAGIC && |image| <= OTA_SIZE
    ensures var begun := BeginCall(Fresh(Detect(cells)));
            var written := WriteAll(begun.state, chunks);
            var filled := Run(Run(cells, begun.ops), written.ops);
            && begun.result == written.result == Ok(())
            && CanFinalize(written.state, filled) && FinalizeCall(written.state, filled).result == Ok(())
            && var c := Run(filled, FinalizeCall(written.state, filled).ops);
            && View(c).WellFormed() && Detect(c) == Detect(cells).Other()
            && Region(c, Detect(c)) == Padded(Flatten(chunks))
            && Region(c, Detect(cells)) == Region(cells, Detect(cells))
  {
    ImageStreams(cells, chunks);
    var begun := BeginCall(Fresh(Detect(cells)));
    var written := WriteAll(begun.state, chunks);
    FinalizeTakesEffect(written.state, Run(Run(cells, begun.ops), written.ops), Flatten(chunks));
  }

  // ---- Boot confirmation --------------------------------------------------------------

  /**
   * After `mark_valid`, nothing is left to validate or to repair, and when the running
   * partition is the selected one it stays selected, even if a slot had to be rewritten.
   */
  lemma MarkValidSettles(cells: Cells, running: Partition)
    requires MaxSeq(cells) <= MAX_SEQ
    ensures var c := Run(cells, MarkValidOps(running, cells));
            && !NeedsValidation(running, View(c)) && !NeedsRepair(running, View(c))
            && (View(cells).WellFormed() && Detect(cells) == running ==> Detect(c) == running)
  {
    if NeedsRepair(running, View(cells)) {
      var ops := SetBootOps(cells, running);
      assert ops[..|ops|] == ops;
      SetBootCut(cells, running, |ops|);
      SetBootSelects(cells, running);
      RepairSettles(View(cells), running);
    }
  }

  lemma RepairSettles(v: Slots, p: Partition)
    requires Usable(v)
    ensures var w := AfterCut(v, p, if v.ValidAt(p.Other()) then 2 else 4);
            RunningConfirmed(p, w) && w.ValidAt(p.Other())
  {}
}
