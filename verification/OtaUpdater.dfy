/**
 * The update state machine: an image arrives in chunks of any size, is programmed word by word
 * into the partition that is not running, and becomes the boot partition when it is complete.
 */
module OtaUpdater {
  import opened Bytes
  import opened Flash
  import opened Otadata
  import CrcMpeg

  const IMAGE_MAGIC: u8 := 0xE9
  const SECTORS: nat := 320

  /** The fields of the updater; `pending` are the bytes of the last, still incomplete word. */
  datatype Updater = Updater(
    running: Partition,
    writeOffset: nat,
    bytesWritten: nat,
    inProgress: bool,
    crc: bv32,
    headerSeen: bool,
    pending: bytes)
  {
    function Target(): Partition {
      running.Other()
    }
  }

  function Fresh(running: Partition): Updater {
    Updater(running, 0, 0, false, 0xFFFF_FFFF, false, [])
  }

  /** What a call does when the flash does not fail. */
  datatype Outcome = Outcome(state: Updater, ops: seq<Op>, result: Result<(), OtaError>)

  function EraseOps(p: Partition, n: nat): (ops: seq<Op>)
    ensures |ops| == n
    ensures forall op :: op in ops ==> p.Offset() <= op.From() && op.To() <= p.Offset() + n * SECTOR_SIZE
  {
    if n == 0 then [] else
      EraseOps(p, n - 1) + [Erase(p.Offset() + (n - 1) * SECTOR_SIZE, p.Offset() + n * SECTOR_SIZE)]
  }

  function BeginCall(s: Updater): Outcome {
    if s.inProgress then
      Outcome(s, [], Err(BeginFailed))
    else
      Outcome(Fresh(s.running).(inProgress := true), EraseOps(s.Target(), SECTORS), Ok(()))
  }

  function WholeWords(n: nat): (r: nat)
    ensures r % WORD_SIZE == 0 && r <= n < r + WORD_SIZE
  {
    n / WORD_SIZE * WORD_SIZE
  }

  function WriteCall(s: Updater, chunk: bytes): Outcome {
    if !s.inProgress then
      Outcome(s, [], Err(WriteFailed(0)))
    else if chunk == [] then
      Outcome(s, [], Ok(()))
    else if !s.headerSeen && chunk[0] != IMAGE_MAGIC then
      Outcome(s, [], Err(InvalidImageHeader))
    else if s.writeOffset + |chunk| > OTA_SIZE then
      Outcome(s.(headerSeen := true), [], Err(WriteFailed(s.bytesWritten)))
    else
      var data := s.pending + chunk;
      var n := WholeWords(|data|);
      Outcome(
        s.(headerSeen := true, crc := CrcMpeg.Update(s.crc, chunk), writeOffset := s.writeOffset + n,
           pending := data[n..], bytesWritten := s.bytesWritten + |chunk|),
        if n > 0 then [Program(s.Target().Offset() + s.writeOffset, data[..n])] else [],
        Ok(()))
  }

  /** A partial word is padded with 0xFF before it is programmed. */
  function PadWord(data: bytes): (r: bytes)
    requires |data| <= WORD_SIZE
    ensures data != [] ==> |r| == WORD_SIZE
  {
    if data == [] then [] else data + Fill(WORD_SIZE - |data|, 0xFF)
  }

  function FlushOps(s: Updater): seq<Op>
    requires |s.pending| < WORD_SIZE
  {
    if s.pending == [] then [] else [Program(s.Target().Offset() + s.writeOffset, PadWord(s.pending))]
  }

  ghost predicate CanFinalize(s: Updater, cells: Cells) {
    && |s.pending| < WORD_SIZE
    && MaxSeq(Run(cells, FlushOps(s))) <= MAX_SEQ
  }

  function FinalizeCall(s: Updater, cells: Cells): Outcome
    requires CanFinalize(s, cells)
  {
    if !s.inProgress then
      Outcome(s, [], Err(FinalizeFailed))
    else if s.bytesWritten == 0 then
      Outcome(s.(inProgress := false), [], Err(FinalizeFailed))
    else
      Outcome(
        s.(inProgress := false, writeOffset := s.writeOffset + |s.pending|, pending := []),
        FlushOps(s) + SetBootOps(Run(cells, FlushOps(s)), s.Target()),
        Ok(()))
  }

  /** Whether the running partition's own slot is valid and names the running partition. */
  predicate RunningConfirmed(running: Partition, v: Slots) {
    v.ValidAt(running) && Maps(v.SeqAt(running), running)
  }

  predicate NeedsRepair(running: Partition, v: Slots) {
    (v.valid0 || v.valid1) && !(RunningConfirmed(running, v) && v.ValidAt(running.Other()))
  }

  predicate NeedsValidation(running: Partition, v: Slots) {
    (v.valid0 || v.valid1) && !RunningConfirmed(running, v)
  }

  function MarkValidOps(running: Partition, cells: Cells): seq<Op>
    requires MaxSeq(cells) <= MAX_SEQ
  {
    if NeedsRepair(running, View(cells)) then SetBootOps(cells, running) else []
  }

  // ---- Streaming an image -------------------------------------------------------------

  function Region(cells: Cells, p: Partition): (r: bytes)
    ensures |r| == OTA_SIZE
  {
    cells[p.Offset()..p.Offset() + OTA_SIZE]
  }

  /** What a partition holds once `image` is in it. */
  function Padded(image: bytes): (r: bytes)
    requires |image| <= OTA_SIZE
    ensures |r| == OTA_SIZE
  {
    image + Fill(OTA_SIZE - |image|, 0xFF)
  }

  /** `image` has been accepted so far: whole words are in flash, the rest is pending. */
  ghost predicate Streaming(s: Updater, cells: Cells, image: bytes) {
    && s.inProgress
    && s.writeOffset % WORD_SIZE == 0 && s.writeOffset <= OTA_SIZE
    && |s.pending| < WORD_SIZE
    && s.bytesWritten == |image| == s.writeOffset + |s.pending|
    && s.pending == image[s.writeOffset..]
    && s.crc == CrcMpeg.Crc32(image)
    && Region(cells, s.Target()) == Padded(image[..s.writeOffset])
  }

  lemma {:induction false} EraseOpsErase(cells: Cells, p: Partition, n: nat)
    requires n <= SECTORS
    ensures Erased(Run(cells, EraseOps(p, n)), p.Offset(), p.Offset() + n * SECTOR_SIZE)
  {
    if n > 0 {
      EraseOpsErase(cells, p, n - 1);
      var ops := EraseOps(p, n);
      assert ops[..n - 1] == EraseOps(p, n - 1);
    }
  }

  lemma BeginStreams(s: Updater, cells: Cells)
    requires !s.inProgress
    ensures var o := BeginCall(s); Streaming(o.state, Run(cells, o.ops), [])
    ensures AllWithin(BeginCall(s).ops, s.Target().Offset(), s.Target().Offset() + OTA_SIZE)
  {
    var o := BeginCall(s);
    EraseOpsErase(cells, s.Target(), SECTORS);
    assert Region(Run(cells, o.ops), s.Target()) == Padded([]);
  }

  lemma RegionAt(cells: Cells, p: Partition, i: nat)
    requires i < OTA_SIZE
    ensures Region(cells, p)[i] == cells[p.Offset() + i]
  {}

  lemma PaddedAt(image: bytes, i: nat)
    requires |image| <= OTA_SIZE && i < OTA_SIZE
    ensures Padded(image)[i] == if i < |image| then image[i] else 0xFF
  {}

  lemma ErasedBehind(cells: Cells, p: Partition, held: bytes, n: nat)
    requires |held| + n <= OTA_SIZE && Region(cells, p) == Padded(held)
    ensures Erased(cells, p.Offset() + |held|, p.Offset() + |held| + n)
  {
    var base, at := p.Offset(), p.Offset() + |held|;
    forall i | at <= i < at + n
      ensures cells[i] == 0xFF
    {
      RegionAt(cells, p, i - base);
      PaddedAt(held, i - base);
    }
  }

  lemma ExtendedAt(cells: Cells, p: Partition, held: bytes, data: bytes, r: Cells, i: nat)
    requires |held| + |data| <= OTA_SIZE && i < OTA_SIZE && Region(cells, p) == Padded(held)
    requires var at := p.Offset() + i;
             r[at] == if |held| <= i < |held| + |data| then data[i - |held|] else cells[at]
    ensures Region(r, p)[i] == Padded(held + data)[i]
  {
    RegionAt(r, p, i);
    RegionAt(cells, p, i);
    PaddedAt(held, i);
    PaddedAt(held + data, i);
  }

  lemma ProgrammedAt(cells: Cells, p: Partition, held: bytes, data: bytes, i: nat)
    requires |held| + |data| <= OTA_SIZE && i < OTA_SIZE && Region(cells, p) == Padded(held)
    ensures Region(Apply(cells, Program(p.Offset() + |held|, data)), p)[i] == Padded(held + data)[i]
  {
    var at := p.Offset() + |held|;
    ErasedBehind(cells, p, held, |data|);
    ProgramErased(cells, at, data);
    var r := Apply(cells, Program(at, data));
    if |held| <= i < |held| + |data| {
      assert r[at + (i - |held|)] == data[i - |held|];
    }
    ExtendedAt(cells, p, held, data, r, i);
  }

  /** Programming words into the erased rest of a region extends what it holds. */
  lemma ProgramExtends(cells: Cells, p: Partition, held: bytes, data: bytes)
    requires |held| + |data| <= OTA_SIZE && Region(cells, p) == Padded(held)
    ensures var op := Program(p.Offset() + |held|, data);
            && Erased(cells, op.From(), op.To())
            && Region(Apply(cells, op), p) == Padded(held + data)
  {
    ErasedBehind(cells, p, held, |data|);
    forall i: nat | i < OTA_SIZE
      ensures Region(Apply(cells, Program(p.Offset() + |held|, data)), p)[i] == Padded(held + data)[i]
    {
      ProgrammedAt(cells, p, held, data, i);
    }
  }

  predicate Accepts(s: Updater, chunk: bytes) {
    chunk == [] || ((s.headerSeen || chunk[0] == IMAGE_MAGIC) && s.writeOffset + |chunk| <= OTA_SIZE)
  }

  /** Operations that only ever program cells still erased: no word is programmed twice. */
  ghost predicate ProgramsErased(cells: Cells, ops: seq<Op>) {
    forall op :: op in ops ==> op.Program? && Erased(cells, op.From(), op.To())
  }

  /** The arithmetic of the pending bytes: what is in flash plus what is pending is the image. */
  lemma PendingMoves(image: bytes, offset: nat, chunk: bytes)
    requires offset <= |image| < offset + WORD_SIZE && offset % WORD_SIZE == 0
    requires offset <= OTA_SIZE && offset + |chunk| <= OTA_SIZE
    ensures var data := image[offset..] + chunk;
            var n := WholeWords(|data|);
            && data[n..] == (image + chunk)[offset + n..]
            && image[..offset] + data[..n] == (image + chunk)[..offset + n]
            && offset + n <= OTA_SIZE && (offset + n) % WORD_SIZE == 0
  {}

  /** `ProgramExtends` for a plan of that one operation. */
  lemma OneProgram(cells: Cells, p: Partition, held: bytes, data: bytes)
    requires |held| + |data| <= OTA_SIZE && Region(cells, p) == Padded(held)
    ensures var ops := [Program(p.Offset() + |held|, data)];
            && Region(Run(cells, ops), p) == Padded(held + data)
            && ProgramsErased(cells, ops)
            && AllWithin(ops, p.Offset(), p.Offset() + OTA_SIZE)
  {
    ProgramExtends(cells, p, held, data);
    RunOne(cells, Program(p.Offset() + |held|, data));
  }

  lemma WordsMove(cells: Cells, p: Partition, image: bytes, offset: nat, chunk: bytes)
    requires offset <= |image| < offset + WORD_SIZE && offset % WORD_SIZE == 0
    requires offset <= OTA_SIZE && offset + |chunk| <= OTA_SIZE
    requires Region(cells, p) == Padded(image[..offset])
    ensures var data := image[offset..] + chunk;
            var n := WholeWords(|data|);
            var ops := if n > 0 then [Program(p.Offset() + offset, data[..n])] else [];
            && offset + n <= OTA_SIZE
            && Region(Run(cells, ops), p) == Padded((image + chunk)[..offset + n])
            && ProgramsErased(cells, ops)
            && AllWithin(ops, p.Offset(), p.Offset() + OTA_SIZE)
  {
    var held, data := image[..offset], image[offset..] + chunk;
    var n := WholeWords(|data|);
    PendingMoves(image, offset, chunk);
    if n == 0 {
      assert held + data[..n] == held;
    } else {
      OneProgram(cells, p, held, data[..n]);
    }
  }

  lemma WriteMoves(s: Updater, cells: Cells, image: bytes, chunk: bytes)
    requires Streaming(s, cells, image) && s.writeOffset + |chunk| <= OTA_SIZE
    ensures var data := s.pending + chunk;
            var n := WholeWords(|data|);
            var ops := if n > 0 then [Program(s.Target().Offset() + s.writeOffset, data[..n])] else [];
            && s.writeOffset + n <= OTA_SIZE
            && Region(Run(cells, ops), s.Target()) == Padded((image + chunk)[..s.writeOffset + n])
            && ProgramsErased(cells, ops)
            && AllWithin(ops, s.Target().Offset(), s.Target().Offset() + OTA_SIZE)
  {
    WordsMove(cells, s.Target(), image, s.writeOffset, chunk);
  }

  /** With the flash moved on, the updater that `write` leaves is streaming the longer image. */
  lemma StreamsOn(s: Updater, cells: Cells, moved: Cells, image: bytes, chunk: bytes)
    requires Streaming(s, cells, image) && chunk != [] && Accepts(s, chunk)
    requires var n := WholeWords(|s.pending + chunk|);
             s.writeOffset + n <= OTA_SIZE
             && Region(moved, s.Target()) == Padded((image + chunk)[..s.writeOffset + n])
    ensures Streaming(WriteCall(s, chunk).state, moved, image + chunk)
  {
    PendingMoves(image, s.writeOffset, chunk);
    CrcMpeg.ChunksLeaveNoTrace(0xFFFF_FFFF, image, chunk);
  }

  lemma WriteStreams(s: Updater, cells: Cells, image: bytes, chunk: bytes)
    requires Streaming(s, cells, image) && Accepts(s, chunk)
    ensures var o := WriteCall(s, chunk);
            && o.result == Ok(())
            && Streaming(o.state, Run(cells, o.ops), image + chunk)
            && ProgramsErased(cells, o.ops)
            && AllWithin(o.ops, s.Target().Offset(), s.Target().Offset() + OTA_SIZE)
  {
    if chunk == [] {
      assert image + chunk == image;
    } else {
      WriteMoves(s, cells, image, chunk);
      StreamsOn(s, cells, Run(cells, WriteCall(s, chunk).ops), image, chunk);
    }
  }

  /** A call is rejected exactly when it is not accepted, and then only the header flag moves. */
  lemma WriteRejects(s: Updater, cells: Cells, image: bytes, chunk: bytes)
    requires Streaming(s, cells, image) && !Accepts(s, chunk)
    ensures var o := WriteCall(s, chunk);
            && o.result.Err? && o.ops == []
            && Streaming(o.state, cells, image)
            && o.state.(headerSeen := s.headerSeen) == s
  {}

  /** Flushing the padded last word completes the region, provided it still fits. */
  lemma FlushCompletes(s: Updater, cells: Cells, image: bytes)
    requires Streaming(s, cells, image) && |image| <= OTA_SIZE
    ensures Region(Run(cells, FlushOps(s)), s.Target()) == Padded(image)
    ensures ProgramsErased(cells, FlushOps(s))
    ensures AllWithin(FlushOps(s), s.Target().Offset(), s.Target().Offset() + OTA_SIZE)
  {
    if s.pending == [] {
      assert image[..s.writeOffset] == image;
    } else {
      var word := PadWord(s.pending);
      OneProgram(cells, s.Target(), image[..s.writeOffset], word);
      PaddedLast(image, s.writeOffset);
    }
  }

  lemma PaddedLast(image: bytes, offset: nat)
    requires offset < |image| <= OTA_SIZE && |image| < offset + WORD_SIZE <= OTA_SIZE
    ensures Padded(image[..offset] + PadWord(image[offset..])) == Padded(image)
  {}

  // ---- Every chunking of an image -----------------------------------------------------

  function Flatten(chunks: seq<bytes>): bytes {
    if chunks == [] then [] else Flatten(chunks[..|chunks| - 1]) + chunks[|chunks| - 1]
  }

  /** After some writes: the updater, the bytes accepted, the operations, and the first error. */
  datatype Written = Written(state: Updater, accepted: bytes, ops: seq<Op>, result: Result<(), OtaError>)

  /** Writing all chunks, going on after a rejection. */
  function WriteAll(s: Updater, chunks: seq<bytes>): Written {
    if chunks == [] then
      Written(s, [], [], Ok(()))
    else
      var before, chunk := WriteAll(s, chunks[..|chunks| - 1]), chunks[|chunks| - 1];
      var o := WriteCall(before.state, chunk);
      Written(
        o.state,
        if o.result.Ok? then before.accepted + chunk else before.accepted,
        before.ops + o.ops,
        if before.result.Err? then before.result else o.result)
  }

  /** Whole words, one behind the other: no cell is programmed by two of the operations. */
  ghost predicate OnceEach(ops: seq<Op>, lo: nat, hi: nat) {
    && (forall i :: 0 <= i < |ops| ==>
          && ops[i].Program? && ops[i].From() % WORD_SIZE == 0 && ops[i].To() % WORD_SIZE == 0
          && lo <= ops[i].From() && ops[i].To() <= hi)
    && (forall i, j :: 0 <= i < j < |ops| ==> ops[i].To() <= ops[j].From())
  }

  lemma AcceptsPart(s: Updater, cells: Cells, image: bytes, before: bytes, chunk: bytes, rest: bytes)
    requires image == before + chunk + rest && |image| <= OTA_SIZE
    requires image != [] ==> image[0] == IMAGE_MAGIC
    requires Streaming(s, cells, before) && (before != [] ==> s.headerSeen)
    ensures Accepts(s, chunk)
  {
    if chunk != [] && before == [] {
      assert image[0] == chunk[0];
    }
  }

  /**
   * However an image is cut into chunks, empty ones included, every write succeeds and flash
   * and CRC are those of the image written in one piece.
   */
  lemma {:induction false} AnyChunking(s: Updater, cells: Cells, chunks: seq<bytes>, image: bytes, rest: bytes)
    requires Streaming(s, cells, []) && !s.headerSeen
    requires image == Flatten(chunks) + rest && |image| <= OTA_SIZE
    requires image != [] ==> image[0] == IMAGE_MAGIC
    ensures var o := WriteAll(s, chunks);
            && o.result == Ok(())
            && o.accepted == Flatten(chunks)
            && Streaming(o.state, Run(cells, o.ops), Flatten(chunks))
            && o.state.running == s.running
            && (Flatten(chunks) != [] ==> o.state.headerSeen)
            && AllWithin(o.ops, s.Target().Offset(), s.Target().Offset() + OTA_SIZE)
  {
    if chunks != [] {
      var init, last := chunks[..|chunks| - 1], chunks[|chunks| - 1];
      assert image == Flatten(init) + (last + rest);
      AnyChunking(s, cells, init, image, last + rest);
      var b := WriteAll(s, init);
      var mid := Run(cells, b.ops);
      assert image == Flatten(init) + last + rest;
      AcceptsPart(b.state, mid, image, Flatten(init), last, rest);
      WriteStreams(b.state, mid, Flatten(init), last);
      RunConcat(cells, b.ops, WriteCall(b.state, last).ops);
    }
  }

  lemma OnceEachAppend(a: seq<Op>, b: seq<Op>, lo: nat, mid: nat, hi: nat)
    requires lo <= mid <= hi && |b| <= 1
    requires OnceEach(a, lo, mid)
    requires b == [] || (b[0].Program? && b[0].From() % WORD_SIZE == 0 && b[0].To() % WORD_SIZE == 0
                         && mid <= b[0].From() && b[0].To() <= hi)
    ensures OnceEach(a + b, lo, hi)
  {}

  lemma OneWrite(s: Updater, chunk: bytes)
    requires s.writeOffset % WORD_SIZE == 0
    ensures var o, base := WriteCall(s, chunk), s.Target().Offset();
            && o.state.running == s.running
            && o.state.writeOffset % WORD_SIZE == 0 && s.writeOffset <= o.state.writeOffset && |o.ops| <= 1
            && (o.ops != [] ==> && o.ops[0].Program? && o.ops[0].From() == base + s.writeOffset
                                && o.ops[0].To() == base + o.state.writeOffset)
  {}

  /** Over all writes of a session, rejected ones among them, no word is programmed twice. */
  lemma {:induction false} WritesOnceEach(s: Updater, chunks: seq<bytes>)
    requires s.writeOffset % WORD_SIZE == 0
    ensures var o := WriteAll(s, chunks);
            && o.state.running == s.running
            && o.state.writeOffset % WORD_SIZE == 0
            && OnceEach(o.ops, s.Target().Offset(), s.Target().Offset() + o.state.writeOffset)
  {
    if chunks != [] {
      var n := |chunks| - 1;
      WritesOnceEach(s, chunks[..n]);
      WriteOnceMore(s, WriteAll(s, chunks[..n]), chunks[n]);
    }
  }

  lemma WriteOnceMore(s: Updater, b: Written, chunk: bytes)
    requires b.state.running == s.running && b.state.writeOffset % WORD_SIZE == 0
    requires OnceEach(b.ops, s.Target().Offset(), s.Target().Offset() + b.state.writeOffset)
    ensures var o := WriteCall(b.state, chunk);
            && o.state.running == s.running && o.state.writeOffset % WORD_SIZE == 0
            && OnceEach(b.ops + o.ops, s.Target().Offset(), s.Target().Offset() + o.state.writeOffset)
  {
    var o, base := WriteCall(b.state, chunk), s.Target().Offset();
    OneWrite(b.state, chunk);
    OnceEachAppend(b.ops, o.ops, base, base + b.state.writeOffset, base + o.state.writeOffset);
  }

  lemma FlushOnceEach(s: Updater, cells: Cells, image: bytes, ops: seq<Op>)
    requires Streaming(s, cells, image) && |image| <= OTA_SIZE
    requires OnceEach(ops, s.Target().Offset(), s.Target().Offset() + s.writeOffset)
    ensures OnceEach(ops + FlushOps(s), s.Target().Offset(), s.Target().Offset() + OTA_SIZE)
  {
    var base := s.Target().Offset();
    OnceEachAppend(ops, FlushOps(s), base, base + s.writeOffset, base + OTA_SIZE);
  }

  /** What is programmed after the erase: all writes, then the padded last word. */
  function Programs(s: Updater, chunks: seq<bytes>): seq<Op> {
    var written := WriteAll(s, chunks);
    if |written.state.pending| < WORD_SIZE then written.ops + FlushOps(written.state) else written.ops
  }

  /**
   * A whole update: whatever the chunks, every call succeeds, the target holds the image and
   * erased bytes behind it, the running CRC is the image's, and since the erase every word has
   * been programmed at most once.
   */
  lemma ImageSession(s: Updater, cells: Cells, chunks: seq<bytes>)
    requires !s.inProgress
    requires var image := Flatten(chunks); image != [] && image[0] == IMAGE_MAGIC && |image| <= OTA_SIZE
    ensures var image, begun := Flatten(chunks), BeginCall(s);
            var written := WriteAll(begun.state, chunks);
            && begun.result == written.result == Ok(())
            && written.state.crc == CrcMpeg.Crc32(image) && written.state.bytesWritten == |image|
            && Region(Run(Run(cells, begun.ops), Programs(begun.state, chunks)), s.Target()) == Padded(image)
            && OnceEach(Programs(begun.state, chunks), s.Target().Offset(), s.Target().Offset() + OTA_SIZE)
  {
    var image, begun := Flatten(chunks), BeginCall(s);
    var erased := Run(cells, begun.ops);
    BeginStreams(s, cells);
    assert image + [] == image;
    AnyChunking(begun.state, erased, chunks, image, []);
    var written := WriteAll(begun.state, chunks);
    WritesOnceEach(begun.state, chunks);
    FlushCompletes(written.state, Run(erased, written.ops), image);
    FlushOnceEach(written.state, Run(erased, written.ops), image, written.ops);
    RunConcat(erased, written.ops, FlushOps(written.state));
  }
}
