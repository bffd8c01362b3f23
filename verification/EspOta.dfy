/** The updater as the firmware runs it: fields updated in place, a flash chip that may fail. */
module EspOta {
  import opened Bytes
  import opened Flash
  import opened Otadata
  import opened OtaUpdater
  import CrcMpeg

  class EspOtaFlash {
    const flash: Chip
    const running: Partition
    const target: Partition
    var writeOffset: nat
    var bytesWritten: nat
    var inProgress: bool
    var firmwareCrc: bv32
    var firstChunkValidated: bool
    const pendingBytes: array<u8>
    var pendingLen: nat

    ghost predicate Valid()
      reads this, pendingBytes, flash
    {
      && Fits(flash)
      && target == running.Other()
      && pendingBytes.Length == 3 && pendingLen <= 3
    }

    /** Words can be programmed at the write offset; a `finalize` that failed may leave it between two. */
    predicate Aligned()
      reads this
    {
      writeOffset % WORD_SIZE == 0
    }

    ghost function Model(): Updater
      reads this, pendingBytes
      requires pendingLen <= pendingBytes.Length
    {
      Updater(running, writeOffset, bytesWritten, inProgress, firmwareCrc, firstChunkValidated,
              pendingBytes[..pendingLen])
    }

    constructor (flash: Chip, running: Partition)
      requires Fits(flash)
      ensures Valid() && fresh(pendingBytes) && this.flash == flash && Model() == Fresh(running)
    {
      this.flash := flash;
      this.running := running;
      target := match running case Ota0 => Ota1 case Ota1 => Ota0;
      writeOffset := 0;
      bytesWritten := 0;
      inProgress := false;
      firmwareCrc := 0xFFFF_FFFF;
      firstChunkValidated := false;
      pendingBytes := new u8[3](_ => 0xFF);
      pendingLen := 0;
      new;
      assert pendingBytes[..0] == [];
    }

    /** Erase the first sectors of the target, one by one. */
    method EraseRange(sectors: nat) returns (r: Result<(), OtaError>)
      requires Fits(flash) && sectors <= SECTORS
      modifies flash
      ensures Follows(old(flash.cells), old(flash.ops), flash.cells, flash.ops, EraseOps(target, sectors))
      ensures r.Ok? ==> flash.ops == old(flash.ops) + EraseOps(target, sectors)
      ensures flash.reliable ==> r.Ok?
    {
      ghost var c0, l0 := flash.cells, flash.ops;
      assert l0 + EraseOps(target, 0) == l0;
      for k := 0 to sectors
        invariant |flash.cells| == |c0|
        invariant flash.ops == l0 + EraseOps(target, k)
        invariant flash.cells == Run(c0, EraseOps(target, k))
      {
        var ok := EraseSector(k);
        if !ok {
          StoppedErasing(c0, l0, target, k, sectors);
          return Err(FlashError(target.Offset() + k * SECTOR_SIZE));
        }
        ErasedNext(c0, l0, target, k);
      }
      StoppedErasing(c0, l0, target, sectors, sectors);
      r := Ok(());
    }

    method EraseSector(k: nat) returns (ok: bool)
      requires Fits(flash) && k < SECTORS
      modifies flash
      ensures ok ==> flash.cells == Apply(old(flash.cells), SectorErase(target, k))
                     && flash.ops == old(flash.ops) + [SectorErase(target, k)]
      ensures !ok ==> flash.cells == old(flash.cells) && flash.ops == old(flash.ops)
      ensures flash.reliable ==> ok
    {
      SectorBounds(target, k);
      var at := target.Offset() + k * SECTOR_SIZE;
      ok := flash.Erase(at, at + SECTOR_SIZE);
    }

    method Begin() returns (r: Result<(), OtaError>)
      requires Valid()
      modifies this, flash
      ensures Valid()
      ensures var o := BeginCall(old(Model()));
              && Follows(old(flash.cells), old(flash.ops), flash.cells, flash.ops, o.ops)
              && (o.result.Err? ==> r == o.result)
              && (r.Ok? ==> flash.ops == old(flash.ops) + o.ops)
              && Model() == (if r.Ok? then o.state else old(Model()))
              && (flash.reliable ==> r == o.result)
    {
      FollowsNothing(flash.cells, flash.ops, BeginCall(Model()).ops);
      if inProgress {
        return Err(BeginFailed);
      }
      r := EraseRange(SECTORS);
      if r.Err? {
        return;
      }
      writeOffset := 0;
      bytesWritten := 0;
      inProgress := true;
      firmwareCrc := 0xFFFF_FFFF;
      firstChunkValidated := false;
      pendingLen := 0;
      assert pendingBytes[..0] == [];
      r := Ok(());
    }

    /** Program data, padded with 0xFF to whole words. */
    method AlignedWrite(offset: nat, data: bytes) returns (ok: bool)
      requires Fits(flash) && 0 < |data|
      modifies flash
      ensures var padded := WordPadded(data);
              && (ok ==> flash.ops == old(flash.ops) + [Program(target.Offset() + offset, padded)]
                         && flash.cells == Apply(old(flash.cells), Program(target.Offset() + offset, padded)))
              && (!ok ==> flash.ops == old(flash.ops) && flash.cells == old(flash.cells))
              && (flash.reliable && offset % WORD_SIZE == 0 && target.Offset() + offset + |padded| <= |old(flash.cells)|
                  ==> ok)
    {
      var pad := (WORD_SIZE - |data| % WORD_SIZE) % WORD_SIZE;
      var padded := data + Fill(pad, 0xFF);
      ok := flash.Write(target.Offset() + offset, padded);
    }

    /** Copy the trailing partial word into the pending buffer. */
    method KeepPending(data: bytes)
      requires pendingBytes.Length == 3 && |data| <= 3
      modifies this`pendingLen, pendingBytes
      ensures pendingLen == |data| && pendingBytes[..pendingLen] == data
    {
      for i := 0 to |data|
        invariant forall k :: 0 <= k < i ==> pendingBytes[k] == data[k]
      {
        pendingBytes[i] := data[i];
      }
      pendingLen := |data|;
    }

    /** Program the whole words of `data` and keep the rest pending. */
    method StoreWords(data: bytes) returns (r: Result<(), OtaError>)
      requires Valid()
      modifies this`writeOffset, this`pendingLen, pendingBytes, flash
      ensures Valid()
      ensures var n := WholeWords(|data|);
              var ops := if n > 0 then [Program(target.Offset() + old(writeOffset), data[..n])] else [];
              && (r.Ok? ==> r == Ok(()) && flash.ops == old(flash.ops) + ops && flash.cells == Run(old(flash.cells), ops)
                            && writeOffset == old(writeOffset) + n && pendingBytes[..pendingLen] == data[n..])
              && (r.Err? ==> flash.ops == old(flash.ops) && flash.cells == old(flash.cells)
                             && writeOffset == old(writeOffset) && pendingLen == 0)
              && (flash.reliable && old(Aligned()) && old(writeOffset) + n <= OTA_SIZE ==> r.Ok?)
    {
      pendingLen := 0;
      var wholeWords := |data| / WORD_SIZE;
      var alignedEnd := wholeWords * WORD_SIZE;
      if wholeWords > 0 {
        WholeIsPadded(data[..alignedEnd]);
        var ok := AlignedWrite(writeOffset, data[..alignedEnd]);
        if !ok {
          return Err(FlashError(target.Offset() + writeOffset));
        }
        RunOne(old(flash.cells), Program(target.Offset() + writeOffset, data[..alignedEnd]));
        writeOffset := writeOffset + alignedEnd;
      }
      KeepPending(data[alignedEnd..]);
      r := Ok(());
    }

    method Write(chunk: bytes) returns (r: Result<(), OtaError>)
      requires Valid()
      modifies this, pendingBytes, flash
      ensures Valid()
      ensures var o := WriteCall(old(Model()), chunk);
              && Carried(o, old(flash.cells), old(flash.ops), flash.cells, flash.ops, r, Model())
              && (r.Err? && o.result.Ok? ==> flash.ops == old(flash.ops) && Model() == WriteFaulted(old(Model()), chunk))
              && (flash.reliable && old(Aligned()) ==> r == o.result)
    {
      ghost var s := Model();
      FollowsNothing(flash.cells, flash.ops, []);
      if !inProgress {
        return Err(WriteFailed(0));
      }
      if |chunk| == 0 {
        return Ok(());
      }
      if !firstChunkValidated {
        if chunk[0] != 0xE9 {
          return Err(InvalidImageHeader);
        }
        firstChunkValidated := true;
      }
      if writeOffset + |chunk| > OTA_SIZE {
        return Err(WriteFailed(bytesWritten));
      }
      HeaderChecked(s, chunk);
      assert Model() == s.(headerSeen := true);
      r := Accept(chunk);
    }

    /** Count and store a chunk that has passed all checks. */
    method Accept(chunk: bytes) returns (r: Result<(), OtaError>)
      requires Valid() && inProgress && chunk != [] && Accepts(Model(), chunk) && firstChunkValidated
      modifies this, pendingBytes, flash
      ensures Valid()
      ensures && Carried(WriteCall(old(Model()), chunk), old(flash.cells), old(flash.ops), flash.cells, flash.ops, r, Model())
              && (r.Err? ==> flash.ops == old(flash.ops) && Model() == WriteFaulted(old(Model()), chunk))
              && (flash.reliable && old(Aligned()) ==> r == Ok(()))
    {
      ghost var c0: Cells, l0, s := flash.cells, flash.ops, Model();
      firmwareCrc := CrcMpeg.Crc32Update(firmwareCrc, chunk);
      var data := pendingBytes[..pendingLen] + chunk;
      r := StoreWords(data);
      if r.Err? {
        assert pendingBytes[..0] == [];
        FollowsNothing(c0, l0, WriteCall(s, chunk).ops);
        return;
      }
      StoringWrites(s, chunk, c0, l0, flash.cells, flash.ops, writeOffset, pendingBytes[..pendingLen]);
      bytesWritten := bytesWritten + |chunk|;
    }

    /** Flush the padded last word, if there is one. */
    method FlushPending() returns (r: Result<(), OtaError>)
      requires Valid()
      modifies this`writeOffset, this`pendingLen, flash
      ensures Valid()
      ensures && Flushed(old(Model()), old(flash.cells), old(flash.ops), flash.cells, flash.ops, r.Ok?, Model())
              && (flash.reliable && old(Aligned()) && old(writeOffset) + old(pendingLen) <= OTA_SIZE ==> r.Ok?)
    {
      ghost var c0: Cells, l0, s := flash.cells, flash.ops, Model();
      if pendingLen == 0 {
        NothingFlushed(s, c0, l0);
        return Ok(());
      }
      WordFits(target, writeOffset, pendingLen);
      OneWord(pendingBytes[..pendingLen]);
      var ok := AlignedWrite(writeOffset, pendingBytes[..pendingLen]);
      if !ok {
        return Err(FlashError(target.Offset() + writeOffset));
      }
      WordFlushed(s, c0, l0, flash.cells, flash.ops);
      writeOffset := writeOffset + pendingLen;
      pendingLen := 0;
      assert pendingBytes[..0] == [];
      r := Ok(());
    }

    /** Flush what is pending, then select the target. */
    method FlushAndSwitch() returns (r: Result<(), OtaError>)
      requires Valid() && CanFinalize(Model(), flash.cells)
      modifies this`writeOffset, this`pendingLen, flash
      ensures Valid()
      ensures && Switched(old(Model()), old(flash.cells), old(flash.ops), flash.cells, flash.ops, r.Ok?, Model())
              && (flash.reliable && old(Aligned()) && old(writeOffset) + old(pendingLen) <= OTA_SIZE ==> r.Ok?)
    {
      ghost var c0: Cells, l0, s := flash.cells, flash.ops, Model();
      r := FlushPending();
      ghost var c1: Cells, l1 := flash.cells, flash.ops;
      if r.Err? {
        NotSwitched(s, c0, l0);
        return;
      }
      r := SetBootPartition(flash, target);
      FlushedThenSwitched(s, c0, l0, c1, l1, flash.cells, flash.ops, r.Ok?, Model());
    }

    method Finalize() returns (r: Result<(), OtaError>)
      requires Valid() && CanFinalize(Model(), flash.cells)
      modifies this, flash
      ensures Valid()
      ensures var o := FinalizeCall(old(Model()), old(flash.cells));
              && Carried(o, old(flash.cells), old(flash.ops), flash.cells, flash.ops, r, Model())
              && (r.Err? && o.result.Ok? ==> Model() == FinalizeFaulted(old(Model()), flash.ops != old(flash.ops)))
              && (flash.reliable && old(Aligned()) && old(writeOffset + pendingLen) <= OTA_SIZE ==> r == o.result)
    {
      ghost var c0: Cells, l0, s := flash.cells, flash.ops, Model();
      FollowsNothing(c0, l0, []);
      if !inProgress {
        return Err(FinalizeFailed);
      }
      if bytesWritten == 0 {
        inProgress := false;
        return Err(FinalizeFailed);
      }
      r := FlushAndSwitch();
      SwitchedFinalizes(s, c0, l0, flash.cells, flash.ops, r, Model());
      if r.Err? {
        return;
      }
      inProgress := false;
      r := Ok(());
    }

    method MarkValid() returns (r: Result<(), OtaError>)
      requires Valid() && MaxSeq(flash.cells) <= MAX_SEQ
      modifies flash
      ensures Valid() && Model() == old(Model())
      ensures Follows(old(flash.cells), old(flash.ops), flash.cells, flash.ops, MarkValidOps(running, old(flash.cells)))
      ensures r.Ok? ==> flash.ops == old(flash.ops) + MarkValidOps(running, old(flash.cells))
      ensures flash.reliable ==> r.Ok?
    {
      FollowsNothing(flash.cells, flash.ops, MarkValidOps(running, flash.cells));
      var slots := ReadSlots(flash);
      if slots.Err? {
        return Err(slots.error);
      }
      var repair := RepairNeeded(slots.value);
      if !repair {
        return Ok(());
      }
      r := SetBootPartition(flash, running);
    }

    method RepairNeeded(v: Slots) returns (needed: bool)
      ensures needed == NeedsRepair(running, v)
    {
      if !v.valid0 && !v.valid1 {
        return false;
      }
      var runningValid := v.ValidAt(running);
      var runningSeq := if runningValid then v.SeqAt(running) else 0;
      var runningCorrect := runningSeq > 0 && (runningSeq - 1) % 2 == running.Index();
      var otherValid := v.ValidAt(running.Other());
      needed := !(runningCorrect && otherValid);
    }

    method NeedsValidationNow() returns (needed: bool)
      requires Valid()
      ensures flash.reliable ==> needed == NeedsValidation(running, View(flash.cells))
      ensures NeedsValidation(running, View(flash.cells)) ==> needed
    {
      var slots := ReadSlots(flash);
      if slots.Err? {
        return true;
      }
      needed := ValidationNeeded(slots.value);
    }

    method ValidationNeeded(v: Slots) returns (needed: bool)
      ensures needed == NeedsValidation(running, v)
    {
      if !v.valid0 && !v.valid1 {
        return false;
      }
      if !v.ValidAt(running) {
        return true;
      }
      var n := v.SeqAt(running);
      if n == 0 {
        return true;
      }
      needed := (n - 1) % 2 != running.Index();
    }

    method RollbackAndReboot() returns (r: Result<(), OtaError>)
      requires Valid() && MaxSeq(flash.cells) <= MAX_SEQ
      modifies flash
      ensures Valid() && Model() == old(Model())
      ensures Follows(old(flash.cells), old(flash.ops), flash.cells, flash.ops, SetBootOps(old(flash.cells), running))
      ensures r.Ok? ==> flash.ops == old(flash.ops) + SetBootOps(old(flash.cells), running)
      ensures flash.reliable ==> r.Ok?
    {
      r := SetBootPartition(flash, running);
    }

    /** Succeeds exactly on the CRC of all the bytes accepted. */
    method VerifyHash(expected: bv32, ghost image: bytes) returns (r: Result<(), OtaError>)
      requires Valid() && firmwareCrc == CrcMpeg.Crc32(image)
      ensures r == if CrcMpeg.Crc32(image) == expected then Ok(()) else Err(HashMismatch(expected, CrcMpeg.Crc32(image)))
    {
      if firmwareCrc != expected {
        return Err(HashMismatch(expected, firmwareCrc));
      }
      r := Ok(());
    }
  }

  /** Data padded with 0xFF to whole words. */
  function WordPadded(data: bytes): (r: bytes)
    ensures |r| % WORD_SIZE == 0
  {
    data + Fill((WORD_SIZE - |data| % WORD_SIZE) % WORD_SIZE, 0xFF)
  }

  lemma WholeIsPadded(data: bytes)
    requires |data| % WORD_SIZE == 0
    ensures WordPadded(data) == data
  {
    assert data + Fill(0, 0xFF) == data;
  }

  /** An image that fits still does when its last word is padded. */
  lemma WordFits(p: Partition, offset: nat, pending: nat)
    requires 0 < pending
    ensures offset % WORD_SIZE == 0 && offset + pending <= OTA_SIZE ==> p.Offset() + offset + WORD_SIZE <= LAYOUT_END
  {}

  lemma OneWord(data: bytes)
    requires 0 < |data| < WORD_SIZE
    ensures |WordPadded(data)| == WORD_SIZE
  {}

  /** The updater with nothing pending any more. */
  function Drained(s: Updater): Updater {
    s.(writeOffset := s.writeOffset + |s.pending|, pending := [])
  }

  /** The effect of flushing: all of it, or nothing on a fault. */
  ghost predicate Flushed(s: Updater, c0: Cells, l0: seq<Op>, c1: Cells, l1: seq<Op>, ok: bool, next: Updater)
    requires |s.pending| < WORD_SIZE
  {
    if ok then l1 == l0 + FlushOps(s) && c1 == Run(c0, FlushOps(s)) && next == Drained(s)
    else l1 == l0 && c1 == c0 && next == s
  }

  lemma NothingFlushed(s: Updater, c0: Cells, l0: seq<Op>)
    requires s.pending == []
    ensures Flushed(s, c0, l0, c0, l0, true, s)
  {
    assert l0 + FlushOps(s) == l0;
  }

  /** Flushing is one program operation, with the padding as `AlignedWrite` computes it. */
  lemma WordFlushed(s: Updater, c0: Cells, l0: seq<Op>, c1: Cells, l1: seq<Op>)
    requires 0 < |s.pending| < WORD_SIZE
    requires var op := Program(s.Target().Offset() + s.writeOffset, WordPadded(s.pending));
             l1 == l0 + [op] && c1 == Apply(c0, op)
    ensures Flushed(s, c0, l0, c1, l1, true, Drained(s))
  {
    RunOne(c0, FlushOps(s)[0]);
  }

  /** The effect of flushing and then selecting the target: all of it, or part of it on a fault. */
  ghost predicate Switched(s: Updater, c0: Cells, l0: seq<Op>, c2: Cells, l2: seq<Op>, ok: bool, next: Updater)
    requires CanFinalize(s, c0)
  {
    var ops := FlushOps(s) + SetBootOps(Run(c0, FlushOps(s)), s.Target());
    && Follows(c0, l0, c2, l2, ops)
    && (ok ==> l2 == l0 + ops)
    && next == FinalizeFaulted(s, ok || l2 != l0)
  }

  /** After a flash fault in `write`: the chunk is in the CRC already, and what was pending is lost. */
  function WriteFaulted(s: Updater, chunk: bytes): Updater {
    s.(headerSeen := true, crc := CrcMpeg.Update(s.crc, chunk), pending := [])
  }

  /** After a flash fault in `finalize`: still in progress, and flushed if any operation was carried out. */
  function FinalizeFaulted(s: Updater, moved: bool): Updater {
    if moved then Drained(s) else s
  }

  lemma NotSwitched(s: Updater, c: Cells, l: seq<Op>)
    requires CanFinalize(s, c)
    ensures Switched(s, c, l, c, l, false, s)
  {
    FollowsNothing(c, l, FlushOps(s) + SetBootOps(Run(c, FlushOps(s)), s.Target()));
  }

  lemma FlushedThenSwitched(s: Updater, c0: Cells, l0: seq<Op>, c1: Cells, l1: seq<Op>, c2: Cells, l2: seq<Op>,
                            ok: bool, next: Updater)
    requires CanFinalize(s, c0) && Flushed(s, c0, l0, c1, l1, true, next)
    requires Follows(c1, l1, c2, l2, SetBootOps(c1, s.Target()))
    requires ok ==> l2 == l1 + SetBootOps(c1, s.Target())
    ensures Switched(s, c0, l0, c2, l2, ok, next)
  {
    FollowsConcat(c0, l0, c1, l1, c2, l2, FlushOps(s), SetBootOps(c1, s.Target()));
  }

  /** A call that fails by itself does so, and one that gets through has been carried out in full. */
  ghost predicate Carried(o: Outcome, c0: bytes, l0: seq<Op>, c1: bytes, l1: seq<Op>, r: Result<(), OtaError>, next: Updater) {
    && Follows(c0, l0, c1, l1, o.ops)
    && (o.result.Err? ==> r == o.result && next == o.state)
    && (r.Ok? ==> l1 == l0 + o.ops && next == o.state)
  }

  /** Storing the words of an accepted chunk, and counting it, is all of the write. */
  lemma StoringWrites(s: Updater, chunk: bytes, c0: Cells, l0: seq<Op>, c1: bytes, l1: seq<Op>, offset: nat, pending: bytes)
    requires s.inProgress && s.headerSeen && chunk != [] && Accepts(s, chunk)
    requires var data := s.pending + chunk;
             var n := WholeWords(|data|);
             var ops := if n > 0 then [Program(s.Target().Offset() + s.writeOffset, data[..n])] else [];
             l1 == l0 + ops && c1 == Run(c0, ops) && offset == s.writeOffset + n && pending == data[n..]
    ensures Carried(WriteCall(s, chunk), c0, l0, c1, l1, Ok(()),
                    s.(crc := CrcMpeg.Update(s.crc, chunk), writeOffset := offset, pending := pending,
                       bytesWritten := s.bytesWritten + |chunk|))
  {
    FollowsPrefix(c0, l0, WriteCall(s, chunk).ops, WriteCall(s, chunk).ops);
  }

  lemma SwitchedFinalizes(s: Updater, c0: Cells, l0: seq<Op>, c2: Cells, l2: seq<Op>, r: Result<(), OtaError>, next: Updater)
    requires CanFinalize(s, c0) && s.inProgress && s.bytesWritten > 0
    requires Switched(s, c0, l0, c2, l2, r.Ok?, next)
    ensures Carried(FinalizeCall(s, c0), c0, l0, c2, l2, r, next.(inProgress := false))
  {}

  /** Once the header is known to be right, the flag makes no difference to a write. */
  lemma HeaderChecked(s: Updater, chunk: bytes)
    requires s.inProgress && Accepts(s, chunk) && chunk != []
    ensures WriteCall(s.(headerSeen := true), chunk) == WriteCall(s, chunk) && WriteCall(s, chunk).result == Ok(())
  {}

  function SectorErase(p: Partition, k: nat): Op {
    Erase(p.Offset() + k * SECTOR_SIZE, p.Offset() + k * SECTOR_SIZE + SECTOR_SIZE)
  }

  /** The sectors of a partition lie on sector boundaries inside the chip. */
  lemma SectorBounds(p: Partition, k: nat)
    requires k < SECTORS
    ensures p.Offset() % SECTOR_SIZE == 0
    ensures SectorErase(p, k).from % SECTOR_SIZE == 0 && SectorErase(p, k).to % SECTOR_SIZE == 0
    ensures SectorErase(p, k).to <= LAYOUT_END
  {}

  lemma EraseOpsNext(p: Partition, k: nat)
    ensures EraseOps(p, k + 1) == EraseOps(p, k) + [SectorErase(p, k)]
  {}

  lemma ErasedNext(c0: bytes, l0: seq<Op>, p: Partition, k: nat)
    ensures Run(c0, EraseOps(p, k + 1)) == Apply(Run(c0, EraseOps(p, k)), SectorErase(p, k))
    ensures l0 + EraseOps(p, k + 1) == (l0 + EraseOps(p, k)) + [SectorErase(p, k)]
  {
    EraseOpsNext(p, k);
    RunConcat(c0, EraseOps(p, k), [SectorErase(p, k)]);
    RunOne(Run(c0, EraseOps(p, k)), SectorErase(p, k));
  }

  /** Erasing that has come as far as sector `k` has followed the plan for all of them. */
  lemma StoppedErasing(c0: bytes, l0: seq<Op>, p: Partition, k: nat, sectors: nat)
    requires k <= sectors
    ensures Follows(c0, l0, Run(c0, EraseOps(p, k)), l0 + EraseOps(p, k), EraseOps(p, sectors))
  {
    ErasePrefix(p, k, sectors);
    FollowsPrefix(c0, l0, EraseOps(p, k), EraseOps(p, sectors));
  }

  lemma {:induction false} ErasePrefix(p: Partition, k: nat, n: nat)
    requires k <= n
    ensures EraseOps(p, k) <= EraseOps(p, n)
  {
    if k < n {
      ErasePrefix(p, k, n - 1);
    }
  }
}
