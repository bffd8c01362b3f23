/** A whole update with the updater class on a chip that does not fail, boot confirmation included. */
module OtaRun {
  import opened Bytes
  import opened Flash
  import opened Otadata
  import opened OtaUpdater
  import opened OtaSafety
  import opened EspOta

  /** What a caller promises of an image. */
  predicate Legal(image: bytes) {
    0 < |image| <= OTA_SIZE && image[0] == IMAGE_MAGIC
  }

  /** An updater that has accepted the chunks so far, on the flash that they have left behind. */
  ghost predicate HasWritten(u: EspOtaFlash, s: Updater, erased: Cells, chunks: seq<bytes>)
    reads u, u.pendingBytes, u.flash
  {
    && u.Valid() && u.flash.reliable
    && u.Model() == WriteAll(s, chunks).state
    && u.flash.cells == Run(erased, WriteAll(s, chunks).ops)
  }

  lemma {:induction false} FlattenPrefix(chunks: seq<bytes>, n: nat)
    requires n <= |chunks|
    ensures Flatten(chunks[..n]) <= Flatten(chunks)
    decreases |chunks|
  {
    if n == |chunks| {
      assert chunks[..n] == chunks;
    } else {
      var init := chunks[..|chunks| - 1];
      assert init[..n] == chunks[..n];
      FlattenPrefix(init, n);
    }
  }

  /** Part of a legal image streams, whatever part it is. */
  lemma PartStreams(s: Updater, erased: Cells, chunks: seq<bytes>, n: nat)
    requires Streaming(s, erased, []) && !s.headerSeen
    requires Legal(Flatten(chunks)) && n <= |chunks|
    ensures var w := WriteAll(s, chunks[..n]);
            && w.result == Ok(()) && w.state.running == s.running
            && Streaming(w.state, Run(erased, w.ops), Flatten(chunks[..n]))
            && AllWithin(w.ops, s.Target().Offset(), s.Target().Offset() + OTA_SIZE)
  {
    var image, part := Flatten(chunks), Flatten(chunks[..n]);
    FlattenPrefix(chunks, n);
    assert image == part + image[|part|..];
    AnyChunking(s, erased, chunks[..n], image, image[|part|..]);
  }

  lemma WrittenNext(s: Updater, erased: Cells, chunks: seq<bytes>, n: nat)
    requires n < |chunks|
    ensures var w, o := WriteAll(s, chunks[..n]), WriteCall(WriteAll(s, chunks[..n]).state, chunks[n]);
            var next := WriteAll(s, chunks[..n + 1]);
            && next.state == o.state
            && Run(erased, next.ops) == Run(Run(erased, w.ops), o.ops)
            && (w.result == Ok(()) ==> next.result == o.result)
  {
    assert chunks[..n + 1][..n] == chunks[..n];
    RunConcat(erased, WriteAll(s, chunks[..n]).ops, WriteCall(WriteAll(s, chunks[..n]).state, chunks[n]).ops);
  }

  /** A plan that was followed to its end has been carried out. */
  lemma FollowedAll(c0: bytes, l0: seq<Op>, c: bytes, l: seq<Op>, plan: seq<Op>)
    requires Follows(c0, l0, c, l, plan) && l == l0 + plan
    ensures c == Run(c0, plan)
  {
    assert l[|l0|..] == plan;
  }

  /** Write all chunks of a legal image. */
  method WriteChunks(u: EspOtaFlash, ghost s: Updater, ghost erased: Cells, chunks: seq<bytes>)
    returns (r: Result<(), OtaError>)
    requires HasWritten(u, s, erased, [])
    requires Streaming(s, erased, []) && !s.headerSeen && Legal(Flatten(chunks))
    modifies u, u.pendingBytes, u.flash
    ensures r == Ok(()) && HasWritten(u, s, erased, chunks)
  {
    for i := 0 to |chunks|
      invariant HasWritten(u, s, erased, chunks[..i])
    {
      PartStreams(s, erased, chunks, i);
      PartStreams(s, erased, chunks, i + 1);
      WrittenNext(s, erased, chunks, i);
      ghost var c0, l0, o := u.flash.cells, u.flash.ops, WriteCall(u.Model(), chunks[i]);
      r := u.Write(chunks[i]);
      FollowedAll(c0, l0, u.flash.cells, u.flash.ops, o.ops);
    }
    assert chunks[..|chunks|] == chunks;
    r := Ok(());
  }

  /** What an update leaves on the flash: the other partition selected, with exactly the image. */
  ghost predicate Updated(before: Cells, after: Cells, image: bytes) {
    && |image| <= OTA_SIZE
    && View(after).WellFormed() && MaxSeq(after) <= MaxSeq(before) + 2
    && Detect(after) == Detect(before).Other()
    && Region(after, Detect(after)) == Padded(image)
    && Region(after, Detect(before)) == Region(before, Detect(before))
  }

  /** An updater that has begun on a chip that does not fail. */
  method Start(chip: Chip) returns (u: EspOtaFlash)
    requires Fits(chip) && chip.reliable
    modifies chip
    ensures fresh(u) && fresh(u.pendingBytes) && u.flash == chip
    ensures var begun := BeginCall(Fresh(old(Detect(chip.cells))));
            chip.cells == Run(old(chip.cells), begun.ops) && HasWritten(u, begun.state, chip.cells, [])
  {
    ghost var before: Cells, l0 := chip.cells, chip.ops;
    var running := DetectRunning(chip);
    u := new EspOtaFlash(chip, running.value);
    var r := u.Begin();
    Begun(before, BeginCall(Fresh(Detect(before))));
    FollowedAll(before, l0, chip.cells, chip.ops, BeginCall(Fresh(Detect(before))).ops);
  }

  /** Begin, write and finalize on a chip that does not fail. */
  method Install(chip: Chip, chunks: seq<bytes>) returns (r: Result<(), OtaError>)
    requires Fits(chip) && chip.reliable
    requires View(chip.cells).WellFormed() && MaxSeq(chip.cells) <= MAX_SEQ
    requires Legal(Flatten(chunks))
    modifies chip
    ensures Fits(chip) && r == Ok(()) && Updated(old(chip.cells), chip.cells, Flatten(chunks))
  {
    ghost var before: Cells, begun := chip.cells, BeginCall(Fresh(Detect(chip.cells)));
    Begun(before, begun);
    var u := Start(chip);
    ghost var erased: Cells := chip.cells;
    r := WriteChunks(u, begun.state, erased, chunks);
    ghost var s, filled: Cells, l1 := u.Model(), chip.cells, chip.ops;
    Filled(before, begun, erased, chunks, s, filled);
    r := u.Finalize();
    FollowedAll(filled, l1, chip.cells, chip.ops, FinalizeCall(s, filled).ops);
    Installed(before, s, filled, Flatten(chunks));
  }

  lemma Begun(before: Cells, begun: Outcome)
    requires begun == BeginCall(Fresh(Detect(before)))
    ensures Streaming(begun.state, Run(before, begun.ops), []) && !begun.state.headerSeen
    ensures WriteAll(begun.state, []) == Written(begun.state, [], [], Ok(()))
  {
    BeginStreams(Fresh(Detect(before)), before);
  }

  /** The flash with the whole image in it, still selecting what it did. */
  lemma Filled(before: Cells, begun: Outcome, erased: Cells, chunks: seq<bytes>, s: Updater, filled: Cells)
    requires begun == BeginCall(Fresh(Detect(before))) && erased == Run(before, begun.ops)
    requires Legal(Flatten(chunks)) && View(before).WellFormed() && MaxSeq(before) <= MAX_SEQ
    requires s == WriteAll(begun.state, chunks).state && filled == Run(erased, WriteAll(begun.state, chunks).ops)
    ensures s.running == Detect(before) && Streaming(s, filled, Flatten(chunks)) && CanFinalize(s, filled)
    ensures View(filled) == View(before) && Region(filled, s.running) == Region(before, s.running)
    ensures FinalizeCall(s, filled).result == Ok(())
  {
    ImageStreams(before, chunks);
    FinalizeTakesEffect(s, filled, Flatten(chunks));
  }

  lemma Installed(before: Cells, s: Updater, filled: Cells, image: bytes)
    requires s.running == Detect(before) && Streaming(s, filled, image) && 0 < |image| <= OTA_SIZE && CanFinalize(s, filled)
    requires View(filled) == View(before) && Region(filled, s.running) == Region(before, s.running)
    requires View(before).WellFormed() && MaxSeq(before) <= MAX_SEQ
    ensures Updated(before, Run(filled, FinalizeCall(s, filled).ops), image)
  {
    FinalizeTakesEffect(s, filled, image);
    Grown(s, filled, image);
  }

  lemma Grown(s: Updater, filled: Cells, image: bytes)
    requires CanFinalize(s, filled) && Streaming(s, filled, image) && 0 < |image| <= OTA_SIZE
    ensures MaxSeq(Run(filled, FinalizeCall(s, filled).ops)) <= MaxSeq(filled) + 2
  {
    var ops := FlushOps(s) + SetBootOps(Run(filled, FlushOps(s)), s.Target());
    assert ops[..|ops|] == ops;
    FinalizeGrowth(s, filled, image, |ops|);
  }

  /**
   * The whole update: install the image, reboot into it and confirm it. The confirmed image
   * stays selected and nothing is left to validate.
   */
  method UpdateAndConfirm(chip: Chip, chunks: seq<bytes>) returns (r: Result<(), OtaError>)
    requires Fits(chip) && chip.reliable
    requires View(chip.cells).WellFormed() && MaxSeq(chip.cells) + 2 <= MAX_SEQ
    requires Legal(Flatten(chunks))
    modifies chip
    ensures Fits(chip) && r.Ok?
    ensures Detect(chip.cells) == old(Detect(chip.cells)).Other()
    ensures Region(chip.cells, Detect(chip.cells)) == Padded(Flatten(chunks))
    ensures Region(chip.cells, old(Detect(chip.cells))) == old(Region(chip.cells, Detect(chip.cells)))
    ensures !NeedsValidation(Detect(chip.cells), View(chip.cells))
  {
    r := Install(chip, chunks);
    ghost var installed: Cells, l0 := chip.cells, chip.ops;
    var running := DetectRunning(chip);
    var rebooted := new EspOtaFlash(chip, running.value);
    r := rebooted.MarkValid();
    FollowedAll(installed, l0, chip.cells, chip.ops, MarkValidOps(running.value, installed));
    Confirmed(installed);
  }

  lemma Confirmed(cells: Cells)
    requires View(cells).WellFormed() && MaxSeq(cells) <= MAX_SEQ
    ensures var c := Run(cells, MarkValidOps(Detect(cells), cells));
            && Detect(c) == Detect(cells) && !NeedsValidation(Detect(c), View(c))
            && forall p :: Region(c, p) == Region(cells, p)
  {
    MarkValidSettles(cells, Detect(cells));
    SetBootKeepsRegions(cells, Detect(cells));
  }
}
