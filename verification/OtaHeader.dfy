/** The image header: `write` looks at the first byte of the first chunk, and what that is worth. */
module OtaHeader {
  import opened Bytes
  import opened Otadata
  import opened OtaUpdater

  /** The header flag tells whether an image has begun, and the image begins with the magic. */
  predicate HeaderTold(s: Updater, image: bytes) {
    && (s.headerSeen <==> image != [])
    && (image != [] ==> image[0] == IMAGE_MAGIC)
  }

  /** What has been accepted after one more chunk. */
  function Accepted(s: Updater, image: bytes, chunk: bytes): bytes {
    if WriteCall(s, chunk).result.Ok? then image + chunk else image
  }

  /** The counters agree with the bytes accepted. */
  predicate Counts(s: Updater, image: bytes) {
    s.inProgress && s.writeOffset + |s.pending| == |image|
  }

  lemma CountsOn(s: Updater, image: bytes, chunk: bytes)
    requires Counts(s, image)
    ensures Counts(WriteCall(s, chunk).state, Accepted(s, image, chunk))
  {}

  /**
   * One write keeps the header told, with exactly one exception: a first chunk with the magic
   * that is longer than the partition. It is refused, and yet counts as having been checked.
   */
  lemma HeaderStepIff(s: Updater, image: bytes, chunk: bytes)
    requires Counts(s, image) && HeaderTold(s, image)
    ensures HeaderTold(WriteCall(s, chunk).state, Accepted(s, image, chunk))
       <==> !(image == [] && Oversize(chunk) && chunk[0] == IMAGE_MAGIC)
  {}

  /** A first chunk that is refused for its size still passes for the header. */
  lemma HeaderGap(s: Updater, first: bytes, second: bytes)
    requires s.inProgress && !s.headerSeen && s.writeOffset == 0
    requires |first| > OTA_SIZE && first[0] == IMAGE_MAGIC
    requires 0 < |second| <= OTA_SIZE && second[0] != IMAGE_MAGIC
    ensures WriteCall(s, second).result == Err(InvalidImageHeader)
    ensures WriteCall(WriteCall(s, first).state, second).result == Ok(())
  {}

  // ---- Any list of writes -------------------------------------------------------------

  predicate Fits(chunk: bytes) {
    0 < |chunk| <= OTA_SIZE
  }

  predicate Oversize(chunk: bytes) {
    |chunk| > OTA_SIZE
  }

  predicate HasMagic(chunk: bytes) {
    chunk != [] && chunk[0] == IMAGE_MAGIC
  }

  predicate FitsWithMagic(chunk: bytes) {
    Fits(chunk) && HasMagic(chunk)
  }

  predicate NoneBefore(chunks: seq<bytes>, j: nat)
    requires j <= |chunks|
  {
    forall k :: 0 <= k < j ==> !FitsWithMagic(chunks[k])
  }

  /** Chunk `i` is refused for its size, and chunk `j` comes in behind it without the magic. */
  predicate SlipsAt(chunks: seq<bytes>, i: nat, j: nat)
    requires i < j < |chunks|
  {
    && Oversize(chunks[i]) && HasMagic(chunks[i])
    && Fits(chunks[j]) && !HasMagic(chunks[j])
    && NoneBefore(chunks, j)
  }

  predicate Slips(chunks: seq<bytes>) {
    exists i: nat, j: nat :: i < j < |chunks| && SlipsAt(chunks, i, j)
  }

  predicate AnyMagic(chunks: seq<bytes>) {
    exists i: nat :: i < |chunks| && HasMagic(chunks[i])
  }

  /** A chunk that fits, not before the first one with the magic: the image begins. */
  predicate OpensAt(chunks: seq<bytes>, i: nat, j: nat)
    requires i <= j < |chunks|
  {
    HasMagic(chunks[i]) && Fits(chunks[j])
  }

  predicate Opens(chunks: seq<bytes>) {
    exists i: nat, j: nat :: i <= j < |chunks| && OpensAt(chunks, i, j)
  }

  lemma AnyMagicNext(chunks: seq<bytes>, n: nat)
    requires |chunks| == n + 1
    ensures AnyMagic(chunks) <==> AnyMagic(chunks[..n]) || HasMagic(chunks[n])
  {
    if i: nat :| i < n && HasMagic(chunks[..n][i]) {
      assert HasMagic(chunks[i]);
    }
    if i: nat :| i <= n && HasMagic(chunks[i]) {
      assert i < n ==> HasMagic(chunks[..n][i]);
    }
  }

  lemma OpensNext(chunks: seq<bytes>, n: nat)
    requires |chunks| == n + 1
    ensures Opens(chunks) <==> Opens(chunks[..n]) || (Fits(chunks[n]) && AnyMagic(chunks))
  {
    if i: nat, j: nat :| i <= j < n && OpensAt(chunks[..n], i, j) {
      assert OpensAt(chunks, i, j);
    }
    if i: nat, j: nat :| i <= j <= n && OpensAt(chunks, i, j) {
      assert j < n ==> OpensAt(chunks[..n], i, j);
    }
    if i: nat :| Fits(chunks[n]) && i <= n && HasMagic(chunks[i]) {
      assert OpensAt(chunks, i, n);
    }
  }

  lemma SlipsKept(chunks: seq<bytes>, n: nat)
    requires |chunks| == n + 1 && Slips(chunks[..n])
    ensures Slips(chunks)
  {
    var i: nat, j: nat :| i < j < n && SlipsAt(chunks[..n], i, j);
    assert forall k :: 0 <= k < j ==> chunks[..n][k] == chunks[k];
    assert SlipsAt(chunks, i, j);
  }

  /** A new slip is one of the last chunk, on a header flag that only refused chunks have set. */
  lemma SlipsNew(chunks: seq<bytes>, n: nat)
    requires |chunks| == n + 1 && !Slips(chunks[..n])
    ensures Slips(chunks) <==> Fits(chunks[n]) && !HasMagic(chunks[n]) && NoneBefore(chunks, n) && AnyMagic(chunks[..n])
  {
    if i: nat, j: nat :| i < j <= n && SlipsAt(chunks, i, j) {
      assert HasMagic(chunks[..n][i]);
      if j < n {
        assert forall k :: 0 <= k < j ==> chunks[..n][k] == chunks[k];
        assert SlipsAt(chunks[..n], i, j);
      }
    }
    if Fits(chunks[n]) && !HasMagic(chunks[n]) && NoneBefore(chunks, n) && AnyMagic(chunks[..n]) {
      var i: nat :| i < n && HasMagic(chunks[..n][i]);
      assert !FitsWithMagic(chunks[i]);
      assert SlipsAt(chunks, i, n);
    }
  }

  /** An image that began without any fitting chunk with the magic slipped in. */
  lemma {:induction false} OpenedBySlip(chunks: seq<bytes>)
    requires Opens(chunks) && NoneBefore(chunks, |chunks|)
    ensures Slips(chunks)
  {
    var i: nat, j: nat :| i <= j < |chunks| && OpensAt(chunks, i, j);
    assert !FitsWithMagic(chunks[i]) && !FitsWithMagic(chunks[j]);
    assert SlipsAt(chunks, i, j);
  }

  /** What is known after some writes, told from the chunks alone. */
  ghost predicate HeaderState(s: Updater, image: bytes, chunks: seq<bytes>) {
    && Counts(s, image)
    && (s.headerSeen <==> AnyMagic(chunks))
    && (image != [] <==> Opens(chunks))
    && (image != [] && image[0] != IMAGE_MAGIC <==> Slips(chunks))
  }

  lemma HeaderStateNext(s: Updater, image: bytes, chunks: seq<bytes>, n: nat)
    requires |chunks| == n + 1 && HeaderState(s, image, chunks[..n])
    ensures HeaderState(WriteCall(s, chunks[n]).state, Accepted(s, image, chunks[n]), chunks)
  {
    var chunk := chunks[n];
    CountsOn(s, image, chunk);
    AnyMagicNext(chunks, n);
    OpensNext(chunks, n);
    if Slips(chunks[..n]) {
      SlipsKept(chunks, n);
    } else {
      SlipsNew(chunks, n);
      if NoneBefore(chunks, n) {
        assert forall k :: 0 <= k < n ==> chunks[..n][k] == chunks[k];
        if Opens(chunks[..n]) {
          OpenedBySlip(chunks[..n]);
        }
      } else {
        var k :| 0 <= k < n && FitsWithMagic(chunks[k]);
        assert OpensAt(chunks[..n], k, k);
      }
    }
  }

  lemma {:induction false} HeaderStateHolds(s: Updater, chunks: seq<bytes>)
    requires Counts(s, []) && !s.headerSeen
    ensures var w := WriteAll(s, chunks); HeaderState(w.state, w.accepted, chunks)
  {
    if chunks != [] {
      var n := |chunks| - 1;
      HeaderStateHolds(s, chunks[..n]);
      var w := WriteAll(s, chunks[..n]);
      HeaderStateNext(w.state, w.accepted, chunks, n);
    }
  }

  /**
   * Over every list of writes, rejected ones among them: what has been accepted is empty or
   * begins with the magic, exactly if no chunk slips in behind one that was refused for its
   * size.
   */
  lemma AcceptedImageIff(s: Updater, chunks: seq<bytes>)
    requires Counts(s, []) && !s.headerSeen
    ensures var image := WriteAll(s, chunks).accepted;
            image == [] || image[0] == IMAGE_MAGIC <==> !Slips(chunks)
  {
    HeaderStateHolds(s, chunks);
  }

  /** With no chunk longer than the partition, an accepted image does begin with the magic. */
  lemma ShortChunksChecked(s: Updater, chunks: seq<bytes>)
    requires Counts(s, []) && !s.headerSeen
    requires forall i :: 0 <= i < |chunks| ==> !Oversize(chunks[i])
    ensures var image := WriteAll(s, chunks).accepted;
            image == [] || image[0] == IMAGE_MAGIC
  {
    AcceptedImageIff(s, chunks);
  }
}
