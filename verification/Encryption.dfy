/**
 * Stored passwords: counter mode (NIST SP 800-38A, section 6.5) over an uninterpreted block
 * cipher, PKCS#7 padding (RFC 5652, section 6.3), and the "enc:" text form with its hex coding.
 * Strings are the bytes of their UTF-8 form.
 */
module Encryption {
  import opened Bytes

  const BLOCK: nat := 16
  const NONCE: nat := 12

  type Block = s: bytes | |s| == 16 witness Fill(16, 0)

  // ---- The counter --------------------------------------------------------------------

  /** The counter one further: the last byte counts, a byte that overflows carries. */
  function Incremented(c: bytes): (r: bytes)
    ensures |r| == |c|
  {
    if c == [] then []
    else if c[|c| - 1] == 0xFF then Incremented(c[..|c| - 1]) + [0]
    else c[..|c| - 1] + [c[|c| - 1] + 1]
  }

  method IncrementCounter(counter: array<u8>)
    modifies counter
    ensures counter[..] == Incremented(old(counter[..]))
  {
    var i := counter.Length;
    ghost var was := counter[..];
    assert was[..i] == was && Incremented(was) + counter[i..] == Incremented(was);
    while i > 0
      invariant 0 <= i <= counter.Length
      invariant counter[..i] == was[..i]
      invariant Incremented(was) == Incremented(was[..i]) + counter[i..]
    {
      i := i - 1;
      ghost var tail := counter[i + 1..];
      assert was[..i + 1][..i] == was[..i] && was[..i + 1][i] == counter[i];
      counter[i] := (counter[i] as int + 1) % 0x100;
      assert counter[i..] == [counter[i]] + tail;
      if counter[i] != 0 {
        assert counter[..] == counter[..i] + [counter[i]] + tail;
        return;
      }
    }
    assert counter[..] == counter[0..];
  }

  function Pow256(n: nat): (r: nat)
    ensures r > 0
  {
    if n == 0 then 1 else 0x100 * Pow256(n - 1)
  }

  /** A big-endian number. */
  function Value(c: bytes): nat {
    if c == [] then 0 else 0x100 * Value(c[..|c| - 1]) + c[|c| - 1]
  }

  lemma {:induction false} ValueBound(c: bytes)
    ensures Value(c) < Pow256(|c|)
  {
    if c != [] {
      ValueBound(c[..|c| - 1]);
    }
  }

  lemma {:induction false} ValueInjective(a: bytes, b: bytes)
    requires |a| == |b| && Value(a) == Value(b)
    ensures a == b
  {
    if a != [] {
      ValueInjective(a[..|a| - 1], b[..|b| - 1]);
      assert a == a[..|a| - 1] + [a[|a| - 1]] && b == b[..|b| - 1] + [b[|b| - 1]];
    }
  }

  /** Incrementing is adding one modulo 256 to the number of bytes. */
  lemma {:induction false} IncrementAddsOne(c: bytes)
    ensures Value(Incremented(c)) == if Value(c) + 1 == Pow256(|c|) then 0 else Value(c) + 1
  {
    ValueBound(c);
    if c != [] {
      var init, r := c[..|c| - 1], Incremented(c);
      IncrementAddsOne(init);
      ValueBound(init);
      assert r[..|c| - 1] == if c[|c| - 1] == 0xFF then Incremented(init) else init;
    }
  }

  /** The counter of block `k`. */
  function CounterAt(start: bytes, k: nat): (r: bytes)
    ensures |r| == |start|
    decreases k
  {
    if k == 0 then start else CounterAt(Incremented(start), k - 1)
  }

  /** The counter of block `k` is the start plus `k`, modulo 256 to the number of bytes. */
  lemma {:induction false} CounterValue(start: bytes, k: nat)
    requires k < Pow256(|start|)
    ensures var sum, m := Value(start) + k, Pow256(|start|);
            Value(CounterAt(start, k)) == if sum < m then sum else sum - m
    decreases k
  {
    ValueBound(start);
    if k > 0 {
      IncrementAddsOne(start);
      CounterValue(Incremented(start), k - 1);
    }
  }

  lemma {:induction false} CounterFrom(start: bytes, i: nat, k: nat)
    ensures CounterAt(start, i + k) == CounterAt(CounterAt(start, i), k)
    decreases i
  {
    if i > 0 {
      CounterFrom(Incremented(start), i - 1, k);
    }
  }

  /** No counter repeats before all of them have been used. */
  lemma CountersDistinct(start: bytes, i: nat, j: nat)
    requires i < j && j - i < Pow256(|start|)
    ensures CounterAt(start, i) != CounterAt(start, j)
  {
    CounterFrom(start, i, j - i);
    CounterValue(CounterAt(start, i), j - i);
    ValueBound(CounterAt(start, i));
  }

  function Be32(k: nat): (r: bytes)
    requires k < 0x1_0000_0000
    ensures |r| == 4
  {
    [k / 0x100_0000, k / 0x1_0000 % 0x100, k / 0x100 % 0x100, k % 0x100]
  }

  function Start(nonce: bytes): (r: Block)
    requires |nonce| == NONCE
  {
    nonce + Fill(4, 0)
  }

  /** For 2^32 blocks the nonce stays in front and the block number counts behind it. */
  lemma CounterLayout(nonce: bytes, k: nat)
    requires |nonce| == NONCE && k < 0x1_0000_0000
    ensures CounterAt(Start(nonce), k) == nonce + Be32(k)
  {
    var start, target := Start(nonce), nonce + Be32(k);
    Be32Value(nonce, k);
    Be32Value(nonce, 0);
    assert start == nonce + Be32(0);
    ValueBound(target);
    FitsCounter(NONCE);
    CounterValue(start, k);
    ValueInjective(CounterAt(start, k), target);
  }

  lemma FitsCounter(n: nat)
    ensures Pow256(n + 4) == 0x1_0000_0000 * Pow256(n)
  {
    assert Pow256(n + 3) == 0x100 * Pow256(n + 2) && Pow256(n + 2) == 0x100 * Pow256(n + 1);
  }

  lemma ValueAppend(a: bytes, b: u8)
    ensures Value(a + [b]) == 0x100 * Value(a) + b
  {
    assert (a + [b])[..|a|] == a;
  }

  lemma Be32Value(nonce: bytes, k: nat)
    requires k < 0x1_0000_0000
    ensures Value(nonce + Be32(k)) == 0x1_0000_0000 * Value(nonce) + k
  {
    var t := Be32(k);
    ValueAppend(nonce, t[0]);
    ValueAppend(nonce + [t[0]], t[1]);
    ValueAppend(nonce + [t[0]] + [t[1]], t[2]);
    ValueAppend(nonce + [t[0]] + [t[1]] + [t[2]], t[3]);
    assert nonce + t == nonce + [t[0]] + [t[1]] + [t[2]] + [t[3]];
    Digits(k);
  }

  lemma Digits(k: nat)
    requires k < 0x1_0000_0000
    ensures k == 0x100 * (0x100 * (0x100 * (k / 0x100_0000) + k / 0x1_0000 % 0x100) + k / 0x100 % 0x100) + k % 0x100
  {
    assert k / 0x100 == 0x100 * (k / 0x1_0000) + k / 0x100 % 0x100;
    assert k / 0x1_0000 == 0x100 * (k / 0x100_0000) + k / 0x1_0000 % 0x100;
  }

  /** Messages under different nonces share no counter, so no keystream block. */
  lemma NoncesKeepApart(a: bytes, b: bytes, i: nat, j: nat)
    requires |a| == |b| == NONCE && a != b && i < 0x1_0000_0000 && j < 0x1_0000_0000
    ensures CounterAt(Start(a), i) != CounterAt(Start(b), j)
  {
    CounterLayout(a, i);
    CounterLayout(b, j);
    assert (a + Be32(i))[..NONCE] == a && (b + Be32(j))[..NONCE] == b;
  }

  // ---- Counter mode -------------------------------------------------------------------

  /** Whole blocks are combined with the encrypted counter; a partial block stays as it is. */
  function Ctr(buf: bytes, cipher: Block -> Block, counter: Block): (r: bytes)
    ensures |r| == |buf|
    decreases |buf|
  {
    if |buf| < BLOCK then buf
    else XorSeq(buf[..BLOCK], cipher(counter)) + Ctr(buf[BLOCK..], cipher, Incremented(counter))
  }

  lemma XorSeqTwice(a: bytes, b: bytes)
    requires |a| == |b|
    ensures XorSeq(XorSeq(a, b), b) == a
  {
    forall i | 0 <= i < |a|
      ensures Xor(Xor(a[i], b[i]), b[i]) == a[i]
    {
      Bytes.XorTwice(a[i], b[i]);
    }
  }

  /** Encryption and decryption are the same operation. */
  lemma {:induction false} CtrInvolution(buf: bytes, cipher: Block -> Block, counter: Block)
    ensures Ctr(Ctr(buf, cipher, counter), cipher, counter) == buf
    decreases |buf|
  {
    if |buf| >= BLOCK {
      var first, rest := XorSeq(buf[..BLOCK], cipher(counter)), Ctr(buf[BLOCK..], cipher, Incremented(counter));
      assert (first + rest)[..BLOCK] == first && (first + rest)[BLOCK..] == rest;
      XorSeqTwice(buf[..BLOCK], cipher(counter));
      CtrInvolution(buf[BLOCK..], cipher, Incremented(counter));
      assert buf == buf[..BLOCK] + buf[BLOCK..];
    }
  }

  lemma CtrAhead(buf: bytes, cipher: Block -> Block, counter: Block, i: nat)
    requires i < BLOCK <= |buf|
    ensures Ctr(buf, cipher, counter)[i] == Xor(buf[i], cipher(counter)[i])
  {
    assert buf[..BLOCK][i] == buf[i];
  }

  lemma CtrBehind(buf: bytes, cipher: Block -> Block, counter: Block)
    requires BLOCK <= |buf|
    ensures Ctr(buf, cipher, counter)[BLOCK..] == Ctr(buf[BLOCK..], cipher, Incremented(counter))
  {}

  /** One block and then `k` more are `k + 1` blocks. */
  lemma BlockMore(s: bytes, rest: bytes, k: nat)
    requires BLOCK <= |s| && rest == s[BLOCK..] && (k + 1) * BLOCK <= |s|
    ensures rest[k * BLOCK..] == s[(k + 1) * BLOCK..]
  {}

  /** From block `k` on, it is counter mode from the counter of that block. */
  lemma {:induction false} CtrFrom(buf: bytes, cipher: Block -> Block, counter: Block, k: nat)
    requires k * BLOCK <= |buf|
    ensures Ctr(buf, cipher, counter)[k * BLOCK..] == Ctr(buf[k * BLOCK..], cipher, CounterAt(counter, k))
    decreases k
  {
    if k == 0 {
      assert buf[0..] == buf;
    } else {
      var rest, next := buf[BLOCK..], Incremented(counter);
      CtrFrom(rest, cipher, next, k - 1);
      CtrBehind(buf, cipher, counter);
      BlockMore(Ctr(buf, cipher, counter), Ctr(rest, cipher, next), k - 1);
      BlockMore(buf, rest, k - 1);
      assert CounterAt(counter, k) == CounterAt(next, k - 1);
    }
  }

  /** Byte `i` is combined with the keystream of the counter of its own block. */
  lemma CtrAt(buf: bytes, cipher: Block -> Block, counter: Block, i: nat)
    requires i < |buf| / BLOCK * BLOCK
    ensures Ctr(buf, cipher, counter)[i] == Xor(buf[i], cipher(CounterAt(counter, i / BLOCK))[i % BLOCK])
  {
    var k, j := i / BLOCK, i % BLOCK;
    InBlocks(|buf|, i);
    CtrFrom(buf, cipher, counter, k);
    CtrAhead(buf[k * BLOCK..], cipher, CounterAt(counter, k), j);
    ByteBehind(buf, k * BLOCK, i);
    ByteBehind(Ctr(buf, cipher, counter), k * BLOCK, i);
  }

  lemma ByteBehind(s: bytes, n: nat, i: nat)
    requires n <= i < |s|
    ensures s[n..][i - n] == s[i]
  {}

  lemma InBlocks(n: nat, i: nat)
    requires i < n / BLOCK * BLOCK
    ensures i / BLOCK * BLOCK + i % BLOCK == i && i / BLOCK * BLOCK + BLOCK <= n
  {}

  method CtrCrypt(buf: array<u8>, cipher: Block -> Block, counter: array<u8>)
    requires counter.Length == BLOCK && buf != counter
    modifies buf, counter
    ensures buf[..] == Ctr(old(buf[..]), cipher, old(counter[..]))
  {
    var at := 0;
    ghost var all := Ctr(buf[..], cipher, counter[..]);
    assert buf[0..] == buf[..] && buf[..0] + all == all;
    while at + BLOCK <= buf.Length
      invariant at <= buf.Length
      invariant all == buf[..at] + Ctr(buf[at..], cipher, counter[..])
    {
      ghost var before, block := buf[..], counter[..];
      var keystream := cipher(counter[..]);
      XorBlock(buf, at, keystream);
      IncrementCounter(counter);
      CtrStep(before, buf[..], at, cipher, block);
      at := at + BLOCK;
    }
    assert buf[..] == buf[..at] + buf[at..];
  }

  /** One block done: what is done and what is still to do make up the same result. */
  lemma CtrStep(before: bytes, after: bytes, at: nat, cipher: Block -> Block, counter: Block)
    requires at + BLOCK <= |before| == |after|
    requires after[..at] == before[..at] && after[at + BLOCK..] == before[at + BLOCK..]
    requires after[at..at + BLOCK] == XorSeq(before[at..at + BLOCK], cipher(counter))
    ensures before[..at] + Ctr(before[at..], cipher, counter)
         == after[..at + BLOCK] + Ctr(after[at + BLOCK..], cipher, Incremented(counter))
  {
    assert before[at..][..BLOCK] == before[at..at + BLOCK] && before[at..][BLOCK..] == before[at + BLOCK..];
    assert after[..at + BLOCK] == after[..at] + after[at..at + BLOCK];
  }

  method XorBlock(buf: array<u8>, at: nat, keystream: Block)
    requires at + BLOCK <= buf.Length
    modifies buf
    ensures buf[..at] == old(buf[..at]) && buf[at + BLOCK..] == old(buf[at + BLOCK..])
    ensures buf[at..at + BLOCK] == XorSeq(old(buf[at..at + BLOCK]), keystream)
  {
    for i := 0 to BLOCK
      invariant forall k :: 0 <= k < buf.Length && !(at <= k < at + i) ==> buf[k] == old(buf[k])
      invariant forall k :: 0 <= k < i ==> buf[at + k] == Xor(old(buf[at + k]), keystream[k])
    {
      buf[at + i] := Xor(buf[at + i], keystream[i]);
    }
  }

  // ---- Padding ------------------------------------------------------------------------

  function Pad(p: bytes): (r: bytes)
    ensures |r| % BLOCK == 0 && |p| < |r| <= |p| + BLOCK
  {
    var n := BLOCK - |p| % BLOCK;
    p + Fill(n, n)
  }

  /** Padding is taken off only where all of it is right. */
  function Unpad(buf: bytes): bytes {
    if buf == [] then buf else
      var n: nat := buf[|buf| - 1];
      if 0 < n <= BLOCK && n <= |buf| && (forall i :: |buf| - n <= i < |buf| ==> buf[i] == n)
      then buf[..|buf| - n] else buf
  }

  lemma PadRoundTrip(p: bytes)
    ensures Unpad(Pad(p)) == p
  {
    assert Pad(p)[..|p|] == p;
  }

  // ---- Hex ----------------------------------------------------------------------------

  const MAX_HEX: nat := 1024

  function Digit(n: nat): u8
    requires n < 16
  {
    if n < 10 then 0x30 + n else 0x61 + n - 10
  }

  function Nibble(c: u8): (r: Option<nat>)
    ensures r.Some? ==> r.value < 16
  {
    if 0x30 <= c <= 0x39 then Some(c - 0x30)
    else if 0x61 <= c <= 0x66 then Some(c - 0x61 + 10)
    else if 0x41 <= c <= 0x46 then Some(c - 0x41 + 10)
    else None
  }

  function ToHex(b: bytes): (r: bytes)
    ensures |r| == 2 * |b|
  {
    if b == [] then [] else [Digit(b[0] / 16), Digit(b[0] % 16)] + ToHex(b[1..])
  }

  function Pairs(h: bytes): Option<bytes>
    requires |h| % 2 == 0
  {
    if h == [] then Some([]) else
      var hi, lo, rest := Nibble(h[0]), Nibble(h[1]), Pairs(h[2..]);
      if hi.None? || lo.None? || rest.None? then None else Some([16 * hi.value + lo.value] + rest.value)
  }

  function FromHex(h: bytes): Option<bytes> {
    if |h| % 2 != 0 || |h| > MAX_HEX then None else Pairs(h)
  }

  lemma {:induction false} PairsOfHex(b: bytes)
    ensures Pairs(ToHex(b)) == Some(b)
  {
    if b != [] {
      PairsOfHex(b[1..]);
      assert ToHex(b)[2..] == ToHex(b[1..]);
      assert [b[0]] + b[1..] == b;
    }
  }

  lemma FromHexIs(h: bytes, n: nat)
    requires |h| == n + n
    ensures |h| % 2 == 0 && FromHex(h) == if 2 * n <= MAX_HEX then Pairs(h) else None
  {}

  lemma HexRoundTrip(b: bytes)
    ensures FromHex(ToHex(b)) == if 2 * |b| <= MAX_HEX then Some(b) else None
  {
    PairsOfHex(b);
    FromHexIs(ToHex(b), |b|);
  }

  lemma HexStep(s: bytes, b: bytes, i: nat)
    requires i < |b|
    ensures s + ToHex(b[i..]) == s + [Digit(b[i] / 16)] + [Digit(b[i] % 16)] + ToHex(b[i + 1..])
  {
    assert b[i..][0] == b[i] && b[i..][1..] == b[i + 1..];
  }

  method HexString(b: bytes) returns (s: bytes)
    ensures s == ToHex(b)
  {
    s := [];
    for i := 0 to |b|
      invariant s + ToHex(b[i..]) == ToHex(b)
    {
      HexStep(s, b, i);
      s := s + [Digit(b[i] / 16)];
      s := s + [Digit(b[i] % 16)];
    }
  }

  // ---- Passwords ----------------------------------------------------------------------

  /** "enc:" */
  const PREFIX: bytes := [0x65, 0x6E, 0x63, 0x3A]

  function Encrypt(plaintext: bytes, nonce: bytes, cipher: Block -> Block): bytes
    requires |nonce| == NONCE
  {
    if plaintext == [] then []
    else PREFIX + ToHex(nonce + Ctr(Pad(plaintext), cipher, Start(nonce)))
  }

  /** The bytes behind the prefix, if they are a nonce and at least one whole block. */
  function Stored(value: bytes): (r: Option<bytes>)
    ensures r.Some? ==> |r.value| >= NONCE + BLOCK && |r.value| % BLOCK == NONCE
  {
    if !(PREFIX <= value) || |value| - |PREFIX| < 56 then None else
      match FromHex(value[|PREFIX|..])
      case None => None
      case Some(c) => if |c| < NONCE + BLOCK || (|c| - NONCE) % BLOCK != 0 then None else Some(c)
  }

  function MaybeDecrypt(value: bytes, cipher: Block -> Block, valid: bytes -> bool): bytes {
    match Stored(value)
    case None => value
    case Some(c) =>
      var text := Unpad(Ctr(c[NONCE..], cipher, Start(c[..NONCE])));
      if valid(text) then text else value
  }

  /** The longest plaintext whose hex form the decoder still accepts. */
  const LONGEST: nat := 495

  lemma StoredOfEncrypted(p: bytes, nonce: bytes, cipher: Block -> Block)
    requires |nonce| == NONCE && p != []
    ensures Stored(Encrypt(p, nonce, cipher))
         == if |p| <= LONGEST then Some(nonce + Ctr(Pad(p), cipher, Start(nonce))) else None
    ensures |Encrypt(p, nonce, cipher)| > |p|
  {
    var c := nonce + Ctr(Pad(p), cipher, Start(nonce));
    HexRoundTrip(c);
    assert Encrypt(p, nonce, cipher)[|PREFIX|..] == ToHex(c);
    assert |c| == NONCE + |Pad(p)|;
    assert |Pad(p)| <= 500 <==> |p| <= LONGEST;
  }

  /**
   * A stored password decrypts to what was encrypted, for every nonce and block cipher, exactly
   * up to 495 bytes; a longer one comes back as the stored text.
   */
  lemma PasswordRoundTrip(p: bytes, nonce: bytes, cipher: Block -> Block, valid: bytes -> bool)
    requires |nonce| == NONCE && valid(p)
    ensures MaybeDecrypt(Encrypt(p, nonce, cipher), cipher, valid) == p <==> |p| <= LONGEST
    ensures |p| > LONGEST ==> MaybeDecrypt(Encrypt(p, nonce, cipher), cipher, valid) == Encrypt(p, nonce, cipher)
  {
    if p != [] {
      StoredOfEncrypted(p, nonce, cipher);
      var c := nonce + Ctr(Pad(p), cipher, Start(nonce));
      assert c[NONCE..] == Ctr(Pad(p), cipher, Start(nonce)) && c[..NONCE] == nonce;
      CtrInvolution(Pad(p), cipher, Start(nonce));
      PadRoundTrip(p);
    }
  }

  method EncryptString(plaintext: bytes, nonce: bytes, cipher: Block -> Block) returns (s: bytes)
    requires |nonce| == NONCE
    ensures s == Encrypt(plaintext, nonce, cipher)
  {
    if plaintext == [] {
      return [];
    }
    var start := Start(nonce);
    var counter := new u8[BLOCK](i requires 0 <= i < BLOCK => start[i]);
    assert counter[..] == start;
    var padLen := BLOCK - |plaintext| % BLOCK;
    var buf := new u8[|plaintext| + padLen](i requires 0 <= i < |plaintext| + padLen =>
      if i < |plaintext| then plaintext[i] else padLen);
    assert buf[..] == Pad(plaintext);
    CtrCrypt(buf, cipher, counter);
    var hex := HexString(nonce + buf[..]);
    s := PREFIX + hex;
  }

  method MaybeDecryptString(value: bytes, cipher: Block -> Block, valid: bytes -> bool) returns (s: bytes)
    ensures s == MaybeDecrypt(value, cipher, valid)
  {
    if !(PREFIX <= value) {
      return value;
    }
    var hex := value[|PREFIX|..];
    if |hex| < 56 {
      return value;
    }
    var combined := FromHex(hex);
    if combined.None? || |combined.value| < NONCE + BLOCK || (|combined.value| - NONCE) % BLOCK != 0 {
      return value;
    }
    var text := DecryptStored(combined.value, cipher);
    s := if valid(text) then text else value;
  }

  /** Decryption in a buffer of its own, and what is left of that without the padding. */
  method DecryptStored(combined: bytes, cipher: Block -> Block) returns (text: bytes)
    requires |combined| >= NONCE + BLOCK && (|combined| - NONCE) % BLOCK == 0
    ensures text == Unpad(Ctr(combined[NONCE..], cipher, Start(combined[..NONCE])))
  {
    var start, ciphertext := Start(combined[..NONCE]), combined[NONCE..];
    var counter := new u8[BLOCK](i requires 0 <= i < BLOCK => start[i]);
    assert counter[..] == start;
    var buf := new u8[|ciphertext|](i requires 0 <= i < |ciphertext| => ciphertext[i]);
    assert buf[..] == ciphertext;
    CtrCrypt(buf, cipher, counter);
    var len := TruncatePadding(buf);
    text := buf[..len];
  }

  /** How much of the buffer to keep. */
  method TruncatePadding(buf: array<u8>) returns (len: nat)
    ensures len <= buf.Length && buf[..len] == Unpad(buf[..])
  {
    len := buf.Length;
    if len == 0 {
      return;
    }
    var n: nat := buf[len - 1];
    if 0 < n <= BLOCK && n <= len {
      var i, good := len - n, true;
      while i < buf.Length
        invariant len - n <= i <= buf.Length
        invariant good == forall k :: len - n <= k < i ==> buf[k] == n
      {
        good := good && buf[i] == n;
        i := i + 1;
      }
      if good {
        len := len - n;
      }
    }
  }
}
