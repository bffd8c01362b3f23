/** Machine integers and their byte encodings, shared by every component. */
module Bytes {
  type u8 = x: int | 0 <= x < 0x100
  type u16 = x: int | 0 <= x < 0x1_0000
  type u32 = x: int | 0 <= x < 0x1_0000_0000
  type bytes = seq<u8>

  datatype Option<+T> = None | Some(value: T)
  datatype Result<+T, +E> = Ok(value: T) | Err(error: E)

  /** The bit pattern of a byte. */
  function Bits(b: u8): bv8 {
    b as bv8
  }

  lemma BitsRange(v: int)
    requires 0 <= v < 0x100
    ensures (v as bv8) as int == v
  {
    assert v % 0x100 == v;
  }

  lemma BitsValue(b: u8)
    ensures Bits(b) as int == b
  {
    BitsRange(b);
  }

  lemma BitsInjective(a: u8, b: u8)
    requires Bits(a) == Bits(b)
    ensures a == b
  {
    BitsValue(a);
    BitsValue(b);
  }

  lemma BitsOf(v: bv8)
    ensures Bits(v as int) == v
  {}

  /** Bitwise AND: what programming NOR flash does to the byte already there. */
  function And(a: u8, b: u8): u8 {
    (Bits(a) & Bits(b)) as int
  }

  lemma AndErased(b: u8)
    ensures And(0xFF, b) == b
  {
    var v := Bits(b);
    assert 0xFF & v == v;
    BitsValue(b);
  }

  lemma AndErasedRight(b: u8)
    ensures And(b, 0xFF) == b
  {
    var v := Bits(b);
    assert v & 0xFF == v;
    BitsValue(b);
  }

  function Xor(a: u8, b: u8): u8 {
    (Bits(a) ^ Bits(b)) as int
  }

  lemma XorBits(a: u8, b: u8)
    ensures Bits(Xor(a, b)) == Bits(a) ^ Bits(b)
  {
    BitsOf(Bits(a) ^ Bits(b));
  }

  lemma XorTwice(a: u8, k: u8)
    ensures Xor(Xor(a, k), k) == a
  {
    XorBits(a, k);
    var x, y := Bits(a), Bits(k);
    assert (x ^ y) ^ y == x;
    BitsValue(a);
  }

  /** XOR vanishes exactly on equal bytes. */
  lemma XorZero(a: u8, b: u8)
    ensures Xor(a, b) == 0 <==> a == b
  {
    XorBits(a, b);
    var x, y := Bits(a), Bits(b);
    assert x ^ y == 0 <==> x == y;
    BitsValue(Xor(a, b));
    if x == y {
      BitsInjective(a, b);
    }
  }

  function XorSeq(a: bytes, b: bytes): (r: bytes)
    requires |a| == |b|
    ensures |r| == |a|
  {
    seq(|a|, i requires 0 <= i < |a| => Xor(a[i], b[i]))
  }

  function Join(parts: seq<bytes>): bytes {
    if parts == [] then [] else parts[0] + Join(parts[1..])
  }

  /** `n` copies of `b`. */
  function Fill(n: nat, b: u8): (s: bytes)
    ensures |s| == n && forall i :: 0 <= i < n ==> s[i] == b
  {
    seq(n, i => b)
  }

  function ToLe32(x: u32): (s: bytes)
    ensures |s| == 4
  {
    [x % 0x100, x / 0x100 % 0x100, x / 0x1_0000 % 0x100, x / 0x100_0000]
  }

  function FromLe32(s: bytes): u32
    requires |s| == 4
  {
    var b0: int, b1: int, b2: int, b3: int := s[0], s[1], s[2], s[3];
    b0 + 0x100 * b1 + 0x1_0000 * b2 + 0x100_0000 * b3
  }

  lemma Le32RoundTrip(x: u32)
    ensures FromLe32(ToLe32(x)) == x
  {
    assert x / 0x100 == 0x100 * (x / 0x1_0000) + x / 0x100 % 0x100;
    assert x / 0x1_0000 == 0x100 * (x / 0x100_0000) + x / 0x1_0000 % 0x100;
  }

  function ToBe16(x: u16): (s: bytes)
    ensures |s| == 2
  {
    [x / 0x100, x % 0x100]
  }

  function FromBe16(hi: u8, lo: u8): u16 {
    var h: int := hi;
    0x100 * h + lo
  }

  lemma SplitAt<T>(s: seq<T>, i: nat)
    requires i < |s|
    ensures s == s[..i] + ([s[i]] + s[i + 1..])
  {}
}
