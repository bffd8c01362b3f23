/**
 * CRC registers of 32 bits: the facts about XOR that both image and otadata checks rest on.
 */
module Registers32 {
  import opened Bytes
  import opened Lfsr

  const Word32 := Registers(0 as bv32, (a, b) => a ^ b)

  /** A byte widened to a 32-bit register. */
  function Wide(b: u8): bv32 {
    Bits(b) as bv32
  }

  lemma Exchanged(a: bv32, b: bv32, c: bv32, d: bv32)
    ensures (a ^ b) ^ (c ^ d) == (a ^ c) ^ (b ^ d)
  {}

  lemma Vanishes(a: bv32, b: bv32)
    ensures a ^ b == 0 <==> a == b
  {}

  lemma XorIs(a: bv32, b: bv32)
    ensures Word32.xor(a, b) == a ^ b
  {}

  lemma XorTwice32(a: bv32, b: bv32, c: bv32, d: bv32)
    ensures Word32.xor(Word32.xor(a, b), Word32.xor(c, d)) == (a ^ b) ^ (c ^ d)
  {
    XorIs(a, b);
    XorIs(c, d);
    XorIs(a ^ b, c ^ d);
  }

  lemma ExchangeHolds(a: bv32, b: bv32, c: bv32, d: bv32)
    ensures Exchange(Word32, a, b, c, d)
  {
    XorTwice32(a, b, c, d);
    XorTwice32(a, c, b, d);
    Exchanged(a, b, c, d);
  }

  lemma VanishHolds(a: bv32, b: bv32)
    ensures Word32.xor(a, b) == Word32.zero <==> a == b
  {
    XorIs(a, b);
    Vanishes(a, b);
  }

  lemma SpaceHolds()
    ensures Space(Word32)
  {
    assert forall a: bv32 :: Word32.xor(a, Word32.zero) == a;
    forall a: bv32, b: bv32 {
      VanishHolds(a, b);
    }
    forall a: bv32, b: bv32, c: bv32, d: bv32 {
      ExchangeHolds(a, b, c, d);
    }
  }

  /** The word of a four-byte message, with the machine's XOR spelled out. */
  lemma WordIs(m: Machine<bv32>, e: bytes)
    requires m.v == Word32 && |e| == 4
    ensures Word(m, e) == (((0 ^ m.place(e[0], 0)) ^ m.place(e[1], 1)) ^ m.place(e[2], 2)) ^ m.place(e[3], 3)
  {
    WordOfTwo(m, e);
    WordNext(m, e, 2);
    WordNext(m, e, 3);
    assert e[..4] == e;
  }

  lemma WordOfTwo(m: Machine<bv32>, e: bytes)
    requires m.v == Word32 && |e| >= 2
    ensures Word(m, e[..2]) == (0 ^ m.place(e[0], 0)) ^ m.place(e[1], 1)
  {
    WordNext(m, e, 0);
    WordNext(m, e, 1);
  }

  lemma WordNext(m: Machine<bv32>, e: bytes, k: nat)
    requires m.v == Word32 && k < |e|
    ensures Word(m, e[..0]) == 0
    ensures Word(m, e[..k + 1]) == Word(m, e[..k]) ^ m.place(e[k], k)
  {
    assert e[..k + 1][..k] == e[..k];
    XorIs(Word(m, e[..k]), m.place(e[k], k));
  }

  /** If only the zero word has no bytes in it, the machine detects every four-byte burst. */
  lemma DetectsByWord(m: Machine<bv32>)
    requires Linear(m) && Ahead(m)
    requires forall e: bytes :: |e| == 4 && Word(m, e) == m.v.zero ==> e == Fill(4, 0)
    ensures Detects(m, 4)
  {
    forall e: bytes | |e| == 4 && Fold(m, m.v.zero, e) == m.v.zero ensures e == Fill(4, 0) {
      WordParallel(m, e);
      StepsKernel(m, Word(m, e), 32);
    }
  }

  lemma ZeroBytes(e: bytes)
    requires |e| == 4 && Bits(e[0]) == 0 && Bits(e[1]) == 0 && Bits(e[2]) == 0 && Bits(e[3]) == 0
    ensures e == Fill(4, 0)
  {
    BitsInjective(e[0], 0);
    BitsInjective(e[1], 0);
    BitsInjective(e[2], 0);
    BitsInjective(e[3], 0);
  }
}

/** CRC-32/MPEG-2, the running check over the firmware image. */
module CrcMpeg {
  import opened Bytes
  import opened Lfsr
  import opened Registers32

  function Step(c: bv32): bv32 {
    if c & 0x8000_0000 != 0 then (c << 1) ^ 0x04C1_1DB7 else c << 1
  }

  function Place(b: u8, j: nat): bv32 {
    match j
    case 0 => Wide(b) << 24
    case 1 => Wide(b) << 16
    case 2 => Wide(b) << 8
    case _ => Wide(b)
  }

  const Mpeg := Machine(Word32, Step, Place)

  /** The running check of the image after `data`, starting from `crc`. */
  function Update(crc: bv32, data: bytes): bv32 {
    Fold(Mpeg, crc, data)
  }

  function Crc32(data: bytes): bv32 {
    Update(0xFFFF_FFFF, data)
  }

  method ShiftBit(crc: bv32) returns (r: bv32)
    ensures r == Step(crc)
  {
    if crc & 0x8000_0000 != 0 {
      r := (crc << 1) ^ 0x04C1_1DB7;
    } else {
      r := crc << 1;
    }
  }

  method ShiftBits(crc: bv32, n: nat) returns (r: bv32)
    ensures r == Steps(Mpeg, crc, n)
  {
    r := crc;
    for k := 0 to n
      invariant r == Steps(Mpeg, crc, k)
    {
      r := ShiftBit(r);
    }
  }

  method Crc32Update(crc: bv32, data: bytes) returns (r: bv32)
    ensures r == Update(crc, data)
  {
    r := crc;
    for i := 0 to |data|
      invariant r == Fold(Mpeg, crc, data[..i])
    {
      var mixed := r ^ (Wide(data[i]) << 24);
      r := ShiftBits(mixed, 8);
      assert data[..i + 1][..i] == data[..i];
    }
    assert data[..|data|] == data;
  }

  // The step is linear: four cases by the bits about to be shifted out.

  lemma StepLinearBothSet(c: bv32, d: bv32)
    requires c & 0x8000_0000 != 0 && d & 0x8000_0000 != 0
    ensures Step(c ^ d) == Step(c) ^ Step(d)
  {}

  lemma StepLinearOneSet(c: bv32, d: bv32)
    requires c & 0x8000_0000 != 0 && d & 0x8000_0000 == 0
    ensures Step(c ^ d) == Step(c) ^ Step(d) && Step(d ^ c) == Step(d) ^ Step(c)
  {}

  lemma StepLinearNoneSet(c: bv32, d: bv32)
    requires c & 0x8000_0000 == 0 && d & 0x8000_0000 == 0
    ensures Step(c ^ d) == Step(c) ^ Step(d)
  {
    ShiftLinear(c, d);
    ShiftNoneSet(c, d);
  }

  lemma ShiftLinear(c: bv32, d: bv32)
    requires c & 0x8000_0000 == 0 && d & 0x8000_0000 == 0
    ensures (c ^ d) << 1 == Step(c) ^ Step(d)
  {}

  lemma ShiftNoneSet(c: bv32, d: bv32)
    requires c & 0x8000_0000 == 0 && d & 0x8000_0000 == 0
    ensures Step(c ^ d) == (c ^ d) << 1
  {}

  lemma StepLinear(c: bv32, d: bv32)
    ensures Step(c ^ d) == Step(c) ^ Step(d)
  {
    if c & 0x8000_0000 != 0 {
      if d & 0x8000_0000 != 0 {
        StepLinearBothSet(c, d);
      } else {
        StepLinearOneSet(c, d);
      }
    } else if d & 0x8000_0000 != 0 {
      StepLinearOneSet(d, c);
    } else {
      StepLinearNoneSet(c, d);
    }
  }

  lemma StepKernel(c: bv32)
    ensures Step(c) == 0 <==> c == 0
  {}

  lemma StepIs(a: bv32)
    ensures Mpeg.step(a) == Step(a)
  {}

  lemma StepLinearHolds(a: bv32, b: bv32)
    ensures Mpeg.step(Word32.xor(a, b)) == Word32.xor(Mpeg.step(a), Mpeg.step(b))
  {
    XorIs(a, b);
    StepIs(a ^ b);
    StepIs(a);
    StepIs(b);
    XorIs(Step(a), Step(b));
    StepLinear(a, b);
  }

  lemma StepLawHolds()
    ensures StepLaw(Mpeg)
  {
    forall a: bv32, b: bv32 {
      StepLinearHolds(a, b);
    }
    forall a: bv32 ensures Mpeg.step(a) == Word32.zero <==> a == Word32.zero {
      StepKernel(a);
    }
  }

  lemma PlaceLinear(x: u8, y: u8)
    ensures Place(Xor(x, y), 0) == Place(x, 0) ^ Place(y, 0)
  {
    XorBits(x, y);
  }

  lemma PlaceKernel(x: u8)
    ensures Place(x, 0) == 0 <==> x == 0
  {
    BitsValue(x);
    BitsValue(0);
  }

  lemma PlaceLawHolds()
    ensures PlaceLaw(Mpeg)
  {
    forall x: u8, y: u8
      ensures Mpeg.place(Xor(x, y), 0) == Word32.xor(Mpeg.place(x, 0), Mpeg.place(y, 0))
    {
      PlaceLinear(x, y);
    }
    forall x: u8 ensures Mpeg.place(x, 0) == Word32.zero <==> x == 0 {
      PlaceKernel(x);
    }
  }

  lemma LinearHolds()
    ensures Linear(Mpeg)
  {
    SpaceHolds();
    StepLawHolds();
    PlaceLawHolds();
  }

  // A register whose outgoing bits are clear is only shifted until they are used up.

  lemma ShiftTwo(w: bv32)
    requires w & 0xC000_0000 == 0
    ensures Step(Step(w)) == w << 2
  {}

  lemma ShiftFour(w: bv32)
    requires w & 0xF000_0000 == 0
    ensures Step(Step(Step(Step(w)))) == w << 4
  {
    ShiftTwo(w);
    ShiftTwo(w << 2);
  }

  lemma ShiftFourSteps(w: bv32)
    ensures Steps(Mpeg, w, 4) == Step(Step(Step(Step(w))))
  {
    assert Steps(Mpeg, w, 1) == Step(w);
    assert Steps(Mpeg, w, 2) == Step(Step(w));
    assert Steps(Mpeg, w, 3) == Step(Step(Step(w)));
  }

  lemma ShiftEight(w: bv32)
    requires w & 0xFF00_0000 == 0
    ensures Steps(Mpeg, w, 8) == w << 8
  {
    ShiftFour(w);
    ShiftFour(w << 4);
    ShiftFourSteps(w);
    ShiftFourSteps(w << 4);
    StepsAdd(Mpeg, w, 4, 4);
  }

  lemma PlaceAhead(b: u8, j: nat)
    requires j < 3
    ensures Place(b, j + 1) & 0xFF00_0000 == 0 && Place(b, j + 1) << 8 == Place(b, j)
  {
    if j == 0 {
    } else if j == 1 {
    } else {
    }
  }

  lemma AheadHolds()
    ensures Ahead(Mpeg)
  {
    forall b: u8, j: nat | j < 3
      ensures Steps(Mpeg, Mpeg.place(b, j + 1), 8) == Mpeg.place(b, j)
    {
      PlaceAhead(b, j);
      ShiftEight(Place(b, j + 1));
    }
  }

  lemma QuartersVanish(x: bv8, y: bv8, z: bv8, t: bv8)
    requires (((0 ^ ((x as bv32) << 24)) ^ ((y as bv32) << 16)) ^ ((z as bv32) << 8)) ^ (t as bv32) == 0
    ensures x == 0 && y == 0 && z == 0 && t == 0
  {}

  lemma WordKernel(e: bytes)
    requires |e| == 4 && Word(Mpeg, e) == 0
    ensures e == Fill(4, 0)
  {
    WordIs(Mpeg, e);
    QuartersVanish(Bits(e[0]), Bits(e[1]), Bits(e[2]), Bits(e[3]));
    ZeroBytes(e);
  }

  lemma DetectsBursts()
    ensures Linear(Mpeg) && Detects(Mpeg, 4)
  {
    LinearHolds();
    AheadHolds();
    forall e: bytes | |e| == 4 && Word(Mpeg, e) == Word32.zero ensures e == Fill(4, 0) {
      WordKernel(e);
    }
    DetectsByWord(Mpeg);
  }

  /** The check of an image does not depend on how the image was cut into chunks. */
  lemma ChunksLeaveNoTrace(crc: bv32, a: bytes, b: bytes)
    ensures Update(crc, a + b) == Update(Update(crc, a), b)
  {
    FoldConcat(Mpeg, crc, a, b);
  }

  /** Two images of one length that differ only within four consecutive bytes never share a CRC. */
  lemma BurstDetected(a: bytes, b: bytes, i: nat)
    requires |a| == |b| && i <= |a|
    requires forall k :: 0 <= k < |a| && !(i <= k < i + 4) ==> a[k] == b[k]
    ensures Crc32(a) == Crc32(b) <==> a == b
  {
    DetectsBursts();
    WindowDetected(Mpeg, 0xFFFF_FFFF, a, b, i, 4);
  }

  /** What any alteration at all must look like to go unseen. */
  lemma UndetectedIffZeroSyndrome(a: bytes, b: bytes)
    requires |a| == |b|
    ensures Crc32(a) == Crc32(b) <==> Update(0, XorSeq(a, b)) == 0
  {
    LinearHolds();
    CollisionIffZeroSyndrome(Mpeg, 0xFFFF_FFFF, a, b);
  }
}


/** The reflected CRC-32 that guards the sequence number of an otadata entry. */
module CrcOta {
  import opened Bytes
  import opened Lfsr
  import opened Registers32

  function Step(c: bv32): bv32 {
    if c & 1 != 0 then (c >> 1) ^ 0xEDB8_8320 else c >> 1
  }

  function Place(b: u8, j: nat): bv32 {
    match j
    case 0 => Wide(b)
    case 1 => Wide(b) << 8
    case 2 => Wide(b) << 16
    case _ => Wide(b) << 24
  }

  const Ota := Machine(Word32, Step, Place)

  function Complement(c: bv32): bv32 {
    !c
  }

  function Crc32Ota(data: bytes): bv32 {
    Check(Ota, 0, Complement, data)
  }

  method ShiftBit(crc: bv32) returns (r: bv32)
    ensures r == Step(crc)
  {
    if crc & 1 != 0 {
      r := (crc >> 1) ^ 0xEDB8_8320;
    } else {
      r := crc >> 1;
    }
  }

  method ShiftBits(crc: bv32, n: nat) returns (r: bv32)
    ensures r == Steps(Ota, crc, n)
  {
    r := crc;
    for k := 0 to n
      invariant r == Steps(Ota, crc, k)
    {
      r := ShiftBit(r);
    }
  }

  /** One byte of the loop of `ComputeCrc32Ota`. */
  method MixByte(crc: bv32, b: u8) returns (r: bv32)
    ensures r == Feed(Ota, crc, b)
  {
    var mixed := crc ^ Wide(b);
    r := ShiftBits(mixed, 8);
  }

  method ComputeCrc32Ota(data: bytes) returns (r: bv32)
    ensures r == Crc32Ota(data)
  {
    var crc: bv32 := 0;
    for i := 0 to |data|
      invariant crc == Fold(Ota, 0, data[..i])
    {
      crc := MixByte(crc, data[i]);
      assert data[..i + 1][..i] == data[..i];
    }
    assert data[..|data|] == data;
    r := !crc;
  }

  // The step is linear: four cases by the bits about to be shifted out.

  lemma StepLinearBothSet(c: bv32, d: bv32)
    requires c & 1 != 0 && d & 1 != 0
    ensures Step(c ^ d) == Step(c) ^ Step(d)
  {}

  lemma StepLinearOneSet(c: bv32, d: bv32)
    requires c & 1 != 0 && d & 1 == 0
    ensures Step(c ^ d) == Step(c) ^ Step(d) && Step(d ^ c) == Step(d) ^ Step(c)
  {}

  lemma StepLinearNoneSet(c: bv32, d: bv32)
    requires c & 1 == 0 && d & 1 == 0
    ensures Step(c ^ d) == Step(c) ^ Step(d)
  {
    ShiftLinear(c, d);
    ShiftNoneSet(c, d);
  }

  lemma ShiftLinear(c: bv32, d: bv32)
    requires c & 1 == 0 && d & 1 == 0
    ensures (c ^ d) >> 1 == Step(c) ^ Step(d)
  {}

  lemma ShiftNoneSet(c: bv32, d: bv32)
    requires c & 1 == 0 && d & 1 == 0
    ensures Step(c ^ d) == (c ^ d) >> 1
  {}

  lemma StepLinear(c: bv32, d: bv32)
    ensures Step(c ^ d) == Step(c) ^ Step(d)
  {
    if c & 1 != 0 {
      if d & 1 != 0 {
        StepLinearBothSet(c, d);
      } else {
        StepLinearOneSet(c, d);
      }
    } else if d & 1 != 0 {
      StepLinearOneSet(d, c);
    } else {
      StepLinearNoneSet(c, d);
    }
  }

  lemma StepKernel(c: bv32)
    ensures Step(c) == 0 <==> c == 0
  {}

  lemma StepIs(a: bv32)
    ensures Ota.step(a) == Step(a)
  {}

  lemma StepLinearHolds(a: bv32, b: bv32)
    ensures Ota.step(Word32.xor(a, b)) == Word32.xor(Ota.step(a), Ota.step(b))
  {
    XorIs(a, b);
    StepIs(a ^ b);
    StepIs(a);
    StepIs(b);
    XorIs(Step(a), Step(b));
    StepLinear(a, b);
  }

  lemma StepLawHolds()
    ensures StepLaw(Ota)
  {
    forall a: bv32, b: bv32 {
      StepLinearHolds(a, b);
    }
    forall a: bv32 ensures Ota.step(a) == Word32.zero <==> a == Word32.zero {
      StepKernel(a);
    }
  }

  lemma PlaceLinear(x: u8, y: u8)
    ensures Place(Xor(x, y), 0) == Place(x, 0) ^ Place(y, 0)
  {
    XorBits(x, y);
  }

  lemma PlaceKernel(x: u8)
    ensures Place(x, 0) == 0 <==> x == 0
  {
    BitsValue(x);
    BitsValue(0);
  }

  lemma PlaceLawHolds()
    ensures PlaceLaw(Ota)
  {
    forall x: u8, y: u8
      ensures Ota.place(Xor(x, y), 0) == Word32.xor(Ota.place(x, 0), Ota.place(y, 0))
    {
      PlaceLinear(x, y);
    }
    forall x: u8 ensures Ota.place(x, 0) == Word32.zero <==> x == 0 {
      PlaceKernel(x);
    }
  }

  lemma LinearHolds()
    ensures Linear(Ota)
  {
    SpaceHolds();
    StepLawHolds();
    PlaceLawHolds();
  }

  // A register whose outgoing bits are clear is only shifted until they are used up.

  lemma ShiftTwo(w: bv32)
    requires w & 0x3 == 0
    ensures Step(Step(w)) == w >> 2
  {}

  lemma ShiftFour(w: bv32)
    requires w & 0xF == 0
    ensures Step(Step(Step(Step(w)))) == w >> 4
  {
    ShiftTwo(w);
    ShiftTwo(w >> 2);
  }

  lemma ShiftFourSteps(w: bv32)
    ensures Steps(Ota, w, 4) == Step(Step(Step(Step(w))))
  {
    assert Steps(Ota, w, 1) == Step(w);
    assert Steps(Ota, w, 2) == Step(Step(w));
    assert Steps(Ota, w, 3) == Step(Step(Step(w)));
  }

  lemma ShiftEight(w: bv32)
    requires w & 0xFF == 0
    ensures Steps(Ota, w, 8) == w >> 8
  {
    ShiftFour(w);
    ShiftFour(w >> 4);
    ShiftFourSteps(w);
    ShiftFourSteps(w >> 4);
    StepsAdd(Ota, w, 4, 4);
  }

  lemma PlaceAhead(b: u8, j: nat)
    requires j < 3
    ensures Place(b, j + 1) & 0xFF == 0 && Place(b, j + 1) >> 8 == Place(b, j)
  {
    if j == 0 {
    } else if j == 1 {
    } else {
    }
  }

  lemma AheadHolds()
    ensures Ahead(Ota)
  {
    forall b: u8, j: nat | j < 3
      ensures Steps(Ota, Ota.place(b, j + 1), 8) == Ota.place(b, j)
    {
      PlaceAhead(b, j);
      ShiftEight(Place(b, j + 1));
    }
  }

  lemma QuartersVanish(x: bv8, y: bv8, z: bv8, t: bv8)
    requires (((0 ^ (x as bv32)) ^ ((y as bv32) << 8)) ^ ((z as bv32) << 16)) ^ ((t as bv32) << 24) == 0
    ensures x == 0 && y == 0 && z == 0 && t == 0
  {}

  lemma WordKernel(e: bytes)
    requires |e| == 4 && Word(Ota, e) == 0
    ensures e == Fill(4, 0)
  {
    WordIs(Ota, e);
    QuartersVanish(Bits(e[0]), Bits(e[1]), Bits(e[2]), Bits(e[3]));
    ZeroBytes(e);
  }

  lemma DetectsBursts()
    ensures Linear(Ota) && Detects(Ota, 4)
  {
    LinearHolds();
    AheadHolds();
    forall e: bytes | |e| == 4 && Word(Ota, e) == Word32.zero ensures e == Fill(4, 0) {
      WordKernel(e);
    }
    DetectsByWord(Ota);
  }

  lemma ComplementInjective(a: bv32, b: bv32)
    requires !a == !b
    ensures a == b
  {}

  lemma InjectiveHolds()
    ensures Injective(Complement)
  {
    forall a: bv32, b: bv32 | Complement(a) == Complement(b) ensures a == b {
      ComplementInjective(a, b);
    }
  }

  /** Distinct sequence numbers have distinct checks: altering the number alone never validates. */
  lemma SequenceCheckInjective(a: bytes, b: bytes)
    requires |a| == |b| == 4
    ensures Crc32Ota(a) == Crc32Ota(b) <==> a == b
  {
    InjectiveHolds();
    DetectsBursts();
    CheckDetectsWindow(Ota, 0, Complement, a, b, 0, 4);
  }
}

/** The CRC-8 of the bus frames: polynomial 0x07, start and final XOR 0x02. */
module Crc8 {
  import opened Bytes
  import opened Lfsr

  function Step(c: bv8): bv8 {
    if c & 0x80 != 0 then (c << 1) ^ 0x07 else c << 1
  }

  const Word8 := Registers(0 as bv8, (a, b) => a ^ b)
  const Frame := Machine(Word8, Step, (b: u8, j: nat) => Bits(b))

  function Finish(c: bv8): bv8 {
    c ^ 0x02
  }

  function Compute(data: bytes): bv8 {
    Check(Frame, 0x02, Finish, data)
  }

  method ShiftBit(crc: bv8) returns (r: bv8)
    ensures r == Step(crc)
  {
    if crc & 0x80 != 0 {
      r := (crc << 1) ^ 0x07;
    } else {
      r := crc << 1;
    }
  }

  method ShiftBits(crc: bv8, n: nat) returns (r: bv8)
    ensures r == Steps(Frame, crc, n)
  {
    r := crc;
    for k := 0 to n
      invariant r == Steps(Frame, crc, k)
    {
      r := ShiftBit(r);
    }
  }

  /** One byte of the loop of `ComputeFrameCheck`. */
  method MixByte(crc: bv8, b: u8) returns (r: bv8)
    ensures r == Feed(Frame, crc, b)
  {
    var mixed := crc ^ Bits(b);
    r := ShiftBits(mixed, 8);
  }

  method ComputeFrameCheck(data: bytes) returns (r: bv8)
    ensures r == Compute(data)
  {
    var crc: bv8 := 0x02;
    for i := 0 to |data|
      invariant crc == Fold(Frame, 0x02, data[..i])
    {
      crc := MixByte(crc, data[i]);
      assert data[..i + 1][..i] == data[..i];
    }
    assert data[..|data|] == data;
    r := crc ^ 0x02;
  }

  lemma Exchanged(a: bv8, b: bv8, c: bv8, d: bv8)
    ensures (a ^ b) ^ (c ^ d) == (a ^ c) ^ (b ^ d)
  {}

  lemma Vanishes(a: bv8, b: bv8)
    ensures a ^ b == 0 <==> a == b
  {}

  lemma XorIs(a: bv8, b: bv8)
    ensures Word8.xor(a, b) == a ^ b
  {}

  lemma XorTwice8(a: bv8, b: bv8, c: bv8, d: bv8)
    ensures Word8.xor(Word8.xor(a, b), Word8.xor(c, d)) == (a ^ b) ^ (c ^ d)
  {
    XorIs(a, b);
    XorIs(c, d);
    XorIs(a ^ b, c ^ d);
  }

  lemma ExchangeHolds(a: bv8, b: bv8, c: bv8, d: bv8)
    ensures Exchange(Word8, a, b, c, d)
  {
    XorTwice8(a, b, c, d);
    XorTwice8(a, c, b, d);
    Exchanged(a, b, c, d);
  }

  lemma VanishHolds(a: bv8, b: bv8)
    ensures Word8.xor(a, b) == Word8.zero <==> a == b
  {
    XorIs(a, b);
    Vanishes(a, b);
  }

  lemma SpaceHolds()
    ensures Space(Word8)
  {
    assert forall a: bv8 :: Word8.xor(a, Word8.zero) == a;
    forall a: bv8, b: bv8 {
      VanishHolds(a, b);
    }
    forall a: bv8, b: bv8, c: bv8, d: bv8 {
      ExchangeHolds(a, b, c, d);
    }
  }

  // The step is linear: four cases by the bits about to be shifted out.

  lemma StepLinearBothSet(c: bv8, d: bv8)
    requires c & 0x80 != 0 && d & 0x80 != 0
    ensures Step(c ^ d) == Step(c) ^ Step(d)
  {}

  lemma StepLinearOneSet(c: bv8, d: bv8)
    requires c & 0x80 != 0 && d & 0x80 == 0
    ensures Step(c ^ d) == Step(c) ^ Step(d) && Step(d ^ c) == Step(d) ^ Step(c)
  {}

  lemma StepLinearNoneSet(c: bv8, d: bv8)
    requires c & 0x80 == 0 && d & 0x80 == 0
    ensures Step(c ^ d) == Step(c) ^ Step(d)
  {
    ShiftLinear(c, d);
    ShiftNoneSet(c, d);
  }

  lemma ShiftLinear(c: bv8, d: bv8)
    requires c & 0x80 == 0 && d & 0x80 == 0
    ensures (c ^ d) << 1 == Step(c) ^ Step(d)
  {}

  lemma ShiftNoneSet(c: bv8, d: bv8)
    requires c & 0x80 == 0 && d & 0x80 == 0
    ensures Step(c ^ d) == (c ^ d) << 1
  {}

  lemma StepLinear(c: bv8, d: bv8)
    ensures Step(c ^ d) == Step(c) ^ Step(d)
  {
    if c & 0x80 != 0 {
      if d & 0x80 != 0 {
        StepLinearBothSet(c, d);
      } else {
        StepLinearOneSet(c, d);
      }
    } else if d & 0x80 != 0 {
      StepLinearOneSet(d, c);
    } else {
      StepLinearNoneSet(c, d);
    }
  }

  lemma StepKernel(c: bv8)
    ensures Step(c) == 0 <==> c == 0
  {}

  lemma StepIs(a: bv8)
    ensures Frame.step(a) == Step(a)
  {}

  lemma StepLinearHolds(a: bv8, b: bv8)
    ensures Frame.step(Word8.xor(a, b)) == Word8.xor(Frame.step(a), Frame.step(b))
  {
    XorIs(a, b);
    StepIs(a ^ b);
    StepIs(a);
    StepIs(b);
    XorIs(Step(a), Step(b));
    StepLinear(a, b);
  }

  lemma StepLawHolds()
    ensures StepLaw(Frame)
  {
    forall a: bv8, b: bv8 {
      StepLinearHolds(a, b);
    }
    forall a: bv8 ensures Frame.step(a) == Word8.zero <==> a == Word8.zero {
      StepKernel(a);
    }
  }

  lemma PlaceLawHolds()
    ensures PlaceLaw(Frame)
  {
    forall x: u8, y: u8
      ensures Frame.place(Xor(x, y), 0) == Word8.xor(Frame.place(x, 0), Frame.place(y, 0))
    {
      XorBits(x, y);
    }
    forall x: u8 ensures Frame.place(x, 0) == Word8.zero <==> x == 0 {
      BitsValue(x);
    }
  }

  lemma LinearHolds()
    ensures Linear(Frame)
  {
    SpaceHolds();
    StepLawHolds();
    PlaceLawHolds();
  }

  lemma DetectsBytes()
    ensures Detects(Frame, 1)
  {
    LinearHolds();
    forall e: bytes | |e| == 1 && Fold(Frame, Word8.zero, e) == Word8.zero ensures e == Fill(1, 0) {
      DetectsByte(Frame, e);
    }
  }

  lemma FinishInjective(a: bv8, b: bv8)
    requires Finish(a) == Finish(b)
    ensures a == b
  {}

  lemma InjectiveHolds()
    ensures Injective(Finish)
  {
    forall a: bv8, b: bv8 | Finish(a) == Finish(b) ensures a == b {
      FinishInjective(a, b);
    }
  }

  /** Two frames of one length that differ at most in a single byte never share a check. */
  lemma ByteErrorDetected(a: bytes, b: bytes, i: nat)
    requires |a| == |b| && i < |a|
    requires forall k :: 0 <= k < |a| && k != i ==> a[k] == b[k]
    ensures Compute(a) == Compute(b) <==> a == b
  {
    InjectiveHolds();
    LinearHolds();
    DetectsBytes();
    CheckDetectsWindow(Frame, 0x02, Finish, a, b, i, 1);
  }
}
