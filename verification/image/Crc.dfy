/** The 32-bit CRC of firmware images: eight shift/xor steps a byte by definition, one table look-up
    a byte in `asustrx/asustrx.c` (UPDC32) and `brcm-src-2.6/rts/src/crc.c` (CRC_INNER_LOOP).
 */
module ICrcBits {
  // One step of the shift register, with polynomial 0xedb88320
  function Shift(c: bv32): bv32 {
    if c & 1 == 1 then (c >> 1) ^ 0xedb88320 else c >> 1
  }

  function Xor(x: bv32, y: bv32): bv32 {
    x ^ y
  }

  function Unshift(c: bv32): bv32 {
    if c & 0x80000000 != 0 then ((c ^ 0xedb88320) << 1) | 1 else c << 1
  }

  lemma LowBit(x: bv32, y: bv32)
    ensures (x ^ y) & 1 == (x & 1) ^ (y & 1)
    ensures x & 1 == 0 || x & 1 == 1
  {
  }

  lemma HighBits(x: bv32, y: bv32)
    ensures (x ^ y) >> 1 == (x >> 1) ^ (y >> 1)
  {
  }

  lemma Cancel(a: bv32, b: bv32, p: bv32)
    ensures (a ^ p) ^ (b ^ p) == a ^ b && (a ^ b) ^ p == (a ^ p) ^ b && (a ^ b) ^ p == a ^ (b ^ p)
  {
  }

  lemma ShiftLinear(x: bv32, y: bv32)
    ensures Shift(Xor(x, y)) == Xor(Shift(x), Shift(y))
  {
    LowBit(x, y);
    LowBit(y, x);
    HighBits(x, y);
    Cancel(x >> 1, y >> 1, 0xedb88320);
  }

  lemma BitsBack(c: bv32)
    ensures var d := if c & 1 == 1 then (c >> 1) ^ 0xedb88320 else c >> 1;
      c == if d & 0x80000000 != 0 then ((d ^ 0xedb88320) << 1) | 1 else d << 1
  {
  }

  lemma ShiftBack(c: bv32)
    ensures Unshift(Shift(c)) == c
  {
    BitsBack(c);
  }
}

module ICrc {
  import opened HWords
  import opened ICrcBits

  const INIT: Word := 0xFFFFFFFF

  function Bits(c: Word, n: nat): Word
    decreases n
  {
    if n == 0 then c else Bits(Shift(c), n - 1)
  }

  // The definition: a byte goes into the low end, and eight bits are shifted out
  function Update(c: Word, octet: Byte): Word {
    Bits(Xor(c, octet as Word), 8)
  }

  function Crc(c: Word, s: seq<Byte>): Word {
    if s == [] then c else Update(Crc(c, s[..|s| - 1]), s[|s| - 1])
  }

  // The table entries are what eight steps make of a byte
  function Table(i: Byte): Word {
    Bits(i as Word, 8)
  }

  function LowByte(c: Word): Byte {
    (c & 0xff) as Byte
  }

  function Updc32(octet: Byte, crc: Word): Word {
    Xor(Table(LowByte(Xor(crc, octet as Word))), crc >> 8)
  }

  lemma {:induction false} BitsXor(x: Word, y: Word, n: nat)
    ensures Bits(Xor(x, y), n) == Xor(Bits(x, n), Bits(y, n))
    decreases n
  {
    hide Shift, Xor;
    if n > 0 {
      ShiftLinear(x, y);
      BitsXor(Shift(x), Shift(y), n - 1);
    }
  }

  lemma {:induction false} BitsInjective(x: Word, y: Word, n: nat)
    requires Bits(x, n) == Bits(y, n)
    ensures x == y
    decreases n
  {
    hide Shift, Unshift;
    if n > 0 {
      BitsInjective(Shift(x), Shift(y), n - 1);
      ShiftBack(x);
      ShiftBack(y);
    }
  }

  lemma {:induction false} BitsAdd(c: Word, m: nat, n: nat)
    ensures Bits(Bits(c, m), n) == Bits(c, m + n)
    decreases m
  {
    hide Shift;
    if m > 0 {
      BitsAdd(Shift(c), m - 1, n);
    }
  }

  lemma EvenBits(z: Word)
    requires z & 0x80000000 == 0
    ensures (z << 1) & 1 == 0 && (z << 1) >> 1 == z
  {
  }

  lemma ShiftEven(z: Word)
    requires z & 0x80000000 == 0
    ensures Shift(z << 1) == z
  {
    EvenBits(z);
  }

  lemma Doubles(z: Word)
    requires z & 0xFF000000 == 0
    ensures z << 8 == (z << 7) << 1 && z << 7 == (z << 6) << 1 && z << 6 == (z << 5) << 1 && z << 5 == (z << 4) << 1
    ensures z << 4 == (z << 3) << 1 && z << 3 == (z << 2) << 1 && z << 2 == (z << 1) << 1
    ensures (z << 7) & 0x80000000 == 0 && (z << 6) & 0x80000000 == 0 && (z << 5) & 0x80000000 == 0
    ensures (z << 4) & 0x80000000 == 0 && (z << 3) & 0x80000000 == 0 && (z << 2) & 0x80000000 == 0
    ensures (z << 1) & 0x80000000 == 0 && z & 0x80000000 == 0
  {
  }

  predicate Small(z: Word) {
    z & 0xFF000000 == 0
  }

  function Up8(z: Word): Word {
    z << 8
  }

  // Zeros are just shifted out
  lemma ByteOut(z: Word)
    requires Small(z)
    ensures Bits(Up8(z), 8) == z
  {
    Doubles(z);
    ShiftEven(z << 7);
    ShiftEven(z << 6);
    ShiftEven(z << 5);
    ShiftEven(z << 4);
    ShiftEven(z << 3);
    ShiftEven(z << 2);
    ShiftEven(z << 1);
    ShiftEven(z);
    hide Shift;
    EightSteps(z << 8);
  }

  lemma EightSteps(c: Word)
    ensures Bits(c, 8) == Shift(Shift(Shift(Shift(Shift(Shift(Shift(Shift(c))))))))
  {
    hide Shift;
    var d := Shift(Shift(Shift(Shift(c))));
    assert Bits(c, 8) == Bits(Shift(c), 7) == Bits(Shift(Shift(c)), 6) == Bits(Shift(Shift(Shift(c))), 5) == Bits(d, 4);
    assert Bits(d, 4) == Bits(Shift(d), 3) == Bits(Shift(Shift(d)), 2) == Bits(Shift(Shift(Shift(d))), 1);
    assert Bits(Shift(Shift(Shift(d))), 1) == Bits(Shift(Shift(Shift(Shift(d)))), 0);
  }

  lemma LowHigh(c: Word, o: Word)
    requires o & 0xFFFFFF00 == 0
    ensures c ^ o == (((c ^ o) & 0xff) as Byte) as Word ^ ((c >> 8) << 8)
    ensures (c >> 8) & 0xFF000000 == 0
  {
  }

  lemma ByteIsLow(octet: Byte)
    ensures octet as Word & 0xFFFFFF00 == 0
  {
  }

  lemma LowXor(c: Word, octet: Byte)
    ensures Xor(c, octet as Word) == Xor(LowByte(Xor(c, octet as Word)) as Word, (c >> 8) << 8)
    ensures (c >> 8) & 0xFF000000 == 0
  {
    ByteIsLow(octet);
    LowHigh(c, octet as Word);
  }

  lemma Halves(c: Word, octet: Byte)
    ensures Xor(c, octet as Word) == Xor(LowByte(Xor(c, octet as Word)) as Word, Up8(c >> 8))
    ensures Small(c >> 8)
  {
    LowXor(c, octet);
    hide Xor, LowByte;
  }

  // The table look-up is eight steps
  lemma TableStep(octet: Byte, c: Word)
    ensures Updc32(octet, c) == Update(c, octet)
  {
    Halves(c, octet);
    hide Bits, Xor, LowByte, Up8, Small;
    BitsXor(LowByte(Xor(c, octet as Word)) as Word, Up8(c >> 8), 8);
    ByteOut(c >> 8);
  }

  lemma {:induction false} CrcConcat(c: Word, a: seq<Byte>, b: seq<Byte>)
    ensures Crc(c, a + b) == Crc(Crc(c, a), b)
  {
    hide Update;
    if b == [] {
      assert a + b == a;
    } else {
      CrcConcat(c, a, b[..|b| - 1]);
      assert (a + b)[..|a + b| - 1] == a + b[..|b| - 1];
    }
  }

  // `crc32buf`, and `crc32` with a start value
  method Crc32(c: Word, buf: seq<Byte>) returns (crc: Word)
    ensures crc == Crc(c, buf)
  {
    hide Update, Updc32;
    crc := c;
    var i := 0;
    while i < |buf|
      invariant i <= |buf| && crc == Crc(c, buf[..i])
    {
      TableStep(buf[i], crc);
      crc := Updc32(buf[i], crc);
      assert buf[..i + 1][..i] == buf[..i];
      i := i + 1;
    }
    assert buf[..i] == buf;
  }

  // The check value of this CRC, of the digits 1 to 9; the complement of 0xCBF43926, since nothing
  // inverts the register in the end
  lemma CheckValue()
    ensures Crc(INIT, [0x31, 0x32, 0x33, 0x34, 0x35, 0x36, 0x37, 0x38, 0x39]) == 0x340BC6D9
  {
    hide Crc, Update;
    FirstDigits();
    LastDigits();
    var s := [0x31];
    CrcNothing(INIT);
    CrcOne(INIT, [], 0x31);
    CrcOne(INIT, s, 0x32);
    CrcOne(INIT, s + [0x32], 0x33);
    CrcOne(INIT, s + [0x32] + [0x33], 0x34);
    CrcOne(INIT, s + [0x32] + [0x33] + [0x34], 0x35);
    CrcOne(INIT, s + [0x32] + [0x33] + [0x34] + [0x35], 0x36);
    CrcOne(INIT, s + [0x32] + [0x33] + [0x34] + [0x35] + [0x36], 0x37);
    CrcOne(INIT, s + [0x32] + [0x33] + [0x34] + [0x35] + [0x36] + [0x37], 0x38);
    CrcOne(INIT, s + [0x32] + [0x33] + [0x34] + [0x35] + [0x36] + [0x37] + [0x38], 0x39);
    assert [] + [0x31] == s;
    assert s + [0x32] + [0x33] + [0x34] + [0x35] + [0x36] + [0x37] + [0x38] + [0x39]
      == [0x31, 0x32, 0x33, 0x34, 0x35, 0x36, 0x37, 0x38, 0x39];
  }

  lemma CrcNothing(c: Word)
    ensures Crc(c, []) == c
  {
  }

  lemma CrcOne(c: Word, s: seq<Byte>, octet: Byte)
    ensures Crc(c, s + [octet]) == Update(Crc(c, s), octet)
  {
    hide Update;
    assert (s + [octet])[..|s|] == s;
  }

  lemma FirstDigits()
    ensures Update(0xFFFFFFFF, 0x31) == 0x7C231048 && Update(0x7C231048, 0x32) == 0xB0ACBB32
    ensures Update(0xB0ACBB32, 0x33) == 0x77B79C2D && Update(0x77B79C2D, 0x34) == 0x641C1F5C
    ensures Update(0x641C1F5C, 0x35) == 0x340AC5E3
  {
  }

  lemma LastDigits()
    ensures Update(0x340AC5E3, 0x36) == 0xF68D2C9E && Update(0xF68D2C9E, 0x37) == 0xAFFC9660
    ensures Update(0xAFFC9660, 0x38) == 0x651F2550 && Update(0x651F2550, 0x39) == 0x340BC6D9
  {
  }

  // ---------------------------------------------------------------- what the check detects

  lemma Associative(a: Word, b: Word, c: Word)
    ensures Xor(a, Xor(b, c)) == Xor(Xor(a, b), c)
  {
    Cancel(a, c, b);
  }

  // The bytes still to come may be xored in at once
  lemma Feed(c: Word, octet: Byte, rest: Word, n: nat)
    requires Small(rest)
    ensures Bits(Xor(c, Xor(octet as Word, Up8(rest))), 8 + n) == Bits(Xor(Update(c, octet), rest), n)
  {
    var o := octet as Word;
    Associative(c, o, Up8(rest));
    BitsAdd(Xor(Xor(c, o), Up8(rest)), 8, n);
    BitsXor(Xor(c, o), Up8(rest), 8);
    ByteOut(rest);
    hide Bits, Xor, Up8, Small;
  }

  lemma FeedLast(c: Word, octet: Byte)
    ensures Bits(Xor(c, octet as Word), 8) == Update(c, octet)
  {
  }

  function From1(x1: Byte, x2: Byte, x3: Byte): Word {
    Xor(x1 as Word, Up8(From2(x2, x3)))
  }

  function From2(x2: Byte, x3: Byte): Word {
    Xor(x2 as Word, Up8(x3 as Word))
  }

  lemma SmallBits(x0: Byte, x1: Byte, x2: Byte, x3: Byte)
    ensures (x2 as Word ^ ((x3 as Word) << 8)) & 0xFF000000 == 0 && x3 as Word & 0xFF000000 == 0
    ensures (x1 as Word ^ ((x2 as Word ^ ((x3 as Word) << 8)) << 8)) & 0xFF000000 == 0
    ensures x0 as Word ^ ((x1 as Word ^ ((x2 as Word ^ ((x3 as Word) << 8)) << 8)) << 8)
      == (x3 as bv32 << 24) | (x2 as bv32 << 16) | (x1 as bv32 << 8) | x0 as bv32
    ensures (x3 as Word) ^ (0 << 8) == x3 as Word
  {
  }

  lemma Parts(x0: Byte, x1: Byte, x2: Byte, x3: Byte)
    ensures Small(From2(x2, x3)) && Small(From1(x1, x2, x3)) && Small(x3 as Word)
    ensures Xor(x0 as Word, Up8(From1(x1, x2, x3))) == Join(x3, x2, x1, x0)
  {
    SmallBits(x0, x1, x2, x3);
  }

  lemma TwoBytes(c: Word, x2: Byte, x3: Byte)
    ensures Bits(Xor(c, From2(x2, x3)), 16) == Update(Update(c, x2), x3)
  {
    Parts(0, 0, x2, x3);
    hide Bits, Xor, Update, Up8, Small;
    Feed(c, x2, x3 as Word, 8);
    FeedLast(Update(c, x2), x3);
  }

  lemma ThreeBytes(c: Word, x1: Byte, x2: Byte, x3: Byte)
    ensures Bits(Xor(c, From1(x1, x2, x3)), 24) == Update(Update(Update(c, x1), x2), x3)
  {
    Parts(0, x1, x2, x3);
    TwoBytes(Update(c, x1), x2, x3);
    hide Bits, Xor, Update, Up8, Small, From2;
    Feed(c, x1, From2(x2, x3), 16);
  }

  // Four bytes are 32 steps on the word they make
  lemma FourSteps(c: Word, x0: Byte, x1: Byte, x2: Byte, x3: Byte)
    ensures Update(Update(Update(Update(c, x0), x1), x2), x3) == Bits(Xor(c, Join(x3, x2, x1, x0)), 32)
  {
    Parts(x0, x1, x2, x3);
    ThreeBytes(Update(c, x0), x1, x2, x3);
    hide Bits, Xor, Join, Update, From1, From2, Up8, Small;
    Feed(c, x0, From1(x1, x2, x3), 24);
  }

  lemma FourBytes(c: Word, x: seq<Byte>)
    requires |x| == 4
    ensures Crc(c, x) == Bits(Xor(c, Join(x[3], x[2], x[1], x[0])), 32)
  {
    FourUpdates(c, x);
    FourSteps(c, x[0], x[1], x[2], x[3]);
    hide Bits, Xor, Crc, Join, Update;
  }

  lemma FourUpdates(c: Word, x: seq<Byte>)
    requires |x| == 4
    ensures Crc(c, x) == Update(Update(Update(Update(c, x[0]), x[1]), x[2]), x[3])
  {
    hide Update;
    assert x[..3][..2] == x[..2] && x[..2][..1] == x[..1] && x[..1][..0] == [];
    assert Crc(c, x[..1]) == Update(c, x[0]);
    assert Crc(c, x[..2]) == Update(Crc(c, x[..1]), x[1]);
    assert Crc(c, x[..3]) == Update(Crc(c, x[..2]), x[2]);
  }

  lemma XorInjective(c: Word, d: Word, x: Word)
    ensures (Xor(c, x) == Xor(d, x) ==> c == d) && (Xor(x, c) == Xor(x, d) ==> c == d)
  {
  }

  lemma {:induction false} CrcInjective(c: Word, d: Word, s: seq<Byte>)
    requires Crc(c, s) == Crc(d, s)
    ensures c == d
  {
    hide Bits, Xor;
    if s != [] {
      var c', d', x := Crc(c, s[..|s| - 1]), Crc(d, s[..|s| - 1]), s[|s| - 1] as Word;
      BitsInjective(Xor(c', x), Xor(d', x), 8);
      XorInjective(c', d', x);
      CrcInjective(c, d, s[..|s| - 1]);
    }
  }

  lemma FourDiffer(c: Word, x: seq<Byte>, y: seq<Byte>)
    requires |x| == |y| == 4 && Crc(c, x) == Crc(c, y)
    ensures x == y
  {
    hide Bits, Xor, Crc, Join, Byte0, Byte1, Byte2, Byte3;
    FourBytes(c, x);
    FourBytes(c, y);
    var wx, wy := Join(x[3], x[2], x[1], x[0]), Join(y[3], y[2], y[1], y[0]);
    BitsInjective(Xor(c, wx), Xor(c, wy), 32);
    XorInjective(wx, wy, c);
    BytesJoin(x[3], x[2], x[1], x[0]);
    BytesJoin(y[3], y[2], y[1], y[0]);
  }

  // Damage within four bytes in a row never goes unnoticed
  lemma BurstDetected(c: Word, a: seq<Byte>, x: seq<Byte>, y: seq<Byte>, b: seq<Byte>)
    requires |x| == |y| <= 4 && Crc(c, a + x + b) == Crc(c, a + y + b)
    ensures x == y
  {
    hide Crc;
    CrcConcat(c, a + x, b);
    CrcConcat(c, a + y, b);
    CrcInjective(Crc(c, a + x), Crc(c, a + y), b);
    CrcConcat(c, a, x);
    CrcConcat(c, a, y);
    var d, z := Crc(c, a), seq(4 - |x|, _ => 0 as Byte);
    CrcConcat(d, x, z);
    CrcConcat(d, y, z);
    FourDiffer(d, x + z, y + z);
    assert x == (x + z)[..|x|] && y == (y + z)[..|x|];
  }
}
