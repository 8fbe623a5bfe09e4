/** The MD5 block function: section 3.4 of RFC 1321 as the definition, and its two implementations,
    the loop with rotating registers of `lanauth/md5.c` and the unrolled rounds of
    `bpalogin/gen_md5.c`.
 */
module HMd5Bits {
  import opened HWords

  // Section 3.4 of RFC 1321
  function F(x: Word, y: Word, z: Word): Word {
    (x & y) | (!x & z)
  }

  function G(x: Word, y: Word, z: Word): Word {
    (x & z) | (y & !z)
  }

  function H(x: Word, y: Word, z: Word): Word {
    x ^ y ^ z
  }

  function I(x: Word, y: Word, z: Word): Word {
    y ^ (x | !z)
  }

  // The same with one operation less, as lanauth/md5.c has them
  function F'(x: Word, y: Word, z: Word): Word {
    z ^ (x & (y ^ z))
  }

  function G'(x: Word, y: Word, z: Word): Word {
    y ^ (z & (y ^ x))
  }

  lemma BitsF(x: Word, y: Word, z: Word)
    ensures z ^ (x & (y ^ z)) == (x & y) | (!x & z)
  {
  }

  lemma BitsG(x: Word, y: Word, z: Word)
    ensures y ^ (z & (y ^ x)) == (x & z) | (y & !z)
  {
  }

  lemma SameF(x: Word, y: Word, z: Word)
    ensures F'(x, y, z) == F(x, y, z)
  {
    BitsF(x, y, z);
  }

  lemma SameG(x: Word, y: Word, z: Word)
    ensures G'(x, y, z) == G(x, y, z)
  {
    BitsG(x, y, z);
  }
}

module HMd5 {
  import opened HWords
  import opened HMd5Bits

  datatype Regs = Regs(a: Word, b: Word, c: Word, d: Word)

  // The table T: the integer part of 4294967296 times abs(sin(i + 1))
  function Table(): (t: seq<Word>)
    ensures |t| == 64
  {
    [0xd76aa478, 0xe8c7b756, 0x242070db, 0xc1bdceee, 0xf57c0faf, 0x4787c62a, 0xa8304613, 0xfd469501,
     0x698098d8, 0x8b44f7af, 0xffff5bb1, 0x895cd7be, 0x6b901122, 0xfd987193, 0xa679438e, 0x49b40821]
    + [0xf61e2562, 0xc040b340, 0x265e5a51, 0xe9b6c7aa, 0xd62f105d, 0x02441453, 0xd8a1e681, 0xe7d3fbc8,
     0x21e1cde6, 0xc33707d6, 0xf4d50d87, 0x455a14ed, 0xa9e3e905, 0xfcefa3f8, 0x676f02d9, 0x8d2a4c8a]
    + [0xfffa3942, 0x8771f681, 0x6d9d6122, 0xfde5380c, 0xa4beea44, 0x4bdecfa9, 0xf6bb4b60, 0xbebfbc70,
     0x289b7ec6, 0xeaa127fa, 0xd4ef3085, 0x04881d05, 0xd9d4d039, 0xe6db99e5, 0x1fa27cf8, 0xc4ac5665]
    + [0xf4292244, 0x432aff97, 0xab9423a7, 0xfc93a039, 0x655b59c3, 0x8f0ccc92, 0xffeff47d, 0x85845dd1,
     0x6fa87e4f, 0xfe2ce6e0, 0xa3014314, 0x4e0811a1, 0xf7537e82, 0xbd3af235, 0x2ad7d2bb, 0xeb86d391]
  }

  // Step `i` of the 64: its round, its word, its shift
  function Mixer(i: nat, x: Word, y: Word, z: Word): Word {
    if i < 16 then F(x, y, z) else if i < 32 then G(x, y, z) else if i < 48 then H(x, y, z) else I(x, y, z)
  }

  function WordIndex(i: nat): (k: nat)
    ensures k < 16
  {
    if i < 16 then i
    else if i < 32 then (5 * i + 1) % 16
    else if i < 48 then (3 * i + 5) % 16
    else 7 * i % 16
  }

  function Shift(i: nat): (s: nat)
    ensures s <= 32
  {
    if i < 16 then [7, 12, 17, 22][i % 4]
    else if i < 32 then [5, 9, 14, 20][i % 4]
    else if i < 48 then [4, 11, 16, 23][i % 4]
    else [6, 10, 15, 21][i % 4]
  }

  // a = b + ((a + f(b, c, d) + x + t) <<< s)
  function Bump(a: Word, b: Word, f: Word, x: Word, s: nat, t: Word): Word
    requires s <= 32
  {
    Add(b, Rol(Sum(a, f, x, t), s))
  }

  function Sum(a: Word, f: Word, x: Word, t: Word): Word {
    a + f + x + t
  }

  // The registers take turns: [ABCD], [DABC], [CDAB], [BCDA]
  function Step(x: seq<Word>, r: Regs, i: nat): Regs
    requires |x| == 16 && i < 64
  {
    Regs(r.d, Bump(r.a, r.b, Mixer(i, r.b, r.c, r.d), x[WordIndex(i)], Shift(i), Table()[i]), r.b, r.c)
  }

  function Steps(x: seq<Word>, r: Regs, i: nat): Regs
    requires |x| == 16 && i <= 64
  {
    if i == 0 then r else Step(x, Steps(x, r, i - 1), i - 1)
  }

  function Compress(h: seq<Word>, block: seq<Byte>): (r: seq<Word>)
    requires |h| == 4 && |block| == 64
    ensures |r| == 4
  {
    var r := Steps(Decode(false, block), Regs(h[0], h[1], h[2], h[3]), 64);
    [Add(h[0], r.a), Add(h[1], r.b), Add(h[2], r.c), Add(h[3], r.d)]
  }

  // ---------------------------------------------------------------- lanauth/md5.c

  function WorderTable(): (t: seq<nat>)
    ensures |t| == 64
  {
    [0, 1, 2, 3, 4, 5, 6, 7, 8, 9, 10, 11, 12, 13, 14, 15]
    + [1, 6, 11, 0, 5, 10, 15, 4, 9, 14, 3, 8, 13, 2, 7, 12]
    + [5, 8, 11, 14, 1, 4, 7, 10, 13, 0, 3, 6, 9, 12, 15, 2]
    + [0, 7, 14, 5, 12, 3, 10, 1, 8, 15, 6, 13, 4, 11, 2, 9]
  }

  function RorderTable(): (t: seq<nat>)
    ensures |t| == 64
  {
    [7, 12, 17, 22, 7, 12, 17, 22, 7, 12, 17, 22, 7, 12, 17, 22]
    + [5, 9, 14, 20, 5, 9, 14, 20, 5, 9, 14, 20, 5, 9, 14, 20]
    + [4, 11, 16, 23, 4, 11, 16, 23, 4, 11, 16, 23, 4, 11, 16, 23]
    + [6, 10, 15, 21, 6, 10, 15, 21, 6, 10, 15, 21, 6, 10, 15, 21]
  }

  lemma Worder(i: nat)
    requires i < 64
    ensures WorderTable()[i] == WordIndex(i)
  {
    if i < 16 {
      Cases(i, 0);
    } else if i < 32 {
      Cases(i, 16);
    } else if i < 48 {
      Cases(i, 32);
    } else {
      Cases(i, 48);
    }
  }

  lemma Rorder(i: nat)
    requires i < 64
    ensures RorderTable()[i] == Shift(i)
  {
    if i < 16 {
      Cases(i, 0);
    } else if i < 32 {
      Cases(i, 16);
    } else if i < 48 {
      Cases(i, 32);
    } else {
      Cases(i, 48);
    }
  }

  lemma Cases(i: nat, j: nat)
    requires j <= i < j + 16
    ensures i == j || i == j + 1 || i == j + 2 || i == j + 3 || i == j + 4 || i == j + 5 || i == j + 6 || i == j + 7
         || i == j + 8 || i == j + 9 || i == j + 10 || i == j + 11 || i == j + 12 || i == j + 13
         || i == j + 14 || i == j + 15
  {
  }

  // `md5_compress`; the same on the state of `bpalogin/gen_md5.c`, `MD5Transform`, is below
  method CompressLoop(state: array<Word>, buf: seq<Byte>)
    requires state.Length == 4 && |buf| == 64
    modifies state
    ensures state[..] == Compress(old(state[..]), buf)
  {
    var x := new Word[16];
    DecodeInto(false, x, buf);
    var r := Loop(x[..], Regs(state[0], state[1], state[2], state[3]));
    AddTo(state, r);
    hide Steps, Add;
  }

  method AddTo(state: array<Word>, r: Regs)
    requires state.Length == 4
    modifies state
    ensures state[..] == old([Add(state[0], r.a), Add(state[1], r.b), Add(state[2], r.c), Add(state[3], r.d)])
  {
    hide Add;
    state[0] := Add(state[0], r.a);
    state[1] := Add(state[1], r.b);
    state[2] := Add(state[2], r.c);
    state[3] := Add(state[3], r.d);
  }

  method Loop(x: seq<Word>, start: Regs) returns (r: Regs)
    requires |x| == 16
    ensures r == Steps(x, start, 64)
  {
    hide Steps, Table, WorderTable, RorderTable, Bump, F, G, F', G', H, I;
    var a, b, c, d := start.a, start.b, start.c, start.d;
    var i := 0;
    StepsFrom(x, start);
    while i < 64
      invariant 0 <= i <= 64 && Regs(a, b, c, d) == Steps(x, start, i)
    {
      SameF(b, c, d);
      SameG(b, c, d);
      Worder(i);
      Rorder(i);
      StepsNext(x, start, i);
      var f := if i < 16 then F'(b, c, d) else if i < 32 then G'(b, c, d)
        else if i < 48 then H(b, c, d) else I(b, c, d);
      a := Bump(a, b, f, x[WorderTable()[i]], RorderTable()[i], Table()[i]);
      var t := d;
      d := c;
      c := b;
      b := a;
      a := t;
      i := i + 1;
    }
    r := Regs(a, b, c, d);
  }

  lemma StepsFrom(x: seq<Word>, start: Regs)
    requires |x| == 16
    ensures Steps(x, start, 0) == start
  {
  }

  lemma StepsNext(x: seq<Word>, start: Regs, i: nat)
    requires |x| == 16 && i < 64
    ensures Steps(x, start, i + 1) == Step(x, Steps(x, start, i), i)
  {
  }
  // ---------------------------------------------------------------- bpalogin/gen_md5.c

  // FF, GG, HH and II: the rotation first, `b` last
  function FF(a: Word, b: Word, c: Word, d: Word, x: Word, s: nat, ac: Word): Word
    requires s <= 32
  {
    Macro(a, b, F(b, c, d), x, s, ac)
  }

  function GG(a: Word, b: Word, c: Word, d: Word, x: Word, s: nat, ac: Word): Word
    requires s <= 32
  {
    Macro(a, b, G(b, c, d), x, s, ac)
  }

  function HH(a: Word, b: Word, c: Word, d: Word, x: Word, s: nat, ac: Word): Word
    requires s <= 32
  {
    Macro(a, b, H(b, c, d), x, s, ac)
  }

  function II(a: Word, b: Word, c: Word, d: Word, x: Word, s: nat, ac: Word): Word
    requires s <= 32
  {
    Macro(a, b, I(b, c, d), x, s, ac)
  }

  function Macro(a: Word, b: Word, f: Word, x: Word, s: nat, ac: Word): Word
    requires s <= 32
  {
    Add(Rol(Sum'(a, f, x, ac), s), b)
  }

  function Sum'(a: Word, f: Word, x: Word, t: Word): Word {
    a + (f + x + t)
  }

  lemma MacroIsBump(a: Word, b: Word, f: Word, x: Word, s: nat, ac: Word)
    requires s <= 32
    ensures Macro(a, b, f, x, s, ac) == Bump(a, b, f, x, s, ac)
  {
    SameSum(a, f, x, ac);
    AddOrder(b, Rol(Sum(a, f, x, ac), s));
    hide Add, Sum, Sum', Rol;
  }

  lemma SameSum(a: Word, f: Word, x: Word, t: Word)
    ensures Sum'(a, f, x, t) == Sum(a, f, x, t)
  {
  }

  lemma AddOrder(a: Word, b: Word)
    ensures Add(a, b) == Add(b, a)
  {
  }

  // What one statement does to the register it assigns, where `r` says which register is which
  function Assigned(x: seq<Word>, r: Regs, i: nat): Word
    requires |x| == 16 && i < 64
  {
    Macro(r.a, r.b, Mixer(i, r.b, r.c, r.d), x[WordIndex(i)], Shift(i), Table()[i])
  }

  // Four statements: the registers have their places again
  lemma Quarter(x: seq<Word>, start: Regs, i: nat, r: Regs)
    requires |x| == 16 && i + 4 <= 64 && Steps(x, start, i) == r
    ensures var a := Assigned(x, r, i);
      var d := Assigned(x, Regs(r.d, a, r.b, r.c), i + 1);
      var c := Assigned(x, Regs(r.c, d, a, r.b), i + 2);
      var b := Assigned(x, Regs(r.b, c, d, a), i + 3);
      Steps(x, start, i + 4) == Regs(a, b, c, d)
  {
    hide Table, WordIndex, Shift, Macro, Bump, Mixer;
    var r1 := OneStep(x, start, i, r);
    var r2 := OneStep(x, start, i + 1, r1);
    var r3 := OneStep(x, start, i + 2, r2);
    var r4 := OneStep(x, start, i + 3, r3);
  }

  lemma OneStep(x: seq<Word>, start: Regs, i: nat, r: Regs) returns (r': Regs)
    requires |x| == 16 && i < 64 && Steps(x, start, i) == r
    ensures r' == Steps(x, start, i + 1) == Regs(r.d, Assigned(x, r, i), r.b, r.c)
  {
    hide Table, WordIndex, Shift, Macro, Bump, Mixer;
    StepsNext(x, start, i);
    MacroIsBump(r.a, r.b, Mixer(i, r.b, r.c, r.d), x[WordIndex(i)], Shift(i), Table()[i]);
    r' := Steps(x, start, i + 1);
  }

  // `MD5Transform`
  method Transform(state: array<Word>, block: seq<Byte>)
    requires state.Length == 4 && |block| == 64
    modifies state
    ensures state[..] == Compress(old(state[..]), block)
  {
    var x := new Word[16];
    DecodeInto(false, x, block);
    var r := Unrolled(x[..], Regs(state[0], state[1], state[2], state[3]));
    AddTo(state, r);
    hide Steps, Add;
  }

  method Unrolled(x: seq<Word>, start: Regs) returns (r: Regs)
    requires |x| == 16
    ensures r == Steps(x, start, 64)
  {
    StepsFrom(x, start);
    hide Steps;
    var a, b, c, d := start.a, start.b, start.c, start.d;
    a, b, c, d := Round1(x, a, b, c, d, start);
    a, b, c, d := Round2(x, a, b, c, d, start);
    a, b, c, d := Round3(x, a, b, c, d, start);
    a, b, c, d := Round4(x, a, b, c, d, start);
    r := Regs(a, b, c, d);
  }

  lemma Row1()
    ensures Table()[0] == 0xd76aa478 && Table()[1] == 0xe8c7b756
    ensures Table()[2] == 0x242070db && Table()[3] == 0xc1bdceee
    ensures Table()[4] == 0xf57c0faf && Table()[5] == 0x4787c62a
    ensures Table()[6] == 0xa8304613 && Table()[7] == 0xfd469501
    ensures Table()[8] == 0x698098d8 && Table()[9] == 0x8b44f7af
    ensures Table()[10] == 0xffff5bb1 && Table()[11] == 0x895cd7be
    ensures Table()[12] == 0x6b901122 && Table()[13] == 0xfd987193
    ensures Table()[14] == 0xa679438e && Table()[15] == 0x49b40821
  {
  }

  lemma Order1()
    ensures WordIndex(0) == 0 && WordIndex(1) == 1 && WordIndex(2) == 2 && WordIndex(3) == 3
    ensures WordIndex(4) == 4 && WordIndex(5) == 5 && WordIndex(6) == 6 && WordIndex(7) == 7
    ensures WordIndex(8) == 8 && WordIndex(9) == 9 && WordIndex(10) == 10 && WordIndex(11) == 11
    ensures WordIndex(12) == 12 && WordIndex(13) == 13 && WordIndex(14) == 14 && WordIndex(15) == 15
    ensures Shift(0) == 7 && Shift(1) == 12 && Shift(2) == 17 && Shift(3) == 22
    ensures Shift(4) == 7 && Shift(5) == 12 && Shift(6) == 17 && Shift(7) == 22
    ensures Shift(8) == 7 && Shift(9) == 12 && Shift(10) == 17 && Shift(11) == 22
    ensures Shift(12) == 7 && Shift(13) == 12 && Shift(14) == 17 && Shift(15) == 22
  {
  }

  method Round1(x: seq<Word>, a0: Word, b0: Word, c0: Word, d0: Word, ghost start: Regs)
    returns (a: Word, b: Word, c: Word, d: Word)
    requires |x| == 16 && Regs(a0, b0, c0, d0) == Steps(x, start, 0)
    ensures Regs(a, b, c, d) == Steps(x, start, 16)
  {
    hide Steps, Macro, F, G, H, I, Table, WordIndex, Shift;
    Row1();
    Order1();
    a, b, c, d := a0, b0, c0, d0;
    Quarter(x, start, 0, Regs(a, b, c, d));
    a := FF(a, b, c, d, x[0], 7, 0xd76aa478);
    d := FF(d, a, b, c, x[1], 12, 0xe8c7b756);
    c := FF(c, d, a, b, x[2], 17, 0x242070db);
    b := FF(b, c, d, a, x[3], 22, 0xc1bdceee);
    Quarter(x, start, 4, Regs(a, b, c, d));
    a := FF(a, b, c, d, x[4], 7, 0xf57c0faf);
    d := FF(d, a, b, c, x[5], 12, 0x4787c62a);
    c := FF(c, d, a, b, x[6], 17, 0xa8304613);
    b := FF(b, c, d, a, x[7], 22, 0xfd469501);
    Quarter(x, start, 8, Regs(a, b, c, d));
    a := FF(a, b, c, d, x[8], 7, 0x698098d8);
    d := FF(d, a, b, c, x[9], 12, 0x8b44f7af);
    c := FF(c, d, a, b, x[10], 17, 0xffff5bb1);
    b := FF(b, c, d, a, x[11], 22, 0x895cd7be);
    Quarter(x, start, 12, Regs(a, b, c, d));
    a := FF(a, b, c, d, x[12], 7, 0x6b901122);
    d := FF(d, a, b, c, x[13], 12, 0xfd987193);
    c := FF(c, d, a, b, x[14], 17, 0xa679438e);
    b := FF(b, c, d, a, x[15], 22, 0x49b40821);
  }

  lemma Row2()
    ensures Table()[16] == 0xf61e2562 && Table()[17] == 0xc040b340
    ensures Table()[18] == 0x265e5a51 && Table()[19] == 0xe9b6c7aa
    ensures Table()[20] == 0xd62f105d && Table()[21] == 0x02441453
    ensures Table()[22] == 0xd8a1e681 && Table()[23] == 0xe7d3fbc8
    ensures Table()[24] == 0x21e1cde6 && Table()[25] == 0xc33707d6
    ensures Table()[26] == 0xf4d50d87 && Table()[27] == 0x455a14ed
    ensures Table()[28] == 0xa9e3e905 && Table()[29] == 0xfcefa3f8
    ensures Table()[30] == 0x676f02d9 && Table()[31] == 0x8d2a4c8a
  {
  }

  lemma Order2()
    ensures WordIndex(16) == 1 && WordIndex(17) == 6 && WordIndex(18) == 11 && WordIndex(19) == 0
    ensures WordIndex(20) == 5 && WordIndex(21) == 10 && WordIndex(22) == 15 && WordIndex(23) == 4
    ensures WordIndex(24) == 9 && WordIndex(25) == 14 && WordIndex(26) == 3 && WordIndex(27) == 8
    ensures WordIndex(28) == 13 && WordIndex(29) == 2 && WordIndex(30) == 7 && WordIndex(31) == 12
    ensures Shift(16) == 5 && Shift(17) == 9 && Shift(18) == 14 && Shift(19) == 20
    ensures Shift(20) == 5 && Shift(21) == 9 && Shift(22) == 14 && Shift(23) == 20
    ensures Shift(24) == 5 && Shift(25) == 9 && Shift(26) == 14 && Shift(27) == 20
    ensures Shift(28) == 5 && Shift(29) == 9 && Shift(30) == 14 && Shift(31) == 20
  {
  }

  method Round2(x: seq<Word>, a0: Word, b0: Word, c0: Word, d0: Word, ghost start: Regs)
    returns (a: Word, b: Word, c: Word, d: Word)
    requires |x| == 16 && Regs(a0, b0, c0, d0) == Steps(x, start, 16)
    ensures Regs(a, b, c, d) == Steps(x, start, 32)
  {
    hide Steps, Macro, F, G, H, I, Table, WordIndex, Shift;
    Row2();
    Order2();
    a, b, c, d := a0, b0, c0, d0;
    Quarter(x, start, 16, Regs(a, b, c, d));
    a := GG(a, b, c, d, x[1], 5, 0xf61e2562);
    d := GG(d, a, b, c, x[6], 9, 0xc040b340);
    c := GG(c, d, a, b, x[11], 14, 0x265e5a51);
    b := GG(b, c, d, a, x[0], 20, 0xe9b6c7aa);
    Quarter(x, start, 20, Regs(a, b, c, d));
    a := GG(a, b, c, d, x[5], 5, 0xd62f105d);
    d := GG(d, a, b, c, x[10], 9, 0x02441453);
    c := GG(c, d, a, b, x[15], 14, 0xd8a1e681);
    b := GG(b, c, d, a, x[4], 20, 0xe7d3fbc8);
    Quarter(x, start, 24, Regs(a, b, c, d));
    a := GG(a, b, c, d, x[9], 5, 0x21e1cde6);
    d := GG(d, a, b, c, x[14], 9, 0xc33707d6);
    c := GG(c, d, a, b, x[3], 14, 0xf4d50d87);
    b := GG(b, c, d, a, x[8], 20, 0x455a14ed);
    Quarter(x, start, 28, Regs(a, b, c, d));
    a := GG(a, b, c, d, x[13], 5, 0xa9e3e905);
    d := GG(d, a, b, c, x[2], 9, 0xfcefa3f8);
    c := GG(c, d, a, b, x[7], 14, 0x676f02d9);
    b := GG(b, c, d, a, x[12], 20, 0x8d2a4c8a);
  }

  lemma Row3()
    ensures Table()[32] == 0xfffa3942 && Table()[33] == 0x8771f681
    ensures Table()[34] == 0x6d9d6122 && Table()[35] == 0xfde5380c
    ensures Table()[36] == 0xa4beea44 && Table()[37] == 0x4bdecfa9
    ensures Table()[38] == 0xf6bb4b60 && Table()[39] == 0xbebfbc70
    ensures Table()[40] == 0x289b7ec6 && Table()[41] == 0xeaa127fa
    ensures Table()[42] == 0xd4ef3085 && Table()[43] == 0x04881d05
    ensures Table()[44] == 0xd9d4d039 && Table()[45] == 0xe6db99e5
    ensures Table()[46] == 0x1fa27cf8 && Table()[47] == 0xc4ac5665
  {
  }

  lemma Order3()
    ensures WordIndex(32) == 5 && WordIndex(33) == 8 && WordIndex(34) == 11 && WordIndex(35) == 14
    ensures WordIndex(36) == 1 && WordIndex(37) == 4 && WordIndex(38) == 7 && WordIndex(39) == 10
    ensures WordIndex(40) == 13 && WordIndex(41) == 0 && WordIndex(42) == 3 && WordIndex(43) == 6
    ensures WordIndex(44) == 9 && WordIndex(45) == 12 && WordIndex(46) == 15 && WordIndex(47) == 2
    ensures Shift(32) == 4 && Shift(33) == 11 && Shift(34) == 16 && Shift(35) == 23
    ensures Shift(36) == 4 && Shift(37) == 11 && Shift(38) == 16 && Shift(39) == 23
    ensures Shift(40) == 4 && Shift(41) == 11 && Shift(42) == 16 && Shift(43) == 23
    ensures Shift(44) == 4 && Shift(45) == 11 && Shift(46) == 16 && Shift(47) == 23
  {
  }

  method Round3(x: seq<Word>, a0: Word, b0: Word, c0: Word, d0: Word, ghost start: Regs)
    returns (a: Word, b: Word, c: Word, d: Word)
    requires |x| == 16 && Regs(a0, b0, c0, d0) == Steps(x, start, 32)
    ensures Regs(a, b, c, d) == Steps(x, start, 48)
  {
    hide Steps, Macro, F, G, H, I, Table, WordIndex, Shift;
    Row3();
    Order3();
    a, b, c, d := a0, b0, c0, d0;
    Quarter(x, start, 32, Regs(a, b, c, d));
    a := HH(a, b, c, d, x[5], 4, 0xfffa3942);
    d := HH(d, a, b, c, x[8], 11, 0x8771f681);
    c := HH(c, d, a, b, x[11], 16, 0x6d9d6122);
    b := HH(b, c, d, a, x[14], 23, 0xfde5380c);
    Quarter(x, start, 36, Regs(a, b, c, d));
    a := HH(a, b, c, d, x[1], 4, 0xa4beea44);
    d := HH(d, a, b, c, x[4], 11, 0x4bdecfa9);
    c := HH(c, d, a, b, x[7], 16, 0xf6bb4b60);
    b := HH(b, c, d, a, x[10], 23, 0xbebfbc70);
    Quarter(x, start, 40, Regs(a, b, c, d));
    a := HH(a, b, c, d, x[13], 4, 0x289b7ec6);
    d := HH(d, a, b, c, x[0], 11, 0xeaa127fa);
    c := HH(c, d, a, b, x[3], 16, 0xd4ef3085);
    b := HH(b, c, d, a, x[6], 23, 0x04881d05);
    Quarter(x, start, 44, Regs(a, b, c, d));
    a := HH(a, b, c, d, x[9], 4, 0xd9d4d039);
    d := HH(d, a, b, c, x[12], 11, 0xe6db99e5);
    c := HH(c, d, a, b, x[15], 16, 0x1fa27cf8);
    b := HH(b, c, d, a, x[2], 23, 0xc4ac5665);
  }

  lemma Row4()
    ensures Table()[48] == 0xf4292244 && Table()[49] == 0x432aff97
    ensures Table()[50] == 0xab9423a7 && Table()[51] == 0xfc93a039
    ensures Table()[52] == 0x655b59c3 && Table()[53] == 0x8f0ccc92
    ensures Table()[54] == 0xffeff47d && Table()[55] == 0x85845dd1
    ensures Table()[56] == 0x6fa87e4f && Table()[57] == 0xfe2ce6e0
    ensures Table()[58] == 0xa3014314 && Table()[59] == 0x4e0811a1
    ensures Table()[60] == 0xf7537e82 && Table()[61] == 0xbd3af235
    ensures Table()[62] == 0x2ad7d2bb && Table()[63] == 0xeb86d391
  {
  }

  lemma Order4()
    ensures WordIndex(48) == 0 && WordIndex(49) == 7 && WordIndex(50) == 14 && WordIndex(51) == 5
    ensures WordIndex(52) == 12 && WordIndex(53) == 3 && WordIndex(54) == 10 && WordIndex(55) == 1
    ensures WordIndex(56) == 8 && WordIndex(57) == 15 && WordIndex(58) == 6 && WordIndex(59) == 13
    ensures WordIndex(60) == 4 && WordIndex(61) == 11 && WordIndex(62) == 2 && WordIndex(63) == 9
    ensures Shift(48) == 6 && Shift(49) == 10 && Shift(50) == 15 && Shift(51) == 21
    ensures Shift(52) == 6 && Shift(53) == 10 && Shift(54) == 15 && Shift(55) == 21
    ensures Shift(56) == 6 && Shift(57) == 10 && Shift(58) == 15 && Shift(59) == 21
    ensures Shift(60) == 6 && Shift(61) == 10 && Shift(62) == 15 && Shift(63) == 21
  {
  }

  method Round4(x: seq<Word>, a0: Word, b0: Word, c0: Word, d0: Word, ghost start: Regs)
    returns (a: Word, b: Word, c: Word, d: Word)
    requires |x| == 16 && Regs(a0, b0, c0, d0) == Steps(x, start, 48)
    ensures Regs(a, b, c, d) == Steps(x, start, 64)
  {
    hide Steps, Macro, F, G, H, I, Table, WordIndex, Shift;
    Row4();
    Order4();
    a, b, c, d := a0, b0, c0, d0;
    Quarter(x, start, 48, Regs(a, b, c, d));
    a := II(a, b, c, d, x[0], 6, 0xf4292244);
    d := II(d, a, b, c, x[7], 10, 0x432aff97);
    c := II(c, d, a, b, x[14], 15, 0xab9423a7);
    b := II(b, c, d, a, x[5], 21, 0xfc93a039);
    Quarter(x, start, 52, Regs(a, b, c, d));
    a := II(a, b, c, d, x[12], 6, 0x655b59c3);
    d := II(d, a, b, c, x[3], 10, 0x8f0ccc92);
    c := II(c, d, a, b, x[10], 15, 0xffeff47d);
    b := II(b, c, d, a, x[1], 21, 0x85845dd1);
    Quarter(x, start, 56, Regs(a, b, c, d));
    a := II(a, b, c, d, x[8], 6, 0x6fa87e4f);
    d := II(d, a, b, c, x[15], 10, 0xfe2ce6e0);
    c := II(c, d, a, b, x[6], 15, 0xa3014314);
    b := II(b, c, d, a, x[13], 21, 0x4e0811a1);
    Quarter(x, start, 60, Regs(a, b, c, d));
    a := II(a, b, c, d, x[4], 6, 0xf7537e82);
    d := II(d, a, b, c, x[11], 10, 0xbd3af235);
    c := II(c, d, a, b, x[2], 15, 0x2ad7d2bb);
    b := II(b, c, d, a, x[9], 21, 0xeb86d391);
  }
}
