/** Message digests by definition: the message is padded and the blocks are folded, one after the
    other, into the state (section 4 of FIPS 180-1, sections 3.1 to 3.5 of RFC 1321).
 */
module HStream {
  import opened HWords
  import HSha1
  import HMd5

  datatype Alg = Sha1 | Md5

  function Initial(alg: Alg): (h: seq<Word>)
    ensures |h| == Size(alg)
  {
    if alg.Sha1? then [0x67452301, 0xEFCDAB89, 0x98BADCFE, 0x10325476, 0xC3D2E1F0]
    else [0x67452301, 0xefcdab89, 0x98badcfe, 0x10325476]
  }

  function Size(alg: Alg): nat {
    if alg.Sha1? then 5 else 4
  }

  function Compress(alg: Alg, h: seq<Word>, block: seq<Byte>): (r: seq<Word>)
    requires |h| == Size(alg) && |block| == 64
    ensures |r| == Size(alg)
  {
    if alg.Sha1? then HSha1.Compress(h, block) else HMd5.Compress(h, block)
  }

  // All full blocks of `m`
  function Blocks(alg: Alg, h: seq<Word>, m: seq<Byte>): (r: seq<Word>)
    requires |h| == Size(alg)
    ensures |r| == Size(alg)
    decreases |m|
  {
    if |m| < 64 then h else Blocks(alg, Compress(alg, h, m[..64]), m[64..])
  }

  // A single 1 bit, then zeros until 64 bits are left in the last block
  function Padding(n: nat): (p: seq<Byte>)
    ensures 1 <= |p| <= 64 && (n + |p|) % 64 == 56
    ensures p[0] == 0x80 && forall i | 0 < i < |p| :: p[i] == 0
  {
    [0x80] + seq((119 - n % 64) % 64, _ => 0)
  }

  // The length in bits, modulo 2^64; SHA-1 has the high word and the high bytes first
  function LengthBytes(alg: Alg, n: nat): (s: seq<Byte>)
    ensures |s| == 8
  {
    var low, high := (8 * n % TWO_32) as bv32, (8 * n / TWO_32 % TWO_32) as bv32;
    Encode(alg.Sha1?, if alg.Sha1? then [high, low] else [low, high])
  }

  function Padded(alg: Alg, m: seq<Byte>): seq<Byte> {
    m + Padding(|m|) + LengthBytes(alg, |m|)
  }

  // Whole blocks
  lemma PaddedWhole(alg: Alg, m: seq<Byte>)
    ensures |Padded(alg, m)| % 64 == 0
  {
    hide LengthBytes;
    var k := |Padding(|m|)|;
    hide Padding;
    assert |Padded(alg, m)| == |m| + k + 8;
    hide Padded;
    LastEight(|m| + k);
  }

  lemma LastEight(n: nat)
    requires n % 64 == 56
    ensures (n + 8) % 64 == 0
  {
  }

  function Digest(alg: Alg, m: seq<Byte>): (d: seq<Byte>)
    ensures |d| == 4 * Size(alg)
  {
    Encode(alg.Sha1?, Blocks(alg, Initial(alg), Padded(alg, m)))
  }

  lemma {:induction false} BlocksAppend(alg: Alg, h: seq<Word>, a: seq<Byte>, b: seq<Byte>)
    requires |h| == Size(alg) && |a| % 64 == 0
    ensures Blocks(alg, h, a + b) == Blocks(alg, Blocks(alg, h, a), b)
    decreases |a|
  {
    hide Compress;
    if |a| == 0 {
      assert a + b == b;
    } else {
      BlocksAppend(alg, Compress(alg, h, a[..64]), a[64..], b);
      assert (a + b)[..64] == a[..64] && (a + b)[64..] == a[64..] + b;
    }
  }

  // The full blocks of a message and the rest, which waits in the buffer
  function Whole(m: seq<Byte>): seq<Byte> {
    m[..|m| - |m| % 64]
  }

  function Tail(m: seq<Byte>): seq<Byte> {
    m[|m| - |m| % 64..]
  }

  lemma Split(m: seq<Byte>)
    ensures Whole(m) + Tail(m) == m && |Whole(m)| % 64 == 0 && |Tail(m)| == |m| % 64
  {
  }

  lemma OneMore(alg: Alg, a: seq<Byte>, block: seq<Byte>)
    requires |a| % 64 == 0 && |block| == 64
    ensures Blocks(alg, Initial(alg), a + block) == Compress(alg, Blocks(alg, Initial(alg), a), block)
  {
    BlocksAppend(alg, Initial(alg), a, block);
    hide Compress, Initial;
    assert block[..64] == block;
  }

  lemma Remainder(n: nat, k: nat)
    requires n % 64 == 0
    ensures (n + k) % 64 == k % 64
  {
  }

  lemma ShortRest(alg: Alg, a: seq<Byte>, rest: seq<Byte>)
    requires |a| % 64 == 0 && |rest| < 64
    ensures Blocks(alg, Initial(alg), a + rest) == Blocks(alg, Initial(alg), a)
    ensures Whole(a + rest) == a && Tail(a + rest) == rest
  {
    ShortBlocks(alg, a, rest);
    ShortSplit(a, rest);
    hide Compress, Initial, Blocks, Whole, Tail;
  }

  lemma ShortBlocks(alg: Alg, a: seq<Byte>, rest: seq<Byte>)
    requires |a| % 64 == 0 && |rest| < 64
    ensures Blocks(alg, Initial(alg), a + rest) == Blocks(alg, Initial(alg), a)
  {
    hide Compress, Initial;
    BlocksAppend(alg, Initial(alg), a, rest);
  }

  lemma ShortSplit(a: seq<Byte>, rest: seq<Byte>)
    requires |a| % 64 == 0 && |rest| < 64
    ensures Whole(a + rest) == a && Tail(a + rest) == rest
  {
    Remainder(|a|, |rest|);
    var k := |a + rest| - |a + rest| % 64;
    assert k == |a|;
    assert (a + rest)[..k] == a && (a + rest)[k..] == rest;
  }

  // The state of a computation that has seen `m`: full blocks are folded, the rest is in the buffer
  ghost predicate Holds(alg: Alg, m: seq<Byte>, state: seq<Word>, buffer: seq<Byte>) {
    && |buffer| == 64
    && state == Blocks(alg, Initial(alg), Whole(m))
    && buffer[..|m| % 64] == Tail(m)
  }

  lemma HoldsAll(alg: Alg, m: seq<Byte>, state: seq<Word>, buffer: seq<Byte>)
    requires Holds(alg, m, state, buffer)
    ensures state == Blocks(alg, Initial(alg), m)
  {
    Split(m);
    ShortRest(alg, Whole(m), Tail(m));
    hide Blocks;
  }

  // `src` fits into the buffer
  lemma Buffered(alg: Alg, m: seq<Byte>, state: seq<Word>, buffer: seq<Byte>, src: seq<Byte>)
    requires Holds(alg, m, state, buffer) && |m| % 64 + |src| < 64
    ensures Holds(alg, m + src, state, Placed(buffer, |m| % 64, src))
  {
    hide Blocks;
    Split(m);
    ShortRest(alg, Whole(m), Tail(m) + src);
    assert m + src == Whole(m) + (Tail(m) + src);
    assert |Tail(m) + src| == (|m| + |src|) % 64;
    assert Placed(buffer, |m| % 64, src)[..|m| % 64 + |src|] == Tail(m) + src;
  }

  // `src` fills the buffer, which goes into the state
  lemma Filled(alg: Alg, m: seq<Byte>, state: seq<Word>, buffer: seq<Byte>, src: seq<Byte>)
    requires Holds(alg, m, state, buffer) && |m| % 64 + |src| == 64
    ensures |m + src| % 64 == 0 && |state| == Size(alg)
    ensures Compress(alg, state, Placed(buffer, |m| % 64, src)) == Blocks(alg, Initial(alg), m + src)
  {
    Split(m);
    OneMore(alg, Whole(m), Tail(m) + src);
    Regroup(m, buffer, src);
    hide Blocks, Compress, Whole, Tail, Placed;
  }

  lemma Regroup(m: seq<Byte>, buffer: seq<Byte>, src: seq<Byte>)
    requires |buffer| == 64 && buffer[..|m| % 64] == Tail(m) && |m| % 64 + |src| == 64
    ensures |m + src| % 64 == 0 && m + src == Whole(m) + (Tail(m) + src)
    ensures Placed(buffer, |m| % 64, src) == Tail(m) + src
  {
    Remainder(|m| - |m| % 64, |m| % 64 + |src|);
  }

  // `block` goes into the state from where it is
  lemma Passed(alg: Alg, m: seq<Byte>, block: seq<Byte>)
    requires |m| % 64 == 0 && |block| == 64
    ensures |m + block| % 64 == 0
    ensures Compress(alg, Blocks(alg, Initial(alg), m), block) == Blocks(alg, Initial(alg), m + block)
  {
    OneMore(alg, m, block);
  }

  // After full blocks, `src` starts a new buffer
  lemma Started(alg: Alg, m: seq<Byte>, buffer: seq<Byte>, src: seq<Byte>)
    requires |m| % 64 == 0 && |buffer| == 64 && |src| < 64
    ensures Holds(alg, m + src, Blocks(alg, Initial(alg), m), Placed(buffer, 0, src))
  {
    ShortRest(alg, m, src);
    hide Blocks;
    assert Placed(buffer, 0, src)[..|src|] == src;
  }
}
