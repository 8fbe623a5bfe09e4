/** The hash contexts of `authcli/sha1.c` and `bpalogin/gen_md5.c`: a message may come in pieces of
    any length. The two are the same code around their own transform.
 */
module HContext {
  import opened HWords
  import opened HStream
  import HSha1
  import HMd5

  const TWO_64: nat := TWO_32 * TWO_32

  // The two words of the bit counter
  predicate Counts(c0: nat, c1: nat, n: nat) {
    c0 < TWO_32 && c1 < TWO_32 && c0 + TWO_32 * c1 == 8 * n % TWO_64
  }

  // `(count[0] >> 3) & 0x3F`, and the bits of the length
  lemma CountsMean(c0: nat, c1: nat, n: nat)
    requires Counts(c0, c1, n)
    ensures c0 / 8 % 64 == n % 64
    ensures c0 == 8 * n % TWO_32 && c1 == 8 * n / TWO_32 % TWO_32
  {
    var q := 8 * n / TWO_64;
    var k := c1 + TWO_32 * q;
    assert 8 * n == c0 + TWO_32 * k;
    Quotient(8 * n, k, c0);
    Quotient(k, q, c1);
    Bytes(n, c0, k);
  }

  lemma Quotient(x: nat, q: nat, r: nat)
    requires x == r + TWO_32 * q && r < TWO_32
    ensures x / TWO_32 == q && x % TWO_32 == r
  {
  }

  lemma Bytes(n: nat, c0: nat, k: nat)
    requires 8 * n == c0 + TWO_32 * k
    ensures c0 / 8 % 64 == n % 64
  {
    assert n == c0 / 8 + 64 * (0x80_0000 * k);
  }

  // The addition with carry: `size << 3` into the low word, `size >> 29` into the high word
  function CountedLow(c0: nat, size: nat): nat {
    (c0 + size * 8 % TWO_32) % TWO_32
  }

  function CountedHigh(c0: nat, c1: nat, size: nat): nat {
    (c1 + (if CountedLow(c0, size) < size * 8 % TWO_32 then 1 else 0) + size / 0x2000_0000) % TWO_32
  }

  // An addition wraps around iff the sum is less than a summand
  lemma Carry(x: nat, y: nat)
    requires x < TWO_32 && y < TWO_32
    ensures x + y == (x + y) % TWO_32 + TWO_32 * (if (x + y) % TWO_32 < y then 1 else 0)
  {
  }

  lemma Shifted(size: nat)
    ensures size * 8 == size * 8 % TWO_32 + TWO_32 * (size / 0x2000_0000)
  {
  }

  lemma CountsAdd(c0: nat, c1: nat, n: nat, size: nat)
    requires Counts(c0, c1, n) && size < TWO_32
    ensures Counts(CountedLow(c0, size), CountedHigh(c0, c1, size), n + size)
  {
    var low := CountedLow(c0, size);
    var carry := if low < size * 8 % TWO_32 then 1 else 0;
    Carry(c0, size * 8 % TWO_32);
    Shifted(size);
    var high := c1 + carry + size / 0x2000_0000;
    Wrap(low, high, 8 * n, 8 * size);
  }

  lemma Wrap(low: nat, high: nat, n: nat, m: nat)
    requires low < TWO_32 && low + TWO_32 * high == n % TWO_64 + m
    ensures low + TWO_32 * (high % TWO_32) == (n + m) % TWO_64
  {
    var q, p := high / TWO_32, n / TWO_64;
    assert n + m == low + TWO_32 * (high % TWO_32) + TWO_64 * (q + p);
    Unique(n + m, q + p, low + TWO_32 * (high % TWO_32));
  }

  lemma Unique(n: nat, q: nat, r: nat)
    requires n == r + TWO_64 * q && r < TWO_64
    ensures n % TWO_64 == r
  {
  }

  class Context {
    const alg: Alg
    const state: array<Word>
    const buffer: array<Byte>
    var count0: nat
    var count1: nat
    ghost var msg: seq<Byte>  // everything it was given so far

    ghost predicate Valid()
      reads this, state, buffer
    {
      && state.Length == Size(alg) && buffer.Length == 64
      && Counts(count0, count1, |msg|)
      && Holds(alg, msg, state[..], buffer[..])
    }

    // `sha1init`, `MD5Init`
    constructor (alg: Alg)
      ensures Valid() && msg == [] && this.alg == alg && fresh(state) && fresh(buffer)
    {
      this.alg := alg;
      state := new Word[Size(alg)](i requires 0 <= i < Size(alg) => Initial(alg)[i]);
      buffer := new Byte[64];
      count0, count1, msg := 0, 0, [];
      new;
      assert state[..] == Initial(alg);
    }

    // `sha1transform`, `MD5Transform`
    method Transform(block: seq<Byte>)
      requires state.Length == Size(alg) && |block| == 64
      modifies state
      ensures state[..] == Compress(alg, old(state[..]), block)
    {
      if alg.Sha1? {
        HSha1.Transform(state, block);
      } else {
        HMd5.Transform(state, block);
      }
      hide HSha1.Compress, HMd5.Compress;
    }

    // `sha1update`, `MD5Update`
    method Update(src: seq<Byte>)
      requires Valid() && |src| < TWO_32 - 63
      modifies this, state, buffer
      ensures Valid() && msg == old(msg) + src
    {
      hide Blocks, Compress, Initial, Holds, Counts;
      ghost var m := msg;
      var index := count0 / 8 % 64;
      CountsMean(count0, count1, |msg|);
      CountsAdd(count0, count1, |msg|, |src|);
      count0, count1 := CountedLow(count0, |src|), CountedHigh(count0, count1, |src|);
      msg := msg + src;
      var partLen := 64 - index;
      var i := 0;
      if |src| >= partLen {
        i := Absorb(src, index, m);
        index := 0;
        Started(alg, m + src[..i], buffer[..], src[i..]);
      } else {
        Buffered(alg, m, state[..], buffer[..], src);
      }
      assert m + src[..i] + src[i..] == msg;
      Memcpy(buffer, index, src[i..]);
    }

    // Transform as many times as possible
    method Absorb(src: seq<Byte>, index: nat, ghost m: seq<Byte>) returns (i: nat)
      requires state.Length == Size(alg) && buffer.Length == 64 && Holds(alg, m, state[..], buffer[..])
      requires index == |m| % 64 && 64 <= index + |src| && |src| < TWO_32 - 63
      modifies state, buffer
      ensures i <= |src| < i + 64 && |m + src[..i]| % 64 == 0
      ensures state[..] == Blocks(alg, Initial(alg), m + src[..i])
    {
      hide Blocks, Compress, Initial, Holds;
      var partLen := 64 - index;
      Filled(alg, m, state[..], buffer[..], src[..partLen]);
      Memcpy(buffer, index, src[..partLen]);
      Transform(buffer[..]);
      i := partLen;
      while (i + 63) % TWO_32 < |src|
        invariant i <= |src| && |m + src[..i]| % 64 == 0
        invariant state[..] == Blocks(alg, Initial(alg), m + src[..i])
      {
        Passed(alg, m + src[..i], src[i..i + 64]);
        assert m + src[..i] + src[i..i + 64] == m + src[..i + 64];
        Transform(src[i..i + 64]);
        i := i + 64;
      }
    }

    // `sha1final`, `MD5Final`
    method Final(digest: array<Byte>)
      requires Valid() && digest.Length == 4 * Size(alg) && digest != buffer
      modifies this, state, buffer, digest
      ensures digest[..] == Digest(alg, old(msg))
    {
      hide Holds, Counts, Digest, LengthBytes, Padding, Blocks;
      var bits := SavedBits();
      CountsMean(count0, count1, |msg|);
      var index := count0 / 8 % 64;
      var padLen := if index < 56 then 56 - index else 120 - index;
      PaddingIs(|msg|, padLen);
      Update(PaddingBytes()[..padLen]);
      Update(bits);
      DigestIs(alg, old(msg), msg, state[..], buffer[..]);
      EncodeInto(alg.Sha1?, digest, 0, state[..]);
      Wipe();
    }

    method SavedBits() returns (bits: seq<Byte>)
      requires Valid()
      ensures bits == LengthBytes(alg, |msg|)
    {
      hide Holds, Encode, Counts;
      CountsMean(count0, count1, |msg|);
      bits := BothWords(alg.Sha1?, count0 as bv32, count1 as bv32);
    }

    // `memset(context, 0, sizeof(*context))`
    method Wipe()
      modifies this, state, buffer
      ensures count0 == 0 && count1 == 0
      ensures (forall i | 0 <= i < state.Length :: state[i] == 0) && forall i | 0 <= i < buffer.Length :: buffer[i] == 0
    {
      count0, count1 := 0, 0;
      forall i | 0 <= i < state.Length {
        state[i] := 0;
      }
      forall i | 0 <= i < buffer.Length {
        buffer[i] := 0;
      }
    }
  }

  function PaddingBytes(): (p: seq<Byte>)
    ensures |p| == 64
  {
    [0x80] + seq(63, _ => 0)
  }

  // The padding runs to 56 modulo 64
  lemma PaddingIs(n: nat, padLen: nat)
    requires padLen == if n % 64 < 56 then 56 - n % 64 else 120 - n % 64
    ensures 1 <= padLen <= 64 && PaddingBytes()[..padLen] == Padding(n)
  {
  }

  // `encode_rev` of the high word, then of the low word, resp. `Encode` of both
  method BothWords(big: bool, low: Word, high: Word) returns (bits: seq<Byte>)
    ensures bits == Encode(big, if big then [high, low] else [low, high])
  {
    hide Encode;
    var b := new Byte[8];
    if big {
      EncodeInto(true, b, 0, [high]);
      EncodeInto(true, b, 4, [low]);
      EncodeTwo(true, b[..], high, low);
    } else {
      EncodeInto(false, b, 0, [low, high]);
    }
    bits := b[..];
  }

  lemma EncodeTwo(big: bool, b: seq<Byte>, first: Word, second: Word)
    requires |b| == 8 && b[..4] == Encode(big, [first]) && b[4..] == Encode(big, [second])
    ensures b == Encode(big, [first, second])
  {
    assert [first, second][..1] == [first];
    hide BytesOf;
  }

  lemma DigestIs(alg: Alg, m: seq<Byte>, all: seq<Byte>, state: seq<Word>, buffer: seq<Byte>)
    requires all == m + Padding(|m|) + LengthBytes(alg, |m|) && Holds(alg, all, state, buffer)
    ensures Encode(alg.Sha1?, state) == Digest(alg, m)
  {
    HoldsAll(alg, all, state, buffer);
    hide Holds, Blocks;
  }

  // `sha1encode_strn`
  method EncodeStrn(src: seq<Byte>, digest: array<Byte>)
    requires digest.Length == 20 && |src| < 0x8000_0000
    modifies digest
    ensures digest[..] == Digest(Sha1, src)
  {
    hide Digest, Holds, Counts;
    var context := new Context(Sha1);
    context.Update(src);
    assert [] + src == src;
    context.Final(digest);
  }

  function Flat(pieces: seq<seq<Byte>>): seq<Byte> {
    if pieces == [] then [] else Flat(pieces[..|pieces| - 1]) + pieces[|pieces| - 1]
  }

  // However a message is cut into pieces, the digest is that of the message
  method DigestPieces(alg: Alg, pieces: seq<seq<Byte>>) returns (d: seq<Byte>)
    requires forall p | p in pieces :: |p| < TWO_32 - 63
    ensures d == Digest(alg, Flat(pieces))
  {
    hide Digest, Holds, Counts;
    var context := new Context(alg);
    var i := 0;
    while i < |pieces|
      invariant i <= |pieces| && context.Valid() && context.msg == Flat(pieces[..i]) && context.alg == alg
      invariant fresh(context) && fresh(context.state) && fresh(context.buffer)
    {
      context.Update(pieces[i]);
      assert pieces[..i + 1][..i] == pieces[..i];
      i := i + 1;
    }
    assert pieces[..i] == pieces;
    var digest := new Byte[4 * Size(alg)];
    context.Final(digest);
    d := digest[..];
  }
}
