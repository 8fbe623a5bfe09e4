/** `md5_init`, `md5_process` and `md5_done` of `lanauth/md5.c`; `md5_process` is the loop of
    HASH_PROCESS in `lanauth/tomcrypt_hash.h`. The length is counted in whole blocks only.
 */
module HProcess {
  import opened HWords
  import opened HStream
  import opened HContext
  import HMd5

  datatype Status = CRYPT_OK | CRYPT_INVALID_ARG

  class HashState {
    const state: array<Word>
    const buf: array<Byte>
    var length: nat    // 64 bits
    var curlen: nat
    ghost var msg: seq<Byte>

    // Between calls the buffer is never full, and `length` has the bits of the blocks already folded
    ghost predicate Valid()
      reads this, state, buf
    {
      && state.Length == 4 && buf.Length == 64
      && curlen == |msg| % 64
      && length == 8 * (|msg| - curlen) % TWO_64
      && Holds(Md5, msg, state[..], buf[..])
    }

    // `md5_init`
    constructor ()
      ensures Valid() && msg == [] && fresh(state) && fresh(buf)
    {
      state := new Word[4](i requires 0 <= i < 4 => Initial(Md5)[i]);
      buf := new Byte[64];
      length, curlen, msg := 0, 0, [];
      new;
      assert state[..] == Initial(Md5);
    }

    // `md5_process`
    method Process(input: seq<Byte>) returns (status: Status)
      requires Valid()
      modifies this, state, buf
      ensures Valid() && status == CRYPT_OK && msg == old(msg) + input
    {
      hide Holds;
      ghost var m := msg;
      if curlen > buf.Length {
        return CRYPT_INVALID_ARG;
      }
      var i := 0;
      while i < |input|
        invariant i <= |input| && Valid() && msg == m + input[..i]
        decreases |input| - i
      {
        var n := Take(input[i..]);
        assert input[..i + n] == input[..i] + input[i..][..n];
        i := i + n;
      }
      status := CRYPT_OK;
    }

    // One round of the loop: a whole block from the input, or as much as the buffer takes
    method Take(input: seq<Byte>) returns (n: nat)
      requires Valid() && input != []
      modifies this, state, buf
      ensures Valid() && 0 < n <= |input| && msg == old(msg) + input[..n]
    {
      hide Holds, Blocks, Compress;
      if curlen == 0 && |input| >= 64 {
        n := 64;
        WholeBlock(input[..64]);
      } else {
        n := if |input| < 64 - curlen then |input| else 64 - curlen;
        IntoBuffer(input[..n]);
      }
    }

    method WholeBlock(block: seq<Byte>)
      requires Valid() && curlen == 0 && |block| == 64
      modifies this, state
      ensures Valid() && msg == old(msg) + block
    {
      hide Blocks, Compress, Initial;
      HoldsAll(Md5, msg, state[..], buf[..]);
      Passed(Md5, msg, block);
      Emptied(Md5, msg + block, buf[..]);
      MoreBits(length, |msg|);
      CompressBlock(block);
      length := (length + 64 * 8) % TWO_64;
      msg := msg + block;
    }

    method CompressBlock(block: seq<Byte>)
      requires state.Length == 4 && |block| == 64
      modifies state
      ensures state[..] == Compress(Md5, old(state[..]), block)
    {
      HMd5.CompressLoop(state, block);
      hide HMd5.Compress;
    }

    method IntoBuffer(part: seq<Byte>)
      requires Valid() && curlen + |part| <= 64 && part != []
      modifies this, state, buf
      ensures Valid() && msg == old(msg) + part
    {
      hide Blocks, Compress, Initial, Holds;
      ghost var m := msg;
      if curlen + |part| == 64 {
        Filled(Md5, msg, state[..], buf[..], part);
      } else {
        Buffered(Md5, msg, state[..], buf[..], part);
      }
      Memcpy(buf, curlen, part);
      curlen := curlen + |part|;
      msg := msg + part;
      if curlen == 64 {
        CompressBlock(buf[..]);
        Emptied(Md5, msg, buf[..]);
        MoreBits(length, |m| - |m| % 64);
        length := (length + 8 * 64) % TWO_64;
        curlen := 0;
      }
    }

    // While the padding is written: `head` is folded, `part` is in the buffer
    ghost predicate Folding(head: seq<Byte>, part: seq<Byte>)
      reads this, state, buf
    {
      && state.Length == 4 && buf.Length == 64
      && |head| % 64 == 0 && curlen == |part| <= 64 && buf[..curlen] == part
      && state[..] == Blocks(Md5, Initial(Md5), head)
    }

    // `md5_done`
    method Done(out: array<Byte>) returns (status: Status)
      requires Valid() && out.Length == 16
      modifies this, state, buf, out
      ensures status == CRYPT_OK && out[..] == Digest(Md5, old(msg))
    {
      hide Blocks, Holds, Padded, LengthBytes;
      if curlen >= buf.Length {
        return CRYPT_INVALID_ARG;
      }
      AllBits(length, |msg|);
      StartFolding();
      length := (length + curlen * 8) % TWO_64;
      ghost var head, part := Pad(msg);
      Fold(head, part);
      EncodeInto(false, out, 0, state[..]);
      status := CRYPT_OK;
    }

    lemma StartFolding()
      requires Valid()
      ensures Folding(Whole(msg), Tail(msg))
    {
      Split(msg);
      hide Blocks;
    }

    // The 1 bit, zeros up to 56 bytes, if need be in one more block, and the length
    method Pad(ghost m: seq<Byte>) returns (ghost head: seq<Byte>, ghost part: seq<Byte>)
      requires Folding(Whole(m), Tail(m)) && curlen < 64 && length == 8 * |m| % TWO_64
      modifies `curlen, state, buf
      ensures Folding(head, part) && curlen == 64 && head + part == Padded(Md5, m)
    {
      hide Blocks, Whole, Tail, Padded, LengthBytes, Zeros;
      head, part := Whole(m), Tail(m);
      Split(m);
      Put(0x80, head, part);
      part := part + [0x80];
      if curlen > 56 {
        part := ZeroTo(64, head, part);
        Fold(head, part);
        curlen := 0;
        head, part := head + part, [];
      }
      part := ZeroTo(56, head, part);
      part := StoreLength(head, part, |m|);
      PaddedIs(m, head + part);
    }

    method Put(b: Byte, ghost head: seq<Byte>, ghost part: seq<Byte>)
      requires Folding(head, part) && curlen < 64
      modifies `curlen, buf
      ensures Folding(head, part + [b])
    {
      hide Blocks;
      buf[curlen] := b;
      curlen := curlen + 1;
    }

    method ZeroTo(k: nat, ghost head: seq<Byte>, ghost part: seq<Byte>) returns (ghost part': seq<Byte>)
      requires Folding(head, part) && curlen <= k <= 64
      modifies `curlen, buf
      ensures Folding(head, part') && curlen == k && part' == part + Zeros(k - |part|)
    {
      hide Blocks;
      part' := part;
      while curlen < k
        invariant Folding(head, part') && curlen <= k && part' == part + Zeros(curlen - |part|)
      {
        Put(0, head, part');
        part' := part' + [0];
      }
    }

    method Fold(ghost head: seq<Byte>, ghost part: seq<Byte>)
      requires Folding(head, part) && curlen == 64
      modifies state
      ensures |head + part| % 64 == 0 && state[..] == Blocks(Md5, Initial(Md5), head + part)
      ensures state.Length == 4 && buf.Length == 64
    {
      hide Blocks, Compress;
      assert buf[..64] == buf[..];
      Passed(Md5, head, part);
      CompressBlock(buf[..]);
    }

    // STORE64L: the bytes of the low half, then those of the high half
    method StoreLength(ghost head: seq<Byte>, ghost part: seq<Byte>, ghost n: nat) returns (ghost part': seq<Byte>)
      requires Folding(head, part) && curlen == 56 && length == 8 * n % TWO_64
      modifies `curlen, buf
      ensures Folding(head, part') && curlen == 64 && part' == part + LengthBytes(Md5, n)
    {
      hide Blocks, Encode;
      Halves(n);
      EncodeInto(false, buf, 56, [(length % TWO_32) as bv32, (length / TWO_32) as bv32]);
      curlen := 64;
      part' := part + LengthBytes(Md5, n);
    }
  }

  lemma MoreBits(length: nat, n: nat)
    requires length == 8 * n % TWO_64
    ensures (length + 512) % TWO_64 == 8 * (n + 64) % TWO_64
  {
  }

  lemma Emptied(alg: Alg, m: seq<Byte>, buffer: seq<Byte>)
    requires |m| % 64 == 0 && |buffer| == 64
    ensures Holds(alg, m, Blocks(alg, Initial(alg), m), buffer)
  {
    Started(alg, m, buffer, []);
    assert m + [] == m && Placed(buffer, 0, []) == buffer;
    hide Blocks;
  }

  function Zeros(n: nat): seq<Byte> {
    seq(n, _ => 0)
  }

  lemma AllBits(length: nat, n: nat)
    requires length == 8 * (n - n % 64) % TWO_64
    ensures (length + n % 64 * 8) % TWO_64 == 8 * n % TWO_64
  {
    var k := 8 * (n - n % 64);
    AddMod(k, n % 64 * 8);
    assert k + n % 64 * 8 == 8 * n;
  }

  lemma AddMod(k: nat, j: nat)
    ensures (k % TWO_64 + j) % TWO_64 == (k + j) % TWO_64
  {
  }

  lemma Halves(n: nat)
    ensures 8 * n % TWO_64 % TWO_32 == 8 * n % TWO_32
    ensures 8 * n % TWO_64 / TWO_32 == 8 * n / TWO_32 % TWO_32
  {
    var all := 8 * n % TWO_64;
    assert Counts(all % TWO_32, all / TWO_32, n);
    CountsMean(all % TWO_32, all / TWO_32, n);
  }

  // The one bit, the zeros of one or two blocks and the length are the padding
  lemma PaddedIs(m: seq<Byte>, all: seq<Byte>)
    requires var n := |m| % 64;
      if n < 56 then all == Whole(m) + (Tail(m) + [0x80] + Zeros(55 - n) + LengthBytes(Md5, |m|))
      else all == Whole(m) + (Tail(m) + [0x80] + Zeros(63 - n)) + ([] + Zeros(56) + LengthBytes(Md5, |m|))
    ensures all == Padded(Md5, m)
  {
    Split(m);
    hide LengthBytes, Whole, Tail;
    var n := |m| % 64;
    if n < 56 {
      assert Padding(|m|) == [0x80] + Zeros(55 - n);
    } else {
      assert Padding(|m|) == [0x80] + Zeros(63 - n) + Zeros(56);
    }
  }

  method ProcessPieces(pieces: seq<seq<Byte>>) returns (d: seq<Byte>)
    ensures d == Digest(Md5, Flat(pieces))
  {
    hide Digest, Holds;
    var md := new HashState();
    var i := 0;
    while i < |pieces|
      invariant i <= |pieces| && md.Valid() && md.msg == Flat(pieces[..i])
      invariant fresh(md) && fresh(md.state) && fresh(md.buf)
    {
      var _ := md.Process(pieces[i]);
      assert pieces[..i + 1][..i] == pieces[..i];
      i := i + 1;
    }
    assert pieces[..i] == pieces;
    var out := new Byte[16];
    var _ := md.Done(out);
    d := out[..];
  }

  // The two implementations agree on every message, however it is cut into pieces for either of them
  method BothDigests(pieces: seq<seq<Byte>>, pieces': seq<seq<Byte>>) returns (d: seq<Byte>, d': seq<Byte>)
    requires Flat(pieces) == Flat(pieces') && forall p | p in pieces' :: |p| < TWO_32 - 63
    ensures d == d' && |d| == 16
  {
    d := ProcessPieces(pieces);
    d' := DigestPieces(Md5, pieces');
    hide Padded, Blocks, Initial, Encode;
  }
}
