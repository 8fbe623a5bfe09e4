/** 32-bit words and their bytes: the conversion loops of `authcli/globals.c`, `bpalogin/gen_md5.c`
    and the LOAD32L/STORE32L macros of `lanauth/tomcrypt_macros.h`.
 */
module HWords {
  type Byte = bv8
  type Word = bv32

  const TWO_32: nat := 0x1_0000_0000

  function Rol(x: Word, n: nat): Word
    requires n <= 32
  {
    (x << n) | (x >> (32 - n))
  }

  function ToWord(n: nat): Word
    requires n < TWO_32
  {
    n as Word
  }

  // Modulo 2^32
  function Add(x: Word, y: Word): Word {
    x + y
  }

  // The word of four bytes, highest first, and its four bytes
  function Join(a: Byte, b: Byte, c: Byte, d: Byte): Word {
    (a as bv32 << 24) | (b as bv32 << 16) | (c as bv32 << 8) | d as bv32
  }

  function Byte3(w: Word): Byte {
    ((w >> 24) & 0xFF) as bv8
  }

  function Byte2(w: Word): Byte {
    ((w >> 16) & 0xFF) as bv8
  }

  function Byte1(w: Word): Byte {
    ((w >> 8) & 0xFF) as bv8
  }

  function Byte0(w: Word): Byte {
    (w & 0xFF) as bv8
  }

  lemma JoinBytes(w: Word)
    ensures Join(Byte3(w), Byte2(w), Byte1(w), Byte0(w)) == w
  {
  }

  lemma BytesJoin(a: Byte, b: Byte, c: Byte, d: Byte)
    ensures Byte3(Join(a, b, c, d)) == a && Byte2(Join(a, b, c, d)) == b
    ensures Byte1(Join(a, b, c, d)) == c && Byte0(Join(a, b, c, d)) == d
  {
  }

  // `big`: the first byte is the highest
  function WordOf(big: bool, a: Byte, b: Byte, c: Byte, d: Byte): Word {
    if big then Join(a, b, c, d) else Join(d, c, b, a)
  }

  function BytesOf(big: bool, w: Word): (s: seq<Byte>)
    ensures |s| == 4
  {
    if big then [Byte3(w), Byte2(w), Byte1(w), Byte0(w)] else [Byte0(w), Byte1(w), Byte2(w), Byte3(w)]
  }

  lemma WordBytes(big: bool, w: Word)
    ensures var s := BytesOf(big, w); WordOf(big, s[0], s[1], s[2], s[3]) == w
  {
    JoinBytes(w);
    hide Join, Byte3, Byte2, Byte1, Byte0;
  }

  lemma BytesWord(big: bool, a: Byte, b: Byte, c: Byte, d: Byte)
    ensures BytesOf(big, WordOf(big, a, b, c, d)) == [a, b, c, d]
  {
    BytesJoin(a, b, c, d);
    BytesJoin(d, c, b, a);
    hide Join, Byte3, Byte2, Byte1, Byte0;
  }

  function Encode(big: bool, words: seq<Word>): (s: seq<Byte>)
    ensures |s| == 4 * |words|
  {
    if words == [] then [] else Encode(big, words[..|words| - 1]) + BytesOf(big, words[|words| - 1])
  }

  function WordAt(big: bool, bytes: seq<Byte>, i: nat): Word
    requires 4 * i + 4 <= |bytes|
  {
    WordOf(big, bytes[4 * i], bytes[4 * i + 1], bytes[4 * i + 2], bytes[4 * i + 3])
  }

  function Decode(big: bool, bytes: seq<Byte>): (w: seq<Word>)
    requires |bytes| % 4 == 0
    ensures |w| == |bytes| / 4
  {
    seq(|bytes| / 4, i requires 0 <= i < |bytes| / 4 => WordAt(big, bytes, i))
  }

  lemma {:induction false} EncodeAppend(big: bool, a: seq<Word>, b: seq<Word>)
    ensures Encode(big, a + b) == Encode(big, a) + Encode(big, b)
  {
    hide BytesOf;
    if b == [] {
      assert a + b == a;
    } else {
      EncodeAppend(big, a, b[..|b| - 1]);
      assert (a + b)[..|a + b| - 1] == a + b[..|b| - 1];
    }
  }

  // Both round trips
  lemma {:induction false} DecodeEncode(big: bool, words: seq<Word>)
    ensures Decode(big, Encode(big, words)) == words
  {
    hide BytesOf, WordOf;
    if words != [] {
      var n := |words| - 1;
      var init := Encode(big, words[..n]);
      DecodeEncode(big, words[..n]);
      forall i | 0 <= i < |words|
        ensures WordAt(big, Encode(big, words), i) == words[i]
      {
        if i < n {
          assert Decode(big, init)[i] == WordAt(big, init, i) == words[i];
        } else {
          WordBytes(big, words[n]);
        }
      }
    }
  }

  // The last word apart from the others
  lemma DecodeLast(big: bool, bytes: seq<Byte>)
    requires |bytes| % 4 == 0 && bytes != []
    ensures var n := |bytes| - 4; Decode(big, bytes) == Decode(big, bytes[..n]) + [WordAt(big, bytes[n..], 0)]
  {
    hide WordOf;
  }

  lemma EncodeLast(big: bool, words: seq<Word>, w: Word)
    ensures Encode(big, words + [w]) == Encode(big, words) + BytesOf(big, w)
  {
    hide BytesOf;
    assert (words + [w])[..|words|] == words;
  }

  lemma BytesWordAt(big: bool, bytes: seq<Byte>)
    requires |bytes| == 4
    ensures BytesOf(big, WordAt(big, bytes, 0)) == bytes
  {
    hide BytesOf, WordOf;
    BytesWord(big, bytes[0], bytes[1], bytes[2], bytes[3]);
  }

  lemma {:induction false} EncodeDecode(big: bool, bytes: seq<Byte>)
    requires |bytes| % 4 == 0
    ensures Encode(big, Decode(big, bytes)) == bytes
  {
    hide BytesOf, WordOf, WordAt, Decode, Encode;
    if bytes != [] {
      var n := |bytes| - 4;
      EncodeDecode(big, bytes[..n]);
      DecodeLast(big, bytes);
      EncodeLast(big, Decode(big, bytes[..n]), WordAt(big, bytes[n..], 0));
      BytesWordAt(big, bytes[n..]);
    } else {
      NothingEncoded(big, bytes);
    }
  }

  lemma NothingEncoded(big: bool, bytes: seq<Byte>)
    requires bytes == []
    ensures Encode(big, Decode(big, bytes)) == []
  {
  }

  // What `memcpy(a + j, s, |s|)` makes of the array
  function Placed<T>(a: seq<T>, j: nat, s: seq<T>): (r: seq<T>)
    requires j + |s| <= |a|
    ensures |r| == |a|
  {
    a[..j] + s + a[j + |s|..]
  }

  lemma PlacedMore<T>(a: seq<T>, j: nat, s: seq<T>, t: seq<T>)
    requires j + |s| + |t| <= |a|
    ensures Placed(Placed(a, j, s), j + |s|, t) == Placed(a, j, s + t)
  {
  }

  lemma CopyMore(a: seq<Byte>, start: nat, input: seq<Byte>, i: nat)
    requires i < |input| && start + |input| <= |a|
    ensures Placed(Placed(a, start, input[..i]), start + i, [input[i]]) == Placed(a, start, input[..i + 1])
  {
    PlacedMore(a, start, input[..i], [input[i]]);
    hide Placed;
    assert input[..i + 1] == input[..i] + [input[i]];
  }

  // `MD5_memcpy`, `memcpy`
  method Memcpy(output: array<Byte>, start: nat, input: seq<Byte>)
    requires start + |input| <= output.Length
    modifies output
    ensures output[..] == Placed(old(output[..]), start, input)
  {
    var i := 0;
    while i < |input|
      invariant i <= |input|
      invariant output[..] == Placed(old(output[..]), start, input[..i])
    {
      ghost var before := output[..];
      output[start + i] := input[i];
      assert output[..] == Placed(before, start + i, [input[i]]);
      CopyMore(old(output[..]), start, input, i);
      i := i + 1;
    }
    assert input[..i] == input;
  }

  lemma EncodeMore(big: bool, a: seq<Byte>, start: nat, input: seq<Word>, i: nat)
    requires i < |input| && start + 4 * |input| <= |a|
    ensures Placed(Placed(a, start, Encode(big, input[..i])), start + 4 * i, BytesOf(big, input[i]))
      == Placed(a, start, Encode(big, input[..i + 1]))
  {
    hide BytesOf, Placed;
    assert input[..i + 1][..i] == input[..i];
    PlacedMore(a, start, Encode(big, input[..i]), BytesOf(big, input[i]));
  }

  // `encode_rev` (big) and `encode`: the words of `input` into `output`
  method EncodeInto(big: bool, output: array<Byte>, start: nat, input: seq<Word>)
    requires start + 4 * |input| <= output.Length
    modifies output
    ensures output[..] == Placed(old(output[..]), start, Encode(big, input))
  {
    hide BytesOf, Encode, Placed;
    var i := 0;
    EncodeNone(big, output[..], start, input);
    while i < |input|
      invariant i <= |input|
      invariant output[..] == Placed(old(output[..]), start, Encode(big, input[..i]))
    {
      EncodeMore(big, old(output[..]), start, input, i);
      EncodeWord(big, output, start + 4 * i, input[i]);
      i := i + 1;
    }
    assert input[..i] == input;
  }

  lemma EncodeNone(big: bool, a: seq<Byte>, start: nat, input: seq<Word>)
    requires start <= |a|
    ensures a == Placed(a, start, Encode(big, input[..0]))
  {
  }

  method EncodeWord(big: bool, output: array<Byte>, j: nat, w: Word)
    requires j + 4 <= output.Length
    modifies output
    ensures output[..] == Placed(old(output[..]), j, BytesOf(big, w))
  {
    hide Byte3, Byte2, Byte1, Byte0;
    if big {
      output[j + 3], output[j + 2], output[j + 1], output[j] := Byte0(w), Byte1(w), Byte2(w), Byte3(w);
    } else {
      output[j], output[j + 1], output[j + 2], output[j + 3] := Byte0(w), Byte1(w), Byte2(w), Byte3(w);
    }
  }

  // `decode_rev` (big) and `decode`
  method DecodeInto(big: bool, output: array<Word>, input: seq<Byte>)
    requires |input| == 4 * output.Length
    modifies output
    ensures output[..] == Decode(big, input)
  {
    var i := 0;
    while i < output.Length
      invariant i <= output.Length
      invariant forall k | 0 <= k < i :: output[k] == WordAt(big, input, k)
    {
      var j := 4 * i;
      if big {
        output[i] := input[j + 3] as bv32 | (input[j + 2] as bv32 << 8)
          | (input[j + 1] as bv32 << 16) | (input[j] as bv32 << 24);
      } else {
        output[i] := input[j] as bv32 | (input[j + 1] as bv32 << 8)
          | (input[j + 2] as bv32 << 16) | (input[j + 3] as bv32 << 24);
      }
      i := i + 1;
    }
  }
}
