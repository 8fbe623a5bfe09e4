/** Addresses of a 6rd tunnel (`ipv6_network` and `ipv6_map6rd` of `rc/interface.c`): fields of bits
    are put into the four words of an address, wherever the prefix ends.
 */
module NSixRd {
  // A word as its bits, the highest first. The words of an address are in host order here: htonl
  // on both sides of a bitwise operation changes nothing.
  type Word = w: seq<bool> | |w| == 32 witness seq(32, _ => false)

  function Zeros(n: nat): (z: seq<bool>)
    ensures |z| == n
  {
    seq(n, _ => false)
  }

  function Ones(): Word {
    seq(32, _ => true)
  }

  function Shl(w: Word, n: nat): Word
    requires n <= 32
  {
    w[n..] + Zeros(n)
  }

  function Shr(w: Word, n: nat): Word
    requires n <= 32
  {
    Zeros(n) + w[..32 - n]
  }

  function Not(w: Word): Word {
    seq(32, i requires 0 <= i < 32 => !w[i])
  }

  function And(v: Word, w: Word): Word {
    seq(32, i requires 0 <= i < 32 => v[i] && w[i])
  }

  function Or(v: Word, w: Word): Word {
    seq(32, i requires 0 <= i < 32 => v[i] || w[i])
  }

  // The 128 bits of an address
  function Flat(ws: seq<Word>): (s: seq<bool>)
    requires |ws| == 4
    ensures |s| == 128
  {
    var a: seq<bool> := ws[0];
    a + ws[1] + ws[2] + ws[3]
  }

  lemma FlatAt(ws: seq<Word>, i: nat, t: nat)
    requires |ws| == 4 && i < 4 && t < 32
    ensures Flat(ws)[32 * i + t] == ws[i][t]
  {
  }

  lemma FlatIs(ws: seq<Word>, bits: seq<bool>)
    requires |ws| == 4 && |bits| == 128
    requires forall i, t | 0 <= i < 4 && 0 <= t < 32 :: ws[i][t] == bits[32 * i + t]
    ensures Flat(ws) == bits
  {
    forall j | 0 <= j < 128
      ensures Flat(ws)[j] == bits[j]
    {
      FlatAt(ws, j / 32, j % 32);
      assert ws[j / 32][j % 32] == bits[32 * (j / 32) + j % 32];
    }
  }

  // `ipv6_network`
  method Network(addr6: array<Word>, netsize: nat) returns (r: nat)
    requires addr6.Length >= 4
    modifies addr6
    ensures r == if netsize > 128 then 0 else netsize
    ensures addr6[4..] == old(addr6[4..])
    ensures Flat(addr6[..4]) ==
      if netsize > 128 then old(Flat(addr6[..4])) else old(Flat(addr6[..4]))[..netsize] + Zeros(128 - netsize)
  {
    hide Flat;
    var i, m := netsize / 32, netsize % 32;
    if netsize > 128 {
      return 0;
    }
    ghost var before := addr6[..4];
    if m != 0 {
      addr6[i] := And(addr6[i], Shl(Ones(), 32 - m));
      i := i + 1;
    }
    ghost var from, mid := i, addr6[..4];
    while i < 4
      invariant from <= i <= 4
      invariant addr6[4..] == old(addr6[4..])
      invariant forall j | 0 <= j < 4 :: addr6[j] == if from <= j < i then Zeros(32) else mid[j]
    {
      addr6[i] := Zeros(32);
      i := i + 1;
    }
    r := netsize;
    NetworkBits(before, mid, addr6[..4], netsize);
  }

  lemma NetworkBits(a: seq<Word>, mid: seq<Word>, b: seq<Word>, n: nat)
    requires |a| == |mid| == |b| == 4 && n <= 128
    requires var i, m := n / 32, n % 32;
      && mid == (if m != 0 then a[i := And(a[i], Shl(Ones(), 32 - m))] else a)
      && forall j | 0 <= j < 4 :: b[j] == if (if m != 0 then i + 1 else i) <= j then Zeros(32) else mid[j]
    ensures Flat(b) == Flat(a)[..n] + Zeros(128 - n)
  {
    var bits := Flat(a)[..n] + Zeros(128 - n);
    forall i, t | 0 <= i < 4 && 0 <= t < 32
      ensures b[i][t] == bits[32 * i + t]
    {
      FlatAt(a, i, t);
    }
    FlatIs(b, bits);
  }

  // The field of the low 32 - k bits of `v4`, put in behind the first n bits
  function Mapped(bits: seq<bool>, n: nat, v4: Word, k: nat): (r: seq<bool>)
    requires |bits| == 128 && k <= 32 && n + 32 - k <= 128
    ensures |r| == 128
  {
    bits[..n] + v4[k..] + bits[n + 32 - k..]
  }

  // `ipv6_map6rd`; without an IPv4 address the field is zero. With a prefix of 97 to 127 bits the
  // second step goes to the word behind the address; what it writes there is what it finds.
  method Map6rd(addr6: array<Word>, netsize: nat, addr4: seq<bool>, ip4size: nat) returns (r: nat)
    requires addr6.Length >= (if 96 < netsize < 128 then 5 else 4) && |addr4| in {0, 32}
    modifies addr6
    ensures addr6[4..] == old(addr6[4..])
    ensures var v4 := if addr4 == [] then Zeros(32) else addr4;
      if netsize > 128 || ip4size > 32 || netsize + 32 - ip4size > 128 then
        r == 0 && addr6[..] == old(addr6[..])
      else
        r == netsize + 32 - ip4size && Flat(addr6[..4]) == Mapped(old(Flat(addr6[..4])), netsize, v4, ip4size)
  {
    hide Flat, Mapped, Shl, Shr, And, Or, Not;
    var i, m, ret := netsize / 32, netsize % 32, netsize + 32 - ip4size;
    if netsize > 128 || ip4size > 32 || ret > 128 {
      return 0;
    }
    if ip4size == 32 {
      NothingMapped(Flat(addr6[..4]), netsize, if addr4 == [] then Zeros(32) else addr4);
      return netsize;
    }
    var mask: Word := Shl(Ones(), ip4size);
    var v4: Word := if addr4 == [] then Zeros(32) else addr4;
    var addr: Word := if addr4 == [] then Zeros(32) else Shl(addr4, ip4size);
    ShlZeros(ip4size);
    assert addr == Shl(v4, ip4size);
    ghost var before := addr6[..];
    addr6[i] := And(addr6[i], Not(Shr(mask, m)));
    addr6[i] := Or(addr6[i], Shr(addr, m));
    if m != 0 {
      i := i + 1;
      addr6[i] := And(addr6[i], Not(Shl(mask, 32 - m)));
      addr6[i] := Or(addr6[i], Shl(addr, 32 - m));
    }
    r := ret;
    ghost var after := addr6[..];
    MappedBits(before, after, netsize, v4, ip4size);
    assert before[..4] == old(addr6[..4]) && after[..4] == addr6[..4];
    assert before[4..] == old(addr6[4..]) && after[4..] == addr6[4..];
  }

  lemma ShlZeros(n: nat)
    requires n <= 32
    ensures Shl(Zeros(32), n) == Zeros(32)
  {
  }

  lemma NothingMapped(bits: seq<bool>, n: nat, v4: Word)
    requires |bits| == 128 && n <= 128
    ensures Mapped(bits, n, v4, 32) == bits
  {
  }

  // One of the two words
  function Merged(w: Word, mask: Word, field: Word): Word {
    Or(And(w, Not(mask)), field)
  }

  lemma MappedBits(a: seq<Word>, b: seq<Word>, n: nat, v4: Word, k: nat)
    requires |a| == |b| >= 4 && n + 32 - k <= 128 && k < 32 && (n > 96 ==> |a| > 4)
    requires var i, m, mask, addr := n / 32, n % 32, Shl(Ones(), k), Shl(v4, k);
      var c := a[i := Merged(a[i], Shr(mask, m), Shr(addr, m))];
      b == if m != 0 then c[i + 1 := Merged(a[i + 1], Shl(mask, 32 - m), Shl(addr, 32 - m))] else c
    ensures Flat(b[..4]) == Mapped(Flat(a[..4]), n, v4, k) && b[4..] == a[4..]
  {
    hide Flat, Mapped, Merged, Shl, Shr;
    var bits := Mapped(Flat(a[..4]), n, v4, k);
    forall i, t | 0 <= i < |a| && 0 <= t < 32
      ensures b[i][t] == if n <= 32 * i + t < n + 32 - k then v4[32 * i + t - n + k] else a[i][t]
    {
      if i == n / 32 {
        FirstWord(a[i], n % 32, v4, k, t);
      } else if i == n / 32 + 1 && n % 32 != 0 {
        SecondWord(a[i], n % 32, v4, k, t);
      }
    }
    forall i, t | 0 <= i < 4 && 0 <= t < 32
      ensures b[i][t] == bits[32 * i + t]
    {
      FlatAt(a[..4], i, t);
      MappedAt(Flat(a[..4]), n, v4, k, 32 * i + t);
    }
    FlatIs(b[..4], bits);
    forall i | 4 <= i < |a|
      ensures b[i] == a[i]
    {
      assert forall t | 0 <= t < 32 :: b[i][t] == a[i][t];
    }
  }

  lemma MappedAt(bits: seq<bool>, n: nat, v4: Word, k: nat, j: nat)
    requires |bits| == 128 && k <= 32 && n + 32 - k <= 128 && j < 128
    ensures Mapped(bits, n, v4, k)[j] == if n <= j < n + 32 - k then v4[j - n + k] else bits[j]
  {
  }

  lemma ShlAt(w: Word, n: nat, t: nat)
    requires n <= 32 && t < 32
    ensures Shl(w, n)[t] == (t + n < 32 && w[t + n])
  {
  }

  lemma ShrAt(w: Word, n: nat, t: nat)
    requires n <= 32 && t < 32
    ensures Shr(w, n)[t] == (n <= t && w[t - n])
  {
  }

  lemma MergedAt(w: Word, mask: Word, field: Word, t: nat)
    requires t < 32
    ensures Merged(w, mask, field)[t] == ((w[t] && !mask[t]) || field[t])
  {
  }

  lemma FirstWord(w: Word, m: nat, v4: Word, k: nat, t: nat)
    requires m < 32 && k < 32 && t < 32
    ensures Merged(w, Shr(Shl(Ones(), k), m), Shr(Shl(v4, k), m))[t] ==
      if m <= t < m + 32 - k then v4[t - m + k] else w[t]
  {
    hide Merged, Shl, Shr;
    MergedAt(w, Shr(Shl(Ones(), k), m), Shr(Shl(v4, k), m), t);
    ShrAt(Shl(Ones(), k), m, t);
    ShrAt(Shl(v4, k), m, t);
    if m <= t {
      ShlAt(Ones(), k, t - m);
      ShlAt(v4, k, t - m);
    }
  }

  lemma SecondWord(w: Word, m: nat, v4: Word, k: nat, t: nat)
    requires 0 < m < 32 && k < 32 && t < 32
    ensures Merged(w, Shl(Shl(Ones(), k), 32 - m), Shl(Shl(v4, k), 32 - m))[t] ==
      if t + 32 < m + 32 - k then v4[t + 32 - m + k] else w[t]
  {
    hide Merged, Shl, Shr;
    MergedAt(w, Shl(Shl(Ones(), k), 32 - m), Shl(Shl(v4, k), 32 - m), t);
    ShlAt(Shl(Ones(), k), 32 - m, t);
    ShlAt(Shl(v4, k), 32 - m, t);
    if t < m {
      ShlAt(Ones(), k, t + 32 - m);
      ShlAt(v4, k, t + 32 - m);
    }
  }

  // ---------------------------------------------------------------- as numbers

  function Number(s: seq<bool>): nat {
    if s == [] then 0 else 2 * Number(s[..|s| - 1]) + if s[|s| - 1] then 1 else 0
  }

  function Pow2(n: nat): (p: nat)
    ensures p > 0
  {
    if n == 0 then 1 else 2 * Pow2(n - 1)
  }

  lemma MulTwo(x: nat, y: nat)
    ensures x * (2 * y) == 2 * (x * y)
  {
  }

  lemma {:induction false} NumberAppend(a: seq<bool>, b: seq<bool>)
    ensures Number(a + b) == Number(a) * Pow2(|b|) + Number(b)
  {
    if b == [] {
      assert a + b == a;
    } else {
      var b' := b[..|b| - 1];
      assert (a + b)[..|a + b| - 1] == a + b';
      NumberAppend(a, b');
      MulTwo(Number(a), Pow2(|b'|));
    }
  }

  lemma {:induction false} NumberBound(a: seq<bool>)
    ensures Number(a) < Pow2(|a|)
  {
    if a != [] {
      NumberBound(a[..|a| - 1]);
    }
  }

  lemma {:induction false} NumberZeros(n: nat)
    ensures Number(Zeros(n)) == 0
  {
    if n > 0 {
      assert Zeros(n)[..n - 1] == Zeros(n - 1);
      NumberZeros(n - 1);
    }
  }

  // The low bits of a number
  lemma LowBits(v: seq<bool>, k: nat)
    requires k <= |v|
    ensures Number(v[k..]) == Number(v) % Pow2(|v| - k)
  {
    assert v == v[..k] + v[k..];
    NumberAppend(v[..k], v[k..]);
    NumberBound(v[k..]);
    Remainder(Number(v), Number(v[..k]), Number(v[k..]), Pow2(|v| - k));
  }

  lemma Remainder(n: nat, q: nat, r: nat, m: nat)
    requires n == q * m + r && r < m
    ensures n % m == r
  {
    var q', r' := n / m, n % m;
    assert n == q' * m + r';
    if q < q' {
      MulLess(q, q', m);
    } else if q' < q {
      MulLess(q', q, m);
    }
  }

  lemma MulLess(a: nat, b: nat, c: nat)
    requires a < b
    ensures a * c + c <= b * c
  {
    var d := b - a - 1;
    Distribute(a + 1, d, c);
    Distribute(a, 1, c);
    assert b == a + 1 + d;
  }

  lemma Distribute(a: nat, b: nat, c: nat)
    ensures (a + b) * c == a * c + b * c && b * c >= 0
  {
  }

  // The tunnel set-up of `rc/network.c`: the first n bits of the prefix, the low bits of the IPv4
  // address, then zeros
  method Delegate(addr6: array<Word>, netsize: nat, v4: Word, ip4size: nat) returns (size: nat)
    requires addr6.Length >= (if 96 < netsize < 128 then 5 else 4)
    requires netsize <= 128 && ip4size <= 32 && netsize + 32 - ip4size <= 128
    modifies addr6
    ensures size == netsize + 32 - ip4size && addr6[4..] == old(addr6[4..])
    ensures Number(Flat(addr6[..4])) ==
      (Number(old(Flat(addr6[..4]))[..netsize]) * Pow2(32 - ip4size) + Number(v4) % Pow2(32 - ip4size))
        * Pow2(128 - size)
  {
    hide Flat, Number, Pow2;
    ghost var prefix := Flat(addr6[..4])[..netsize];
    size := Network(addr6, netsize);
    size := Map6rd(addr6, netsize, v4, ip4size);
    assert Flat(addr6[..4]) == prefix + v4[ip4size..] + Zeros(128 - size);
    NumberAppend(prefix + v4[ip4size..], Zeros(128 - size));
    NumberAppend(prefix, v4[ip4size..]);
    NumberZeros(128 - size);
    LowBits(v4, ip4size);
  }
}
