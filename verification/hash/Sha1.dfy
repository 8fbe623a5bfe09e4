/** The SHA-1 block function: section 7 of FIPS 180-1 as the definition, and `sha1transform`
    (`authcli/sha1.c`), which keeps a circular queue of 16 words, as in section 8.
 */
module HSha1 {
  import opened HWords

  datatype Regs = Regs(a: Word, b: Word, c: Word, d: Word, e: Word)

  // Sections 5 and 6 of FIPS 180-1
  function F(t: nat, b: Word, c: Word, d: Word): Word {
    if t < 20 then (b & c) | (!b & d)
    else if t < 40 then b ^ c ^ d
    else if t < 60 then (b & c) | (b & d) | (c & d)
    else b ^ c ^ d
  }

  function K(t: nat): Word {
    if t < 20 then 0x5A827999
    else if t < 40 then 0x6ED9EBA1
    else if t < 60 then 0x8F1BBCDC
    else 0xCA62C1D6
  }

  function Mix(a: Word, b: Word, c: Word, d: Word): Word {
    Rol(a ^ b ^ c ^ d, 1)
  }

  // Section 7: the 80 words of a block
  function W(m: seq<Word>, t: nat): Word
    requires |m| == 16
  {
    if t < 16 then m[t] else Mix(W(m, t - 3), W(m, t - 8), W(m, t - 14), W(m, t - 16))
  }

  function Temp(t: nat, a: Word, b: Word, c: Word, d: Word, e: Word, w: Word): Word {
    Rol(a, 5) + F(t, b, c, d) + e + w + K(t)
  }

  function Step(r: Regs, t: nat, w: Word): Regs {
    Regs(Temp(t, r.a, r.b, r.c, r.d, r.e, w), r.a, Rol(r.b, 30), r.c, r.d)
  }

  function Steps(m: seq<Word>, r: Regs, t: nat): Regs
    requires |m| == 16
  {
    if t == 0 then r else Step(Steps(m, r, t - 1), t - 1, W(m, t - 1))
  }

  function Compress(h: seq<Word>, block: seq<Byte>): (r: seq<Word>)
    requires |h| == 5 && |block| == 64
    ensures |r| == 5
  {
    var r := Steps(Decode(true, block), Regs(h[0], h[1], h[2], h[3], h[4]), 80);
    [Add(h[0], r.a), Add(h[1], r.b), Add(h[2], r.c), Add(h[3], r.d), Add(h[4], r.e)]
  }

  // Before step `t` the queue holds the last 16 words, each in the slot of its number modulo 16
  ghost predicate Queue(w: seq<Word>, m: seq<Word>, t: nat) {
    && |w| == |m| == 16
    && forall k | (if t < 16 then 0 else t - 16) <= k < (if t < 16 then 16 else t) :: w[k % 16] == W(m, k)
  }

  function NextWord(w: seq<Word>, s: nat): Word
    requires |w| == 16 && s < 16
  {
    Mix(w[(s + 13) % 16], w[(s + 8) % 16], w[(s + 2) % 16], w[s])
  }

  // The slot numbers wrap around, so adding 13 is as good as going back 3
  lemma SameSlots(t: nat)
    requires 16 <= t
    ensures (t % 16 + 13) % 16 == (t - 3) % 16 && (t % 16 + 8) % 16 == (t - 8) % 16
    ensures (t % 16 + 2) % 16 == (t - 14) % 16 && t % 16 == (t - 16) % 16
  {
    SlotBack(t, 3);
    SlotBack(t, 8);
    SlotBack(t, 14);
    SlotBack(t, 16);
  }

  lemma SlotBack(t: nat, k: nat)
    requires k <= 16 <= t
    ensures (t % 16 + (16 - k)) % 16 == (t - k) % 16
  {
    var q, s := t / 16, t % 16;
    if k <= s {
      assert t - k == 16 * q + (s - k);
    } else {
      assert t - k == 16 * (q - 1) + (s + 16 - k);
    }
  }

  lemma OtherSlot(t: nat, k: nat)
    requires t - 16 < k < t
    ensures k % 16 != t % 16
  {
  }

  lemma QueueWord(w: seq<Word>, m: seq<Word>, t: nat)
    requires Queue(w, m, t) && 16 <= t
    ensures NextWord(w, t % 16) == W(m, t)
  {
    hide Mix;
    SameSlots(t);
    assert w[(t - 3) % 16] == W(m, t - 3) && w[(t - 8) % 16] == W(m, t - 8);
    assert w[(t - 14) % 16] == W(m, t - 14) && w[(t - 16) % 16] == W(m, t - 16);
  }

  lemma QueueNext(w: seq<Word>, m: seq<Word>, t: nat)
    requires Queue(w, m, t) && 16 <= t
    ensures NextWord(w, t % 16) == W(m, t)
    ensures Queue(w[t % 16 := W(m, t)], m, t + 1)
  {
    QueueWord(w, m, t);
    hide W, NextWord;
    forall k | t - 15 <= k < t + 1
      ensures w[t % 16 := W(m, t)][k % 16] == W(m, k)
    {
      if k < t {
        OtherSlot(t, k);
      }
    }
  }

  lemma QueueEarly(w: seq<Word>, m: seq<Word>, t: nat)
    requires Queue(w, m, t) && t < 16
    ensures w[t] == W(m, t) && Queue(w, m, t + 1)
  {
    assert w[t % 16] == W(m, t);
    forall k | 0 <= k < 16
      ensures w[k % 16] == W(m, k)
    {
    }
  }

  method Transform(state: array<Word>, src: seq<Byte>)
    requires state.Length == 5 && |src| == 64
    modifies state
    ensures state[..] == Compress(old(state[..]), src)
  {
    var r := Rounds(Regs(state[0], state[1], state[2], state[3], state[4]), src);
    hide Steps, Decode, Add;
    state[0] := Add(state[0], r.a);
    state[1] := Add(state[1], r.b);
    state[2] := Add(state[2], r.c);
    state[3] := Add(state[3], r.d);
    state[4] := Add(state[4], r.e);
  }

  method Rounds(start: Regs, src: seq<Byte>) returns (r: Regs)
    requires |src| == 64
    ensures r == Steps(Decode(true, src), start, 80)
  {
    hide Steps, Decode, Queue;
    var w := new Word[16];
    DecodeInto(true, w, src);
    ghost var m := w[..];
    StartQueue(m, start);
    r := Stage(w, 0, start, m, start);
    r := Stage(w, 20, r, m, start);
    r := Stage(w, 40, r, m, start);
    r := Stage(w, 60, r, m, start);
  }

  lemma StartQueue(m: seq<Word>, start: Regs)
    requires |m| == 16
    ensures Queue(m, m, 0) && Steps(m, start, 0) == start
  {
  }

  lemma QueueLength(w: seq<Word>, m: seq<Word>, t: nat)
    requires Queue(w, m, t)
    ensures |m| == 16
  {
  }

  // One of the four loops, from step `first` on
  method Stage(w: array<Word>, first: nat, r: Regs, ghost m: seq<Word>, ghost start: Regs) returns (r': Regs)
    requires w.Length == 16 && Queue(w[..], m, first) && r == Steps(m, start, first)
    modifies w
    ensures Queue(w[..], m, first + 20) && r' == Steps(m, start, first + 20)
  {
    hide F, K, W, Temp, Rol, Steps, Queue, NextWord;
    QueueLength(w[..], m, first);
    var a, b, c, d, e := r.a, r.b, r.c, r.d, r.e;
    var t := first;
    while t < first + 20
      invariant first <= t <= first + 20 && Queue(w[..], m, t)
      invariant Regs(a, b, c, d, e) == Steps(m, start, t)
    {
      var s := t % 16;
      ghost var before := w[..];
      if t >= 16 {
        w[s] := NextWord(w[..], s);
        QueueNext(before, m, t);
      } else {
        QueueEarly(before, m, t);
      }
      var tmp := Temp(t, a, b, c, d, e, w[s]);
      e := d;
      d := c;
      c := Rol(b, 30);
      b := a;
      a := tmp;
      StepsNext(m, start, t);
      t := t + 1;
    }
    r' := Regs(a, b, c, d, e);
  }

  lemma StepsNext(m: seq<Word>, start: Regs, t: nat)
    requires |m| == 16
    ensures Steps(m, start, t + 1) == Step(Steps(m, start, t), t, W(m, t))
  {
  }
}
