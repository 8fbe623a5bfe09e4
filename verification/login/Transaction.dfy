/** The messages of the login protocol (`bpalogin/transaction.c`): a header of eight bytes, then
    fields, each with a code and its length in front.
 */
module LTransaction {
  type Byte = b: int | 0 <= b < 256

  type Int2 = v: int | 0 <= v < 0x1_0000
  type Int4 = v: int | 0 <= v < 0x1_0000_0000

  const SIZE: nat := 1512

  // `htons` and `htonl` into memory
  function Be2(v: Int2): (s: seq<Byte>)
    ensures |s| == 2
  {
    [v / 256, v % 256]
  }

  function Be4(v: Int4): (s: seq<Byte>)
    ensures |s| == 4
  {
    Be2(v / 0x1_0000) + Be2(v % 0x1_0000)
  }

  function Read2(d: seq<Byte>, at: nat): Int2
    requires at + 2 <= |d|
  {
    var high: int := d[at];
    high * 256 + d[at + 1]
  }

  function Read4(d: seq<Byte>, at: nat): Int4
    requires at + 4 <= |d|
  {
    var high: int := Read2(d, at);
    high * 0x1_0000 + Read2(d, at + 2)
  }

  lemma ReadBack(a: seq<Byte>, v: Int2, w: Int4, b: seq<Byte>)
    ensures Read2(a + Be2(v) + b, |a|) == v
    ensures Read4(a + Be4(w) + b, |a|) == w
  {
  }

  lemma WriteBack(d: seq<Byte>, at: nat)
    ensures at + 2 <= |d| ==> Be2(Read2(d, at)) == d[at..at + 2]
    ensures at + 4 <= |d| ==> Be4(Read4(d, at)) == d[at..at + 4]
  {
    if at + 4 <= |d| {
      var high, low := Read2(d, at), Read2(d, at + 2);
      assert Be2(high) == [d[at], d[at + 1]] && Be2(low) == [d[at + 2], d[at + 3]];
      HighLow(high, low);
      hide Be2, Read2;
    }
  }

  lemma HighLow(high: Int2, low: Int2)
    ensures var h: int := high; (h * 0x1_0000 + low) / 0x1_0000 == h && (h * 0x1_0000 + low) % 0x1_0000 == low
  {
  }

  // Numbers go over the wire with the high byte first
  lemma WireOrder(a: Byte, b: Byte, c: Byte, d: Byte)
    ensures Be2(256 * a + b) == [a, b]
    ensures Be4(256 * (256 * (256 * a + b) + c) + d) == [a, b, c, d]
  {
    HighLow(256 * a + b, 256 * c + d);
    assert Be2(256 * a + b) == [a, b] && Be2(256 * c + d) == [c, d];
    hide Be2;
  }

  datatype Field = Field(code: Int2, value: seq<Byte>)

  function Bytes(f: Field): seq<Byte>
    requires |f.value| + 4 < 0x1_0000
  {
    Be2(f.code) + Be2(|f.value| + 4) + f.value
  }

  predicate Short(fields: seq<Field>) {
    forall f | f in fields :: |f.value| + 4 < 0x1_0000
  }

  function AllBytes(fields: seq<Field>): seq<Byte>
    requires Short(fields)
  {
    if fields == [] then [] else AllBytes(fields[..|fields| - 1]) + Bytes(fields[|fields| - 1])
  }

  // ---------------------------------------------------------------- looking for a field

  datatype Outcome = Found(at: nat) | Absent | Endless | Outside

  // `locate_parm` from position `i` on. A field of length 0 keeps it where it is; a position outside
  // the buffer is undefined.
  function Locate(d: seq<Byte>, length: int, parm: Int2, i: nat): Outcome
    decreases length - i
  {
    if i >= length then Absent
    else if i + 4 > |d| then Outside
    else if Read2(d, i) == parm then Found(i + 4)
    else if Read2(d, i + 2) == 0 then Endless
    else Locate(d, length, parm, i + Read2(d, i + 2))
  }

  // One round of its loop, where it goes on
  function Round(d: seq<Byte>, i: nat): nat
    requires i + 4 <= |d|
  {
    i + Read2(d, i + 2)
  }

  function Rounds(d: seq<Byte>, i: nat, n: nat): nat
    decreases n
  {
    if n == 0 || i + 4 > |d| then i else Rounds(d, Round(d, i), n - 1)
  }

  // The field after `n` rounds is there, and is not the one looked for
  predicate Passed(d: seq<Byte>, length: int, parm: Int2, i: nat, n: nat) {
    Rounds(d, i, n) < length && Rounds(d, i, n) + 4 <= |d| && Read2(d, Rounds(d, i, n)) != parm
  }

  // The walk comes to a field of length 0 before it finds what it looks for
  ghost predicate MeetsEmpty(d: seq<Byte>, length: int, parm: Int2, i: nat, n: nat) {
    && Passed(d, length, parm, i, n) && Read2(d, Rounds(d, i, n) + 2) == 0
    && forall j: nat | j < n :: Passed(d, length, parm, i, j)
  }

  // That is exactly when it never ends
  lemma EndlessExactly(d: seq<Byte>, length: int, parm: Int2, i: nat)
    ensures Locate(d, length, parm, i) == Endless <==> exists n: nat :: MeetsEmpty(d, length, parm, i, n)
  {
    if Locate(d, length, parm, i) == Endless {
      var at, n := EndlessStays(d, length, parm, i);
    } else if n: nat :| MeetsEmpty(d, length, parm, i, n) {
      EmptyIsEndless(d, length, parm, i, n);
    }
  }

  // From that field on, no number of rounds gets any further
  lemma {:induction false} EndlessStays(d: seq<Byte>, length: int, parm: Int2, i: nat) returns (at: nat, n: nat)
    requires Locate(d, length, parm, i) == Endless
    ensures MeetsEmpty(d, length, parm, i, n) && at == Rounds(d, i, n)
    ensures forall j: nat | j >= n :: Rounds(d, i, j) == at
    decreases length - i
  {
    if Read2(d, i + 2) == 0 {
      at, n := i, 0;
      forall j: nat
        ensures Rounds(d, i, j) == i
      {
        Stays(d, i, j);
      }
    } else {
      at, n := EndlessStays(d, length, parm, Round(d, i));
      n := n + 1;
      forall j: nat | j <= n
        ensures Passed(d, length, parm, i, j)
      {
        assert j > 0 ==> Passed(d, length, parm, Round(d, i), j - 1);
      }
      forall j: nat | j >= n
        ensures Rounds(d, i, j) == at
      {
        assert Rounds(d, i, j) == Rounds(d, Round(d, i), j - 1);
      }
    }
  }

  lemma {:induction false} EmptyIsEndless(d: seq<Byte>, length: int, parm: Int2, i: nat, n: nat)
    requires MeetsEmpty(d, length, parm, i, n)
    ensures Locate(d, length, parm, i) == Endless
    decreases n
  {
    assert Passed(d, length, parm, i, 0);
    if n > 0 {
      if Read2(d, i + 2) != 0 {
        forall j: nat | j < n
          ensures Passed(d, length, parm, Round(d, i), j)
        {
          assert Passed(d, length, parm, i, j + 1);
        }
        EmptyIsEndless(d, length, parm, Round(d, i), n - 1);
      }
    }
  }

  lemma {:induction false} Stays(d: seq<Byte>, at: nat, n: nat)
    requires at + 4 <= |d| && Read2(d, at + 2) == 0
    ensures Rounds(d, at, n) == at
  {
    if n > 0 {
      Stays(d, at, n - 1);
    }
  }

  // With three bytes to spare behind the message, as every received one has, it does not leave the buffer
  lemma {:induction false} NeverOutside(d: seq<Byte>, length: int, parm: Int2, i: nat)
    requires length + 3 <= |d|
    ensures !Locate(d, length, parm, i).Outside?
    decreases length - i
  {
    if i < length && Read2(d, i) != parm && Read2(d, i + 2) != 0 {
      NeverOutside(d, length, parm, Round(d, i));
    }
  }

  // The first field with a code
  function First(fields: seq<Field>, code: Int2): (k: nat)
    ensures k <= |fields|
    ensures k < |fields| ==> fields[k].code == code
    ensures forall j | 0 <= j < k :: fields[j].code != code
  {
    if fields == [] then 0
    else
      var k := First(fields[..|fields| - 1], code);
      if k < |fields| - 1 || fields[|fields| - 1].code == code then k else |fields|
  }

  lemma {:induction false} AllBytesSplit(fields: seq<Field>, k: nat) returns (rest: seq<Byte>)
    requires Short(fields) && k < |fields|
    ensures Short(fields[..k]) && Short(fields[..k + 1])
    ensures AllBytes(fields[..k + 1]) == AllBytes(fields[..k]) + Bytes(fields[k])
    ensures AllBytes(fields) == AllBytes(fields[..k]) + Bytes(fields[k]) + rest
  {
    hide Bytes;
    var n := |fields| - 1;
    assert fields[..k + 1][..k] == fields[..k];
    if k == n {
      rest := [];
      assert fields[..k + 1] == fields;
    } else {
      rest := AllBytesSplit(fields[..n], k);
      assert fields[..n][..k] == fields[..k];
      ThreeAndOne(AllBytes(fields[..k]), Bytes(fields[k]), rest, Bytes(fields[n]));
      rest := rest + Bytes(fields[n]);
    }
  }

  lemma ThreeAndOne(a: seq<Byte>, b: seq<Byte>, c: seq<Byte>, d: seq<Byte>)
    ensures a + b + c + d == a + b + (c + d) && a + (b + c + d) == a + b + (c + d)
  {
  }

  // What stands in the buffer at field `k`
  lemma FieldAt(d: seq<Byte>, head: seq<Byte>, fields: seq<Field>, k: nat) returns (at: nat)
    requires Short(fields) && k < |fields| && head + AllBytes(fields) <= d
    ensures Short(fields[..k]) && Short(fields[..k + 1])
    ensures at == |head + AllBytes(fields[..k])|
    ensures at + 4 + |fields[k].value| == |head + AllBytes(fields[..k + 1])| <= |head + AllBytes(fields)| <= |d|
    ensures Read2(d, at) == fields[k].code && Read2(d, at + 2) == |fields[k].value| + 4
    ensures d[at + 4..at + 4 + |fields[k].value|] == fields[k].value
  {
    var rest := AllBytesSplit(fields, k);
    var f, before := fields[k], head + AllBytes(fields[..k]);
    at := |before|;
    assert |Bytes(f)| == |f.value| + 4;
    hide AllBytes, Bytes, Read2;
    var tail := d[|head + AllBytes(fields)|..];
    assert d == head + AllBytes(fields) + tail;
    ThreeAndOne(head, AllBytes(fields[..k]) + Bytes(f), rest, tail);
    ThreeAndOne(head, AllBytes(fields[..k]), Bytes(f), rest);
    assert d == before + Bytes(f) + (rest + tail);
    ReadField(d, before, f, rest + tail);
  }

  lemma ReadField(d: seq<Byte>, before: seq<Byte>, f: Field, tail: seq<Byte>)
    requires |f.value| + 4 < 0x1_0000 && d == before + Bytes(f) + tail
    ensures |before| + 4 + |f.value| <= |d|
    ensures Read2(d, |before|) == f.code && Read2(d, |before| + 2) == |f.value| + 4
    ensures d[|before| + 4..|before| + 4 + |f.value|] == f.value
  {
    ReadBack(before, f.code, 0, Be2(|f.value| + 4) + f.value + tail);
    assert d == before + Be2(f.code) + (Be2(|f.value| + 4) + f.value + tail);
    ReadBack(before + Be2(f.code), |f.value| + 4, 0, f.value + tail);
    assert d == before + Be2(f.code) + Be2(|f.value| + 4) + (f.value + tail);
    hide Be2, Read2;
  }

  // The walk goes from field to field and stops at the first one with the code
  lemma {:induction false} LocateField(d: seq<Byte>, head: seq<Byte>, fields: seq<Field>, code: Int2, j: nat)
    requires Short(fields) && head + AllBytes(fields) <= d && j <= First(fields, code)
    ensures Short(fields[..j]) && Short(fields[..First(fields, code)])
    ensures var k, length := First(fields, code), |head + AllBytes(fields)|;
      Locate(d, length, code, |head + AllBytes(fields[..j])|) ==
        if k < |fields| then Found(|head + AllBytes(fields[..k])| + 4) else Absent
    decreases |fields| - j
  {
    hide AllBytes, First, Read2;
    var k := First(fields, code);
    if j == |fields| {
      assert fields[..j] == fields;
    } else {
      var at := FieldAt(d, head, fields, j);
      BytesGrow(fields, j);
      if j < k {
        LocateField(d, head, fields, code, j + 1);
      }
    }
  }

  lemma {:induction false} BytesGrow(fields: seq<Field>, k: nat)
    requires Short(fields) && k < |fields|
    ensures Short(fields[..k]) && |AllBytes(fields[..k])| < |AllBytes(fields)|
  {
    var rest := AllBytesSplit(fields, k);
  }

  datatype Option<T> = None | Some(value: T)

  ghost function ValueIn(fields: seq<Field>, parm: Int2): Option<seq<Byte>> {
    if First(fields, parm) < |fields| then Some(fields[First(fields, parm)].value) else None
  }

  // The walk ends, at the value or without one
  ghost predicate Finds(d: seq<Byte>, length: int, o: Outcome, value: Option<seq<Byte>>) {
    match value
    case None => o.Absent?
    case Some(v) =>
      && o.Found? && 6 <= o.at && o.at + |v| <= length <= |d| && d[o.at..o.at + |v|] == v
      && Read2(d, o.at - 2) == |v| + 4
  }

  // ---------------------------------------------------------------- what is extracted

  // FALSE, or a value. `Wild`: the walk does not end or leaves the buffer, or what is read or copied
  // lies outside it, or the number of bytes to copy is negative
  datatype Extract<T> = Missing | Got(value: T) | Wild

  function Taken2(d: seq<Byte>, length: int, parm: Int2): Extract<Int2> {
    match Locate(d, length, parm, 8)
    case Absent => Missing
    case Found(at) => if at + 2 <= |d| then Got(Read2(d, at)) else Wild
    case _ => Wild
  }

  function Taken4(d: seq<Byte>, length: int, parm: Int2): Extract<Int4> {
    match Locate(d, length, parm, 8)
    case Absent => Missing
    case Found(at) => if at + 4 <= |d| then Got(Read4(d, at)) else Wild
    case _ => Wild
  }

  function Copied(d: seq<Byte>, length: int, parm: Int2): Extract<seq<Byte>> {
    match Locate(d, length, parm, 8)
    case Absent => Missing
    case Found(at) =>
      FoundInside(d, length, parm, 8);
      var l := Read2(d, at - 2);
      if l < 4 || at + (l - 4) > |d| then Wild else Got(d[at..at + (l - 4)])
    case _ => Wild
  }

  lemma {:induction false} FoundInside(d: seq<Byte>, length: int, parm: Int2, i: nat)
    requires Locate(d, length, parm, i).Found?
    ensures var at := Locate(d, length, parm, i).at; i + 4 <= at <= |d| && at < length + 4 && Read2(d, at - 4) == parm
    decreases length - i
  {
    if Read2(d, i) != parm {
      FoundInside(d, length, parm, Round(d, i));
    }
  }

  // The head of the field found does not fit what is to be copied
  ghost predicate BadLength(d: seq<Byte>, length: int, parm: Int2) {
    Locate(d, length, parm, 8).Found? && (
      var at := Locate(d, length, parm, 8).at;
      FoundInside(d, length, parm, 8);
      Read2(d, at - 2) < 4 || at + Read2(d, at - 2) - 4 > |d|)
  }

  // With eight bytes to spare, as behind every message received: numbers go wild only if the walk does
  // not end, strings also by the length of their field
  lemma WildExactly(d: seq<Byte>, length: int, parm: Int2)
    requires length + 8 <= |d|
    ensures Taken2(d, length, parm).Wild? <==> exists n: nat :: MeetsEmpty(d, length, parm, 8, n)
    ensures Taken4(d, length, parm).Wild? <==> exists n: nat :: MeetsEmpty(d, length, parm, 8, n)
    ensures Copied(d, length, parm).Wild?
      <==> (exists n: nat :: MeetsEmpty(d, length, parm, 8, n)) || BadLength(d, length, parm)
  {
    hide MeetsEmpty, Locate, Read2, Read4;
    NeverOutside(d, length, parm, 8);
    EndlessExactly(d, length, parm, 8);
    if Locate(d, length, parm, 8).Found? {
      FoundInside(d, length, parm, 8);
    }
  }

  // A message of one field that says it is two bytes long
  lemma ShortFieldWild(spare: seq<Byte>)
    requires |spare| >= 8
    ensures var d := [0, 0, 0, 0, 0, 0, 0, 0, 0, 1, 0, 2] + spare;
      BadLength(d, 12, 1) && Copied(d, 12, 1) == Wild && Taken2(d, 12, 1).Got?
  {
    var d := [0, 0, 0, 0, 0, 0, 0, 0, 0, 1, 0, 2] + spare;
    assert Read2(d, 8) == 1 && Read2(d, 10) == 2;
    assert Locate(d, 12, 1, 8) == Found(12);
  }

  // What is copied of a message of fields
  lemma CopiedValue(d: seq<Byte>, length: int, parm: Int2, value: Option<seq<Byte>>)
    requires Finds(d, length, Locate(d, length, parm, 8), value)
    ensures Copied(d, length, parm) == if value.None? then Missing else Got(value.value)
  {
    hide Locate, Read2;
  }

  lemma LocateValue(d: seq<Byte>, head: seq<Byte>, fields: seq<Field>, parm: Int2)
    requires Short(fields) && |head| == 8 && head + AllBytes(fields) <= d
    ensures Finds(d, |head + AllBytes(fields)|, Locate(d, |head + AllBytes(fields)|, parm, 8), ValueIn(fields, parm))
  {
    hide Locate, First, Read2, AllBytes, Short;
    NoFields(head, fields);
    LocateField(d, head, fields, parm, 0);
    if First(fields, parm) < |fields| {
      var at := FieldAt(d, head, fields, First(fields, parm));
    }
  }

  lemma NoFields(head: seq<Byte>, fields: seq<Field>)
    ensures Short(fields[..0]) && head + AllBytes(fields[..0]) == head
  {
  }

  // ---------------------------------------------------------------- struct transaction

  class Transaction {
    const data: array<Byte>
    var length: int
    ghost var head: seq<Byte>
    ghost var fields: seq<Field>

    ghost predicate Valid()
      reads this, data
    {
      && data.Length == SIZE && |head| == 8 && Short(fields)
      && length == |head + AllBytes(fields)| <= SIZE
      && data[..length] == head + AllBytes(fields)
    }

    constructor ()
      ensures data.Length == SIZE && fresh(data)
    {
      data := new Byte[SIZE];
      length := 0;
    }

    // `start_transaction`
    method Start(msgtype: Int2, sessionid: Int4)
      requires data.Length == SIZE
      modifies this, data
      ensures Valid() && fields == [] && head == Be2(msgtype) + Be2(0) + Be4(sessionid)
    {
      hide Be2, Be4;
      length := 0;
      forall i | 0 <= i < SIZE {
        data[i] := 0;
      }
      AddData(Be2(msgtype));
      AddData(Be2(0));
      AddData(Be4(sessionid));
      head, fields := data[..8], [];
    }

    // `add_trans_data`
    method AddData(p: seq<Byte>)
      requires 0 <= length && length + |p| <= data.Length
      modifies this`length, data
      ensures length == old(length) + |p| && data[..length] == old(data[..length]) + p
    {
      forall i | 0 <= i < |p| {
        data[length + i] := p[i];
      }
      length := length + |p|;
    }

    // `add_field_data`; `add_field_string` is the same on the characters of the string
    method AddField(fn: Int2, p: seq<Byte>)
      requires Valid() && length + 4 + |p| <= SIZE
      modifies this, data
      ensures Valid() && fields == old(fields) + [Field(fn, p)] && head == old(head)
    {
      hide Be2, AllBytes;
      AddData(Be2(fn));
      AddData(Be2(|p| + 4));
      AddData(p);
      OneMore(head, fields, Field(fn, p));
      fields := fields + [Field(fn, p)];
    }

    method AddFieldInt2(fn: Int2, v: Int2)
      requires Valid() && length + 6 <= SIZE
      modifies this, data
      ensures Valid() && fields == old(fields) + [Field(fn, Be2(v))] && head == old(head)
    {
      hide Be2, AllBytes;
      AddData(Be2(fn));
      AddData(Be2(6));
      AddData(Be2(v));
      OneMore(head, fields, Field(fn, Be2(v)));
      fields := fields + [Field(fn, Be2(v))];
    }

    method AddFieldInt4(fn: Int2, v: Int4)
      requires Valid() && length + 8 <= SIZE
      modifies this, data
      ensures Valid() && fields == old(fields) + [Field(fn, Be4(v))] && head == old(head)
    {
      hide Be2, Be4, AllBytes;
      AddData(Be2(fn));
      AddData(Be2(8));
      AddData(Be4(v));
      OneMore(head, fields, Field(fn, Be4(v)));
      fields := fields + [Field(fn, Be4(v))];
    }

    // `send_transaction`: the length is put into the header, and the fields stay what they are
    method Send() returns (packet: seq<Byte>)
      requires Valid()
      modifies this, data
      ensures Valid() && fields == old(fields) && head == old(head[..2]) + Be2(length) + old(head[4..])
      ensures packet == head + AllBytes(fields) && |packet| == length == old(length)
    {
      hide AllBytes;
      ghost var body := AllBytes(fields);
      var l := Be2(length);
      data[2], data[3] := l[0], l[1];
      head := head[..2] + l + head[4..];
      assert data[..length] == head + body;
      packet := data[..length];
    }

    // `receive_transaction`; the packet may or may not consist of fields
    method Receive(packet: seq<Byte>, ghost h: seq<Byte>, ghost fs: seq<Field>)
      requires data.Length == SIZE && |packet| <= 1500
      modifies this, data
      ensures length == |packet| && data[..length] == packet && data[length..] == old(data[..])[length..]
      ensures |h| == 8 && Short(fs) && packet == h + AllBytes(fs) ==> Valid() && fields == fs && head == h
    {
      hide AllBytes;
      forall i | 0 <= i < |packet| {
        data[i] := packet[i];
      }
      length, head, fields := |packet|, h, fs;
    }

    // `locate_parm`; `Absent` for NULL. Where its loop does not end, or looks outside the buffer, this
    // says so.
    method LocateParm(parm: Int2) returns (o: Outcome)
      ensures o == Locate(data[..], length, parm, 8)
    {
      var i := 8;
      while i < length
        invariant Locate(data[..], length, parm, 8) == Locate(data[..], length, parm, i)
        decreases length - i
      {
        if i + 4 > data.Length {
          return Outside;
        }
        var l, p1 := Read2(data[..], i + 2), Read2(data[..], i);
        if parm == p1 {
          return Found(i + 4);
        }
        if l == 0 {
          return Endless;
        }
        i := i + l;
      }
      o := Absent;
    }

    // The first field with a code, if there is one
    ghost function Value(parm: Int2): Option<seq<Byte>>
      reads this
    {
      ValueIn(fields, parm)
    }

    lemma Located(parm: Int2)
      requires Valid()
      ensures Finds(data[..], length, Locate(data[..], length, parm, 8), Value(parm))
    {
      assert head + AllBytes(fields) <= data[..];
      LocateValue(data[..], head, fields, parm);
      hide AllBytes, Locate, First, Finds, Short;
    }

    // `extract_valueINT2`: a field that is too short is read together with what follows it
    method ExtractInt2(parm: Int2) returns (v: Extract<Int2>, ghost at: nat)
      ensures v == Taken2(data[..], length, parm)
      ensures Valid() ==> (v.Missing? <==> Value(parm).None?)
      ensures Valid() && !v.Missing? ==> IsAt(parm, at) && (v.Got? <==> at + 2 <= SIZE)
      ensures Valid() && v.Got? ==> Be2(v.value) == data[at..at + 2]
      ensures Valid() && Value(parm).Some? && |Value(parm).value| >= 2 ==>
        v.Got? && Value(parm).value[..2] == Be2(v.value)
    {
      hide AllBytes, Locate, First, Be2, Read2, Short, Finds;
      if Valid() {
        Located(parm);
        FoundAt(parm);
      }
      var o := LocateParm(parm);
      at := 0;
      match o {
        case Absent => v := Missing;
        case Found(p) =>
          at := p;
          if p + 2 > data.Length {
            v := Wild;
          } else {
            v := Got(Read2(data[..], p));
            WriteBack(data[..], at);
            assert data[..][at..at + 2] == data[at..at + 2];
          }
        case _ => v := Wild;
      }
    }

    method ExtractInt4(parm: Int2) returns (v: Extract<Int4>, ghost at: nat)
      ensures v == Taken4(data[..], length, parm)
      ensures Valid() ==> (v.Missing? <==> Value(parm).None?)
      ensures Valid() && !v.Missing? ==> IsAt(parm, at) && (v.Got? <==> at + 4 <= SIZE)
      ensures Valid() && v.Got? ==> Be4(v.value) == data[at..at + 4]
      ensures Valid() && Value(parm).Some? && |Value(parm).value| >= 4 ==>
        v.Got? && Value(parm).value[..4] == Be4(v.value)
    {
      hide AllBytes, Locate, First, Be4, Read2, Read4, Short, Finds;
      if Valid() {
        Located(parm);
        FoundAt(parm);
      }
      var o := LocateParm(parm);
      at := 0;
      match o {
        case Absent => v := Missing;
        case Found(p) =>
          at := p;
          if p + 4 > data.Length {
            v := Wild;
          } else {
            v := Got(Read4(data[..], p));
            WriteBack(data[..], at);
            assert data[..][at..at + 4] == data[at..at + 4];
          }
        case _ => v := Wild;
      }
    }

    // The value of the first field with the code is behind its head
    ghost predicate IsAt(parm: Int2, at: nat)
      reads this, data
    {
      && Value(parm).Some? && at + |Value(parm).value| <= length <= data.Length
      && data[at..at + |Value(parm).value|] == Value(parm).value
    }

    lemma FoundAt(parm: Int2)
      requires Valid() && Finds(data[..], length, Locate(data[..], length, parm, 8), Value(parm))
      ensures var o := Locate(data[..], length, parm, 8);
        && (o.Absent? <==> Value(parm).None?)
        && (if Value(parm).None? then o.Absent? else o.Found? && IsAt(parm, o.at))
    {
      hide AllBytes, Locate, First, Read2, Short;
      var o := Locate(data[..], length, parm, 8);
      if Value(parm).Some? {
        assert data[..][o.at..o.at + |Value(parm).value|] == data[o.at..o.at + |Value(parm).value|];
      }
    }

    // `extract_valuestring`
    method ExtractString(parm: Int2) returns (v: Extract<seq<Byte>>)
      ensures v == Copied(data[..], length, parm)
      ensures Valid() ==> v == if Value(parm).None? then Missing else Got(Value(parm).value)
    {
      hide AllBytes, Locate, First, Short, Finds, ValueIn;
      if Valid() {
        Located(parm);
        CopiedValue(data[..], length, parm, Value(parm));
      }
      var o := LocateParm(parm);
      match o {
        case Absent => v := Missing;
        case Found(at) =>
          FoundInside(data[..], length, parm, 8);
          var l := Read2(data[..], at - 2);
          if l < 4 || at + (l - 4) > data.Length {
            v := Wild;
          } else {
            assert data[at..at + (l - 4)] == data[..][at..at + (l - 4)];
            v := Got(data[at..at + (l - 4)]);
          }
        case _ => v := Wild;
      }
    }
  }

  lemma OneMore(head: seq<Byte>, fields: seq<Field>, f: Field)
    requires Short(fields) && |f.value| + 4 < 0x1_0000
    ensures Short(fields + [f])
    ensures head + AllBytes(fields + [f]) == head + AllBytes(fields) + Be2(f.code) + Be2(|f.value| + 4) + f.value
  {
    assert (fields + [f])[..|fields|] == fields;
    hide Be2;
  }

  // Everything sent is received: the answer is the value of the first field with the code, or none
  method RoundTrip(msgtype: Int2, sessionid: Int4, fs: seq<Field>, parm: Int2) returns (v: Extract<seq<Byte>>)
    requires Short(fs) && 8 + |AllBytes(fs)| <= 1500
    ensures v == if First(fs, parm) < |fs| then Got(fs[First(fs, parm)].value) else Missing
  {
    hide AllBytes, First;
    var t := new Transaction();
    t.Start(msgtype, sessionid);
    var i := 0;
    while i < |fs|
      invariant i <= |fs| && t.Valid() && t.fields == fs[..i]
      invariant fresh(t) && fresh(t.data)
    {
      var rest := AllBytesSplit(fs, i);
      assert |Bytes(fs[i])| == |fs[i].value| + 4;
      assert fs[..i + 1] == fs[..i] + [fs[i]];
      t.AddField(fs[i].code, fs[i].value);
      i := i + 1;
    }
    assert fs[..i] == fs;
    var packet := t.Send();
    var u := new Transaction();
    u.Receive(packet, t.head, t.fields);
    v := u.ExtractString(parm);
  }
}
