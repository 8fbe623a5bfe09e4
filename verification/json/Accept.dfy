/** Which texts `js0n` (`httpd/json.c`) rejects: exactly those that cannot be continued to a sequence of
    separators, brackets, strings and words.
 */
module JAccept {
  import opened JGrammar
  import opened JScan
  import opened JText

  // A separator or bracket, a string, and a number or a word
  datatype Piece = Mark(c: Byte) | Quoted(body: seq<Byte>) | Bareword(text: seq<Byte>)

  predicate Plain(body: seq<Byte>) {
    StringBody(body) && 127 !in body
  }

  predicate IsPiece(p: Piece) {
    match p
    case Mark(c) => Separator(c) || c in {91, 93, 123, 125}
    case Quoted(body) => Plain(body)
    case Bareword(text) => text != [] && WordStart(text[0]) && forall i | 0 < i < |text| :: WordByte(text[i])
  }

  function PieceText(p: Piece): seq<Byte> {
    match p
    case Mark(c) => [c]
    case Quoted(body) => [34] + body + [34]
    case Bareword(text) => text
  }

  function AllText(ps: seq<Piece>): seq<Byte> {
    if ps == [] then [] else AllText(ps[..|ps| - 1]) + PieceText(ps[|ps| - 1])
  }

  // White space, a comma or a closing bracket
  predicate Stops(p: Piece) {
    p.Mark? && (EndsWord(p.c) || p.c in {93, 125})
  }

  // A number or a word goes on until something stops it
  predicate InOrder(ps: seq<Piece>) {
    forall i | 0 <= i < |ps| :: IsPiece(ps[i]) && (0 < i && ps[i - 1].Bareword? ==> Stops(ps[i]))
  }

  // A beginning of such a sequence
  ghost predicate Accepted(text: seq<Byte>) {
    exists ps :: InOrder(ps) && text <= AllText(ps)
  }

  // Opening brackets less closing ones
  function Balance(ps: seq<Piece>): int {
    if ps == [] then 0 else Balance(ps[..|ps| - 1]) + Weight(ps[|ps| - 1])
  }

  function Weight(p: Piece): int {
    if !p.Mark? then 0 else if p.c in {91, 123} then 1 else if p.c in {93, 125} then -1 else 0
  }

  // ---------------------------------------------------------------- such sequences are scanned

  predicate InWord(ps: seq<Piece>) {
    ps != [] && ps[|ps| - 1].Bareword?
  }

  // In what mode a piece may be met, and what it leaves
  lemma MarkRuns(s: State, c: Byte, at: nat)
    requires !s.bad && IsPiece(Mark(c)) && (s.go == Struct || (s.go == Bare && Stops(Mark(c))))
    ensures var r := Run(s, [c], at); !r.bad && r.go == Struct && r.depth == s.depth + Weight(Mark(c))
  {
    OneByte(s, c, at);
  }

  lemma {:induction false} WordRuns(s: State, text: seq<Byte>, at: nat)
    requires !s.bad && s.go == Struct && IsPiece(Bareword(text))
    ensures var r := Run(s, text, at); !r.bad && r.go == Bare && r.depth == s.depth
  {
    var n := |text| - 1;
    if n > 0 {
      WordRuns(s, text[..n], at);
    } else {
      assert text[..n] == [];
    }
  }

  lemma QuoteRuns(s: State, body: seq<Byte>, at: nat)
    requires !s.bad && s.go == Struct && Plain(body)
    ensures var r := Run(s, [34] + body + [34], at); !r.bad && r.go == Struct && r.depth == s.depth
  {
    hide Run, StringBody;
    assert [34] + body + [34] == [34] + (body + [34]);
    RunFirst(s, 34, body + [34], at);
    var t := Step(s, 34, at);
    RunAppend(t, body, [34], at + 1);
    ScanBody(t, body, at + 1);
    OneByte(Run(t, body, at + 1), 34, at + 1 + |body|);
  }

  lemma {:induction false} PiecesRun(ps: seq<Piece>)
    requires InOrder(ps)
    ensures var r := Run(Start(Struct), AllText(ps), 0);
      !r.bad && r.go == (if InWord(ps) then Bare else Struct) && r.depth == Balance(ps)
  {
    hide Run, IsPiece, Stops, Weight;
    if ps == [] {
      Nothing(Start(Struct));
    } else {
      var n := |ps| - 1;
      PiecesRun(ps[..n]);
      RunAppend(Start(Struct), AllText(ps[..n]), PieceText(ps[n]), 0);
      assert n > 0 ==> ps[..n][n - 1] == ps[n - 1];
      PieceRuns(Run(Start(Struct), AllText(ps[..n]), 0), ps[n], |AllText(ps[..n])|);
    }
  }

  lemma Nothing(s: State)
    ensures Run(s, [], 0) == s
  {
  }

  lemma PieceRuns(s: State, p: Piece, at: nat)
    requires !s.bad && IsPiece(p) && (s.go == Struct || (s.go == Bare && Stops(p)))
    ensures var r := Run(s, PieceText(p), at);
      !r.bad && r.go == (if p.Bareword? then Bare else Struct) && r.depth == s.depth + Weight(p)
  {
    hide Run;
    match p
    case Mark(c) => MarkRuns(s, c, at);
    case Quoted(body) => QuoteRuns(s, body, at);
    case Bareword(text) => WordRuns(s, text, at);
  }

  // ---------------------------------------------------------------- what is scanned is such a beginning

  // How many bytes a character takes that starts with this one
  function Width(c: Byte): nat {
    if 192 <= c <= 223 then 2 else if 224 <= c <= 239 then 3 else if 240 <= c <= 247 then 4 else 0
  }

  // The beginning of a character, with `remain` bytes to come
  predicate Begun(part: seq<Byte>, remain: int) {
    && part != [] && remain >= 1 && |part| + remain == Width(part[0])
    && forall i | 1 <= i < |part| :: 128 <= part[i] <= 191
  }

  // What has been read of a string, by mode
  predicate Unfinished(s: State, body: seq<Byte>, part: seq<Byte>) {
    match s.go
    case String => Plain(body) && part == []
    case Esc => Plain(body) && part == [92]
    case Utf8 => Plain(body) && Begun(part, s.remain)
    case _ => body == [] && part == []
  }

  function Open(s: State, body: seq<Byte>, part: seq<Byte>): seq<Byte> {
    if s.go in {Struct, Bare} then [] else [34] + body + part
  }

  predicate Parsed(s: State, text: seq<Byte>, ps: seq<Piece>, body: seq<Byte>, part: seq<Byte>) {
    && InOrder(ps) && Unfinished(s, body, part) && text == AllText(ps) + Open(s, body, part)
    && (s.go == Bare <==> InWord(ps))
  }

  lemma AllTextMore(ps: seq<Piece>, p: Piece)
    ensures AllText(ps + [p]) == AllText(ps) + PieceText(p)
  {
    assert (ps + [p])[..|ps|] == ps;
  }

  lemma InOrderMore(ps: seq<Piece>, p: Piece)
    requires InOrder(ps) && IsPiece(p) && (InWord(ps) ==> Stops(p))
    ensures InOrder(ps + [p]) && (InWord(ps + [p]) <==> p.Bareword?)
  {
    hide IsPiece, Stops;
  }

  lemma {:induction false} BodyMore(body: seq<Byte>, c: seq<Byte>)
    requires StringBody(body) && c != [] && CharLength(c) == |c|
    ensures StringBody(body + c)
    decreases |body|
  {
    if body == [] {
      assert body + c == c && c[|c|..] == [];
    } else {
      var n := CharLength(body);
      assert CharLength(body + c) == n;
      assert (body + c)[n..] == body[n..] + c;
      BodyMore(body[n..], c);
    }
  }

  lemma PlainMore(body: seq<Byte>, c: seq<Byte>)
    requires Plain(body) && c != [] && CharLength(c) == |c| && 127 !in c
    ensures Plain(body + c)
  {
    BodyMore(body, c);
    hide StringBody;
  }

  // One more byte
  lemma ParseStruct(s: State, c: Byte, at: nat, text: seq<Byte>, ps: seq<Piece>)
    returns (ps': seq<Piece>)
    requires !s.bad && s.go == Struct && Parsed(s, text, ps, [], []) && !Step(s, c, at).bad
    ensures Parsed(Step(s, c, at), text + [c], ps', [], [])
  {
    hide InOrder, AllText, InWord, StringBody;
    if c == 34 {
      ps' := ps;
    } else {
      var p := if WordStart(c) then Bareword([c]) else Mark(c);
      ps' := ps + [p];
      AllTextMore(ps, p);
      InOrderMore(ps, p);
    }
    assert text + [c] == AllText(ps') + Open(Step(s, c, at), [], []) by {
      hide InOrder;
      assert text == AllText(ps) + [];
    }
    EmptyPlain();
  }

  lemma EmptyPlain()
    ensures Plain([])
  {
  }

  lemma ParseBare(s: State, c: Byte, at: nat, text: seq<Byte>, ps: seq<Piece>) returns (ps': seq<Piece>)
    requires !s.bad && s.go == Bare && Parsed(s, text, ps, [], []) && !Step(s, c, at).bad
    ensures Parsed(Step(s, c, at), text + [c], ps', [], [])
  {
    hide InOrder, AllText, StringBody;
    var n := |ps| - 1;
    if WordByte(c) {
      var p := Bareword(ps[n].text + [c]);
      ps' := ps[..n] + [p];
      LongerWord(ps, c);
    } else {
      var p := Mark(c);
      ps' := ps + [p];
      AllTextMore(ps, p);
      InOrderMore(ps, p);
    }
    assert text == AllText(ps) + [];
    assert text + [c] == AllText(ps') + [];
  }

  // The last word, with one more byte
  lemma LongerWord(ps: seq<Piece>, c: Byte)
    requires InOrder(ps) && InWord(ps) && WordByte(c)
    ensures var n := |ps| - 1; var ps' := ps[..n] + [Bareword(ps[n].text + [c])];
      InOrder(ps') && InWord(ps') && AllText(ps') == AllText(ps) + [c]
  {
    hide IsPiece, WordByte, InOrder, AllText, Stops;
    var n := |ps| - 1;
    var init, text := ps[..n], ps[n].text;
    assert ps == init + [Bareword(text)];
    InOrderLess(init, Bareword(text));
    LongerPiece(text, c);
    InOrderMore(init, Bareword(text + [c]));
    AllTextMore(init, Bareword(text));
    AllTextMore(init, Bareword(text + [c]));
    assert AllText(init) + (text + [c]) == AllText(init) + text + [c];
  }

  lemma InOrderLess(ps: seq<Piece>, p: Piece)
    requires InOrder(ps + [p]) && p.Bareword?
    ensures InOrder(ps) && IsPiece(p) && !InWord(ps)
  {
    hide IsPiece;
    var all := ps + [p];
    assert all[|ps|] == p && forall i | 0 <= i < |ps| :: all[i] == ps[i];
  }

  lemma LongerPiece(text: seq<Byte>, c: Byte)
    requires IsPiece(Bareword(text)) && WordByte(c)
    ensures IsPiece(Bareword(text + [c]))
  {
  }

  lemma ParseString(s: State, c: Byte, at: nat, text: seq<Byte>, ps: seq<Piece>, body: seq<Byte>)
    returns (ps': seq<Piece>, body': seq<Byte>, part': seq<Byte>)
    requires !s.bad && s.go == String && Parsed(s, text, ps, body, []) && !Step(s, c, at).bad
    ensures Parsed(Step(s, c, at), text + [c], ps', body', part')
  {
    hide InOrder, AllText, StringBody, InWord, Plain;
    ps', body', part' := ps, body, [];
    if c == 34 {
      ps', body' := ps + [Quoted(body)], [];
      AllTextMore(ps, Quoted(body));
      InOrderMore(ps, Quoted(body));
    } else if c == 92 || Width(c) > 0 {
      part' := [c];
    } else {
      body' := body + [c];
      PlainMore(body, [c]);
    }
    assert text == AllText(ps) + ([34] + body + []);
    assert text + [c] == AllText(ps') + Open(Step(s, c, at), body', part');
  }

  lemma ParseEsc(s: State, c: Byte, at: nat, text: seq<Byte>, ps: seq<Piece>, body: seq<Byte>)
    requires !s.bad && s.go == Esc && Parsed(s, text, ps, body, [92]) && !Step(s, c, at).bad
    ensures Parsed(Step(s, c, at), text + [c], ps, body + [92, c], [])
  {
    hide InOrder, AllText, StringBody, InWord, Plain;
    PlainMore(body, [92, c]);
    assert text == AllText(ps) + ([34] + body + [92]);
    assert text + [c] == AllText(ps) + ([34] + (body + [92, c]) + []);
  }

  lemma ParseUtf8(s: State, c: Byte, at: nat, text: seq<Byte>, ps: seq<Piece>, body: seq<Byte>, part: seq<Byte>)
    returns (body': seq<Byte>, part': seq<Byte>)
    requires !s.bad && s.go == Utf8 && Parsed(s, text, ps, body, part) && !Step(s, c, at).bad
    ensures Parsed(Step(s, c, at), text + [c], ps, body', part')
  {
    hide InOrder, AllText, StringBody, InWord, Plain;
    assert text == AllText(ps) + ([34] + body + part);
    if s.remain == 1 {
      body', part' := body + (part + [c]), [];
      CharWhole(part, c);
      PlainMore(body, part + [c]);
      assert text + [c] == AllText(ps) + ([34] + body' + []);
    } else {
      body', part' := body, part + [c];
      assert text + [c] == AllText(ps) + ([34] + body + (part + [c]));
    }
  }

  lemma CharWhole(part: seq<Byte>, c: Byte)
    requires Begun(part, 1) && 128 <= c <= 191
    ensures CharLength(part + [c]) == |part + [c]| && 127 !in part + [c]
  {
  }

  lemma {:induction false} Parse(text: seq<Byte>) returns (ps: seq<Piece>, body: seq<Byte>, part: seq<Byte>)
    requires !Run(Start(Struct), text, 0).bad
    ensures Parsed(Run(Start(Struct), text, 0), text, ps, body, part)
  {
    hide Parsed, Step;
    if text == [] {
      ps, body, part := [], [], [];
      ParsedNothing();
    } else {
      var n := |text| - 1;
      var s := Run(Start(Struct), text[..n], 0);
      StepBad(s, text[n], n);
      ps, body, part := Parse(text[..n]);
      ps, body, part := ParseByte(s, text[n], n, text[..n], ps, body, part);
      assert text == text[..n] + [text[n]];
    }
  }

  lemma StepBad(s: State, c: Byte, at: nat)
    ensures s.bad ==> Step(s, c, at).bad
  {
  }

  lemma ParsedNothing()
    ensures Parsed(Start(Struct), [], [], [], [])
  {
  }

  lemma ParseByte(s: State, c: Byte, at: nat, text: seq<Byte>, ps: seq<Piece>, body: seq<Byte>, part: seq<Byte>)
    returns (ps': seq<Piece>, body': seq<Byte>, part': seq<Byte>)
    requires !s.bad && Parsed(s, text, ps, body, part) && !Step(s, c, at).bad
    ensures Parsed(Step(s, c, at), text + [c], ps', body', part')
  {
    hide InOrder, AllText, StringBody, InWord, Plain, Step;
    ps', body', part' := ps, [], [];
    match s.go
    case Struct => ps' := ParseStruct(s, c, at, text, ps);
    case Bare => ps' := ParseBare(s, c, at, text, ps);
    case String => ps', body', part' := ParseString(s, c, at, text, ps, body);
    case Esc =>
      ParseEsc(s, c, at, text, ps, body);
      body' := body + [92, c];
    case Utf8 => body', part' := ParseUtf8(s, c, at, text, ps, body, part);
  }

  // What has been read can be finished
  lemma Finished(s: State, text: seq<Byte>, ps: seq<Piece>, body: seq<Byte>, part: seq<Byte>)
    requires Parsed(s, text, ps, body, part)
    ensures Accepted(text)
  {
    hide InOrder, AllText, Plain, Unfinished, InWord;
    if s.go in {Struct, Bare} {
      assert text <= AllText(ps);
    } else {
      PartWhole(s, body, part);
      StringFinished(text, ps, body, part, Rest(s));
    }
  }

  lemma StringFinished(text: seq<Byte>, ps: seq<Piece>, body: seq<Byte>, part: seq<Byte>, rest: seq<Byte>)
    requires InOrder(ps) && !InWord(ps) && Plain(body + (part + rest)) && text == AllText(ps) + ([34] + body + part)
    ensures Accepted(text)
  {
    hide InOrder, AllText, InWord, Plain;
    var p := Quoted(body + (part + rest));
    AllTextMore(ps, p);
    InOrderMore(ps, p);
    Closed(AllText(ps), [34], body, part, rest);
    assert text <= AllText(ps + [p]);
  }

  lemma Closed<T>(a: seq<T>, q: seq<T>, body: seq<T>, part: seq<T>, rest: seq<T>)
    ensures a + (q + (body + (part + rest)) + q) == (a + (q + body + part)) + (rest + q)
  {
  }

  // Something that ends the last character
  function Rest(s: State): seq<Byte> {
    if s.go == Esc then [34] else if s.go == Utf8 && s.remain > 0 then seq(s.remain, _ => 128) else []
  }

  lemma PartWhole(s: State, body: seq<Byte>, part: seq<Byte>)
    requires Unfinished(s, body, part) && s.go in {String, Esc, Utf8}
    ensures Plain(body + (part + Rest(s)))
  {
    hide StringBody;
    var rest := Rest(s);
    if s.go == String {
      assert body + (part + rest) == body;
    } else {
      var c := part + rest;
      assert CharLength(c) == |c| && 127 !in c;
      PlainMore(body, c);
    }
  }

  // A first call fails exactly on a text that is no beginning of a sequence of pieces; on a whole
  // sequence it returns how many brackets are open
  lemma RejectsExactly(text: seq<Byte>)
    ensures Run(Start(Struct), text, 0).bad <==> !Accepted(text)
    ensures forall ps | InOrder(ps) && text == AllText(ps) :: Result(Run(Start(Struct), text, 0)) == Balance(ps)
  {
    hide Run, InOrder, AllText, Parsed;
    if !Run(Start(Struct), text, 0).bad {
      var ps, body, part := Parse(text);
      Finished(Run(Start(Struct), text, 0), text, ps, body, part);
    }
    if Accepted(text) {
      var ps :| InOrder(ps) && text <= AllText(ps);
      PiecesRun(ps);
      var all := AllText(ps);
      assert all == text + all[|text|..];
      if Run(Start(Struct), text, 0).bad {
        BadPart(Start(Struct), text, all[|text|..], 0);
      }
    }
    forall ps | InOrder(ps) && text == AllText(ps)
      ensures Result(Run(Start(Struct), text, 0)) == Balance(ps)
    {
      PiecesRun(ps);
    }
  }
}
