/** The JSON scanner `js0n` (`httpd/json.c`): one pass over the bytes that reports where the parts of
    the outermost array or object are. The pointer to the current jump table is a static variable of
    the function: a call starts in the mode in which the call before it ended.
 */
module JScan {
  import opened JGrammar

  const WRAP: nat := 0x10000  // the results are unsigned short

  datatype Mode = Struct | Bare | String | Utf8 | Esc

  datatype Label = LOOP | BAD | UP | DOWN | QUP | QDOWN | ESC | UNESC | BARE | UNBARE | UTF2 | UTF3 | UTF4 | CONT

  predicate Blank(c: Byte) {
    c == 9 || c == 10 || c == 13 || c == 32
  }

  // The jump tables
  function Jump(go: Mode, c: Byte): Label {
    match go
    case Struct =>
      if Blank(c) || c == 58 || c == 44 then LOOP  // ':' ','
      else if c == 34 then QUP
      else if c == 91 || c == 123 then UP  // '[' '{'
      else if c == 93 || c == 125 then DOWN  // ']' '}'
      else if c == 45 || 48 <= c <= 57 || c == 116 || c == 102 || c == 110 then BARE
      else BAD
    case Bare =>
      if Blank(c) || c == 44 || c == 93 || c == 125 then UNBARE
      else if 32 <= c <= 126 then LOOP
      else BAD
    case String =>
      if c == 92 then ESC
      else if c == 34 then QDOWN
      else if 32 <= c <= 126 then LOOP
      else if 192 <= c <= 223 then UTF2
      else if 224 <= c <= 239 then UTF3
      else if 240 <= c <= 247 then UTF4
      else BAD
    case Utf8 => if 128 <= c <= 191 then CONT else BAD
    case Esc => if c in {34, 92, 47, 98, 102, 110, 114, 116, 117} then UNESC else BAD
  }

  // What has been found so far: whole tokens, and where the current one starts
  datatype Token = Token(at: nat, len: nat)

  datatype Open = Closed | Opened(at: nat)

  datatype State = State(go: Mode, depth: int, remain: int, tokens: seq<Token>, open: Open, bad: bool)

  function Start(go: Mode): State {
    State(go, 0, 0, [], Closed, false)
  }

  function Push(s: State, at: nat): State {
    if s.depth == 1 then s.(open := Opened(at)) else s
  }

  function Cap(s: State, end: nat): State {
    if s.depth == 1 && s.open.Opened? && s.open.at <= end then
      s.(open := Closed, tokens := s.tokens + [Token(s.open.at, end - s.open.at)])
    else s
  }

  // One byte, at position `at`
  function Step(s: State, c: Byte, at: nat): State {
    if s.bad then s
    else if Jump(s.go, c).UNBARE? then Act(Cap(s, at).(go := Struct), Jump(Struct, c), at)
    else Act(s, Jump(s.go, c), at)
  }

  function Act(s: State, target: Label, at: nat): State {
    match target
    case LOOP => s
    case UP => var t := Push(s, at); t.(depth := t.depth + 1)
    case DOWN => Cap(s.(depth := s.depth - 1), at + 1)
    case QUP => Push(s, at + 1).(go := String)
    case QDOWN => Cap(s, at).(go := Struct)
    case ESC => s.(go := Esc)
    case UNESC => s.(go := String)
    case BARE => Push(s, at).(go := Bare)
    case UTF2 => s.(go := Utf8, remain := 1)
    case UTF3 => s.(go := Utf8, remain := 2)
    case UTF4 => s.(go := Utf8, remain := 3)
    case CONT => s.(go := if s.remain == 1 then String else Utf8, remain := s.remain - 1)
    case _ => s.(bad := true)
  }

  // From position `at` on
  function Run(s: State, text: seq<Byte>, at: nat): State {
    if text == [] then s
    else Step(Run(s, text[..|text| - 1], at), text[|text| - 1], at + |text| - 1)
  }

  lemma {:induction false} RunAppend(s: State, a: seq<Byte>, b: seq<Byte>, at: nat)
    ensures Run(s, a + b, at) == Run(Run(s, a, at), b, at + |a|)
  {
    hide Step;
    if b == [] {
      assert a + b == a;
    } else {
      assert (a + b)[..|a + b| - 1] == a + b[..|b| - 1];
      RunAppend(s, a, b[..|b| - 1], at);
    }
  }

  // ---------------------------------------------------------------- every input

  // A token is open exactly at depth 1 inside a string or bare word, and at any greater depth
  ghost predicate Sound(s: State, at: nat) {
    && (!s.bad ==> (s.open.Opened? <==> s.depth >= 2 || (s.depth == 1 && s.go != Struct)))
    && Ordered(s.tokens, if s.open.Opened? then s.open.at else at)
    && (s.open.Opened? ==> s.open.at <= at)
  }

  // Tokens are in order, do not overlap, and end before `end`
  ghost predicate Ordered(tokens: seq<Token>, end: nat) {
    && (forall i | 0 <= i < |tokens| :: tokens[i].at + tokens[i].len <= end)
    && forall i, j | 0 <= i < j < |tokens| :: tokens[i].at + tokens[i].len <= tokens[j].at
  }

  // What the jump tables can say in each mode
  predicate Possible(go: Mode, target: Label) {
    target.BAD? ||
    match go
    case Struct => target in {LOOP, UP, DOWN, QUP, BARE}
    case Bare => target in {LOOP, UNBARE}
    case String => target in {LOOP, ESC, QDOWN, UTF2, UTF3, UTF4}
    case Utf8 => target.CONT?
    case Esc => target.UNESC?
  }

  lemma JumpPossible(go: Mode, c: Byte)
    ensures Possible(go, Jump(go, c)) && (Jump(go, c).UNBARE? ==> go == Bare)
    ensures Jump(go, c).UNBARE? ==> Jump(Struct, c) in {LOOP, DOWN}
  {
  }

  lemma UnbareSound(s: State, at: nat)
    requires Sound(s, at) && !s.bad && s.go == Bare
    ensures Sound(Cap(s, at).(go := Struct), at)
  {
  }

  lemma ActSound(s: State, target: Label, at: nat)
    requires Sound(s, at) && !s.bad && Possible(s.go, target) && !target.UNBARE?
    ensures Sound(Act(s, target, at), at + 1)
  {
  }

  lemma SoundLater(s: State, at: nat)
    requires Sound(s, at) && s.bad
    ensures Sound(s, at + 1)
  {
  }

  lemma StepSound(s: State, c: Byte, at: nat)
    requires Sound(s, at)
    ensures Sound(Step(s, c, at), at + 1)
  {
    hide Jump, Sound, Act;
    JumpPossible(s.go, c);
    if s.bad {
      SoundLater(s, at);
    } else if Jump(s.go, c).UNBARE? {
      UnbareSound(s, at);
      ActSound(Cap(s, at).(go := Struct), Jump(Struct, c), at);
    } else {
      ActSound(s, Jump(s.go, c), at);
    }
  }

  lemma {:induction false} RunSound(go: Mode, text: seq<Byte>)
    ensures Sound(Run(Start(go), text, 0), |text|)
  {
    if text != [] {
      RunSound(go, text[..|text| - 1]);
      StepSound(Run(Start(go), text[..|text| - 1], 0), text[|text| - 1], |text| - 1);
    }
  }

  // What is written: offset and length of each token, modulo 2^16, and the offset of an open one
  function Written(tokens: seq<Token>): (out: seq<nat>)
    ensures |out| == 2 * |tokens|
  {
    if tokens == [] then []
    else
      var t := tokens[|tokens| - 1];
      Written(tokens[..|tokens| - 1]) + [t.at % WRAP, t.len % WRAP]
  }

  function Emitted(s: State): seq<nat> {
    Written(s.tokens) + if s.open.Opened? then [s.open.at % WRAP] else []
  }

  lemma CapWrites(s: State, end: nat, prev: nat)
    requires s.open.Opened? && s.open.at <= end && prev == s.open.at % WRAP && s.depth == 1
    ensures Emitted(Cap(s, end)) == Emitted(s) + [(end - prev) % WRAP]
  {
    var t := Token(s.open.at, end - s.open.at);
    assert (s.tokens + [t])[..|s.tokens|] == s.tokens;
    assert end - prev == t.len + WRAP * (s.open.at / WRAP);
  }

  lemma PushWrites(s: State, at: nat)
    requires s.open.Closed? && s.depth == 1
    ensures Emitted(Push(s, at)) == Emitted(s) + [at % WRAP]
  {
  }

  // The macro PUSH: `at` is `cur + i - js`
  method PushAt(depth: int, at: nat, prev: nat, out: seq<nat>, ghost s: State) returns (prev': nat, out': seq<nat>)
    requires Follows(s, depth, prev, out) && (depth == 1 ==> s.open.Closed?)
    ensures Follows(Push(s, at), depth, prev', out')
  {
    prev', out' := prev, out;
    if depth == 1 {
      PushWrites(s, at);
      prev' := at % WRAP;
      out' := out + [prev'];
    }
  }

  // The macro CAP: `end` is `cur + i - js + 1`
  method CapAt(depth: int, end: nat, prev: nat, out: seq<nat>, ghost s: State) returns (prev': nat, out': seq<nat>)
    requires Follows(s, depth, prev, out) && (depth == 1 ==> s.open.Opened? && s.open.at <= end)
    ensures Follows(Cap(s, end), depth, prev', out')
  {
    hide Emitted;
    prev', out' := prev, out;
    if depth == 1 {
      CapWrites(s, end, prev);
      prev' := (end - prev) % WRAP;
      out' := out + [prev'];
    }
  }

  ghost predicate Follows(s: State, depth: int, prev: nat, out: seq<nat>) {
    depth == s.depth && out == Emitted(s) && (s.open.Opened? ==> prev == s.open.at % WRAP)
  }

  lemma NothingYet(go: Mode)
    ensures Emitted(Start(go)) == []
  {
  }

  lemma SameOutput(s: State, t: State)
    requires s.tokens == t.tokens && s.open == t.open
    ensures Emitted(s) == Emitted(t)
  {
  }

  // What a call returns
  function Result(s: State): int {
    if s.bad then 1 else s.depth
  }

  class Scanner {
    var go: Mode  // static

    constructor ()
      ensures go == Struct
    {
      go := Struct;
    }

    method Js0n(js: seq<Byte>) returns (r: int, out: seq<nat>)
      modifies this
      ensures var s := Run(Start(old(go)), js, 0); r == Result(s) && out == Emitted(s) && go == s.go
    {
      hide Jump, Emitted, Ordered;
      var prev: nat, depth, remain := 0, 0, 0;
      out := [];
      ghost var first, s := go, Start(go);
      NothingYet(go);
      var cur := 0;
      while cur < |js|
        invariant cur <= |js| && s == Run(Start(first), js[..cur], 0) && !s.bad
        invariant go == s.go && remain == s.remain && Follows(s, depth, prev, out)
      {
        assert js[..cur + 1][..cur] == js[..cur];
        RunSound(first, js[..cur]);
        ghost var s' := Step(s, js[cur], cur);
        var target := Jump(go, js[cur]);
        JumpPossible(go, js[cur]);
        if target.UNBARE? {
          UnbareSound(s, cur);
          prev, out := CapAt(depth, cur, prev, out, s);
          go := Struct;
          SameOutput(Cap(s, cur), Cap(s, cur).(go := Struct));
          s := Cap(s, cur).(go := Struct);
          target := Jump(Struct, js[cur]);
        }
        if target.BAD? {
          BadStays(first, s', js, cur + 1);
          SameOutput(s, s');
          return 1, out;
        }
        go, depth, remain, prev, out := Go(target, cur, go, depth, remain, prev, out, s);
        s := s';
        cur := cur + 1;
      }
      assert js[..cur] == js;
      r := depth;
    }
  }

  // What is done at the label
  method Go(target: Label, cur: nat, go: Mode, depth: int, remain: int, prev: nat, out: seq<nat>, ghost s: State)
    returns (go': Mode, depth': int, remain': int, prev': nat, out': seq<nat>)
    requires go == s.go && remain == s.remain && Follows(s, depth, prev, out) && Sound(s, cur) && !s.bad
    requires Possible(go, target) && !target.BAD? && !target.UNBARE?
    ensures var t := Act(s, target, cur);
      go' == t.go && remain' == t.remain && Follows(t, depth', prev', out') && !t.bad
  {
    hide Ordered;
    go', depth', remain', prev', out' := go, depth, remain, prev, out;
    match target
    case UP =>
      prev', out' := PushAt(depth, cur, prev, out, s);
      depth' := depth + 1;
    case DOWN =>
      depth' := depth - 1;
      prev', out' := CapAt(depth', cur + 1, prev, out, s.(depth := depth'));
    case QUP =>
      prev', out' := PushAt(depth, cur + 1, prev, out, s);
      go' := String;
    case QDOWN =>
      prev', out' := CapAt(depth, cur, prev, out, s);
      go' := Struct;
    case BARE =>
      prev', out' := PushAt(depth, cur, prev, out, s);
      go' := Bare;
    case ESC => go' := Esc;
    case UNESC => go' := String;
    case UTF2 => go', remain' := Utf8, 1;
    case UTF3 => go', remain' := Utf8, 2;
    case UTF4 => go', remain' := Utf8, 3;
    case CONT =>
      remain' := remain - 1;
      if remain' == 0 {
        go' := String;
      }
    case _ =>
  }

  lemma {:induction false} BadStays(go: Mode, s: State, js: seq<Byte>, n: nat)
    requires n <= |js| && s == Run(Start(go), js[..n], 0) && s.bad
    ensures Run(Start(go), js, 0) == s
    decreases |js| - n
  {
    if n == |js| {
      assert js[..n] == js;
    } else {
      assert js[..n + 1][..n] == js[..n];
      BadStays(go, s, js, n + 1);
    }
  }

  // When the scan ends at depth 0, every offset written has its length
  lemma NoneOpen(go: Mode, text: seq<Byte>)
    requires var s := Run(Start(go), text, 0); !s.bad && s.depth == 0
    ensures var s := Run(Start(go), text, 0); s.open.Closed? && Emitted(s) == Written(s.tokens)
  {
    RunSound(go, text);
    hide Run, Ordered;
  }

  // On less than 2^16 bytes nothing wraps around
  lemma Unwrapped(s: State, n: nat, i: nat)
    requires Sound(s, n) && n < WRAP && i < |s.tokens|
    ensures Emitted(s)[2 * i] == s.tokens[i].at && Emitted(s)[2 * i + 1] == s.tokens[i].len
  {
    WrittenAt(s.tokens, i);
  }

  // Nor can two lists of places be written the same way
  lemma {:induction false} WrittenOnce(a: seq<Token>, b: seq<Token>)
    requires Written(a) == Written(b)
    requires forall i | 0 <= i < |a| :: a[i].at < WRAP && a[i].len < WRAP
    requires forall i | 0 <= i < |b| :: b[i].at < WRAP && b[i].len < WRAP
    ensures a == b
  {
    assert |a| == |b|;
    forall i | 0 <= i < |a|
      ensures a[i] == b[i]
    {
      WrittenAt(a, i);
      WrittenAt(b, i);
    }
  }

  lemma {:induction false} WrittenAt(tokens: seq<Token>, i: nat)
    requires i < |tokens|
    ensures Written(tokens)[2 * i] == tokens[i].at % WRAP && Written(tokens)[2 * i + 1] == tokens[i].len % WRAP
  {
    if i < |tokens| - 1 {
      WrittenAt(tokens[..|tokens| - 1], i);
    }
  }
}
