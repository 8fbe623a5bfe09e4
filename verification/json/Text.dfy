/** What `js0n` (`httpd/json.c`) reports on well-formed JSON: exactly the parts of the outermost array
    or object.
 */
module JText {
  import opened JGrammar
  import opened JScan

  // Where the item is that starts at `at`: of a string, without the quotes
  function Place(j: Json, at: nat): Token {
    if j.Str? then Token(at + 1, |j.body|) else Token(at, |Text(j)|)
  }

  function Places(items: Items, at: nat): seq<Token> {
    match items
    case End(_) => []
    case More(gap, value, rest) =>
      [Place(value, at + |gap|)] + Places(rest, at + |gap| + |Text(value)|)
  }

  // ---------------------------------------------------------------- scanning

  // The counter of the last character does not matter
  predicate Same(s: State, t: State) {
    t == s.(remain := t.remain)
  }

  // Between items, inside an array or object
  predicate Between(s: State) {
    s.go == Struct && !s.bad && s.depth >= 1 && (s.depth == 1 ==> s.open.Closed?)
  }

  function Report(s: State, tokens: seq<Token>): State {
    if s.depth == 1 then s.(tokens := s.tokens + tokens) else s
  }

  lemma RunFirst(s: State, c: Byte, rest: seq<Byte>, at: nat)
    ensures Run(s, [c] + rest, at) == Run(Step(s, c, at), rest, at + 1)
  {
    hide Step;
    RunAppend(s, [c], rest, at);
    assert [c][..0] == [];
  }

  lemma {:induction false} ScanGap(s: State, gap: seq<Byte>, at: nat)
    requires s.go == Struct && !s.bad && Separators(gap)
    ensures Run(s, gap, at) == s
  {
    if gap != [] {
      ScanGap(s, gap[..|gap| - 1], at);
    }
  }

  lemma RunTwo(s: State, a: Byte, b: Byte, at: nat)
    ensures Run(s, [a, b], at) == Step(Step(s, a, at), b, at + 1)
  {
    hide Step;
    assert [a, b] == [a] + [b];
    RunFirst(s, a, [b], at);
    OneByte(Step(s, a, at), b, at + 1);
  }

  // The bytes of a character that follow the first
  lemma {:induction false} ScanMore(s: State, c: seq<Byte>, at: nat)
    requires s.go == Utf8 && !s.bad && s.remain == |c| > 0 && forall i | 0 <= i < |c| :: 128 <= c[i] <= 191
    ensures Same(s.(go := String), Run(s, c, at))
    decreases |c|
  {
    hide Run;
    assert c == [c[0]] + c[1..];
    RunFirst(s, c[0], c[1..], at);
    if |c| > 1 {
      ScanMore(Step(s, c[0], at), c[1..], at + 1);
    } else {
      assert c == [c[0]];
      OneByte(s, c[0], at);
    }
  }

  // One character of a string
  lemma ScanChar(s: State, c: seq<Byte>, at: nat)
    requires s.go == String && !s.bad && c != [] && CharLength(c) == |c| && c[0] != 127
    ensures Same(s, Run(s, c, at)) && 127 !in c
  {
    assert c == [c[0]] + c[1..];
    if c[0] == 92 {
      RunTwo(s, c[0], c[1], at);
      assert c == [c[0], c[1]];
    } else if |c| == 1 {
      OneByte(s, c[0], at);
    } else {
      RunFirst(s, c[0], c[1..], at);
      ScanMore(Step(s, c[0], at), c[1..], at + 1);
      hide Run;
    }
  }

  lemma {:induction false} ScanBody(s: State, body: seq<Byte>, at: nat)
    requires s.go == String && !s.bad && StringBody(body)
    ensures if 127 in body then Run(s, body, at).bad else Same(s, Run(s, body, at))
    decreases |body|
  {
    hide Step;
    if body != [] {
      if body[0] == 127 {
        Rejected(s, body, at);
      } else {
        var n := CharLength(body);
        assert body == body[..n] + body[n..] && CharLength(body[..n]) == n;
        ScanChar(s, body[..n], at);
        RunAppend(s, body[..n], body[n..], at);
        ScanBody(Run(s, body[..n], at), body[n..], at + n);
      }
    }
  }

  // The table of strings has no place for DEL, and an error is one for good
  lemma Rejected(s: State, body: seq<Byte>, at: nat)
    requires s.go == String && !s.bad && body != [] && body[0] == 127
    ensures Run(s, body, at).bad
  {
    hide Run;
    assert body == [body[0]] + body[1..];
    RunFirst(s, body[0], body[1..], at);
    StaysBad(Step(s, body[0], at), body[1..], at + 1);
  }

  lemma {:induction false} StaysBad(s: State, text: seq<Byte>, at: nat)
    requires s.bad
    ensures Run(s, text, at).bad
  {
    if text != [] {
      StaysBad(s, text[..|text| - 1], at);
    }
  }

  // An error in a part is one in the whole
  lemma BadPart(s: State, a: seq<Byte>, b: seq<Byte>, at: nat)
    requires Run(s, a, at).bad
    ensures Run(s, a + b, at).bad
  {
    hide Run;
    RunAppend(s, a, b, at);
    StaysBad(Run(s, a, at), b, at + |a|);
  }

  lemma QuoteOff(s: State, r: State, at: nat, n: nat)
    requires Between(s) && Same(Push(s, at + 1).(go := String), r)
    ensures Same(Report(s, [Token(at + 1, n)]), Step(r, 34, at + 1 + n))
  {
  }

  lemma ScanString(s: State, body: seq<Byte>, at: nat)
    requires Between(s) && StringBody(body) && 127 !in body
    ensures Same(Report(s, [Place(Str(body), at)]), Run(s, Text(Str(body)), at))
  {
    hide Run;
    var t := Push(s, at + 1).(go := String);
    assert Step(s, 34, at) == t;
    assert Text(Str(body)) == [34] + (body + [34]);
    RunFirst(s, 34, body + [34], at);
    RunAppend(t, body, [34], at + 1);
    ScanBody(t, body, at + 1);
    var r := Run(t, body, at + 1);
    OneByte(r, 34, at + 1 + |body|);
    QuoteOff(s, r, at, |body|);
    hide Step, Push;
  }

  lemma OneByte(s: State, c: Byte, at: nat)
    ensures Run(s, [c], at) == Step(s, c, at)
  {
    hide Step;
    assert [c][..0] == [];
  }

  lemma {:induction false} ScanWord(s: State, text: seq<Byte>, at: nat)
    requires Between(s) && WellFormed(Word(text))
    ensures Run(s, text, at) == Push(s, at).(go := Bare)
  {
    var n := |text| - 1;
    if n > 0 {
      ScanWord(s, text[..n], at);
    } else {
      assert text[..n] == [];
    }
  }

  // A word ends where the next byte cannot belong to it
  lemma Settle(s: State, rest: seq<Byte>, at: nat)
    requires s.go == Bare && !s.bad && rest != [] && Jump(Bare, rest[0]).UNBARE?
    ensures Run(s, rest, at) == Run(Cap(s, at).(go := Struct), rest, at)
  {
    assert rest == [rest[0]] + rest[1..];
    RunFirst(s, rest[0], rest[1..], at);
    RunFirst(Cap(s, at).(go := Struct), rest[0], rest[1..], at);
    JumpPossible(Bare, rest[0]);
    hide Run;
  }

  // What the end of an array or object does
  function Leave(s: State, at: nat): State {
    Act(s, DOWN, at)
  }

  lemma Ends(s: State, right: Byte, at: nat)
    requires right in {93, 125} && s.go == Struct && !s.bad
    ensures Run(s, [right], at) == Leave(s, at)
  {
    OneByte(s, right, at);
  }

  lemma ScanValue(j: Json, s: State, at: nat)
    requires WellFormed(j) && NoDel(j) && Between(s) && !j.Word?
    ensures Same(Report(s, [Place(j, at)]), Run(s, Text(j), at))
    decreases j, 0
  {
    hide Run, Leave, Report, Same, Between, StringBody, WellFormedItems, NoDelItems, Places, TextAll;
    match j
    case Str(body) => ScanString(s, body, at);
    case Node(left, items, right) =>
      BetweenOpen(s);
      ScanNode(left, items, right, s, at);
      InnerReport(s, at, |TextAll(items)|, Places(items, at + 1));
  }

  lemma BetweenOpen(s: State)
    requires Between(s)
    ensures s.go == Struct && !s.bad && s.depth >= 0 && (s.depth <= 1 ==> s.open.Closed?)
  {
  }

  // From the bracket on: the items are reported only inside the outermost one
  lemma ScanNode(left: Byte, items: Items, right: Byte, s: State, at: nat)
    requires WellFormed(Node(left, items, right)) && NoDelItems(items) && s.go == Struct && !s.bad && s.depth >= 0
    requires s.depth <= 1 ==> s.open.Closed?
    ensures var t := Push(s, at).(depth := s.depth + 1);
      Same(Leave(Report(t, Places(items, at + 1)), at + 1 + |TextAll(items)|),
        Run(s, Text(Node(left, items, right)), at))
    decreases items, 1
  {
    hide Run, Step, Leave, Push, Report, Same, Places, Between, Text, TextAll, WellFormedItems, NoDelItems;
    var t := Push(s, at).(depth := s.depth + 1);
    Enter(s, left, at);
    TextNode(left, items, right);
    RunFirst(s, left, TextAll(items) + [right], at);
    ScanItems(items, right, t, at + 1);
  }

  lemma Enter(s: State, left: Byte, at: nat)
    requires left in {91, 123} && s.go == Struct && !s.bad && s.depth >= 0 && (s.depth <= 1 ==> s.open.Closed?)
    ensures var t := Push(s, at).(depth := s.depth + 1); Step(s, left, at) == t && Between(t)
  {
  }

  lemma TextNode(left: Byte, items: Items, right: Byte)
    ensures Text(Node(left, items, right)) == [left] + (TextAll(items) + [right])
  {
    hide TextAll;
  }

  lemma InnerReport(s: State, at: nat, n: nat, places: seq<Token>)
    requires Between(s)
    ensures Leave(Report(Push(s, at).(depth := s.depth + 1), places), at + 1 + n) == Report(s, [Token(at, n + 2)])
  {
  }

  // The items of an array or object, and its end
  lemma ScanItems(items: Items, right: Byte, s: State, at: nat)
    requires WellFormedItems(items) && NoDelItems(items) && right in {93, 125} && Between(s)
    ensures Same(Leave(Report(s, Places(items, at)), at + |TextAll(items)|), Run(s, TextAll(items) + [right], at))
    decreases items, 0
  {
    hide Run, Step, Leave;
    match items
    case End(gap) =>
      ScanGap(s, gap, at);
      RunAppend(s, gap, [right], at);
      Ends(s, right, at + |gap|);
      assert Report(s, []) == s;
    case More(gap, value, rest) =>
      var tail := TextAll(rest) + [right];
      var at1 := at + |gap|;
      var at2 := at1 + |Text(value)|;
      assert TextAll(items) + [right] == gap + (Text(value) + tail);
      ScanGap(s, gap, at);
      RunAppend(s, gap, Text(value) + tail, at);
      RunAppend(s, Text(value), tail, at1);
      var r := ScanItem(value, s, at1, tail);
      ScanItems(rest, right, r, at2);
      Chain(s, r, Place(value, at1), Places(rest, at2), at2 + |TextAll(rest)|);
  }

  // One item, as far as it is done with before the rest
  lemma ScanItem(value: Json, s: State, at: nat, tail: seq<Byte>) returns (r: State)
    requires WellFormed(value) && NoDel(value) && Between(s)
    requires tail != [] && (value.Word? ==> Jump(Bare, tail[0]).UNBARE?)
    ensures Same(Report(s, [Place(value, at)]), r) && Between(r)
    ensures Run(Run(s, Text(value), at), tail, at + |Text(value)|) == Run(r, tail, at + |Text(value)|)
    decreases value, 1
  {
    hide Run, Step, Leave;
    if value.Word? {
      ScanWord(s, value.text, at);
      r := Cap(Push(s, at).(go := Bare), at + |value.text|).(go := Struct);
      Settle(Push(s, at).(go := Bare), tail, at + |value.text|);
    } else {
      ScanValue(value, s, at);
      r := Run(s, Text(value), at);
    }
  }

  lemma Chain(s: State, r: State, p: Token, places: seq<Token>, at: nat)
    requires Same(Report(s, [p]), r)
    ensures Same(Leave(Report(s, [p] + places), at), Leave(Report(r, places), at))
  {
    assert s.tokens + ([p] + places) == s.tokens + [p] + places;
  }

  // ---------------------------------------------------------------- DEL in a string

  lemma DelString(s: State, body: seq<Byte>, at: nat)
    requires Between(s) && StringBody(body) && 127 in body
    ensures Run(s, Text(Str(body)), at).bad
  {
    hide Run, Step, StringBody;
    assert Text(Str(body)) == [34] + (body + [34]);
    RunFirst(s, 34, body + [34], at);
    QuoteOn(s, at);
    ScanBody(Step(s, 34, at), body, at + 1);
    BadPart(Step(s, 34, at), body, [34], at + 1);
  }

  lemma QuoteOn(s: State, at: nat)
    requires Between(s)
    ensures Step(s, 34, at).go == String && !Step(s, 34, at).bad
  {
  }

  lemma DelValue(j: Json, s: State, at: nat)
    requires WellFormed(j) && !NoDel(j) && Between(s)
    ensures Run(s, Text(j), at).bad
    decreases j, 0
  {
    hide Run, StringBody;
    match j
    case Str(body) => DelString(s, body, at);
    case Node(left, items, right) => DelNode(left, items, right, s, at);
  }

  lemma DelNode(left: Byte, items: Items, right: Byte, s: State, at: nat)
    requires WellFormed(Node(left, items, right)) && !NoDelItems(items) && s.go == Struct && !s.bad && s.depth >= 0
    requires s.depth <= 1 ==> s.open.Closed?
    ensures Run(s, Text(Node(left, items, right)), at).bad
    decreases items, 1
  {
    hide Run, Step, Push, Between, Text, TextAll, WellFormedItems, NoDelItems;
    Enter(s, left, at);
    TextNode(left, items, right);
    RunFirst(s, left, TextAll(items) + [right], at);
    DelItems(items, right, Step(s, left, at), at + 1);
  }

  lemma DelItems(items: Items, right: Byte, s: State, at: nat)
    requires WellFormedItems(items) && !NoDelItems(items) && right in {93, 125} && Between(s)
    ensures Run(s, TextAll(items) + [right], at).bad
    decreases items, 0
  {
    hide Run, Step, Between;
    var More(gap, value, rest) := items;
    var tail := TextAll(rest) + [right];
    var at1 := at + |gap|;
    assert TextAll(items) + [right] == gap + (Text(value) + tail);
    BetweenOpen(s);
    ScanGap(s, gap, at);
    RunAppend(s, gap, Text(value) + tail, at);
    if NoDel(value) {
      RunAppend(s, Text(value), tail, at1);
      var r := ScanItem(value, s, at1, tail);
      DelItems(rest, right, r, at1 + |Text(value)|);
    } else {
      DelValue(value, s, at1);
      BadPart(s, Text(value), tail, at1);
    }
  }

  // ---------------------------------------------------------------- the result

  // What the scanner should end with: no error, nothing open, exactly these places, and ready for
  // the next call
  predicate Right(r: State, places: seq<Token>) {
    !r.bad && r.depth == 0 && r.go == Struct && r.open.Closed? && r.tokens == places
  }

  // A call starts afresh, or gets there before the text proper: a word left unfinished by the call
  // before ends at the first white space or comma
  predicate Ready(go: Mode, lead: seq<Byte>) {
    go == Struct || (go == Bare && exists i | 0 <= i < |lead| :: EndsWord(lead[i]))
  }

  // On well-formed JSON the scanner succeeds and reports exactly the items of the outermost array
  // or object, whatever stands around it, if and only if the mode left by the call before allows it
  // and no string holds DEL
  lemma ScanText(go: Mode, lead: seq<Byte>, j: Json, trail: seq<Byte>)
    requires j.Node? && WellFormed(j) && Separators(lead) && Separators(trail)
    ensures Right(Run(Start(go), lead + Text(j) + trail, 0), Places(j.items, |lead| + 1))
      <==> Ready(go, lead) && NoDel(j)
  {
    hide Run, Separators, WellFormed, Right, Places, Text, NoDel;
    ScanLead(go, lead);
    if !Ready(go, lead) {
      ScanNotReady(go, lead, j, trail);
    } else if NoDel(j) {
      ScanReady(go, lead, j, trail);
    } else {
      ScanDel(go, lead, j, trail);
      NotBad(Run(Start(go), lead + Text(j) + trail, 0), Places(j.items, |lead| + 1));
    }
  }

  lemma NotBad(r: State, places: seq<Token>)
    requires r.bad
    ensures !Right(r, places) && Result(r) == 1
  {
  }

  lemma ScanDel(go: Mode, lead: seq<Byte>, j: Json, trail: seq<Byte>)
    requires j.Node? && WellFormed(j) && !NoDel(j) && Run(Start(go), lead, 0) == Start(Struct)
    ensures Run(Start(go), lead + Text(j) + trail, 0).bad
  {
    hide Run, Step, Text, TextAll, WellFormedItems, NoDelItems;
    DelNode(j.left, j.items, j.right, Start(Struct), |lead|);
    RunAppend(Start(go), lead, Text(j), 0);
    BadPart(Start(go), lead + Text(j), trail, 0);
  }

  lemma ScanReady(go: Mode, lead: seq<Byte>, j: Json, trail: seq<Byte>)
    requires j.Node? && WellFormed(j) && NoDel(j) && Separators(lead) && Separators(trail)
    requires Run(Start(go), lead, 0) == Start(Struct)
    ensures Right(Run(Start(go), lead + Text(j) + trail, 0), Places(j.items, |lead| + 1))
  {
    hide Run, Step, Text, TextAll, Places, WellFormedItems, Same, Leave, Report, Push, NoDelItems;
    var at, s := |lead|, Start(Struct);
    ScanNode(j.left, j.items, j.right, s, at);
    var r := Run(s, Text(j), at);
    OuterReport(at, at + 1 + |TextAll(j.items)|, Places(j.items, at + 1), r);
    ScanGap(r, trail, at + |Text(j)|);
    ThreeRuns(Start(go), lead, Text(j), trail);
  }

  lemma OuterReport(at: nat, end: nat, places: seq<Token>, r: State)
    requires Same(Leave(Report(Push(Start(Struct), at).(depth := 1), places), end), r)
    ensures Right(r, places)
  {
    assert [] + places == places;
  }

  // ---------------------------------------------------------------- a call that is not ready

  lemma LeadStep(s: State, c: Byte, at: nat)
    requires Separator(c) && Idle(s) && (s.go == Bare ==> !s.bad)
    ensures s.bad || s.go == Struct ==> Step(s, c, at) == s
    ensures s.go == Bare ==> Step(s, c, at) == if EndsWord(c) then s.(go := Struct) else s
    ensures s.go in {String, Utf8, Esc} ==> Step(s, c, at) in {s, s.(bad := true)}
  {
  }

  lemma {:induction false} ScanLead(go: Mode, lead: seq<Byte>)
    requires Separators(lead)
    ensures var s := Run(Start(go), lead, 0);
      if Ready(go, lead) then s == Start(Struct) else s == Start(go) || (go != Bare && s == Start(go).(bad := true))
  {
    if lead != [] {
      var n := |lead| - 1;
      ScanLead(go, lead[..n]);
      LeadStep(Run(Start(go), lead[..n], 0), lead[n], n);
      assert Ready(go, lead) <==> Ready(go, lead[..n]) || (go == Bare && EndsWord(lead[n]));
    }
  }

  // Nothing is open, and nothing has been reported
  predicate Idle(s: State) {
    s.depth == 0 && s.tokens == [] && s.open.Closed?
  }

  // The mode in which brackets go unnoticed
  predicate Astray(s: State) {
    s.bad || s.go != Struct
  }

  lemma AstrayBracket(s: State, left: Byte, at: nat)
    requires left in {91, 123} && Idle(s) && Astray(s)
    ensures Idle(Step(s, left, at)) && Astray(Step(s, left, at))
    ensures var t := Step(s, left, at); t.bad || t.go == s.go == String || t.go == s.go == Bare
  {
  }

  lemma {:induction false} IdleGap(s: State, gap: seq<Byte>, at: nat)
    requires Idle(s) && Separators(gap)
    ensures var r := Run(s, gap, at);
      && Idle(r) && (s.bad ==> r.bad) && (s.go == String ==> r.go == String)
      && (s.go == Bare ==> r.bad || r.go in {Bare, Struct})
  {
    if gap != [] {
      IdleGap(s, gap[..|gap| - 1], at);
    }
  }

  // What is reported from a position on starts behind it
  predicate Behind(s: State, at: nat, here: nat) {
    && (forall i | 0 <= i < |s.tokens| :: s.tokens[i].at > at)
    && (s.open.Opened? ==> s.open.at > at)
    && (here == at ==> s.depth <= 0)
  }

  lemma BehindStep(s: State, c: Byte, at: nat, here: nat)
    requires Behind(s, at, here) && at <= here
    ensures Behind(Step(s, c, here), at, here + 1)
  {
    JumpPossible(s.go, c);
    hide Jump;
  }

  lemma BehindIdle(s: State, at: nat)
    requires Idle(s)
    ensures Behind(s, at, at)
  {
  }

  lemma {:induction false} RunBehind(s: State, text: seq<Byte>, at: nat)
    requires Idle(s)
    ensures Behind(Run(s, text, at), at, at + |text|)
  {
    hide Step, Behind;
    if text == [] {
      BehindIdle(s, at);
    } else {
      RunBehind(s, text[..|text| - 1], at);
      BehindStep(Run(s, text[..|text| - 1], at), text[|text| - 1], at, at + |text| - 1);
    }
  }

  lemma ScanNotReady(go: Mode, lead: seq<Byte>, j: Json, trail: seq<Byte>)
    requires j.Node? && WellFormed(j) && Separators(lead) && Separators(trail) && go != Struct
    requires var s := Run(Start(go), lead, 0); s == Start(go) || s == Start(go).(bad := true)
    ensures !Right(Run(Start(go), lead + Text(j) + trail, 0), Places(j.items, |lead| + 1))
  {
    hide Run, Step, Text, TextAll, Separators, WellFormed, WellFormedItems, Astray, Places, Right, Jump;
    var s, at := Run(Start(go), lead, 0), |lead|;
    NodeParts(j);
    StartAstray(s, go);
    AstrayBracket(s, j.left, at);
    var t, gap := Step(s, j.left, at), j.items.gap;
    IdleGap(t, gap, at + 1);
    var u, at' := Run(t, gap, at + 1), at + 1 + |gap|;
    var rest := AfterGap(j) + trail;
    Front(go, lead, j, trail);
    match j.items {
      case More(_, _, _) =>
        FirstPlace(u, j, trail, at');
      case End(_) =>
        NoItems(u, j.right, trail, at');
    }
    NotRight(Run(u, rest, at'), j.items, at + 1);
  }

  lemma NodeParts(j: Json)
    requires j.Node? && WellFormed(j)
    ensures j.left in {91, 123} && j.right in {93, 125} && Separators(j.items.gap)
  {
  }

  lemma StartAstray(s: State, go: Mode)
    requires go != Struct && (s == Start(go) || s == Start(go).(bad := true))
    ensures Idle(s) && Astray(s)
  {
  }

  lemma NotRight(r: State, items: Items, at: nat)
    requires if items.More? then
        forall i | 0 <= i < |r.tokens| :: r.tokens[i].at > Place(items.value, at + |items.gap|).at
      else r.bad || r.go == String || r.depth == -1
    ensures !Right(r, Places(items, at))
  {
    if items.More? {
      assert Places(items, at)[0] == Place(items.value, at + |items.gap|);
    }
  }

  // What follows the bracket and the first gap
  function AfterGap(j: Json): seq<Byte>
    requires j.Node?
  {
    if j.items.End? then [j.right] else Text(j.items.value) + (TextAll(j.items.rest) + [j.right])
  }

  lemma Front(go: Mode, lead: seq<Byte>, j: Json, trail: seq<Byte>)
    requires j.Node?
    ensures var t := Step(Run(Start(go), lead, 0), j.left, |lead|);
      var u := Run(t, j.items.gap, |lead| + 1);
      Run(Start(go), lead + Text(j) + trail, 0) == Run(u, AfterGap(j) + trail, |lead| + 1 + |j.items.gap|)
  {
    hide Run, Step, Text;
    TextNode(j.left, j.items, j.right);
    var gap, rest := j.items.gap, AfterGap(j) + trail;
    assert TextAll(j.items) + [j.right] == gap + AfterGap(j);
    assert lead + Text(j) + trail == lead + ([j.left] + (gap + rest));
    RunAppend(Start(go), lead, [j.left] + (gap + rest), 0);
    RunFirst(Run(Start(go), lead, 0), j.left, gap + rest, |lead|);
    RunAppend(Step(Run(Start(go), lead, 0), j.left, |lead|), gap, rest, |lead| + 1);
  }

  // The first place is never reported
  lemma FirstPlace(u: State, j: Json, trail: seq<Byte>, at: nat)
    requires Idle(u) && j.Node? && j.items.More?
    ensures var r := Run(u, AfterGap(j) + trail, at);
      forall i | 0 <= i < |r.tokens| :: r.tokens[i].at > Place(j.items.value, at).at
  {
    hide Run, Step, TextAll, Idle, Jump;
    var v, rest := j.items.value, AfterGap(j) + trail;
    if v.Str? {
      assert Text(v)[0] == 34 && rest[0] == 34;
      assert rest == [rest[0]] + rest[1..];
      RunFirst(u, 34, rest[1..], at);
      QuoteIdle(u, at);
      RunBehind(Step(u, 34, at), rest[1..], at + 1);
    } else {
      RunBehind(u, rest, at);
    }
  }

  lemma QuoteIdle(s: State, at: nat)
    requires Idle(s)
    ensures Idle(Step(s, 34, at))
  {
  }

  lemma {:induction false} TrailKeeps(s: State, trail: seq<Byte>, at: nat)
    requires Separators(trail)
    requires s.bad || s.go == String || (s.go == Struct && s.depth == -1)
    ensures var r := Run(s, trail, at); r.bad || r.go == String || r.depth == -1
  {
    if s.go == Struct && !s.bad {
      ScanGap(s, trail, at);
    } else if trail != [] {
      TrailKeeps(s, trail[..|trail| - 1], at);
    }
  }

  lemma NoItems(u: State, right: Byte, trail: seq<Byte>, at: nat)
    requires Idle(u) && right in {93, 125} && Separators(trail)
    requires u.bad || u.go in {String, Bare, Struct}
    ensures var r := Run(u, [right] + trail, at); r.bad || r.go == String || r.depth == -1
  {
    RunFirst(u, right, trail, at);
    TrailKeeps(Step(u, right, at), trail, at + 1);
    hide Run;
  }

  lemma ThreeRuns(s: State, a: seq<Byte>, b: seq<Byte>, c: seq<Byte>)
    ensures Run(s, a + b + c, 0) == Run(Run(Run(s, a, 0), b, |a|), c, |a| + |b|)
  {
    hide Run;
    RunAppend(s, a + b, c, 0);
    RunAppend(s, a, b, 0);
  }

  // What is cut out at a place: an item of the text, a string without its quotes
  function Cut(text: seq<Byte>, t: Token): seq<Byte>
    requires t.at + t.len <= |text|
  {
    text[t.at..t.at + t.len]
  }

  function Values(items: Items): seq<Json> {
    match items
    case End(_) => []
    case More(_, value, rest) => [value] + Values(rest)
  }

  predicate Shows(text: seq<Byte>, t: Token, v: Json) {
    t.at + t.len <= |text| && Cut(text, t) == if v.Str? then v.body else Text(v)
  }

  // Each place shows its item
  lemma {:induction false} PlacesShow(items: Items, before: seq<Byte>, after: seq<Byte>, i: nat)
    requires i < |Values(items)|
    ensures |Places(items, |before|)| == |Values(items)|
    ensures Shows(before + TextAll(items) + after, Places(items, |before|)[i], Values(items)[i])
  {
    var More(gap, value, rest) := items;
    CutFirst(before, gap, value, TextAll(rest), after);
    CountPlaces(items, |before|);
    var before' := before + gap + Text(value);
    assert |before'| == |before| + |gap| + |Text(value)|;
    PlacesNext(items, |before|, i);
    assert TextAll(items) == gap + Text(value) + TextAll(rest);
    hide Text, TextAll, Shows, Place, Places, Values;
    if i > 0 {
      PlacesShow(rest, before', after, i - 1);
    }
  }

  lemma PlacesNext(items: Items, at: nat, i: nat)
    requires i < |Values(items)| == |Places(items, at)|
    ensures items.More?
    ensures var at' := at + |items.gap| + |Text(items.value)|;
      && |Places(items.rest, at')| == |Values(items.rest)| == |Values(items)| - 1
      && Values(items)[i] == (if i == 0 then items.value else Values(items.rest)[i - 1])
      && Places(items, at)[i] == if i == 0 then Place(items.value, at + |items.gap|) else Places(items.rest, at')[i - 1]
  {
    hide Text, Place;
  }

  lemma {:induction false} CountPlaces(items: Items, at: nat)
    ensures |Places(items, at)| == |Values(items)|
  {
    if items.More? {
      CountPlaces(items.rest, at + |items.gap| + |Text(items.value)|);
    }
  }

  lemma CutFirst(before: seq<Byte>, gap: seq<Byte>, v: Json, rest: seq<Byte>, after: seq<Byte>)
    ensures Shows(before + (gap + Text(v) + rest) + after, Place(v, |before| + |gap|), v)
    ensures before + (gap + Text(v) + rest) + after == (before + gap + Text(v)) + rest + after
  {
    Regroup(before, gap, Text(v), rest, after);
    if v.Str? {
      Regroup(before + gap, [34], v.body, [34], rest + after);
      Middle(before + gap + [34], v.body, [34] + (rest + after));
    } else {
      Middle(before + gap, Text(v), rest + after);
    }
    hide TextAll;
  }

  lemma Regroup(a: seq<Byte>, b: seq<Byte>, c: seq<Byte>, d: seq<Byte>, e: seq<Byte>)
    ensures a + (b + c + d) + e == (a + b + c) + d + e
    ensures a + (b + c + d) + e == (a + b) + c + (d + e)
    ensures a + (b + c + d) + e == a + b + c + (d + e)
    ensures a + (b + c + d) + e == (a + b) + (c + (d + e))
    ensures a + (b + c + d + e) == a + (b + c + d) + e
  {
  }

  lemma Middle(a: seq<Byte>, m: seq<Byte>, b: seq<Byte>)
    ensures (a + m + b)[|a|..|a| + |m|] == m
  {
  }

  // On well-formed JSON below 2^16 bytes, the result is 0, what is written is the offset and the length
  // of each item, and the next call starts afresh, exactly when this call was ready and no string
  // holds DEL
  lemma Reports(go: Mode, lead: seq<Byte>, j: Json, trail: seq<Byte>)
    requires j.Node? && WellFormed(j) && Separators(lead) && Separators(trail)
    requires |lead + Text(j) + trail| < WRAP
    ensures var s := Run(Start(go), lead + Text(j) + trail, 0);
      (Result(s) == 0 && Emitted(s) == Written(Places(j.items, |lead| + 1)) && s.go == Struct)
        <==> (Ready(go, lead) && NoDel(j))
  {
    hide Run, Text, WellFormed, Separators, Emitted, Places, Ready, Written, NoDel;
    var text, places := lead + Text(j) + trail, Places(j.items, |lead| + 1);
    var s := Run(Start(go), text, 0);
    ScanText(go, lead, j, trail);
    RunSound(go, text);
    PlacesInside(lead, j, trail);
    if Result(s) == 0 {
      NoneOpen(go, text);
      if Emitted(s) == Written(places) {
        WrittenOnce(s.tokens, places);
      }
    }
  }

  // So for the texts of RFC 8259 whose value is an array or an object: the first call is right unless
  // a string holds DEL
  lemma ReportsJson(lead: seq<Byte>, j: Json, trail: seq<Byte>)
    requires j.Node? && JsonValue(j) && Whites(lead) && Whites(trail) && |lead + Text(j) + trail| < WRAP
    ensures var s := Run(Start(Struct), lead + Text(j) + trail, 0);
      (Result(s) == 0 && Emitted(s) == Written(Places(j.items, |lead| + 1)) && s.go == Struct) <==> NoDel(j)
  {
    hide Run, Text, JsonValue, Emitted, Places, Written, NoDel, Separators, Whites;
    JsonIsWellFormed(j);
    WhiteGap(lead);
    WhiteGap(trail);
    Reports(Struct, lead, j, trail);
  }

  lemma PlacesInside(lead: seq<Byte>, j: Json, trail: seq<Byte>)
    requires j.Node?
    ensures var ps := Places(j.items, |lead| + 1);
      forall i | 0 <= i < |ps| :: ps[i].at + ps[i].len <= |lead + Text(j) + trail|
  {
    hide Text, Places, Values;
    var ps := Places(j.items, |lead| + 1);
    CountPlaces(j.items, |lead| + 1);
    forall i | 0 <= i < |ps|
      ensures ps[i].at + ps[i].len <= |lead + Text(j) + trail|
    {
      PlacesShowIn(lead, j, trail, i);
    }
  }

  // What a ready call writes shows the items one after the other
  lemma ReportsItem(go: Mode, lead: seq<Byte>, j: Json, trail: seq<Byte>, i: nat)
    requires j.Node? && WellFormed(j) && Separators(lead) && Separators(trail) && i < |Values(j.items)|
    requires |lead + Text(j) + trail| < WRAP && Ready(go, lead) && NoDel(j)
    ensures var text := lead + Text(j) + trail;
      var out := Emitted(Run(Start(go), text, 0));
      |out| == 2 * |Values(j.items)| && Shows(text, Token(out[2 * i], out[2 * i + 1]), Values(j.items)[i])
  {
    hide Run, Text, WellFormed, Separators, Shows, Emitted, Places, Values, Ready, Written, NoDel;
    Reports(go, lead, j, trail);
    PlacesShowIn(lead, j, trail, i);
    PlacesInside(lead, j, trail);
    WrittenAt(Places(j.items, |lead| + 1), i);
  }

  lemma PlacesShowIn(lead: seq<Byte>, j: Json, trail: seq<Byte>, i: nat)
    requires j.Node? && i < |Values(j.items)|
    ensures |Places(j.items, |lead| + 1)| == |Values(j.items)|
    ensures Shows(lead + Text(j) + trail, Places(j.items, |lead| + 1)[i], Values(j.items)[i])
  {
    TextNode(j.left, j.items, j.right);
    PlacesShow(j.items, lead + [j.left], [j.right] + trail, i);
    hide Text, TextAll, Shows, Places, Values;
    Regroup(lead, [j.left], TextAll(j.items), [j.right], trail);
    assert lead + Text(j) + trail == lead + [j.left] + TextAll(j.items) + ([j.right] + trail);
  }

  // ---------------------------------------------------------------- one call after the other

  // The mode after calls with these texts
  function After(go: Mode, texts: seq<seq<Byte>>): Mode {
    if texts == [] then go else Run(Start(After(go, texts[..|texts| - 1])), texts[|texts| - 1], 0).go
  }

  function Answer(go: Mode, text: seq<Byte>): (int, seq<nat>) {
    var s := Run(Start(go), text, 0);
    (Result(s), Emitted(s))
  }

  // A call answers as the first one would, whatever it is given, exactly in the first mode
  lemma FreshAnswer(go: Mode)
    ensures (forall text: seq<Byte> :: Answer(go, text) == Answer(Struct, text)) <==> go == Struct
  {
    if go != Struct {
      OneItem(go);
      OneItem(Struct);
      assert Answer(go, [91, 49, 93]) != Answer(Struct, [91, 49, 93]);
    }
  }

  // `[1]`
  lemma OneItem(go: Mode)
    ensures Answer(go, [91, 49, 93]) == match go
      case Struct => (0, [1, 1])
      case Bare => (-1, [])
      case String => (0, [])
      case _ => (1, [])
  {
    hide Run, Step, Emitted;
    var s, t := Start(go), [91, 49, 93];
    assert t == [91] + [49, 93];
    RunFirst(s, 91, [49, 93], 0);
    RunTwo(Step(s, 91, 0), 49, 93, 1);
    OneItemSteps(go);
    NothingYet(go);
    OneItemWritten(Step(Step(Step(s, 91, 0), 49, 1), 93, 2), go);
  }

  lemma OneItemSteps(go: Mode)
    ensures var r := Step(Step(Step(Start(go), 91, 0), 49, 1), 93, 2);
      match go
      case Struct => r == State(Struct, 0, 0, [Token(1, 1)], Closed, false)
      case Bare => r == State(Struct, -1, 0, [], Closed, false)
      case String => r == Start(String)
      case _ => r == Start(go).(bad := true)
  {
  }

  lemma OneItemWritten(r: State, go: Mode)
    requires r.open.Closed? && r.tokens == if go == Struct then [Token(1, 1)] else []
    ensures Emitted(r) == if go == Struct then [1, 1] else []
  {
    assert [Token(1, 1)][..0] == [];
    assert Written([]) == [];
  }

  // After an unfinished word or string the next call goes wrong
  lemma LeftOver()
    ensures After(Struct, [[49]]) == Bare && After(Struct, [[34]]) == String
    ensures Answer(After(Struct, [[49]]), [91, 49, 93]) == (-1, [])
    ensures Answer(After(Struct, [[34]]), [91, 49, 93]) == (0, [])
  {
    assert [[49]][..0] == [] && [[34]][..0] == [];
    OneByte(Start(Struct), 49, 0);
    OneByte(Start(Struct), 34, 0);
    OneItem(Bare);
    OneItem(String);
    hide Run, Step, Answer;
  }

  datatype Message = Message(lead: seq<Byte>, value: Json, trail: seq<Byte>)

  predicate WellFormedMessage(m: Message) {
    m.value.Node? && WellFormed(m.value) && Separators(m.lead) && Separators(m.trail)
  }

  function TextOf(m: Message): seq<Byte> {
    m.lead + Text(m.value) + m.trail
  }

  predicate RightCall(go: Mode, m: Message) {
    m.value.Node? && Right(Run(Start(go), TextOf(m), 0), Places(m.value.items, |m.lead| + 1))
  }

  // The calls of a series of well-formed texts are right up to one of them if and only if the first was
  // ready and none of these texts holds DEL in a string
  lemma {:induction false} SeriesRight(go: Mode, messages: seq<Message>, k: nat)
    requires forall i | 0 <= i < |messages| :: WellFormedMessage(messages[i])
    requires k < |messages|
    ensures var texts := seq(|messages|, i requires 0 <= i < |messages| => TextOf(messages[i]));
      (forall i | 0 <= i <= k :: RightCall(After(go, texts[..i]), messages[i]))
        <==> Ready(go, messages[0].lead) && forall i | 0 <= i <= k :: NoDel(messages[i].value)
  {
    hide Run, WellFormed, Separators, Places, Text, Ready, RightCall, After, NoDel;
    var texts := seq(|messages|, i requires 0 <= i < |messages| => TextOf(messages[i]));
    RightExactly(After(go, texts[..k]), messages[k]);
    if k == 0 {
      NoCallYet(go, texts);
    } else {
      SeriesRight(go, messages, k - 1);
      if forall i | 0 <= i <= k - 1 :: RightCall(After(go, texts[..i]), messages[i]) {
        assert RightCall(After(go, texts[..k - 1]), messages[k - 1]);
        assert texts[..k][..k - 1] == texts[..k - 1];
        RightLeaves(After(go, texts[..k - 1]), messages[k - 1]);
        NextMode(go, texts[..k]);
        ReadyStruct(messages[k].lead);
      }
    }
  }

  lemma RightExactly(go: Mode, m: Message)
    requires WellFormedMessage(m)
    ensures RightCall(go, m) <==> Ready(go, m.lead) && NoDel(m.value)
  {
    hide Run, WellFormed, Separators, Places, Text, Ready, Right, NoDel;
    ScanText(go, m.lead, m.value, m.trail);
  }

  lemma RightLeaves(go: Mode, m: Message)
    requires RightCall(go, m)
    ensures Run(Start(go), TextOf(m), 0).go == Struct
  {
    hide Run, Places;
  }

  lemma NoCallYet(go: Mode, texts: seq<seq<Byte>>)
    ensures After(go, texts[..0]) == go
  {
  }

  lemma NextMode(go: Mode, texts: seq<seq<Byte>>)
    requires texts != []
    ensures var n := |texts| - 1; After(go, texts) == Run(Start(After(go, texts[..n])), texts[n], 0).go
  {
    hide Run;
  }

  lemma ReadyStruct(lead: seq<Byte>)
    ensures Ready(Struct, lead)
  {
  }

  // `["<DEL>"]` is JSON; the call returns 1, and so the one after it goes wrong, too
  lemma DelFails()
    ensures var j, text := Node(91, More([], Str([127]), End([])), 93), [91, 34, 127, 34, 93];
      && JsonValue(j) && Text(j) == text && !NoDel(j)
      && Answer(Struct, text) == (1, [2]) && After(Struct, [text]) == String
      && Answer(After(Struct, [text]), [91, 49, 93]) == (0, [])
  {
    var text := [91, 34, 127, 34, 93];
    DelIsJson();
    DelRun(text);
    NoCallYet(Struct, [text]);
    NextMode(Struct, [text]);
    assert [text][..|[text]| - 1] == [text][..0];
    OneItem(String);
    hide Run, Step, JsonValue, NoDel, Text, Emitted;
  }

  lemma DelIsJson()
    ensures var j := Node(91, More([], Str([127]), End([])), 93);
      JsonValue(j) && Text(j) == [91, 34, 127, 34, 93] && !NoDel(j)
  {
    assert JsonChar([127]) == 1 && [127][1..] == [];
    assert JsonString([127]);
  }

  lemma DelRun(text: seq<Byte>)
    requires text == [91, 34, 127, 34, 93]
    ensures var s := Run(Start(Struct), text, 0); s.bad && s.go == String && Emitted(s) == [2]
  {
    hide Run, Step, Emitted;
    var s := Start(Struct);
    assert text == [91] + ([34] + ([127] + [34, 93]));
    RunFirst(s, 91, [34] + ([127] + [34, 93]), 0);
    RunFirst(Step(s, 91, 0), 34, [127] + [34, 93], 1);
    RunFirst(Step(Step(s, 91, 0), 34, 1), 127, [34, 93], 2);
    var t := Step(Step(Step(s, 91, 0), 34, 1), 127, 2);
    RunTwo(t, 34, 93, 3);
    DelSteps(t);
  }

  lemma DelSteps(t: State)
    requires t == Step(Step(Step(Start(Struct), 91, 0), 34, 1), 127, 2)
    ensures var r := Step(Step(t, 34, 3), 93, 4); r.bad && r.go == String && Emitted(r) == [2]
  {
    assert t == State(String, 1, 0, [], Opened(2), true);
    assert Written([]) == [];
  }
}
