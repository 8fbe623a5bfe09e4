/** The texts of JSON (RFC 8259) as trees that keep every byte, and the wider set of texts that the
    scanner of `httpd/json.c` is about: it tells neither separators nor kinds of brackets apart.
 */
module JGrammar {
  type Byte = b: int | 0 <= b < 256

  // A value with what stands between its parts; in an object, names and values take turns
  datatype Json =
    | Str(body: seq<Byte>)
    | Word(text: seq<Byte>)
    | Node(left: Byte, items: Items, right: Byte)

  datatype Items = End(gap: seq<Byte>) | More(gap: seq<Byte>, value: Json, rest: Items)

  function Text(j: Json): (t: seq<Byte>)
    ensures |t| > 0 || j.Word?
  {
    match j
    case Str(body) => [34] + body + [34]
    case Word(text) => text
    case Node(left, items, right) => [left] + TextAll(items) + [right]
  }

  function TextAll(items: Items): seq<Byte> {
    match items
    case End(gap) => gap
    case More(gap, value, rest) => gap + Text(value) + TextAll(rest)
  }

  predicate White(c: Byte) {
    c in {9, 10, 13, 32}
  }

  predicate Digit(c: Byte) {
    48 <= c <= 57
  }

  // ---------------------------------------------------------------- the grammar of RFC 8259

  predicate Whites(s: seq<Byte>) {
    forall i | 0 <= i < |s| :: White(s[i])
  }

  // White space around one byte
  predicate Around(gap: seq<Byte>, c: Byte) {
    exists k | 0 <= k < |gap| :: gap[k] == c && Whites(gap[..k]) && Whites(gap[k + 1..])
  }

  predicate Digits(s: seq<Byte>) {
    s != [] && forall i | 0 <= i < |s| :: Digit(s[i])
  }

  // Minus sign, integer, fraction and exponent
  predicate NumberOf(text: seq<Byte>, minus: seq<Byte>, int_: seq<Byte>, frac: seq<Byte>, exp: seq<Byte>) {
    && text == minus + int_ + frac + exp
    && minus in {[], [45]}
    && Digits(int_) && (int_[0] == 48 ==> |int_| == 1)
    && (frac != [] ==> frac[0] == 46 && Digits(frac[1..]))
    && (exp != [] ==>
      exp[0] in {69, 101} && (Digits(exp[1..]) || (|exp| >= 2 && exp[1] in {43, 45} && Digits(exp[2..]))))
  }

  ghost predicate Number(text: seq<Byte>) {
    exists minus, int_, frac, exp :: NumberOf(text, minus, int_, frac, exp)
  }

  // true, false, null
  predicate Literal(text: seq<Byte>) {
    text in {[116, 114, 117, 101], [102, 97, 108, 115, 101], [110, 117, 108, 108]}
  }

  predicate Hex(c: Byte) {
    Digit(c) || 65 <= c <= 70 || 97 <= c <= 102
  }

  predicate EscapedBy(c: Byte) {
    c in {34, 92, 47, 98, 102, 110, 114, 116}
  }

  // How many bytes the first character of a string takes, with the UTF-8 of RFC 3629; 0 if there is none
  function JsonChar(body: seq<Byte>): (n: nat)
    requires body != []
    ensures n <= |body|
  {
    var c := body[0];
    if c == 92 then
      if |body| >= 2 && EscapedBy(body[1]) then 2
      else if |body| >= 6 && body[1] == 117 && forall i | 2 <= i < 6 :: Hex(body[i]) then 6
      else 0
    else if 32 <= c <= 127 then if c == 34 then 0 else 1
    else if Continues(body, 2) && 194 <= c <= 223 then 2
    else if Continues(body, 3) && 224 <= c <= 239 && (c == 224 ==> body[1] >= 160) && (c == 237 ==> body[1] <= 159)
    then 3
    else if Continues(body, 4) && 240 <= c <= 244 && (c == 240 ==> body[1] >= 144) && (c == 244 ==> body[1] <= 143)
    then 4
    else 0
  }

  predicate JsonString(body: seq<Byte>)
    decreases |body|
  {
    body == [] || (JsonChar(body) > 0 && JsonString(body[JsonChar(body)..]))
  }

  ghost predicate JsonValue(j: Json) {
    match j
    case Str(body) => JsonString(body)
    case Word(text) => Literal(text) || Number(text)
    case Node(left, items, right) =>
      || (left == 91 && right == 93 && Elements(items, true))
      || (left == 123 && right == 125 && Members(items, true))
  }

  // Values with commas between
  ghost predicate Elements(items: Items, first: bool) {
    match items
    case End(gap) => Whites(gap)
    case More(gap, value, rest) =>
      (if first then Whites(gap) else Around(gap, 44)) && JsonValue(value) && Elements(rest, false)
  }

  // Names and values with colons, and commas between
  ghost predicate Members(items: Items, first: bool) {
    match items
    case End(gap) => Whites(gap)
    case More(_, _, End(_)) => false
    case More(gap, name, More(gap', value, rest)) =>
      && (if first then Whites(gap) else Around(gap, 44)) && name.Str? && JsonValue(name)
      && Around(gap', 58) && JsonValue(value) && Members(rest, false)
  }

  // ---------------------------------------------------------------- the texts the scanner is about

  predicate Separator(c: Byte) {
    White(c) || c == 44 || c == 58
  }

  predicate Separators(gap: seq<Byte>) {
    forall i | 0 <= i < |gap| :: Separator(gap[i])
  }

  // How numbers and the three words start, and of what they are made
  predicate WordStart(c: Byte) {
    Digit(c) || c in {45, 102, 110, 116}
  }

  predicate WordByte(c: Byte) {
    33 <= c <= 126 && c !in {44, 93, 125}
  }

  // What ends them, apart from brackets
  predicate EndsWord(c: Byte) {
    White(c) || c == 44
  }

  predicate WellFormed(j: Json) {
    match j
    case Str(body) => StringBody(body)
    case Word(text) => text != [] && WordStart(text[0]) && forall i | 0 < i < |text| :: WordByte(text[i])
    case Node(left, items, right) => left in {91, 123} && right in {93, 125} && WellFormedItems(items)
  }

  // Behind a number or a word there is white space, a comma or the end
  predicate WellFormedItems(items: Items) {
    match items
    case End(gap) => Separators(gap)
    case More(gap, value, rest) =>
      && Separators(gap) && WellFormed(value) && WellFormedItems(rest)
      && (value.Word? ==> (if rest.gap == [] then rest.End? else EndsWord(rest.gap[0])))
  }

  predicate Continues(body: seq<Byte>, n: nat) {
    n <= |body| && forall i | 1 <= i < n :: 128 <= body[i] <= 191
  }

  // How many bytes the first character of a string takes; 0 if there is none
  function CharLength(body: seq<Byte>): (n: nat)
    requires body != []
    ensures n <= |body|
  {
    var c := body[0];
    if c == 92 then if |body| >= 2 && (EscapedBy(body[1]) || body[1] == 117) then 2 else 0
    else if c == 34 then 0
    else if 32 <= c <= 127 then 1
    else if 192 <= c <= 223 && Continues(body, 2) then 2
    else if 224 <= c <= 239 && Continues(body, 3) then 3
    else if 240 <= c <= 247 && Continues(body, 4) then 4
    else 0
  }

  predicate StringBody(body: seq<Byte>)
    decreases |body|
  {
    body == [] || (CharLength(body) > 0 && StringBody(body[CharLength(body)..]))
  }

  // No string at any depth holds the byte 127
  predicate NoDel(j: Json) {
    match j
    case Str(body) => 127 !in body
    case Word(_) => true
    case Node(_, items, _) => NoDelItems(items)
  }

  predicate NoDelItems(items: Items) {
    items.More? ==> NoDel(items.value) && NoDelItems(items.rest)
  }

  // ---------------------------------------------------------------- every JSON text is one of them

  lemma {:induction false} JsonIsWellFormed(j: Json)
    requires JsonValue(j)
    ensures WellFormed(j)
  {
    hide JsonString, StringBody, Literal, Number, Digits, WordByte, WordStart;
    match j
    case Str(body) => StringIsBody(body);
    case Word(text) => WordIsWellFormed(text);
    case Node(left, items, _) =>
      if left == 91 {
        ElementsWellFormed(items, true);
      } else {
        MembersWellFormed(items, true);
      }
  }

  lemma {:induction false} ElementsWellFormed(items: Items, first: bool)
    requires Elements(items, first)
    ensures WellFormedItems(items)
    ensures !first ==> (if items.gap == [] then items.End? else EndsWord(items.gap[0]))
  {
    hide JsonValue, WellFormed, Around, Whites, Separators, EndsWord;
    match items
    case End(gap) => WhiteGap(gap);
    case More(gap, value, rest) =>
      OpenGap(gap, first);
      JsonIsWellFormed(value);
      ElementsWellFormed(rest, false);
  }

  lemma {:induction false} MembersWellFormed(items: Items, first: bool)
    requires Members(items, first)
    ensures WellFormedItems(items)
    ensures !first ==> (if items.gap == [] then items.End? else EndsWord(items.gap[0]))
  {
    hide JsonValue, WellFormed, Around, Whites, Separators, EndsWord;
    match items
    case End(gap) => WhiteGap(gap);
    case More(_, _, End(_)) =>
    case More(gap, name, More(gap', value, rest)) =>
      OpenGap(gap, first);
      JsonIsWellFormed(name);
      AroundGap(gap', 58);
      JsonIsWellFormed(value);
      MembersWellFormed(rest, false);
  }

  lemma WhiteGap(gap: seq<Byte>)
    requires Whites(gap)
    ensures Separators(gap) && (gap != [] ==> EndsWord(gap[0]))
  {
  }

  lemma AroundGap(gap: seq<Byte>, c: Byte)
    requires Around(gap, c) && c in {44, 58}
    ensures Separators(gap) && gap != [] && (c == 44 ==> EndsWord(gap[0]))
  {
    var k :| 0 <= k < |gap| && gap[k] == c && Whites(gap[..k]) && Whites(gap[k + 1..]);
    forall i | 0 <= i < |gap|
      ensures Separator(gap[i])
    {
      if i < k {
        assert gap[i] == gap[..k][i];
      } else if i > k {
        assert gap[i] == gap[k + 1..][i - (k + 1)];
      }
    }
    if k > 0 {
      assert gap[0] == gap[..k][0];
    }
  }

  lemma OpenGap(gap: seq<Byte>, first: bool)
    requires if first then Whites(gap) else Around(gap, 44)
    ensures Separators(gap) && (!first ==> gap != [] && EndsWord(gap[0]))
  {
    hide Around, Whites, Separators, EndsWord;
    if first {
      WhiteGap(gap);
    } else {
      AroundGap(gap, 44);
    }
  }

  lemma WordIsWellFormed(text: seq<Byte>)
    requires Literal(text) || Number(text)
    ensures WellFormed(Word(text))
  {
    if Number(text) {
      var minus, int_, frac, exp :| NumberOf(text, minus, int_, frac, exp);
      NumberBytes(text, minus, int_, frac, exp);
    }
  }

  lemma NumberBytes(text: seq<Byte>, minus: seq<Byte>, int_: seq<Byte>, frac: seq<Byte>, exp: seq<Byte>)
    requires NumberOf(text, minus, int_, frac, exp)
    ensures text != [] && WordStart(text[0]) && forall i | 0 <= i < |text| :: WordByte(text[i])
  {
    assert forall i | 0 <= i < |frac| :: i > 0 ==> frac[i] == frac[1..][i - 1];
    assert forall i | 0 <= i < |exp| :: (i > 0 ==> exp[i] == exp[1..][i - 1]) && (i > 1 ==> exp[i] == exp[2..][i - 2]);
    assert forall i | 0 <= i < |frac| :: WordByte(frac[i]);
    assert forall i | 0 <= i < |exp| :: WordByte(exp[i]);
  }

  // An escaped code point is a character and four more here
  lemma {:induction false} StringIsBody(body: seq<Byte>)
    requires JsonString(body)
    ensures StringBody(body)
    decreases |body|
  {
    if body != [] {
      var n := JsonChar(body);
      StringIsBody(body[n..]);
      if n == 6 {
        FourPlain(body[2..]);
        assert body[2..][4..] == body[6..];
      } else {
        assert CharLength(body) == n;
      }
    }
  }

  lemma FourPlain(body: seq<Byte>)
    requires |body| >= 4 && (forall i | 0 <= i < 4 :: Hex(body[i])) && StringBody(body[4..])
    ensures StringBody(body)
  {
    OnePlain(body[3..]);
    OnePlain(body[2..]);
    OnePlain(body[1..]);
    OnePlain(body);
  }

  lemma OnePlain(body: seq<Byte>)
    requires body != [] && Hex(body[0]) && StringBody(body[1..])
    ensures StringBody(body)
  {
    assert CharLength(body) == 1;
  }
}
