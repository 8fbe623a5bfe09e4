/** The firmware image that `asustrx/asustrx.c` builds: a header of seven words (struct trx_header of
    `brcm-src-2.6/include/trxhdr.h`), up to three files, and an optional footer, in whole pages.
 */
module ITrx {
  import opened HWords
  import opened ICrc

  const HEADER: nat := 28  // sizeof(struct trx_header)
  const TRX_MAGIC: Word := 0x30524448
  const TRX_VERSION: Word := 1
  const FOOTER: nat := 64
  const PAGE: nat := 0x1000

  function Zeros(n: nat): seq<Byte> {
    seq(n, _ => 0)
  }

  function Round4(n: nat): (r: nat)
    ensures n <= r < n + 4 && r % 4 == 0
  {
    if n % 4 == 0 then n else n + (4 - n % 4)
  }

  function RoundPage(n: nat): (r: nat)
    ensures n <= r < n + PAGE && r % PAGE == 0
  {
    if n % PAGE == 0 then n else n + (PAGE - n % PAGE)
  }

  // What the first `k` files take: all but the last of them are filled up to whole words
  function Content(files: seq<seq<Byte>>, k: nat): seq<Byte>
    requires k <= |files|
  {
    if k == 0 then [] else Content(files, k - 1) + Piece(files, k - 1)
  }

  function Piece(files: seq<seq<Byte>>, k: nat): seq<Byte>
    requires k < |files|
  {
    Fill(files[k], k + 1 < |files|)
  }

  function Fill(file: seq<Byte>, more: bool): seq<Byte> {
    if more then file + Zeros(Round4(|file|) - |file|) else file
  }

  function Offset(files: seq<seq<Byte>>, k: nat): nat
    requires k <= |files|
  {
    HEADER + |Content(files, k)|
  }

  lemma {:induction false} Aligned(files: seq<seq<Byte>>, k: nat)
    requires k < |files|
    ensures Offset(files, k) % 4 == 0
  {
    if k > 0 {
      Aligned(files, k - 1);
      AddAligned(Offset(files, k - 1), Round4(|files[k - 1]|));
    }
  }

  lemma AddAligned(a: nat, b: nat)
    requires a % 4 == 0 && b % 4 == 0
    ensures (a + b) % 4 == 0
  {
  }

  // Each file is read without reaching the end of the buffer
  predicate Fit(files: seq<seq<Byte>>, maxlen: nat) {
    1 <= |files| <= 3 && forall k | 0 <= k < |files| :: Offset(files, k) + |files[k]| < maxlen
  }

  // What stands between the last file and the footer: the room reserved for the footer is not cleared
  // and shows what malloc found there; the rest of the page is
  function Gap(memory: seq<Byte>, footer: seq<Byte>, end: nat): (gap: seq<Byte>)
    requires end + |footer| <= |memory|
    ensures |gap| == RoundPage(end + |footer|) - (end + |footer|)
  {
    seq(RoundPage(end + |footer|) - (end + |footer|), i requires 0 <= i => if i < |footer| then memory[end + i] else 0)
  }

  // The gap is zero whatever was in memory exactly if there is no footer, or no gap
  lemma GapCleared(footer: seq<Byte>, end: nat, maxlen: nat)
    requires end + |footer| <= maxlen
    ensures (forall memory: seq<Byte> | |memory| == maxlen ::
        Gap(memory, footer, end) == Zeros(RoundPage(end + |footer|) - (end + |footer|)))
      <==> footer == [] || (end + |footer|) % PAGE == 0
  {
    if footer != [] && (end + |footer|) % PAGE != 0 {
      GapShows(seq(maxlen, _ => 1), footer, end);
    }
  }

  lemma GapShows(memory: seq<Byte>, footer: seq<Byte>, end: nat)
    requires end + |footer| <= |memory| && footer != [] && (end + |footer|) % PAGE != 0
    ensures |Gap(memory, footer, end)| > 0 && Gap(memory, footer, end)[0] == memory[end]
  {
  }

  // One word of a file, and a footer, in one page of a memory full of ones
  lemma GapOfOnes()
    ensures Gap(seq(PAGE, _ => 1), seq(FOOTER, _ => 0), HEADER + 4)[..FOOTER] == seq(FOOTER, _ => 1)
  {
    var gap := Gap(seq(PAGE, _ => 1), seq(FOOTER, _ => 0), HEADER + 4);
    assert |gap| == PAGE - (HEADER + 4 + FOOTER);
  }

  // What `main` writes, with the words of the header, when it finds `memory` in its buffer
  ghost predicate Built(files: seq<seq<Byte>>, footer: seq<Byte>, memory: seq<Byte>, image: seq<Byte>,
    words: seq<Word>) {
    && |words| == 7 && 1 <= |files| <= 3 && Offset(files, |files|) + |footer| <= |memory|
    && image == Encode(false, words)
        + (Content(files, |files|) + Gap(memory, footer, Offset(files, |files|)) + footer)
    && |image| == RoundPage(Offset(files, |files|) + |footer|) < TWO_32
    && words[0] == TRX_MAGIC && words[1] == ToWord(|image|)
    && words[2] == Crc(INIT, image[12..]) && words[3] == TRX_VERSION << 16
    && OffsetsIn(files, |files|, words) && LeftIn(|files|, memory, words)
  }

  ghost predicate OffsetsIn(files: seq<seq<Byte>>, k: nat, words: seq<Word>) {
    && k <= |files| <= 3 && |words| == 7
    && forall j | 0 <= j < k :: Offset(files, j) < TWO_32 && words[4 + j] == ToWord(Offset(files, j))
  }

  // The offsets of files that are not there are not written either
  predicate LeftIn(k: nat, memory: seq<Byte>, words: seq<Word>) {
    HEADER <= |memory| && |words| == 7 && forall i | 4 + k <= i < 7 :: words[i] == WordAt(false, memory, i)
  }

  // ---------------------------------------------------------------- the buffer

  // Header and body overlay the same buffer
  ghost predicate Laid(buf: seq<Byte>, words: seq<Word>, body: seq<Byte>) {
    |words| == 7 && buf == Encode(false, words) + body
  }

  lemma StartLaid(buf: seq<Byte>)
    requires HEADER <= |buf|
    ensures Laid(buf, Decode(false, buf[..HEADER]), buf[HEADER..])
  {
    EncodeDecode(false, buf[..HEADER]);
    hide Encode, Decode;
  }

  lemma PutWord(buf: seq<Byte>, words: seq<Word>, body: seq<Byte>, i: nat, w: Word)
    requires Laid(buf, words, body) && i < 7
    ensures Laid(Placed(buf, 4 * i, Encode(false, [w])), words[i := w], body)
  {
    var a, m, b := EncodeParts(words, i, w);
    hide Encode;
    Instead(a, m, b + body, Encode(false, [w]));
    assert buf == a + m + (b + body);
    hide Placed;
  }

  lemma EncodeParts(words: seq<Word>, i: nat, w: Word) returns (a: seq<Byte>, m: seq<Byte>, b: seq<Byte>)
    requires i < |words|
    ensures |a| == 4 * i && |m| == 4
    ensures Encode(false, words) == a + m + b && Encode(false, words[i := w]) == a + Encode(false, [w]) + b
  {
    hide Encode;
    var before, after := words[..i], words[i + 1..];
    assert words == before + [words[i]] + after && words[i := w] == before + [w] + after;
    EncodeAppend(false, before + [words[i]], after);
    EncodeAppend(false, before, [words[i]]);
    EncodeAppend(false, before + [w], after);
    EncodeAppend(false, before, [w]);
    a, m, b := Encode(false, before), Encode(false, [words[i]]), Encode(false, after);
  }

  lemma Instead(a: seq<Byte>, m: seq<Byte>, b: seq<Byte>, m': seq<Byte>)
    requires |m| == |m'|
    ensures Placed(a + m + b, |a|, m') == a + m' + b
  {
  }

  lemma PutBody(buf: seq<Byte>, words: seq<Word>, body: seq<Byte>, j: nat, s: seq<Byte>)
    requires Laid(buf, words, body) && j + |s| <= |body|
    ensures Laid(Placed(buf, HEADER + j, s), words, Placed(body, j, s))
  {
    hide Encode;
  }

  method StoreWord(buf: array<Byte>, i: nat, w: Word, ghost words: seq<Word>, ghost body: seq<Byte>)
    requires Laid(buf[..], words, body) && i < 7
    modifies buf
    ensures Laid(buf[..], words[i := w], body)
  {
    PutWord(buf[..], words, body, i, w);
    EncodeInto(false, buf, 4 * i, [w]);
    hide Laid, Encode, Placed;
  }

  method StoreBytes(buf: array<Byte>, at: nat, s: seq<Byte>, ghost words: seq<Word>, ghost body: seq<Byte>)
    requires Laid(buf[..], words, body) && HEADER <= at && at + |s| <= buf.Length
    modifies buf
    ensures |body| == buf.Length - HEADER && Laid(buf[..], words, Placed(body, at - HEADER, s))
  {
    PutBody(buf[..], words, body, at - HEADER, s);
    Memcpy(buf, at, s);
    hide Laid, Encode, Placed;
  }

  // ---------------------------------------------------------------- `main`

  // The first `k` files are in
  ghost predicate Filled(files: seq<seq<Byte>>, k: nat, memory: seq<Byte>, curLen: nat, words: seq<Word>,
    body: seq<Byte>) {
    && k <= |files| <= 3 && |words| == 7
    && curLen == Offset(files, k) <= |memory| < TWO_32 && |body| == |memory| - HEADER
    && body == Content(files, k) + memory[curLen..]
    && words[0] == TRX_MAGIC && words[3] == TRX_VERSION << 16
    && OffsetsIn(files, k, words) && LeftIn(k, memory, words)
  }

  // Reads the next file behind the others; fails when the buffer ends first
  method AddFile(buf: array<Byte>, files: seq<seq<Byte>>, k: nat, curLen: nat, ghost memory: seq<Byte>,
    ghost words: seq<Word>, ghost body: seq<Byte>)
    returns (ok: bool, curLen': nat, ghost words': seq<Word>, ghost body': seq<Byte>)
    requires Laid(buf[..], words, body) && Filled(files, k, memory, curLen, words, body) && |memory| == buf.Length
    requires k < |files| && buf.Length % PAGE == 0
    modifies buf
    ensures ok <==> Offset(files, k) + |files[k]| < buf.Length
    ensures ok ==> Laid(buf[..], words', body') && Filled(files, k + 1, memory, curLen', words', body')
  {
    hide Laid, Encode, Content, Round4, Fill, Placed;
    StoreWord(buf, 4 + k, ToWord(curLen), words, body);
    words', body' := words[4 + k := ToWord(curLen)], body;
    ok := |files[k]| < buf.Length - curLen;
    curLen' := curLen;
    if ok {
      RoundFits(files, k, curLen, |files[k]|, buf.Length);
      var n := CopyFile(buf, files[k], k + 1 < |files|, curLen, words', body');
      body' := Placed(body', curLen - HEADER, Piece(files, k));
      curLen' := curLen + n;
      NextFilled(files, k, memory, curLen, words, body);
      hide Filled;
    }
  }

  method CopyFile(buf: array<Byte>, file: seq<Byte>, more: bool, at: nat, ghost words: seq<Word>, ghost body: seq<Byte>)
    returns (n: nat)
    requires Laid(buf[..], words, body) && HEADER <= at && at + Round4(|file|) <= buf.Length
    modifies buf
    ensures n == |Fill(file, more)| && at + n <= buf.Length && |body| == buf.Length - HEADER
    ensures Laid(buf[..], words, Placed(body, at - HEADER, Fill(file, more)))
  {
    hide Laid, Placed;
    n := |file|;
    StoreBytes(buf, at, file, words, body);
    if more && n % 4 != 0 {
      ghost var body' := Placed(body, at - HEADER, file);
      StoreBytes(buf, at + n, Zeros(4 - n % 4), words, body');
      PlacedMore(body, at - HEADER, file, Zeros(4 - n % 4));
      n := n + (4 - n % 4);
    } else {
      assert file + Zeros(0) == file;
    }
  }

  // Since offsets and buffer size are multiples of 4, filling up does not leave the buffer
  lemma RoundFits(files: seq<seq<Byte>>, k: nat, curLen: nat, n: nat, maxlen: nat)
    requires k < |files| && curLen == Offset(files, k) && curLen + n < maxlen && maxlen % PAGE == 0
    ensures curLen + Round4(n) <= maxlen
  {
    Aligned(files, k);
    hide Content;
    StaysInside(curLen, n, maxlen);
  }

  lemma StaysInside(at: nat, n: nat, maxlen: nat)
    requires at % 4 == 0 && maxlen % PAGE == 0 && at + n < maxlen
    ensures at + Round4(n) <= maxlen
  {
    hide Round4;
    InFours(at, 4);
    InFours(Round4(n), 4);
    InFours(maxlen, PAGE);
    Fours(at / 4, Round4(n) / 4, 1024 * (maxlen / PAGE), n);
  }

  lemma InFours(n: nat, d: nat)
    requires d in {4, PAGE} && n % d == 0
    ensures n == d * (n / d)
  {
  }

  lemma Fours(a: nat, r: nat, m: nat, n: nat)
    requires 4 * a + n < 4 * m && 4 * r < n + 4
    ensures 4 * a + 4 * r <= 4 * m
  {
  }

  lemma NextFilled(files: seq<seq<Byte>>, k: nat, memory: seq<Byte>, curLen: nat, words: seq<Word>, body: seq<Byte>)
    requires k < |files| && Filled(files, k, memory, curLen, words, body) && curLen < TWO_32
    requires curLen + |Piece(files, k)| <= |memory|
    ensures Filled(files, k + 1, memory, curLen + |Piece(files, k)|,
      words[4 + k := ToWord(curLen)], Placed(body, curLen - HEADER, Piece(files, k)))
  {
    hide Piece, OffsetsIn, Placed, Content, WordAt;
    Behind(Content(files, k), memory[curLen..], Piece(files, k));
    assert memory[curLen..][|Piece(files, k)|..] == memory[curLen + |Piece(files, k)|..];
    ContentNext(files, k);
    NextOffset(files, k, words);
  }

  lemma ContentNext(files: seq<seq<Byte>>, k: nat)
    requires k < |files|
    ensures Content(files, k + 1) == Content(files, k) + Piece(files, k)
  {
  }

  lemma NextOffset(files: seq<seq<Byte>>, k: nat, words: seq<Word>)
    requires OffsetsIn(files, k, words) && k < |files| && Offset(files, k) < TWO_32
    ensures OffsetsIn(files, k + 1, words[4 + k := ToWord(Offset(files, k))])
  {
    hide Offset, ToWord;
  }

  lemma Behind(a: seq<Byte>, b: seq<Byte>, s: seq<Byte>)
    requires |s| <= |b|
    ensures Placed(a + b, |a|, s) == (a + s) + b[|s|..]
  {
  }

  // What becomes of it: a file does not end before the buffer does, or the footer does not fit behind
  // the files, so that the program would write behind its buffer, or there is an image
  datatype Outcome = TooLarge | Outside | Done

  // `main`, without its options: the footer is given when a product id is; `memory` is what malloc
  // finds in the buffer
  method Build(files: seq<seq<Byte>>, footer: seq<Byte>, memory: seq<Byte>)
    returns (outcome: Outcome, image: seq<Byte>, ghost words: seq<Word>)
    requires 0 < |memory| < TWO_32 && |memory| % PAGE == 0 && |footer| in {0, FOOTER}
    ensures outcome == if !Fit(files, |memory|) then TooLarge
      else if Offset(files, |files|) + |footer| > |memory| then Outside else Done
    ensures outcome.Done? ==> Built(files, footer, memory, image, words)
  {
    hide Laid, Encode, Content, Decode, Built;
    outcome, image, words := TooLarge, [], [];
    if |files| == 0 || |files| > 3 {
      return;
    }
    var buf := new Byte[|memory|](i requires 0 <= i < |memory| => memory[i]);
    assert buf[..] == memory;
    ghost var body := buf[HEADER..];
    words := Decode(false, buf[..HEADER]);
    StartLaid(buf[..]);
    StoreWord(buf, 0, TRX_MAGIC, words, body);
    words := words[0 := TRX_MAGIC];
    StoreWord(buf, 3, TRX_VERSION << 16, words, body);
    words := words[3 := TRX_VERSION << 16];
    var curLen: nat, i: nat := HEADER, 0;
    NoContent(files);
    HeaderLeft(memory);
    while i < |files|
      invariant i <= |files| && Laid(buf[..], words, body) && Filled(files, i, memory, curLen, words, body)
      invariant forall j | 0 <= j < i :: Offset(files, j) + |files[j]| < |memory|
    {
      var ok;
      ok, curLen, words, body := AddFile(buf, files, i, curLen, memory, words, body);
      if !ok {
        return;
      }
      i := i + 1;
    }
    if curLen + |footer| > |memory| {
      outcome := Outside;
      return;
    }
    outcome := Done;
    image, words := Finish(buf, files, footer, curLen, memory, words, body);
  }

  // The program stays inside its buffer as long as it does while it clears the last page and copies
  // the footer: without a footer always
  lemma InsideExactly(files: seq<seq<Byte>>, footer: seq<Byte>, maxlen: nat)
    requires Fit(files, maxlen) && maxlen % PAGE == 0 && |footer| in {0, FOOTER}
    ensures RoundPage(Offset(files, |files|) + |footer|) <= maxlen <==> Offset(files, |files|) + |footer| <= maxlen
    ensures footer == [] ==> RoundPage(Offset(files, |files|)) <= maxlen
  {
    hide Content, RoundPage;
    ContentNext(files, |files| - 1);
    if Offset(files, |files|) + |footer| <= maxlen {
      RoundedFits(Offset(files, |files|) + |footer|, maxlen);
    }
  }

  // What the header is before anything is written
  lemma HeaderLeft(memory: seq<Byte>)
    requires HEADER <= |memory|
    ensures LeftIn(0, memory, Decode(false, memory[..HEADER])[0 := TRX_MAGIC][3 := TRX_VERSION << 16])
  {
    hide WordOf;
  }

  lemma NoContent(files: seq<seq<Byte>>)
    ensures Content(files, 0) == [] && Offset(files, 0) == HEADER
  {
  }

  // The end of the image: footer, checksum, length
  method Finish(buf: array<Byte>, files: seq<seq<Byte>>, footer: seq<Byte>, end: nat, ghost memory: seq<Byte>,
    ghost words: seq<Word>, ghost body: seq<Byte>)
    returns (image: seq<Byte>, ghost words': seq<Word>)
    requires Laid(buf[..], words, body) && Filled(files, |files|, memory, end, words, body) && 1 <= |files|
    requires buf.Length == |memory| && buf.Length % PAGE == 0 && |footer| in {0, FOOTER} && end + |footer| <= buf.Length
    modifies buf
    ensures Built(files, footer, memory, image, words')
  {
    hide Laid, Encode, Content, Placed, Gap;
    var curLen;
    ghost var body1;
    curLen, body1 := AddFooter(buf, footer, end, Content(files, |files|), memory, words, body);
    hide Filled, Built, Crc, RoundPage, Offset;
    image, words' := Seal(buf, curLen, words, body1);
    Sealed(files, footer, end, memory, words, body, image, words', body1[..curLen - HEADER]);
  }

  lemma Sealed(files: seq<seq<Byte>>, footer: seq<Byte>, end: nat, memory: seq<Byte>, words: seq<Word>, body: seq<Byte>,
    image: seq<Byte>, words': seq<Word>, body': seq<Byte>)
    requires Filled(files, |files|, memory, end, words, body) && 1 <= |files| && |words'| == 7
    requires end + |footer| <= |memory| && body' == Content(files, |files|) + Gap(memory, footer, end) + footer
    requires image == Encode(false, words') + body' && |image| == RoundPage(end + |footer|) < TWO_32
    requires words' == words[2 := Crc(INIT, image[12..])][1 := ToWord(|image|)]
    ensures Built(files, footer, memory, image, words')
  {
    hide Content, Crc, Encode, RoundPage, Gap, ToWord, Offset, WordAt;
    assert Offset(files, |files|) == end;
    assert words'[3..] == words[3..];
    assert forall k | 3 <= k < 7 :: words'[k] == words[k];
  }

  // Room for the footer behind the files, zeros to the end of the page, the footer at the end of it
  method AddFooter(buf: array<Byte>, footer: seq<Byte>, end: nat, ghost content: seq<Byte>, ghost memory: seq<Byte>,
    ghost words: seq<Word>, ghost body: seq<Byte>)
    returns (curLen: nat, ghost body': seq<Byte>)
    requires Laid(buf[..], words, body) && end + |footer| <= buf.Length == |memory|
    requires end == HEADER + |content| && body == content + memory[end..]
    requires buf.Length % PAGE == 0 && |footer| < PAGE
    modifies buf
    ensures curLen == RoundPage(end + |footer|) <= buf.Length && Laid(buf[..], words, body')
    ensures |body'| == buf.Length - HEADER
    ensures body'[..curLen - HEADER] == content + Gap(memory, footer, end) + footer
  {
    hide Laid, Placed, Gap;
    curLen, body' := end + |footer|, body;
    RoundedFits(curLen, buf.Length);
    var n := curLen % PAGE;
    ghost var zeros := Zeros(if n != 0 then PAGE - n else 0);
    if n != 0 {
      StoreBytes(buf, curLen, Zeros(PAGE - n), words, body');
      curLen := curLen + (PAGE - n);
    } else {
      StoreBytes(buf, curLen, [], words, body');
    }
    StoreBytes(buf, curLen - |footer|, footer, words, Placed(body, end + |footer| - HEADER, zeros));
    body' := Placed(Placed(body, end + |footer| - HEADER, zeros), curLen - |footer| - HEADER, footer);
    GapIs(content, memory, end, footer, |zeros|);
  }

  lemma GapIs(content: seq<Byte>, memory: seq<Byte>, end: nat, footer: seq<Byte>, n: nat)
    requires end == HEADER + |content| && end + |footer| + n <= |memory|
    requires n == RoundPage(end + |footer|) - (end + |footer|)
    ensures var body, at := content + memory[end..], end - HEADER;
      Placed(Placed(body, at + |footer|, Zeros(n)), at + n, footer)[..at + |footer| + n]
        == content + Gap(memory, footer, end) + footer
  {
    var body, at, gap := content + memory[end..], end - HEADER, Gap(memory, footer, end);
    var body' := Placed(body, at + |footer|, Zeros(n));
    assert body'[..at] == content;
    assert body'[at..at + n] == gap;
    CutPlaced(body', at, n, footer);
    hide Placed, Gap;
  }

  lemma CutPlaced(body: seq<Byte>, at: nat, n: nat, footer: seq<Byte>)
    requires at + n + |footer| <= |body|
    ensures Placed(body, at + n, footer)[..at + |footer| + n] == body[..at] + body[at..at + n] + footer
  {
  }

  lemma RoundedFits(n: nat, maxlen: nat)
    requires n <= maxlen && maxlen % PAGE == 0
    ensures RoundPage(n) <= maxlen
  {
  }

  // The checksum of everything behind it, and the length
  method Seal(buf: array<Byte>, curLen: nat, ghost words: seq<Word>, ghost body: seq<Byte>)
    returns (image: seq<Byte>, ghost words': seq<Word>)
    requires Laid(buf[..], words, body) && HEADER <= curLen <= buf.Length < TWO_32
    modifies buf
    ensures |words'| == 7 && image == Encode(false, words') + body[..curLen - HEADER] && |image| == curLen
    ensures words' == words[2 := Crc(INIT, image[12..])][1 := ToWord(curLen)]
  {
    assert |words| == 7 && |buf[..]| == HEADER + |body|;
    hide Laid, Encode, Crc;
    var crc := Crc32(INIT, buf[12..curLen]);
    ghost var before := buf[..];
    StoreWord(buf, 2, crc, words, body);
    ghost var w := words[2 := crc];
    StoreWord(buf, 1, ToWord(curLen), w, body);
    words' := w[1 := ToWord(curLen)];
    image := buf[..curLen];
    SameBehind(before, words, buf[..], words', body);
    assert image[12..] == buf[12..][..curLen - 12] && before[12..curLen] == before[12..][..curLen - 12];
    CutLaid(buf[..], words', body, curLen);
  }

  lemma CutLaid(buf: seq<Byte>, words: seq<Word>, body: seq<Byte>, n: nat)
    requires Laid(buf, words, body) && HEADER <= n <= |buf|
    ensures |words| == 7 && buf[..n] == Encode(false, words) + body[..n - HEADER]
  {
    hide Encode;
  }

  lemma SameBehind(buf: seq<Byte>, words: seq<Word>, buf': seq<Byte>, words': seq<Word>, body: seq<Byte>)
    requires Laid(buf, words, body) && Laid(buf', words', body) && words[3..] == words'[3..]
    ensures |buf| == |buf'| && buf[12..] == buf'[12..]
  {
    EncodeAppend(false, words[..3], words[3..]);
    EncodeAppend(false, words'[..3], words'[3..]);
    assert words[..3] + words[3..] == words && words'[..3] + words'[3..] == words';
    hide Encode;
    assert buf[12..] == Encode(false, words[3..]) + body;
    assert buf'[12..] == Encode(false, words'[3..]) + body;
  }

  // ---------------------------------------------------------------- what is in it

  lemma {:induction false} PieceInContent(files: seq<seq<Byte>>, k: nat, n: nat)
    requires k < n <= |files|
    ensures |Content(files, k)| + |Piece(files, k)| <= |Content(files, n)|
    ensures Content(files, n)[|Content(files, k)|..|Content(files, k)| + |Piece(files, k)|] == Piece(files, k)
  {
    hide Piece;
    if k < n - 1 {
      PieceInContent(files, k, n - 1);
    }
  }

  // Each file is where its offset says, the footer at the end
  lemma FileAt(files: seq<seq<Byte>>, footer: seq<Byte>, memory: seq<Byte>, image: seq<Byte>, words: seq<Word>, k: nat)
    requires Built(files, footer, memory, image, words) && k < |files|
    ensures Offset(files, k) + |files[k]| <= |image| && |footer| <= |image|
    ensures image[Offset(files, k)..Offset(files, k) + |files[k]|] == files[k]
    ensures image[|image| - |footer|..] == footer
    ensures Offset(files, k) < TWO_32 && WordAt(false, image, 4 + k) == ToWord(Offset(files, k))
  {
    hide Crc, Encode, Gap, WordAt, Content, Piece, RoundPage, ToWord, LeftIn;
    var gap := Gap(memory, footer, Offset(files, |files|));
    var content := Content(files, |files|);
    PieceInContent(files, k, |files|);
    PieceStarts(files, k);
    HeaderWords(image, words, content + gap + footer, 4 + k);
    Slices(Encode(false, words), content, gap, footer, |Content(files, k)|, Piece(files, k), |files[k]|);
  }

  lemma PieceStarts(files: seq<seq<Byte>>, k: nat)
    requires k < |files|
    ensures |files[k]| <= |Piece(files, k)| && Piece(files, k)[..|files[k]|] == files[k]
  {
  }

  lemma Slices<T>(h: seq<T>, c: seq<T>, g: seq<T>, f: seq<T>, at: nat, p: seq<T>, n: nat)
    requires at + |p| <= |c| && c[at..at + |p|] == p && n <= |p|
    ensures var all := h + (c + g + f);
      |h| + at + n <= |all| && |f| <= |all| && all[|h| + at..|h| + at + n] == p[..n] && all[|all| - |f|..] == f
  {
    var all := h + (c + g + f);
    assert all[|h| + at..|h| + at + n] == c[at..at + n] == c[at..at + |p|][..n];
  }

  // ---------------------------------------------------------------- what the image depends on

  // The image as a function of files, footer and memory
  ghost predicate Buildable(files: seq<seq<Byte>>, footer: seq<Byte>, memory: seq<Byte>) {
    1 <= |files| <= 3 && Offset(files, |files|) + |footer| <= |memory| < TWO_32 && |memory| % PAGE == 0
  }

  function BodyOf(files: seq<seq<Byte>>, footer: seq<Byte>, memory: seq<Byte>): seq<Byte>
    requires Offset(files, |files|) + |footer| <= |memory|
  {
    Content(files, |files|) + Gap(memory, footer, Offset(files, |files|)) + footer
  }

  // The header word at `i`, as far as the checksum covers it
  ghost function CoveredWord(files: seq<seq<Byte>>, footer: seq<Byte>, memory: seq<Byte>, i: nat): Word
    requires Buildable(files, footer, memory) && 3 <= i < 7
  {
    OffsetsFit(files, footer, memory);
    if i == 3 then TRX_VERSION << 16
    else if i < 4 + |files| then ToWord(Offset(files, i - 4))
    else WordAt(false, memory, i)
  }

  ghost function Covered(files: seq<seq<Byte>>, footer: seq<Byte>, memory: seq<Byte>): seq<Word>
    requires Buildable(files, footer, memory)
  {
    seq(4, i requires 0 <= i < 4 => CoveredWord(files, footer, memory, 3 + i))
  }

  ghost function HeaderOf(files: seq<seq<Byte>>, footer: seq<Byte>, memory: seq<Byte>): (words: seq<Word>)
    requires Buildable(files, footer, memory)
    ensures |words| == 7
  {
    OffsetsFit(files, footer, memory);
    var covered := Covered(files, footer, memory);
    [TRX_MAGIC, ToWord(RoundPage(Offset(files, |files|) + |footer|)),
      Crc(INIT, Encode(false, covered) + BodyOf(files, footer, memory))] + covered
  }

  ghost function ImageOf(files: seq<seq<Byte>>, footer: seq<Byte>, memory: seq<Byte>): seq<Byte>
    requires Buildable(files, footer, memory)
  {
    Encode(false, HeaderOf(files, footer, memory)) + BodyOf(files, footer, memory)
  }

  lemma {:induction false} OffsetGrows(files: seq<seq<Byte>>, k: nat, n: nat)
    requires k <= n <= |files|
    ensures Offset(files, k) <= Offset(files, n)
  {
    if k < n {
      OffsetGrows(files, k, n - 1);
    }
  }

  lemma OffsetsFit(files: seq<seq<Byte>>, footer: seq<Byte>, memory: seq<Byte>)
    requires Buildable(files, footer, memory)
    ensures HEADER <= Offset(files, |files|) && RoundPage(Offset(files, |files|) + |footer|) <= |memory|
    ensures forall k | 0 <= k <= |files| :: Offset(files, k) <= |memory|
  {
    RoundedFits(Offset(files, |files|) + |footer|, |memory|);
    forall k | 0 <= k <= |files|
      ensures Offset(files, k) <= |memory|
    {
      OffsetGrows(files, k, |files|);
    }
  }

  lemma CoveredPart(image: seq<Byte>, words: seq<Word>, body: seq<Byte>)
    requires |words| == 7 && image == Encode(false, words) + body
    ensures |image| == HEADER + |body| && image[12..] == Encode(false, words[3..]) + body
  {
    hide Encode;
    EncodeAppend(false, words[..3], words[3..]);
    assert words[..3] + words[3..] == words;
  }

  lemma CoveredIs(files: seq<seq<Byte>>, footer: seq<Byte>, memory: seq<Byte>, words: seq<Word>)
    requires Buildable(files, footer, memory) && |words| == 7
    ensures words[3..] == Covered(files, footer, memory)
      <==> words[3] == TRX_VERSION << 16 && OffsetsIn(files, |files|, words) && LeftIn(|files|, memory, words)
  {
    hide Content, WordAt, ToWord, Offset;
    OffsetsFit(files, footer, memory);
    var covered := Covered(files, footer, memory);
    if words[3..] == covered {
      assert forall i | 3 <= i < 7 :: words[i] == words[3..][i - 3] == CoveredWord(files, footer, memory, i);
    }
    if words[3] == TRX_VERSION << 16 && OffsetsIn(files, |files|, words) && LeftIn(|files|, memory, words) {
      forall i | 0 <= i < 4
        ensures words[3..][i] == covered[i]
      {
        if 1 <= i <= |files| {
          assert words[4 + (i - 1)] == ToWord(Offset(files, i - 1));
        }
      }
    }
  }

  // What `main` writes is that image, and nothing else is
  lemma BuiltIs(files: seq<seq<Byte>>, footer: seq<Byte>, memory: seq<Byte>, image: seq<Byte>, words: seq<Word>)
    requires Buildable(files, footer, memory)
    ensures Built(files, footer, memory, image, words)
      <==> image == ImageOf(files, footer, memory) && words == HeaderOf(files, footer, memory)
  {
    hide Content, Crc, Encode, RoundPage, Gap, Covered, LeftIn, OffsetsIn, ToWord;
    OffsetsFit(files, footer, memory);
    if |words| == 7 && image == Encode(false, words) + BodyOf(files, footer, memory) {
      CoveredPart(image, words, BodyOf(files, footer, memory));
      CoveredIs(files, footer, memory, words);
      assert words == [words[0], words[1], words[2]] + words[3..];
    }
  }

  // The words of the header are read back
  lemma HeaderWords(image: seq<Byte>, words: seq<Word>, body: seq<Byte>, i: nat)
    requires |words| == 7 && image == Encode(false, words) + body && i < 7
    ensures WordAt(false, image, i) == words[i]
  {
    var h := Encode(false, words);
    DecodeEncode(false, words);
    assert Decode(false, h)[i] == WordAt(false, h, i);
    hide Encode, WordOf;
  }

  // Two memories of ones and of zeros
  function Filling(n: nat, b: Byte): seq<Byte> {
    seq(n, _ => b)
  }

  ghost predicate Independent(files: seq<seq<Byte>>, footer: seq<Byte>, maxlen: nat) {
    forall memory, memory' | |memory| == maxlen && |memory'| == maxlen
      && Buildable(files, footer, memory) && Buildable(files, footer, memory') ::
      ImageOf(files, footer, memory) == ImageOf(files, footer, memory')
  }

  // The image does not depend on what was in memory exactly if there are three files, and no footer or
  // no gap before it
  lemma IndependentExactly(files: seq<seq<Byte>>, footer: seq<Byte>, maxlen: nat)
    requires Buildable(files, footer, Filling(maxlen, 0))
    ensures Independent(files, footer, maxlen)
      <==> |files| == 3 && (footer == [] || (Offset(files, |files|) + |footer|) % PAGE == 0)
  {
    hide Independent, Offset;
    if Independent(files, footer, maxlen) {
      DependsOn(files, footer, maxlen);
    } else if |files| == 3 && (footer == [] || (Offset(files, |files|) + |footer|) % PAGE == 0) {
      DependsOnNothing(files, footer, maxlen);
    }
  }

  lemma DependsOn(files: seq<seq<Byte>>, footer: seq<Byte>, maxlen: nat)
    requires Buildable(files, footer, Filling(maxlen, 0)) && Independent(files, footer, maxlen)
    ensures |files| == 3 && (footer == [] || (Offset(files, |files|) + |footer|) % PAGE == 0)
  {
    hide Offset, ImageOf, WordAt;
    var a, b := Filling(maxlen, 0), Filling(maxlen, 1);
    assert ImageOf(files, footer, a) == ImageOf(files, footer, b);
    LastOffset(files, footer, a);
    LastOffset(files, footer, b);
    FillingWord(maxlen, 0);
    FillingWord(maxlen, 1);
    if footer != [] && (Offset(files, |files|) + |footer|) % PAGE != 0 {
      GapInImage(files, footer, a);
      GapInImage(files, footer, b);
    }
  }

  lemma DependsOnNothing(files: seq<seq<Byte>>, footer: seq<Byte>, maxlen: nat)
    requires Buildable(files, footer, Filling(maxlen, 0))
    requires |files| == 3 && (footer == [] || (Offset(files, |files|) + |footer|) % PAGE == 0)
    ensures Independent(files, footer, maxlen)
  {
    hide Offset, Content, Crc, Encode, RoundPage, Gap, WordAt, ToWord;
    GapCleared(footer, Offset(files, |files|), maxlen);
    forall memory, memory' | |memory| == maxlen && |memory'| == maxlen
      && Buildable(files, footer, memory) && Buildable(files, footer, memory')
      ensures ImageOf(files, footer, memory) == ImageOf(files, footer, memory')
    {
      assert Covered(files, footer, memory) == Covered(files, footer, memory');
      assert BodyOf(files, footer, memory) == BodyOf(files, footer, memory');
    }
  }

  lemma FillingWord(n: nat, b: Byte)
    requires HEADER <= n && b in {0, 1}
    ensures WordAt(false, Filling(n, b), 6) == if b == 0 then 0 else 0x01010101
  {
    assert WordOf(false, 0, 0, 0, 0) == 0 && WordOf(false, 1, 1, 1, 1) == 0x01010101;
  }

  // The last word of the header shows what was in memory, unless there are three files
  lemma LastOffset(files: seq<seq<Byte>>, footer: seq<Byte>, memory: seq<Byte>)
    requires Buildable(files, footer, memory)
    ensures HEADER <= |memory| && HEADER <= |ImageOf(files, footer, memory)|
    ensures |files| < 3 ==> WordAt(false, ImageOf(files, footer, memory), 6) == WordAt(false, memory, 6)
  {
    hide Content, Crc, Encode, RoundPage, Gap, WordAt, BodyOf;
    OffsetsFit(files, footer, memory);
    HeaderWords(ImageOf(files, footer, memory), HeaderOf(files, footer, memory), BodyOf(files, footer, memory), 6);
  }

  // So does the first byte of the gap
  lemma GapInImage(files: seq<seq<Byte>>, footer: seq<Byte>, memory: seq<Byte>)
    requires Buildable(files, footer, memory)
    requires footer != [] && (Offset(files, |files|) + |footer|) % PAGE != 0
    ensures Offset(files, |files|) < |memory| && Offset(files, |files|) < |ImageOf(files, footer, memory)|
    ensures ImageOf(files, footer, memory)[Offset(files, |files|)] == memory[Offset(files, |files|)]
  {
    hide Content, Crc, Encode, RoundPage, Gap, WordAt, HeaderOf;
    var gap := Gap(memory, footer, Offset(files, |files|));
    GapShows(memory, footer, Offset(files, |files|));
    InTheMiddle(Encode(false, HeaderOf(files, footer, memory)), Content(files, |files|), gap, footer);
  }

  lemma InTheMiddle<T>(h: seq<T>, c: seq<T>, g: seq<T>, f: seq<T>)
    requires g != []
    ensures |h| + |c| < |h + (c + g + f)| && (h + (c + g + f))[|h| + |c|] == g[0]
  {
  }

  // One word as the only file, and no footer: the offsets of the files that are not there are ones
  lemma OneFileShows()
    ensures Buildable([[0, 0, 0, 0]], [], Filling(PAGE, 1))
    ensures WordAt(false, ImageOf([[0, 0, 0, 0]], [], Filling(PAGE, 1)), 6) == 0x01010101
  {
    assert Content([[0, 0, 0, 0]], 1) == [0, 0, 0, 0];
    LastOffset([[0, 0, 0, 0]], [], Filling(PAGE, 1));
    FillingWord(PAGE, 1);
  }
}
