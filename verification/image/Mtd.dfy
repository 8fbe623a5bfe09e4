/** Writing an image to flash (`mtd_write` of `rc/mtd.c`): header and checksum are checked first, in
    pieces of the erase size, then block after block is erased and written.
 */
module IMtd {
  import opened HWords
  import opened ICrc
  import opened ITrx

  // An MTD device that has just been opened. Erasing sets all bits of a block, writing can only
  // clear bits. Some blocks may be broken, and some take only so many bytes.
  class Device {
    const blocks: nat
    const erasesize: nat
    const broken: set<nat>
    const worn: map<nat, nat>
    const content: array<Byte>
    var pos: nat  // of the file descriptor

    ghost predicate Valid()
      reads this
    {
      erasesize > 0 && content.Length == blocks * erasesize && content.Length < TWO_32
    }

    // Of `n` bytes for the block at `start`
    function Taken(start: nat, n: nat): (k: nat)
      ensures k <= n
    {
      if start in worn && worn[start] < n then worn[start] else n
    }

    // ioctl MEMERASE
    method Erase(start: nat) returns (ok: bool)
      requires start + erasesize <= content.Length
      modifies content
      ensures ok <==> start !in broken
      ensures content[..] == if ok then Placed(old(content[..]), start, Erased(erasesize)) else old(content[..])
    {
      ok := start !in broken;
      if ok {
        forall i | start <= i < start + erasesize {
          content[i] := 0xFF;
        }
      }
    }

    // write: how many bytes are written, none when it fails
    method Write(data: seq<Byte>) returns (n: nat)
      requires pos + |data| <= content.Length
      modifies `pos, content
      ensures n == Taken(old(pos), |data|)
      ensures pos == old(pos) + n
      ensures content[..] == Placed(old(content[..]), old(pos), Cleared(old(content[pos..pos + n]), data[..n]))
    {
      n := Taken(pos, |data|);
      forall i | pos <= i < pos + n {
        content[i] := content[i] & data[i - pos];
      }
      pos := pos + n;
    }
  }

  function Erased(n: nat): seq<Byte> {
    seq(n, _ => 0xFF)
  }

  function Cleared(a: seq<Byte>, b: seq<Byte>): (r: seq<Byte>)
    requires |a| == |b|
    ensures |r| == |a|
  {
    seq(|a|, i requires 0 <= i < |a| => a[i] & b[i])
  }

  lemma AllSet(b: Byte)
    ensures 0xFF & b == b
  {
  }

  lemma WriteErased(data: seq<Byte>)
    ensures Cleared(Erased(|data|), data) == data
  {
    forall i | 0 <= i < |data|
      ensures Cleared(Erased(|data|), data)[i] == data[i]
    {
      AllSet(data[i]);
    }
  }

  datatype Status = Written | TooSmall | BadDevice | TooBig | BadHeader | BadCrc | Truncated | DeviceError

  predicate NoHeader(file: seq<Byte>)
    requires HEADER <= |file|
  {
    WordAt(false, file, 3) & 1 != 0  // TRX_NO_HEADER
  }

  // What goes to the device
  function Payload(file: seq<Byte>): seq<Byte>
    requires HEADER <= |file|
  {
    if NoHeader(file) then file[HEADER..] else file
  }

  predicate GoodHeader(file: seq<Byte>)
    requires HEADER <= |file| < TWO_32
  {
    WordAt(false, file, 0) == TRX_MAGIC && WordAt(false, file, 1) == ToWord(|file|)
  }

  predicate GoodCrc(file: seq<Byte>)
    requires HEADER <= |file|
  {
    Crc(INIT, file[12..]) == WordAt(false, file, 2)
  }

  // All the checks, before anything is written
  function Verdict(file: seq<Byte>, size: nat, erasesize: nat): Status
    requires size < TWO_32
  {
    if |file| < HEADER then TooSmall
    else if erasesize < HEADER then BadDevice
    else if |file| > size then TooBig
    else if !GoodHeader(file) then BadHeader
    else if !GoodCrc(file) then BadCrc
    else Written
  }

  // What is accepted, byte by byte: "HDR0", the length of the file and the checksum of what follows it
  // in little-endian order; a low bit set in byte 12 means that the header is not written
  lemma AcceptedExactly(file: seq<Byte>, size: nat, erasesize: nat)
    requires size < TWO_32
    ensures Verdict(file, size, erasesize) == Written <==>
      && HEADER <= |file| <= size && HEADER <= erasesize && file[..4] == [0x48, 0x44, 0x52, 0x30]
      && file[4..8] == BytesOf(false, ToWord(|file|)) && file[8..12] == BytesOf(false, Crc(INIT, file[12..]))
    ensures HEADER <= |file| ==> Payload(file) == if file[12] & 1 == 1 then file[HEADER..] else file
  {
    hide Crc, BytesOf, WordOf;
    if HEADER <= |file| {
      BytesWordAt(false, file[..4]);
      BytesWordAt(false, file[4..8]);
      BytesWordAt(false, file[8..12]);
      BytesWordAt(false, file[12..16]);
      Magic();
      LowestBit(file[12], file[13], file[14], file[15]);
      SameBytes(WordAt(false, file, 0), TRX_MAGIC);
      if |file| < TWO_32 {
        SameBytes(WordAt(false, file, 1), ToWord(|file|));
      }
      SameBytes(WordAt(false, file, 2), Crc(INIT, file[12..]));
    }
  }

  lemma Magic()
    ensures BytesOf(false, TRX_MAGIC) == [0x48, 0x44, 0x52, 0x30]
  {
  }

  lemma LowestBit(a: Byte, b: Byte, c: Byte, d: Byte)
    ensures WordOf(false, a, b, c, d) & 1 != 0 <==> a & 1 == 1
  {
  }

  lemma SameBytes(v: Word, w: Word)
    ensures v == w <==> BytesOf(false, v) == BytesOf(false, w)
  {
    hide BytesOf, WordOf;
    WordBytes(false, v);
    WordBytes(false, w);
  }

  // `safe_fread` at position `at`
  function Fread(file: seq<Byte>, at: nat, n: nat): (s: seq<Byte>)
    requires at <= |file|
    ensures |s| <= n
  {
    if at + n <= |file| then file[at..at + n] else file[at..]
  }

  // The first `done` bytes of `p`, set bits from there to `end`, and what was there behind it
  ghost predicate Flashed(before: seq<Byte>, after: seq<Byte>, p: seq<Byte>, done: nat, end: nat) {
    done <= |p| && done <= end <= |before| && after == p[..done] + Erased(end - done) + before[end..]
  }

  // A block could not be erased, or did not take all of its bytes
  ghost predicate Stopped(mtd: Device, size: nat, done: nat, end: nat) {
    || (end == done && done in mtd.broken)
    || (mtd.erasesize <= end && done < size && end - mtd.erasesize !in mtd.broken
        && end - mtd.erasesize in mtd.worn && done == end - mtd.erasesize + mtd.worn[end - mtd.erasesize])
  }

  method MtdWrite(file: seq<Byte>, mtd: Device) returns (status: Status, ghost done: nat, ghost end: nat)
    requires mtd.Valid() && mtd.pos == 0
    modifies mtd`pos, mtd.content
    ensures var verdict := Verdict(file, mtd.content.Length, mtd.erasesize);
      if !verdict.Written? then status == verdict && mtd.content[..] == old(mtd.content[..])
      else
        && Flashed(old(mtd.content[..]), mtd.content[..], Payload(file), done, end)
        && (if status.Written? then done == |Payload(file)| && end < done + mtd.erasesize
            else status.DeviceError? && done < |Payload(file)| && Stopped(mtd, |Payload(file)|, done, end))
  {
    hide Crc, WordOf, Flashed, Stopped;
    done, end := 0, 0;
    // examine the header
    var trx := Fread(file, 0, HEADER);
    if |trx| < HEADER {
      return TooSmall, 0, 0;
    }
    if mtd.erasesize < HEADER {
      return BadDevice, 0, 0;
    }
    if |file| > mtd.content.Length {
      return TooBig, 0, 0;
    }
    assert WordAt(false, trx, 0) == WordAt(false, file, 0) && WordAt(false, trx, 1) == WordAt(false, file, 1);
    assert WordAt(false, trx, 2) == WordAt(false, file, 2) && WordAt(false, trx, 3) == WordAt(false, file, 3);
    if WordAt(false, trx, 0) != TRX_MAGIC || WordAt(false, trx, 1) != ToWord(|file|) {
      return BadHeader, 0, 0;
    }
    var crc := ChecksumInPieces(file, trx, mtd.erasesize);
    if crc != WordAt(false, trx, 2) {
      return BadCrc, 0, 0;
    }
    var fpos := if WordAt(false, trx, 3) & 1 != 0 then HEADER else 0;
    assert file[fpos..] == Payload(file);
    status, done, end := WriteBlocks(file, fpos, mtd);
  }

  // The checksum of the file from flag_version on, read in pieces of the erase size
  method ChecksumInPieces(file: seq<Byte>, trx: seq<Byte>, erasesize: nat) returns (crc: Word)
    requires |trx| == HEADER <= |file| && trx == file[..HEADER] && erasesize > 0
    ensures crc == Crc(INIT, file[12..])
  {
    hide Crc;
    crc := Crc32(INIT, trx[12..]);
    var pos := HEADER;
    assert file[12..pos] == trx[12..];
    while pos < |file|
      invariant HEADER <= pos <= |file| && crc == Crc(INIT, file[12..pos])
    {
      var len := if erasesize < |file| - pos then erasesize else |file| - pos;
      var buf := Fread(file, pos, len);
      CrcConcat(INIT, file[12..pos], buf);
      assert file[12..pos] + buf == file[12..pos + len];
      crc := Crc32(crc, buf);
      pos := pos + len;
    }
    assert file[12..pos] == file[12..];
  }

  method WriteBlocks(file: seq<Byte>, fpos: nat, mtd: Device) returns (status: Status, ghost done: nat, ghost end: nat)
    requires mtd.Valid() && mtd.pos == 0 && fpos <= |file| && |file| <= mtd.content.Length
    modifies mtd`pos, mtd.content
    ensures Flashed(old(mtd.content[..]), mtd.content[..], file[fpos..], done, end)
    ensures if status.Written? then done == |file| - fpos && end < done + mtd.erasesize
      else status.DeviceError? && done < |file| - fpos && Stopped(mtd, |file| - fpos, done, end)
  {
    hide Flashed, Stopped;
    ghost var p, before := file[fpos..], mtd.content[..];
    var start, at, size := 0, fpos, |file| - fpos;
    done, end := 0, 0;
    ghost var q := 0;
    NothingFlashed(before, p);
    while start < size
      invariant start <= |p| && at == fpos + start && mtd.pos == start
      invariant Flashed(before, mtd.content[..], p, start, end)
      invariant end == q * mtd.erasesize && start <= end < start + mtd.erasesize && (start < |p| ==> end == start)
      decreases size - start
    {
      var len := if mtd.erasesize < size - start then mtd.erasesize else size - start;
      var buf := Fread(file, at, len);
      if |buf| != len {
        return Truncated, done, end;
      }
      BlockInside(q, mtd.blocks, mtd.erasesize, start);
      assert buf == p[start..start + len];
      var ok;
      ok, done, end := OneBlock(mtd, start, buf, before, p);
      if !ok {
        return DeviceError, done, end;
      }
      at, start, q := at + len, start + len, q + 1;
    }
    status, done := Written, start;
  }

  lemma NothingFlashed(before: seq<Byte>, p: seq<Byte>)
    ensures Flashed(before, before, p, 0, 0)
  {
  }

  lemma MulLess(a: nat, b: nat, c: nat)
    requires a < b
    ensures (a + 1) * c == a * c + c && (a + 1) * c <= b * c
  {
    assert b * c == (a + 1) * c + (b - a - 1) * c;
  }

  lemma MulAtMost(a: nat, b: nat, c: nat)
    requires a <= b
    ensures a * c <= b * c
  {
    if a < b {
      MulLess(a, b, c);
    }
  }

  // A block that starts inside the device ends inside
  lemma BlockInside(q: nat, blocks: nat, erasesize: nat, start: nat)
    requires start == q * erasesize < blocks * erasesize
    ensures start + erasesize == (q + 1) * erasesize <= blocks * erasesize
  {
    if q < blocks {
      MulLess(q, blocks, erasesize);
    } else {
      MulAtMost(blocks, q, erasesize);
      assert false;
    }
  }

  method OneBlock(mtd: Device, start: nat, buf: seq<Byte>, ghost before: seq<Byte>, ghost p: seq<Byte>)
    returns (ok: bool, ghost done: nat, ghost end: nat)
    requires mtd.Valid() && mtd.pos == start && start + mtd.erasesize <= mtd.content.Length
    requires |buf| <= mtd.erasesize && start < start + |buf| <= |p| && buf == p[start..start + |buf|]
    requires Flashed(before, mtd.content[..], p, start, start)
    modifies mtd`pos, mtd.content
    ensures ok <==> start !in mtd.broken && mtd.Taken(start, |buf|) == |buf|
    ensures if ok then mtd.pos == done == start + |buf| && end == start + mtd.erasesize
      else done < start + |buf| && Stopped(mtd, |p|, done, end)
    ensures Flashed(before, mtd.content[..], p, done, end)
  {
    hide Flashed, Cleared, Placed;
    ghost var c := mtd.content[..];
    ok := mtd.Erase(start);
    done, end := start, start;
    if !ok {
      return;
    }
    var n := mtd.Write(buf);
    WriteInErased(c, start, mtd.erasesize, buf[..n]);
    BlockFlashed(before, c, p, start, buf[..n], mtd.erasesize);
    ok, done, end := n == |buf|, start + n, start + mtd.erasesize;
  }

  lemma WriteInErased(c: seq<Byte>, start: nat, erasesize: nat, buf: seq<Byte>)
    requires |buf| <= erasesize && start + erasesize <= |c|
    ensures Cleared(Placed(c, start, Erased(erasesize))[start..start + |buf|], buf) == buf
  {
    hide Cleared;
    WriteErased(buf);
    assert Placed(c, start, Erased(erasesize))[start..start + |buf|] == Erased(|buf|);
  }

  lemma BlockFlashed(before: seq<Byte>, c: seq<Byte>, p: seq<Byte>, start: nat, buf: seq<Byte>, erasesize: nat)
    requires Flashed(before, c, p, start, start) && start + erasesize <= |c|
    requires |buf| <= erasesize && start + |buf| <= |p| && buf == p[start..start + |buf|]
    ensures Flashed(before, Placed(Placed(c, start, Erased(erasesize)), start, buf), p, start + |buf|,
      start + erasesize)
  {
    var after := Placed(Placed(c, start, Erased(erasesize)), start, buf);
    assert c == p[..start] + before[start..];
    assert after == p[..start] + buf + Erased(erasesize - |buf|) + before[start + erasesize..];
    assert p[..start] + buf == p[..start + |buf|];
  }
}
