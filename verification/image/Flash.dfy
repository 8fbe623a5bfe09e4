/** From files to flash: what `asustrx` builds passes the checks of `mtd_write`, and damage does not.
 */
module IFlash {
  import opened HWords
  import opened ICrc
  import opened ITrx
  import opened IMtd

  // For every device it fits and every erase size that can hold a header
  lemma BuiltAccepted(files: seq<seq<Byte>>, footer: seq<Byte>, memory: seq<Byte>, image: seq<Byte>, words: seq<Word>,
    size: nat, erasesize: nat)
    requires Built(files, footer, memory, image, words)
    requires HEADER <= erasesize && |image| <= size < TWO_32
    ensures Verdict(image, size, erasesize) == Written
    ensures Payload(image) == image
  {
    var body := Content(files, |files|) + Gap(memory, footer, Offset(files, |files|)) + footer;
    forall i | 0 <= i < 4
      ensures WordAt(false, image, i) == words[i]
    {
      HeaderWords(image, words, body, i);
    }
    hide Encode, Content, Crc, WordOf, Gap;
    VersionHasNoFlag();
  }

  lemma VersionHasNoFlag()
    ensures (TRX_VERSION << 16) & 1 == 0
  {
  }

  // Any change to four bytes in a row behind the checksum makes the image unacceptable
  lemma DamageRejected(image: seq<Byte>, damaged: seq<Byte>, at: nat, x: seq<Byte>, size: nat, erasesize: nat)
    requires HEADER <= |image| < TWO_32 && GoodCrc(image) && size < TWO_32
    requires 12 <= at && |x| <= 4 && at + |x| <= |image|
    requires damaged == Placed(image, at, x) && damaged != image
    ensures Verdict(damaged, size, erasesize) != Written
  {
    if Verdict(damaged, size, erasesize) == Written {
      var a, b := image[12..at], image[at + |x|..];
      var y := image[at..at + |x|];
      assert image[12..] == a + y + b && damaged[12..] == a + x + b;
      assert WordAt(false, damaged, 2) == WordAt(false, image, 2) by {
        hide Crc;
      }
      hide WordAt, Crc;
      BurstDetected(INIT, a, x, y, b);
      assert false;
    }
  }

  // Build and flash: whenever there is an image, and unless a block is broken, the device begins with it
  method BuildAndFlash(files: seq<seq<Byte>>, footer: seq<Byte>, memory: seq<Byte>, mtd: Device)
    returns (outcome: Outcome, image: seq<Byte>, status: Status, ghost words: seq<Word>)
    requires 0 < |memory| < TWO_32 && |memory| % PAGE == 0 && |footer| in {0, FOOTER}
    requires mtd.Valid() && mtd.pos == 0 && HEADER <= mtd.erasesize && |memory| <= mtd.content.Length
    requires mtd.broken == {} && mtd.worn == map[]
    modifies mtd`pos, mtd.content
    ensures outcome.Done? <==> Fit(files, |memory|) && Offset(files, |files|) + |footer| <= |memory|
    ensures if outcome.Done? then
        && Built(files, footer, memory, image, words) && status.Written?
        && |image| <= mtd.content.Length && mtd.content[..|image|] == image
      else mtd.content[..] == old(mtd.content[..])
  {
    hide Built, Fit, Content, Verdict, Payload;
    status := Written;
    outcome, image, words := Build(files, footer, memory);
    if outcome.Done? {
      BuiltFits(files, footer, memory, image, words);
      BuiltAccepted(files, footer, memory, image, words, mtd.content.Length, mtd.erasesize);
      ghost var done, end;
      status, done, end := MtdWrite(image, mtd);
      assert mtd.content[..|image|] == image;
    }
  }

  lemma BuiltFits(files: seq<seq<Byte>>, footer: seq<Byte>, memory: seq<Byte>, image: seq<Byte>, words: seq<Word>)
    requires Built(files, footer, memory, image, words) && |memory| % PAGE == 0
    ensures |image| <= |memory|
  {
    RoundedFits(Offset(files, |files|) + |footer|, |memory|);
    hide Content;
  }
}
