/** The published examples of both hashes, appendix A of FIPS 180-1 and section A.5 of RFC 1321: the
    message "abc", word by word and step by step.
 */
module HAbcSha1 {
  import opened HWords
  import opened HSha1

  // The one block of the padded message
  function Block(): (m: seq<Word>)
    ensures |m| == 16
  {
    [0x61626380, 0, 0, 0, 0, 0, 0, 0, 0, 0, 0, 0, 0, 0, 0, 0x18]
  }

  function Start(): Regs {
    Regs(0x67452301, 0xEFCDAB89, 0x98BADCFE, 0x10325476, 0xC3D2E1F0)
  }

  // A word of the schedule
  ghost predicate WordIs(t: nat, w: Word) {
    forall m | m == Block() :: W(m, t) == w
  }

  lemma Given(t: nat)
    requires t < 16
    ensures WordIs(t, Block()[t])
  {
    hide Block;
  }

  lemma Words0()
    ensures WordIs(0, 0x61626380) && WordIs(1, 0) && WordIs(2, 0) && WordIs(3, 0)
    ensures WordIs(4, 0) && WordIs(5, 0) && WordIs(6, 0) && WordIs(7, 0)
    ensures WordIs(8, 0) && WordIs(9, 0) && WordIs(10, 0) && WordIs(11, 0)
    ensures WordIs(12, 0) && WordIs(13, 0) && WordIs(14, 0) && WordIs(15, 0x00000018)
  {
    hide W, WordIs;
    Given(0); Given(1); Given(2); Given(3); Given(4); Given(5); Given(6); Given(7);
    Given(8); Given(9); Given(10); Given(11); Given(12); Given(13); Given(14); Given(15);
  }

  // One more word of the schedule
  lemma Word(t: nat, a: Word, b: Word, c: Word, d: Word, w: Word)
    requires 16 <= t && WordIs(t - 3, a) && WordIs(t - 8, b) && WordIs(t - 14, c) && WordIs(t - 16, d)
    requires Mix(a, b, c, d) == w
    ensures WordIs(t, w)
  {
    hide Mix, Block;
    var m := Block();
    assert W(m, t) == Mix(W(m, t - 3), W(m, t - 8), W(m, t - 14), W(m, t - 16));
  }

  lemma Words16()
    ensures WordIs(16, 0xC2C4C700) && WordIs(17, 0x00000000) && WordIs(18, 0x00000030) && WordIs(19, 0x85898E01)
    ensures WordIs(20, 0x00000000) && WordIs(21, 0x00000060) && WordIs(22, 0x0B131C03) && WordIs(23, 0x00000030)
    ensures WordIs(24, 0x85898EC1) && WordIs(25, 0x16263806) && WordIs(26, 0x00000000) && WordIs(27, 0x00000180)
    ensures WordIs(28, 0x2C4C700C) && WordIs(29, 0x000000F0) && WordIs(30, 0x93AFB507) && WordIs(31, 0x5898E048)
  {
    hide WordIs;
    Words0();
    Word(16, 0x00000000, 0x00000000, 0x00000000, 0x61626380, 0xC2C4C700);
    Word(17, 0x00000000, 0x00000000, 0x00000000, 0x00000000, 0x00000000);
    Word(18, 0x00000018, 0x00000000, 0x00000000, 0x00000000, 0x00000030);
    Word(19, 0xC2C4C700, 0x00000000, 0x00000000, 0x00000000, 0x85898E01);
    Word(20, 0x00000000, 0x00000000, 0x00000000, 0x00000000, 0x00000000);
    Word(21, 0x00000030, 0x00000000, 0x00000000, 0x00000000, 0x00000060);
    Word(22, 0x85898E01, 0x00000000, 0x00000000, 0x00000000, 0x0B131C03);
    Word(23, 0x00000000, 0x00000018, 0x00000000, 0x00000000, 0x00000030);
    Word(24, 0x00000060, 0xC2C4C700, 0x00000000, 0x00000000, 0x85898EC1);
    Word(25, 0x0B131C03, 0x00000000, 0x00000000, 0x00000000, 0x16263806);
    Word(26, 0x00000030, 0x00000030, 0x00000000, 0x00000000, 0x00000000);
    Word(27, 0x85898EC1, 0x85898E01, 0x00000000, 0x00000000, 0x00000180);
    Word(28, 0x16263806, 0x00000000, 0x00000000, 0x00000000, 0x2C4C700C);
    Word(29, 0x00000000, 0x00000060, 0x00000018, 0x00000000, 0x000000F0);
    Word(30, 0x00000180, 0x0B131C03, 0xC2C4C700, 0x00000000, 0x93AFB507);
    Word(31, 0x2C4C700C, 0x00000030, 0x00000000, 0x00000018, 0x5898E048);
  }

  lemma Words32()
    ensures WordIs(32, 0x8E9A9202) && WordIs(33, 0x00000600) && WordIs(34, 0xB131C0F0) && WordIs(35, 0x16263BC6)
    ensures WordIs(36, 0x4EBED41E) && WordIs(37, 0x626380A1) && WordIs(38, 0x16263806) && WordIs(39, 0x000018C0)
    ensures WordIs(40, 0xD2E138C4) && WordIs(41, 0x00000F00) && WordIs(42, 0x3AFB5079) && WordIs(43, 0x898E04E5)
    ensures WordIs(44, 0xE2BA3C2B) && WordIs(45, 0x000060C0) && WordIs(46, 0x053A37CD) && WordIs(47, 0x74458547)
  {
    hide WordIs;
    Words16();
    Word(32, 0x000000F0, 0x85898EC1, 0x00000030, 0xC2C4C700, 0x8E9A9202);
    Word(33, 0x93AFB507, 0x16263806, 0x85898E01, 0x00000000, 0x00000600);
    Word(34, 0x5898E048, 0x00000000, 0x00000000, 0x00000030, 0xB131C0F0);
    Word(35, 0x8E9A9202, 0x00000180, 0x00000060, 0x85898E01, 0x16263BC6);
    Word(36, 0x00000600, 0x2C4C700C, 0x0B131C03, 0x00000000, 0x4EBED41E);
    Word(37, 0xB131C0F0, 0x000000F0, 0x00000030, 0x00000060, 0x626380A1);
    Word(38, 0x16263BC6, 0x93AFB507, 0x85898EC1, 0x0B131C03, 0x16263806);
    Word(39, 0x4EBED41E, 0x5898E048, 0x16263806, 0x00000030, 0x000018C0);
    Word(40, 0x626380A1, 0x8E9A9202, 0x00000000, 0x85898EC1, 0xD2E138C4);
    Word(41, 0x16263806, 0x00000600, 0x00000180, 0x16263806, 0x00000F00);
    Word(42, 0x000018C0, 0xB131C0F0, 0x2C4C700C, 0x00000000, 0x3AFB5079);
    Word(43, 0xD2E138C4, 0x16263BC6, 0x000000F0, 0x00000180, 0x898E04E5);
    Word(44, 0x00000F00, 0x4EBED41E, 0x93AFB507, 0x2C4C700C, 0xE2BA3C2B);
    Word(45, 0x3AFB5079, 0x626380A1, 0x5898E048, 0x000000F0, 0x000060C0);
    Word(46, 0x898E04E5, 0x16263806, 0x8E9A9202, 0x93AFB507, 0x053A37CD);
    Word(47, 0xE2BA3C2B, 0x000018C0, 0x00000600, 0x5898E048, 0x74458547);
  }

  lemma Words48()
    ensures WordIs(48, 0xDA9415ED) && WordIs(49, 0x26380A16) && WordIs(50, 0x626383A1) && WordIs(51, 0x4EBF54DE)
    ensures WordIs(52, 0x3835B44B) && WordIs(53, 0x0000F600) && WordIs(54, 0x1E84C7A3) && WordIs(55, 0x98E04D98)
    ensures WordIs(56, 0x651D16A0) && WordIs(57, 0x62658CA1) && WordIs(58, 0x458544D6) && WordIs(59, 0x44584CB7)
    ensures WordIs(60, 0x7BA06619) && WordIs(61, 0x6380AEA2) && WordIs(62, 0x0AE55269) && WordIs(63, 0x627B49A1)
  {
    hide WordIs;
    Words32();
    Word(48, 0x000060C0, 0xD2E138C4, 0xB131C0F0, 0x8E9A9202, 0xDA9415ED);
    Word(49, 0x053A37CD, 0x00000F00, 0x16263BC6, 0x00000600, 0x26380A16);
    Word(50, 0x74458547, 0x3AFB5079, 0x4EBED41E, 0xB131C0F0, 0x626383A1);
    Word(51, 0xDA9415ED, 0x898E04E5, 0x626380A1, 0x16263BC6, 0x4EBF54DE);
    Word(52, 0x26380A16, 0xE2BA3C2B, 0x16263806, 0x4EBED41E, 0x3835B44B);
    Word(53, 0x626383A1, 0x000060C0, 0x000018C0, 0x626380A1, 0x0000F600);
    Word(54, 0x4EBF54DE, 0x053A37CD, 0xD2E138C4, 0x16263806, 0x1E84C7A3);
    Word(55, 0x3835B44B, 0x74458547, 0x00000F00, 0x000018C0, 0x98E04D98);
    Word(56, 0x0000F600, 0xDA9415ED, 0x3AFB5079, 0xD2E138C4, 0x651D16A0);
    Word(57, 0x1E84C7A3, 0x26380A16, 0x898E04E5, 0x00000F00, 0x62658CA1);
    Word(58, 0x98E04D98, 0x626383A1, 0xE2BA3C2B, 0x3AFB5079, 0x458544D6);
    Word(59, 0x651D16A0, 0x4EBF54DE, 0x000060C0, 0x898E04E5, 0x44584CB7);
    Word(60, 0x62658CA1, 0x3835B44B, 0x053A37CD, 0xE2BA3C2B, 0x7BA06619);
    Word(61, 0x458544D6, 0x0000F600, 0x74458547, 0x000060C0, 0x6380AEA2);
    Word(62, 0x44584CB7, 0x1E84C7A3, 0xDA9415ED, 0x053A37CD, 0x0AE55269);
    Word(63, 0x7BA06619, 0x98E04D98, 0x26380A16, 0x74458547, 0x627B49A1);
  }

  lemma Words64()
    ensures WordIs(64, 0x7CD45C9D) && WordIs(65, 0x000F0000) && WordIs(66, 0xFB50753A) && WordIs(67, 0xEC6765E8)
    ensures WordIs(68, 0xBA3C2BE2) && WordIs(69, 0x0060C000) && WordIs(70, 0x3A37CD05) && WordIs(71, 0x458546F4)
    ensures WordIs(72, 0xB8599DD6) && WordIs(73, 0x380A1A26) && WordIs(74, 0x01E02203) && WordIs(75, 0xE7CC3456)
    ensures WordIs(76, 0xE6E60B69) && WordIs(77, 0x00F60A00) && WordIs(78, 0x5795EF4F) && WordIs(79, 0x822E0879)
  {
    hide WordIs;
    Words48();
    Word(64, 0x6380AEA2, 0x651D16A0, 0x626383A1, 0xDA9415ED, 0x7CD45C9D);
    Word(65, 0x0AE55269, 0x62658CA1, 0x4EBF54DE, 0x26380A16, 0x000F0000);
    Word(66, 0x627B49A1, 0x458544D6, 0x3835B44B, 0x626383A1, 0xFB50753A);
    Word(67, 0x7CD45C9D, 0x44584CB7, 0x0000F600, 0x4EBF54DE, 0xEC6765E8);
    Word(68, 0x000F0000, 0x7BA06619, 0x1E84C7A3, 0x3835B44B, 0xBA3C2BE2);
    Word(69, 0xFB50753A, 0x6380AEA2, 0x98E04D98, 0x0000F600, 0x0060C000);
    Word(70, 0xEC6765E8, 0x0AE55269, 0x651D16A0, 0x1E84C7A3, 0x3A37CD05);
    Word(71, 0xBA3C2BE2, 0x627B49A1, 0x62658CA1, 0x98E04D98, 0x458546F4);
    Word(72, 0x0060C000, 0x7CD45C9D, 0x458544D6, 0x651D16A0, 0xB8599DD6);
    Word(73, 0x3A37CD05, 0x000F0000, 0x44584CB7, 0x62658CA1, 0x380A1A26);
    Word(74, 0x458546F4, 0xFB50753A, 0x7BA06619, 0x458544D6, 0x01E02203);
    Word(75, 0xB8599DD6, 0xEC6765E8, 0x6380AEA2, 0x44584CB7, 0xE7CC3456);
    Word(76, 0x380A1A26, 0xBA3C2BE2, 0x0AE55269, 0x7BA06619, 0xE6E60B69);
    Word(77, 0x01E02203, 0x0060C000, 0x627B49A1, 0x6380AEA2, 0x00F60A00);
    Word(78, 0xE7CC3456, 0x3A37CD05, 0x7CD45C9D, 0x0AE55269, 0x5795EF4F);
    Word(79, 0xE6E60B69, 0x458546F4, 0x000F0000, 0x627B49A1, 0x822E0879);
  }

  // One more step
  lemma OneStep(t: nat, a: Word, b: Word, c: Word, d: Word, e: Word, w: Word, next: Word)
    requires Steps(Block(), Start(), t) == Regs(a, b, c, d, e) && WordIs(t, w)
    requires Temp(t, a, b, c, d, e, w) == next
    ensures Steps(Block(), Start(), t + 1) == Regs(next, a, Rol(b, 30), c, d)
  {
    hide Temp, W, Block, Start;
  }

  lemma Steps0()
    ensures Steps(Block(), Start(), 0) == Regs(0x67452301, 0xEFCDAB89, 0x98BADCFE, 0x10325476, 0xC3D2E1F0)
  {
  }

  lemma Steps16()
    ensures Steps(Block(), Start(), 16) == Regs(0x20BDD62F, 0x196BEE77, 0x644A3DA5, 0x1181ED99, 0x18C623F9)
  {
    hide WordIs, Steps;
    Steps0();
    Words0();
    OneStep(0, 0x67452301, 0xEFCDAB89, 0x98BADCFE, 0x10325476, 0xC3D2E1F0, 0x61626380, 0x0116FC33);
    OneStep(1, 0x0116FC33, 0x67452301, 0x7BF36AE2, 0x98BADCFE, 0x10325476, 0x00000000, 0x8990536D);
    OneStep(2, 0x8990536D, 0x0116FC33, 0x59D148C0, 0x7BF36AE2, 0x98BADCFE, 0x00000000, 0xA1390F08);
    OneStep(3, 0xA1390F08, 0x8990536D, 0xC045BF0C, 0x59D148C0, 0x7BF36AE2, 0x00000000, 0xCDD8E11B);
    OneStep(4, 0xCDD8E11B, 0xA1390F08, 0x626414DB, 0xC045BF0C, 0x59D148C0, 0x00000000, 0xCFD499DE);
    OneStep(5, 0xCFD499DE, 0xCDD8E11B, 0x284E43C2, 0x626414DB, 0xC045BF0C, 0x00000000, 0x3FC7CA40);
    OneStep(6, 0x3FC7CA40, 0xCFD499DE, 0xF3763846, 0x284E43C2, 0x626414DB, 0x00000000, 0x993E30C1);
    OneStep(7, 0x993E30C1, 0x3FC7CA40, 0xB3F52677, 0xF3763846, 0x284E43C2, 0x00000000, 0x9E8C07D4);
    OneStep(8, 0x9E8C07D4, 0x993E30C1, 0x0FF1F290, 0xB3F52677, 0xF3763846, 0x00000000, 0x4B6AE328);
    OneStep(9, 0x4B6AE328, 0x9E8C07D4, 0x664F8C30, 0x0FF1F290, 0xB3F52677, 0x00000000, 0x8351F929);
    OneStep(10, 0x8351F929, 0x4B6AE328, 0x27A301F5, 0x664F8C30, 0x0FF1F290, 0x00000000, 0xFBDA9E89);
    OneStep(11, 0xFBDA9E89, 0x8351F929, 0x12DAB8CA, 0x27A301F5, 0x664F8C30, 0x00000000, 0x63188FE4);
    OneStep(12, 0x63188FE4, 0xFBDA9E89, 0x60D47E4A, 0x12DAB8CA, 0x27A301F5, 0x00000000, 0x4607B664);
    OneStep(13, 0x4607B664, 0x63188FE4, 0x7EF6A7A2, 0x60D47E4A, 0x12DAB8CA, 0x00000000, 0x9128F695);
    OneStep(14, 0x9128F695, 0x4607B664, 0x18C623F9, 0x7EF6A7A2, 0x60D47E4A, 0x00000000, 0x196BEE77);
    OneStep(15, 0x196BEE77, 0x9128F695, 0x1181ED99, 0x18C623F9, 0x7EF6A7A2, 0x00000018, 0x20BDD62F);
  }

  lemma Steps32()
    ensures Steps(Block(), Start(), 32) == Regs(0x3B845D33, 0x1267B407, 0x717EEBD7, 0xA0DC2D4B, 0xD2AA1365)
  {
    hide WordIs, Steps;
    Steps16();
    Words16();
    OneStep(16, 0x20BDD62F, 0x196BEE77, 0x644A3DA5, 0x1181ED99, 0x18C623F9, 0xC2C4C700, 0x4E925823);
    OneStep(17, 0x4E925823, 0x20BDD62F, 0xC65AFB9D, 0x644A3DA5, 0x1181ED99, 0x00000000, 0x82AA6728);
    OneStep(18, 0x82AA6728, 0x4E925823, 0xC82F758B, 0xC65AFB9D, 0x644A3DA5, 0x00000030, 0xDC64901D);
    OneStep(19, 0xDC64901D, 0x82AA6728, 0xD3A49608, 0xC82F758B, 0xC65AFB9D, 0x85898E01, 0xFD9E1D7D);
    OneStep(20, 0xFD9E1D7D, 0xDC64901D, 0x20AA99CA, 0xD3A49608, 0xC82F758B, 0x00000000, 0x1A37B0CA);
    OneStep(21, 0x1A37B0CA, 0xFD9E1D7D, 0x77192407, 0x20AA99CA, 0xD3A49608, 0x00000060, 0x33A23BFC);
    OneStep(22, 0x33A23BFC, 0x1A37B0CA, 0x7F67875F, 0x77192407, 0x20AA99CA, 0x0B131C03, 0x21283486);
    OneStep(23, 0x21283486, 0x33A23BFC, 0x868DEC32, 0x7F67875F, 0x77192407, 0x00000030, 0xD541F12D);
    OneStep(24, 0xD541F12D, 0x21283486, 0x0CE88EFF, 0x868DEC32, 0x7F67875F, 0x85898EC1, 0xC7567DC6);
    OneStep(25, 0xC7567DC6, 0xD541F12D, 0x884A0D21, 0x0CE88EFF, 0x868DEC32, 0x16263806, 0x48413BA4);
    OneStep(26, 0x48413BA4, 0xC7567DC6, 0x75507C4B, 0x884A0D21, 0x0CE88EFF, 0x00000000, 0xBE35FBD5);
    OneStep(27, 0xBE35FBD5, 0x48413BA4, 0xB1D59F71, 0x75507C4B, 0x884A0D21, 0x00000180, 0x4AA84D97);
    OneStep(28, 0x4AA84D97, 0xBE35FBD5, 0x12104EE9, 0xB1D59F71, 0x75507C4B, 0x2C4C700C, 0x8370B52E);
    OneStep(29, 0x8370B52E, 0x4AA84D97, 0x6F8D7EF5, 0x12104EE9, 0xB1D59F71, 0x000000F0, 0xC5FBAF5D);
    OneStep(30, 0xC5FBAF5D, 0x8370B52E, 0xD2AA1365, 0x6F8D7EF5, 0x12104EE9, 0x93AFB507, 0x1267B407);
    OneStep(31, 0x1267B407, 0xC5FBAF5D, 0xA0DC2D4B, 0xD2AA1365, 0x6F8D7EF5, 0x5898E048, 0x3B845D33);
  }

  lemma Steps48()
    ensures Steps(Block(), Start(), 48) == Regs(0xBEAD02CA, 0xA01B846C, 0x8714787C, 0x503CA382, 0xFB86C6AB)
  {
    hide WordIs, Steps;
    Steps32();
    Words32();
    OneStep(32, 0x3B845D33, 0x1267B407, 0x717EEBD7, 0xA0DC2D4B, 0xD2AA1365, 0x8E9A9202, 0x046FAA0A);
    OneStep(33, 0x046FAA0A, 0x3B845D33, 0xC499ED01, 0x717EEBD7, 0xA0DC2D4B, 0x00000600, 0x2C0EBC11);
    OneStep(34, 0x2C0EBC11, 0x046FAA0A, 0xCEE1174C, 0xC499ED01, 0x717EEBD7, 0xB131C0F0, 0x21796AD4);
    OneStep(35, 0x21796AD4, 0x2C0EBC11, 0x811BEA82, 0xCEE1174C, 0xC499ED01, 0x16263BC6, 0xDCBBB0CB);
    OneStep(36, 0xDCBBB0CB, 0x21796AD4, 0x4B03AF04, 0x811BEA82, 0xCEE1174C, 0x4EBED41E, 0x0F511FD8);
    OneStep(37, 0x0F511FD8, 0xDCBBB0CB, 0x085E5AB5, 0x4B03AF04, 0x811BEA82, 0x626380A1, 0xDC63973F);
    OneStep(38, 0xDC63973F, 0x0F511FD8, 0xF72EEC32, 0x085E5AB5, 0x4B03AF04, 0x16263806, 0x4C986405);
    OneStep(39, 0x4C986405, 0xDC63973F, 0x03D447F6, 0xF72EEC32, 0x085E5AB5, 0x000018C0, 0x32DE1CBA);
    OneStep(40, 0x32DE1CBA, 0x4C986405, 0xF718E5CF, 0x03D447F6, 0xF72EEC32, 0xD2E138C4, 0xFC87DEDF);
    OneStep(41, 0xFC87DEDF, 0x32DE1CBA, 0x53261901, 0xF718E5CF, 0x03D447F6, 0x00000F00, 0x970A0D5C);
    OneStep(42, 0x970A0D5C, 0xFC87DEDF, 0x8CB7872E, 0x53261901, 0xF718E5CF, 0x3AFB5079, 0x7F193DC5);
    OneStep(43, 0x7F193DC5, 0x970A0D5C, 0xFF21F7B7, 0x8CB7872E, 0x53261901, 0x898E04E5, 0xEE1B1AAF);
    OneStep(44, 0xEE1B1AAF, 0x7F193DC5, 0x25C28357, 0xFF21F7B7, 0x8CB7872E, 0xE2BA3C2B, 0x40F28E09);
    OneStep(45, 0x40F28E09, 0xEE1B1AAF, 0x5FC64F71, 0x25C28357, 0xFF21F7B7, 0x000060C0, 0x1C51E1F2);
    OneStep(46, 0x1C51E1F2, 0x40F28E09, 0xFB86C6AB, 0x5FC64F71, 0x25C28357, 0x053A37CD, 0xA01B846C);
    OneStep(47, 0xA01B846C, 0x1C51E1F2, 0x503CA382, 0xFB86C6AB, 0x5FC64F71, 0x74458547, 0xBEAD02CA);
  }

  lemma Steps64()
    ensures Steps(Block(), Start(), 64) == Regs(0x6B61C9E1, 0xB66C020B, 0x9523272C, 0xF5D5B051, 0x8FD4B796)
  {
    hide WordIs, Steps;
    Steps48();
    Words48();
    OneStep(48, 0xBEAD02CA, 0xA01B846C, 0x8714787C, 0x503CA382, 0xFB86C6AB, 0xDA9415ED, 0xBAF39337);
    OneStep(49, 0xBAF39337, 0xBEAD02CA, 0x2806E11B, 0x8714787C, 0x503CA382, 0x26380A16, 0x120731C5);
    OneStep(50, 0x120731C5, 0xBAF39337, 0xAFAB40B2, 0x2806E11B, 0x8714787C, 0x626383A1, 0x641DB2CE);
    OneStep(51, 0x641DB2CE, 0x120731C5, 0xEEBCE4CD, 0xAFAB40B2, 0x2806E11B, 0x4EBF54DE, 0x3847AD66);
    OneStep(52, 0x3847AD66, 0x641DB2CE, 0x4481CC71, 0xEEBCE4CD, 0xAFAB40B2, 0x3835B44B, 0xE490436D);
    OneStep(53, 0xE490436D, 0x3847AD66, 0x99076CB3, 0x4481CC71, 0xEEBCE4CD, 0x0000F600, 0x27E9F1D8);
    OneStep(54, 0x27E9F1D8, 0xE490436D, 0x8E11EB59, 0x99076CB3, 0x4481CC71, 0x1E84C7A3, 0x7B71F76D);
    OneStep(55, 0x7B71F76D, 0x27E9F1D8, 0x792410DB, 0x8E11EB59, 0x99076CB3, 0x98E04D98, 0x5E6456AF);
    OneStep(56, 0x5E6456AF, 0x7B71F76D, 0x09FA7C76, 0x792410DB, 0x8E11EB59, 0x651D16A0, 0xC846093F);
    OneStep(57, 0xC846093F, 0x5E6456AF, 0x5EDC7DDB, 0x09FA7C76, 0x792410DB, 0x62658CA1, 0xD262FF50);
    OneStep(58, 0xD262FF50, 0xC846093F, 0xD79915AB, 0x5EDC7DDB, 0x09FA7C76, 0x458544D6, 0x09D785FD);
    OneStep(59, 0x09D785FD, 0xD262FF50, 0xF211824F, 0xD79915AB, 0x5EDC7DDB, 0x44584CB7, 0x3F52DE5A);
    OneStep(60, 0x3F52DE5A, 0x09D785FD, 0x3498BFD4, 0xF211824F, 0xD79915AB, 0x7BA06619, 0xD756C147);
    OneStep(61, 0xD756C147, 0x3F52DE5A, 0x4275E17F, 0x3498BFD4, 0xF211824F, 0x6380AEA2, 0x548C9CB2);
    OneStep(62, 0x548C9CB2, 0xD756C147, 0x8FD4B796, 0x4275E17F, 0x3498BFD4, 0x0AE55269, 0xB66C020B);
    OneStep(63, 0xB66C020B, 0x548C9CB2, 0xF5D5B051, 0x8FD4B796, 0x4275E17F, 0x627B49A1, 0x6B61C9E1);
  }

  lemma Steps80()
    ensures Steps(Block(), Start(), 80) == Regs(0x42541B35, 0x5738D5E1, 0x21834873, 0x681E6DF6, 0xD8FDF6AD)
  {
    hide WordIs, Steps;
    Steps64();
    Words64();
    OneStep(64, 0x6B61C9E1, 0xB66C020B, 0x9523272C, 0xF5D5B051, 0x8FD4B796, 0x7CD45C9D, 0x19DFA7AC);
    OneStep(65, 0x19DFA7AC, 0x6B61C9E1, 0xED9B0082, 0x9523272C, 0xF5D5B051, 0x000F0000, 0x101655F9);
    OneStep(66, 0x101655F9, 0x19DFA7AC, 0x5AD87278, 0xED9B0082, 0x9523272C, 0xFB50753A, 0x0C3DF2B4);
    OneStep(67, 0x0C3DF2B4, 0x101655F9, 0x0677E9EB, 0x5AD87278, 0xED9B0082, 0xEC6765E8, 0x78DD4D2B);
    OneStep(68, 0x78DD4D2B, 0x0C3DF2B4, 0x4405957E, 0x0677E9EB, 0x5AD87278, 0xBA3C2BE2, 0x497093C0);
    OneStep(69, 0x497093C0, 0x78DD4D2B, 0x030F7CAD, 0x4405957E, 0x0677E9EB, 0x0060C000, 0x3F2588C2);
    OneStep(70, 0x3F2588C2, 0x497093C0, 0xDE37534A, 0x030F7CAD, 0x4405957E, 0x3A37CD05, 0xC199F8C7);
    OneStep(71, 0xC199F8C7, 0x3F2588C2, 0x125C24F0, 0xDE37534A, 0x030F7CAD, 0x458546F4, 0x39859DE7);
    OneStep(72, 0x39859DE7, 0xC199F8C7, 0x8FC96230, 0x125C24F0, 0xDE37534A, 0xB8599DD6, 0xEDB42DE4);
    OneStep(73, 0xEDB42DE4, 0x39859DE7, 0xF0667E31, 0x8FC96230, 0x125C24F0, 0x380A1A26, 0x11793F6F);
    OneStep(74, 0x11793F6F, 0xEDB42DE4, 0xCE616779, 0xF0667E31, 0x8FC96230, 0x01E02203, 0x5EE76897);
    OneStep(75, 0x5EE76897, 0x11793F6F, 0x3B6D0B79, 0xCE616779, 0xF0667E31, 0xE7CC3456, 0x63F7DAB7);
    OneStep(76, 0x63F7DAB7, 0x5EE76897, 0xC45E4FDB, 0x3B6D0B79, 0xCE616779, 0xE6E60B69, 0xA079B7D9);
    OneStep(77, 0xA079B7D9, 0x63F7DAB7, 0xD7B9DA25, 0xC45E4FDB, 0x3B6D0B79, 0x00F60A00, 0x860D21CC);
    OneStep(78, 0x860D21CC, 0xA079B7D9, 0xD8FDF6AD, 0xD7B9DA25, 0xC45E4FDB, 0x5795EF4F, 0x5738D5E1);
    OneStep(79, 0x5738D5E1, 0x860D21CC, 0x681E6DF6, 0xD8FDF6AD, 0xD7B9DA25, 0x822E0879, 0x42541B35);
  }
}

module HAbcMd5 {
  import opened HWords
  import opened HMd5

  // The block of the padded message, word by word
  function Data(k: nat): Word {
    if k == 0 then 0x80636261 else if k == 14 then 0x18 else 0
  }

  function Block(): (m: seq<Word>)
    ensures |m| == 16
  {
    seq(16, k requires 0 <= k < 16 => Data(k))
  }

  function Start(): Regs {
    Regs(0x67452301, 0xEFCDAB89, 0x98BADCFE, 0x10325476)
  }

  // The word and the constant of a step
  predicate Entry(i: nat, x: Word, s: nat, t: Word) {
    i < 64 && Data(WordIndex(i)) == x && Shift(i) == s && Table()[i] == t
  }

  // One more step
  lemma OneStep(i: nat, a: Word, b: Word, c: Word, d: Word, f: Word, x: Word, s: nat, t: Word, next: Word)
    requires s <= 32 && Entry(i, x, s, t) && Steps(Block(), Start(), i) == Regs(a, b, c, d)
    requires Mixer(i, b, c, d) == f && Bump(a, b, f, x, s, t) == next
    ensures Steps(Block(), Start(), i + 1) == Regs(d, next, b, c)
  {
    hide Bump, Mixer, Start, Table, WordIndex, Shift, Data;
  }

  lemma Steps0()
    ensures Steps(Block(), Start(), 0) == Regs(0x67452301, 0xEFCDAB89, 0x98BADCFE, 0x10325476)
  {
  }

  lemma Entries0()
    ensures Entry(0, 0x80636261, 7, 0xD76AA478) && Entry(1, 0, 12, 0xE8C7B756)
    ensures Entry(2, 0, 17, 0x242070DB) && Entry(3, 0, 22, 0xC1BDCEEE)
  {
  }

  lemma Entries4()
    ensures Entry(4, 0, 7, 0xF57C0FAF) && Entry(5, 0, 12, 0x4787C62A)
    ensures Entry(6, 0, 17, 0xA8304613) && Entry(7, 0, 22, 0xFD469501)
  {
  }

  lemma Entries8()
    ensures Entry(8, 0, 7, 0x698098D8) && Entry(9, 0, 12, 0x8B44F7AF)
    ensures Entry(10, 0, 17, 0xFFFF5BB1) && Entry(11, 0, 22, 0x895CD7BE)
  {
  }

  lemma Entries12()
    ensures Entry(12, 0, 7, 0x6B901122) && Entry(13, 0, 12, 0xFD987193)
    ensures Entry(14, 0x00000018, 17, 0xA679438E) && Entry(15, 0, 22, 0x49B40821)
  {
  }

  lemma Entries16()
    ensures Entry(16, 0, 5, 0xF61E2562) && Entry(17, 0, 9, 0xC040B340)
    ensures Entry(18, 0, 14, 0x265E5A51) && Entry(19, 0x80636261, 20, 0xE9B6C7AA)
  {
  }

  lemma Entries20()
    ensures Entry(20, 0, 5, 0xD62F105D) && Entry(21, 0, 9, 0x02441453)
    ensures Entry(22, 0, 14, 0xD8A1E681) && Entry(23, 0, 20, 0xE7D3FBC8)
  {
  }

  lemma Entries24()
    ensures Entry(24, 0, 5, 0x21E1CDE6) && Entry(25, 0x00000018, 9, 0xC33707D6)
    ensures Entry(26, 0, 14, 0xF4D50D87) && Entry(27, 0, 20, 0x455A14ED)
  {
  }

  lemma Entries28()
    ensures Entry(28, 0, 5, 0xA9E3E905) && Entry(29, 0, 9, 0xFCEFA3F8)
    ensures Entry(30, 0, 14, 0x676F02D9) && Entry(31, 0, 20, 0x8D2A4C8A)
  {
  }

  lemma Entries32()
    ensures Entry(32, 0, 4, 0xFFFA3942) && Entry(33, 0, 11, 0x8771F681)
    ensures Entry(34, 0, 16, 0x6D9D6122) && Entry(35, 0x00000018, 23, 0xFDE5380C)
  {
  }

  lemma Entries36()
    ensures Entry(36, 0, 4, 0xA4BEEA44) && Entry(37, 0, 11, 0x4BDECFA9)
    ensures Entry(38, 0, 16, 0xF6BB4B60) && Entry(39, 0, 23, 0xBEBFBC70)
  {
  }

  lemma Entries40()
    ensures Entry(40, 0, 4, 0x289B7EC6) && Entry(41, 0x80636261, 11, 0xEAA127FA)
    ensures Entry(42, 0, 16, 0xD4EF3085) && Entry(43, 0, 23, 0x04881D05)
  {
  }

  lemma Entries44()
    ensures Entry(44, 0, 4, 0xD9D4D039) && Entry(45, 0, 11, 0xE6DB99E5)
    ensures Entry(46, 0, 16, 0x1FA27CF8) && Entry(47, 0, 23, 0xC4AC5665)
  {
  }

  lemma Entries48()
    ensures Entry(48, 0x80636261, 6, 0xF4292244) && Entry(49, 0, 10, 0x432AFF97)
    ensures Entry(50, 0x00000018, 15, 0xAB9423A7) && Entry(51, 0, 21, 0xFC93A039)
  {
  }

  lemma Entries52()
    ensures Entry(52, 0, 6, 0x655B59C3) && Entry(53, 0, 10, 0x8F0CCC92)
    ensures Entry(54, 0, 15, 0xFFEFF47D) && Entry(55, 0, 21, 0x85845DD1)
  {
  }

  lemma Entries56()
    ensures Entry(56, 0, 6, 0x6FA87E4F) && Entry(57, 0, 10, 0xFE2CE6E0)
    ensures Entry(58, 0, 15, 0xA3014314) && Entry(59, 0, 21, 0x4E0811A1)
  {
  }

  lemma Entries60()
    ensures Entry(60, 0, 6, 0xF7537E82) && Entry(61, 0, 10, 0xBD3AF235)
    ensures Entry(62, 0, 15, 0x2AD7D2BB) && Entry(63, 0, 21, 0xEB86D391)
  {
  }

  lemma Steps16()
    ensures Steps(Block(), Start(), 16) == Regs(0xDDA9B9A6, 0x72AFF2E0, 0xE396856B, 0xA1051895)
  {
    hide Steps, Start, Entry;
    Steps0();
    Entries0();
    Entries4();
    Entries8();
    Entries12();
    OneStep(0, 0x67452301, 0xEFCDAB89, 0x98BADCFE, 0x10325476, 0x98BADCFE, 0x80636261, 7, 0xD76AA478, 0xD6D117B4);
    OneStep(1, 0x10325476, 0xD6D117B4, 0xEFCDAB89, 0x98BADCFE, 0xCEEBCBCA, 0, 12, 0xE8C7B756, 0x344A8432);
    OneStep(2, 0x98BADCFE, 0x344A8432, 0xD6D117B4, 0xEFCDAB89, 0xDFC52FB9, 0, 17, 0x242070DB, 0x2F6FBD72);
    OneStep(3, 0xEFCDAB89, 0x2F6FBD72, 0x344A8432, 0xD6D117B4, 0xF4DA86B6, 0, 22, 0xC1BDCEEE, 0x7AD956F2);
    OneStep(4, 0xD6D117B4, 0x7AD956F2, 0x2F6FBD72, 0x344A8432, 0x2E4B9472, 0, 7, 0xF57C0FAF, 0xC73741EF);
    OneStep(5, 0x344A8432, 0xC73741EF, 0x7AD956F2, 0x2F6FBD72, 0x6A59FCF2, 0, 12, 0x4787C62A, 0x8BAC3051);
    OneStep(6, 0x2F6FBD72, 0x8BAC3051, 0xC73741EF, 0x7AD956F2, 0xF37546E3, 0, 17, 0xA8304613, 0x207DC67B);
    OneStep(7, 0x7AD956F2, 0x207DC67B, 0x8BAC3051, 0xC73741EF, 0xC72E01D5, 0, 22, 0xFD469501, 0x928D99F6);
    OneStep(8, 0xC73741EF, 0x928D99F6, 0x207DC67B, 0x8BAC3051, 0x092DA073, 0, 7, 0x698098D8, 0x854B3712);
    OneStep(9, 0x8BAC3051, 0x854B3712, 0x928D99F6, 0x207DC67B, 0xA03DD17B, 0, 12, 0x8B44F7AF, 0x74E2F284);
    OneStep(10, 0x207DC67B, 0x74E2F284, 0x854B3712, 0x928D99F6, 0x864F3B72, 0, 17, 0xFFFF5BB1, 0x3020401C);
    OneStep(11, 0x928D99F6, 0x3020401C, 0x74E2F284, 0x854B3712, 0xB56B7706, 0, 22, 0x895CD7BE, 0x5ED49596);
    OneStep(12, 0x854B3712, 0x5ED49596, 0x3020401C, 0x74E2F284, 0x30226214, 0, 7, 0x6B901122, 0xDDA9B9A6);
    OneStep(13, 0x74E2F284, 0xDDA9B9A6, 0x5ED49596, 0x3020401C, 0x7C80D19E, 0, 12, 0xFD987193, 0xA1051895);
    OneStep(14, 0x3020401C, 0xA1051895, 0xDDA9B9A6, 0x5ED49596, 0xDFD19D86, 0x00000018, 17, 0xA679438E, 0xE396856B);
    OneStep(15, 0x5ED49596, 0xE396856B, 0xA1051895, 0xDDA9B9A6, 0xBD2D3885, 0, 22, 0x49B40821, 0x72AFF2E0);
  }

  lemma Steps32()
    ensures Steps(Block(), Start(), 32) == Regs(0x790A77FB, 0x726342D3, 0xA62884AA, 0x9F47E4F8)
  {
    hide Steps, Start, Entry;
    Steps16();
    Entries16();
    Entries20();
    Entries24();
    Entries28();
    OneStep(16, 0xDDA9B9A6, 0x72AFF2E0, 0xE396856B, 0xA1051895, 0x629795EA, 0, 5, 0xF61E2562, 0x3E9E9126);
    OneStep(17, 0xA1051895, 0x3E9E9126, 0x72AFF2E0, 0xE396856B, 0x32BFF3A2, 0, 9, 0xC040B340, 0x4A1D804E);
    OneStep(18, 0xE396856B, 0x4A1D804E, 0x3E9E9126, 0x72AFF2E0, 0x4E1D8146, 0, 14, 0x265E5A51, 0xE25E1652);
    OneStep(19, 0x72AFF2E0, 0xE25E1652, 0x4A1D804E, 0x3E9E9126, 0x621F104A, 0x80636261, 20, 0xE9B6C7AA, 0xB5B204E4);
    OneStep(20, 0x3E9E9126, 0xB5B204E4, 0xE25E1652, 0x4A1D804E, 0xA0521654, 0, 5, 0xD62F105D, 0x59A8FFDA);
    OneStep(21, 0x4A1D804E, 0x59A8FFDA, 0xB5B204E4, 0xE25E1652, 0x55A816F6, 0, 9, 0x02441453, 0x6D002F1E);
    OneStep(22, 0xE25E1652, 0x6D002F1E, 0x59A8FFDA, 0xB5B204E4, 0x6D08FF1E, 0, 14, 0xD8A1E681, 0xABFC7920);
    OneStep(23, 0xB5B204E4, 0xABFC7920, 0x6D002F1E, 0x59A8FFDA, 0x2DA87904, 0, 20, 0xE7D3FBC8, 0x47092C07);
    OneStep(24, 0x59A8FFDA, 0x47092C07, 0xABFC7920, 0x6D002F1E, 0xC7FC7C26, 0, 5, 0x21E1CDE6, 0xB7F268CF);
    OneStep(25, 0x6D002F1E, 0xB7F268CF, 0x47092C07, 0xABFC7920, 0xE7F16C07, 0x00000018, 9, 0xC33707D6, 0x09388EFF);
    OneStep(26, 0xABFC7920, 0x09388EFF, 0xB7F268CF, 0x47092C07, 0xB1FA4CCF, 0, 14, 0xF4D50D87, 0xFE1623B1);
    OneStep(27, 0x47092C07, 0xFE1623B1, 0x09388EFF, 0xB7F268CF, 0xBE1AA6B1, 0, 20, 0x455A14ED, 0x786ACB8F);
    OneStep(28, 0xB7F268CF, 0x786ACB8F, 0xFE1623B1, 0x09388EFF, 0xFE2EAB8F, 0, 5, 0xA9E3E905, 0x790A77FB);
    OneStep(29, 0x09388EFF, 0x790A77FB, 0x786ACB8F, 0xFE1623B1, 0x786AEBBF, 0, 9, 0xFCEFA3F8, 0x9F47E4F8);
    OneStep(30, 0xFE1623B1, 0x9F47E4F8, 0x790A77FB, 0x786ACB8F, 0x1942F4F8, 0, 14, 0x676F02D9, 0xA62884AA);
    OneStep(31, 0x786ACB8F, 0xA62884AA, 0x9F47E4F8, 0x790A77FB, 0xA64D84AA, 0, 20, 0x8D2A4C8A, 0x726342D3);
  }

  lemma Steps48()
    ensures Steps(Block(), Start(), 48) == Regs(0x7F2E507B, 0x7BEB9700, 0x8FAE6399, 0x99D9679D)
  {
    hide Steps, Start, Entry;
    Steps32();
    Entries32();
    Entries36();
    Entries40();
    Entries44();
    OneStep(32, 0x790A77FB, 0x726342D3, 0xA62884AA, 0x9F47E4F8, 0x4B0C2281, 0, 4, 0xFFFA3942, 0xB3707EBF);
    OneStep(33, 0x9F47E4F8, 0xB3707EBF, 0x726342D3, 0xA62884AA, 0x673BB8C6, 0, 11, 0x8771F681, 0x60127B2E);
    OneStep(34, 0xA62884AA, 0x60127B2E, 0xB3707EBF, 0x726342D3, 0xA1014742, 0, 16, 0x6D9D6122, 0x8D212FF5);
    OneStep(35, 0x726342D3, 0x8D212FF5, 0x60127B2E, 0xB3707EBF, 0x5E432A64, 0x00000018, 23, 0xFDE5380C, 0x3B0875C7);
    OneStep(36, 0xB3707EBF, 0x3B0875C7, 0x8D212FF5, 0x60127B2E, 0xD63B211C, 0, 4, 0xA4BEEA44, 0x21B117B9);
    OneStep(37, 0x60127B2E, 0x21B117B9, 0x3B0875C7, 0x8D212FF5, 0x97984D8B, 0, 11, 0x4BDECFA9, 0x6E7429D5);
    OneStep(38, 0x8D212FF5, 0x6E7429D5, 0x21B117B9, 0x3B0875C7, 0x74CD4BAB, 0, 16, 0xF6BB4B60, 0x3575227E);
    OneStep(39, 0x3B0875C7, 0x3575227E, 0x6E7429D5, 0x21B117B9, 0x7AB01C12, 0, 23, 0xBEBFBC70, 0x5A2F5EA5);
    OneStep(40, 0x21B117B9, 0x5A2F5EA5, 0x3575227E, 0x6E7429D5, 0x012E550E, 0, 4, 0x289B7EC6, 0x11DE1779);
    OneStep(41, 0x6E7429D5, 0x11DE1779, 0x5A2F5EA5, 0x3575227E, 0x7E846BA2, 0x80636261, 11, 0xEAA127FA, 0xFADCAA38);
    OneStep(42, 0x3575227E, 0xFADCAA38, 0x11DE1779, 0x5A2F5EA5, 0xB12DE3E4, 0, 16, 0xD4EF3085, 0x31C465CA);
    OneStep(43, 0x5A2F5EA5, 0x31C465CA, 0xFADCAA38, 0x11DE1779, 0xDAC6D88B, 0, 23, 0x04881D05, 0x4C6124F4);
    OneStep(44, 0x11DE1779, 0x4C6124F4, 0x31C465CA, 0xFADCAA38, 0x8779EB06, 0, 4, 0xD9D4D039, 0x7F2E507B);
    OneStep(45, 0xFADCAA38, 0x7F2E507B, 0x4C6124F4, 0x31C465CA, 0x028B1145, 0, 11, 0xE6DB99E5, 0x99D9679D);
    OneStep(46, 0x31C465CA, 0x99D9679D, 0x7F2E507B, 0x4C6124F4, 0xAA961312, 0, 16, 0x1FA27CF8, 0x8FAE6399);
    OneStep(47, 0x4C6124F4, 0x8FAE6399, 0x99D9679D, 0x7F2E507B, 0x6959547F, 0, 23, 0xC4AC5665, 0x7BEB9700);
  }

  lemma Steps64()
    ensures Steps(Block(), Start(), 64) == Regs(0x310ADE8F, 0xC08226B3, 0xE484B9D8, 0x624D8CB2)
  {
    hide Steps, Start, Entry;
    Steps48();
    Entries48();
    Entries52();
    Entries56();
    Entries60();
    OneStep(48, 0x7F2E507B, 0x7BEB9700, 0x8FAE6399, 0x99D9679D, 0xF041FCFB, 0x80636261, 6, 0xF4292244, 0x7B201DF8);
    OneStep(49, 0x99D9679D, 0x7B201DF8, 0x7BEB9700, 0x8FAE6399, 0x009A0AFE, 0, 10, 0x432AFF97, 0xF4E8E96E);
    OneStep(50, 0x8FAE6399, 0xF4E8E96E, 0x7B201DF8, 0x7BEB9700, 0x8FDCF407, 0x00000018, 15, 0xAB9423A7, 0xB298CEFD);
    OneStep(51, 0x7BEB9700, 0xB298CEFD, 0xF4E8E96E, 0x7B201DF8, 0x42370791, 0, 21, 0xFC93A039, 0x8BF025C4);
    OneStep(52, 0x7B201DF8, 0x8BF025C4, 0xB298CEFD, 0xF4E8E96E, 0x396FF928, 0, 6, 0x655B59C3, 0x06CC5E8A);
    OneStep(53, 0xF4E8E96E, 0x06CC5E8A, 0x8BF025C4, 0xB298CEFD, 0xC41F5A4E, 0, 10, 0x8F0CCC92, 0x5B0D97AA);
    OneStep(54, 0xB298CEFD, 0x5B0D97AA, 0x06CC5E8A, 0x8BF025C4, 0x79C38131, 0, 15, 0xFFEFF47D, 0x7D632DD0);
    OneStep(55, 0x8BF025C4, 0x7D632DD0, 0x5B0D97AA, 0x06CC5E8A, 0xA67E3A5F, 0, 21, 0x85845DD1, 0x3BFA2C27);
    OneStep(56, 0x06CC5E8A, 0x3BFA2C27, 0x7D632DD0, 0x5B0D97AA, 0xC29941A7, 0, 6, 0x6FA87E4F, 0x7F81CC35);
    OneStep(57, 0x5B0D97AA, 0x7F81CC35, 0x3BFA2C27, 0x7D632DD0, 0xC467F218, 0, 10, 0xFE2CE6E0, 0x094454AB);
    OneStep(58, 0x7D632DD0, 0x094454AB, 0x7F81CC35, 0x3BFA2C27, 0xB2C41BCE, 0, 15, 0xA3014314, 0x4F9DBE3F);
    OneStep(59, 0x3BFA2C27, 0x4F9DBE3F, 0x094454AB, 0x7F81CC35, 0xC6BBEB54, 0, 21, 0x4E0811A1, 0x7327D604);
    OneStep(60, 0x7F81CC35, 0x7327D604, 0x4F9DBE3F, 0x094454AB, 0xB822416B, 0, 6, 0xF7537E82, 0x310ADE8F);
    OneStep(61, 0x094454AB, 0x310ADE8F, 0x7327D604, 0x4F9DBE3F, 0xC24D09CB, 0, 10, 0xBD3AF235, 0x624D8CB2);
    OneStep(62, 0x4F9DBE3F, 0x624D8CB2, 0x310ADE8F, 0x7327D604, 0xDFD77374, 0, 15, 0x2AD7D2BB, 0xE484B9D8);
    OneStep(63, 0x7327D604, 0xE484B9D8, 0x624D8CB2, 0x310ADE8F, 0x8CB8354A, 0, 21, 0xEB86D391, 0xC08226B3);
  }
}

module HAbc {
  import opened HWords
  import opened HStream
  import HSha1
  import HMd5
  import HAbcSha1
  import HAbcMd5

  // "abc"
  function Abc(): (m: seq<Byte>)
    ensures |m| == 3
  {
    [97, 98, 99]
  }

  // The message, a 1 bit, zeros, and 24 for its length
  function OnlyBlock(alg: Alg): (p: seq<Byte>)
    ensures |p| == 64
  {
    Abc() + [0x80] + seq(52, _ => 0) + if alg.Sha1? then [0, 0, 0, 0, 0, 0, 0, 24] else [24, 0, 0, 0, 0, 0, 0, 0]
  }

  lemma AbcPadded(alg: Alg)
    ensures Padded(alg, Abc()) == OnlyBlock(alg)
  {
    AbcLength(alg);
    hide LengthBytes;
    assert Padding(3) == [0x80] + seq(52, _ => 0);
  }

  lemma AbcLength(alg: Alg)
    ensures LengthBytes(alg, 3) == if alg.Sha1? then [0, 0, 0, 0, 0, 0, 0, 24] else [24, 0, 0, 0, 0, 0, 0, 0]
  {
    EncodeTwo(alg.Sha1?, if alg.Sha1? then 0 else 24, if alg.Sha1? then 24 else 0);
    hide Encode;
  }

  lemma EncodeTwo(big: bool, a: Word, b: Word)
    ensures Encode(big, [a, b]) == BytesOf(big, a) + BytesOf(big, b)
  {
    hide BytesOf;
    assert [a, b][..1] == [a] && [a][..0] == [];
  }

  lemma Sha1Block()
    ensures Decode(true, OnlyBlock(Sha1)) == HAbcSha1.Block()
  {
  }

  lemma Md5Block()
    ensures Decode(false, OnlyBlock(Md5)) == HAbcMd5.Block()
  {
  }

  lemma OneBlock(alg: Alg)
    ensures Digest(alg, Abc()) == Encode(alg.Sha1?, Compress(alg, Initial(alg), OnlyBlock(alg)))
  {
    hide Compress, Encode, Padded, Initial, OnlyBlock;
    AbcPadded(alg);
    assert OnlyBlock(alg)[..64] == OnlyBlock(alg) && |OnlyBlock(alg)[64..]| == 0;
  }

  lemma Sha1Words()
    ensures HSha1.Compress(Initial(Sha1), OnlyBlock(Sha1)) ==
      [0xA9993E36, 0x4706816A, 0xBA3E2571, 0x7850C26C, 0x9CD0D89D]
  {
    hide HSha1.Steps, Decode, OnlyBlock;
    Sha1Block();
    HAbcSha1.Steps80();
  }

  lemma Md5Words()
    ensures HMd5.Compress(Initial(Md5), OnlyBlock(Md5)) == [0x98500190, 0xB04FD23C, 0x7D3F96D6, 0x727FE128]
  {
    hide HMd5.Steps, Decode, OnlyBlock;
    Md5Block();
    HAbcMd5.Steps64();
  }

  lemma EncodeOne(big: bool, w: seq<Word>, x: Word)
    ensures Encode(big, w + [x]) == Encode(big, w) + BytesOf(big, x)
  {
    hide BytesOf;
    assert (w + [x])[..|w|] == w;
  }

  lemma EncodeFour(big: bool, a: Word, b: Word, c: Word, d: Word)
    ensures Encode(big, [a, b, c, d]) == BytesOf(big, a) + BytesOf(big, b) + BytesOf(big, c) + BytesOf(big, d)
  {
    hide BytesOf, Encode;
    EncodeTwo(big, a, b);
    EncodeOne(big, [a, b], c);
    EncodeOne(big, [a, b, c], d);
    assert [a, b] + [c] == [a, b, c] && [a, b, c] + [d] == [a, b, c, d];
  }

  lemma Sha1Bytes()
    ensures BytesOf(true, 0xA9993E36) == [0xA9, 0x99, 0x3E, 0x36]
    ensures BytesOf(true, 0x4706816A) == [0x47, 0x06, 0x81, 0x6A]
    ensures BytesOf(true, 0xBA3E2571) == [0xBA, 0x3E, 0x25, 0x71]
    ensures BytesOf(true, 0x7850C26C) == [0x78, 0x50, 0xC2, 0x6C]
    ensures BytesOf(true, 0x9CD0D89D) == [0x9C, 0xD0, 0xD8, 0x9D]
  {
  }

  lemma Md5Bytes()
    ensures BytesOf(false, 0x98500190) == [0x90, 0x01, 0x50, 0x98]
    ensures BytesOf(false, 0xB04FD23C) == [0x3C, 0xD2, 0x4F, 0xB0]
    ensures BytesOf(false, 0x7D3F96D6) == [0xD6, 0x96, 0x3F, 0x7D]
    ensures BytesOf(false, 0x727FE128) == [0x28, 0xE1, 0x7F, 0x72]
  {
  }

  lemma Sha1Encoded()
    ensures Encode(true, [0xA9993E36, 0x4706816A, 0xBA3E2571, 0x7850C26C])
      == [0xA9, 0x99, 0x3E, 0x36, 0x47, 0x06, 0x81, 0x6A, 0xBA, 0x3E, 0x25, 0x71, 0x78, 0x50, 0xC2, 0x6C]
  {
    hide Encode, BytesOf;
    Sha1Bytes();
    EncodeFour(true, 0xA9993E36, 0x4706816A, 0xBA3E2571, 0x7850C26C);
  }

  lemma Sha1Abc()
    ensures Digest(Sha1, [97, 98, 99]) == [0xA9, 0x99, 0x3E, 0x36, 0x47, 0x06, 0x81, 0x6A, 0xBA, 0x3E, 0x25, 0x71,
      0x78, 0x50, 0xC2, 0x6C, 0x9C, 0xD0, 0xD8, 0x9D]
  {
    hide HSha1.Compress, Encode, BytesOf, OnlyBlock;
    OneBlock(Sha1);
    Sha1Words();
    Sha1Bytes();
    Sha1Encoded();
    EncodeOne(true, [0xA9993E36, 0x4706816A, 0xBA3E2571, 0x7850C26C], 0x9CD0D89D);
    var c := HSha1.Compress(Initial(Sha1), OnlyBlock(Sha1));
    assert c == [0xA9993E36, 0x4706816A, 0xBA3E2571, 0x7850C26C] + [0x9CD0D89D];
    assert Encode(true, c)
      == Encode(true, [0xA9993E36, 0x4706816A, 0xBA3E2571, 0x7850C26C]) + BytesOf(true, 0x9CD0D89D);
  }

  lemma Md5Abc()
    ensures Digest(Md5, [97, 98, 99]) ==
      [0x90, 0x01, 0x50, 0x98, 0x3C, 0xD2, 0x4F, 0xB0, 0xD6, 0x96, 0x3F, 0x7D, 0x28, 0xE1, 0x7F, 0x72]
  {
    hide HMd5.Compress, Encode, BytesOf, OnlyBlock;
    OneBlock(Md5);
    Md5Words();
    Md5Bytes();
    EncodeFour(false, 0x98500190, 0xB04FD23C, 0x7D3F96D6, 0x727FE128);
  }
}
