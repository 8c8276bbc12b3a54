/** The digest of "abc", the first example of appendix A of FIPS 180-1, worked out step by step. */
module Sha1Vector {
  import opened Sha1
  import opened Sha1Stream

  /** The only block of the padded message. */
  predicate AbcBlock(block: seq<Word>) {
    && |block| == 16 && block[0] == 0x61626380 && block[15] == 0x18
    && forall i :: 1 <= i < 15 ==> block[i] == 0
  }

  lemma NextWordIs(block: seq<Word>, t: nat, x: Word, y: Word, z: Word, w: Word, v: Word)
    requires |block| == 16 && t >= 16 && Mix(x, y, z, w) == v
    requires W(block, t - 3) == x && W(block, t - 8) == y && W(block, t - 14) == z && W(block, t - 16) == w
    ensures W(block, t) == v
  {
    hide Mix;
  }

  lemma RoundIs(block: seq<Word>, h: Regs, t: nat, r: Regs, w: Word, r': Regs)
    requires |block| == 16 && Rounds(block, h, t) == r && W(block, t) == w && Step(t, r, w) == r'
    ensures Rounds(block, h, t + 1) == r'
  {
    hide Step, W;
  }

  // ---- the schedule

  lemma Words0(block: seq<Word>)
    requires AbcBlock(block)
    ensures W(block, 0) == 0x61626380 && W(block, 15) == 0x18
    ensures forall t :: 1 <= t < 15 ==> W(block, t) == 0
  {
  }

  lemma Words16(block: seq<Word>)
    requires AbcBlock(block)
    ensures W(block, 16) == 0xC2C4C700 && W(block, 17) == 0x00000000 && W(block, 18) == 0x00000030
    ensures W(block, 19) == 0x85898E01 && W(block, 20) == 0x00000000 && W(block, 21) == 0x00000060
    ensures W(block, 22) == 0x0B131C03 && W(block, 23) == 0x00000030
  {
    hide W;
    Words0(block);
    NextWordIs(block, 16, 0x00000000, 0x00000000, 0x00000000, 0x61626380, 0xC2C4C700);
    NextWordIs(block, 17, 0x00000000, 0x00000000, 0x00000000, 0x00000000, 0x00000000);
    NextWordIs(block, 18, 0x00000018, 0x00000000, 0x00000000, 0x00000000, 0x00000030);
    NextWordIs(block, 19, 0xC2C4C700, 0x00000000, 0x00000000, 0x00000000, 0x85898E01);
    NextWordIs(block, 20, 0x00000000, 0x00000000, 0x00000000, 0x00000000, 0x00000000);
    NextWordIs(block, 21, 0x00000030, 0x00000000, 0x00000000, 0x00000000, 0x00000060);
    NextWordIs(block, 22, 0x85898E01, 0x00000000, 0x00000000, 0x00000000, 0x0B131C03);
    NextWordIs(block, 23, 0x00000000, 0x00000018, 0x00000000, 0x00000000, 0x00000030);
  }

  lemma Words24(block: seq<Word>)
    requires AbcBlock(block)
    ensures W(block, 24) == 0x85898EC1 && W(block, 25) == 0x16263806 && W(block, 26) == 0x00000000
    ensures W(block, 27) == 0x00000180 && W(block, 28) == 0x2C4C700C && W(block, 29) == 0x000000F0
    ensures W(block, 30) == 0x93AFB507 && W(block, 31) == 0x5898E048
  {
    hide W;
    Words0(block);
    Words16(block);
    NextWordIs(block, 24, 0x00000060, 0xC2C4C700, 0x00000000, 0x00000000, 0x85898EC1);
    NextWordIs(block, 25, 0x0B131C03, 0x00000000, 0x00000000, 0x00000000, 0x16263806);
    NextWordIs(block, 26, 0x00000030, 0x00000030, 0x00000000, 0x00000000, 0x00000000);
    NextWordIs(block, 27, 0x85898EC1, 0x85898E01, 0x00000000, 0x00000000, 0x00000180);
    NextWordIs(block, 28, 0x16263806, 0x00000000, 0x00000000, 0x00000000, 0x2C4C700C);
    NextWordIs(block, 29, 0x00000000, 0x00000060, 0x00000018, 0x00000000, 0x000000F0);
    NextWordIs(block, 30, 0x00000180, 0x0B131C03, 0xC2C4C700, 0x00000000, 0x93AFB507);
    NextWordIs(block, 31, 0x2C4C700C, 0x00000030, 0x00000000, 0x00000018, 0x5898E048);
  }

  lemma Words32(block: seq<Word>)
    requires AbcBlock(block)
    ensures W(block, 32) == 0x8E9A9202 && W(block, 33) == 0x00000600 && W(block, 34) == 0xB131C0F0
    ensures W(block, 35) == 0x16263BC6 && W(block, 36) == 0x4EBED41E && W(block, 37) == 0x626380A1
    ensures W(block, 38) == 0x16263806 && W(block, 39) == 0x000018C0
  {
    hide W;
    Words16(block);
    Words24(block);
    NextWordIs(block, 32, 0x000000F0, 0x85898EC1, 0x00000030, 0xC2C4C700, 0x8E9A9202);
    NextWordIs(block, 33, 0x93AFB507, 0x16263806, 0x85898E01, 0x00000000, 0x00000600);
    NextWordIs(block, 34, 0x5898E048, 0x00000000, 0x00000000, 0x00000030, 0xB131C0F0);
    NextWordIs(block, 35, 0x8E9A9202, 0x00000180, 0x00000060, 0x85898E01, 0x16263BC6);
    NextWordIs(block, 36, 0x00000600, 0x2C4C700C, 0x0B131C03, 0x00000000, 0x4EBED41E);
    NextWordIs(block, 37, 0xB131C0F0, 0x000000F0, 0x00000030, 0x00000060, 0x626380A1);
    NextWordIs(block, 38, 0x16263BC6, 0x93AFB507, 0x85898EC1, 0x0B131C03, 0x16263806);
    NextWordIs(block, 39, 0x4EBED41E, 0x5898E048, 0x16263806, 0x00000030, 0x000018C0);
  }

  lemma Words40(block: seq<Word>)
    requires AbcBlock(block)
    ensures W(block, 40) == 0xD2E138C4 && W(block, 41) == 0x00000F00 && W(block, 42) == 0x3AFB5079
    ensures W(block, 43) == 0x898E04E5 && W(block, 44) == 0xE2BA3C2B && W(block, 45) == 0x000060C0
    ensures W(block, 46) == 0x053A37CD && W(block, 47) == 0x74458547
  {
    hide W;
    Words24(block);
    Words32(block);
    NextWordIs(block, 40, 0x626380A1, 0x8E9A9202, 0x00000000, 0x85898EC1, 0xD2E138C4);
    NextWordIs(block, 41, 0x16263806, 0x00000600, 0x00000180, 0x16263806, 0x00000F00);
    NextWordIs(block, 42, 0x000018C0, 0xB131C0F0, 0x2C4C700C, 0x00000000, 0x3AFB5079);
    NextWordIs(block, 43, 0xD2E138C4, 0x16263BC6, 0x000000F0, 0x00000180, 0x898E04E5);
    NextWordIs(block, 44, 0x00000F00, 0x4EBED41E, 0x93AFB507, 0x2C4C700C, 0xE2BA3C2B);
    NextWordIs(block, 45, 0x3AFB5079, 0x626380A1, 0x5898E048, 0x000000F0, 0x000060C0);
    NextWordIs(block, 46, 0x898E04E5, 0x16263806, 0x8E9A9202, 0x93AFB507, 0x053A37CD);
    NextWordIs(block, 47, 0xE2BA3C2B, 0x000018C0, 0x00000600, 0x5898E048, 0x74458547);
  }

  lemma Words48(block: seq<Word>)
    requires AbcBlock(block)
    ensures W(block, 48) == 0xDA9415ED && W(block, 49) == 0x26380A16 && W(block, 50) == 0x626383A1
    ensures W(block, 51) == 0x4EBF54DE && W(block, 52) == 0x3835B44B && W(block, 53) == 0x0000F600
    ensures W(block, 54) == 0x1E84C7A3 && W(block, 55) == 0x98E04D98
  {
    hide W;
    Words32(block);
    Words40(block);
    NextWordIs(block, 48, 0x000060C0, 0xD2E138C4, 0xB131C0F0, 0x8E9A9202, 0xDA9415ED);
    NextWordIs(block, 49, 0x053A37CD, 0x00000F00, 0x16263BC6, 0x00000600, 0x26380A16);
    NextWordIs(block, 50, 0x74458547, 0x3AFB5079, 0x4EBED41E, 0xB131C0F0, 0x626383A1);
    NextWordIs(block, 51, 0xDA9415ED, 0x898E04E5, 0x626380A1, 0x16263BC6, 0x4EBF54DE);
    NextWordIs(block, 52, 0x26380A16, 0xE2BA3C2B, 0x16263806, 0x4EBED41E, 0x3835B44B);
    NextWordIs(block, 53, 0x626383A1, 0x000060C0, 0x000018C0, 0x626380A1, 0x0000F600);
    NextWordIs(block, 54, 0x4EBF54DE, 0x053A37CD, 0xD2E138C4, 0x16263806, 0x1E84C7A3);
    NextWordIs(block, 55, 0x3835B44B, 0x74458547, 0x00000F00, 0x000018C0, 0x98E04D98);
  }

  lemma Words56(block: seq<Word>)
    requires AbcBlock(block)
    ensures W(block, 56) == 0x651D16A0 && W(block, 57) == 0x62658CA1 && W(block, 58) == 0x458544D6
    ensures W(block, 59) == 0x44584CB7 && W(block, 60) == 0x7BA06619 && W(block, 61) == 0x6380AEA2
    ensures W(block, 62) == 0x0AE55269 && W(block, 63) == 0x627B49A1
  {
    hide W;
    Words40(block);
    Words48(block);
    NextWordIs(block, 56, 0x0000F600, 0xDA9415ED, 0x3AFB5079, 0xD2E138C4, 0x651D16A0);
    NextWordIs(block, 57, 0x1E84C7A3, 0x26380A16, 0x898E04E5, 0x00000F00, 0x62658CA1);
    NextWordIs(block, 58, 0x98E04D98, 0x626383A1, 0xE2BA3C2B, 0x3AFB5079, 0x458544D6);
    NextWordIs(block, 59, 0x651D16A0, 0x4EBF54DE, 0x000060C0, 0x898E04E5, 0x44584CB7);
    NextWordIs(block, 60, 0x62658CA1, 0x3835B44B, 0x053A37CD, 0xE2BA3C2B, 0x7BA06619);
    NextWordIs(block, 61, 0x458544D6, 0x0000F600, 0x74458547, 0x000060C0, 0x6380AEA2);
    NextWordIs(block, 62, 0x44584CB7, 0x1E84C7A3, 0xDA9415ED, 0x053A37CD, 0x0AE55269);
    NextWordIs(block, 63, 0x7BA06619, 0x98E04D98, 0x26380A16, 0x74458547, 0x627B49A1);
  }

  lemma Words64(block: seq<Word>)
    requires AbcBlock(block)
    ensures W(block, 64) == 0x7CD45C9D && W(block, 65) == 0x000F0000 && W(block, 66) == 0xFB50753A
    ensures W(block, 67) == 0xEC6765E8 && W(block, 68) == 0xBA3C2BE2 && W(block, 69) == 0x0060C000
    ensures W(block, 70) == 0x3A37CD05 && W(block, 71) == 0x458546F4
  {
    hide W;
    Words48(block);
    Words56(block);
    NextWordIs(block, 64, 0x6380AEA2, 0x651D16A0, 0x626383A1, 0xDA9415ED, 0x7CD45C9D);
    NextWordIs(block, 65, 0x0AE55269, 0x62658CA1, 0x4EBF54DE, 0x26380A16, 0x000F0000);
    NextWordIs(block, 66, 0x627B49A1, 0x458544D6, 0x3835B44B, 0x626383A1, 0xFB50753A);
    NextWordIs(block, 67, 0x7CD45C9D, 0x44584CB7, 0x0000F600, 0x4EBF54DE, 0xEC6765E8);
    NextWordIs(block, 68, 0x000F0000, 0x7BA06619, 0x1E84C7A3, 0x3835B44B, 0xBA3C2BE2);
    NextWordIs(block, 69, 0xFB50753A, 0x6380AEA2, 0x98E04D98, 0x0000F600, 0x0060C000);
    NextWordIs(block, 70, 0xEC6765E8, 0x0AE55269, 0x651D16A0, 0x1E84C7A3, 0x3A37CD05);
    NextWordIs(block, 71, 0xBA3C2BE2, 0x627B49A1, 0x62658CA1, 0x98E04D98, 0x458546F4);
  }

  lemma Words72(block: seq<Word>)
    requires AbcBlock(block)
    ensures W(block, 72) == 0xB8599DD6 && W(block, 73) == 0x380A1A26 && W(block, 74) == 0x01E02203
    ensures W(block, 75) == 0xE7CC3456 && W(block, 76) == 0xE6E60B69 && W(block, 77) == 0x00F60A00
    ensures W(block, 78) == 0x5795EF4F && W(block, 79) == 0x822E0879
  {
    hide W;
    Words56(block);
    Words64(block);
    NextWordIs(block, 72, 0x0060C000, 0x7CD45C9D, 0x458544D6, 0x651D16A0, 0xB8599DD6);
    NextWordIs(block, 73, 0x3A37CD05, 0x000F0000, 0x44584CB7, 0x62658CA1, 0x380A1A26);
    NextWordIs(block, 74, 0x458546F4, 0xFB50753A, 0x7BA06619, 0x458544D6, 0x01E02203);
    NextWordIs(block, 75, 0xB8599DD6, 0xEC6765E8, 0x6380AEA2, 0x44584CB7, 0xE7CC3456);
    NextWordIs(block, 76, 0x380A1A26, 0xBA3C2BE2, 0x0AE55269, 0x7BA06619, 0xE6E60B69);
    NextWordIs(block, 77, 0x01E02203, 0x0060C000, 0x627B49A1, 0x6380AEA2, 0x00F60A00);
    NextWordIs(block, 78, 0xE7CC3456, 0x3A37CD05, 0x7CD45C9D, 0x0AE55269, 0x5795EF4F);
    NextWordIs(block, 79, 0xE6E60B69, 0x458546F4, 0x000F0000, 0x627B49A1, 0x822E0879);
  }

  // ---- the registers

  lemma Rounds8(block: seq<Word>)
    requires AbcBlock(block)
    ensures Rounds(block, INITIAL, 8) == Regs(0x9E8C07D4, 0x993E30C1, 0x0FF1F290, 0xB3F52677, 0xF3763846)
  {
    hide Rounds, W;
    assert Rounds(block, INITIAL, 0) == INITIAL by {
      NoRounds(block, INITIAL);
    }
    Words0(block);
    RoundIs(block, INITIAL, 0, Regs(0x67452301, 0xEFCDAB89, 0x98BADCFE, 0x10325476, 0xC3D2E1F0), 0x61626380,
            Regs(0x0116FC33, 0x67452301, 0x7BF36AE2, 0x98BADCFE, 0x10325476));
    RoundIs(block, INITIAL, 1, Regs(0x0116FC33, 0x67452301, 0x7BF36AE2, 0x98BADCFE, 0x10325476), 0x00000000,
            Regs(0x8990536D, 0x0116FC33, 0x59D148C0, 0x7BF36AE2, 0x98BADCFE));
    RoundIs(block, INITIAL, 2, Regs(0x8990536D, 0x0116FC33, 0x59D148C0, 0x7BF36AE2, 0x98BADCFE), 0x00000000,
            Regs(0xA1390F08, 0x8990536D, 0xC045BF0C, 0x59D148C0, 0x7BF36AE2));
    RoundIs(block, INITIAL, 3, Regs(0xA1390F08, 0x8990536D, 0xC045BF0C, 0x59D148C0, 0x7BF36AE2), 0x00000000,
            Regs(0xCDD8E11B, 0xA1390F08, 0x626414DB, 0xC045BF0C, 0x59D148C0));
    RoundIs(block, INITIAL, 4, Regs(0xCDD8E11B, 0xA1390F08, 0x626414DB, 0xC045BF0C, 0x59D148C0), 0x00000000,
            Regs(0xCFD499DE, 0xCDD8E11B, 0x284E43C2, 0x626414DB, 0xC045BF0C));
    RoundIs(block, INITIAL, 5, Regs(0xCFD499DE, 0xCDD8E11B, 0x284E43C2, 0x626414DB, 0xC045BF0C), 0x00000000,
            Regs(0x3FC7CA40, 0xCFD499DE, 0xF3763846, 0x284E43C2, 0x626414DB));
    RoundIs(block, INITIAL, 6, Regs(0x3FC7CA40, 0xCFD499DE, 0xF3763846, 0x284E43C2, 0x626414DB), 0x00000000,
            Regs(0x993E30C1, 0x3FC7CA40, 0xB3F52677, 0xF3763846, 0x284E43C2));
    RoundIs(block, INITIAL, 7, Regs(0x993E30C1, 0x3FC7CA40, 0xB3F52677, 0xF3763846, 0x284E43C2), 0x00000000,
            Regs(0x9E8C07D4, 0x993E30C1, 0x0FF1F290, 0xB3F52677, 0xF3763846));
  }

  lemma Rounds16(block: seq<Word>)
    requires AbcBlock(block)
    ensures Rounds(block, INITIAL, 16) == Regs(0x20BDD62F, 0x196BEE77, 0x644A3DA5, 0x1181ED99, 0x18C623F9)
  {
    hide Rounds, W;
    Rounds8(block);
    Words0(block);
    RoundIs(block, INITIAL, 8, Regs(0x9E8C07D4, 0x993E30C1, 0x0FF1F290, 0xB3F52677, 0xF3763846), 0x00000000,
            Regs(0x4B6AE328, 0x9E8C07D4, 0x664F8C30, 0x0FF1F290, 0xB3F52677));
    RoundIs(block, INITIAL, 9, Regs(0x4B6AE328, 0x9E8C07D4, 0x664F8C30, 0x0FF1F290, 0xB3F52677), 0x00000000,
            Regs(0x8351F929, 0x4B6AE328, 0x27A301F5, 0x664F8C30, 0x0FF1F290));
    RoundIs(block, INITIAL, 10, Regs(0x8351F929, 0x4B6AE328, 0x27A301F5, 0x664F8C30, 0x0FF1F290), 0x00000000,
            Regs(0xFBDA9E89, 0x8351F929, 0x12DAB8CA, 0x27A301F5, 0x664F8C30));
    RoundIs(block, INITIAL, 11, Regs(0xFBDA9E89, 0x8351F929, 0x12DAB8CA, 0x27A301F5, 0x664F8C30), 0x00000000,
            Regs(0x63188FE4, 0xFBDA9E89, 0x60D47E4A, 0x12DAB8CA, 0x27A301F5));
    RoundIs(block, INITIAL, 12, Regs(0x63188FE4, 0xFBDA9E89, 0x60D47E4A, 0x12DAB8CA, 0x27A301F5), 0x00000000,
            Regs(0x4607B664, 0x63188FE4, 0x7EF6A7A2, 0x60D47E4A, 0x12DAB8CA));
    RoundIs(block, INITIAL, 13, Regs(0x4607B664, 0x63188FE4, 0x7EF6A7A2, 0x60D47E4A, 0x12DAB8CA), 0x00000000,
            Regs(0x9128F695, 0x4607B664, 0x18C623F9, 0x7EF6A7A2, 0x60D47E4A));
    RoundIs(block, INITIAL, 14, Regs(0x9128F695, 0x4607B664, 0x18C623F9, 0x7EF6A7A2, 0x60D47E4A), 0x00000000,
            Regs(0x196BEE77, 0x9128F695, 0x1181ED99, 0x18C623F9, 0x7EF6A7A2));
    RoundIs(block, INITIAL, 15, Regs(0x196BEE77, 0x9128F695, 0x1181ED99, 0x18C623F9, 0x7EF6A7A2), 0x00000018,
            Regs(0x20BDD62F, 0x196BEE77, 0x644A3DA5, 0x1181ED99, 0x18C623F9));
  }

  lemma Rounds24(block: seq<Word>)
    requires AbcBlock(block)
    ensures Rounds(block, INITIAL, 24) == Regs(0xD541F12D, 0x21283486, 0x0CE88EFF, 0x868DEC32, 0x7F67875F)
  {
    hide Rounds, W;
    Rounds16(block);
    Words16(block);
    RoundIs(block, INITIAL, 16, Regs(0x20BDD62F, 0x196BEE77, 0x644A3DA5, 0x1181ED99, 0x18C623F9), 0xC2C4C700,
            Regs(0x4E925823, 0x20BDD62F, 0xC65AFB9D, 0x644A3DA5, 0x1181ED99));
    RoundIs(block, INITIAL, 17, Regs(0x4E925823, 0x20BDD62F, 0xC65AFB9D, 0x644A3DA5, 0x1181ED99), 0x00000000,
            Regs(0x82AA6728, 0x4E925823, 0xC82F758B, 0xC65AFB9D, 0x644A3DA5));
    RoundIs(block, INITIAL, 18, Regs(0x82AA6728, 0x4E925823, 0xC82F758B, 0xC65AFB9D, 0x644A3DA5), 0x00000030,
            Regs(0xDC64901D, 0x82AA6728, 0xD3A49608, 0xC82F758B, 0xC65AFB9D));
    RoundIs(block, INITIAL, 19, Regs(0xDC64901D, 0x82AA6728, 0xD3A49608, 0xC82F758B, 0xC65AFB9D), 0x85898E01,
            Regs(0xFD9E1D7D, 0xDC64901D, 0x20AA99CA, 0xD3A49608, 0xC82F758B));
    RoundIs(block, INITIAL, 20, Regs(0xFD9E1D7D, 0xDC64901D, 0x20AA99CA, 0xD3A49608, 0xC82F758B), 0x00000000,
            Regs(0x1A37B0CA, 0xFD9E1D7D, 0x77192407, 0x20AA99CA, 0xD3A49608));
    RoundIs(block, INITIAL, 21, Regs(0x1A37B0CA, 0xFD9E1D7D, 0x77192407, 0x20AA99CA, 0xD3A49608), 0x00000060,
            Regs(0x33A23BFC, 0x1A37B0CA, 0x7F67875F, 0x77192407, 0x20AA99CA));
    RoundIs(block, INITIAL, 22, Regs(0x33A23BFC, 0x1A37B0CA, 0x7F67875F, 0x77192407, 0x20AA99CA), 0x0B131C03,
            Regs(0x21283486, 0x33A23BFC, 0x868DEC32, 0x7F67875F, 0x77192407));
    RoundIs(block, INITIAL, 23, Regs(0x21283486, 0x33A23BFC, 0x868DEC32, 0x7F67875F, 0x77192407), 0x00000030,
            Regs(0xD541F12D, 0x21283486, 0x0CE88EFF, 0x868DEC32, 0x7F67875F));
  }

  lemma Rounds32(block: seq<Word>)
    requires AbcBlock(block)
    ensures Rounds(block, INITIAL, 32) == Regs(0x3B845D33, 0x1267B407, 0x717EEBD7, 0xA0DC2D4B, 0xD2AA1365)
  {
    hide Rounds, W;
    Rounds24(block);
    Words24(block);
    RoundIs(block, INITIAL, 24, Regs(0xD541F12D, 0x21283486, 0x0CE88EFF, 0x868DEC32, 0x7F67875F), 0x85898EC1,
            Regs(0xC7567DC6, 0xD541F12D, 0x884A0D21, 0x0CE88EFF, 0x868DEC32));
    RoundIs(block, INITIAL, 25, Regs(0xC7567DC6, 0xD541F12D, 0x884A0D21, 0x0CE88EFF, 0x868DEC32), 0x16263806,
            Regs(0x48413BA4, 0xC7567DC6, 0x75507C4B, 0x884A0D21, 0x0CE88EFF));
    RoundIs(block, INITIAL, 26, Regs(0x48413BA4, 0xC7567DC6, 0x75507C4B, 0x884A0D21, 0x0CE88EFF), 0x00000000,
            Regs(0xBE35FBD5, 0x48413BA4, 0xB1D59F71, 0x75507C4B, 0x884A0D21));
    RoundIs(block, INITIAL, 27, Regs(0xBE35FBD5, 0x48413BA4, 0xB1D59F71, 0x75507C4B, 0x884A0D21), 0x00000180,
            Regs(0x4AA84D97, 0xBE35FBD5, 0x12104EE9, 0xB1D59F71, 0x75507C4B));
    RoundIs(block, INITIAL, 28, Regs(0x4AA84D97, 0xBE35FBD5, 0x12104EE9, 0xB1D59F71, 0x75507C4B), 0x2C4C700C,
            Regs(0x8370B52E, 0x4AA84D97, 0x6F8D7EF5, 0x12104EE9, 0xB1D59F71));
    RoundIs(block, INITIAL, 29, Regs(0x8370B52E, 0x4AA84D97, 0x6F8D7EF5, 0x12104EE9, 0xB1D59F71), 0x000000F0,
            Regs(0xC5FBAF5D, 0x8370B52E, 0xD2AA1365, 0x6F8D7EF5, 0x12104EE9));
    RoundIs(block, INITIAL, 30, Regs(0xC5FBAF5D, 0x8370B52E, 0xD2AA1365, 0x6F8D7EF5, 0x12104EE9), 0x93AFB507,
            Regs(0x1267B407, 0xC5FBAF5D, 0xA0DC2D4B, 0xD2AA1365, 0x6F8D7EF5));
    RoundIs(block, INITIAL, 31, Regs(0x1267B407, 0xC5FBAF5D, 0xA0DC2D4B, 0xD2AA1365, 0x6F8D7EF5), 0x5898E048,
            Regs(0x3B845D33, 0x1267B407, 0x717EEBD7, 0xA0DC2D4B, 0xD2AA1365));
  }

  lemma Rounds40(block: seq<Word>)
    requires AbcBlock(block)
    ensures Rounds(block, INITIAL, 40) == Regs(0x32DE1CBA, 0x4C986405, 0xF718E5CF, 0x03D447F6, 0xF72EEC32)
  {
    hide Rounds, W;
    Rounds32(block);
    Words32(block);
    RoundIs(block, INITIAL, 32, Regs(0x3B845D33, 0x1267B407, 0x717EEBD7, 0xA0DC2D4B, 0xD2AA1365), 0x8E9A9202,
            Regs(0x046FAA0A, 0x3B845D33, 0xC499ED01, 0x717EEBD7, 0xA0DC2D4B));
    RoundIs(block, INITIAL, 33, Regs(0x046FAA0A, 0x3B845D33, 0xC499ED01, 0x717EEBD7, 0xA0DC2D4B), 0x00000600,
            Regs(0x2C0EBC11, 0x046FAA0A, 0xCEE1174C, 0xC499ED01, 0x717EEBD7));
    RoundIs(block, INITIAL, 34, Regs(0x2C0EBC11, 0x046FAA0A, 0xCEE1174C, 0xC499ED01, 0x717EEBD7), 0xB131C0F0,
            Regs(0x21796AD4, 0x2C0EBC11, 0x811BEA82, 0xCEE1174C, 0xC499ED01));
    RoundIs(block, INITIAL, 35, Regs(0x21796AD4, 0x2C0EBC11, 0x811BEA82, 0xCEE1174C, 0xC499ED01), 0x16263BC6,
            Regs(0xDCBBB0CB, 0x21796AD4, 0x4B03AF04, 0x811BEA82, 0xCEE1174C));
    RoundIs(block, INITIAL, 36, Regs(0xDCBBB0CB, 0x21796AD4, 0x4B03AF04, 0x811BEA82, 0xCEE1174C), 0x4EBED41E,
            Regs(0x0F511FD8, 0xDCBBB0CB, 0x085E5AB5, 0x4B03AF04, 0x811BEA82));
    RoundIs(block, INITIAL, 37, Regs(0x0F511FD8, 0xDCBBB0CB, 0x085E5AB5, 0x4B03AF04, 0x811BEA82), 0x626380A1,
            Regs(0xDC63973F, 0x0F511FD8, 0xF72EEC32, 0x085E5AB5, 0x4B03AF04));
    RoundIs(block, INITIAL, 38, Regs(0xDC63973F, 0x0F511FD8, 0xF72EEC32, 0x085E5AB5, 0x4B03AF04), 0x16263806,
            Regs(0x4C986405, 0xDC63973F, 0x03D447F6, 0xF72EEC32, 0x085E5AB5));
    RoundIs(block, INITIAL, 39, Regs(0x4C986405, 0xDC63973F, 0x03D447F6, 0xF72EEC32, 0x085E5AB5), 0x000018C0,
            Regs(0x32DE1CBA, 0x4C986405, 0xF718E5CF, 0x03D447F6, 0xF72EEC32));
  }

  lemma Rounds48(block: seq<Word>)
    requires AbcBlock(block)
    ensures Rounds(block, INITIAL, 48) == Regs(0xBEAD02CA, 0xA01B846C, 0x8714787C, 0x503CA382, 0xFB86C6AB)
  {
    hide Rounds, W;
    Rounds40(block);
    Words40(block);
    RoundIs(block, INITIAL, 40, Regs(0x32DE1CBA, 0x4C986405, 0xF718E5CF, 0x03D447F6, 0xF72EEC32), 0xD2E138C4,
            Regs(0xFC87DEDF, 0x32DE1CBA, 0x53261901, 0xF718E5CF, 0x03D447F6));
    RoundIs(block, INITIAL, 41, Regs(0xFC87DEDF, 0x32DE1CBA, 0x53261901, 0xF718E5CF, 0x03D447F6), 0x00000F00,
            Regs(0x970A0D5C, 0xFC87DEDF, 0x8CB7872E, 0x53261901, 0xF718E5CF));
    RoundIs(block, INITIAL, 42, Regs(0x970A0D5C, 0xFC87DEDF, 0x8CB7872E, 0x53261901, 0xF718E5CF), 0x3AFB5079,
            Regs(0x7F193DC5, 0x970A0D5C, 0xFF21F7B7, 0x8CB7872E, 0x53261901));
    RoundIs(block, INITIAL, 43, Regs(0x7F193DC5, 0x970A0D5C, 0xFF21F7B7, 0x8CB7872E, 0x53261901), 0x898E04E5,
            Regs(0xEE1B1AAF, 0x7F193DC5, 0x25C28357, 0xFF21F7B7, 0x8CB7872E));
    RoundIs(block, INITIAL, 44, Regs(0xEE1B1AAF, 0x7F193DC5, 0x25C28357, 0xFF21F7B7, 0x8CB7872E), 0xE2BA3C2B,
            Regs(0x40F28E09, 0xEE1B1AAF, 0x5FC64F71, 0x25C28357, 0xFF21F7B7));
    RoundIs(block, INITIAL, 45, Regs(0x40F28E09, 0xEE1B1AAF, 0x5FC64F71, 0x25C28357, 0xFF21F7B7), 0x000060C0,
            Regs(0x1C51E1F2, 0x40F28E09, 0xFB86C6AB, 0x5FC64F71, 0x25C28357));
    RoundIs(block, INITIAL, 46, Regs(0x1C51E1F2, 0x40F28E09, 0xFB86C6AB, 0x5FC64F71, 0x25C28357), 0x053A37CD,
            Regs(0xA01B846C, 0x1C51E1F2, 0x503CA382, 0xFB86C6AB, 0x5FC64F71));
    RoundIs(block, INITIAL, 47, Regs(0xA01B846C, 0x1C51E1F2, 0x503CA382, 0xFB86C6AB, 0x5FC64F71), 0x74458547,
            Regs(0xBEAD02CA, 0xA01B846C, 0x8714787C, 0x503CA382, 0xFB86C6AB));
  }

  lemma Rounds56(block: seq<Word>)
    requires AbcBlock(block)
    ensures Rounds(block, INITIAL, 56) == Regs(0x5E6456AF, 0x7B71F76D, 0x09FA7C76, 0x792410DB, 0x8E11EB59)
  {
    hide Rounds, W;
    Rounds48(block);
    Words48(block);
    RoundIs(block, INITIAL, 48, Regs(0xBEAD02CA, 0xA01B846C, 0x8714787C, 0x503CA382, 0xFB86C6AB), 0xDA9415ED,
            Regs(0xBAF39337, 0xBEAD02CA, 0x2806E11B, 0x8714787C, 0x503CA382));
    RoundIs(block, INITIAL, 49, Regs(0xBAF39337, 0xBEAD02CA, 0x2806E11B, 0x8714787C, 0x503CA382), 0x26380A16,
            Regs(0x120731C5, 0xBAF39337, 0xAFAB40B2, 0x2806E11B, 0x8714787C));
    RoundIs(block, INITIAL, 50, Regs(0x120731C5, 0xBAF39337, 0xAFAB40B2, 0x2806E11B, 0x8714787C), 0x626383A1,
            Regs(0x641DB2CE, 0x120731C5, 0xEEBCE4CD, 0xAFAB40B2, 0x2806E11B));
    RoundIs(block, INITIAL, 51, Regs(0x641DB2CE, 0x120731C5, 0xEEBCE4CD, 0xAFAB40B2, 0x2806E11B), 0x4EBF54DE,
            Regs(0x3847AD66, 0x641DB2CE, 0x4481CC71, 0xEEBCE4CD, 0xAFAB40B2));
    RoundIs(block, INITIAL, 52, Regs(0x3847AD66, 0x641DB2CE, 0x4481CC71, 0xEEBCE4CD, 0xAFAB40B2), 0x3835B44B,
            Regs(0xE490436D, 0x3847AD66, 0x99076CB3, 0x4481CC71, 0xEEBCE4CD));
    RoundIs(block, INITIAL, 53, Regs(0xE490436D, 0x3847AD66, 0x99076CB3, 0x4481CC71, 0xEEBCE4CD), 0x0000F600,
            Regs(0x27E9F1D8, 0xE490436D, 0x8E11EB59, 0x99076CB3, 0x4481CC71));
    RoundIs(block, INITIAL, 54, Regs(0x27E9F1D8, 0xE490436D, 0x8E11EB59, 0x99076CB3, 0x4481CC71), 0x1E84C7A3,
            Regs(0x7B71F76D, 0x27E9F1D8, 0x792410DB, 0x8E11EB59, 0x99076CB3));
    RoundIs(block, INITIAL, 55, Regs(0x7B71F76D, 0x27E9F1D8, 0x792410DB, 0x8E11EB59, 0x99076CB3), 0x98E04D98,
            Regs(0x5E6456AF, 0x7B71F76D, 0x09FA7C76, 0x792410DB, 0x8E11EB59));
  }

  lemma Rounds64(block: seq<Word>)
    requires AbcBlock(block)
    ensures Rounds(block, INITIAL, 64) == Regs(0x6B61C9E1, 0xB66C020B, 0x9523272C, 0xF5D5B051, 0x8FD4B796)
  {
    hide Rounds, W;
    Rounds56(block);
    Words56(block);
    RoundIs(block, INITIAL, 56, Regs(0x5E6456AF, 0x7B71F76D, 0x09FA7C76, 0x792410DB, 0x8E11EB59), 0x651D16A0,
            Regs(0xC846093F, 0x5E6456AF, 0x5EDC7DDB, 0x09FA7C76, 0x792410DB));
    RoundIs(block, INITIAL, 57, Regs(0xC846093F, 0x5E6456AF, 0x5EDC7DDB, 0x09FA7C76, 0x792410DB), 0x62658CA1,
            Regs(0xD262FF50, 0xC846093F, 0xD79915AB, 0x5EDC7DDB, 0x09FA7C76));
    RoundIs(block, INITIAL, 58, Regs(0xD262FF50, 0xC846093F, 0xD79915AB, 0x5EDC7DDB, 0x09FA7C76), 0x458544D6,
            Regs(0x09D785FD, 0xD262FF50, 0xF211824F, 0xD79915AB, 0x5EDC7DDB));
    RoundIs(block, INITIAL, 59, Regs(0x09D785FD, 0xD262FF50, 0xF211824F, 0xD79915AB, 0x5EDC7DDB), 0x44584CB7,
            Regs(0x3F52DE5A, 0x09D785FD, 0x3498BFD4, 0xF211824F, 0xD79915AB));
    RoundIs(block, INITIAL, 60, Regs(0x3F52DE5A, 0x09D785FD, 0x3498BFD4, 0xF211824F, 0xD79915AB), 0x7BA06619,
            Regs(0xD756C147, 0x3F52DE5A, 0x4275E17F, 0x3498BFD4, 0xF211824F));
    RoundIs(block, INITIAL, 61, Regs(0xD756C147, 0x3F52DE5A, 0x4275E17F, 0x3498BFD4, 0xF211824F), 0x6380AEA2,
            Regs(0x548C9CB2, 0xD756C147, 0x8FD4B796, 0x4275E17F, 0x3498BFD4));
    RoundIs(block, INITIAL, 62, Regs(0x548C9CB2, 0xD756C147, 0x8FD4B796, 0x4275E17F, 0x3498BFD4), 0x0AE55269,
            Regs(0xB66C020B, 0x548C9CB2, 0xF5D5B051, 0x8FD4B796, 0x4275E17F));
    RoundIs(block, INITIAL, 63, Regs(0xB66C020B, 0x548C9CB2, 0xF5D5B051, 0x8FD4B796, 0x4275E17F), 0x627B49A1,
            Regs(0x6B61C9E1, 0xB66C020B, 0x9523272C, 0xF5D5B051, 0x8FD4B796));
  }

  lemma Rounds72(block: seq<Word>)
    requires AbcBlock(block)
    ensures Rounds(block, INITIAL, 72) == Regs(0x39859DE7, 0xC199F8C7, 0x8FC96230, 0x125C24F0, 0xDE37534A)
  {
    hide Rounds, W;
    Rounds64(block);
    Words64(block);
    RoundIs(block, INITIAL, 64, Regs(0x6B61C9E1, 0xB66C020B, 0x9523272C, 0xF5D5B051, 0x8FD4B796), 0x7CD45C9D,
            Regs(0x19DFA7AC, 0x6B61C9E1, 0xED9B0082, 0x9523272C, 0xF5D5B051));
    RoundIs(block, INITIAL, 65, Regs(0x19DFA7AC, 0x6B61C9E1, 0xED9B0082, 0x9523272C, 0xF5D5B051), 0x000F0000,
            Regs(0x101655F9, 0x19DFA7AC, 0x5AD87278, 0xED9B0082, 0x9523272C));
    RoundIs(block, INITIAL, 66, Regs(0x101655F9, 0x19DFA7AC, 0x5AD87278, 0xED9B0082, 0x9523272C), 0xFB50753A,
            Regs(0x0C3DF2B4, 0x101655F9, 0x0677E9EB, 0x5AD87278, 0xED9B0082));
    RoundIs(block, INITIAL, 67, Regs(0x0C3DF2B4, 0x101655F9, 0x0677E9EB, 0x5AD87278, 0xED9B0082), 0xEC6765E8,
            Regs(0x78DD4D2B, 0x0C3DF2B4, 0x4405957E, 0x0677E9EB, 0x5AD87278));
    RoundIs(block, INITIAL, 68, Regs(0x78DD4D2B, 0x0C3DF2B4, 0x4405957E, 0x0677E9EB, 0x5AD87278), 0xBA3C2BE2,
            Regs(0x497093C0, 0x78DD4D2B, 0x030F7CAD, 0x4405957E, 0x0677E9EB));
    RoundIs(block, INITIAL, 69, Regs(0x497093C0, 0x78DD4D2B, 0x030F7CAD, 0x4405957E, 0x0677E9EB), 0x0060C000,
            Regs(0x3F2588C2, 0x497093C0, 0xDE37534A, 0x030F7CAD, 0x4405957E));
    RoundIs(block, INITIAL, 70, Regs(0x3F2588C2, 0x497093C0, 0xDE37534A, 0x030F7CAD, 0x4405957E), 0x3A37CD05,
            Regs(0xC199F8C7, 0x3F2588C2, 0x125C24F0, 0xDE37534A, 0x030F7CAD));
    RoundIs(block, INITIAL, 71, Regs(0xC199F8C7, 0x3F2588C2, 0x125C24F0, 0xDE37534A, 0x030F7CAD), 0x458546F4,
            Regs(0x39859DE7, 0xC199F8C7, 0x8FC96230, 0x125C24F0, 0xDE37534A));
  }

  lemma Rounds80(block: seq<Word>)
    requires AbcBlock(block)
    ensures Rounds(block, INITIAL, 80) == Regs(0x42541B35, 0x5738D5E1, 0x21834873, 0x681E6DF6, 0xD8FDF6AD)
  {
    hide Rounds, W;
    Rounds72(block);
    Words72(block);
    RoundIs(block, INITIAL, 72, Regs(0x39859DE7, 0xC199F8C7, 0x8FC96230, 0x125C24F0, 0xDE37534A), 0xB8599DD6,
            Regs(0xEDB42DE4, 0x39859DE7, 0xF0667E31, 0x8FC96230, 0x125C24F0));
    RoundIs(block, INITIAL, 73, Regs(0xEDB42DE4, 0x39859DE7, 0xF0667E31, 0x8FC96230, 0x125C24F0), 0x380A1A26,
            Regs(0x11793F6F, 0xEDB42DE4, 0xCE616779, 0xF0667E31, 0x8FC96230));
    RoundIs(block, INITIAL, 74, Regs(0x11793F6F, 0xEDB42DE4, 0xCE616779, 0xF0667E31, 0x8FC96230), 0x01E02203,
            Regs(0x5EE76897, 0x11793F6F, 0x3B6D0B79, 0xCE616779, 0xF0667E31));
    RoundIs(block, INITIAL, 75, Regs(0x5EE76897, 0x11793F6F, 0x3B6D0B79, 0xCE616779, 0xF0667E31), 0xE7CC3456,
            Regs(0x63F7DAB7, 0x5EE76897, 0xC45E4FDB, 0x3B6D0B79, 0xCE616779));
    RoundIs(block, INITIAL, 76, Regs(0x63F7DAB7, 0x5EE76897, 0xC45E4FDB, 0x3B6D0B79, 0xCE616779), 0xE6E60B69,
            Regs(0xA079B7D9, 0x63F7DAB7, 0xD7B9DA25, 0xC45E4FDB, 0x3B6D0B79));
    RoundIs(block, INITIAL, 77, Regs(0xA079B7D9, 0x63F7DAB7, 0xD7B9DA25, 0xC45E4FDB, 0x3B6D0B79), 0x00F60A00,
            Regs(0x860D21CC, 0xA079B7D9, 0xD8FDF6AD, 0xD7B9DA25, 0xC45E4FDB));
    RoundIs(block, INITIAL, 78, Regs(0x860D21CC, 0xA079B7D9, 0xD8FDF6AD, 0xD7B9DA25, 0xC45E4FDB), 0x5795EF4F,
            Regs(0x5738D5E1, 0x860D21CC, 0x681E6DF6, 0xD8FDF6AD, 0xD7B9DA25));
    RoundIs(block, INITIAL, 79, Regs(0x5738D5E1, 0x860D21CC, 0x681E6DF6, 0xD8FDF6AD, 0xD7B9DA25), 0x822E0879,
            Regs(0x42541B35, 0x5738D5E1, 0x21834873, 0x681E6DF6, 0xD8FDF6AD));
  }

  lemma NoRounds(block: seq<Word>, r: Regs)
    requires |block| == 16
    ensures Rounds(block, r, 0) == r
  {
  }

  // ---- the digest

  lemma AbcWords(m: seq<Byte>)
    requires m == [0x61, 0x62, 0x63] + Padding(3)
    ensures |m| == 64 && AbcBlock(Words(m))
  {
    hide ToWord;
    LengthOfThree();
    WordLiterals();
  }

  lemma LengthOfThree()
    ensures LengthField(3) == [0, 0, 0, 0, 0, 0, 0, 24] && ZeroCount(3) == 52
  {
  }

  lemma WordLiterals()
    ensures ToWord(0x61, 0x62, 0x63, 0x80) == 0x61626380 && ToWord(0, 0, 0, 0) == 0 && ToWord(0, 0, 0, 24) == 0x18
  {
  }

  lemma ByteLiterals()
    ensures ToBytes(0xA9993E36) == [0xA9, 0x99, 0x3E, 0x36]
    ensures ToBytes(0x4706816A) == [0x47, 0x06, 0x81, 0x6A]
    ensures ToBytes(0xBA3E2571) == [0xBA, 0x3E, 0x25, 0x71]
    ensures ToBytes(0x7850C26C) == [0x78, 0x50, 0xC2, 0x6C]
    ensures ToBytes(0x9CD0D89D) == [0x9C, 0xD0, 0xD8, 0x9D]
  {
  }

  lemma AbcRegs(block: seq<Word>)
    requires AbcBlock(block)
    ensures Compress(INITIAL, block) == Regs(0xA9993E36, 0x4706816A, 0xBA3E2571, 0x7850C26C, 0x9CD0D89D)
  {
    hide Rounds, AbcBlock;
    Rounds80(block);
  }

  lemma OneBlock(m: seq<Byte>)
    requires |m| == 64
    ensures Absorb(INITIAL, m) == Compress(INITIAL, Words(m))
  {
    hide Compress, Words;
    assert m[..64] == m && m[64..] == [];
  }

  /** The digest is the one the standard prints. */
  lemma AbcDigest()
    ensures Digest([0x61, 0x62, 0x63])
         == [0xA9, 0x99, 0x3E, 0x36,
             0x47, 0x06, 0x81, 0x6A,
             0xBA, 0x3E, 0x25, 0x71,
             0x78, 0x50, 0xC2, 0x6C,
             0x9C, 0xD0, 0xD8, 0x9D]
  {
    hide Compress, Words, ToBytes, Padding, AbcBlock, Absorb;
    var m := [0x61, 0x62, 0x63] + Padding(3);
    AbcWords(m);
    AbcRegs(Words(m));
    OneBlock(m);
    ByteLiterals();
  }
}
