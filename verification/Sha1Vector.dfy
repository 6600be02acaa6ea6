/**
 The test vector of appendix A of FIPS 180-1 that sha1.c quotes: the digest of
 the three bytes "abc".  It fixes every constant and function of the model.
 */
module Sha1Vector {
  import opened Words
  import opened Sha1

  const ABC: seq<bv8> := [0x61, 0x62, 0x63]

  /** One word of the schedule from the four it depends on. */
  lemma Word(m: Block, t: nat, a: bv32, b: bv32, c: bv32, d: bv32, r: bv32)
    requires t >= 16 && Schedule(m, t - 3) == a && Schedule(m, t - 8) == b && Schedule(m, t - 14) == c && Schedule(m, t - 16) == d
    requires Rol(a ^ b ^ c ^ d, 1) == r
    ensures Schedule(m, t) == r
  {
    hide Rol;
  }

  /** One step of the registers. */
  lemma Round(h: Regs, m: Block, t: nat, r: Regs, w: bv32, q: Regs)
    requires Steps(h, m, t) == r && Schedule(m, t) == w && Step(r, t, w) == q
    ensures Steps(h, m, t + 1) == q
  {
    hide Step, Schedule;
  }

  lemma Words16(m: Block)
    requires Schedule(m, 0) == 0x61626380 && Schedule(m, 1) == 0x00000000 && Schedule(m, 2) == 0x00000000 && Schedule(m, 3) == 0x00000000
    requires Schedule(m, 4) == 0x00000000 && Schedule(m, 5) == 0x00000000 && Schedule(m, 6) == 0x00000000 && Schedule(m, 7) == 0x00000000
    requires Schedule(m, 8) == 0x00000000 && Schedule(m, 9) == 0x00000000 && Schedule(m, 10) == 0x00000000 && Schedule(m, 11) == 0x00000000
    requires Schedule(m, 12) == 0x00000000 && Schedule(m, 13) == 0x00000000 && Schedule(m, 14) == 0x00000000 && Schedule(m, 15) == 0x00000018
    ensures Schedule(m, 16) == 0xC2C4C700 && Schedule(m, 17) == 0x00000000 && Schedule(m, 18) == 0x00000030 && Schedule(m, 19) == 0x85898E01
    ensures Schedule(m, 20) == 0x00000000 && Schedule(m, 21) == 0x00000060 && Schedule(m, 22) == 0x0B131C03 && Schedule(m, 23) == 0x00000030
  {
    hide Schedule;
    Word(m, 16, 0x00000000, 0x00000000, 0x00000000, 0x61626380, 0xC2C4C700);
    Word(m, 17, 0x00000000, 0x00000000, 0x00000000, 0x00000000, 0x00000000);
    Word(m, 18, 0x00000018, 0x00000000, 0x00000000, 0x00000000, 0x00000030);
    Word(m, 19, 0xC2C4C700, 0x00000000, 0x00000000, 0x00000000, 0x85898E01);
    Word(m, 20, 0x00000000, 0x00000000, 0x00000000, 0x00000000, 0x00000000);
    Word(m, 21, 0x00000030, 0x00000000, 0x00000000, 0x00000000, 0x00000060);
    Word(m, 22, 0x85898E01, 0x00000000, 0x00000000, 0x00000000, 0x0B131C03);
    Word(m, 23, 0x00000000, 0x00000018, 0x00000000, 0x00000000, 0x00000030);
  }

  lemma Words24(m: Block)
    requires Schedule(m, 8) == 0x00000000 && Schedule(m, 9) == 0x00000000 && Schedule(m, 10) == 0x00000000 && Schedule(m, 11) == 0x00000000
    requires Schedule(m, 12) == 0x00000000 && Schedule(m, 13) == 0x00000000 && Schedule(m, 14) == 0x00000000 && Schedule(m, 15) == 0x00000018
    requires Schedule(m, 16) == 0xC2C4C700 && Schedule(m, 17) == 0x00000000 && Schedule(m, 18) == 0x00000030 && Schedule(m, 19) == 0x85898E01
    requires Schedule(m, 20) == 0x00000000 && Schedule(m, 21) == 0x00000060 && Schedule(m, 22) == 0x0B131C03 && Schedule(m, 23) == 0x00000030
    ensures Schedule(m, 24) == 0x85898EC1 && Schedule(m, 25) == 0x16263806 && Schedule(m, 26) == 0x00000000 && Schedule(m, 27) == 0x00000180
    ensures Schedule(m, 28) == 0x2C4C700C && Schedule(m, 29) == 0x000000F0 && Schedule(m, 30) == 0x93AFB507 && Schedule(m, 31) == 0x5898E048
  {
    hide Schedule;
    Word(m, 24, 0x00000060, 0xC2C4C700, 0x00000000, 0x00000000, 0x85898EC1);
    Word(m, 25, 0x0B131C03, 0x00000000, 0x00000000, 0x00000000, 0x16263806);
    Word(m, 26, 0x00000030, 0x00000030, 0x00000000, 0x00000000, 0x00000000);
    Word(m, 27, 0x85898EC1, 0x85898E01, 0x00000000, 0x00000000, 0x00000180);
    Word(m, 28, 0x16263806, 0x00000000, 0x00000000, 0x00000000, 0x2C4C700C);
    Word(m, 29, 0x00000000, 0x00000060, 0x00000018, 0x00000000, 0x000000F0);
    Word(m, 30, 0x00000180, 0x0B131C03, 0xC2C4C700, 0x00000000, 0x93AFB507);
    Word(m, 31, 0x2C4C700C, 0x00000030, 0x00000000, 0x00000018, 0x5898E048);
  }

  lemma Words32(m: Block)
    requires Schedule(m, 16) == 0xC2C4C700 && Schedule(m, 17) == 0x00000000 && Schedule(m, 18) == 0x00000030 && Schedule(m, 19) == 0x85898E01
    requires Schedule(m, 20) == 0x00000000 && Schedule(m, 21) == 0x00000060 && Schedule(m, 22) == 0x0B131C03 && Schedule(m, 23) == 0x00000030
    requires Schedule(m, 24) == 0x85898EC1 && Schedule(m, 25) == 0x16263806 && Schedule(m, 26) == 0x00000000 && Schedule(m, 27) == 0x00000180
    requires Schedule(m, 28) == 0x2C4C700C && Schedule(m, 29) == 0x000000F0 && Schedule(m, 30) == 0x93AFB507 && Schedule(m, 31) == 0x5898E048
    ensures Schedule(m, 32) == 0x8E9A9202 && Schedule(m, 33) == 0x00000600 && Schedule(m, 34) == 0xB131C0F0 && Schedule(m, 35) == 0x16263BC6
    ensures Schedule(m, 36) == 0x4EBED41E && Schedule(m, 37) == 0x626380A1 && Schedule(m, 38) == 0x16263806 && Schedule(m, 39) == 0x000018C0
  {
    hide Schedule;
    Word(m, 32, 0x000000F0, 0x85898EC1, 0x00000030, 0xC2C4C700, 0x8E9A9202);
    Word(m, 33, 0x93AFB507, 0x16263806, 0x85898E01, 0x00000000, 0x00000600);
    Word(m, 34, 0x5898E048, 0x00000000, 0x00000000, 0x00000030, 0xB131C0F0);
    Word(m, 35, 0x8E9A9202, 0x00000180, 0x00000060, 0x85898E01, 0x16263BC6);
    Word(m, 36, 0x00000600, 0x2C4C700C, 0x0B131C03, 0x00000000, 0x4EBED41E);
    Word(m, 37, 0xB131C0F0, 0x000000F0, 0x00000030, 0x00000060, 0x626380A1);
    Word(m, 38, 0x16263BC6, 0x93AFB507, 0x85898EC1, 0x0B131C03, 0x16263806);
    Word(m, 39, 0x4EBED41E, 0x5898E048, 0x16263806, 0x00000030, 0x000018C0);
  }

  lemma Words40(m: Block)
    requires Schedule(m, 24) == 0x85898EC1 && Schedule(m, 25) == 0x16263806 && Schedule(m, 26) == 0x00000000 && Schedule(m, 27) == 0x00000180
    requires Schedule(m, 28) == 0x2C4C700C && Schedule(m, 29) == 0x000000F0 && Schedule(m, 30) == 0x93AFB507 && Schedule(m, 31) == 0x5898E048
    requires Schedule(m, 32) == 0x8E9A9202 && Schedule(m, 33) == 0x00000600 && Schedule(m, 34) == 0xB131C0F0 && Schedule(m, 35) == 0x16263BC6
    requires Schedule(m, 36) == 0x4EBED41E && Schedule(m, 37) == 0x626380A1 && Schedule(m, 38) == 0x16263806 && Schedule(m, 39) == 0x000018C0
    ensures Schedule(m, 40) == 0xD2E138C4 && Schedule(m, 41) == 0x00000F00 && Schedule(m, 42) == 0x3AFB5079 && Schedule(m, 43) == 0x898E04E5
    ensures Schedule(m, 44) == 0xE2BA3C2B && Schedule(m, 45) == 0x000060C0 && Schedule(m, 46) == 0x053A37CD && Schedule(m, 47) == 0x74458547
  {
    hide Schedule;
    Word(m, 40, 0x626380A1, 0x8E9A9202, 0x00000000, 0x85898EC1, 0xD2E138C4);
    Word(m, 41, 0x16263806, 0x00000600, 0x00000180, 0x16263806, 0x00000F00);
    Word(m, 42, 0x000018C0, 0xB131C0F0, 0x2C4C700C, 0x00000000, 0x3AFB5079);
    Word(m, 43, 0xD2E138C4, 0x16263BC6, 0x000000F0, 0x00000180, 0x898E04E5);
    Word(m, 44, 0x00000F00, 0x4EBED41E, 0x93AFB507, 0x2C4C700C, 0xE2BA3C2B);
    Word(m, 45, 0x3AFB5079, 0x626380A1, 0x5898E048, 0x000000F0, 0x000060C0);
    Word(m, 46, 0x898E04E5, 0x16263806, 0x8E9A9202, 0x93AFB507, 0x053A37CD);
    Word(m, 47, 0xE2BA3C2B, 0x000018C0, 0x00000600, 0x5898E048, 0x74458547);
  }

  lemma Words48(m: Block)
    requires Schedule(m, 32) == 0x8E9A9202 && Schedule(m, 33) == 0x00000600 && Schedule(m, 34) == 0xB131C0F0 && Schedule(m, 35) == 0x16263BC6
    requires Schedule(m, 36) == 0x4EBED41E && Schedule(m, 37) == 0x626380A1 && Schedule(m, 38) == 0x16263806 && Schedule(m, 39) == 0x000018C0
    requires Schedule(m, 40) == 0xD2E138C4 && Schedule(m, 41) == 0x00000F00 && Schedule(m, 42) == 0x3AFB5079 && Schedule(m, 43) == 0x898E04E5
    requires Schedule(m, 44) == 0xE2BA3C2B && Schedule(m, 45) == 0x000060C0 && Schedule(m, 46) == 0x053A37CD && Schedule(m, 47) == 0x74458547
    ensures Schedule(m, 48) == 0xDA9415ED && Schedule(m, 49) == 0x26380A16 && Schedule(m, 50) == 0x626383A1 && Schedule(m, 51) == 0x4EBF54DE
    ensures Schedule(m, 52) == 0x3835B44B && Schedule(m, 53) == 0x0000F600 && Schedule(m, 54) == 0x1E84C7A3 && Schedule(m, 55) == 0x98E04D98
  {
    hide Schedule;
    Word(m, 48, 0x000060C0, 0xD2E138C4, 0xB131C0F0, 0x8E9A9202, 0xDA9415ED);
    Word(m, 49, 0x053A37CD, 0x00000F00, 0x16263BC6, 0x00000600, 0x26380A16);
    Word(m, 50, 0x74458547, 0x3AFB5079, 0x4EBED41E, 0xB131C0F0, 0x626383A1);
    Word(m, 51, 0xDA9415ED, 0x898E04E5, 0x626380A1, 0x16263BC6, 0x4EBF54DE);
    Word(m, 52, 0x26380A16, 0xE2BA3C2B, 0x16263806, 0x4EBED41E, 0x3835B44B);
    Word(m, 53, 0x626383A1, 0x000060C0, 0x000018C0, 0x626380A1, 0x0000F600);
    Word(m, 54, 0x4EBF54DE, 0x053A37CD, 0xD2E138C4, 0x16263806, 0x1E84C7A3);
    Word(m, 55, 0x3835B44B, 0x74458547, 0x00000F00, 0x000018C0, 0x98E04D98);
  }

  lemma Words56(m: Block)
    requires Schedule(m, 40) == 0xD2E138C4 && Schedule(m, 41) == 0x00000F00 && Schedule(m, 42) == 0x3AFB5079 && Schedule(m, 43) == 0x898E04E5
    requires Schedule(m, 44) == 0xE2BA3C2B && Schedule(m, 45) == 0x000060C0 && Schedule(m, 46) == 0x053A37CD && Schedule(m, 47) == 0x74458547
    requires Schedule(m, 48) == 0xDA9415ED && Schedule(m, 49) == 0x26380A16 && Schedule(m, 50) == 0x626383A1 && Schedule(m, 51) == 0x4EBF54DE
    requires Schedule(m, 52) == 0x3835B44B && Schedule(m, 53) == 0x0000F600 && Schedule(m, 54) == 0x1E84C7A3 && Schedule(m, 55) == 0x98E04D98
    ensures Schedule(m, 56) == 0x651D16A0 && Schedule(m, 57) == 0x62658CA1 && Schedule(m, 58) == 0x458544D6 && Schedule(m, 59) == 0x44584CB7
    ensures Schedule(m, 60) == 0x7BA06619 && Schedule(m, 61) == 0x6380AEA2 && Schedule(m, 62) == 0x0AE55269 && Schedule(m, 63) == 0x627B49A1
  {
    hide Schedule;
    Word(m, 56, 0x0000F600, 0xDA9415ED, 0x3AFB5079, 0xD2E138C4, 0x651D16A0);
    Word(m, 57, 0x1E84C7A3, 0x26380A16, 0x898E04E5, 0x00000F00, 0x62658CA1);
    Word(m, 58, 0x98E04D98, 0x626383A1, 0xE2BA3C2B, 0x3AFB5079, 0x458544D6);
    Word(m, 59, 0x651D16A0, 0x4EBF54DE, 0x000060C0, 0x898E04E5, 0x44584CB7);
    Word(m, 60, 0x62658CA1, 0x3835B44B, 0x053A37CD, 0xE2BA3C2B, 0x7BA06619);
    Word(m, 61, 0x458544D6, 0x0000F600, 0x74458547, 0x000060C0, 0x6380AEA2);
    Word(m, 62, 0x44584CB7, 0x1E84C7A3, 0xDA9415ED, 0x053A37CD, 0x0AE55269);
    Word(m, 63, 0x7BA06619, 0x98E04D98, 0x26380A16, 0x74458547, 0x627B49A1);
  }

  lemma Words64(m: Block)
    requires Schedule(m, 48) == 0xDA9415ED && Schedule(m, 49) == 0x26380A16 && Schedule(m, 50) == 0x626383A1 && Schedule(m, 51) == 0x4EBF54DE
    requires Schedule(m, 52) == 0x3835B44B && Schedule(m, 53) == 0x0000F600 && Schedule(m, 54) == 0x1E84C7A3 && Schedule(m, 55) == 0x98E04D98
    requires Schedule(m, 56) == 0x651D16A0 && Schedule(m, 57) == 0x62658CA1 && Schedule(m, 58) == 0x458544D6 && Schedule(m, 59) == 0x44584CB7
    requires Schedule(m, 60) == 0x7BA06619 && Schedule(m, 61) == 0x6380AEA2 && Schedule(m, 62) == 0x0AE55269 && Schedule(m, 63) == 0x627B49A1
    ensures Schedule(m, 64) == 0x7CD45C9D && Schedule(m, 65) == 0x000F0000 && Schedule(m, 66) == 0xFB50753A && Schedule(m, 67) == 0xEC6765E8
    ensures Schedule(m, 68) == 0xBA3C2BE2 && Schedule(m, 69) == 0x0060C000 && Schedule(m, 70) == 0x3A37CD05 && Schedule(m, 71) == 0x458546F4
  {
    hide Schedule;
    Word(m, 64, 0x6380AEA2, 0x651D16A0, 0x626383A1, 0xDA9415ED, 0x7CD45C9D);
    Word(m, 65, 0x0AE55269, 0x62658CA1, 0x4EBF54DE, 0x26380A16, 0x000F0000);
    Word(m, 66, 0x627B49A1, 0x458544D6, 0x3835B44B, 0x626383A1, 0xFB50753A);
    Word(m, 67, 0x7CD45C9D, 0x44584CB7, 0x0000F600, 0x4EBF54DE, 0xEC6765E8);
    Word(m, 68, 0x000F0000, 0x7BA06619, 0x1E84C7A3, 0x3835B44B, 0xBA3C2BE2);
    Word(m, 69, 0xFB50753A, 0x6380AEA2, 0x98E04D98, 0x0000F600, 0x0060C000);
    Word(m, 70, 0xEC6765E8, 0x0AE55269, 0x651D16A0, 0x1E84C7A3, 0x3A37CD05);
    Word(m, 71, 0xBA3C2BE2, 0x627B49A1, 0x62658CA1, 0x98E04D98, 0x458546F4);
  }

  lemma Words72(m: Block)
    requires Schedule(m, 56) == 0x651D16A0 && Schedule(m, 57) == 0x62658CA1 && Schedule(m, 58) == 0x458544D6 && Schedule(m, 59) == 0x44584CB7
    requires Schedule(m, 60) == 0x7BA06619 && Schedule(m, 61) == 0x6380AEA2 && Schedule(m, 62) == 0x0AE55269 && Schedule(m, 63) == 0x627B49A1
    requires Schedule(m, 64) == 0x7CD45C9D && Schedule(m, 65) == 0x000F0000 && Schedule(m, 66) == 0xFB50753A && Schedule(m, 67) == 0xEC6765E8
    requires Schedule(m, 68) == 0xBA3C2BE2 && Schedule(m, 69) == 0x0060C000 && Schedule(m, 70) == 0x3A37CD05 && Schedule(m, 71) == 0x458546F4
    ensures Schedule(m, 72) == 0xB8599DD6 && Schedule(m, 73) == 0x380A1A26 && Schedule(m, 74) == 0x01E02203 && Schedule(m, 75) == 0xE7CC3456
    ensures Schedule(m, 76) == 0xE6E60B69 && Schedule(m, 77) == 0x00F60A00 && Schedule(m, 78) == 0x5795EF4F && Schedule(m, 79) == 0x822E0879
  {
    hide Schedule;
    Word(m, 72, 0x0060C000, 0x7CD45C9D, 0x458544D6, 0x651D16A0, 0xB8599DD6);
    Word(m, 73, 0x3A37CD05, 0x000F0000, 0x44584CB7, 0x62658CA1, 0x380A1A26);
    Word(m, 74, 0x458546F4, 0xFB50753A, 0x7BA06619, 0x458544D6, 0x01E02203);
    Word(m, 75, 0xB8599DD6, 0xEC6765E8, 0x6380AEA2, 0x44584CB7, 0xE7CC3456);
    Word(m, 76, 0x380A1A26, 0xBA3C2BE2, 0x0AE55269, 0x7BA06619, 0xE6E60B69);
    Word(m, 77, 0x01E02203, 0x0060C000, 0x627B49A1, 0x6380AEA2, 0x00F60A00);
    Word(m, 78, 0xE7CC3456, 0x3A37CD05, 0x7CD45C9D, 0x0AE55269, 0x5795EF4F);
    Word(m, 79, 0xE6E60B69, 0x458546F4, 0x000F0000, 0x627B49A1, 0x822E0879);
  }

  lemma Rounds0(g: Regs, m: Block)
    requires Steps(g, m, 0) == Regs(0x67452301, 0xEFCDAB89, 0x98BADCFE, 0x10325476, 0xC3D2E1F0)
    requires Schedule(m, 0) == 0x61626380 && Schedule(m, 1) == 0x00000000 && Schedule(m, 2) == 0x00000000 && Schedule(m, 3) == 0x00000000
    requires Schedule(m, 4) == 0x00000000 && Schedule(m, 5) == 0x00000000 && Schedule(m, 6) == 0x00000000 && Schedule(m, 7) == 0x00000000
    requires Schedule(m, 8) == 0x00000000 && Schedule(m, 9) == 0x00000000
    ensures Steps(g, m, 10) == Regs(0x8351F929, 0x4B6AE328, 0x27A301F5, 0x664F8C30, 0x0FF1F290)
  {
    hide Schedule, Steps;
    Round(g, m, 0, Regs(0x67452301, 0xEFCDAB89, 0x98BADCFE, 0x10325476, 0xC3D2E1F0), 0x61626380, Regs(0x0116FC33, 0x67452301, 0x7BF36AE2, 0x98BADCFE, 0x10325476));
    Round(g, m, 1, Regs(0x0116FC33, 0x67452301, 0x7BF36AE2, 0x98BADCFE, 0x10325476), 0x00000000, Regs(0x8990536D, 0x0116FC33, 0x59D148C0, 0x7BF36AE2, 0x98BADCFE));
    Round(g, m, 2, Regs(0x8990536D, 0x0116FC33, 0x59D148C0, 0x7BF36AE2, 0x98BADCFE), 0x00000000, Regs(0xA1390F08, 0x8990536D, 0xC045BF0C, 0x59D148C0, 0x7BF36AE2));
    Round(g, m, 3, Regs(0xA1390F08, 0x8990536D, 0xC045BF0C, 0x59D148C0, 0x7BF36AE2), 0x00000000, Regs(0xCDD8E11B, 0xA1390F08, 0x626414DB, 0xC045BF0C, 0x59D148C0));
    Round(g, m, 4, Regs(0xCDD8E11B, 0xA1390F08, 0x626414DB, 0xC045BF0C, 0x59D148C0), 0x00000000, Regs(0xCFD499DE, 0xCDD8E11B, 0x284E43C2, 0x626414DB, 0xC045BF0C));
    Round(g, m, 5, Regs(0xCFD499DE, 0xCDD8E11B, 0x284E43C2, 0x626414DB, 0xC045BF0C), 0x00000000, Regs(0x3FC7CA40, 0xCFD499DE, 0xF3763846, 0x284E43C2, 0x626414DB));
    Round(g, m, 6, Regs(0x3FC7CA40, 0xCFD499DE, 0xF3763846, 0x284E43C2, 0x626414DB), 0x00000000, Regs(0x993E30C1, 0x3FC7CA40, 0xB3F52677, 0xF3763846, 0x284E43C2));
    Round(g, m, 7, Regs(0x993E30C1, 0x3FC7CA40, 0xB3F52677, 0xF3763846, 0x284E43C2), 0x00000000, Regs(0x9E8C07D4, 0x993E30C1, 0x0FF1F290, 0xB3F52677, 0xF3763846));
    Round(g, m, 8, Regs(0x9E8C07D4, 0x993E30C1, 0x0FF1F290, 0xB3F52677, 0xF3763846), 0x00000000, Regs(0x4B6AE328, 0x9E8C07D4, 0x664F8C30, 0x0FF1F290, 0xB3F52677));
    Round(g, m, 9, Regs(0x4B6AE328, 0x9E8C07D4, 0x664F8C30, 0x0FF1F290, 0xB3F52677), 0x00000000, Regs(0x8351F929, 0x4B6AE328, 0x27A301F5, 0x664F8C30, 0x0FF1F290));
  }

  lemma Rounds10(g: Regs, m: Block)
    requires Steps(g, m, 10) == Regs(0x8351F929, 0x4B6AE328, 0x27A301F5, 0x664F8C30, 0x0FF1F290)
    requires Schedule(m, 10) == 0x00000000 && Schedule(m, 11) == 0x00000000 && Schedule(m, 12) == 0x00000000 && Schedule(m, 13) == 0x00000000
    requires Schedule(m, 14) == 0x00000000 && Schedule(m, 15) == 0x00000018 && Schedule(m, 16) == 0xC2C4C700 && Schedule(m, 17) == 0x00000000
    requires Schedule(m, 18) == 0x00000030 && Schedule(m, 19) == 0x85898E01
    ensures Steps(g, m, 20) == Regs(0xFD9E1D7D, 0xDC64901D, 0x20AA99CA, 0xD3A49608, 0xC82F758B)
  {
    hide Schedule, Steps;
    Round(g, m, 10, Regs(0x8351F929, 0x4B6AE328, 0x27A301F5, 0x664F8C30, 0x0FF1F290), 0x00000000, Regs(0xFBDA9E89, 0x8351F929, 0x12DAB8CA, 0x27A301F5, 0x664F8C30));
    Round(g, m, 11, Regs(0xFBDA9E89, 0x8351F929, 0x12DAB8CA, 0x27A301F5, 0x664F8C30), 0x00000000, Regs(0x63188FE4, 0xFBDA9E89, 0x60D47E4A, 0x12DAB8CA, 0x27A301F5));
    Round(g, m, 12, Regs(0x63188FE4, 0xFBDA9E89, 0x60D47E4A, 0x12DAB8CA, 0x27A301F5), 0x00000000, Regs(0x4607B664, 0x63188FE4, 0x7EF6A7A2, 0x60D47E4A, 0x12DAB8CA));
    Round(g, m, 13, Regs(0x4607B664, 0x63188FE4, 0x7EF6A7A2, 0x60D47E4A, 0x12DAB8CA), 0x00000000, Regs(0x9128F695, 0x4607B664, 0x18C623F9, 0x7EF6A7A2, 0x60D47E4A));
    Round(g, m, 14, Regs(0x9128F695, 0x4607B664, 0x18C623F9, 0x7EF6A7A2, 0x60D47E4A), 0x00000000, Regs(0x196BEE77, 0x9128F695, 0x1181ED99, 0x18C623F9, 0x7EF6A7A2));
    Round(g, m, 15, Regs(0x196BEE77, 0x9128F695, 0x1181ED99, 0x18C623F9, 0x7EF6A7A2), 0x00000018, Regs(0x20BDD62F, 0x196BEE77, 0x644A3DA5, 0x1181ED99, 0x18C623F9));
    Round(g, m, 16, Regs(0x20BDD62F, 0x196BEE77, 0x644A3DA5, 0x1181ED99, 0x18C623F9), 0xC2C4C700, Regs(0x4E925823, 0x20BDD62F, 0xC65AFB9D, 0x644A3DA5, 0x1181ED99));
    Round(g, m, 17, Regs(0x4E925823, 0x20BDD62F, 0xC65AFB9D, 0x644A3DA5, 0x1181ED99), 0x00000000, Regs(0x82AA6728, 0x4E925823, 0xC82F758B, 0xC65AFB9D, 0x644A3DA5));
    Round(g, m, 18, Regs(0x82AA6728, 0x4E925823, 0xC82F758B, 0xC65AFB9D, 0x644A3DA5), 0x00000030, Regs(0xDC64901D, 0x82AA6728, 0xD3A49608, 0xC82F758B, 0xC65AFB9D));
    Round(g, m, 19, Regs(0xDC64901D, 0x82AA6728, 0xD3A49608, 0xC82F758B, 0xC65AFB9D), 0x85898E01, Regs(0xFD9E1D7D, 0xDC64901D, 0x20AA99CA, 0xD3A49608, 0xC82F758B));
  }

  lemma Rounds20(g: Regs, m: Block)
    requires Steps(g, m, 20) == Regs(0xFD9E1D7D, 0xDC64901D, 0x20AA99CA, 0xD3A49608, 0xC82F758B)
    requires Schedule(m, 20) == 0x00000000 && Schedule(m, 21) == 0x00000060 && Schedule(m, 22) == 0x0B131C03 && Schedule(m, 23) == 0x00000030
    requires Schedule(m, 24) == 0x85898EC1 && Schedule(m, 25) == 0x16263806 && Schedule(m, 26) == 0x00000000 && Schedule(m, 27) == 0x00000180
    requires Schedule(m, 28) == 0x2C4C700C && Schedule(m, 29) == 0x000000F0
    ensures Steps(g, m, 30) == Regs(0xC5FBAF5D, 0x8370B52E, 0xD2AA1365, 0x6F8D7EF5, 0x12104EE9)
  {
    hide Schedule, Steps;
    Round(g, m, 20, Regs(0xFD9E1D7D, 0xDC64901D, 0x20AA99CA, 0xD3A49608, 0xC82F758B), 0x00000000, Regs(0x1A37B0CA, 0xFD9E1D7D, 0x77192407, 0x20AA99CA, 0xD3A49608));
    Round(g, m, 21, Regs(0x1A37B0CA, 0xFD9E1D7D, 0x77192407, 0x20AA99CA, 0xD3A49608), 0x00000060, Regs(0x33A23BFC, 0x1A37B0CA, 0x7F67875F, 0x77192407, 0x20AA99CA));
    Round(g, m, 22, Regs(0x33A23BFC, 0x1A37B0CA, 0x7F67875F, 0x77192407, 0x20AA99CA), 0x0B131C03, Regs(0x21283486, 0x33A23BFC, 0x868DEC32, 0x7F67875F, 0x77192407));
    Round(g, m, 23, Regs(0x21283486, 0x33A23BFC, 0x868DEC32, 0x7F67875F, 0x77192407), 0x00000030, Regs(0xD541F12D, 0x21283486, 0x0CE88EFF, 0x868DEC32, 0x7F67875F));
    Round(g, m, 24, Regs(0xD541F12D, 0x21283486, 0x0CE88EFF, 0x868DEC32, 0x7F67875F), 0x85898EC1, Regs(0xC7567DC6, 0xD541F12D, 0x884A0D21, 0x0CE88EFF, 0x868DEC32));
    Round(g, m, 25, Regs(0xC7567DC6, 0xD541F12D, 0x884A0D21, 0x0CE88EFF, 0x868DEC32), 0x16263806, Regs(0x48413BA4, 0xC7567DC6, 0x75507C4B, 0x884A0D21, 0x0CE88EFF));
    Round(g, m, 26, Regs(0x48413BA4, 0xC7567DC6, 0x75507C4B, 0x884A0D21, 0x0CE88EFF), 0x00000000, Regs(0xBE35FBD5, 0x48413BA4, 0xB1D59F71, 0x75507C4B, 0x884A0D21));
    Round(g, m, 27, Regs(0xBE35FBD5, 0x48413BA4, 0xB1D59F71, 0x75507C4B, 0x884A0D21), 0x00000180, Regs(0x4AA84D97, 0xBE35FBD5, 0x12104EE9, 0xB1D59F71, 0x75507C4B));
    Round(g, m, 28, Regs(0x4AA84D97, 0xBE35FBD5, 0x12104EE9, 0xB1D59F71, 0x75507C4B), 0x2C4C700C, Regs(0x8370B52E, 0x4AA84D97, 0x6F8D7EF5, 0x12104EE9, 0xB1D59F71));
    Round(g, m, 29, Regs(0x8370B52E, 0x4AA84D97, 0x6F8D7EF5, 0x12104EE9, 0xB1D59F71), 0x000000F0, Regs(0xC5FBAF5D, 0x8370B52E, 0xD2AA1365, 0x6F8D7EF5, 0x12104EE9));
  }

  lemma Rounds30(g: Regs, m: Block)
    requires Steps(g, m, 30) == Regs(0xC5FBAF5D, 0x8370B52E, 0xD2AA1365, 0x6F8D7EF5, 0x12104EE9)
    requires Schedule(m, 30) == 0x93AFB507 && Schedule(m, 31) == 0x5898E048 && Schedule(m, 32) == 0x8E9A9202 && Schedule(m, 33) == 0x00000600
    requires Schedule(m, 34) == 0xB131C0F0 && Schedule(m, 35) == 0x16263BC6 && Schedule(m, 36) == 0x4EBED41E && Schedule(m, 37) == 0x626380A1
    requires Schedule(m, 38) == 0x16263806 && Schedule(m, 39) == 0x000018C0
    ensures Steps(g, m, 40) == Regs(0x32DE1CBA, 0x4C986405, 0xF718E5CF, 0x03D447F6, 0xF72EEC32)
  {
    hide Schedule, Steps;
    Round(g, m, 30, Regs(0xC5FBAF5D, 0x8370B52E, 0xD2AA1365, 0x6F8D7EF5, 0x12104EE9), 0x93AFB507, Regs(0x1267B407, 0xC5FBAF5D, 0xA0DC2D4B, 0xD2AA1365, 0x6F8D7EF5));
    Round(g, m, 31, Regs(0x1267B407, 0xC5FBAF5D, 0xA0DC2D4B, 0xD2AA1365, 0x6F8D7EF5), 0x5898E048, Regs(0x3B845D33, 0x1267B407, 0x717EEBD7, 0xA0DC2D4B, 0xD2AA1365));
    Round(g, m, 32, Regs(0x3B845D33, 0x1267B407, 0x717EEBD7, 0xA0DC2D4B, 0xD2AA1365), 0x8E9A9202, Regs(0x046FAA0A, 0x3B845D33, 0xC499ED01, 0x717EEBD7, 0xA0DC2D4B));
    Round(g, m, 33, Regs(0x046FAA0A, 0x3B845D33, 0xC499ED01, 0x717EEBD7, 0xA0DC2D4B), 0x00000600, Regs(0x2C0EBC11, 0x046FAA0A, 0xCEE1174C, 0xC499ED01, 0x717EEBD7));
    Round(g, m, 34, Regs(0x2C0EBC11, 0x046FAA0A, 0xCEE1174C, 0xC499ED01, 0x717EEBD7), 0xB131C0F0, Regs(0x21796AD4, 0x2C0EBC11, 0x811BEA82, 0xCEE1174C, 0xC499ED01));
    Round(g, m, 35, Regs(0x21796AD4, 0x2C0EBC11, 0x811BEA82, 0xCEE1174C, 0xC499ED01), 0x16263BC6, Regs(0xDCBBB0CB, 0x21796AD4, 0x4B03AF04, 0x811BEA82, 0xCEE1174C));
    Round(g, m, 36, Regs(0xDCBBB0CB, 0x21796AD4, 0x4B03AF04, 0x811BEA82, 0xCEE1174C), 0x4EBED41E, Regs(0x0F511FD8, 0xDCBBB0CB, 0x085E5AB5, 0x4B03AF04, 0x811BEA82));
    Round(g, m, 37, Regs(0x0F511FD8, 0xDCBBB0CB, 0x085E5AB5, 0x4B03AF04, 0x811BEA82), 0x626380A1, Regs(0xDC63973F, 0x0F511FD8, 0xF72EEC32, 0x085E5AB5, 0x4B03AF04));
    Round(g, m, 38, Regs(0xDC63973F, 0x0F511FD8, 0xF72EEC32, 0x085E5AB5, 0x4B03AF04), 0x16263806, Regs(0x4C986405, 0xDC63973F, 0x03D447F6, 0xF72EEC32, 0x085E5AB5));
    Round(g, m, 39, Regs(0x4C986405, 0xDC63973F, 0x03D447F6, 0xF72EEC32, 0x085E5AB5), 0x000018C0, Regs(0x32DE1CBA, 0x4C986405, 0xF718E5CF, 0x03D447F6, 0xF72EEC32));
  }

  lemma Rounds40(g: Regs, m: Block)
    requires Steps(g, m, 40) == Regs(0x32DE1CBA, 0x4C986405, 0xF718E5CF, 0x03D447F6, 0xF72EEC32)
    requires Schedule(m, 40) == 0xD2E138C4 && Schedule(m, 41) == 0x00000F00 && Schedule(m, 42) == 0x3AFB5079 && Schedule(m, 43) == 0x898E04E5
    requires Schedule(m, 44) == 0xE2BA3C2B && Schedule(m, 45) == 0x000060C0 && Schedule(m, 46) == 0x053A37CD && Schedule(m, 47) == 0x74458547
    requires Schedule(m, 48) == 0xDA9415ED && Schedule(m, 49) == 0x26380A16
    ensures Steps(g, m, 50) == Regs(0x120731C5, 0xBAF39337, 0xAFAB40B2, 0x2806E11B, 0x8714787C)
  {
    hide Schedule, Steps;
    Round(g, m, 40, Regs(0x32DE1CBA, 0x4C986405, 0xF718E5CF, 0x03D447F6, 0xF72EEC32), 0xD2E138C4, Regs(0xFC87DEDF, 0x32DE1CBA, 0x53261901, 0xF718E5CF, 0x03D447F6));
    Round(g, m, 41, Regs(0xFC87DEDF, 0x32DE1CBA, 0x53261901, 0xF718E5CF, 0x03D447F6), 0x00000F00, Regs(0x970A0D5C, 0xFC87DEDF, 0x8CB7872E, 0x53261901, 0xF718E5CF));
    Round(g, m, 42, Regs(0x970A0D5C, 0xFC87DEDF, 0x8CB7872E, 0x53261901, 0xF718E5CF), 0x3AFB5079, Regs(0x7F193DC5, 0x970A0D5C, 0xFF21F7B7, 0x8CB7872E, 0x53261901));
    Round(g, m, 43, Regs(0x7F193DC5, 0x970A0D5C, 0xFF21F7B7, 0x8CB7872E, 0x53261901), 0x898E04E5, Regs(0xEE1B1AAF, 0x7F193DC5, 0x25C28357, 0xFF21F7B7, 0x8CB7872E));
    Round(g, m, 44, Regs(0xEE1B1AAF, 0x7F193DC5, 0x25C28357, 0xFF21F7B7, 0x8CB7872E), 0xE2BA3C2B, Regs(0x40F28E09, 0xEE1B1AAF, 0x5FC64F71, 0x25C28357, 0xFF21F7B7));
    Round(g, m, 45, Regs(0x40F28E09, 0xEE1B1AAF, 0x5FC64F71, 0x25C28357, 0xFF21F7B7), 0x000060C0, Regs(0x1C51E1F2, 0x40F28E09, 0xFB86C6AB, 0x5FC64F71, 0x25C28357));
    Round(g, m, 46, Regs(0x1C51E1F2, 0x40F28E09, 0xFB86C6AB, 0x5FC64F71, 0x25C28357), 0x053A37CD, Regs(0xA01B846C, 0x1C51E1F2, 0x503CA382, 0xFB86C6AB, 0x5FC64F71));
    Round(g, m, 47, Regs(0xA01B846C, 0x1C51E1F2, 0x503CA382, 0xFB86C6AB, 0x5FC64F71), 0x74458547, Regs(0xBEAD02CA, 0xA01B846C, 0x8714787C, 0x503CA382, 0xFB86C6AB));
    Round(g, m, 48, Regs(0xBEAD02CA, 0xA01B846C, 0x8714787C, 0x503CA382, 0xFB86C6AB), 0xDA9415ED, Regs(0xBAF39337, 0xBEAD02CA, 0x2806E11B, 0x8714787C, 0x503CA382));
    Round(g, m, 49, Regs(0xBAF39337, 0xBEAD02CA, 0x2806E11B, 0x8714787C, 0x503CA382), 0x26380A16, Regs(0x120731C5, 0xBAF39337, 0xAFAB40B2, 0x2806E11B, 0x8714787C));
  }

  lemma Rounds50(g: Regs, m: Block)
    requires Steps(g, m, 50) == Regs(0x120731C5, 0xBAF39337, 0xAFAB40B2, 0x2806E11B, 0x8714787C)
    requires Schedule(m, 50) == 0x626383A1 && Schedule(m, 51) == 0x4EBF54DE && Schedule(m, 52) == 0x3835B44B && Schedule(m, 53) == 0x0000F600
    requires Schedule(m, 54) == 0x1E84C7A3 && Schedule(m, 55) == 0x98E04D98 && Schedule(m, 56) == 0x651D16A0 && Schedule(m, 57) == 0x62658CA1
    requires Schedule(m, 58) == 0x458544D6 && Schedule(m, 59) == 0x44584CB7
    ensures Steps(g, m, 60) == Regs(0x3F52DE5A, 0x09D785FD, 0x3498BFD4, 0xF211824F, 0xD79915AB)
  {
    hide Schedule, Steps;
    Round(g, m, 50, Regs(0x120731C5, 0xBAF39337, 0xAFAB40B2, 0x2806E11B, 0x8714787C), 0x626383A1, Regs(0x641DB2CE, 0x120731C5, 0xEEBCE4CD, 0xAFAB40B2, 0x2806E11B));
    Round(g, m, 51, Regs(0x641DB2CE, 0x120731C5, 0xEEBCE4CD, 0xAFAB40B2, 0x2806E11B), 0x4EBF54DE, Regs(0x3847AD66, 0x641DB2CE, 0x4481CC71, 0xEEBCE4CD, 0xAFAB40B2));
    Round(g, m, 52, Regs(0x3847AD66, 0x641DB2CE, 0x4481CC71, 0xEEBCE4CD, 0xAFAB40B2), 0x3835B44B, Regs(0xE490436D, 0x3847AD66, 0x99076CB3, 0x4481CC71, 0xEEBCE4CD));
    Round(g, m, 53, Regs(0xE490436D, 0x3847AD66, 0x99076CB3, 0x4481CC71, 0xEEBCE4CD), 0x0000F600, Regs(0x27E9F1D8, 0xE490436D, 0x8E11EB59, 0x99076CB3, 0x4481CC71));
    Round(g, m, 54, Regs(0x27E9F1D8, 0xE490436D, 0x8E11EB59, 0x99076CB3, 0x4481CC71), 0x1E84C7A3, Regs(0x7B71F76D, 0x27E9F1D8, 0x792410DB, 0x8E11EB59, 0x99076CB3));
    Round(g, m, 55, Regs(0x7B71F76D, 0x27E9F1D8, 0x792410DB, 0x8E11EB59, 0x99076CB3), 0x98E04D98, Regs(0x5E6456AF, 0x7B71F76D, 0x09FA7C76, 0x792410DB, 0x8E11EB59));
    Round(g, m, 56, Regs(0x5E6456AF, 0x7B71F76D, 0x09FA7C76, 0x792410DB, 0x8E11EB59), 0x651D16A0, Regs(0xC846093F, 0x5E6456AF, 0x5EDC7DDB, 0x09FA7C76, 0x792410DB));
    Round(g, m, 57, Regs(0xC846093F, 0x5E6456AF, 0x5EDC7DDB, 0x09FA7C76, 0x792410DB), 0x62658CA1, Regs(0xD262FF50, 0xC846093F, 0xD79915AB, 0x5EDC7DDB, 0x09FA7C76));
    Round(g, m, 58, Regs(0xD262FF50, 0xC846093F, 0xD79915AB, 0x5EDC7DDB, 0x09FA7C76), 0x458544D6, Regs(0x09D785FD, 0xD262FF50, 0xF211824F, 0xD79915AB, 0x5EDC7DDB));
    Round(g, m, 59, Regs(0x09D785FD, 0xD262FF50, 0xF211824F, 0xD79915AB, 0x5EDC7DDB), 0x44584CB7, Regs(0x3F52DE5A, 0x09D785FD, 0x3498BFD4, 0xF211824F, 0xD79915AB));
  }

  lemma Rounds60(g: Regs, m: Block)
    requires Steps(g, m, 60) == Regs(0x3F52DE5A, 0x09D785FD, 0x3498BFD4, 0xF211824F, 0xD79915AB)
    requires Schedule(m, 60) == 0x7BA06619 && Schedule(m, 61) == 0x6380AEA2 && Schedule(m, 62) == 0x0AE55269 && Schedule(m, 63) == 0x627B49A1
    requires Schedule(m, 64) == 0x7CD45C9D && Schedule(m, 65) == 0x000F0000 && Schedule(m, 66) == 0xFB50753A && Schedule(m, 67) == 0xEC6765E8
    requires Schedule(m, 68) == 0xBA3C2BE2 && Schedule(m, 69) == 0x0060C000
    ensures Steps(g, m, 70) == Regs(0x3F2588C2, 0x497093C0, 0xDE37534A, 0x030F7CAD, 0x4405957E)
  {
    hide Schedule, Steps;
    Round(g, m, 60, Regs(0x3F52DE5A, 0x09D785FD, 0x3498BFD4, 0xF211824F, 0xD79915AB), 0x7BA06619, Regs(0xD756C147, 0x3F52DE5A, 0x4275E17F, 0x3498BFD4, 0xF211824F));
    Round(g, m, 61, Regs(0xD756C147, 0x3F52DE5A, 0x4275E17F, 0x3498BFD4, 0xF211824F), 0x6380AEA2, Regs(0x548C9CB2, 0xD756C147, 0x8FD4B796, 0x4275E17F, 0x3498BFD4));
    Round(g, m, 62, Regs(0x548C9CB2, 0xD756C147, 0x8FD4B796, 0x4275E17F, 0x3498BFD4), 0x0AE55269, Regs(0xB66C020B, 0x548C9CB2, 0xF5D5B051, 0x8FD4B796, 0x4275E17F));
    Round(g, m, 63, Regs(0xB66C020B, 0x548C9CB2, 0xF5D5B051, 0x8FD4B796, 0x4275E17F), 0x627B49A1, Regs(0x6B61C9E1, 0xB66C020B, 0x9523272C, 0xF5D5B051, 0x8FD4B796));
    Round(g, m, 64, Regs(0x6B61C9E1, 0xB66C020B, 0x9523272C, 0xF5D5B051, 0x8FD4B796), 0x7CD45C9D, Regs(0x19DFA7AC, 0x6B61C9E1, 0xED9B0082, 0x9523272C, 0xF5D5B051));
    Round(g, m, 65, Regs(0x19DFA7AC, 0x6B61C9E1, 0xED9B0082, 0x9523272C, 0xF5D5B051), 0x000F0000, Regs(0x101655F9, 0x19DFA7AC, 0x5AD87278, 0xED9B0082, 0x9523272C));
    Round(g, m, 66, Regs(0x101655F9, 0x19DFA7AC, 0x5AD87278, 0xED9B0082, 0x9523272C), 0xFB50753A, Regs(0x0C3DF2B4, 0x101655F9, 0x0677E9EB, 0x5AD87278, 0xED9B0082));
    Round(g, m, 67, Regs(0x0C3DF2B4, 0x101655F9, 0x0677E9EB, 0x5AD87278, 0xED9B0082), 0xEC6765E8, Regs(0x78DD4D2B, 0x0C3DF2B4, 0x4405957E, 0x0677E9EB, 0x5AD87278));
    Round(g, m, 68, Regs(0x78DD4D2B, 0x0C3DF2B4, 0x4405957E, 0x0677E9EB, 0x5AD87278), 0xBA3C2BE2, Regs(0x497093C0, 0x78DD4D2B, 0x030F7CAD, 0x4405957E, 0x0677E9EB));
    Round(g, m, 69, Regs(0x497093C0, 0x78DD4D2B, 0x030F7CAD, 0x4405957E, 0x0677E9EB), 0x0060C000, Regs(0x3F2588C2, 0x497093C0, 0xDE37534A, 0x030F7CAD, 0x4405957E));
  }

  lemma Rounds70(g: Regs, m: Block)
    requires Steps(g, m, 70) == Regs(0x3F2588C2, 0x497093C0, 0xDE37534A, 0x030F7CAD, 0x4405957E)
    requires Schedule(m, 70) == 0x3A37CD05 && Schedule(m, 71) == 0x458546F4 && Schedule(m, 72) == 0xB8599DD6 && Schedule(m, 73) == 0x380A1A26
    requires Schedule(m, 74) == 0x01E02203 && Schedule(m, 75) == 0xE7CC3456 && Schedule(m, 76) == 0xE6E60B69 && Schedule(m, 77) == 0x00F60A00
    requires Schedule(m, 78) == 0x5795EF4F && Schedule(m, 79) == 0x822E0879
    ensures Steps(g, m, 80) == Regs(0x42541B35, 0x5738D5E1, 0x21834873, 0x681E6DF6, 0xD8FDF6AD)
  {
    hide Schedule, Steps;
    Round(g, m, 70, Regs(0x3F2588C2, 0x497093C0, 0xDE37534A, 0x030F7CAD, 0x4405957E), 0x3A37CD05, Regs(0xC199F8C7, 0x3F2588C2, 0x125C24F0, 0xDE37534A, 0x030F7CAD));
    Round(g, m, 71, Regs(0xC199F8C7, 0x3F2588C2, 0x125C24F0, 0xDE37534A, 0x030F7CAD), 0x458546F4, Regs(0x39859DE7, 0xC199F8C7, 0x8FC96230, 0x125C24F0, 0xDE37534A));
    Round(g, m, 72, Regs(0x39859DE7, 0xC199F8C7, 0x8FC96230, 0x125C24F0, 0xDE37534A), 0xB8599DD6, Regs(0xEDB42DE4, 0x39859DE7, 0xF0667E31, 0x8FC96230, 0x125C24F0));
    Round(g, m, 73, Regs(0xEDB42DE4, 0x39859DE7, 0xF0667E31, 0x8FC96230, 0x125C24F0), 0x380A1A26, Regs(0x11793F6F, 0xEDB42DE4, 0xCE616779, 0xF0667E31, 0x8FC96230));
    Round(g, m, 74, Regs(0x11793F6F, 0xEDB42DE4, 0xCE616779, 0xF0667E31, 0x8FC96230), 0x01E02203, Regs(0x5EE76897, 0x11793F6F, 0x3B6D0B79, 0xCE616779, 0xF0667E31));
    Round(g, m, 75, Regs(0x5EE76897, 0x11793F6F, 0x3B6D0B79, 0xCE616779, 0xF0667E31), 0xE7CC3456, Regs(0x63F7DAB7, 0x5EE76897, 0xC45E4FDB, 0x3B6D0B79, 0xCE616779));
    Round(g, m, 76, Regs(0x63F7DAB7, 0x5EE76897, 0xC45E4FDB, 0x3B6D0B79, 0xCE616779), 0xE6E60B69, Regs(0xA079B7D9, 0x63F7DAB7, 0xD7B9DA25, 0xC45E4FDB, 0x3B6D0B79));
    Round(g, m, 77, Regs(0xA079B7D9, 0x63F7DAB7, 0xD7B9DA25, 0xC45E4FDB, 0x3B6D0B79), 0x00F60A00, Regs(0x860D21CC, 0xA079B7D9, 0xD8FDF6AD, 0xD7B9DA25, 0xC45E4FDB));
    Round(g, m, 78, Regs(0x860D21CC, 0xA079B7D9, 0xD8FDF6AD, 0xD7B9DA25, 0xC45E4FDB), 0x5795EF4F, Regs(0x5738D5E1, 0x860D21CC, 0x681E6DF6, 0xD8FDF6AD, 0xD7B9DA25));
    Round(g, m, 79, Regs(0x5738D5E1, 0x860D21CC, 0x681E6DF6, 0xD8FDF6AD, 0xD7B9DA25), 0x822E0879, Regs(0x42541B35, 0x5738D5E1, 0x21834873, 0x681E6DF6, 0xD8FDF6AD));
  }

  /** The compression of that block. */
  lemma Compressed(m: Block)
    requires Schedule(m, 0) == 0x61626380 && Schedule(m, 1) == 0x00000000 && Schedule(m, 2) == 0x00000000 && Schedule(m, 3) == 0x00000000
    requires Schedule(m, 4) == 0x00000000 && Schedule(m, 5) == 0x00000000 && Schedule(m, 6) == 0x00000000 && Schedule(m, 7) == 0x00000000
    requires Schedule(m, 8) == 0x00000000 && Schedule(m, 9) == 0x00000000 && Schedule(m, 10) == 0x00000000 && Schedule(m, 11) == 0x00000000
    requires Schedule(m, 12) == 0x00000000 && Schedule(m, 13) == 0x00000000 && Schedule(m, 14) == 0x00000000 && Schedule(m, 15) == 0x00000018
    ensures Compress(IV, m) == Regs(0xA9993E36, 0x4706816A, 0xBA3E2571, 0x7850C26C, 0x9CD0D89D)
  {
    Steps0(IV, m);
    hide Schedule, Steps;
    Words16(m);
    Words24(m);
    Words32(m);
    Words40(m);
    Words48(m);
    Words56(m);
    Words64(m);
    Words72(m);
    Rounds0(IV, m);
    Rounds10(IV, m);
    Rounds20(IV, m);
    Rounds30(IV, m);
    Rounds40(IV, m);
    Rounds50(IV, m);
    Rounds60(IV, m);
    Rounds70(IV, m);
    Sums();
    hide Add;
  }

  lemma Steps0(g: Regs, m: Block)
    ensures Steps(g, m, 0) == g
  {
  }

  lemma Sums()
    ensures Plus(IV, Regs(0x42541B35, 0x5738D5E1, 0x21834873, 0x681E6DF6, 0xD8FDF6AD)) == Regs(0xA9993E36, 0x4706816A, 0xBA3E2571, 0x7850C26C, 0x9CD0D89D)
  {
  }

  /** "abc" padded. */
  lemma Padded()
    ensures |Pad(ABC)| == 64
    ensures var m := Pad(ABC);
      && m[..4] == [0x61, 0x62, 0x63, 0x80] && (forall i | 4 <= i < 63 :: m[i] == 0) && m[63] == 24
  {
    assert PadZeros(3) == 52;
    assert LengthBytes(0, 24)[7] == 24 && forall i | 0 <= i < 7 :: LengthBytes(0, 24)[i] == 0 by {
      LengthOf24();
    }
  }

  lemma LengthOf24()
    ensures LengthBytes(0, 24)[7] == 24 && forall i | 0 <= i < 7 :: LengthBytes(0, 24)[i] == 0
  {
    Pow2Values();
    assert Pow2(24) == 0x100_0000;
    forall k: nat | k < 4
      ensures ByteOf(0, k) == 0 && ByteOf(24, k) == if k == 0 then 24 else 0
    {
      ShrZero(8 * k);
      ShrIsQuotient(24, 8 * k);
      ByteIs(0, k, 0);
      ByteIs(24, k, if k == 0 then 24 else 0);
      LiteralBytes();
    }
    hide ByteOf;
  }

  lemma ByteIs(w: nat, k: nat, b: nat)
    requires b < 256 && Shr(w, 8 * k) % 256 == b
    ensures ByteOf(w, k) == b as bv8
  {
    hide Shr;
  }

  lemma LiteralBytes()
    ensures 0 as bv8 == 0 && 24 as bv8 == 24
  {
  }

  lemma FirstWords(m: Block)
    requires m[..4] == [0x61, 0x62, 0x63, 0x80] && (forall i | 4 <= i < 63 :: m[i] == 0) && m[63] == 24
    ensures Schedule(m, 0) == 0x61626380 && Schedule(m, 1) == 0x00000000 && Schedule(m, 2) == 0x00000000 && Schedule(m, 3) == 0x00000000
    ensures Schedule(m, 4) == 0x00000000 && Schedule(m, 5) == 0x00000000 && Schedule(m, 6) == 0x00000000 && Schedule(m, 7) == 0x00000000
    ensures Schedule(m, 8) == 0x00000000 && Schedule(m, 9) == 0x00000000 && Schedule(m, 10) == 0x00000000 && Schedule(m, 11) == 0x00000000
    ensures Schedule(m, 12) == 0x00000000 && Schedule(m, 13) == 0x00000000 && Schedule(m, 14) == 0x00000000 && Schedule(m, 15) == 0x00000018
  {
    assert m[0] == m[..4][0] && m[1] == m[..4][1] && m[2] == m[..4][2] && m[3] == m[..4][3];
    BigEndians();
    hide BigEndian;
  }

  lemma BigEndians()
    ensures BigEndian(0x61, 0x62, 0x63, 0x80) == 0x61626380 && BigEndian(0, 0, 0, 0) == 0 && BigEndian(0, 0, 0, 24) == 24
  {
  }

  /** The digest of "abc", as sha1.c and FIPS 180-1 give it. */
  lemma DigestOfAbc()
    ensures DigestOf(Fold(Pad(ABC))) == [
      0xA9, 0x99, 0x3E, 0x36, 0x47, 0x06, 0x81, 0x6A, 0xBA, 0x3E, 0x25, 0x71, 0x78, 0x50, 0xC2, 0x6C, 0x9C, 0xD0, 0xD8, 0x9D]
  {
    hide Compress, Schedule, BigEndian, WordByte;
    var m := Pad(ABC);
    Padded();
    hide Pad;
    FirstWords(m);
    Compressed(m);
    OneBlock(m);
    DigestBytesOf();
  }

  lemma OneBlock(m: seq<bv8>)
    requires |m| == 64
    ensures Fold(m) == Compress(IV, m)
  {
    hide Compress;
    assert m[..0] == [] && m[0..] == m;
  }

  lemma DigestBytesOf()
    ensures DigestOf(Regs(0xA9993E36, 0x4706816A, 0xBA3E2571, 0x7850C26C, 0x9CD0D89D)) == [
      0xA9, 0x99, 0x3E, 0x36, 0x47, 0x06, 0x81, 0x6A, 0xBA, 0x3E, 0x25, 0x71, 0x78, 0x50, 0xC2, 0x6C, 0x9C, 0xD0, 0xD8, 0x9D]
  {
    assert WordByte(0xA9993E36, 0) == 0xA9 && WordByte(0xA9993E36, 1) == 0x99 && WordByte(0xA9993E36, 2) == 0x3E && WordByte(0xA9993E36, 3) == 0x36;
    assert WordByte(0x4706816A, 0) == 0x47 && WordByte(0x4706816A, 1) == 0x06 && WordByte(0x4706816A, 2) == 0x81 && WordByte(0x4706816A, 3) == 0x6A;
    assert WordByte(0xBA3E2571, 0) == 0xBA && WordByte(0xBA3E2571, 1) == 0x3E && WordByte(0xBA3E2571, 2) == 0x25 && WordByte(0xBA3E2571, 3) == 0x71;
    assert WordByte(0x7850C26C, 0) == 0x78 && WordByte(0x7850C26C, 1) == 0x50 && WordByte(0x7850C26C, 2) == 0xC2 && WordByte(0x7850C26C, 3) == 0x6C;
    assert WordByte(0x9CD0D89D, 0) == 0x9C && WordByte(0x9CD0D89D, 1) == 0xD0 && WordByte(0x9CD0D89D, 2) == 0xD8 && WordByte(0x9CD0D89D, 3) == 0x9D;
    hide WordByte;
  }
}
