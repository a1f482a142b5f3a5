/**
 * The example message "abc" of FIPS 180, carried through the padding, the schedule and the eighty rounds by value. The
 * digest the standard gives for it fixes what the definitions of Sha1Spec share with the code: the starting registers,
 * the round constants and functions, the rotations, the lags of the schedule and the order of the bytes.
 */
module Sha1Example {
  import opened Sha1Spec

  /** The round constants are the integer parts of 2^30 times the square roots of 2, 3, 5 and 10. */
  lemma Roots(t: nat)
    requires t < 80
    ensures
      var n, k := if t < 20 then 2 else if t < 40 then 3 else if t < 60 then 5 else 10, K(t) as int;
      k * k <= n * 0x1000_0000_0000_0000 < (k + 1) * (k + 1)
  {
  }

  /** The one block of the padded message. */
  const ABC: seq<word> := [0x61626380, 0, 0, 0, 0, 0, 0, 0, 0, 0, 0, 0, 0, 0, 0, 24]

  /** Word t of the schedule, from the words it depends on. */
  lemma Next(t: nat, w3: word, w8: word, w14: word, w16: word)
    requires 16 <= t && W(ABC, t - 3) == w3 && W(ABC, t - 8) == w8 && W(ABC, t - 14) == w14 && W(ABC, t - 16) == w16
    ensures W(ABC, t) == Rotl(w3 ^ w8 ^ w14 ^ w16, 1)
  {
    hide Rotl;
  }

  /** Round t on the registers a to e. */
  lemma Round(t: nat, a: word, b: word, c: word, d: word, e: word, w: word)
    requires Steps(H0, ABC, t) == Registers(a, b, c, d, e) && W(ABC, t) == w
    ensures Steps(H0, ABC, t + 1) == Step(t, Registers(a, b, c, d, e), w)
  {
    hide W, Step;
  }

  lemma First(t: nat)
    requires t < 16
    ensures W(ABC, t) == ABC[t]
  {
  }

  lemma Words0()
    ensures W(ABC, 0) == 0x61626380 && W(ABC, 1) == 0 && W(ABC, 2) == 0 && W(ABC, 3) == 0
    ensures W(ABC, 4) == 0 && W(ABC, 5) == 0 && W(ABC, 6) == 0 && W(ABC, 7) == 0
    ensures W(ABC, 8) == 0 && W(ABC, 9) == 0 && W(ABC, 10) == 0 && W(ABC, 11) == 0
    ensures W(ABC, 12) == 0 && W(ABC, 13) == 0 && W(ABC, 14) == 0 && W(ABC, 15) == 0x00000018
  {
    hide W;
    First(0); First(1); First(2); First(3); First(4); First(5); First(6); First(7);
    First(8); First(9); First(10); First(11); First(12); First(13); First(14); First(15);
  }

  lemma Words16()
    ensures W(ABC, 16) == 0xc2c4c700 && W(ABC, 17) == 0 && W(ABC, 18) == 0x00000030 && W(ABC, 19) == 0x85898e01
    ensures W(ABC, 20) == 0 && W(ABC, 21) == 0x00000060 && W(ABC, 22) == 0x0b131c03 && W(ABC, 23) == 0x00000030
  {
    hide W;
    Words0();
    Next(16, 0, 0, 0, 0x61626380);
    Next(17, 0, 0, 0, 0);
    Next(18, 0x00000018, 0, 0, 0);
    Next(19, 0xc2c4c700, 0, 0, 0);
    Next(20, 0, 0, 0, 0);
    Next(21, 0x00000030, 0, 0, 0);
    Next(22, 0x85898e01, 0, 0, 0);
    Next(23, 0, 0x00000018, 0, 0);
  }

  lemma Words24()
    ensures W(ABC, 24) == 0x85898ec1 && W(ABC, 25) == 0x16263806 && W(ABC, 26) == 0 && W(ABC, 27) == 0x00000180
    ensures W(ABC, 28) == 0x2c4c700c && W(ABC, 29) == 0x000000f0 && W(ABC, 30) == 0x93afb507 && W(ABC, 31) == 0x5898e048
  {
    hide W;
    Words0();
    Words16();
    Next(24, 0x00000060, 0xc2c4c700, 0, 0);
    Next(25, 0x0b131c03, 0, 0, 0);
    Next(26, 0x00000030, 0x00000030, 0, 0);
    Next(27, 0x85898ec1, 0x85898e01, 0, 0);
    Next(28, 0x16263806, 0, 0, 0);
    Next(29, 0, 0x00000060, 0x00000018, 0);
    Next(30, 0x00000180, 0x0b131c03, 0xc2c4c700, 0);
    Next(31, 0x2c4c700c, 0x00000030, 0, 0x00000018);
  }

  lemma Words32()
    ensures W(ABC, 32) == 0x8e9a9202 && W(ABC, 33) == 0x00000600 && W(ABC, 34) == 0xb131c0f0 && W(ABC, 35) == 0x16263bc6
    ensures W(ABC, 36) == 0x4ebed41e && W(ABC, 37) == 0x626380a1 && W(ABC, 38) == 0x16263806 && W(ABC, 39) == 0x000018c0
  {
    hide W;
    Words16();
    Words24();
    Next(32, 0x000000f0, 0x85898ec1, 0x00000030, 0xc2c4c700);
    Next(33, 0x93afb507, 0x16263806, 0x85898e01, 0);
    Next(34, 0x5898e048, 0, 0, 0x00000030);
    Next(35, 0x8e9a9202, 0x00000180, 0x00000060, 0x85898e01);
    Next(36, 0x00000600, 0x2c4c700c, 0x0b131c03, 0);
    Next(37, 0xb131c0f0, 0x000000f0, 0x00000030, 0x00000060);
    Next(38, 0x16263bc6, 0x93afb507, 0x85898ec1, 0x0b131c03);
    Next(39, 0x4ebed41e, 0x5898e048, 0x16263806, 0x00000030);
  }

  lemma Words40()
    ensures W(ABC, 40) == 0xd2e138c4 && W(ABC, 41) == 0x00000f00 && W(ABC, 42) == 0x3afb5079 && W(ABC, 43) == 0x898e04e5
    ensures W(ABC, 44) == 0xe2ba3c2b && W(ABC, 45) == 0x000060c0 && W(ABC, 46) == 0x053a37cd && W(ABC, 47) == 0x74458547
  {
    hide W;
    Words24();
    Words32();
    Next(40, 0x626380a1, 0x8e9a9202, 0, 0x85898ec1);
    Next(41, 0x16263806, 0x00000600, 0x00000180, 0x16263806);
    Next(42, 0x000018c0, 0xb131c0f0, 0x2c4c700c, 0);
    Next(43, 0xd2e138c4, 0x16263bc6, 0x000000f0, 0x00000180);
    Next(44, 0x00000f00, 0x4ebed41e, 0x93afb507, 0x2c4c700c);
    Next(45, 0x3afb5079, 0x626380a1, 0x5898e048, 0x000000f0);
    Next(46, 0x898e04e5, 0x16263806, 0x8e9a9202, 0x93afb507);
    Next(47, 0xe2ba3c2b, 0x000018c0, 0x00000600, 0x5898e048);
  }

  lemma Words48()
    ensures W(ABC, 48) == 0xda9415ed && W(ABC, 49) == 0x26380a16 && W(ABC, 50) == 0x626383a1 && W(ABC, 51) == 0x4ebf54de
    ensures W(ABC, 52) == 0x3835b44b && W(ABC, 53) == 0x0000f600 && W(ABC, 54) == 0x1e84c7a3 && W(ABC, 55) == 0x98e04d98
  {
    hide W;
    Words32();
    Words40();
    Next(48, 0x000060c0, 0xd2e138c4, 0xb131c0f0, 0x8e9a9202);
    Next(49, 0x053a37cd, 0x00000f00, 0x16263bc6, 0x00000600);
    Next(50, 0x74458547, 0x3afb5079, 0x4ebed41e, 0xb131c0f0);
    Next(51, 0xda9415ed, 0x898e04e5, 0x626380a1, 0x16263bc6);
    Next(52, 0x26380a16, 0xe2ba3c2b, 0x16263806, 0x4ebed41e);
    Next(53, 0x626383a1, 0x000060c0, 0x000018c0, 0x626380a1);
    Next(54, 0x4ebf54de, 0x053a37cd, 0xd2e138c4, 0x16263806);
    Next(55, 0x3835b44b, 0x74458547, 0x00000f00, 0x000018c0);
  }

  lemma Words56()
    ensures W(ABC, 56) == 0x651d16a0 && W(ABC, 57) == 0x62658ca1 && W(ABC, 58) == 0x458544d6 && W(ABC, 59) == 0x44584cb7
    ensures W(ABC, 60) == 0x7ba06619 && W(ABC, 61) == 0x6380aea2 && W(ABC, 62) == 0x0ae55269 && W(ABC, 63) == 0x627b49a1
  {
    hide W;
    Words40();
    Words48();
    Next(56, 0x0000f600, 0xda9415ed, 0x3afb5079, 0xd2e138c4);
    Next(57, 0x1e84c7a3, 0x26380a16, 0x898e04e5, 0x00000f00);
    Next(58, 0x98e04d98, 0x626383a1, 0xe2ba3c2b, 0x3afb5079);
    Next(59, 0x651d16a0, 0x4ebf54de, 0x000060c0, 0x898e04e5);
    Next(60, 0x62658ca1, 0x3835b44b, 0x053a37cd, 0xe2ba3c2b);
    Next(61, 0x458544d6, 0x0000f600, 0x74458547, 0x000060c0);
    Next(62, 0x44584cb7, 0x1e84c7a3, 0xda9415ed, 0x053a37cd);
    Next(63, 0x7ba06619, 0x98e04d98, 0x26380a16, 0x74458547);
  }

  lemma Words64()
    ensures W(ABC, 64) == 0x7cd45c9d && W(ABC, 65) == 0x000f0000 && W(ABC, 66) == 0xfb50753a && W(ABC, 67) == 0xec6765e8
    ensures W(ABC, 68) == 0xba3c2be2 && W(ABC, 69) == 0x0060c000 && W(ABC, 70) == 0x3a37cd05 && W(ABC, 71) == 0x458546f4
  {
    hide W;
    Words48();
    Words56();
    Next(64, 0x6380aea2, 0x651d16a0, 0x626383a1, 0xda9415ed);
    Next(65, 0x0ae55269, 0x62658ca1, 0x4ebf54de, 0x26380a16);
    Next(66, 0x627b49a1, 0x458544d6, 0x3835b44b, 0x626383a1);
    Next(67, 0x7cd45c9d, 0x44584cb7, 0x0000f600, 0x4ebf54de);
    Next(68, 0x000f0000, 0x7ba06619, 0x1e84c7a3, 0x3835b44b);
    Next(69, 0xfb50753a, 0x6380aea2, 0x98e04d98, 0x0000f600);
    Next(70, 0xec6765e8, 0x0ae55269, 0x651d16a0, 0x1e84c7a3);
    Next(71, 0xba3c2be2, 0x627b49a1, 0x62658ca1, 0x98e04d98);
  }

  lemma Words72()
    ensures W(ABC, 72) == 0xb8599dd6 && W(ABC, 73) == 0x380a1a26 && W(ABC, 74) == 0x01e02203 && W(ABC, 75) == 0xe7cc3456
    ensures W(ABC, 76) == 0xe6e60b69 && W(ABC, 77) == 0x00f60a00 && W(ABC, 78) == 0x5795ef4f && W(ABC, 79) == 0x822e0879
  {
    hide W;
    Words56();
    Words64();
    Next(72, 0x0060c000, 0x7cd45c9d, 0x458544d6, 0x651d16a0);
    Next(73, 0x3a37cd05, 0x000f0000, 0x44584cb7, 0x62658ca1);
    Next(74, 0x458546f4, 0xfb50753a, 0x7ba06619, 0x458544d6);
    Next(75, 0xb8599dd6, 0xec6765e8, 0x6380aea2, 0x44584cb7);
    Next(76, 0x380a1a26, 0xba3c2be2, 0x0ae55269, 0x7ba06619);
    Next(77, 0x01e02203, 0x0060c000, 0x627b49a1, 0x6380aea2);
    Next(78, 0xe7cc3456, 0x3a37cd05, 0x7cd45c9d, 0x0ae55269);
    Next(79, 0xe6e60b69, 0x458546f4, 0x000f0000, 0x627b49a1);
  }

  lemma Rounds10()
    ensures Steps(H0, ABC, 10) == Registers(0x8351f929, 0x4b6ae328, 0x27a301f5, 0x664f8c30, 0x0ff1f290)
  {
    hide W, Steps;
    NoRounds();
    Words0();
    Round(0, 0x67452301, 0xefcdab89, 0x98badcfe, 0x10325476, 0xc3d2e1f0, 0x61626380);
    Round(1, 0x0116fc33, 0x67452301, 0x7bf36ae2, 0x98badcfe, 0x10325476, 0);
    Round(2, 0x8990536d, 0x0116fc33, 0x59d148c0, 0x7bf36ae2, 0x98badcfe, 0);
    Round(3, 0xa1390f08, 0x8990536d, 0xc045bf0c, 0x59d148c0, 0x7bf36ae2, 0);
    Round(4, 0xcdd8e11b, 0xa1390f08, 0x626414db, 0xc045bf0c, 0x59d148c0, 0);
    Round(5, 0xcfd499de, 0xcdd8e11b, 0x284e43c2, 0x626414db, 0xc045bf0c, 0);
    Round(6, 0x3fc7ca40, 0xcfd499de, 0xf3763846, 0x284e43c2, 0x626414db, 0);
    Round(7, 0x993e30c1, 0x3fc7ca40, 0xb3f52677, 0xf3763846, 0x284e43c2, 0);
    Round(8, 0x9e8c07d4, 0x993e30c1, 0x0ff1f290, 0xb3f52677, 0xf3763846, 0);
    Round(9, 0x4b6ae328, 0x9e8c07d4, 0x664f8c30, 0x0ff1f290, 0xb3f52677, 0);
  }

  lemma Rounds20()
    ensures Steps(H0, ABC, 20) == Registers(0xfd9e1d7d, 0xdc64901d, 0x20aa99ca, 0xd3a49608, 0xc82f758b)
  {
    hide W, Steps;
    Rounds10();
    Words0();
    Words16();
    Round(10, 0x8351f929, 0x4b6ae328, 0x27a301f5, 0x664f8c30, 0x0ff1f290, 0);
    Round(11, 0xfbda9e89, 0x8351f929, 0x12dab8ca, 0x27a301f5, 0x664f8c30, 0);
    Round(12, 0x63188fe4, 0xfbda9e89, 0x60d47e4a, 0x12dab8ca, 0x27a301f5, 0);
    Round(13, 0x4607b664, 0x63188fe4, 0x7ef6a7a2, 0x60d47e4a, 0x12dab8ca, 0);
    Round(14, 0x9128f695, 0x4607b664, 0x18c623f9, 0x7ef6a7a2, 0x60d47e4a, 0);
    Round(15, 0x196bee77, 0x9128f695, 0x1181ed99, 0x18c623f9, 0x7ef6a7a2, 0x00000018);
    Round(16, 0x20bdd62f, 0x196bee77, 0x644a3da5, 0x1181ed99, 0x18c623f9, 0xc2c4c700);
    Round(17, 0x4e925823, 0x20bdd62f, 0xc65afb9d, 0x644a3da5, 0x1181ed99, 0);
    Round(18, 0x82aa6728, 0x4e925823, 0xc82f758b, 0xc65afb9d, 0x644a3da5, 0x00000030);
    Round(19, 0xdc64901d, 0x82aa6728, 0xd3a49608, 0xc82f758b, 0xc65afb9d, 0x85898e01);
  }

  lemma Rounds30()
    ensures Steps(H0, ABC, 30) == Registers(0xc5fbaf5d, 0x8370b52e, 0xd2aa1365, 0x6f8d7ef5, 0x12104ee9)
  {
    hide W, Steps;
    Rounds20();
    Words16();
    Words24();
    Round(20, 0xfd9e1d7d, 0xdc64901d, 0x20aa99ca, 0xd3a49608, 0xc82f758b, 0);
    Round(21, 0x1a37b0ca, 0xfd9e1d7d, 0x77192407, 0x20aa99ca, 0xd3a49608, 0x00000060);
    Round(22, 0x33a23bfc, 0x1a37b0ca, 0x7f67875f, 0x77192407, 0x20aa99ca, 0x0b131c03);
    Round(23, 0x21283486, 0x33a23bfc, 0x868dec32, 0x7f67875f, 0x77192407, 0x00000030);
    Round(24, 0xd541f12d, 0x21283486, 0x0ce88eff, 0x868dec32, 0x7f67875f, 0x85898ec1);
    Round(25, 0xc7567dc6, 0xd541f12d, 0x884a0d21, 0x0ce88eff, 0x868dec32, 0x16263806);
    Round(26, 0x48413ba4, 0xc7567dc6, 0x75507c4b, 0x884a0d21, 0x0ce88eff, 0);
    Round(27, 0xbe35fbd5, 0x48413ba4, 0xb1d59f71, 0x75507c4b, 0x884a0d21, 0x00000180);
    Round(28, 0x4aa84d97, 0xbe35fbd5, 0x12104ee9, 0xb1d59f71, 0x75507c4b, 0x2c4c700c);
    Round(29, 0x8370b52e, 0x4aa84d97, 0x6f8d7ef5, 0x12104ee9, 0xb1d59f71, 0x000000f0);
  }

  lemma Rounds40()
    ensures Steps(H0, ABC, 40) == Registers(0x32de1cba, 0x4c986405, 0xf718e5cf, 0x03d447f6, 0xf72eec32)
  {
    hide W, Steps;
    Rounds30();
    Words24();
    Words32();
    Round(30, 0xc5fbaf5d, 0x8370b52e, 0xd2aa1365, 0x6f8d7ef5, 0x12104ee9, 0x93afb507);
    Round(31, 0x1267b407, 0xc5fbaf5d, 0xa0dc2d4b, 0xd2aa1365, 0x6f8d7ef5, 0x5898e048);
    Round(32, 0x3b845d33, 0x1267b407, 0x717eebd7, 0xa0dc2d4b, 0xd2aa1365, 0x8e9a9202);
    Round(33, 0x046faa0a, 0x3b845d33, 0xc499ed01, 0x717eebd7, 0xa0dc2d4b, 0x00000600);
    Round(34, 0x2c0ebc11, 0x046faa0a, 0xcee1174c, 0xc499ed01, 0x717eebd7, 0xb131c0f0);
    Round(35, 0x21796ad4, 0x2c0ebc11, 0x811bea82, 0xcee1174c, 0xc499ed01, 0x16263bc6);
    Round(36, 0xdcbbb0cb, 0x21796ad4, 0x4b03af04, 0x811bea82, 0xcee1174c, 0x4ebed41e);
    Round(37, 0x0f511fd8, 0xdcbbb0cb, 0x085e5ab5, 0x4b03af04, 0x811bea82, 0x626380a1);
    Round(38, 0xdc63973f, 0x0f511fd8, 0xf72eec32, 0x085e5ab5, 0x4b03af04, 0x16263806);
    Round(39, 0x4c986405, 0xdc63973f, 0x03d447f6, 0xf72eec32, 0x085e5ab5, 0x000018c0);
  }

  lemma Rounds50()
    ensures Steps(H0, ABC, 50) == Registers(0x120731c5, 0xbaf39337, 0xafab40b2, 0x2806e11b, 0x8714787c)
  {
    hide W, Steps;
    Rounds40();
    Words40();
    Words48();
    Round(40, 0x32de1cba, 0x4c986405, 0xf718e5cf, 0x03d447f6, 0xf72eec32, 0xd2e138c4);
    Round(41, 0xfc87dedf, 0x32de1cba, 0x53261901, 0xf718e5cf, 0x03d447f6, 0x00000f00);
    Round(42, 0x970a0d5c, 0xfc87dedf, 0x8cb7872e, 0x53261901, 0xf718e5cf, 0x3afb5079);
    Round(43, 0x7f193dc5, 0x970a0d5c, 0xff21f7b7, 0x8cb7872e, 0x53261901, 0x898e04e5);
    Round(44, 0xee1b1aaf, 0x7f193dc5, 0x25c28357, 0xff21f7b7, 0x8cb7872e, 0xe2ba3c2b);
    Round(45, 0x40f28e09, 0xee1b1aaf, 0x5fc64f71, 0x25c28357, 0xff21f7b7, 0x000060c0);
    Round(46, 0x1c51e1f2, 0x40f28e09, 0xfb86c6ab, 0x5fc64f71, 0x25c28357, 0x053a37cd);
    Round(47, 0xa01b846c, 0x1c51e1f2, 0x503ca382, 0xfb86c6ab, 0x5fc64f71, 0x74458547);
    Round(48, 0xbead02ca, 0xa01b846c, 0x8714787c, 0x503ca382, 0xfb86c6ab, 0xda9415ed);
    Round(49, 0xbaf39337, 0xbead02ca, 0x2806e11b, 0x8714787c, 0x503ca382, 0x26380a16);
  }

  lemma Rounds60()
    ensures Steps(H0, ABC, 60) == Registers(0x3f52de5a, 0x09d785fd, 0x3498bfd4, 0xf211824f, 0xd79915ab)
  {
    hide W, Steps;
    Rounds50();
    Words48();
    Words56();
    Round(50, 0x120731c5, 0xbaf39337, 0xafab40b2, 0x2806e11b, 0x8714787c, 0x626383a1);
    Round(51, 0x641db2ce, 0x120731c5, 0xeebce4cd, 0xafab40b2, 0x2806e11b, 0x4ebf54de);
    Round(52, 0x3847ad66, 0x641db2ce, 0x4481cc71, 0xeebce4cd, 0xafab40b2, 0x3835b44b);
    Round(53, 0xe490436d, 0x3847ad66, 0x99076cb3, 0x4481cc71, 0xeebce4cd, 0x0000f600);
    Round(54, 0x27e9f1d8, 0xe490436d, 0x8e11eb59, 0x99076cb3, 0x4481cc71, 0x1e84c7a3);
    Round(55, 0x7b71f76d, 0x27e9f1d8, 0x792410db, 0x8e11eb59, 0x99076cb3, 0x98e04d98);
    Round(56, 0x5e6456af, 0x7b71f76d, 0x09fa7c76, 0x792410db, 0x8e11eb59, 0x651d16a0);
    Round(57, 0xc846093f, 0x5e6456af, 0x5edc7ddb, 0x09fa7c76, 0x792410db, 0x62658ca1);
    Round(58, 0xd262ff50, 0xc846093f, 0xd79915ab, 0x5edc7ddb, 0x09fa7c76, 0x458544d6);
    Round(59, 0x09d785fd, 0xd262ff50, 0xf211824f, 0xd79915ab, 0x5edc7ddb, 0x44584cb7);
  }

  lemma Rounds70()
    ensures Steps(H0, ABC, 70) == Registers(0x3f2588c2, 0x497093c0, 0xde37534a, 0x030f7cad, 0x4405957e)
  {
    hide W, Steps;
    Rounds60();
    Words56();
    Words64();
    Round(60, 0x3f52de5a, 0x09d785fd, 0x3498bfd4, 0xf211824f, 0xd79915ab, 0x7ba06619);
    Round(61, 0xd756c147, 0x3f52de5a, 0x4275e17f, 0x3498bfd4, 0xf211824f, 0x6380aea2);
    Round(62, 0x548c9cb2, 0xd756c147, 0x8fd4b796, 0x4275e17f, 0x3498bfd4, 0x0ae55269);
    Round(63, 0xb66c020b, 0x548c9cb2, 0xf5d5b051, 0x8fd4b796, 0x4275e17f, 0x627b49a1);
    Round(64, 0x6b61c9e1, 0xb66c020b, 0x9523272c, 0xf5d5b051, 0x8fd4b796, 0x7cd45c9d);
    Round(65, 0x19dfa7ac, 0x6b61c9e1, 0xed9b0082, 0x9523272c, 0xf5d5b051, 0x000f0000);
    Round(66, 0x101655f9, 0x19dfa7ac, 0x5ad87278, 0xed9b0082, 0x9523272c, 0xfb50753a);
    Round(67, 0x0c3df2b4, 0x101655f9, 0x0677e9eb, 0x5ad87278, 0xed9b0082, 0xec6765e8);
    Round(68, 0x78dd4d2b, 0x0c3df2b4, 0x4405957e, 0x0677e9eb, 0x5ad87278, 0xba3c2be2);
    Round(69, 0x497093c0, 0x78dd4d2b, 0x030f7cad, 0x4405957e, 0x0677e9eb, 0x0060c000);
  }

  lemma Rounds80()
    ensures Steps(H0, ABC, 80) == Registers(0x42541b35, 0x5738d5e1, 0x21834873, 0x681e6df6, 0xd8fdf6ad)
  {
    hide W, Steps;
    Rounds70();
    Words64();
    Words72();
    Round(70, 0x3f2588c2, 0x497093c0, 0xde37534a, 0x030f7cad, 0x4405957e, 0x3a37cd05);
    Round(71, 0xc199f8c7, 0x3f2588c2, 0x125c24f0, 0xde37534a, 0x030f7cad, 0x458546f4);
    Round(72, 0x39859de7, 0xc199f8c7, 0x8fc96230, 0x125c24f0, 0xde37534a, 0xb8599dd6);
    Round(73, 0xedb42de4, 0x39859de7, 0xf0667e31, 0x8fc96230, 0x125c24f0, 0x380a1a26);
    Round(74, 0x11793f6f, 0xedb42de4, 0xce616779, 0xf0667e31, 0x8fc96230, 0x01e02203);
    Round(75, 0x5ee76897, 0x11793f6f, 0x3b6d0b79, 0xce616779, 0xf0667e31, 0xe7cc3456);
    Round(76, 0x63f7dab7, 0x5ee76897, 0xc45e4fdb, 0x3b6d0b79, 0xce616779, 0xe6e60b69);
    Round(77, 0xa079b7d9, 0x63f7dab7, 0xd7b9da25, 0xc45e4fdb, 0x3b6d0b79, 0x00f60a00);
    Round(78, 0x860d21cc, 0xa079b7d9, 0xd8fdf6ad, 0xd7b9da25, 0xc45e4fdb, 0x5795ef4f);
    Round(79, 0x5738d5e1, 0x860d21cc, 0x681e6df6, 0xd8fdf6ad, 0xd7b9da25, 0x822e0879);
  }

  lemma NoRounds()
    ensures Steps(H0, ABC, 0) == Registers(0x67452301, 0xefcdab89, 0x98badcfe, 0x10325476, 0xc3d2e1f0)
  {
  }

  lemma Length()
    ensures Length64(24) == [0, 0, 0, 0, 0, 0, 0, 24]
  {
    assert Octet(0) == 0 && Octet(24) == 24;
    hide Octet;
  }

  lemma Padded()
    ensures Pad([0x61, 0x62, 0x63]) == [0x61, 0x62, 0x63, 0x80] + seq(59, _ => 0) + [24]
  {
    hide Length64;
    Length();
    assert Zeros(3) == 52;
  }

  lemma Ends()
    ensures BigEndian([0x61, 0x62, 0x63, 0x80]) == 0x61626380 && BigEndian([0, 0, 0, 0]) == 0
    ensures BigEndian([0, 0, 0, 24]) == 24
  {
  }

  lemma Four(b: seq<octet>, i: nat)
    requires i < 16 && b == [0x61, 0x62, 0x63, 0x80] + seq(59, _ => 0) + [24]
    ensures b[4 * i..4 * i + 4]
        == if i == 0 then [0x61, 0x62, 0x63, 0x80] else if i < 15 then [0, 0, 0, 0] else [0, 0, 0, 24]
  {
    assert forall j | 0 <= j < 64 :: b[j] == if j < 4 then [0x61, 0x62, 0x63, 0x80][j] else if j < 63 then 0 else 24;
  }

  lemma Loaded(b: seq<octet>)
    requires b == [0x61, 0x62, 0x63, 0x80] + seq(59, _ => 0) + [24]
    ensures Words(b) == ABC
  {
    hide BigEndian;
    Ends();
    forall i | 0 <= i < 16 ensures Words(b)[i] == ABC[i] {
      Four(b, i);
    }
  }

  lemma Compressed()
    ensures Compress(H0, ABC) == Registers(0xa9993e36, 0x4706816a, 0xba3e2571, 0x7850c26c, 0x9cd0d89d)
  {
    hide Steps;
    Rounds80();
  }

  /** The digest of "abc" is the standard's. */
  lemma DigestAbc()
    ensures Digest([0x61, 0x62, 0x63]) == [0xa9, 0x99, 0x3e, 0x36, 0x47, 0x06, 0x81, 0x6a, 0xba, 0x3e,
      0x25, 0x71, 0x78, 0x50, 0xc2, 0x6c, 0x9c, 0xd0, 0xd8, 0x9d]
  {
    hide Pad, Compress, Words;
    Padded();
    Loaded(Pad([0x61, 0x62, 0x63]));
    HashOne(H0, Pad([0x61, 0x62, 0x63]));
    Compressed();
  }
}
