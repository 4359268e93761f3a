// The SHA-1 of "abc", step by step: what section 7.3 of RFC 3174 tests first.
module Sha1Answer {
  import opened Words
  import opened HashSpec
  import opened Sha1Transform
  import Sha1

  function Five(a: bv32, b: bv32, c: bv32, d: bv32, e: bv32): Regs { Regs(Word(a), Word(b), Word(c), Word(d), Word(e)) }

  const START: Regs := Five(0x67452301, 0xefcdab89, 0x98badcfe, 0x10325476, 0xc3d2e1f0)

  // These are the registers before step t, and this is W(t).
  predicate At(t: nat, m: seq<Byte>, a: bv32, b: bv32, c: bv32, d: bv32, e: bv32) {
    |m| == 64 && RfcSteps(t, m, START) == Five(a, b, c, d, e)
  }

  predicate W(t: nat, m: seq<Byte>, w: bv32) { |m| == 64 && Wt(t, m) == Word(w) }

  function Sum(a: Word, f: Word, e: Word, w: Word, k: Word): Word {
    Add(e, Add(Add(Add(f, w), k), Rotl(a, 5)))
  }

  lemma Next(t: nat, m: seq<Byte>, a: bv32, b: bv32, c: bv32, d: bv32, e: bv32, w: bv32)
    requires At(t, m, a, b, c, d, e) && W(t, m, w)
    ensures RfcSteps(t + 1, m, START)
         == Regs(Temp(t, Word(a), Fn(t, Word(b), Word(c), Word(d)), Word(e), Word(w)), Word(a), Rotl(Word(b), 30),
                 Word(c), Word(d))
  {
    hide Temp, Fn, Rotl, Wt;
  }

  lemma ChStep(t: nat, m: seq<Byte>, a: bv32, b: bv32, c: bv32, d: bv32, e: bv32, w: bv32, v: bv32, r: bv32)
    requires t < 20 && At(t, m, a, b, c, d, e) && W(t, m, w) && Rotl(Word(b), 30) == Word(r)
    requires Sum(Word(a), Ch(Word(b), Word(c), Word(d)), Word(e), Word(w), Word(0x5a827999)) == Word(v)
    ensures At(t + 1, m, v, a, r, c, d)
  {
    hide Rotl, Add, Ch, Parity, Maj, RfcSteps, W;
    Next(t, m, a, b, c, d, e, w);
  }

  lemma ParStep(t: nat, m: seq<Byte>, a: bv32, b: bv32, c: bv32, d: bv32, e: bv32, w: bv32, v: bv32, r: bv32)
    requires 20 <= t < 40 && At(t, m, a, b, c, d, e) && W(t, m, w) && Rotl(Word(b), 30) == Word(r)
    requires Sum(Word(a), Parity(Word(b), Word(c), Word(d)), Word(e), Word(w), Word(0x6ed9eba1)) == Word(v)
    ensures At(t + 1, m, v, a, r, c, d)
  {
    hide Rotl, Add, Ch, Parity, Maj, RfcSteps, W;
    Next(t, m, a, b, c, d, e, w);
  }

  lemma MajStep(t: nat, m: seq<Byte>, a: bv32, b: bv32, c: bv32, d: bv32, e: bv32, w: bv32, v: bv32, r: bv32)
    requires 40 <= t < 60 && At(t, m, a, b, c, d, e) && W(t, m, w) && Rotl(Word(b), 30) == Word(r)
    requires Sum(Word(a), Maj(Word(b), Word(c), Word(d)), Word(e), Word(w), Word(0x8f1bbcdc)) == Word(v)
    ensures At(t + 1, m, v, a, r, c, d)
  {
    hide Rotl, Add, Ch, Parity, Maj, RfcSteps, W;
    Next(t, m, a, b, c, d, e, w);
  }

  lemma LastStep(t: nat, m: seq<Byte>, a: bv32, b: bv32, c: bv32, d: bv32, e: bv32, w: bv32, v: bv32, r: bv32)
    requires 60 <= t < 80 && At(t, m, a, b, c, d, e) && W(t, m, w) && Rotl(Word(b), 30) == Word(r)
    requires Sum(Word(a), Parity(Word(b), Word(c), Word(d)), Word(e), Word(w), Word(0xca62c1d6)) == Word(v)
    ensures At(t + 1, m, v, a, r, c, d)
  {
    hide Rotl, Add, Ch, Parity, Maj, RfcSteps, W;
    Next(t, m, a, b, c, d, e, w);
  }

  lemma NextWord(t: nat, m: seq<Byte>, w16: bv32, w14: bv32, w8: bv32, w3: bv32, w: bv32)
    requires t >= 16 && W(t - 16, m, w16) && W(t - 14, m, w14) && W(t - 8, m, w8) && W(t - 3, m, w3)
    requires Rotl(Xor(Xor(Xor(Word(w16), Word(w14)), Word(w8)), Word(w3)), 1) == Word(w)
    ensures W(t, m, w)
  {
    hide Rotl, Xor, BeWord;
  }

  lemma Words32(m: seq<Byte>, i: nat)
    requires i == 16
    requires W(i - 16, m, 0x61626380) && W(i - 15, m, 0x00000000) && W(i - 14, m, 0x00000000)
    requires W(i - 13, m, 0x00000000) && W(i - 12, m, 0x00000000) && W(i - 11, m, 0x00000000)
    requires W(i - 10, m, 0x00000000) && W(i - 9, m, 0x00000000) && W(i - 8, m, 0x00000000)
    requires W(i - 7, m, 0x00000000) && W(i - 6, m, 0x00000000) && W(i - 5, m, 0x00000000)
    requires W(i - 4, m, 0x00000000) && W(i - 3, m, 0x00000000) && W(i - 2, m, 0x00000000)
    requires W(i - 1, m, 0x00000018)
    ensures W(i, m, 0xc2c4c700) && W(i + 1, m, 0x00000000) && W(i + 2, m, 0x00000030) && W(i + 3, m, 0x85898e01)
    ensures W(i + 4, m, 0x00000000) && W(i + 5, m, 0x00000060) && W(i + 6, m, 0x0b131c03) && W(i + 7, m, 0x00000030)
    ensures W(i + 8, m, 0x85898ec1) && W(i + 9, m, 0x16263806) && W(i + 10, m, 0x00000000) && W(i + 11, m, 0x00000180)
    ensures W(i + 12, m, 0x2c4c700c) && W(i + 13, m, 0x000000f0) && W(i + 14, m, 0x93afb507) && W(i + 15, m, 0x5898e048)
  {
    hide W;
    NextWord(i, m, 0x61626380, 0x00000000, 0x00000000, 0x00000000, 0xc2c4c700);
    NextWord(i + 1, m, 0x00000000, 0x00000000, 0x00000000, 0x00000000, 0x00000000);
    NextWord(i + 2, m, 0x00000000, 0x00000000, 0x00000000, 0x00000018, 0x00000030);
    NextWord(i + 3, m, 0x00000000, 0x00000000, 0x00000000, 0xc2c4c700, 0x85898e01);
    NextWord(i + 4, m, 0x00000000, 0x00000000, 0x00000000, 0x00000000, 0x00000000);
    NextWord(i + 5, m, 0x00000000, 0x00000000, 0x00000000, 0x00000030, 0x00000060);
    NextWord(i + 6, m, 0x00000000, 0x00000000, 0x00000000, 0x85898e01, 0x0b131c03);
    NextWord(i + 7, m, 0x00000000, 0x00000000, 0x00000018, 0x00000000, 0x00000030);
    NextWord(i + 8, m, 0x00000000, 0x00000000, 0xc2c4c700, 0x00000060, 0x85898ec1);
    NextWord(i + 9, m, 0x00000000, 0x00000000, 0x00000000, 0x0b131c03, 0x16263806);
    NextWord(i + 10, m, 0x00000000, 0x00000000, 0x00000030, 0x00000030, 0x00000000);
    NextWord(i + 11, m, 0x00000000, 0x00000000, 0x85898e01, 0x85898ec1, 0x00000180);
    NextWord(i + 12, m, 0x00000000, 0x00000000, 0x00000000, 0x16263806, 0x2c4c700c);
    NextWord(i + 13, m, 0x00000000, 0x00000018, 0x00000060, 0x00000000, 0x000000f0);
    NextWord(i + 14, m, 0x00000000, 0xc2c4c700, 0x0b131c03, 0x00000180, 0x93afb507);
    NextWord(i + 15, m, 0x00000018, 0x00000000, 0x00000030, 0x2c4c700c, 0x5898e048);
  }

  lemma Words48(m: seq<Byte>, i: nat)
    requires i == 32
    requires W(i - 16, m, 0xc2c4c700) && W(i - 15, m, 0x00000000) && W(i - 14, m, 0x00000030)
    requires W(i - 13, m, 0x85898e01) && W(i - 12, m, 0x00000000) && W(i - 11, m, 0x00000060)
    requires W(i - 10, m, 0x0b131c03) && W(i - 9, m, 0x00000030) && W(i - 8, m, 0x85898ec1)
    requires W(i - 7, m, 0x16263806) && W(i - 6, m, 0x00000000) && W(i - 5, m, 0x00000180)
    requires W(i - 4, m, 0x2c4c700c) && W(i - 3, m, 0x000000f0) && W(i - 2, m, 0x93afb507)
    requires W(i - 1, m, 0x5898e048)
    ensures W(i, m, 0x8e9a9202) && W(i + 1, m, 0x00000600) && W(i + 2, m, 0xb131c0f0) && W(i + 3, m, 0x16263bc6)
    ensures W(i + 4, m, 0x4ebed41e) && W(i + 5, m, 0x626380a1) && W(i + 6, m, 0x16263806) && W(i + 7, m, 0x000018c0)
    ensures W(i + 8, m, 0xd2e138c4) && W(i + 9, m, 0x00000f00) && W(i + 10, m, 0x3afb5079) && W(i + 11, m, 0x898e04e5)
    ensures W(i + 12, m, 0xe2ba3c2b) && W(i + 13, m, 0x000060c0) && W(i + 14, m, 0x053a37cd) && W(i + 15, m, 0x74458547)
  {
    hide W;
    NextWord(i, m, 0xc2c4c700, 0x00000030, 0x85898ec1, 0x000000f0, 0x8e9a9202);
    NextWord(i + 1, m, 0x00000000, 0x85898e01, 0x16263806, 0x93afb507, 0x00000600);
    NextWord(i + 2, m, 0x00000030, 0x00000000, 0x00000000, 0x5898e048, 0xb131c0f0);
    NextWord(i + 3, m, 0x85898e01, 0x00000060, 0x00000180, 0x8e9a9202, 0x16263bc6);
    NextWord(i + 4, m, 0x00000000, 0x0b131c03, 0x2c4c700c, 0x00000600, 0x4ebed41e);
    NextWord(i + 5, m, 0x00000060, 0x00000030, 0x000000f0, 0xb131c0f0, 0x626380a1);
    NextWord(i + 6, m, 0x0b131c03, 0x85898ec1, 0x93afb507, 0x16263bc6, 0x16263806);
    NextWord(i + 7, m, 0x00000030, 0x16263806, 0x5898e048, 0x4ebed41e, 0x000018c0);
    NextWord(i + 8, m, 0x85898ec1, 0x00000000, 0x8e9a9202, 0x626380a1, 0xd2e138c4);
    NextWord(i + 9, m, 0x16263806, 0x00000180, 0x00000600, 0x16263806, 0x00000f00);
    NextWord(i + 10, m, 0x00000000, 0x2c4c700c, 0xb131c0f0, 0x000018c0, 0x3afb5079);
    NextWord(i + 11, m, 0x00000180, 0x000000f0, 0x16263bc6, 0xd2e138c4, 0x898e04e5);
    NextWord(i + 12, m, 0x2c4c700c, 0x93afb507, 0x4ebed41e, 0x00000f00, 0xe2ba3c2b);
    NextWord(i + 13, m, 0x000000f0, 0x5898e048, 0x626380a1, 0x3afb5079, 0x000060c0);
    NextWord(i + 14, m, 0x93afb507, 0x8e9a9202, 0x16263806, 0x898e04e5, 0x053a37cd);
    NextWord(i + 15, m, 0x5898e048, 0x00000600, 0x000018c0, 0xe2ba3c2b, 0x74458547);
  }

  lemma Words64(m: seq<Byte>, i: nat)
    requires i == 48
    requires W(i - 16, m, 0x8e9a9202) && W(i - 15, m, 0x00000600) && W(i - 14, m, 0xb131c0f0)
    requires W(i - 13, m, 0x16263bc6) && W(i - 12, m, 0x4ebed41e) && W(i - 11, m, 0x626380a1)
    requires W(i - 10, m, 0x16263806) && W(i - 9, m, 0x000018c0) && W(i - 8, m, 0xd2e138c4)
    requires W(i - 7, m, 0x00000f00) && W(i - 6, m, 0x3afb5079) && W(i - 5, m, 0x898e04e5)
    requires W(i - 4, m, 0xe2ba3c2b) && W(i - 3, m, 0x000060c0) && W(i - 2, m, 0x053a37cd)
    requires W(i - 1, m, 0x74458547)
    ensures W(i, m, 0xda9415ed) && W(i + 1, m, 0x26380a16) && W(i + 2, m, 0x626383a1) && W(i + 3, m, 0x4ebf54de)
    ensures W(i + 4, m, 0x3835b44b) && W(i + 5, m, 0x0000f600) && W(i + 6, m, 0x1e84c7a3) && W(i + 7, m, 0x98e04d98)
    ensures W(i + 8, m, 0x651d16a0) && W(i + 9, m, 0x62658ca1) && W(i + 10, m, 0x458544d6) && W(i + 11, m, 0x44584cb7)
    ensures W(i + 12, m, 0x7ba06619) && W(i + 13, m, 0x6380aea2) && W(i + 14, m, 0x0ae55269) && W(i + 15, m, 0x627b49a1)
  {
    hide W;
    NextWord(i, m, 0x8e9a9202, 0xb131c0f0, 0xd2e138c4, 0x000060c0, 0xda9415ed);
    NextWord(i + 1, m, 0x00000600, 0x16263bc6, 0x00000f00, 0x053a37cd, 0x26380a16);
    NextWord(i + 2, m, 0xb131c0f0, 0x4ebed41e, 0x3afb5079, 0x74458547, 0x626383a1);
    NextWord(i + 3, m, 0x16263bc6, 0x626380a1, 0x898e04e5, 0xda9415ed, 0x4ebf54de);
    NextWord(i + 4, m, 0x4ebed41e, 0x16263806, 0xe2ba3c2b, 0x26380a16, 0x3835b44b);
    NextWord(i + 5, m, 0x626380a1, 0x000018c0, 0x000060c0, 0x626383a1, 0x0000f600);
    NextWord(i + 6, m, 0x16263806, 0xd2e138c4, 0x053a37cd, 0x4ebf54de, 0x1e84c7a3);
    NextWord(i + 7, m, 0x000018c0, 0x00000f00, 0x74458547, 0x3835b44b, 0x98e04d98);
    NextWord(i + 8, m, 0xd2e138c4, 0x3afb5079, 0xda9415ed, 0x0000f600, 0x651d16a0);
    NextWord(i + 9, m, 0x00000f00, 0x898e04e5, 0x26380a16, 0x1e84c7a3, 0x62658ca1);
    NextWord(i + 10, m, 0x3afb5079, 0xe2ba3c2b, 0x626383a1, 0x98e04d98, 0x458544d6);
    NextWord(i + 11, m, 0x898e04e5, 0x000060c0, 0x4ebf54de, 0x651d16a0, 0x44584cb7);
    NextWord(i + 12, m, 0xe2ba3c2b, 0x053a37cd, 0x3835b44b, 0x62658ca1, 0x7ba06619);
    NextWord(i + 13, m, 0x000060c0, 0x74458547, 0x0000f600, 0x458544d6, 0x6380aea2);
    NextWord(i + 14, m, 0x053a37cd, 0xda9415ed, 0x1e84c7a3, 0x44584cb7, 0x0ae55269);
    NextWord(i + 15, m, 0x74458547, 0x26380a16, 0x98e04d98, 0x7ba06619, 0x627b49a1);
  }

  lemma Words80(m: seq<Byte>, i: nat)
    requires i == 64
    requires W(i - 16, m, 0xda9415ed) && W(i - 15, m, 0x26380a16) && W(i - 14, m, 0x626383a1)
    requires W(i - 13, m, 0x4ebf54de) && W(i - 12, m, 0x3835b44b) && W(i - 11, m, 0x0000f600)
    requires W(i - 10, m, 0x1e84c7a3) && W(i - 9, m, 0x98e04d98) && W(i - 8, m, 0x651d16a0)
    requires W(i - 7, m, 0x62658ca1) && W(i - 6, m, 0x458544d6) && W(i - 5, m, 0x44584cb7)
    requires W(i - 4, m, 0x7ba06619) && W(i - 3, m, 0x6380aea2) && W(i - 2, m, 0x0ae55269)
    requires W(i - 1, m, 0x627b49a1)
    ensures W(i, m, 0x7cd45c9d) && W(i + 1, m, 0x000f0000) && W(i + 2, m, 0xfb50753a) && W(i + 3, m, 0xec6765e8)
    ensures W(i + 4, m, 0xba3c2be2) && W(i + 5, m, 0x0060c000) && W(i + 6, m, 0x3a37cd05) && W(i + 7, m, 0x458546f4)
    ensures W(i + 8, m, 0xb8599dd6) && W(i + 9, m, 0x380a1a26) && W(i + 10, m, 0x01e02203) && W(i + 11, m, 0xe7cc3456)
    ensures W(i + 12, m, 0xe6e60b69) && W(i + 13, m, 0x00f60a00) && W(i + 14, m, 0x5795ef4f) && W(i + 15, m, 0x822e0879)
  {
    hide W;
    NextWord(i, m, 0xda9415ed, 0x626383a1, 0x651d16a0, 0x6380aea2, 0x7cd45c9d);
    NextWord(i + 1, m, 0x26380a16, 0x4ebf54de, 0x62658ca1, 0x0ae55269, 0x000f0000);
    NextWord(i + 2, m, 0x626383a1, 0x3835b44b, 0x458544d6, 0x627b49a1, 0xfb50753a);
    NextWord(i + 3, m, 0x4ebf54de, 0x0000f600, 0x44584cb7, 0x7cd45c9d, 0xec6765e8);
    NextWord(i + 4, m, 0x3835b44b, 0x1e84c7a3, 0x7ba06619, 0x000f0000, 0xba3c2be2);
    NextWord(i + 5, m, 0x0000f600, 0x98e04d98, 0x6380aea2, 0xfb50753a, 0x0060c000);
    NextWord(i + 6, m, 0x1e84c7a3, 0x651d16a0, 0x0ae55269, 0xec6765e8, 0x3a37cd05);
    NextWord(i + 7, m, 0x98e04d98, 0x62658ca1, 0x627b49a1, 0xba3c2be2, 0x458546f4);
    NextWord(i + 8, m, 0x651d16a0, 0x458544d6, 0x7cd45c9d, 0x0060c000, 0xb8599dd6);
    NextWord(i + 9, m, 0x62658ca1, 0x44584cb7, 0x000f0000, 0x3a37cd05, 0x380a1a26);
    NextWord(i + 10, m, 0x458544d6, 0x7ba06619, 0xfb50753a, 0x458546f4, 0x01e02203);
    NextWord(i + 11, m, 0x44584cb7, 0x6380aea2, 0xec6765e8, 0xb8599dd6, 0xe7cc3456);
    NextWord(i + 12, m, 0x7ba06619, 0x0ae55269, 0xba3c2be2, 0x380a1a26, 0xe6e60b69);
    NextWord(i + 13, m, 0x6380aea2, 0x627b49a1, 0x0060c000, 0x01e02203, 0x00f60a00);
    NextWord(i + 14, m, 0x0ae55269, 0x7cd45c9d, 0x3a37cd05, 0xe7cc3456, 0x5795ef4f);
    NextWord(i + 15, m, 0x627b49a1, 0x000f0000, 0x458546f4, 0xe6e60b69, 0x822e0879);
  }

  lemma Steps8(m: seq<Byte>, i: nat)
    requires i == 0 && At(i, m, 0x67452301, 0xefcdab89, 0x98badcfe, 0x10325476, 0xc3d2e1f0)
    requires W(i, m, 0x61626380) && W(i + 1, m, 0x00000000) && W(i + 2, m, 0x00000000) && W(i + 3, m, 0x00000000)
    requires W(i + 4, m, 0x00000000) && W(i + 5, m, 0x00000000) && W(i + 6, m, 0x00000000) && W(i + 7, m, 0x00000000)
    ensures At(i + 8, m, 0x9e8c07d4, 0x993e30c1, 0x0ff1f290, 0xb3f52677, 0xf3763846)
  {
    hide At, W;
    ChStep(i, m, 0x67452301, 0xefcdab89, 0x98badcfe, 0x10325476, 0xc3d2e1f0, 0x61626380, 0x0116fc33, 0x7bf36ae2);
    ChStep(i + 1, m, 0x0116fc33, 0x67452301, 0x7bf36ae2, 0x98badcfe, 0x10325476, 0x00000000, 0x8990536d, 0x59d148c0);
    ChStep(i + 2, m, 0x8990536d, 0x0116fc33, 0x59d148c0, 0x7bf36ae2, 0x98badcfe, 0x00000000, 0xa1390f08, 0xc045bf0c);
    ChStep(i + 3, m, 0xa1390f08, 0x8990536d, 0xc045bf0c, 0x59d148c0, 0x7bf36ae2, 0x00000000, 0xcdd8e11b, 0x626414db);
    ChStep(i + 4, m, 0xcdd8e11b, 0xa1390f08, 0x626414db, 0xc045bf0c, 0x59d148c0, 0x00000000, 0xcfd499de, 0x284e43c2);
    ChStep(i + 5, m, 0xcfd499de, 0xcdd8e11b, 0x284e43c2, 0x626414db, 0xc045bf0c, 0x00000000, 0x3fc7ca40, 0xf3763846);
    ChStep(i + 6, m, 0x3fc7ca40, 0xcfd499de, 0xf3763846, 0x284e43c2, 0x626414db, 0x00000000, 0x993e30c1, 0xb3f52677);
    ChStep(i + 7, m, 0x993e30c1, 0x3fc7ca40, 0xb3f52677, 0xf3763846, 0x284e43c2, 0x00000000, 0x9e8c07d4, 0x0ff1f290);
  }

  lemma Steps16(m: seq<Byte>, i: nat)
    requires i == 8 && At(i, m, 0x9e8c07d4, 0x993e30c1, 0x0ff1f290, 0xb3f52677, 0xf3763846)
    requires W(i, m, 0x00000000) && W(i + 1, m, 0x00000000) && W(i + 2, m, 0x00000000) && W(i + 3, m, 0x00000000)
    requires W(i + 4, m, 0x00000000) && W(i + 5, m, 0x00000000) && W(i + 6, m, 0x00000000) && W(i + 7, m, 0x00000018)
    ensures At(i + 8, m, 0x20bdd62f, 0x196bee77, 0x644a3da5, 0x1181ed99, 0x18c623f9)
  {
    hide At, W;
    ChStep(i, m, 0x9e8c07d4, 0x993e30c1, 0x0ff1f290, 0xb3f52677, 0xf3763846, 0x00000000, 0x4b6ae328, 0x664f8c30);
    ChStep(i + 1, m, 0x4b6ae328, 0x9e8c07d4, 0x664f8c30, 0x0ff1f290, 0xb3f52677, 0x00000000, 0x8351f929, 0x27a301f5);
    ChStep(i + 2, m, 0x8351f929, 0x4b6ae328, 0x27a301f5, 0x664f8c30, 0x0ff1f290, 0x00000000, 0xfbda9e89, 0x12dab8ca);
    ChStep(i + 3, m, 0xfbda9e89, 0x8351f929, 0x12dab8ca, 0x27a301f5, 0x664f8c30, 0x00000000, 0x63188fe4, 0x60d47e4a);
    ChStep(i + 4, m, 0x63188fe4, 0xfbda9e89, 0x60d47e4a, 0x12dab8ca, 0x27a301f5, 0x00000000, 0x4607b664, 0x7ef6a7a2);
    ChStep(i + 5, m, 0x4607b664, 0x63188fe4, 0x7ef6a7a2, 0x60d47e4a, 0x12dab8ca, 0x00000000, 0x9128f695, 0x18c623f9);
    ChStep(i + 6, m, 0x9128f695, 0x4607b664, 0x18c623f9, 0x7ef6a7a2, 0x60d47e4a, 0x00000000, 0x196bee77, 0x1181ed99);
    ChStep(i + 7, m, 0x196bee77, 0x9128f695, 0x1181ed99, 0x18c623f9, 0x7ef6a7a2, 0x00000018, 0x20bdd62f, 0x644a3da5);
  }

  lemma Steps24(m: seq<Byte>, i: nat)
    requires i == 16 && At(i, m, 0x20bdd62f, 0x196bee77, 0x644a3da5, 0x1181ed99, 0x18c623f9)
    requires W(i, m, 0xc2c4c700) && W(i + 1, m, 0x00000000) && W(i + 2, m, 0x00000030) && W(i + 3, m, 0x85898e01)
    requires W(i + 4, m, 0x00000000) && W(i + 5, m, 0x00000060) && W(i + 6, m, 0x0b131c03) && W(i + 7, m, 0x00000030)
    ensures At(i + 8, m, 0xd541f12d, 0x21283486, 0x0ce88eff, 0x868dec32, 0x7f67875f)
  {
    hide At, W;
    ChStep(i, m, 0x20bdd62f, 0x196bee77, 0x644a3da5, 0x1181ed99, 0x18c623f9, 0xc2c4c700, 0x4e925823, 0xc65afb9d);
    ChStep(i + 1, m, 0x4e925823, 0x20bdd62f, 0xc65afb9d, 0x644a3da5, 0x1181ed99, 0x00000000, 0x82aa6728, 0xc82f758b);
    ChStep(i + 2, m, 0x82aa6728, 0x4e925823, 0xc82f758b, 0xc65afb9d, 0x644a3da5, 0x00000030, 0xdc64901d, 0xd3a49608);
    ChStep(i + 3, m, 0xdc64901d, 0x82aa6728, 0xd3a49608, 0xc82f758b, 0xc65afb9d, 0x85898e01, 0xfd9e1d7d, 0x20aa99ca);
    ParStep(i + 4, m, 0xfd9e1d7d, 0xdc64901d, 0x20aa99ca, 0xd3a49608, 0xc82f758b, 0x00000000, 0x1a37b0ca, 0x77192407);
    ParStep(i + 5, m, 0x1a37b0ca, 0xfd9e1d7d, 0x77192407, 0x20aa99ca, 0xd3a49608, 0x00000060, 0x33a23bfc, 0x7f67875f);
    ParStep(i + 6, m, 0x33a23bfc, 0x1a37b0ca, 0x7f67875f, 0x77192407, 0x20aa99ca, 0x0b131c03, 0x21283486, 0x868dec32);
    ParStep(i + 7, m, 0x21283486, 0x33a23bfc, 0x868dec32, 0x7f67875f, 0x77192407, 0x00000030, 0xd541f12d, 0x0ce88eff);
  }

  lemma Steps32(m: seq<Byte>, i: nat)
    requires i == 24 && At(i, m, 0xd541f12d, 0x21283486, 0x0ce88eff, 0x868dec32, 0x7f67875f)
    requires W(i, m, 0x85898ec1) && W(i + 1, m, 0x16263806) && W(i + 2, m, 0x00000000) && W(i + 3, m, 0x00000180)
    requires W(i + 4, m, 0x2c4c700c) && W(i + 5, m, 0x000000f0) && W(i + 6, m, 0x93afb507) && W(i + 7, m, 0x5898e048)
    ensures At(i + 8, m, 0x3b845d33, 0x1267b407, 0x717eebd7, 0xa0dc2d4b, 0xd2aa1365)
  {
    hide At, W;
    ParStep(i, m, 0xd541f12d, 0x21283486, 0x0ce88eff, 0x868dec32, 0x7f67875f, 0x85898ec1, 0xc7567dc6, 0x884a0d21);
    ParStep(i + 1, m, 0xc7567dc6, 0xd541f12d, 0x884a0d21, 0x0ce88eff, 0x868dec32, 0x16263806, 0x48413ba4, 0x75507c4b);
    ParStep(i + 2, m, 0x48413ba4, 0xc7567dc6, 0x75507c4b, 0x884a0d21, 0x0ce88eff, 0x00000000, 0xbe35fbd5, 0xb1d59f71);
    ParStep(i + 3, m, 0xbe35fbd5, 0x48413ba4, 0xb1d59f71, 0x75507c4b, 0x884a0d21, 0x00000180, 0x4aa84d97, 0x12104ee9);
    ParStep(i + 4, m, 0x4aa84d97, 0xbe35fbd5, 0x12104ee9, 0xb1d59f71, 0x75507c4b, 0x2c4c700c, 0x8370b52e, 0x6f8d7ef5);
    ParStep(i + 5, m, 0x8370b52e, 0x4aa84d97, 0x6f8d7ef5, 0x12104ee9, 0xb1d59f71, 0x000000f0, 0xc5fbaf5d, 0xd2aa1365);
    ParStep(i + 6, m, 0xc5fbaf5d, 0x8370b52e, 0xd2aa1365, 0x6f8d7ef5, 0x12104ee9, 0x93afb507, 0x1267b407, 0xa0dc2d4b);
    ParStep(i + 7, m, 0x1267b407, 0xc5fbaf5d, 0xa0dc2d4b, 0xd2aa1365, 0x6f8d7ef5, 0x5898e048, 0x3b845d33, 0x717eebd7);
  }

  lemma Steps40(m: seq<Byte>, i: nat)
    requires i == 32 && At(i, m, 0x3b845d33, 0x1267b407, 0x717eebd7, 0xa0dc2d4b, 0xd2aa1365)
    requires W(i, m, 0x8e9a9202) && W(i + 1, m, 0x00000600) && W(i + 2, m, 0xb131c0f0) && W(i + 3, m, 0x16263bc6)
    requires W(i + 4, m, 0x4ebed41e) && W(i + 5, m, 0x626380a1) && W(i + 6, m, 0x16263806) && W(i + 7, m, 0x000018c0)
    ensures At(i + 8, m, 0x32de1cba, 0x4c986405, 0xf718e5cf, 0x03d447f6, 0xf72eec32)
  {
    hide At, W;
    ParStep(i, m, 0x3b845d33, 0x1267b407, 0x717eebd7, 0xa0dc2d4b, 0xd2aa1365, 0x8e9a9202, 0x046faa0a, 0xc499ed01);
    ParStep(i + 1, m, 0x046faa0a, 0x3b845d33, 0xc499ed01, 0x717eebd7, 0xa0dc2d4b, 0x00000600, 0x2c0ebc11, 0xcee1174c);
    ParStep(i + 2, m, 0x2c0ebc11, 0x046faa0a, 0xcee1174c, 0xc499ed01, 0x717eebd7, 0xb131c0f0, 0x21796ad4, 0x811bea82);
    ParStep(i + 3, m, 0x21796ad4, 0x2c0ebc11, 0x811bea82, 0xcee1174c, 0xc499ed01, 0x16263bc6, 0xdcbbb0cb, 0x4b03af04);
    ParStep(i + 4, m, 0xdcbbb0cb, 0x21796ad4, 0x4b03af04, 0x811bea82, 0xcee1174c, 0x4ebed41e, 0x0f511fd8, 0x085e5ab5);
    ParStep(i + 5, m, 0x0f511fd8, 0xdcbbb0cb, 0x085e5ab5, 0x4b03af04, 0x811bea82, 0x626380a1, 0xdc63973f, 0xf72eec32);
    ParStep(i + 6, m, 0xdc63973f, 0x0f511fd8, 0xf72eec32, 0x085e5ab5, 0x4b03af04, 0x16263806, 0x4c986405, 0x03d447f6);
    ParStep(i + 7, m, 0x4c986405, 0xdc63973f, 0x03d447f6, 0xf72eec32, 0x085e5ab5, 0x000018c0, 0x32de1cba, 0xf718e5cf);
  }

  lemma Steps48(m: seq<Byte>, i: nat)
    requires i == 40 && At(i, m, 0x32de1cba, 0x4c986405, 0xf718e5cf, 0x03d447f6, 0xf72eec32)
    requires W(i, m, 0xd2e138c4) && W(i + 1, m, 0x00000f00) && W(i + 2, m, 0x3afb5079) && W(i + 3, m, 0x898e04e5)
    requires W(i + 4, m, 0xe2ba3c2b) && W(i + 5, m, 0x000060c0) && W(i + 6, m, 0x053a37cd) && W(i + 7, m, 0x74458547)
    ensures At(i + 8, m, 0xbead02ca, 0xa01b846c, 0x8714787c, 0x503ca382, 0xfb86c6ab)
  {
    hide At, W;
    MajStep(i, m, 0x32de1cba, 0x4c986405, 0xf718e5cf, 0x03d447f6, 0xf72eec32, 0xd2e138c4, 0xfc87dedf, 0x53261901);
    MajStep(i + 1, m, 0xfc87dedf, 0x32de1cba, 0x53261901, 0xf718e5cf, 0x03d447f6, 0x00000f00, 0x970a0d5c, 0x8cb7872e);
    MajStep(i + 2, m, 0x970a0d5c, 0xfc87dedf, 0x8cb7872e, 0x53261901, 0xf718e5cf, 0x3afb5079, 0x7f193dc5, 0xff21f7b7);
    MajStep(i + 3, m, 0x7f193dc5, 0x970a0d5c, 0xff21f7b7, 0x8cb7872e, 0x53261901, 0x898e04e5, 0xee1b1aaf, 0x25c28357);
    MajStep(i + 4, m, 0xee1b1aaf, 0x7f193dc5, 0x25c28357, 0xff21f7b7, 0x8cb7872e, 0xe2ba3c2b, 0x40f28e09, 0x5fc64f71);
    MajStep(i + 5, m, 0x40f28e09, 0xee1b1aaf, 0x5fc64f71, 0x25c28357, 0xff21f7b7, 0x000060c0, 0x1c51e1f2, 0xfb86c6ab);
    MajStep(i + 6, m, 0x1c51e1f2, 0x40f28e09, 0xfb86c6ab, 0x5fc64f71, 0x25c28357, 0x053a37cd, 0xa01b846c, 0x503ca382);
    MajStep(i + 7, m, 0xa01b846c, 0x1c51e1f2, 0x503ca382, 0xfb86c6ab, 0x5fc64f71, 0x74458547, 0xbead02ca, 0x8714787c);
  }

  lemma Steps56(m: seq<Byte>, i: nat)
    requires i == 48 && At(i, m, 0xbead02ca, 0xa01b846c, 0x8714787c, 0x503ca382, 0xfb86c6ab)
    requires W(i, m, 0xda9415ed) && W(i + 1, m, 0x26380a16) && W(i + 2, m, 0x626383a1) && W(i + 3, m, 0x4ebf54de)
    requires W(i + 4, m, 0x3835b44b) && W(i + 5, m, 0x0000f600) && W(i + 6, m, 0x1e84c7a3) && W(i + 7, m, 0x98e04d98)
    ensures At(i + 8, m, 0x5e6456af, 0x7b71f76d, 0x09fa7c76, 0x792410db, 0x8e11eb59)
  {
    hide At, W;
    MajStep(i, m, 0xbead02ca, 0xa01b846c, 0x8714787c, 0x503ca382, 0xfb86c6ab, 0xda9415ed, 0xbaf39337, 0x2806e11b);
    MajStep(i + 1, m, 0xbaf39337, 0xbead02ca, 0x2806e11b, 0x8714787c, 0x503ca382, 0x26380a16, 0x120731c5, 0xafab40b2);
    MajStep(i + 2, m, 0x120731c5, 0xbaf39337, 0xafab40b2, 0x2806e11b, 0x8714787c, 0x626383a1, 0x641db2ce, 0xeebce4cd);
    MajStep(i + 3, m, 0x641db2ce, 0x120731c5, 0xeebce4cd, 0xafab40b2, 0x2806e11b, 0x4ebf54de, 0x3847ad66, 0x4481cc71);
    MajStep(i + 4, m, 0x3847ad66, 0x641db2ce, 0x4481cc71, 0xeebce4cd, 0xafab40b2, 0x3835b44b, 0xe490436d, 0x99076cb3);
    MajStep(i + 5, m, 0xe490436d, 0x3847ad66, 0x99076cb3, 0x4481cc71, 0xeebce4cd, 0x0000f600, 0x27e9f1d8, 0x8e11eb59);
    MajStep(i + 6, m, 0x27e9f1d8, 0xe490436d, 0x8e11eb59, 0x99076cb3, 0x4481cc71, 0x1e84c7a3, 0x7b71f76d, 0x792410db);
    MajStep(i + 7, m, 0x7b71f76d, 0x27e9f1d8, 0x792410db, 0x8e11eb59, 0x99076cb3, 0x98e04d98, 0x5e6456af, 0x09fa7c76);
  }

  lemma Steps64(m: seq<Byte>, i: nat)
    requires i == 56 && At(i, m, 0x5e6456af, 0x7b71f76d, 0x09fa7c76, 0x792410db, 0x8e11eb59)
    requires W(i, m, 0x651d16a0) && W(i + 1, m, 0x62658ca1) && W(i + 2, m, 0x458544d6) && W(i + 3, m, 0x44584cb7)
    requires W(i + 4, m, 0x7ba06619) && W(i + 5, m, 0x6380aea2) && W(i + 6, m, 0x0ae55269) && W(i + 7, m, 0x627b49a1)
    ensures At(i + 8, m, 0x6b61c9e1, 0xb66c020b, 0x9523272c, 0xf5d5b051, 0x8fd4b796)
  {
    hide At, W;
    MajStep(i, m, 0x5e6456af, 0x7b71f76d, 0x09fa7c76, 0x792410db, 0x8e11eb59, 0x651d16a0, 0xc846093f, 0x5edc7ddb);
    MajStep(i + 1, m, 0xc846093f, 0x5e6456af, 0x5edc7ddb, 0x09fa7c76, 0x792410db, 0x62658ca1, 0xd262ff50, 0xd79915ab);
    MajStep(i + 2, m, 0xd262ff50, 0xc846093f, 0xd79915ab, 0x5edc7ddb, 0x09fa7c76, 0x458544d6, 0x09d785fd, 0xf211824f);
    MajStep(i + 3, m, 0x09d785fd, 0xd262ff50, 0xf211824f, 0xd79915ab, 0x5edc7ddb, 0x44584cb7, 0x3f52de5a, 0x3498bfd4);
    LastStep(i + 4, m, 0x3f52de5a, 0x09d785fd, 0x3498bfd4, 0xf211824f, 0xd79915ab, 0x7ba06619, 0xd756c147, 0x4275e17f);
    LastStep(i + 5, m, 0xd756c147, 0x3f52de5a, 0x4275e17f, 0x3498bfd4, 0xf211824f, 0x6380aea2, 0x548c9cb2, 0x8fd4b796);
    LastStep(i + 6, m, 0x548c9cb2, 0xd756c147, 0x8fd4b796, 0x4275e17f, 0x3498bfd4, 0x0ae55269, 0xb66c020b, 0xf5d5b051);
    LastStep(i + 7, m, 0xb66c020b, 0x548c9cb2, 0xf5d5b051, 0x8fd4b796, 0x4275e17f, 0x627b49a1, 0x6b61c9e1, 0x9523272c);
  }

  lemma Steps72(m: seq<Byte>, i: nat)
    requires i == 64 && At(i, m, 0x6b61c9e1, 0xb66c020b, 0x9523272c, 0xf5d5b051, 0x8fd4b796)
    requires W(i, m, 0x7cd45c9d) && W(i + 1, m, 0x000f0000) && W(i + 2, m, 0xfb50753a) && W(i + 3, m, 0xec6765e8)
    requires W(i + 4, m, 0xba3c2be2) && W(i + 5, m, 0x0060c000) && W(i + 6, m, 0x3a37cd05) && W(i + 7, m, 0x458546f4)
    ensures At(i + 8, m, 0x39859de7, 0xc199f8c7, 0x8fc96230, 0x125c24f0, 0xde37534a)
  {
    hide At, W;
    LastStep(i, m, 0x6b61c9e1, 0xb66c020b, 0x9523272c, 0xf5d5b051, 0x8fd4b796, 0x7cd45c9d, 0x19dfa7ac, 0xed9b0082);
    LastStep(i + 1, m, 0x19dfa7ac, 0x6b61c9e1, 0xed9b0082, 0x9523272c, 0xf5d5b051, 0x000f0000, 0x101655f9, 0x5ad87278);
    LastStep(i + 2, m, 0x101655f9, 0x19dfa7ac, 0x5ad87278, 0xed9b0082, 0x9523272c, 0xfb50753a, 0x0c3df2b4, 0x0677e9eb);
    LastStep(i + 3, m, 0x0c3df2b4, 0x101655f9, 0x0677e9eb, 0x5ad87278, 0xed9b0082, 0xec6765e8, 0x78dd4d2b, 0x4405957e);
    LastStep(i + 4, m, 0x78dd4d2b, 0x0c3df2b4, 0x4405957e, 0x0677e9eb, 0x5ad87278, 0xba3c2be2, 0x497093c0, 0x030f7cad);
    LastStep(i + 5, m, 0x497093c0, 0x78dd4d2b, 0x030f7cad, 0x4405957e, 0x0677e9eb, 0x0060c000, 0x3f2588c2, 0xde37534a);
    LastStep(i + 6, m, 0x3f2588c2, 0x497093c0, 0xde37534a, 0x030f7cad, 0x4405957e, 0x3a37cd05, 0xc199f8c7, 0x125c24f0);
    LastStep(i + 7, m, 0xc199f8c7, 0x3f2588c2, 0x125c24f0, 0xde37534a, 0x030f7cad, 0x458546f4, 0x39859de7, 0x8fc96230);
  }

  lemma Steps80(m: seq<Byte>, i: nat)
    requires i == 72 && At(i, m, 0x39859de7, 0xc199f8c7, 0x8fc96230, 0x125c24f0, 0xde37534a)
    requires W(i, m, 0xb8599dd6) && W(i + 1, m, 0x380a1a26) && W(i + 2, m, 0x01e02203) && W(i + 3, m, 0xe7cc3456)
    requires W(i + 4, m, 0xe6e60b69) && W(i + 5, m, 0x00f60a00) && W(i + 6, m, 0x5795ef4f) && W(i + 7, m, 0x822e0879)
    ensures At(i + 8, m, 0x42541b35, 0x5738d5e1, 0x21834873, 0x681e6df6, 0xd8fdf6ad)
  {
    hide At, W;
    LastStep(i, m, 0x39859de7, 0xc199f8c7, 0x8fc96230, 0x125c24f0, 0xde37534a, 0xb8599dd6, 0xedb42de4, 0xf0667e31);
    LastStep(i + 1, m, 0xedb42de4, 0x39859de7, 0xf0667e31, 0x8fc96230, 0x125c24f0, 0x380a1a26, 0x11793f6f, 0xce616779);
    LastStep(i + 2, m, 0x11793f6f, 0xedb42de4, 0xce616779, 0xf0667e31, 0x8fc96230, 0x01e02203, 0x5ee76897, 0x3b6d0b79);
    LastStep(i + 3, m, 0x5ee76897, 0x11793f6f, 0x3b6d0b79, 0xce616779, 0xf0667e31, 0xe7cc3456, 0x63f7dab7, 0xc45e4fdb);
    LastStep(i + 4, m, 0x63f7dab7, 0x5ee76897, 0xc45e4fdb, 0x3b6d0b79, 0xce616779, 0xe6e60b69, 0xa079b7d9, 0xd7b9da25);
    LastStep(i + 5, m, 0xa079b7d9, 0x63f7dab7, 0xd7b9da25, 0xc45e4fdb, 0x3b6d0b79, 0x00f60a00, 0x860d21cc, 0xd8fdf6ad);
    LastStep(i + 6, m, 0x860d21cc, 0xa079b7d9, 0xd8fdf6ad, 0xd7b9da25, 0xc45e4fdb, 0x5795ef4f, 0x5738d5e1, 0x681e6df6);
    LastStep(i + 7, m, 0x5738d5e1, 0x860d21cc, 0x681e6df6, 0xd8fdf6ad, 0xd7b9da25, 0x822e0879, 0x42541b35, 0x21834873);
  }

  // The one block "abc" is padded to.
  predicate IsAbc(m: seq<Byte>) {
    |m| == 64 && m[0] == 0x61 && m[1] == 0x62 && m[2] == 0x63 && m[3] == 0x80 && m[63] == 24
    && forall k :: 4 <= k < 63 ==> m[k] == 0
  }

  lemma FirstWords(m: seq<Byte>, i: nat)
    requires i == 16 && IsAbc(m)
    ensures W(i - 16, m, 0x61626380) && W(i - 15, m, 0x00000000) && W(i - 14, m, 0x00000000)
    ensures W(i - 13, m, 0x00000000) && W(i - 12, m, 0x00000000) && W(i - 11, m, 0x00000000)
    ensures W(i - 10, m, 0x00000000) && W(i - 9, m, 0x00000000) && W(i - 8, m, 0x00000000)
    ensures W(i - 7, m, 0x00000000) && W(i - 6, m, 0x00000000) && W(i - 5, m, 0x00000000)
    ensures W(i - 4, m, 0x00000000) && W(i - 3, m, 0x00000000) && W(i - 2, m, 0x00000000)
    ensures W(i - 1, m, 0x00000018)
  {
    assert LeBits(0x80, 0x63, 0x62, 0x61) == 0x61626380 && LeBits(0, 0, 0, 0) == 0 && LeBits(24, 0, 0, 0) == 24;
    hide LeBits;
  }

  lemma FirstHalf(m: seq<Byte>, i: nat)
    requires IsAbc(m) && i == 40
    ensures At(i, m, 0x32de1cba, 0x4c986405, 0xf718e5cf, 0x03d447f6, 0xf72eec32)
  {
    assert At(0, m, 0x67452301, 0xefcdab89, 0x98badcfe, 0x10325476, 0xc3d2e1f0);
    hide At, W, IsAbc;
    FirstWords(m, 16);
    Words32(m, 16);
    Words48(m, 32);
    Steps8(m, 0); Steps16(m, 8); Steps24(m, 16); Steps32(m, 24); Steps40(m, 32);
  }

  lemma SecondHalf(m: seq<Byte>, i: nat)
    requires IsAbc(m) && i == 40 && At(i, m, 0x32de1cba, 0x4c986405, 0xf718e5cf, 0x03d447f6, 0xf72eec32)
    ensures At(i + 40, m, 0x42541b35, 0x5738d5e1, 0x21834873, 0x681e6df6, 0xd8fdf6ad)
  {
    hide At, W, IsAbc;
    FirstWords(m, 16);
    Words32(m, 16);
    Words48(m, 32);
    Words64(m, 48);
    Words80(m, 64);
    Steps48(m, 40); Steps56(m, 48); Steps64(m, 56); Steps72(m, 64); Steps80(m, 72);
  }

  lemma AllSteps(m: seq<Byte>)
    requires IsAbc(m)
    ensures RfcSteps(80, m, START) == Five(0x42541b35, 0x5738d5e1, 0x21834873, 0x681e6df6, 0xd8fdf6ad)
  {
    FirstHalf(m, 40);
    SecondHalf(m, 40);
    hide RfcSteps, IsAbc;
  }

  const ABC_DIGEST: seq<Byte> := [
    0xa9, 0x99, 0x3e, 0x36, 0x47, 0x06, 0x81, 0x6a, 0xba, 0x3e,
    0x25, 0x71, 0x78, 0x50, 0xc2, 0x6c, 0x9c, 0xd0, 0xd8, 0x9d]

  lemma Sums()
    ensures Add(Word(0x67452301), Word(0x42541b35)) == Word(0xa9993e36)
    ensures Add(Word(0xefcdab89), Word(0x5738d5e1)) == Word(0x4706816a)
    ensures Add(Word(0x98badcfe), Word(0x21834873)) == Word(0xba3e2571)
    ensures Add(Word(0x10325476), Word(0x681e6df6)) == Word(0x7850c26c)
    ensures Add(Word(0xc3d2e1f0), Word(0xd8fdf6ad)) == Word(0x9cd0d89d)
  {
  }

  lemma Transformed(m: seq<Byte>)
    requires IsAbc(m)
    ensures RfcTransform(Sha1.IV, m)
         == [Word(0xa9993e36), Word(0x4706816a), Word(0xba3e2571), Word(0x7850c26c), Word(0x9cd0d89d)]
  {
    AllSteps(m);
    Sums();
    hide RfcSteps, Add, IsAbc;
  }

  lemma Written()
    ensures BeBytes([Word(0xa9993e36), Word(0x4706816a), Word(0xba3e2571), Word(0x7850c26c), Word(0x9cd0d89d)])
         == ABC_DIGEST
  {
  }

  const ABC: seq<Byte> := [0x61, 0x62, 0x63]

  lemma AbcBlock()
    ensures IsAbc(Padded(ABC, Sha1.LengthBytes(3)))
  {
    assert Octet(24, 0) == 24;
    forall i | 1 <= i < 8 ensures Octet(24, i) == 0 {
      NoOctet(i - 1);
    }
  }

  // The digest of that section.
  lemma AbcDigest()
    ensures Sha1.Digest(ABC) == ABC_DIGEST
  {
    AbcBlock();
    var b := Padded(ABC, Sha1.LengthBytes(3));
    Transformed(b);
    FoldBlock(Sha1.Block, Sha1.IV, [], b);
    assert [] + b == b;
    Written();
  }
}
