// The MD5 of "abc", step by step: one of the values section A.5 of RFC 1321 lists.
module Md5Answer {
  import opened Words
  import opened HashSpec
  import opened Md5Transform
  import Md5

  // The four registers before step i, as the operation of step i takes them.
  function Taken(i: nat, w: Word, x: Word, y: Word, z: Word): Regs {
    if i % 4 == 0 then Regs(w, x, y, z)
    else if i % 4 == 1 then Regs(x, y, z, w)
    else if i % 4 == 2 then Regs(y, z, w, x)
    else Regs(z, w, x, y)
  }

  lemma Next(i: nat, m: seq<Word>, h: Regs, w: Word, x: Word, y: Word, z: Word)
    requires i < 64 && |m| == 16 && RfcSteps(i, m, h) == Taken(i, w, x, y, z)
    ensures RfcSteps(i + 1, m, h) == Taken(i + 1, z, Op(i, m, w, x, y, z), x, y)
  {
    hide Op;
  }

  function Four(i: nat, w: bv32, x: bv32, y: bv32, z: bv32): Regs { Taken(i, Word(w), Word(x), Word(y), Word(z)) }

  const START: Regs := Four(0, 0x67452301, 0xefcdab89, 0x98badcfe, 0x10325476)

  // These are the registers before step i.
  predicate At(i: nat, m: seq<Word>, w: bv32, x: bv32, y: bv32, z: bv32) {
    i <= 64 && |m| == 16 && RfcSteps(i, m, START) == Four(i, w, x, y, z)
  }

  lemma StepF(i: nat, m: seq<Word>, w: bv32, x: bv32, y: bv32, z: bv32, d: bv32, t: bv32, s: bv32, v: bv32)
    requires 0 <= i < 16 && At(i, m, w, x, y, z)
    requires m[K(i)] == Word(d) && T(i) == Word(t) && S(i) == s && s <= 32
    requires Mix(Word(w), Word(x), F(Word(x), Word(y), Word(z)), Word(d), Word(t), s) == Word(v)
    ensures At(i + 1, m, z, v, x, y)
  {
    hide Mix, F, G, H, I, T, K, S, Taken, RfcSteps;
    Next(i, m, START, Word(w), Word(x), Word(y), Word(z));
  }

  lemma StepG(i: nat, m: seq<Word>, w: bv32, x: bv32, y: bv32, z: bv32, d: bv32, t: bv32, s: bv32, v: bv32)
    requires 16 <= i < 32 && At(i, m, w, x, y, z)
    requires m[K(i)] == Word(d) && T(i) == Word(t) && S(i) == s && s <= 32
    requires Mix(Word(w), Word(x), G(Word(x), Word(y), Word(z)), Word(d), Word(t), s) == Word(v)
    ensures At(i + 1, m, z, v, x, y)
  {
    hide Mix, F, G, H, I, T, K, S, Taken, RfcSteps;
    Next(i, m, START, Word(w), Word(x), Word(y), Word(z));
  }

  lemma StepH(i: nat, m: seq<Word>, w: bv32, x: bv32, y: bv32, z: bv32, d: bv32, t: bv32, s: bv32, v: bv32)
    requires 32 <= i < 48 && At(i, m, w, x, y, z)
    requires m[K(i)] == Word(d) && T(i) == Word(t) && S(i) == s && s <= 32
    requires Mix(Word(w), Word(x), H(Word(x), Word(y), Word(z)), Word(d), Word(t), s) == Word(v)
    ensures At(i + 1, m, z, v, x, y)
  {
    hide Mix, F, G, H, I, T, K, S, Taken, RfcSteps;
    Next(i, m, START, Word(w), Word(x), Word(y), Word(z));
  }

  lemma StepI(i: nat, m: seq<Word>, w: bv32, x: bv32, y: bv32, z: bv32, d: bv32, t: bv32, s: bv32, v: bv32)
    requires 48 <= i < 64 && At(i, m, w, x, y, z)
    requires m[K(i)] == Word(d) && T(i) == Word(t) && S(i) == s && s <= 32
    requires Mix(Word(w), Word(x), I(Word(x), Word(y), Word(z)), Word(d), Word(t), s) == Word(v)
    ensures At(i + 1, m, z, v, x, y)
  {
    hide Mix, F, G, H, I, T, K, S, Taken, RfcSteps;
    Next(i, m, START, Word(w), Word(x), Word(y), Word(z));
  }

  // The words of the one block "abc" is padded to.
  predicate IsAbc(m: seq<Word>) {
    |m| == 16 && m[0] == Word(0x80636261) && m[14] == Word(24)
    && forall k :: 1 <= k < 16 && k != 14 ==> m[k] == Word(0)
  }

  lemma Steps4(m: seq<Word>, i: nat)
    requires i == 0 && IsAbc(m) && At(i, m, 0x67452301, 0xefcdab89, 0x98badcfe, 0x10325476)
    ensures At(i + 4, m, 0xd6d117b4, 0x7ad956f2, 0x2f6fbd72, 0x344a8432)
  {
    hide At;
    StepF(i, m, 0x67452301, 0xefcdab89, 0x98badcfe, 0x10325476, 0x80636261, 0xd76aa478, 7, 0xd6d117b4);
    StepF(i + 1, m, 0x10325476, 0xd6d117b4, 0xefcdab89, 0x98badcfe, 0x00000000, 0xe8c7b756, 12, 0x344a8432);
    StepF(i + 2, m, 0x98badcfe, 0x344a8432, 0xd6d117b4, 0xefcdab89, 0x00000000, 0x242070db, 17, 0x2f6fbd72);
    StepF(i + 3, m, 0xefcdab89, 0x2f6fbd72, 0x344a8432, 0xd6d117b4, 0x00000000, 0xc1bdceee, 22, 0x7ad956f2);
  }

  lemma Steps8(m: seq<Word>, i: nat)
    requires i == 4 && IsAbc(m) && At(i, m, 0xd6d117b4, 0x7ad956f2, 0x2f6fbd72, 0x344a8432)
    ensures At(i + 4, m, 0xc73741ef, 0x928d99f6, 0x207dc67b, 0x8bac3051)
  {
    hide At;
    StepF(i, m, 0xd6d117b4, 0x7ad956f2, 0x2f6fbd72, 0x344a8432, 0x00000000, 0xf57c0faf, 7, 0xc73741ef);
    StepF(i + 1, m, 0x344a8432, 0xc73741ef, 0x7ad956f2, 0x2f6fbd72, 0x00000000, 0x4787c62a, 12, 0x8bac3051);
    StepF(i + 2, m, 0x2f6fbd72, 0x8bac3051, 0xc73741ef, 0x7ad956f2, 0x00000000, 0xa8304613, 17, 0x207dc67b);
    StepF(i + 3, m, 0x7ad956f2, 0x207dc67b, 0x8bac3051, 0xc73741ef, 0x00000000, 0xfd469501, 22, 0x928d99f6);
  }

  lemma Steps12(m: seq<Word>, i: nat)
    requires i == 8 && IsAbc(m) && At(i, m, 0xc73741ef, 0x928d99f6, 0x207dc67b, 0x8bac3051)
    ensures At(i + 4, m, 0x854b3712, 0x5ed49596, 0x3020401c, 0x74e2f284)
  {
    hide At;
    StepF(i, m, 0xc73741ef, 0x928d99f6, 0x207dc67b, 0x8bac3051, 0x00000000, 0x698098d8, 7, 0x854b3712);
    StepF(i + 1, m, 0x8bac3051, 0x854b3712, 0x928d99f6, 0x207dc67b, 0x00000000, 0x8b44f7af, 12, 0x74e2f284);
    StepF(i + 2, m, 0x207dc67b, 0x74e2f284, 0x854b3712, 0x928d99f6, 0x00000000, 0xffff5bb1, 17, 0x3020401c);
    StepF(i + 3, m, 0x928d99f6, 0x3020401c, 0x74e2f284, 0x854b3712, 0x00000000, 0x895cd7be, 22, 0x5ed49596);
  }

  lemma Steps16(m: seq<Word>, i: nat)
    requires i == 12 && IsAbc(m) && At(i, m, 0x854b3712, 0x5ed49596, 0x3020401c, 0x74e2f284)
    ensures At(i + 4, m, 0xdda9b9a6, 0x72aff2e0, 0xe396856b, 0xa1051895)
  {
    hide At;
    StepF(i, m, 0x854b3712, 0x5ed49596, 0x3020401c, 0x74e2f284, 0x00000000, 0x6b901122, 7, 0xdda9b9a6);
    StepF(i + 1, m, 0x74e2f284, 0xdda9b9a6, 0x5ed49596, 0x3020401c, 0x00000000, 0xfd987193, 12, 0xa1051895);
    StepF(i + 2, m, 0x3020401c, 0xa1051895, 0xdda9b9a6, 0x5ed49596, 0x00000018, 0xa679438e, 17, 0xe396856b);
    StepF(i + 3, m, 0x5ed49596, 0xe396856b, 0xa1051895, 0xdda9b9a6, 0x00000000, 0x49b40821, 22, 0x72aff2e0);
  }

  lemma Steps20(m: seq<Word>, i: nat)
    requires i == 16 && IsAbc(m) && At(i, m, 0xdda9b9a6, 0x72aff2e0, 0xe396856b, 0xa1051895)
    ensures At(i + 4, m, 0x3e9e9126, 0xb5b204e4, 0xe25e1652, 0x4a1d804e)
  {
    hide At;
    StepG(i, m, 0xdda9b9a6, 0x72aff2e0, 0xe396856b, 0xa1051895, 0x00000000, 0xf61e2562, 5, 0x3e9e9126);
    StepG(i + 1, m, 0xa1051895, 0x3e9e9126, 0x72aff2e0, 0xe396856b, 0x00000000, 0xc040b340, 9, 0x4a1d804e);
    StepG(i + 2, m, 0xe396856b, 0x4a1d804e, 0x3e9e9126, 0x72aff2e0, 0x00000000, 0x265e5a51, 14, 0xe25e1652);
    StepG(i + 3, m, 0x72aff2e0, 0xe25e1652, 0x4a1d804e, 0x3e9e9126, 0x80636261, 0xe9b6c7aa, 20, 0xb5b204e4);
  }

  lemma Steps24(m: seq<Word>, i: nat)
    requires i == 20 && IsAbc(m) && At(i, m, 0x3e9e9126, 0xb5b204e4, 0xe25e1652, 0x4a1d804e)
    ensures At(i + 4, m, 0x59a8ffda, 0x47092c07, 0xabfc7920, 0x6d002f1e)
  {
    hide At;
    StepG(i, m, 0x3e9e9126, 0xb5b204e4, 0xe25e1652, 0x4a1d804e, 0x00000000, 0xd62f105d, 5, 0x59a8ffda);
    StepG(i + 1, m, 0x4a1d804e, 0x59a8ffda, 0xb5b204e4, 0xe25e1652, 0x00000000, 0x02441453, 9, 0x6d002f1e);
    StepG(i + 2, m, 0xe25e1652, 0x6d002f1e, 0x59a8ffda, 0xb5b204e4, 0x00000000, 0xd8a1e681, 14, 0xabfc7920);
    StepG(i + 3, m, 0xb5b204e4, 0xabfc7920, 0x6d002f1e, 0x59a8ffda, 0x00000000, 0xe7d3fbc8, 20, 0x47092c07);
  }

  lemma Steps28(m: seq<Word>, i: nat)
    requires i == 24 && IsAbc(m) && At(i, m, 0x59a8ffda, 0x47092c07, 0xabfc7920, 0x6d002f1e)
    ensures At(i + 4, m, 0xb7f268cf, 0x786acb8f, 0xfe1623b1, 0x09388eff)
  {
    hide At;
    StepG(i, m, 0x59a8ffda, 0x47092c07, 0xabfc7920, 0x6d002f1e, 0x00000000, 0x21e1cde6, 5, 0xb7f268cf);
    StepG(i + 1, m, 0x6d002f1e, 0xb7f268cf, 0x47092c07, 0xabfc7920, 0x00000018, 0xc33707d6, 9, 0x09388eff);
    StepG(i + 2, m, 0xabfc7920, 0x09388eff, 0xb7f268cf, 0x47092c07, 0x00000000, 0xf4d50d87, 14, 0xfe1623b1);
    StepG(i + 3, m, 0x47092c07, 0xfe1623b1, 0x09388eff, 0xb7f268cf, 0x00000000, 0x455a14ed, 20, 0x786acb8f);
  }

  lemma Steps32(m: seq<Word>, i: nat)
    requires i == 28 && IsAbc(m) && At(i, m, 0xb7f268cf, 0x786acb8f, 0xfe1623b1, 0x09388eff)
    ensures At(i + 4, m, 0x790a77fb, 0x726342d3, 0xa62884aa, 0x9f47e4f8)
  {
    hide At;
    StepG(i, m, 0xb7f268cf, 0x786acb8f, 0xfe1623b1, 0x09388eff, 0x00000000, 0xa9e3e905, 5, 0x790a77fb);
    StepG(i + 1, m, 0x09388eff, 0x790a77fb, 0x786acb8f, 0xfe1623b1, 0x00000000, 0xfcefa3f8, 9, 0x9f47e4f8);
    StepG(i + 2, m, 0xfe1623b1, 0x9f47e4f8, 0x790a77fb, 0x786acb8f, 0x00000000, 0x676f02d9, 14, 0xa62884aa);
    StepG(i + 3, m, 0x786acb8f, 0xa62884aa, 0x9f47e4f8, 0x790a77fb, 0x00000000, 0x8d2a4c8a, 20, 0x726342d3);
  }

  lemma Steps36(m: seq<Word>, i: nat)
    requires i == 32 && IsAbc(m) && At(i, m, 0x790a77fb, 0x726342d3, 0xa62884aa, 0x9f47e4f8)
    ensures At(i + 4, m, 0xb3707ebf, 0x3b0875c7, 0x8d212ff5, 0x60127b2e)
  {
    hide At;
    StepH(i, m, 0x790a77fb, 0x726342d3, 0xa62884aa, 0x9f47e4f8, 0x00000000, 0xfffa3942, 4, 0xb3707ebf);
    StepH(i + 1, m, 0x9f47e4f8, 0xb3707ebf, 0x726342d3, 0xa62884aa, 0x00000000, 0x8771f681, 11, 0x60127b2e);
    StepH(i + 2, m, 0xa62884aa, 0x60127b2e, 0xb3707ebf, 0x726342d3, 0x00000000, 0x6d9d6122, 16, 0x8d212ff5);
    StepH(i + 3, m, 0x726342d3, 0x8d212ff5, 0x60127b2e, 0xb3707ebf, 0x00000018, 0xfde5380c, 23, 0x3b0875c7);
  }

  lemma Steps40(m: seq<Word>, i: nat)
    requires i == 36 && IsAbc(m) && At(i, m, 0xb3707ebf, 0x3b0875c7, 0x8d212ff5, 0x60127b2e)
    ensures At(i + 4, m, 0x21b117b9, 0x5a2f5ea5, 0x3575227e, 0x6e7429d5)
  {
    hide At;
    StepH(i, m, 0xb3707ebf, 0x3b0875c7, 0x8d212ff5, 0x60127b2e, 0x00000000, 0xa4beea44, 4, 0x21b117b9);
    StepH(i + 1, m, 0x60127b2e, 0x21b117b9, 0x3b0875c7, 0x8d212ff5, 0x00000000, 0x4bdecfa9, 11, 0x6e7429d5);
    StepH(i + 2, m, 0x8d212ff5, 0x6e7429d5, 0x21b117b9, 0x3b0875c7, 0x00000000, 0xf6bb4b60, 16, 0x3575227e);
    StepH(i + 3, m, 0x3b0875c7, 0x3575227e, 0x6e7429d5, 0x21b117b9, 0x00000000, 0xbebfbc70, 23, 0x5a2f5ea5);
  }

  lemma Steps44(m: seq<Word>, i: nat)
    requires i == 40 && IsAbc(m) && At(i, m, 0x21b117b9, 0x5a2f5ea5, 0x3575227e, 0x6e7429d5)
    ensures At(i + 4, m, 0x11de1779, 0x4c6124f4, 0x31c465ca, 0xfadcaa38)
  {
    hide At;
    StepH(i, m, 0x21b117b9, 0x5a2f5ea5, 0x3575227e, 0x6e7429d5, 0x00000000, 0x289b7ec6, 4, 0x11de1779);
    StepH(i + 1, m, 0x6e7429d5, 0x11de1779, 0x5a2f5ea5, 0x3575227e, 0x80636261, 0xeaa127fa, 11, 0xfadcaa38);
    StepH(i + 2, m, 0x3575227e, 0xfadcaa38, 0x11de1779, 0x5a2f5ea5, 0x00000000, 0xd4ef3085, 16, 0x31c465ca);
    StepH(i + 3, m, 0x5a2f5ea5, 0x31c465ca, 0xfadcaa38, 0x11de1779, 0x00000000, 0x04881d05, 23, 0x4c6124f4);
  }

  lemma Steps48(m: seq<Word>, i: nat)
    requires i == 44 && IsAbc(m) && At(i, m, 0x11de1779, 0x4c6124f4, 0x31c465ca, 0xfadcaa38)
    ensures At(i + 4, m, 0x7f2e507b, 0x7beb9700, 0x8fae6399, 0x99d9679d)
  {
    hide At;
    StepH(i, m, 0x11de1779, 0x4c6124f4, 0x31c465ca, 0xfadcaa38, 0x00000000, 0xd9d4d039, 4, 0x7f2e507b);
    StepH(i + 1, m, 0xfadcaa38, 0x7f2e507b, 0x4c6124f4, 0x31c465ca, 0x00000000, 0xe6db99e5, 11, 0x99d9679d);
    StepH(i + 2, m, 0x31c465ca, 0x99d9679d, 0x7f2e507b, 0x4c6124f4, 0x00000000, 0x1fa27cf8, 16, 0x8fae6399);
    StepH(i + 3, m, 0x4c6124f4, 0x8fae6399, 0x99d9679d, 0x7f2e507b, 0x00000000, 0xc4ac5665, 23, 0x7beb9700);
  }

  lemma Steps52(m: seq<Word>, i: nat)
    requires i == 48 && IsAbc(m) && At(i, m, 0x7f2e507b, 0x7beb9700, 0x8fae6399, 0x99d9679d)
    ensures At(i + 4, m, 0x7b201df8, 0x8bf025c4, 0xb298cefd, 0xf4e8e96e)
  {
    hide At;
    StepI(i, m, 0x7f2e507b, 0x7beb9700, 0x8fae6399, 0x99d9679d, 0x80636261, 0xf4292244, 6, 0x7b201df8);
    StepI(i + 1, m, 0x99d9679d, 0x7b201df8, 0x7beb9700, 0x8fae6399, 0x00000000, 0x432aff97, 10, 0xf4e8e96e);
    StepI(i + 2, m, 0x8fae6399, 0xf4e8e96e, 0x7b201df8, 0x7beb9700, 0x00000018, 0xab9423a7, 15, 0xb298cefd);
    StepI(i + 3, m, 0x7beb9700, 0xb298cefd, 0xf4e8e96e, 0x7b201df8, 0x00000000, 0xfc93a039, 21, 0x8bf025c4);
  }

  lemma Steps56(m: seq<Word>, i: nat)
    requires i == 52 && IsAbc(m) && At(i, m, 0x7b201df8, 0x8bf025c4, 0xb298cefd, 0xf4e8e96e)
    ensures At(i + 4, m, 0x06cc5e8a, 0x3bfa2c27, 0x7d632dd0, 0x5b0d97aa)
  {
    hide At;
    StepI(i, m, 0x7b201df8, 0x8bf025c4, 0xb298cefd, 0xf4e8e96e, 0x00000000, 0x655b59c3, 6, 0x06cc5e8a);
    StepI(i + 1, m, 0xf4e8e96e, 0x06cc5e8a, 0x8bf025c4, 0xb298cefd, 0x00000000, 0x8f0ccc92, 10, 0x5b0d97aa);
    StepI(i + 2, m, 0xb298cefd, 0x5b0d97aa, 0x06cc5e8a, 0x8bf025c4, 0x00000000, 0xffeff47d, 15, 0x7d632dd0);
    StepI(i + 3, m, 0x8bf025c4, 0x7d632dd0, 0x5b0d97aa, 0x06cc5e8a, 0x00000000, 0x85845dd1, 21, 0x3bfa2c27);
  }

  lemma Steps60(m: seq<Word>, i: nat)
    requires i == 56 && IsAbc(m) && At(i, m, 0x06cc5e8a, 0x3bfa2c27, 0x7d632dd0, 0x5b0d97aa)
    ensures At(i + 4, m, 0x7f81cc35, 0x7327d604, 0x4f9dbe3f, 0x094454ab)
  {
    hide At;
    StepI(i, m, 0x06cc5e8a, 0x3bfa2c27, 0x7d632dd0, 0x5b0d97aa, 0x00000000, 0x6fa87e4f, 6, 0x7f81cc35);
    StepI(i + 1, m, 0x5b0d97aa, 0x7f81cc35, 0x3bfa2c27, 0x7d632dd0, 0x00000000, 0xfe2ce6e0, 10, 0x094454ab);
    StepI(i + 2, m, 0x7d632dd0, 0x094454ab, 0x7f81cc35, 0x3bfa2c27, 0x00000000, 0xa3014314, 15, 0x4f9dbe3f);
    StepI(i + 3, m, 0x3bfa2c27, 0x4f9dbe3f, 0x094454ab, 0x7f81cc35, 0x00000000, 0x4e0811a1, 21, 0x7327d604);
  }

  lemma Steps64(m: seq<Word>, i: nat)
    requires i == 60 && IsAbc(m) && At(i, m, 0x7f81cc35, 0x7327d604, 0x4f9dbe3f, 0x094454ab)
    ensures At(i + 4, m, 0x310ade8f, 0xc08226b3, 0xe484b9d8, 0x624d8cb2)
  {
    hide At;
    StepI(i, m, 0x7f81cc35, 0x7327d604, 0x4f9dbe3f, 0x094454ab, 0x00000000, 0xf7537e82, 6, 0x310ade8f);
    StepI(i + 1, m, 0x094454ab, 0x310ade8f, 0x7327d604, 0x4f9dbe3f, 0x00000000, 0xbd3af235, 10, 0x624d8cb2);
    StepI(i + 2, m, 0x4f9dbe3f, 0x624d8cb2, 0x310ade8f, 0x7327d604, 0x00000000, 0x2ad7d2bb, 15, 0xe484b9d8);
    StepI(i + 3, m, 0x7327d604, 0xe484b9d8, 0x624d8cb2, 0x310ade8f, 0x00000000, 0xeb86d391, 21, 0xc08226b3);
  }

  lemma AllSteps(m: seq<Word>)
    requires IsAbc(m)
    ensures At(64, m, 0x310ade8f, 0xc08226b3, 0xe484b9d8, 0x624d8cb2)
  {
    assert At(0, m, 0x67452301, 0xefcdab89, 0x98badcfe, 0x10325476);
    hide At, IsAbc;
    Steps4(m, 0); Steps8(m, 4); Steps12(m, 8); Steps16(m, 12);
    Steps20(m, 16); Steps24(m, 20); Steps28(m, 24); Steps32(m, 28);
    Steps36(m, 32); Steps40(m, 36); Steps44(m, 40); Steps48(m, 44);
    Steps52(m, 48); Steps56(m, 52); Steps60(m, 56); Steps64(m, 60);
  }

  // --- From the bytes and to the digest ---

  const ABC: seq<Byte> := [0x61, 0x62, 0x63]

  lemma AbcBytes()
    ensures var b := Padded(ABC, Md5.LengthBytes(3));
            |b| == 64 && b[0] == 0x61 && b[1] == 0x62 && b[2] == 0x63 && b[3] == 0x80 && b[56] == 24
            && forall k :: 4 <= k < 64 && k != 56 ==> b[k] == 0
  {
    assert Octet(24, 0) == 24;
    forall i | 1 <= i < 8 ensures Octet(24, i) == 0 {
      NoOctet(i - 1);
    }
  }

  lemma AbcWords()
    ensures IsAbc(Md5.WordsOf(Padded(ABC, Md5.LengthBytes(3))))
  {
    AbcBytes();
    assert LeBits(0x61, 0x62, 0x63, 0x80) == 0x80636261 && LeBits(0, 0, 0, 0) == 0 && LeBits(24, 0, 0, 0) == 24;
    hide LeBits, Padded;
  }

  lemma Transformed(m: seq<Word>)
    requires IsAbc(m)
    ensures RfcTransform(Md5.IV, m) == [Word(0x98500190), Word(0xb04fd23c), Word(0x7d3f96d6), Word(0x727fe128)]
  {
    AllSteps(m);
    Sums();
    hide RfcSteps, Add;
    assert START == Regs(Md5.IV[0], Md5.IV[1], Md5.IV[2], Md5.IV[3]);
  }

  lemma Sums()
    ensures Add(Word(0x67452301), Word(0x310ade8f)) == Word(0x98500190)
    ensures Add(Word(0xefcdab89), Word(0xc08226b3)) == Word(0xb04fd23c)
    ensures Add(Word(0x98badcfe), Word(0xe484b9d8)) == Word(0x7d3f96d6)
    ensures Add(Word(0x10325476), Word(0x624d8cb2)) == Word(0x727fe128)
  {
  }

  lemma Written()
    ensures LeBytes([Word(0x98500190), Word(0xb04fd23c), Word(0x7d3f96d6), Word(0x727fe128)]) == ABC_DIGEST
  {
  }

  const ABC_DIGEST: seq<Byte> := [
    0x90, 0x01, 0x50, 0x98, 0x3c, 0xd2, 0x4f, 0xb0, 0xd6, 0x96, 0x3f, 0x7d, 0x28, 0xe1, 0x7f, 0x72]

  // The digest of that section.
  lemma AbcDigest()
    ensures Md5.Digest(ABC) == ABC_DIGEST
  {
    AbcWords();
    var b := Padded(ABC, Md5.LengthBytes(3));
    Transformed(Md5.WordsOf(b));
    FoldBlock(Md5.Block, Md5.IV, [], b);
    assert [] + b == b;
    Written();
  }
}
