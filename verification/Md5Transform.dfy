// MD5Transform (common/md5.c): the loop with rotating registers computes the steps that
// section 3.4 of RFC 1321 lists with fixed register names.
module Md5Transform {
  import opened Words

  // --- RFC 1321, section 3.4 ---

  datatype Regs = Regs(a: Word, b: Word, c: Word, d: Word)

  function F(x: Word, y: Word, z: Word): Word { Or(And(x, y), And(Not(x), z)) }
  function G(x: Word, y: Word, z: Word): Word { Or(And(x, z), And(y, Not(z))) }
  function H(x: Word, y: Word, z: Word): Word { Xor(Xor(x, y), z) }
  function I(x: Word, y: Word, z: Word): Word { Xor(y, Or(x, Not(z))) }

  // T[1..64] of the RFC, counted from 0.
  function Table(i: nat): bv32 {
    match i
    case 0 => 0xd76aa478 case 1 => 0xe8c7b756 case 2 => 0x242070db case 3 => 0xc1bdceee
    case 4 => 0xf57c0faf case 5 => 0x4787c62a case 6 => 0xa8304613 case 7 => 0xfd469501
    case 8 => 0x698098d8 case 9 => 0x8b44f7af case 10 => 0xffff5bb1 case 11 => 0x895cd7be
    case 12 => 0x6b901122 case 13 => 0xfd987193 case 14 => 0xa679438e case 15 => 0x49b40821
    case 16 => 0xf61e2562 case 17 => 0xc040b340 case 18 => 0x265e5a51 case 19 => 0xe9b6c7aa
    case 20 => 0xd62f105d case 21 => 0x02441453 case 22 => 0xd8a1e681 case 23 => 0xe7d3fbc8
    case 24 => 0x21e1cde6 case 25 => 0xc33707d6 case 26 => 0xf4d50d87 case 27 => 0x455a14ed
    case 28 => 0xa9e3e905 case 29 => 0xfcefa3f8 case 30 => 0x676f02d9 case 31 => 0x8d2a4c8a
    case 32 => 0xfffa3942 case 33 => 0x8771f681 case 34 => 0x6d9d6122 case 35 => 0xfde5380c
    case 36 => 0xa4beea44 case 37 => 0x4bdecfa9 case 38 => 0xf6bb4b60 case 39 => 0xbebfbc70
    case 40 => 0x289b7ec6 case 41 => 0xeaa127fa case 42 => 0xd4ef3085 case 43 => 0x04881d05
    case 44 => 0xd9d4d039 case 45 => 0xe6db99e5 case 46 => 0x1fa27cf8 case 47 => 0xc4ac5665
    case 48 => 0xf4292244 case 49 => 0x432aff97 case 50 => 0xab9423a7 case 51 => 0xfc93a039
    case 52 => 0x655b59c3 case 53 => 0x8f0ccc92 case 54 => 0xffeff47d case 55 => 0x85845dd1
    case 56 => 0x6fa87e4f case 57 => 0xfe2ce6e0 case 58 => 0xa3014314 case 59 => 0x4e0811a1
    case 60 => 0xf7537e82 case 61 => 0xbd3af235 case 62 => 0x2ad7d2bb case _ => 0xeb86d391
  }

  function T(i: nat): Word { Word(Table(i)) }

  // The k column of rounds 2, 3 and 4, in the order the operations are listed; round 1
  // takes the words in order.
  function K2(j: nat): (k: nat)
    ensures k < 16
  {
    match j
    case 0 => 1 case 1 => 6 case 2 => 11 case 3 => 0 case 4 => 5 case 5 => 10 case 6 => 15 case 7 => 4
    case 8 => 9 case 9 => 14 case 10 => 3 case 11 => 8 case 12 => 13 case 13 => 2 case 14 => 7 case _ => 12
  }

  function K3(j: nat): (k: nat)
    ensures k < 16
  {
    match j
    case 0 => 5 case 1 => 8 case 2 => 11 case 3 => 14 case 4 => 1 case 5 => 4 case 6 => 7 case 7 => 10
    case 8 => 13 case 9 => 0 case 10 => 3 case 11 => 6 case 12 => 9 case 13 => 12 case 14 => 15 case _ => 2
  }

  function K4(j: nat): (k: nat)
    ensures k < 16
  {
    match j
    case 0 => 0 case 1 => 7 case 2 => 14 case 3 => 5 case 4 => 12 case 5 => 3 case 6 => 10 case 7 => 1
    case 8 => 8 case 9 => 15 case 10 => 6 case 11 => 13 case 12 => 4 case 13 => 11 case 14 => 2 case _ => 9
  }

  function K(i: nat): (k: nat)
    requires i < 64
    ensures k < 16
  {
    if i < 16 then i else if i < 32 then K2(i - 16) else if i < 48 then K3(i - 32) else K4(i - 48)
  }

  // The s column.
  function S(i: nat): (s: bv32)
    ensures s <= 32
  {
    match (if i < 16 then 1 else if i < 32 then 2 else if i < 48 then 3 else 4, i % 4)
    case (1, 0) => 7 case (1, 1) => 12 case (1, 2) => 17 case (1, _) => 22
    case (2, 0) => 5 case (2, 1) => 9 case (2, 2) => 14 case (2, _) => 20
    case (3, 0) => 4 case (3, 1) => 11 case (3, 2) => 16 case (3, _) => 23
    case (_, 0) => 6 case (_, 1) => 10 case (_, 2) => 15 case (_, _) => 21
  }

  function RoundFn(i: nat, x: Word, y: Word, z: Word): Word {
    if i < 16 then F(x, y, z) else if i < 32 then G(x, y, z) else if i < 48 then H(x, y, z) else I(x, y, z)
  }

  // [w x y z  k s i]:  w = x + ((w + f(x, y, z) + X[k] + T[i]) <<< s), summed in the driver's order
  function Mix(w: Word, x: Word, f: Word, data: Word, t: Word, s: bv32): Word
    requires s <= 32
  {
    Add(Rotl(Add(w, Add(Add(f, data), t)), s), x)
  }

  function Op(i: nat, m: seq<Word>, w: Word, x: Word, y: Word, z: Word): Word
    requires i < 64 && |m| == 16
  {
    Mix(w, x, RoundFn(i, x, y, z), m[K(i)], T(i), S(i))
  }

  // The register names cycle through ABCD, DABC, CDAB, BCDA.
  function RfcStep(i: nat, m: seq<Word>, r: Regs): Regs
    requires i < 64 && |m| == 16
  {
    if i % 4 == 0 then r.(a := Op(i, m, r.a, r.b, r.c, r.d))
    else if i % 4 == 1 then r.(d := Op(i, m, r.d, r.a, r.b, r.c))
    else if i % 4 == 2 then r.(c := Op(i, m, r.c, r.d, r.a, r.b))
    else r.(b := Op(i, m, r.b, r.c, r.d, r.a))
  }

  function RfcSteps(n: nat, m: seq<Word>, r: Regs): Regs
    requires n <= 64 && |m| == 16
  {
    if n == 0 then r else RfcStep(n - 1, m, RfcSteps(n - 1, m, r))
  }

  function RfcTransform(h: seq<Word>, m: seq<Word>): (r: seq<Word>)
    requires |h| == 4 && |m| == 16
    ensures |r| == 4
  {
    var q := RfcSteps(64, m, Regs(h[0], h[1], h[2], h[3]));
    [Add(h[0], q.a), Add(h[1], q.b), Add(h[2], q.c), Add(h[3], q.d)]
  }

  // --- The driver's transform ---

  function Pick(w: Word, x: Word, y: Word, z: Word, j: nat): Word {
    if j == 0 then w else if j == 1 then x else if j == 2 then y else z
  }

  // Which named register the driver's Reg[j] is before step i.
  function Named(i: nat, r: Regs, j: nat): Word {
    if i % 4 == 0 then Pick(r.a, r.b, r.c, r.d, j)
    else if i % 4 == 1 then Pick(r.d, r.a, r.b, r.c, j)
    else if i % 4 == 2 then Pick(r.c, r.d, r.a, r.b, j)
    else Pick(r.b, r.c, r.d, r.a, j)
  }

  predicate Rotated(i: nat, reg: seq<Word>, r: Regs) {
    && |reg| == 4
    && reg[0] == Named(i, r, 0) && reg[1] == Named(i, r, 1) && reg[2] == Named(i, r, 2) && reg[3] == Named(i, r, 3)
  }

  // LShiftVal of the code.
  function LShiftVal(j: nat): (s: bv32)
    ensures s <= 32
  {
    match j
    case 0 => 7 case 1 => 12 case 2 => 17 case 3 => 22 case 4 => 5 case 5 => 9 case 6 => 14 case 7 => 20
    case 8 => 4 case 9 => 11 case 10 => 16 case 11 => 23 case 12 => 6 case 13 => 10 case 14 => 15 case _ => 21
  }

  // The code's index arithmetic gives the columns of the RFC.
  lemma ColumnsMatch(i: nat)
    requires i < 64
    ensures i < 16 ==> K(i) == i && S(i) == LShiftVal(i % 4)
    ensures 16 <= i < 32 ==> K(i) == (5 * (i % 16) + 1) % 16 && S(i) == LShiftVal(4 + i % 4)
    ensures 32 <= i < 48 ==> K(i) == (3 * (i % 16) + 5) % 16 && S(i) == LShiftVal(8 + i % 4)
    ensures 48 <= i ==> K(i) == (7 * (i % 16)) % 16 && S(i) == LShiftVal(12 + i % 4)
  {
    var j := i % 16;
    KColumns(j);
    SColumns(i);
    if 16 <= i < 32 {
      assert i - 16 == j;
    } else if 32 <= i < 48 {
      assert i - 32 == j;
    } else if 48 <= i {
      assert i - 48 == j;
    }
  }

  lemma KColumns(j: nat)
    requires j < 16
    ensures K2(j) == (5 * j + 1) % 16 && K3(j) == (3 * j + 5) % 16 && K4(j) == (7 * j) % 16
  {
  }

  lemma SColumns(i: nat)
    requires i < 64
    ensures S(i) == LShiftVal((if i < 16 then 0 else if i < 32 then 4 else if i < 48 then 8 else 12) + i % 4)
  {
  }

  // MD5Step and the one-word right shift of the registers.
  method StepAndShift(reg: array<Word>, f: Word, data: Word, t: Word, s: bv32)
    requires reg.Length == 4 && s <= 32
    modifies reg
    ensures reg[0] == old(reg[3]) && reg[2] == old(reg[1]) && reg[3] == old(reg[2])
    ensures reg[1] == Mix(old(reg[0]), old(reg[1]), f, data, t, s)
  {
    hide Rotl, Add;
    reg[0] := Add(reg[0], Add(Add(f, data), t));
    reg[0] := Rotl(reg[0], s);
    reg[0] := Add(reg[0], reg[1]);
    var temp := reg[3];
    reg[3] := reg[2];
    reg[2] := reg[1];
    reg[1] := reg[0];
    reg[0] := temp;
  }

  lemma StepRotates(i: nat, m: seq<Word>, reg: seq<Word>, next: seq<Word>, r: Regs)
    requires i < 64 && |m| == 16 && Rotated(i, reg, r) && |next| == 4
    requires next[0] == reg[3] && next[1] == Op(i, m, reg[0], reg[1], reg[2], reg[3])
    requires next[2] == reg[1] && next[3] == reg[2]
    ensures Rotated(i + 1, next, RfcStep(i, m, r))
  {
    hide Op;
    if i % 4 == 0 {
      assert (i + 1) % 4 == 1;
    } else if i % 4 == 1 {
      assert (i + 1) % 4 == 2;
    } else if i % 4 == 2 {
      assert (i + 1) % 4 == 3;
    } else {
      assert (i + 1) % 4 == 0;
    }
  }

  // The body of the four loops.
  method OneStep(reg: array<Word>, mes: seq<Word>, i: nat)
    requires reg.Length == 4 && |mes| == 16 && i < 64
    modifies reg
    ensures reg[0] == old(reg[3]) && reg[2] == old(reg[1]) && reg[3] == old(reg[2])
    ensures reg[1] == Op(i, mes, old(reg[0]), old(reg[1]), old(reg[2]), old(reg[3]))
  {
    hide Mix, F, G, H, I, T, K, S, LShiftVal;
    ColumnsMatch(i);
    if i < 16 {
      StepAndShift(reg, F(reg[1], reg[2], reg[3]), mes[i], T(i), LShiftVal(i % 4));
    } else if i < 32 {
      StepAndShift(reg, G(reg[1], reg[2], reg[3]), mes[(5 * (i % 16) + 1) % 16], T(i), LShiftVal(4 + i % 4));
    } else if i < 48 {
      StepAndShift(reg, H(reg[1], reg[2], reg[3]), mes[(3 * (i % 16) + 5) % 16], T(i), LShiftVal(8 + i % 4));
    } else {
      StepAndShift(reg, I(reg[1], reg[2], reg[3]), mes[(7 * (i % 16)) % 16], T(i), LShiftVal(12 + i % 4));
    }
  }

  method Transform(buf: array<Word>, mes: seq<Word>)
    requires buf.Length == 4 && |mes| == 16
    modifies buf
    ensures buf[..] == RfcTransform(old(buf[..]), mes)
  {
    hide Op, RfcStep;
    var reg := new Word[4](i requires 0 <= i < 4 reads buf => buf[i]);
    ghost var r := Regs(buf[0], buf[1], buf[2], buf[3]);
    ghost var h := buf[..];
    var i := 0;
    while i < 64
      invariant 0 <= i <= 64 && buf[..] == h
      invariant Rotated(i, reg[..], RfcSteps(i, mes, r))
    {
      ghost var q := reg[..];
      OneStep(reg, mes, i);
      StepRotates(i, mes, q, reg[..], RfcSteps(i, mes, r));
      i := i + 1;
    }
    FinalSums(h, mes, reg[..]);
    AddInto(buf, reg);
  }

  method AddInto(buf: array<Word>, reg: array<Word>)
    requires buf.Length == reg.Length == 4 && buf != reg
    modifies buf
    ensures var h, q := old(buf[..]), reg[..];
            buf[..] == [Add(h[0], q[0]), Add(h[1], q[1]), Add(h[2], q[2]), Add(h[3], q[3])]
  {
    hide Add;
    ghost var h, q := buf[..], reg[..];
    var i := 0;
    while i < 4
      invariant 0 <= i <= 4 && reg[..] == q
      invariant forall j :: 0 <= j < i ==> buf[j] == Add(h[j], q[j])
      invariant forall j :: i <= j < 4 ==> buf[j] == h[j]
    {
      buf[i] := Add(buf[i], reg[i]);
      i := i + 1;
    }
  }

  lemma FinalSums(h: seq<Word>, mes: seq<Word>, reg: seq<Word>)
    requires |h| == 4 && |mes| == 16 && Rotated(64, reg, RfcSteps(64, mes, Regs(h[0], h[1], h[2], h[3])))
    ensures RfcTransform(h, mes) == [Add(h[0], reg[0]), Add(h[1], reg[1]), Add(h[2], reg[2]), Add(h[3], reg[3])]
  {
    hide RfcSteps;
  }
}
