// SHATransform (common/md5.c): the loop with rotating registers computes the step list of
// section 6.1 of RFC 3174.
module Sha1Transform {
  import opened Words

  // --- RFC 3174, sections 5 and 6.1 ---

  datatype Regs = Regs(a: Word, b: Word, c: Word, d: Word, e: Word)

  function Ch(b: Word, c: Word, d: Word): Word { Or(And(b, c), And(Not(b), d)) }
  function Parity(b: Word, c: Word, d: Word): Word { Xor(Xor(b, c), d) }
  function Maj(b: Word, c: Word, d: Word): Word { Or(Or(And(b, c), And(b, d)), And(c, d)) }

  function Fn(t: nat, b: Word, c: Word, d: Word): Word {
    if t < 20 then Ch(b, c, d) else if t < 40 then Parity(b, c, d) else if t < 60 then Maj(b, c, d) else Parity(b, c, d)
  }

  function Kt(t: nat): Word {
    Word(if t < 20 then 0x5a827999 else if t < 40 then 0x6ed9eba1 else if t < 60 then 0x8f1bbcdc else 0xca62c1d6)
  }

  // W(t) = S^1(W(t-3) XOR W(t-8) XOR W(t-14) XOR W(t-16)), oldest word first
  function Wt(t: nat, b: seq<Byte>): Word
    requires |b| == 64
  {
    if t < 16 then BeWord(b, t)
    else Rotl(Xor(Xor(Xor(Wt(t - 16, b), Wt(t - 14, b)), Wt(t - 8, b)), Wt(t - 3, b)), 1)
  }

  // TEMP = S^5(A) + f(t;B,C,D) + E + W(t) + K(t);  E = D;  D = C;  C = S^30(B);  B = A;  A = TEMP,
  // with TEMP summed in the driver's order.
  function Temp(t: nat, a: Word, f: Word, e: Word, w: Word): Word {
    Add(e, Add(Add(Add(f, w), Kt(t)), Rotl(a, 5)))
  }

  function RfcStep(t: nat, b: seq<Byte>, r: Regs): Regs
    requires |b| == 64
  {
    Regs(Temp(t, r.a, Fn(t, r.b, r.c, r.d), r.e, Wt(t, b)), r.a, Rotl(r.b, 30), r.c, r.d)
  }

  function RfcSteps(n: nat, b: seq<Byte>, r: Regs): Regs
    requires |b| == 64
  {
    if n == 0 then r else RfcStep(n - 1, b, RfcSteps(n - 1, b, r))
  }

  function RfcTransform(h: seq<Word>, b: seq<Byte>): (r: seq<Word>)
    requires |h| == 5 && |b| == 64
    ensures |r| == 5
  {
    var q := RfcSteps(80, b, Regs(h[0], h[1], h[2], h[3], h[4]));
    [Add(h[0], q.a), Add(h[1], q.b), Add(h[2], q.c), Add(h[3], q.d), Add(h[4], q.e)]
  }

  // --- The driver's transform ---

  // The message schedule W[80].
  method Schedule(mes: seq<Word>, ghost b: seq<Byte>) returns (w: array<Word>)
    requires |mes| == 20 && |b| == 64 && forall i :: 0 <= i < 16 ==> mes[i] == LeWord(b, i)
    ensures fresh(w) && w.Length == 80
    ensures forall t :: 0 <= t < 80 ==> w[t] == Wt(t, b)
  {
    hide Wt, LeWord;
    w := new Word[80](_ => Word(0));
    FillFromMessage(w, mes, b);
    Extend(w, b);
  }

  method FillFromMessage(w: array<Word>, mes: seq<Word>, ghost b: seq<Byte>)
    requires w.Length == 80 && |mes| == 20 && |b| == 64 && forall i :: 0 <= i < 16 ==> mes[i] == LeWord(b, i)
    modifies w
    ensures forall t :: 0 <= t < 16 ==> w[t] == Wt(t, b)
  {
    hide SwapBits, LeBits;
    var i := 0;
    while i < 16
      invariant 0 <= i <= 16
      invariant forall t :: 0 <= t < i ==> w[t] == BeWord(b, t)
    {
      SwapTurnsOrder(b[4 * i], b[4 * i + 1], b[4 * i + 2], b[4 * i + 3]);
      w[i] := SwapWord(mes[i]);
      i := i + 1;
    }
  }

  lemma WtUnfolds(t: nat, b: seq<Byte>)
    requires |b| == 64 && t >= 16
    ensures Wt(t, b) == Rotl(Xor(Xor(Xor(Wt(t - 16, b), Wt(t - 14, b)), Wt(t - 8, b)), Wt(t - 3, b)), 1)
  {
    hide Rotl, Xor, BeWord;
  }

  method Extend(w: array<Word>, ghost b: seq<Byte>)
    requires w.Length == 80 && |b| == 64
    requires forall t :: 0 <= t < 16 ==> w[t] == Wt(t, b)
    modifies w
    ensures forall t :: 0 <= t < 80 ==> w[t] == Wt(t, b)
  {
    hide Rotl, Xor, BeWord, Wt;
    var i := 0;
    while i < 64
      invariant 0 <= i <= 64
      invariant forall t :: 0 <= t < 16 + i ==> w[t] == Wt(t, b)
    {
      w[16 + i] := Rotl(Xor(Xor(Xor(w[i], w[2 + i]), w[8 + i]), w[13 + i]), 1);
      WtUnfolds(16 + i, b);
      i := i + 1;
    }
  }

  // The four statements that fill W[i].
  method SwapWord(m: Word) returns (w: Word)
    ensures w == Word(SwapBits(m.bits))
  {
    var x := m.bits;
    var y := (x >> 24) & 0xff;
    y := y | ((x >> 8) & 0xff00);
    y := y | ((x << 8) & 0xff0000);
    y := y | ((x << 24) & 0xff000000);
    w := Word(y);
  }

  predicate Holds(reg: seq<Word>, r: Regs) {
    |reg| == 5 && reg[0] == r.a && reg[1] == r.b && reg[2] == r.c && reg[3] == r.d && reg[4] == r.e
  }

  // SHA1Step and the one-word right shift of the registers.
  method StepAndShift(reg: array<Word>, t: nat, wt: Word)
    requires reg.Length == 5 && t < 80
    modifies reg
    ensures reg[0] == Temp(t, old(reg[0]), Fn(t, old(reg[1]), old(reg[2]), old(reg[3])), old(reg[4]), wt)
    ensures reg[1] == old(reg[0]) && reg[2] == Rotl(old(reg[1]), 30) && reg[3] == old(reg[2]) && reg[4] == old(reg[3])
  {
    hide Add, Rotl, Ch, Parity, Maj;
    var f, k;
    if t < 20 {
      f, k := Ch(reg[1], reg[2], reg[3]), Word(0x5a827999);
    } else if t >= 20 && t < 40 {
      f, k := Parity(reg[1], reg[2], reg[3]), Word(0x6ed9eba1);
    } else if t >= 40 && t < 60 {
      f, k := Maj(reg[1], reg[2], reg[3]), Word(0x8f1bbcdc);
    } else {
      f, k := Parity(reg[1], reg[2], reg[3]), Word(0xca62c1d6);
    }
    reg[4] := Add(reg[4], Add(Add(Add(f, wt), k), Rotl(reg[0], 5)));
    reg[1] := Rotl(reg[1], 30);
    var temp := reg[4];
    reg[4] := reg[3];
    reg[3] := reg[2];
    reg[2] := reg[1];
    reg[1] := reg[0];
    reg[0] := temp;
  }

  method Transform(buf: array<Word>, mes: seq<Word>, ghost b: seq<Byte>)
    requires buf.Length == 5 && |mes| == 20 && |b| == 64 && forall i :: 0 <= i < 16 ==> mes[i] == LeWord(b, i)
    modifies buf
    ensures buf[..] == RfcTransform(old(buf[..]), b)
  {
    hide Add, Rotl, Fn, Wt, Kt, LeWord, Temp;
    var reg := new Word[5](i requires 0 <= i < 5 reads buf => buf[i]);
    ghost var h := buf[..];
    ghost var r := Regs(h[0], h[1], h[2], h[3], h[4]);
    var w := Schedule(mes, b);
    var i := 0;
    while i < 80
      invariant 0 <= i <= 80 && buf[..] == h
      invariant forall t :: 0 <= t < 80 ==> w[t] == Wt(t, b)
      invariant Holds(reg[..], RfcSteps(i, b, r))
    {
      StepAndShift(reg, i, w[i]);
      i := i + 1;
    }
    ghost var q := reg[..];
    FinalSums(h, b, q);
    AddInto(buf, reg);
  }

  lemma FinalSums(h: seq<Word>, b: seq<Byte>, reg: seq<Word>)
    requires |h| == 5 && |b| == 64 && Holds(reg, RfcSteps(80, b, Regs(h[0], h[1], h[2], h[3], h[4])))
    ensures RfcTransform(h, b) == seq(5, j requires 0 <= j < 5 => Add(h[j], reg[j]))
  {
    hide RfcSteps, Add;
  }

  method AddInto(buf: array<Word>, reg: array<Word>)
    requires buf.Length == 5 && reg.Length == 5 && buf != reg
    modifies buf
    ensures buf[..] == seq(5, j requires 0 <= j < 5 => Add(old(buf[j]), old(reg[j])))
  {
    hide Add;
    var i := 0;
    while i < 5
      invariant 0 <= i <= 5
      invariant forall j :: 0 <= j < i ==> buf[j] == Add(old(buf[j]), reg[j])
      invariant forall j :: i <= j < 5 ==> buf[j] == old(buf[j])
    {
      buf[i] := Add(buf[i], reg[i]);
      i := i + 1;
    }
  }
}
