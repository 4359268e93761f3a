// AES_GTK_KEY_WRAP and AES_GTK_KEY_UNWRAP (common/cmm_wpa.c) over any block cipher.
module KeyWrap {
  import opened Words
  import opened Pieces
  import opened HashSpec
  import opened Memory

  type Cipher = seq<Byte> -> seq<Byte>

  ghost predicate Blocks16(e: Cipher) { forall x: seq<Byte> :: |x| == 16 ==> |e(x)| == 16 }

  ghost predicate Undoes(d: Cipher, e: Cipher) { forall x: seq<Byte> :: |x| == 16 ==> d(e(x)) == x }

  // Register A and the blocks R[1..n], eight bytes each.
  datatype Regs = Regs(a: seq<Byte>, r: seq<Byte>)

  predicate Shape(s: Regs) { |s.a| == 8 && |s.r| % 8 == 0 }

  const IV: seq<Byte> := [0xa6, 0xa6, 0xa6, 0xa6, 0xa6, 0xa6, 0xa6, 0xa6]

  function BlockAt(r: seq<Byte>, i: nat): (b: seq<Byte>)
    requires 8 * i + 8 <= |r|
    ensures |b| == 8
  {
    r[8 * i..8 * i + 8]
  }

  function PutBlock(r: seq<Byte>, i: nat, b: seq<Byte>): (r': seq<Byte>)
    requires 8 * i + 8 <= |r| && |b| == 8
    ensures |r'| == |r|
  {
    r[..8 * i] + b + r[8 * i + 8..]
  }

  // --- Sections 2.2.1 and 2.2.2 of RFC 3394, index method ---

  // A ^ t, t as a 64-bit number.
  function XorCount(a: seq<Byte>, t: nat): (r: seq<Byte>)
    requires |a| == 8
    ensures |r| == 8
  {
    seq(8, k requires 0 <= k < 8 => XorByte(a[k], Octet(t, 7 - k)))
  }

  // Step k (from 0) of the 6n steps works on block k mod n and counts t = k + 1.
  function StandardStep(e: Cipher, s: Regs, k: nat): Regs
    requires Blocks16(e) && Shape(s) && s.r != []
  {
    var i := k % (|s.r| / 8);
    var b := e(s.a + BlockAt(s.r, i));
    Regs(XorCount(b[..8], k + 1), PutBlock(s.r, i, b[8..]))
  }

  function StandardSteps(e: Cipher, s: Regs, k: nat): (t: Regs)
    requires Blocks16(e) && Shape(s) && (s.r != [] || k == 0)
    ensures Shape(t) && |t.r| == |s.r|
  {
    if k == 0 then s else StandardStep(e, StandardSteps(e, s, k - 1), k - 1)
  }

  function StandardWrap(e: Cipher, p: seq<Byte>): seq<Byte>
    requires Blocks16(e) && |p| % 8 == 0
  {
    var s := StandardSteps(e, Regs(IV, p), 6 * (|p| / 8));
    s.a + s.r
  }

  // --- The driver: the count is one byte, XORed into the last byte of A ---

  function CountByte(t: nat): Byte { (t % 256) as bv8 }

  function XorLast(a: seq<Byte>, t: nat): (r: seq<Byte>)
    requires |a| == 8
    ensures |r| == 8
  {
    a[7 := XorByte(a[7], CountByte(t))]
  }

  function WrapStep(e: Cipher, s: Regs, k: nat): (t: Regs)
    requires Blocks16(e) && Shape(s) && s.r != []
    ensures Shape(t) && |t.r| == |s.r|
  {
    var i := k % (|s.r| / 8);
    var b := e(s.a + BlockAt(s.r, i));
    Regs(XorLast(b[..8], k + 1), PutBlock(s.r, i, b[8..]))
  }

  function WrapSteps(e: Cipher, s: Regs, k: nat): (t: Regs)
    requires Blocks16(e) && Shape(s) && (s.r != [] || k == 0)
    ensures Shape(t) && |t.r| == |s.r|
  {
    if k == 0 then s else WrapStep(e, WrapSteps(e, s, k - 1), k - 1)
  }

  function UnwrapStep(d: Cipher, s: Regs, k: nat): (t: Regs)
    requires Blocks16(d) && Shape(s) && s.r != []
    ensures Shape(t) && |t.r| == |s.r|
  {
    var i := k % (|s.r| / 8);
    var b := d(XorLast(s.a, k + 1) + BlockAt(s.r, i));
    Regs(b[..8], PutBlock(s.r, i, b[8..]))
  }

  // Undo steps k-1 down to 0.
  function UnwrapSteps(d: Cipher, s: Regs, k: nat): (t: Regs)
    requires Blocks16(d) && Shape(s) && (s.r != [] || k == 0)
    ensures Shape(t) && |t.r| == |s.r|
    decreases k
  {
    if k == 0 then s else UnwrapSteps(d, UnwrapStep(d, s, k - 1), k - 1)
  }

  lemma XorByteZero(a: Byte)
    ensures XorByte(a, 0) == a
  {
  }

  lemma XorLastTwice(a: seq<Byte>, t: nat)
    requires |a| == 8
    ensures XorLast(XorLast(a, t), t) == a
  {
    XorByteTwice(a[7], CountByte(t));
    hide XorByte, CountByte;
  }

  lemma PutBlockBack(r: seq<Byte>, i: nat, b: seq<Byte>)
    requires 8 * i + 8 <= |r| && |b| == 8
    ensures BlockAt(PutBlock(r, i, b), i) == b
    ensures PutBlock(PutBlock(r, i, b), i, BlockAt(r, i)) == r
  {
  }

  lemma StepUndone(e: Cipher, d: Cipher, s: Regs, k: nat)
    requires Blocks16(e) && Blocks16(d) && Undoes(d, e) && Shape(s) && s.r != []
    ensures UnwrapStep(d, WrapStep(e, s, k), k) == s
  {
    hide XorLast;
    var i := k % (|s.r| / 8);
    var x := s.a + BlockAt(s.r, i);
    var b := e(x);
    XorLastTwice(b[..8], k + 1);
    PutBlockBack(s.r, i, b[8..]);
    assert b[..8] + b[8..] == b;
    assert x[..8] == s.a && x[8..] == BlockAt(s.r, i);
  }

  // Unwrap undoes wrap, register A included, for any number of steps.
  lemma {:induction false} StepsUndone(e: Cipher, d: Cipher, s: Regs, k: nat)
    requires Blocks16(e) && Blocks16(d) && Undoes(d, e) && Shape(s) && (s.r != [] || k == 0)
    ensures UnwrapSteps(d, WrapSteps(e, s, k), k) == s
  {
    hide WrapStep, UnwrapStep;
    if k > 0 {
      StepUndone(e, d, WrapSteps(e, s, k - 1), k - 1);
      StepsUndone(e, d, s, k - 1);
    }
  }

  lemma ByteCount(a: seq<Byte>, t: nat)
    requires |a| == 8 && t < 256
    ensures XorCount(a, t) == XorLast(a, t)
  {
    assert Octet(t, 0) == CountByte(t);
    forall k | 1 <= k < 8 ensures Octet(t, k) == 0 {
      NoOctet(k - 1);
    }
    forall k | 0 <= k < 7 ensures XorByte(a[k], 0) == a[k] {
      XorByteZero(a[k]);
    }
    hide XorByte, Octet, CountByte;
  }

  lemma StepIsStandard(e: Cipher, s: Regs, k: nat)
    requires Blocks16(e) && Shape(s) && s.r != [] && k < 255
    ensures WrapStep(e, s, k) == StandardStep(e, s, k)
  {
    ByteCount(e(s.a + BlockAt(s.r, k % (|s.r| / 8)))[..8], k + 1);
    hide XorCount, XorLast;
  }

  // The truncated count is the standard's as long as it stays below 256.
  lemma {:induction false} WrapIsStandard(e: Cipher, s: Regs, k: nat)
    requires Blocks16(e) && Shape(s) && (s.r != [] || k == 0) && k < 256
    ensures WrapSteps(e, s, k) == StandardSteps(e, s, k)
  {
    hide WrapStep, StandardStep, Blocks16;
    if k > 0 {
      WrapIsStandard(e, s, k - 1);
      StepIsStandard(e, WrapSteps(e, s, k - 1), k - 1);
    }
  }

  // AES_GTK_KEY_WRAP: p_len is one byte, so the count never reaches 256 and the result is
  // the standard's wrapping of the whole blocks of the plaintext.
  method Wrap(e: Cipher, plaintext: seq<Byte>, pLen: nat, ciphertext: array<Byte>)
    requires Blocks16(e) && pLen < 256 && pLen <= |plaintext| && 8 + pLen / 8 * 8 <= ciphertext.Length
    modifies ciphertext
    ensures ciphertext[..8 + pLen / 8 * 8] == StandardWrap(e, plaintext[..pLen / 8 * 8])
    ensures ciphertext[8 + pLen / 8 * 8..] == old(ciphertext[8 + pLen / 8 * 8..])
  {
    hide WrapSteps, WrapStep, StandardSteps, Blocks16;
    var n := pLen / 8;
    var a, r := new Byte[8](_ => 0xa6), new Byte[512];
    MoveMemory(r, 8, plaintext[..8 * n]);
    assert a[..] == IV && r[8..8 + 8 * n] == plaintext[..8 * n];
    WrapRounds(e, a, r, n);
    WrapIsStandard(e, Regs(IV, plaintext[..8 * n]), 6 * n);
    WriteOut(ciphertext, a[..], r[8..8 + 8 * n]);
  }

  method WriteOut(ciphertext: array<Byte>, a: seq<Byte>, r: seq<Byte>)
    requires |a| == 8 && 8 + |r| <= ciphertext.Length
    modifies ciphertext
    ensures ciphertext[..8 + |r|] == a + r && ciphertext[8 + |r|..] == old(ciphertext[8 + |r|..])
  {
    ghost var was := ciphertext[..];
    MoveMemory(ciphertext, 0, a);
    assert ciphertext[..8] == a && ciphertext[8..] == was[8..];
    MoveMemory(ciphertext, 8, r);
    assert ciphertext[8 + |r|..] == was[8..][|r|..];
  }

  // The six passes.
  method WrapRounds(e: Cipher, a: array<Byte>, r: array<Byte>, n: nat)
    requires Blocks16(e) && a.Length == 8 && r.Length == 512 && a != r && 8 + 8 * n <= 512
    modifies a, r
    ensures Regs(a[..], r[8..8 + 8 * n]) == WrapSteps(e, old(Regs(a[..], r[8..8 + 8 * n])), 6 * n)
  {
    hide WrapSteps, WrapStep, Blocks16;
    ghost var s := Regs(a[..], r[8..8 + 8 * n]);
    WrapStart(e, s);
    var j := 0;
    while j < 6
      invariant 0 <= j <= 6 && (n == 0 ==> n * j == 0)
      invariant Regs(a[..], r[8..8 + 8 * n]) == WrapSteps(e, s, n * j)
    {
      assert n == 0 ==> n * (j + 1) == 0;
      WrapRound(e, a, r, n, j, s);
      j := j + 1;
    }
  }

  // The inner loop.
  method WrapRound(e: Cipher, a: array<Byte>, r: array<Byte>, n: nat, j: nat, ghost s: Regs)
    requires Blocks16(e) && a.Length == 8 && r.Length == 512 && a != r && 8 + 8 * n <= 512
    requires Shape(s) && |s.r| == 8 * n
    requires n == 0 ==> n * j == n * (j + 1) == 0
    requires Regs(a[..], r[8..8 + 8 * n]) == WrapSteps(e, s, n * j)
    modifies a, r
    ensures Regs(a[..], r[8..8 + 8 * n]) == WrapSteps(e, s, n * (j + 1))
  {
    hide WrapSteps, WrapStep, XorByte, Blocks16;
    assert n * (j + 1) == n * j + n;
    var i := 1;
    while i <= n
      invariant 1 <= i <= n + 1
      invariant Regs(a[..], r[8..8 + 8 * n]) == WrapSteps(e, s, n * j + i - 1)
    {
      StepIndex(n, j, i);
      WrapNext(e, s, n * j + i - 1);
      WrapOne(e, a, r, n, i, n * j + i);
      i := i + 1;
    }
  }

  lemma WrapStart(e: Cipher, s: Regs)
    requires Blocks16(e) && Shape(s)
    ensures WrapSteps(e, s, 0) == s
  {
  }

  lemma WrapNext(e: Cipher, s: Regs, k: nat)
    requires Blocks16(e) && Shape(s) && s.r != []
    ensures WrapSteps(e, s, k + 1) == WrapStep(e, WrapSteps(e, s, k), k)
  {
    hide WrapStep;
  }

  lemma StepIndex(n: nat, j: nat, i: nat)
    requires 1 <= i <= n
    ensures (n * j + (i - 1)) % n == i - 1
  {
    ModOffset(n, j, i - 1);
  }

  lemma {:induction false} ModOffset(n: nat, j: nat, m: nat)
    requires m < n
    ensures (n * j + m) % n == m
    decreases j
  {
    if j > 0 {
      ModOffset(n, j - 1, m);
      assert n * j + m == n * (j - 1) + m + n;
      AddModulus(n * (j - 1) + m, n);
    }
  }

  lemma AddModulus(x: nat, n: nat)
    requires n > 0
    ensures (x + n) % n == x % n
  {
    var q, r := x / n, x % n;
    assert x == q * n + r;
    assert x + n == (q + 1) * n + r;
    QuotientIs(x + n, n, q + 1, r);
  }

  lemma QuotientIs(x: int, n: int, q: int, r: int)
    requires n > 0 && x == q * n + r && 0 <= r < n
    ensures x % n == r
  {
    var d := x / n - q;
    assert x == (x / n) * n + x % n;
    assert d * n == (x / n) * n - q * n;
    assert d * n == r - x % n;
    assert d >= 1 ==> d * n >= n;
    assert d <= -1 ==> d * n <= -n;
  }

  lemma BlockInside(all: seq<Byte>, lo: nat, n: nat, i: nat)
    requires lo + 8 * n <= |all| && i < n
    ensures BlockAt(all[lo..lo + 8 * n], i) == all[lo + 8 * i..lo + 8 * i + 8]
  {
    Part(all, lo, 8 * n, 8 * i, 8 * i + 8);
  }

  // Storing one block inside the register area changes that block only.
  lemma SliceAfterPut(was: seq<Byte>, now: seq<Byte>, lo: nat, n: nat, i: nat, b: seq<Byte>)
    requires lo + 8 * n <= |was| && i < n && |b| == 8
    requires now == was[..lo + 8 * i] + b + was[lo + 8 * i + 8..]
    ensures now[lo..lo + 8 * n] == PutBlock(was[lo..lo + 8 * n], i, b)
  {
    var x, y := now[lo..lo + 8 * n], PutBlock(was[lo..lo + 8 * n], i, b);
    var at := 8 * i;
    forall k | 0 <= k < 8 * n ensures x[k] == y[k] {
      assert x[k] == now[lo + k];
      if k < at {
        assert y[k] == was[lo + k];
      } else if k < at + 8 {
        assert y[k] == b[k - at];
      } else {
        assert y[k] == was[lo..lo + 8 * n][at + 8..][k - (at + 8)] == was[lo + k];
      }
    }
  }

  // NdisMoveMemory of one block into the register area that starts at lo.
  method StoreBlock(r: array<Byte>, lo: nat, n: nat, i: nat, b: seq<Byte>)
    requires lo + 8 * n <= r.Length && i < n && |b| == 8
    modifies r
    ensures r[lo..lo + 8 * n] == PutBlock(old(r[lo..lo + 8 * n]), i, b)
    ensures r[lo + 8 * n..] == old(r[lo + 8 * n..])
  {
    hide PutBlock;
    ghost var was := r[..];
    MoveMemory(r, lo + 8 * i, b);
    SliceAfterPut(was, r[..], lo, n, i, b);
    assert r[lo + 8 * n..] == was[lo + 8 * n..];
  }

  method LoadA(a: array<Byte>, b: seq<Byte>)
    requires a.Length == |b| == 8
    modifies a
    ensures a[..] == b
  {
    MoveMemory(a, 0, b);
  }

  // One pass of the inner loop on block i.
  method WrapOne(e: Cipher, a: array<Byte>, r: array<Byte>, n: nat, i: nat, count: nat)
    requires Blocks16(e) && a.Length == 8 && r.Length == 512 && a != r && 1 <= i <= n && 8 + 8 * n <= 512
    requires count > 0 && (count - 1) % n == i - 1
    modifies a, r
    ensures Regs(a[..], r[8..8 + 8 * n]) == WrapStep(e, old(Regs(a[..], r[8..8 + 8 * n])), count - 1)
  {
    hide XorByte, CountByte, PutBlock, WrapStep;
    ghost var q := Regs(a[..], r[8..8 + 8 * n]);
    var block := r[8 * i..8 * i + 8];
    BlockInside(r[..], 8, n, i - 1);
    assert r[..][8..8 + 8 * n] == q.r;
    var bout := e(a[..] + block);
    assert |bout| == 16;
    assert |q.r| / 8 == n;
    WrapStepIs(e, q, count - 1, i - 1, bout);
    ghost var t := Regs(XorLast(bout[..8], count), PutBlock(q.r, i - 1, bout[8..]));
    assert WrapStep(e, q, count - 1) == t;
    hide Blocks16, BlockAt;
    LoadA(a, bout[..8]);
    a[7] := XorByte(a[7], CountByte(count));
    assert a[..] == XorLast(bout[..8], count);
    hide XorLast;
    assert r[8..8 + 8 * n] == q.r;
    StoreBlock(r, 8, n, i - 1, bout[8..]);
    assert a[..] == t.a;
    assert r[8..8 + 8 * n] == t.r;
    assert Regs(a[..], r[8..8 + 8 * n]) == t;
  }

  lemma WrapStepIs(e: Cipher, s: Regs, k: nat, i: nat, b: seq<Byte>)
    requires Blocks16(e) && Shape(s) && s.r != [] && i == k % (|s.r| / 8) && b == e(s.a + BlockAt(s.r, i))
    ensures |b| == 16 && WrapStep(e, s, k) == Regs(XorLast(b[..8], k + 1), PutBlock(s.r, i, b[8..]))
  {
  }

  function Blocks(cLen: nat): nat { if cLen < 16 then 0 else cLen / 8 - 1 }

  // Everything AES_GTK_KEY_UNWRAP writes: the unwrapped blocks, an incomplete block copied,
  // and then, the data being eight bytes shorter than the ciphertext, eight bytes of the
  // memory it was given for R.  Register A is dropped.
  function Output(regs: Regs, ciphertext: seq<Byte>, cLen: nat, memory: seq<Byte>): seq<Byte>
    requires cLen <= |ciphertext| && cLen <= |memory|
  {
    if cLen < 8 then memory[..cLen]
    else regs.r + ciphertext[8 + 8 * Blocks(cLen)..cLen] + memory[cLen - 8..cLen]
  }

  // AES_GTK_KEY_UNWRAP; memory is what the allocation for R gives, None if it fails.
  method Unwrap(d: Cipher, plaintext: array<Byte>, cLen: nat, ciphertext: seq<Byte>, memory: Option)
    returns (ghost regs: Regs)
    requires Blocks16(d) && cLen < 256 && 8 <= |ciphertext| && cLen <= |ciphertext| && cLen <= plaintext.Length
    requires memory.Some? ==> |memory.bytes| == 512
    modifies plaintext
    ensures regs == Unwrapped(d, ciphertext, Blocks(cLen))
    ensures plaintext[..] == if memory.None? then old(plaintext[..])
                             else Output(regs, ciphertext, cLen, memory.bytes) + old(plaintext[cLen..])
  {
    hide UnwrapSteps, UnwrapStep, XorByte, Blocks16;
    var n := Blocks(cLen);
    regs := Unwrapped(d, ciphertext, n);
    if memory.None? {
      return;
    }
    var a, r := new Byte[8], new Byte[512](i requires 0 <= i < 512 => memory.bytes[i]);
    assert r[..] == memory.bytes;
    Load(a, r, ciphertext, cLen, n);
    UnwrapRounds(d, a, r, n);
    ghost var all := r[..];
    ghost var was := plaintext[..];
    MoveMemory(plaintext, 0, r[..cLen]);
    CopiedOut(plaintext[..], all, was, memory.bytes, ciphertext, cLen, n, regs);
  }

  datatype Option = None | Some(bytes: seq<Byte>)

  // The registers after unwrapping n blocks.
  function Unwrapped(d: Cipher, c: seq<Byte>, n: nat): (s: Regs)
    requires Blocks16(d) && 8 + 8 * n <= |c|
    ensures Shape(s) && |s.r| == 8 * n
  {
    UnwrapSteps(d, Regs(c[..8], c[8..8 + 8 * n]), 6 * n)
  }

  method Load(a: array<Byte>, r: array<Byte>, ciphertext: seq<Byte>, cLen: nat, n: nat)
    requires a.Length == 8 && r.Length == 512 && a != r && cLen < 256 && 8 <= |ciphertext| && cLen <= |ciphertext|
    requires n == Blocks(cLen)
    modifies a, r
    ensures a[..] == ciphertext[..8] && r[0..8 * n] == ciphertext[8..8 + 8 * n]
    ensures r[..] == if cLen < 8 then old(r[..]) else ciphertext[8..cLen] + old(r[cLen - 8..])
  {
    MoveMemory(a, 0, ciphertext[..8]);
    assert a[..] == ciphertext[..8];
    if cLen >= 8 {
      ghost var was := r[..];
      MoveMemory(r, 0, ciphertext[8..cLen]);
      assert r[..] == ciphertext[8..cLen] + was[cLen - 8..];
    }
  }

  // The six passes, 5 down to 0.
  method UnwrapRounds(d: Cipher, a: array<Byte>, r: array<Byte>, n: nat)
    requires Blocks16(d) && a.Length == 8 && r.Length == 512 && a != r && 8 * n <= 512
    modifies a, r
    ensures Regs(a[..], r[0..8 * n]) == UnwrapSteps(d, old(Regs(a[..], r[0..8 * n])), 6 * n)
    ensures r[8 * n..] == old(r[8 * n..])
  {
    hide UnwrapSteps, UnwrapStep, Blocks16;
    var j := 5;
    while j >= 0
      invariant -1 <= j <= 5 && r[8 * n..] == old(r[8 * n..])
      invariant n == 0 ==> n * (j + 1) == 0
      invariant UnwrapSteps(d, Regs(a[..], r[0..8 * n]), n * (j + 1))
             == UnwrapSteps(d, old(Regs(a[..], r[0..8 * n])), 6 * n)
    {
      UnwrapRound(d, a, r, n, j);
      assert n == 0 ==> n * j == 0;
      j := j - 1;
    }
    UnwrapStart(d, Regs(a[..], r[0..8 * n]));
  }

  lemma CopiedOut(now: seq<Byte>, r: seq<Byte>, was: seq<Byte>, memory: seq<Byte>, c: seq<Byte>, cLen: nat, n: nat,
                  regs: Regs)
    requires cLen <= |was| && cLen <= |c| && cLen < 256 && |memory| == |r| == 512 && n == Blocks(cLen)
    requires now == was[..0] + r[..cLen] + was[cLen..] && r[0..8 * n] == regs.r
    requires r[8 * n..] == (if cLen < 8 then memory else c[8..cLen] + memory[cLen - 8..])[8 * n..]
    ensures now == Output(regs, c, cLen, memory) + was[cLen..]
  {
    if cLen >= 8 {
      BlocksFit(cLen);
      hide Blocks;
      TailOut(r, memory, c, cLen, 8 * n);
    }
  }

  lemma BlocksFit(cLen: nat)
    requires cLen >= 8
    ensures 8 + 8 * Blocks(cLen) <= cLen
  {
  }

  lemma TailOut(r: seq<Byte>, memory: seq<Byte>, c: seq<Byte>, cLen: nat, m: nat)
    requires 8 + m <= cLen <= |c| && cLen <= |r| == |memory|
    requires r[m..] == (c[8..cLen] + memory[cLen - 8..])[m..]
    ensures r[..cLen] == r[0..m] + c[8 + m..cLen] + memory[cLen - 8..cLen]
  {
    var x, y, z := r[..cLen], r[0..m] + c[8 + m..cLen] + memory[cLen - 8..cLen], c[8..cLen] + memory[cLen - 8..];
    assert |y| == cLen;
    forall k | 0 <= k < cLen ensures x[k] == y[k] {
      if k >= m {
        assert r[k] == r[m..][k - m] == z[m..][k - m] == z[k];
      }
    }
  }

  // The inner loop, blocks n down to 1.
  method UnwrapRound(d: Cipher, a: array<Byte>, r: array<Byte>, n: nat, j: nat)
    requires Blocks16(d) && a.Length == 8 && r.Length == 512 && a != r && 8 * n <= 512
    requires n == 0 ==> n * j == n * (j + 1) == 0
    modifies a, r
    ensures UnwrapSteps(d, Regs(a[..], r[0..8 * n]), n * j)
         == UnwrapSteps(d, old(Regs(a[..], r[0..8 * n])), n * (j + 1))
    ensures r[8 * n..] == old(r[8 * n..])
  {
    hide UnwrapSteps, UnwrapStep, XorByte, Blocks16;
    ghost var s := Regs(a[..], r[0..8 * n]);
    assert n * (j + 1) == n * j + n;
    var i := n;
    while i > 0
      invariant 0 <= i <= n && r[8 * n..] == old(r[8 * n..])
      invariant UnwrapSteps(d, Regs(a[..], r[0..8 * n]), n * j + i) == UnwrapSteps(d, s, n * (j + 1))
    {
      StepIndex(n, j, i);
      UnwrapNext(d, Regs(a[..], r[0..8 * n]), n * j + i);
      UnwrapOne(d, a, r, n, i, n * j + i);
      i := i - 1;
    }
  }

  lemma UnwrapStart(d: Cipher, s: Regs)
    requires Blocks16(d) && Shape(s)
    ensures UnwrapSteps(d, s, 0) == s
  {
  }

  lemma UnwrapNext(d: Cipher, s: Regs, k: nat)
    requires Blocks16(d) && Shape(s) && s.r != [] && k > 0
    ensures UnwrapSteps(d, s, k) == UnwrapSteps(d, UnwrapStep(d, s, k - 1), k - 1)
  {
    hide UnwrapStep;
  }

  method UnwrapOne(d: Cipher, a: array<Byte>, r: array<Byte>, n: nat, i: nat, count: nat)
    requires Blocks16(d) && a.Length == 8 && r.Length == 512 && a != r && 1 <= i <= n && 8 * n <= 512
    requires count > 0 && (count - 1) % n == i - 1
    modifies a, r
    ensures Regs(a[..], r[0..8 * n]) == UnwrapStep(d, old(Regs(a[..], r[0..8 * n])), count - 1)
    ensures r[8 * n..] == old(r[8 * n..])
  {
    hide XorByte, CountByte, PutBlock;
    ghost var q := Regs(a[..], r[0..8 * n]);
    var x := a[..];
    x := x[7 := XorByte(a[7], CountByte(count))];
    assert x == XorLast(a[..], count);
    var block := r[(i - 1) * 8..(i - 1) * 8 + 8];
    BlockInside(r[..], 0, n, i - 1);
    assert r[..][0..8 * n] == r[0..8 * n];
    var bout := d(x + block);
    assert |q.r| / 8 == n;
    UnwrapStepIs(d, q, count - 1, i - 1, bout);
    hide UnwrapStep, Blocks16, XorLast, BlockAt;
    LoadA(a, bout[..8]);
    StoreBlock(r, 0, n, i - 1, bout[8..]);
  }

  lemma UnwrapStepIs(d: Cipher, s: Regs, k: nat, i: nat, b: seq<Byte>)
    requires Blocks16(d) && Shape(s) && s.r != [] && i == k % (|s.r| / 8)
    requires b == d(XorLast(s.a, k + 1) + BlockAt(s.r, i))
    ensures |b| == 16 && UnwrapStep(d, s, k) == Regs(b[..8], PutBlock(s.r, i, b[8..]))
  {
    hide XorLast;
  }

  // --- What is and what is not a wrapping ---

  lemma StepRedone(e: Cipher, d: Cipher, s: Regs, k: nat)
    requires Blocks16(e) && Blocks16(d) && Undoes(e, d) && Shape(s) && s.r != []
    ensures WrapStep(e, UnwrapStep(d, s, k), k) == s
  {
    hide XorLast;
    var i := k % (|s.r| / 8);
    var x := XorLast(s.a, k + 1) + BlockAt(s.r, i);
    var b := d(x);
    XorLastTwice(s.a, k + 1);
    PutBlockBack(s.r, i, b[8..]);
    assert b[..8] + b[8..] == b;
    assert x[..8] == XorLast(s.a, k + 1) && x[8..] == BlockAt(s.r, i);
  }

  // Wrapping what was unwrapped gives the ciphertext back, whatever A came out as.
  lemma {:induction false} StepsRedone(e: Cipher, d: Cipher, s: Regs, k: nat)
    requires Blocks16(e) && Blocks16(d) && Undoes(e, d) && Shape(s) && (s.r != [] || k == 0)
    ensures WrapSteps(e, UnwrapSteps(d, s, k), k) == s
    decreases k
  {
    hide WrapStep, UnwrapStep;
    if k > 0 {
      StepsRedone(e, d, UnwrapStep(d, s, k - 1), k - 1);
      StepRedone(e, d, s, k - 1);
    }
  }

  // A ciphertext is the wrapping of p exactly when unwrapping it gives p and leaves A at its
  // initial value, which is the check of section 2.2.2 of RFC 3394 that the driver does not
  // make.
  lemma IsWrappingIff(e: Cipher, d: Cipher, p: seq<Byte>, c: seq<Byte>)
    requires Blocks16(e) && Blocks16(d) && Undoes(d, e) && Undoes(e, d)
    requires |p| % 8 == 0 && |p| <= 240 && |c| == |p| + 8
    ensures c == StandardWrap(e, p) <==> Unwrapped(d, c, |p| / 8) == Regs(IV, p)
  {
    if Unwrapped(d, c, |p| / 8) == Regs(IV, p) {
      UnwrappedIsWrapping(e, d, Regs(IV, p), c, |p| / 8);
      WrapIsStandard(e, Regs(IV, p), 6 * (|p| / 8));
    } else {
      UnwrapOfWrap(e, d, p);
    }
    hide Unwrapped, WrapSteps, StandardSteps, Blocks16, Undoes;
  }

  // The registers a ciphertext unwraps to wrap to it again.
  lemma UnwrappedIsWrapping(e: Cipher, d: Cipher, s: Regs, c: seq<Byte>, n: nat)
    requires Blocks16(e) && Blocks16(d) && Undoes(e, d) && Shape(s) && |s.r| == 8 * n && |c| == 8 + 8 * n
    requires Unwrapped(d, c, n) == s
    ensures var w := WrapSteps(e, s, 6 * n); c == w.a + w.r
  {
    hide WrapSteps, UnwrapSteps, Blocks16, Undoes;
    StepsRedone(e, d, Regs(c[..8], c[8..8 + 8 * n]), 6 * n);
    assert c == c[..8] + c[8..8 + 8 * n];
  }

  // Any register A other than the initial value leads to a ciphertext that is the wrapping of
  // nothing and still unwraps to p.
  lemma ForeignUnwraps(e: Cipher, d: Cipher, p: seq<Byte>, a: seq<Byte>)
    requires Blocks16(e) && Blocks16(d) && Undoes(d, e) && Undoes(e, d)
    requires |p| % 8 == 0 && |p| <= 240 && |a| == 8 && a != IV
    ensures var s := WrapSteps(e, Regs(a, p), 6 * (|p| / 8));
            var c := s.a + s.r;
            Unwrapped(d, c, |p| / 8) == Regs(a, p)
            && forall q: seq<Byte> :: |q| == |p| ==> StandardWrap(e, q) != c
  {
    hide WrapSteps, Unwrapped, StandardWrap, Blocks16, Undoes;
    var s := WrapSteps(e, Regs(a, p), 6 * (|p| / 8));
    var c := s.a + s.r;
    UnwrapsBack(e, d, Regs(a, p), |p| / 8);
    forall q: seq<Byte> | |q| == |p| ensures StandardWrap(e, q) != c {
      IsWrappingIff(e, d, q, c);
    }
  }

  lemma UnwrapsBack(e: Cipher, d: Cipher, s: Regs, n: nat)
    requires Blocks16(e) && Blocks16(d) && Undoes(d, e) && Shape(s) && |s.r| == 8 * n
    ensures var w := WrapSteps(e, s, 6 * n);
            |w.a + w.r| == 8 + 8 * n && Unwrapped(d, w.a + w.r, n) == s
  {
    hide WrapSteps, UnwrapSteps, Blocks16, Undoes;
    var w := WrapSteps(e, s, 6 * n);
    StepsUndone(e, d, s, 6 * n);
    var c := w.a + w.r;
    assert c[..8] == w.a && c[8..8 + 8 * n] == w.r;
  }

  // --- A wrapping worked out ---

  // A cipher that exchanges the halves of its block, to see where everything goes.
  function Exchange(x: seq<Byte>): seq<Byte> { if |x| == 16 then x[8..] + x[..8] else x }

  lemma ExchangeStep(a: seq<Byte>, x: seq<Byte>, y: seq<Byte>, k: nat)
    requires |a| == |x| == |y| == 8 && Blocks16(Exchange)
    ensures k % 2 == 0 ==> StandardStep(Exchange, Regs(a, x + y), k) == Regs(XorCount(x, k + 1), a + y)
    ensures k % 2 == 1 ==> StandardStep(Exchange, Regs(a, x + y), k) == Regs(XorCount(y, k + 1), x + a)
  {
    hide XorCount;
    var r := x + y;
    assert |r| / 8 == 2 && BlockAt(r, 0) == x && BlockAt(r, 1) == y;
    assert Exchange(a + x) == x + a && Exchange(a + y) == y + a;
    assert PutBlock(r, 0, a) == a + y && PutBlock(r, 1, a) == x + a;
    assert (x + a)[..8] == x && (x + a)[8..] == a && (y + a)[..8] == y && (y + a)[8..] == a;
  }

  lemma StepMore(e: Cipher, s: Regs, k: nat)
    requires Blocks16(e) && Shape(s) && s.r != []
    ensures StandardSteps(e, s, k + 1) == StandardStep(e, StandardSteps(e, s, k), k)
  {
    hide StandardStep, Blocks16;
  }

  lemma TwoMore(a: seq<Byte>, x: seq<Byte>, y: seq<Byte>, s: Regs, k: nat)
    requires |a| == |x| == |y| == 8 && Blocks16(Exchange) && Shape(s) && s.r != [] && k % 2 == 0
    requires StandardSteps(Exchange, s, k) == Regs(a, x + y)
    ensures StandardSteps(Exchange, s, k + 2) == Regs(XorCount(y, k + 2), a + XorCount(x, k + 1))
  {
    hide StandardStep, StandardSteps, XorCount, Exchange, Blocks16;
    StepMore(Exchange, s, k);
    ExchangeStep(a, x, y, k);
    StepMore(Exchange, s, k + 1);
    ExchangeStep(XorCount(x, k + 1), a, y, k + 1);
  }

  // x with its last byte XORed.
  function Marked(x: seq<Byte>, m: Byte): (y: seq<Byte>)
    requires |x| == 8
    ensures |y| == 8
  {
    x[7 := XorByte(x[7], m)]
  }

  lemma MarkedMore(x: seq<Byte>, m: Byte, t: nat, n: Byte)
    requires |x| == 8 && t < 256 && XorByte(m, CountByte(t)) == n
    ensures XorCount(Marked(x, m), t) == Marked(x, n)
  {
    hide XorByte, CountByte;
    ByteCount(Marked(x, m), t);
    XorThree(x[7], m, CountByte(t));
    hide XorCount;
  }

  lemma XorThree(a: Byte, b: Byte, c: Byte)
    ensures XorByte(XorByte(a, b), c) == XorByte(a, XorByte(b, c))
  {
  }

  lemma ByteOfNumber(b: Byte)
    ensures (b as nat) as bv8 == b
  {
  }

  lemma CountIs(b: Byte)
    ensures CountByte(b as nat) == b
  {
    ByteOfNumber(b);
  }

  lemma Counts()
    ensures CountByte(1) == 1 && CountByte(2) == 2 && CountByte(3) == 3 && CountByte(4) == 4
    ensures CountByte(5) == 5 && CountByte(6) == 6 && CountByte(7) == 7 && CountByte(8) == 8
    ensures CountByte(9) == 9 && CountByte(10) == 10 && CountByte(11) == 11 && CountByte(12) == 12
  {
    CountIs(1);
    CountIs(2);
    CountIs(3);
    CountIs(4);
    CountIs(5);
    CountIs(6);
    CountIs(7);
    CountIs(8);
    CountIs(9);
    CountIs(10);
    CountIs(11);
    CountIs(12);
    hide CountByte;
  }

  lemma Sums()
    ensures XorByte(0, 1) == 1 && XorByte(1, 4) == 5 && XorByte(5, 7) == 2 && XorByte(2, 10) == 8
    ensures XorByte(0, 2) == 2 && XorByte(2, 5) == 7 && XorByte(7, 8) == 15 && XorByte(15, 11) == 4
    ensures XorByte(0, 3) == 3 && XorByte(3, 6) == 5 && XorByte(5, 9) == 12 && XorByte(12, 12) == 0
  {
  }

  lemma Unmarked(x: seq<Byte>)
    requires |x| == 8
    ensures Marked(x, 0) == x
  {
    XorByteZero(x[7]);
    hide XorByte;
  }

  // Two blocks are wrapped in six rounds with the counts 1 to 12: each count stays with what
  // was in A at its step.
  lemma ExchangedWrap(x: seq<Byte>, y: seq<Byte>)
    requires |x| == |y| == 8
    ensures Blocks16(Exchange) && StandardWrap(Exchange, x + y)
         == [0xa6, 0xa6, 0xa6, 0xa6, 0xa6, 0xa6, 0xa6, 0xa6] + Marked(x, 8) + Marked(y, 4)
  {
    Counts();
    Sums();
    hide XorByte, CountByte, XorCount;
    Unmarked(x);
    Unmarked(y);
    Unmarked(IV);
    hide Marked;
    var s := Regs(IV, x + y);
    assert StandardSteps(Exchange, s, 0) == s;
    hide StandardSteps;
    Round(IV, x, y, s, 0, 0, 0, 0, 1, 2, 3, 5, 7, 5);
    Round(IV, x, y, s, 6, 5, 7, 5, 2, 15, 12, 8, 4, 0);
    assert 6 * (|x + y| / 8) == 12;
  }

  // Six steps bring everything back to its place, each with two counts more.
  lemma Round(a: seq<Byte>, x: seq<Byte>, y: seq<Byte>, s: Regs, k: nat, m: Byte, n: Byte, o: Byte, m1: Byte, n1: Byte,
              o1: Byte, m2: Byte, n2: Byte, o2: Byte)
    requires |a| == |x| == |y| == 8 && Blocks16(Exchange) && Shape(s) && s.r != [] && k % 2 == 0 && k < 100
    requires StandardSteps(Exchange, s, k) == Regs(Marked(a, o), Marked(x, m) + Marked(y, n))
    requires XorByte(m, CountByte(k + 1)) == m1 && XorByte(m1, CountByte(k + 4)) == m2
    requires XorByte(n, CountByte(k + 2)) == n1 && XorByte(n1, CountByte(k + 5)) == n2
    requires XorByte(o, CountByte(k + 3)) == o1 && XorByte(o1, CountByte(k + 6)) == o2
    ensures StandardSteps(Exchange, s, k + 6) == Regs(Marked(a, o2), Marked(x, m2) + Marked(y, n2))
  {
    hide XorByte, CountByte, XorCount, Marked, StandardSteps;
    MarkedMore(x, m, k + 1, m1);
    MarkedMore(y, n, k + 2, n1);
    TwoMore(Marked(a, o), Marked(x, m), Marked(y, n), s, k);
    MarkedMore(a, o, k + 3, o1);
    MarkedMore(x, m1, k + 4, m2);
    TwoMore(Marked(y, n1), Marked(a, o), Marked(x, m1), s, k + 2);
    MarkedMore(y, n1, k + 5, n2);
    MarkedMore(a, o1, k + 6, o2);
    TwoMore(Marked(x, m2), Marked(y, n1), Marked(a, o1), s, k + 4);
  }

  // A cipher that changes nothing, to have one.
  function Keep(x: seq<Byte>): seq<Byte> { x }

  // With it: 24 bytes that wrap nothing, from which the driver writes sixteen zeros as data.
  method UnwrapsWithoutCheck() returns (c: seq<Byte>, data: seq<Byte>)
    ensures |c| == 24 && data == seq(16, _ => 0)
    ensures forall q: seq<Byte> :: |q| == 16 ==> StandardWrap(Keep, q) != c
  {
    hide WrapSteps, UnwrapSteps, StandardWrap;
    var a, r := new Byte[8](_ => 0), new Byte[512](_ => 0);
    ghost var p, z := seq(16, _ => 0), seq(8, _ => 0);
    assert a[..] == z && r[8..24] == p && z[0] != IV[0];
    WrapRounds(Keep, a, r, 2);
    c := a[..] + r[8..24];
    ForeignUnwraps(Keep, Keep, p, z);
    var plain := new Byte[24];
    ghost var regs := Unwrap(Keep, plain, 24, c, Some(seq(512, _ => 0)));
    data := plain[..16];
  }

  // What Unwrap finds when it is given what Wrap wrote: the plaintext, with A back at its
  // initial value, for every plaintext whose wrapping has a one-byte length.
  lemma UnwrapOfWrap(e: Cipher, d: Cipher, p: seq<Byte>)
    requires Blocks16(e) && Blocks16(d) && Undoes(d, e)
    requires |p| % 8 == 0 && |p| <= 240
    ensures var c := StandardWrap(e, p);
            |c| == |p| + 8 && Unwrapped(d, c, |p| / 8) == Regs(IV, p)
  {
    UnwrapsBack(e, d, Regs(IV, p), |p| / 8);
    WrapIsStandard(e, Regs(IV, p), 6 * (|p| / 8));
    hide StandardSteps, WrapSteps, Unwrapped, Blocks16, Undoes;
  }

  lemma WholeBlocks(n: nat)
    requires n % 8 == 0
    ensures n / 8 * 8 == n && Blocks(n + 8) == n / 8
  {
    assert (n + 8) / 8 == n / 8 + 1;
  }

  // Wrap followed by unwrap gives the plaintext back.
  method WrapThenUnwrap(e: Cipher, d: Cipher, p: seq<Byte>, memory: seq<Byte>) returns (q: seq<Byte>)
    requires Blocks16(e) && Blocks16(d) && Undoes(d, e)
    requires |p| % 8 == 0 && |p| <= 240 && |memory| == 512
    ensures q == p
  {
    hide UnwrapSteps, Unwrapped, StandardWrap, Blocks16, Undoes, Blocks;
    WholeBlocks(|p|);
    var cipher, plain := new Byte[|p| + 8], new Byte[|p| + 8];
    Wrap(e, p, |p|, cipher);
    assert p[..|p|] == p && cipher[..|p| + 8] == cipher[..];
    UnwrapOfWrap(e, d, p);
    ghost var regs := Unwrap(d, plain, |p| + 8, cipher[..], Some(memory));
    q := plain[..|p|];
  }
}
