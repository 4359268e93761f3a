// The Michael message integrity code (common/rtmp_tkip.c).
module Michael {
  import opened Words

  datatype State = State(l: Word, r: Word)

  function SwapHalvesBits(x: bv32): bv32 { ((x & 0xff00ff00) >> 8) | ((x & 0x00ff00ff) << 8) }

  function SwapHalves(x: Word): Word { Word(SwapHalvesBits(x.bits)) }

  function Rotr(x: Word, s: bv32): Word
    requires s <= 32
  {
    Rotl(x, 32 - s)
  }

  // --- Section 8.3.2.3 of IEEE 802.11i-2004 ---

  // The block function b.
  function Mix(s: State): State {
    var r1 := Xor(s.r, Rotl(s.l, 17));
    var l1 := Add(s.l, r1);
    var r2 := Xor(r1, SwapHalves(l1));
    var l2 := Add(l1, r2);
    var r3 := Xor(r2, Rotl(l2, 3));
    var l3 := Add(l2, r3);
    var r4 := Xor(r3, Rotr(l3, 2));
    State(Add(l3, r4), r4)
  }

  function Block(s: State, w: Word): State { Mix(State(Xor(s.l, w), s.r)) }

  // The first n words of the message, least significant byte first.
  function Blocks(s: State, m: seq<Byte>, n: nat): State
    requires 4 * n <= |m|
  {
    if n == 0 then s else Block(Blocks(s, m, n - 1), LeWord(m, n - 1))
  }

  function Zeros(n: nat): (z: seq<Byte>)
    ensures |z| == n
  {
    seq(n, _ => 0)
  }

  // 0x5a, then the least number of zeros, but at least four, that fills a word.
  function Padded(m: seq<Byte>): (p: seq<Byte>)
    ensures |p| % 4 == 0
  {
    m + [0x5a] + Zeros(7 - |m| % 4)
  }

  function KeyState(key: seq<Byte>): State
    requires |key| == 8
  {
    State(LeWord(key, 0), LeWord(key, 1))
  }

  function Mic(key: State, m: seq<Byte>): (mic: seq<Byte>)
    ensures |mic| == 8
  {
    var s := Blocks(key, Padded(m), |Padded(m)| / 4);
    LeBytes([s.l, s.r])
  }

  // XSWAP exchanges the bytes of each half.
  lemma SwapHalvesIs(b0: Byte, b1: Byte, b2: Byte, b3: Byte)
    ensures SwapHalvesBits(LeBits(b0, b1, b2, b3)) == LeBits(b1, b0, b3, b2)
  {
  }

  // A value IEEE 802.11i-2004 lists: the MIC of the message "M" under this key.
  const TEST_KEY: seq<Byte> := [0x82, 0x92, 0x5c, 0x1c, 0xa1, 0xd1, 0x30, 0xb8]

  lemma TestVector()
    ensures Mic(KeyState(TEST_KEY), [0x4d]) == [0x43, 0x47, 0x21, 0xca, 0x40, 0x63, 0x9b, 0x3f]
  {
    TestWords();
    FirstMix();
    SecondMix();
    hide Mix, Xor, LeWord;
    var p := Padded([0x4d]);
    assert Blocks(KeyState(TEST_KEY), p, 0) == KeyState(TEST_KEY);
    assert Blocks(KeyState(TEST_KEY), p, 1) == Block(KeyState(TEST_KEY), LeWord(p, 0));
    assert Blocks(KeyState(TEST_KEY), p, 2) == Block(Block(KeyState(TEST_KEY), LeWord(p, 0)), LeWord(p, 1));
    TestBytes();
  }

  lemma TestWords()
    ensures LeWord(TEST_KEY, 0) == Word(0x1c5c9282) && LeWord(TEST_KEY, 1) == Word(0xb830d1a1)
    ensures var p := Padded([0x4d]);
            |p| == 8 && p[..] == [0x4d, 0x5a, 0, 0, 0, 0, 0, 0]
            && LeWord(p, 0) == Word(0x5a4d) && LeWord(p, 1) == Word(0)
  {
    var p := Padded([0x4d]);
    assert p == [0x4d, 0x5a, 0, 0, 0, 0, 0, 0];
  }

  lemma FirstMix()
    ensures Xor(Word(0x1c5c9282), Word(0x5a4d)) == Word(0x1c5cc8cf)
    ensures Mix(State(Word(0x1c5cc8cf), Word(0xb830d1a1))) == State(Word(0xa556433e), Word(0xd6ec7884))
  {
  }

  lemma SecondMix()
    ensures Xor(Word(0xa556433e), Word(0)) == Word(0xa556433e)
    ensures Mix(State(Word(0xa556433e), Word(0xd6ec7884))) == State(Word(0xca214743), Word(0x3f9b6340))
  {
  }

  lemma TestBytes()
    ensures LeBytes([Word(0xca214743), Word(0x3f9b6340)]) == [0x43, 0x47, 0x21, 0xca, 0x40, 0x63, 0x9b, 0x3f]
  {
  }

  // --- A difference in one word always shows ---

  function Minus(x: bv32, y: bv32): bv32 { x - y }

  lemma PlusIs(x: bv32, y: bv32)
    ensures Plus(x, y) == x + y
  {
  }

  lemma MinusBack(x: bv32, y: bv32)
    ensures Minus(x + y, y) == x
  {
  }

  lemma PlusUndone(x: bv32, y: bv32)
    ensures Minus(Plus(x, y), y) == x
  {
    hide Plus, Minus;
    PlusIs(x, y);
    MinusBack(x, y);
  }

  lemma AddRight(x: Word, y: Word, z: Word)
    requires Add(x, z) == Add(y, z)
    ensures x == y
  {
    hide Plus, Minus;
    PlusUndone(x.bits, z.bits);
    PlusUndone(y.bits, z.bits);
    assert x == Word(x.bits) && y == Word(y.bits);
  }

  lemma MixInjective(s: State, t: State)
    requires Mix(s) == Mix(t)
    ensures s == t
  {
    hide Add, Xor, Rotl, Rotr, SwapHalves;
    var r1, r1' := Xor(s.r, Rotl(s.l, 17)), Xor(t.r, Rotl(t.l, 17));
    var l1, l1' := Add(s.l, r1), Add(t.l, r1');
    var r2, r2' := Xor(r1, SwapHalves(l1)), Xor(r1', SwapHalves(l1'));
    var l2, l2' := Add(l1, r2), Add(l1', r2');
    var r3, r3' := Xor(r2, Rotl(l2, 3)), Xor(r2', Rotl(l2', 3));
    var l3, l3' := Add(l2, r3), Add(l2', r3');
    AddRight(l3, l3', Mix(s).r);
    XorRight(r3, r3', Rotr(l3, 2));
    AddRight(l2, l2', r3);
    XorRight(r2, r2', Rotl(l2, 3));
    AddRight(l1, l1', r2);
    XorRight(r1, r1', SwapHalves(l1));
    AddRight(s.l, t.l, r1);
    XorRight(s.r, t.r, Rotl(s.l, 17));
  }

  // Messages of one length that differ in exactly one word leave different states.
  lemma {:induction false} OneWordShows(key: State, a: seq<Byte>, b: seq<Byte>, n: nat, k: nat)
    requires 4 * n <= |a| == |b| && k < n && LeWord(a, k) != LeWord(b, k)
    requires forall i :: 0 <= i < n && i != k ==> LeWord(a, i) == LeWord(b, i)
    ensures Blocks(key, a, n) != Blocks(key, b, n)
  {
    hide Mix, LeWord, Xor;
    var x, y := Blocks(key, a, n - 1), Blocks(key, b, n - 1);
    var u, v := LeWord(a, n - 1), LeWord(b, n - 1);
    if k == n - 1 {
      SameBefore(key, a, b, k);
      XorLeft(x.l, u, v);
    } else {
      OneWordShows(key, a, b, n - 1, k);
      if State(Xor(x.l, u), x.r) == State(Xor(y.l, v), y.r) {
        XorRight(x.l, y.l, u);
      }
    }
    if Block(x, u) == Block(y, v) {
      MixInjective(State(Xor(x.l, u), x.r), State(Xor(y.l, v), y.r));
    }
  }

  lemma XorLeft(z: Word, x: Word, y: Word)
    requires x != y
    ensures Xor(z, x) != Xor(z, y)
  {
  }

  lemma {:induction false} SameBefore(key: State, a: seq<Byte>, b: seq<Byte>, n: nat)
    requires 4 * n <= |a| && 4 * n <= |b| && forall i :: 0 <= i < n ==> LeWord(a, i) == LeWord(b, i)
    ensures Blocks(key, a, n) == Blocks(key, b, n)
  {
    hide LeWord;
    if n > 0 {
      SameBefore(key, a, b, n - 1);
    }
  }

  // --- The engine ---

  // The bytes waiting for their word to fill.
  function Waiting(b: seq<Byte>): Word
    requires |b| < 4
  {
    if |b| == 0 then Word(0)
    else if |b| == 1 then Word(LeBits(b[0], 0, 0, 0))
    else if |b| == 2 then Word(LeBits(b[0], b[1], 0, 0))
    else Word(LeBits(b[0], b[1], b[2], 0))
  }

  function Shifted(u: Byte, n: nat): Word
    requires n < 4
  {
    if n == 0 then Word(u as bv32)
    else if n == 1 then Word((u as bv32) << 8)
    else if n == 2 then Word((u as bv32) << 16)
    else Word((u as bv32) << 24)
  }

  lemma WaitOne(u: Byte)
    ensures Or(Word(0), Shifted(u, 0)) == Word(LeBits(u, 0, 0, 0))
  {
  }

  lemma WaitTwo(b0: Byte, u: Byte)
    ensures Or(Word(LeBits(b0, 0, 0, 0)), Shifted(u, 1)) == Word(LeBits(b0, u, 0, 0))
  {
  }

  lemma WaitThree(b0: Byte, b1: Byte, u: Byte)
    ensures Or(Word(LeBits(b0, b1, 0, 0)), Shifted(u, 2)) == Word(LeBits(b0, b1, u, 0))
  {
  }

  lemma WaitFour(b0: Byte, b1: Byte, b2: Byte, u: Byte)
    ensures Or(Word(LeBits(b0, b1, b2, 0)), Shifted(u, 3)) == Word(LeBits(b0, b1, b2, u))
  {
  }

  lemma OneMoreWaits(b: seq<Byte>, u: Byte)
    requires |b| < 4
    ensures |b| < 3 ==> Or(Waiting(b), Shifted(u, |b|)) == Waiting(b + [u])
    ensures |b| == 3 ==> Or(Waiting(b), Shifted(u, 3)) == LeWord(b + [u], 0)
  {
    hide LeBits, Or, Shifted;
    if |b| == 0 {
      WaitOne(u);
    } else if |b| == 1 {
      WaitTwo(b[0], u);
    } else if |b| == 2 {
      WaitThree(b[0], b[1], u);
    } else {
      WaitFour(b[0], b[1], b[2], u);
    }
  }

  function Tail(m: seq<Byte>): (t: seq<Byte>)
    ensures |t| == |m| % 4
  {
    m[|m| - |m| % 4..]
  }

  lemma TailGrows(m: seq<Byte>, u: Byte)
    ensures |m| % 4 < 3 ==> Tail(m + [u]) == Tail(m) + [u] && |m + [u]| / 4 == |m| / 4
    ensures |m| % 4 == 3 ==> Tail(m + [u]) == [] && |m + [u]| / 4 == |m| / 4 + 1
                             && LeWord(m + [u], |m| / 4) == LeWord(Tail(m) + [u], 0)
  {
    hide LeBits;
    if |m| % 4 == 3 {
      var k := |m| / 4;
      assert |m| == 4 * k + 3;
      assert forall i :: 0 <= i < 4 ==> (m + [u])[4 * k + i] == (Tail(m) + [u])[i];
    }
  }

  lemma WordsKept(m: seq<Byte>, u: Byte, i: nat)
    requires 4 * i + 4 <= |m|
    ensures LeWord(m + [u], i) == LeWord(m, i)
  {
    hide LeBits;
  }

  lemma BlocksKept(s: State, m: seq<Byte>, u: Byte)
    ensures Blocks(s, m + [u], |m| / 4) == Blocks(s, m, |m| / 4)
  {
    forall i | 0 <= i < |m| / 4 ensures LeWord(m + [u], i) == LeWord(m, i) {
      WordsKept(m, u, i);
    }
    SameBefore(s, m + [u], m, |m| / 4);
  }

  lemma ByteAppended(s: State, m: seq<Byte>, u: Byte)
    ensures var n, waits := |m| % 4, Or(Waiting(Tail(m)), Shifted(u, |m| % 4));
            if n < 3
            then |m + [u]| % 4 == n + 1 && Waiting(Tail(m + [u])) == waits
                 && Blocks(s, m + [u], |m + [u]| / 4) == Blocks(s, m, |m| / 4)
            else |m + [u]| % 4 == 0 && Waiting(Tail(m + [u])) == Word(0)
                 && Blocks(s, m + [u], |m + [u]| / 4) == Block(Blocks(s, m, |m| / 4), waits)
  {
    hide Or, Shifted, LeWord, LeBits, Tail, Block, Waiting;
    OneMoreWaits(Tail(m), u);
    TailGrows(m, u);
    BlocksKept(s, m, u);
    EmptyWaits();
  }

  // TKIP_KEY_INFO
  class TkipKey {
    var k0: Word
    var k1: Word
    var l: Word
    var r: Word
    var m: Word
    var nBytesInM: nat
    const mic: array<Byte>
    // Everything appended since the key was set.
    ghost var msg: seq<Byte>

    ghost function Key(): State
      reads this
    {
      State(k0, k1)
    }

    ghost predicate Valid()
      reads this
    {
      mic.Length == 8 && nBytesInM == |msg| % 4
      && State(l, r) == Blocks(Key(), msg, |msg| / 4) && m == Waiting(Tail(msg))
    }

    constructor ()
      ensures Valid() && fresh(mic)
    {
      k0, k1, l, r, m := Word(0), Word(0), Word(0), Word(0), Word(0);
      nBytesInM, msg := 0, [];
      mic := new Byte[8];
    }

    // RTMPTkipSetMICKey
    method SetMicKey(key: seq<Byte>)
      requires mic.Length == 8 && |key| == 8
      modifies this
      ensures Valid() && Key() == KeyState(key) && msg == []
    {
      hide LeWord;
      k0 := GetUInt32(key[..4]);
      k1 := GetUInt32(key[4..]);
      WordSlices(key);
      l, r := k0, k1;
      nBytesInM, m := 0, Word(0);
      msg := [];
    }

    // RTMPTkipAppendByte
    method AppendByte(u: Byte)
      requires Valid()
      modifies this
      ensures Valid() && Key() == old(Key()) && msg == old(msg) + [u]
    {
      hide Or, Waiting, Shifted, Tail, Blocks, Block;
      ByteAppended(Key(), msg, u);
      m := Or(m, Shifted(u, nBytesInM));
      nBytesInM := nBytesInM + 1;
      if nBytesInM >= 4 {
        MixIn();
        m := Word(0);
        nBytesInM := 0;
      }
      msg := msg + [u];
    }

    method MixIn()
      modifies this`l, this`r
      ensures State(l, r) == Block(old(State(l, r)), m)
    {
      hide Add, Xor, Rotl, SwapHalves, Or;
      l := Xor(l, m);
      r := Xor(r, Rotl(l, 17));
      l := Add(l, r);
      r := Xor(r, SwapHalves(l));
      l := Add(l, r);
      r := Xor(r, Rotl(l, 3));
      l := Add(l, r);
      r := Xor(r, Rotl(l, 30));
      l := Add(l, r);
    }

    // RTMPTkipAppend
    method Append(src: seq<Byte>)
      requires Valid()
      modifies this
      ensures Valid() && Key() == old(Key()) && msg == old(msg) + src
    {
      hide Valid;
      var i := 0;
      while i < |src|
        invariant 0 <= i <= |src| && Valid() && Key() == old(Key())
        invariant msg == old(msg) + src[..i]
      {
        AppendByte(src[i]);
        i := i + 1;
      }
      assert src[..|src|] == src;
    }

    // The padding every message gets.
    method AppendLeast()
      requires Valid()
      modifies this
      ensures Valid() && Key() == old(Key()) && msg == old(msg) + [0x5a] + Zeros(4)
    {
      hide Valid;
      ghost var start := msg;
      AppendByte(0x5a);
      AppendByte(0);
      AppendByte(0);
      AppendByte(0);
      AppendByte(0);
      LeastPadding(start);
    }

    // RTMPTkipGetMIC
    method GetMic()
      requires Valid()
      modifies this, mic
      ensures mic[..] == Mic(Key(), old(msg)) && Key() == old(Key())
    {
      hide LeBytes, Blocks, Tail, Waiting, Zeros;
      ghost var start := msg;
      AppendLeast();
      ghost var k := 4;
      while nBytesInM != 0
        invariant Valid() && Key() == old(Key()) && 4 <= k <= 7 - |start| % 4
        invariant msg == start + [0x5a] + Zeros(k)
        decreases 7 - k
      {
        MorePadding(start, k);
        AppendByte(0);
        k := k + 1;
      }
      EnoughPadding(start, k);
      assert msg == Padded(start);
      PutUInt32(mic, 0, l);
      PutUInt32(mic, 4, r);
      TwoWords(l, r);
    }
  }

  lemma EmptyWaits()
    ensures Waiting([]) == Word(0)
  {
  }

  lemma LeastPadding(start: seq<Byte>)
    ensures start + [0x5a] + [0] + [0] + [0] + [0] == start + [0x5a] + Zeros(4)
  {
  }

  lemma ModOfWords(q: nat, x: nat)
    ensures (4 * q + x) % 4 == x % 4
  {
  }

  lemma FullIff(n: nat, k: nat)
    requires 4 <= k <= 7 - n % 4
    ensures (n + 1 + k) % 4 == 0 <==> k == 7 - n % 4
  {
    var q, x := n / 4, n % 4 + 1 + k;
    assert n + 1 + k == 4 * q + x;
    ModOfWords(q, x);
    assert 5 <= x <= 8;
  }

  lemma MorePadding(start: seq<Byte>, k: nat)
    requires 4 <= k <= 7 - |start| % 4 && (|start| + 1 + k) % 4 != 0
    ensures k < 7 - |start| % 4 && Zeros(k + 1) == Zeros(k) + [0]
  {
    FullIff(|start|, k);
  }

  lemma EnoughPadding(start: seq<Byte>, k: nat)
    requires 4 <= k <= 7 - |start| % 4 && (|start| + 1 + k) % 4 == 0
    ensures k == 7 - |start| % 4
  {
    FullIff(|start|, k);
  }

  lemma WordSlices(key: seq<Byte>)
    requires |key| == 8
    ensures LeWord(key[..4], 0) == LeWord(key, 0) && LeWord(key[4..], 0) == LeWord(key, 1)
  {
    hide LeBits;
  }

  lemma TwoWords(x: Word, y: Word)
    ensures LeBytes([x, y]) == LeBytes([x]) + LeBytes([y])
  {
    hide WordByte;
  }

  // RTMPTkipGetUInt32
  method GetUInt32(b: seq<Byte>) returns (res: Word)
    requires |b| == 4
    ensures res == LeWord(b, 0)
  {
    hide Or, Waiting, Shifted, LeWord;
    res := Word(0);
    EmptyWaits();
    var i := 0;
    while i < 4
      invariant 0 <= i <= 4
      invariant if i < 4 then res == Waiting(b[..i]) else res == LeWord(b, 0)
    {
      OneMoreWaits(b[..i], b[i]);
      assert b[..i] + [b[i]] == b[..i + 1];
      assert b[..4] == b;
      res := Or(res, Shifted(b[i], i));
      i := i + 1;
    }
  }

  function LowByte(w: Word): Byte { (w.bits & 0xff) as bv8 }
  function ShiftOnce(w: Word): Word { Word(w.bits >> 8) }
  function ShiftDown(w: Word, k: nat): Word {
    if k == 0 then w else ShiftOnce(ShiftDown(w, k - 1))
  }

  lemma ByteAfterShifts(w: Word, k: nat)
    requires k < 4
    ensures LowByte(ShiftDown(w, k)) == WordByte(w, k)
  {
    ShiftsByHand(w);
    RawShifts(w.bits);
    hide ShiftDown;
  }

  lemma ShiftsByHand(w: Word)
    ensures ShiftDown(w, 0) == w && ShiftDown(w, 1) == ShiftOnce(w)
    ensures ShiftDown(w, 2) == ShiftOnce(ShiftOnce(w)) && ShiftDown(w, 3) == ShiftOnce(ShiftOnce(ShiftOnce(w)))
  {
    hide ShiftOnce;
    assert ShiftDown(w, 3) == ShiftOnce(ShiftDown(w, 2));
  }

  lemma RawShifts(x: bv32)
    ensures (x >> 8) >> 8 == x >> 16 && ((x >> 8) >> 8) >> 8 == x >> 24
  {
  }

  // RTMPTkipPutUInt32
  method PutUInt32(dst: array<Byte>, off: nat, val: Word)
    requires off + 4 <= dst.Length
    modifies dst
    ensures dst[..] == old(dst[..off]) + LeBytes([val]) + old(dst[off + 4..])
  {
    hide LowByte, ShiftDown, ShiftOnce, WordByte;
    var v := val;
    ghost var b := LeBytes([val]);
    FirstShift(val);
    var i := 0;
    while i < 4
      invariant 0 <= i <= 4 && v == ShiftDown(val, i)
      invariant forall k :: 0 <= k < dst.Length ==> dst[k] == if off <= k < off + i then b[k - off] else old(dst[k])
    {
      ByteAfterShifts(val, i);
      NextShift(val, i);
      dst[off + i] := LowByte(v);
      v := ShiftOnce(v);
      i := i + 1;
    }
  }

  lemma FirstShift(w: Word)
    ensures ShiftDown(w, 0) == w
  {
  }

  lemma NextShift(w: Word, k: nat)
    ensures ShiftDown(w, k + 1) == ShiftOnce(ShiftDown(w, k))
  {
    hide ShiftOnce;
  }

  // --- MIC of a frame ---

  // Addresses, priority and three bytes of zero.
  function Header(da: seq<Byte>, sa: seq<Byte>, priority: Byte): seq<Byte> {
    da + sa + [priority, 0, 0, 0]
  }

  function PriorityBytes(p: Byte): seq<Byte> { LeBytes([Word(p as bv32)]) }

  lemma PriorityIsLow(p: Byte)
    ensures PriorityBytes(p) == [p, 0, 0, 0]
  {
    RawPriority(p);
    assert PriorityBytes(p)[0] == WordByte(Word(p as bv32), 0);
    assert PriorityBytes(p)[1] == WordByte(Word(p as bv32), 1);
    assert PriorityBytes(p)[2] == WordByte(Word(p as bv32), 2);
    assert PriorityBytes(p)[3] == WordByte(Word(p as bv32), 3);
  }

  lemma RawPriority(p: Byte)
    ensures var w := p as bv32;
            (w & 0xff) as bv8 == p && ((w >> 8) & 0xff) == 0 && ((w >> 16) & 0xff) == 0 && ((w >> 24) & 0xff) == 0
  {
  }

  // RTMPInitMICEngine
  method InitMicEngine(engine: TkipKey, da: seq<Byte>, sa: seq<Byte>, priority: Byte, micKey: seq<Byte>)
    requires engine.mic.Length == 8 && |da| == |sa| == 6 && |micKey| == 8
    modifies engine
    ensures engine.Valid() && engine.Key() == KeyState(micKey) && engine.msg == Header(da, sa, priority)
  {
    hide TkipKey.Valid, KeyState, LeBytes;
    PriorityIsLow(priority);
    engine.SetMicKey(micKey);
    engine.Append(da);
    engine.Append(sa);
    engine.Append(PriorityBytes(priority));
  }

  datatype Encap = NoEncap | Llc(bytes: seq<Byte>)

  predicate IsVlan(packet: seq<Byte>)
    requires |packet| >= 14
  {
    packet[12] == 0x81 && packet[13] == 0
  }

  function VlanOffset(packet: seq<Byte>): (n: nat)
    ensures n <= 4
  {
    if |packet| >= 14 && IsVlan(packet) then 4 else 0
  }

  // The bytes of the MSDU that goes on the air for an Ethernet packet.
  function Msdu(packet: seq<Byte>, encap: Encap): seq<Byte>
    requires |packet| >= 14 + VlanOffset(packet)
    requires encap.Llc? ==> |encap.bytes| >= 6
  {
    var v := VlanOffset(packet);
    (if encap.Llc? then encap.bytes[..6] + packet[12 + v..14 + v] else []) + packet[14 + v..]
  }

  // A VLAN tag makes no difference to it.
  lemma TagIsSkipped(packet: seq<Byte>, tag: seq<Byte>, encap: Encap)
    requires |packet| >= 14 && !IsVlan(packet) && |tag| == 4 && tag[0] == 0x81 && tag[1] == 0
    requires encap.Llc? ==> |encap.bytes| >= 6
    ensures Msdu(packet[..12] + tag + packet[12..], encap) == Msdu(packet, encap)
  {
    var p := packet[..12] + tag + packet[12..];
    assert IsVlan(p) && p[18..] == packet[14..] && p[16..18] == packet[12..14];
  }

  // Addresses and priority stand where section 8.3.2.3 of IEEE 802.11i-2004 puts them.
  lemma HeaderIs(da: seq<Byte>, sa: seq<Byte>, priority: Byte)
    requires |da| == |sa| == 6
    ensures var h := Header(da, sa, priority);
            |h| == 16 && h[..6] == da && h[6..12] == sa && h[12] == priority && h[13] == h[14] == h[15] == 0
  {
  }

  // RTMPCalculateMICValue
  method CalculateMic(engine: TkipKey, packet: seq<Byte>, up: Byte, encap: Encap, txMic: seq<Byte>)
    requires engine.mic.Length == 8 && |txMic| == 8
    requires |packet| >= 14 + VlanOffset(packet) && (encap.Llc? ==> |encap.bytes| >= 6)
    modifies engine, engine.mic
    ensures engine.mic[..] == Mic(KeyState(txMic), Header(packet[..6], packet[6..12], up) + Msdu(packet, encap))
  {
    hide TkipKey.Valid, KeyState, Mic;
    var vlanOffset := 0;
    if packet[12] == 0x81 && packet[13] == 0 {
      vlanOffset := 4;
    }
    InitMicEngine(engine, packet[..6], packet[6..12], up, txMic);
    ghost var head := engine.msg;
    if encap.Llc? {
      engine.Append(encap.bytes[..6]);
      engine.Append(packet[12 + vlanOffset..14 + vlanOffset]);
    }
    if |packet| - (14 + vlanOffset) > 0 {
      engine.Append(packet[14 + vlanOffset..]);
    }
    assert engine.msg == head + Msdu(packet, encap);
    engine.GetMic();
  }

  // RTMPTkipCompareMICValue
  method CompareMic(engine: TkipKey, src: seq<Byte>, da: seq<Byte>, sa: seq<Byte>, micKey: seq<Byte>, up: Byte,
                    len: nat)
    returns (ok: bool)
    requires engine.mic.Length == 8 && |da| == |sa| == 6 && |micKey| == 8 && len + 8 <= |src|
    modifies engine, engine.mic
    ensures ok <==> src[len..len + 8] == Mic(KeyState(micKey), Header(da, sa, up) + src[..len])
  {
    hide TkipKey.Valid, KeyState, Mic, Header;
    InitMicEngine(engine, da, sa, up, micKey);
    engine.Append(src[..len]);
    var oldMic := src[len..len + 8];
    engine.GetMic();
    ok := engine.mic[..] == oldMic;
  }

  // RTMPTkipCompareMICValueWithLLC
  method CompareMicWithLlc(engine: TkipKey, llc: seq<Byte>, src: seq<Byte>, da: seq<Byte>, sa: seq<Byte>,
                           micKey: seq<Byte>, len: nat) returns (ok: bool)
    requires engine.mic.Length == 8 && |da| == |sa| == 6 && |micKey| == 8 && len + 8 <= |src| && |llc| == 8
    modifies engine, engine.mic
    ensures var all := llc + src;
            ok <==> all[8 + len..8 + len + 8] == Mic(KeyState(micKey), Header(da, sa, 0) + all[..8 + len])
  {
    hide TkipKey.Valid, KeyState, Mic, Header;
    InitMicEngine(engine, da, sa, 0, micKey);
    ghost var head := engine.msg;
    engine.Append(llc);
    engine.Append(src[..len]);
    assert (llc + src)[..8 + len] == llc + src[..len];
    assert head + llc + src[..len] == head + (llc + src[..len]);
    var oldMic := src[len..len + 8];
    assert oldMic == (llc + src)[8 + len..8 + len + 8];
    engine.GetMic();
    ok := engine.mic[..] == oldMic;
  }

  // The MIC the sender computes, put behind the MSDU, is accepted by the receiver, and the
  // two receivers agree on a message whose first eight bytes are the LLC header.
  method CalculateThenCompare(tx: TkipKey, rx: TkipKey, packet: seq<Byte>, up: Byte, encap: Encap, key: seq<Byte>)
    returns (ok: bool, okLlc: bool)
    requires tx.mic.Length == rx.mic.Length == 8 && |key| == 8 && tx != rx && tx.mic != rx.mic
    requires |packet| >= 14 + VlanOffset(packet) && (encap.Llc? ==> |encap.bytes| >= 6)
    modifies tx, tx.mic, rx, rx.mic
    ensures ok && (encap.Llc? && up == 0 ==> okLlc)
  {
    hide KeyState, Mic, Header;
    CalculateMic(tx, packet, up, encap, key);
    var mic := tx.mic[..];
    var msdu := Msdu(packet, encap);
    var src := msdu + mic;
    assert src[..|msdu|] == msdu && src[|msdu|..|msdu| + 8] == mic;
    ok := CompareMic(rx, src, packet[..6], packet[6..12], key, up, |msdu|);
    okLlc := false;
    if encap.Llc? {
      assert src[..8] + src[8..] == src;
      okLlc := CompareMicWithLlc(rx, src[..8], src[8..], packet[..6], packet[6..12], key, |msdu| - 8);
    }
  }
}
