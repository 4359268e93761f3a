// WEP encapsulation and decapsulation (common/rtmp_wep.c), for any CRC table.
module Wep {
  import opened Words
  import opened WordFacts
  import opened Pieces
  import opened Arcfour
  import opened Memory

  const ONES: Word := Word(0xffffffff)
  const INIT_FCS: Word := Word(0xffffffff)
  const LENGTH_802_11: nat := 24

  // --- RTMP_CALC_FCS32 ---

  function IndexByte(f: Word, b: Byte): Byte { ((f.bits ^ (b as bv32)) & 0xff) as bv8 }

  function TableIndex(f: Word, b: Byte): Index { Value(IndexByte(f, b)) }

  function Shr8(f: Word): Word { Word(f.bits >> 8) }

  function FcsStep(table: seq<Word>, f: Word, b: Byte): Word
    requires |table| == 256
  {
    Xor(Shr8(f), table[TableIndex(f, b)])
  }

  function Fcs(table: seq<Word>, f: Word, data: seq<Byte>): Word
    requires |table| == 256
    decreases |data|
  {
    if data == [] then f else Fcs(table, FcsStep(table, f, data[0]), data[1..])
  }

  lemma {:induction false} FcsJoin(table: seq<Word>, f: Word, a: seq<Byte>, b: seq<Byte>)
    requires |table| == 256
    ensures Fcs(table, f, a + b) == Fcs(table, Fcs(table, f, a), b)
    decreases |a|
  {
    hide FcsStep;
    if a == [] {
      assert a + b == b;
    } else {
      assert (a + b)[1..] == a[1..] + b;
      FcsJoin(table, FcsStep(table, f, a[0]), a[1..], b);
    }
  }

  method CalcFcs32(table: seq<Word>, fcs: Word, cp: seq<Byte>) returns (r: Word)
    requires |table| == 256
    ensures r == Fcs(table, fcs, cp)
  {
    hide FcsStep, Fcs;
    r := fcs;
    FcsNone(table, fcs);
    var i := 0;
    while i < |cp|
      invariant 0 <= i <= |cp| && r == Fcs(table, fcs, cp[..i])
    {
      FcsMore(table, fcs, cp, i);
      r := FcsStep(table, r, cp[i]);
      i := i + 1;
    }
    assert cp[..|cp|] == cp;
  }

  lemma FcsNone(table: seq<Word>, f: Word)
    requires |table| == 256
    ensures Fcs(table, f, []) == f
  {
  }

  lemma FcsMore(table: seq<Word>, f: Word, data: seq<Byte>, i: nat)
    requires |table| == 256 && i < |data|
    ensures Fcs(table, f, data[..i + 1]) == FcsStep(table, Fcs(table, f, data[..i]), data[i])
  {
    hide FcsStep;
    assert data[..i + 1] == data[..i] + [data[i]];
    FcsJoin(table, f, data[..i], [data[i]]);
    assert [data[i]][1..] == [];
  }

  // --- A difference in one byte always shows ---

  function Top(w: Word): bv32 { w.bits >> 24 }

  // As the entries of the CRC-32 table do.
  ghost predicate TopBytesDiffer(table: seq<Word>)
    requires |table| == 256
  {
    forall b: Byte, c: Byte :: b != c ==> Top(table[Value(b)]) != Top(table[Value(c)])
  }

  lemma TopOfSum(f: Word, t: Word)
    ensures Top(Xor(Shr8(f), t)) == Top(t)
  {
  }

  function LowByte(f: Word): Byte { (f.bits & 0xff) as bv8 }

  lemma IndexIs(f: Word, b: Byte)
    ensures IndexByte(f, b) == XorByte(LowByte(f), b)
  {
  }

  function Joined(h: Word, l: Byte): Word { Word((h.bits << 8) | (l as bv32)) }

  lemma JoinedAgain(f: Word)
    ensures Joined(Shr8(f), LowByte(f)) == f
  {
  }

  lemma HighAndLow(f: Word, g: Word)
    requires Shr8(f) == Shr8(g) && LowByte(f) == LowByte(g)
    ensures f == g
  {
    hide Joined, Shr8, LowByte;
    JoinedAgain(f);
    JoinedAgain(g);
  }

  // From different words, or with different bytes, a step leads to different words.
  lemma FcsStepInjective(table: seq<Word>, f: Word, b: Byte, g: Word, c: Byte)
    requires |table| == 256 && TopBytesDiffer(table) && FcsStep(table, f, b) == FcsStep(table, g, c)
    ensures f == g <==> b == c
  {
    hide IndexByte, Value, Top, Xor, XorByte, LowByte, Shr8;
    TopOfSum(f, table[TableIndex(f, b)]);
    TopOfSum(g, table[TableIndex(g, c)]);
    assert IndexByte(f, b) == IndexByte(g, c);
    XorRight(Shr8(f), Shr8(g), table[TableIndex(f, b)]);
    SameIndex(f, b, g, c);
  }

  lemma SameIndex(f: Word, b: Byte, g: Word, c: Byte)
    requires Shr8(f) == Shr8(g) && IndexByte(f, b) == IndexByte(g, c)
    ensures f == g <==> b == c
  {
    hide IndexByte, XorByte, LowByte, Shr8;
    IndexIs(f, b);
    IndexIs(g, c);
    if b == c {
      XorByteTwice(LowByte(f), b);
      XorByteTwice(LowByte(g), b);
      HighAndLow(f, g);
    } else if f == g {
      XorByteLeft(LowByte(f), b);
      XorByteLeft(LowByte(f), c);
    }
  }

  // Messages of one length that differ in exactly one byte have different checksums.
  lemma {:induction false} OneByteShows(table: seq<Word>, f: Word, a: seq<Byte>, b: seq<Byte>, k: nat)
    requires |table| == 256 && TopBytesDiffer(table)
    requires k < |a| == |b| && a[k] != b[k] && forall i :: 0 <= i < |a| && i != k ==> a[i] == b[i]
    ensures Fcs(table, f, a) != Fcs(table, f, b)
    decreases |a|
  {
    hide FcsStep, TopBytesDiffer;
    if k > 0 {
      OneByteShows(table, FcsStep(table, f, a[0]), a[1..], b[1..], k - 1);
    } else {
      if FcsStep(table, f, a[0]) == FcsStep(table, f, b[0]) {
        FcsStepInjective(table, f, a[0], f, b[0]);
      }
      assert a[1..] == b[1..];
      WordShows(table, FcsStep(table, f, a[0]), FcsStep(table, f, b[0]), a[1..]);
    }
  }

  lemma {:induction false} WordShows(table: seq<Word>, f: Word, g: Word, a: seq<Byte>)
    requires |table| == 256 && TopBytesDiffer(table) && f != g
    ensures Fcs(table, f, a) != Fcs(table, g, a)
    decreases |a|
  {
    hide FcsStep, TopBytesDiffer;
    if a != [] {
      if FcsStep(table, f, a[0]) == FcsStep(table, g, a[0]) {
        FcsStepInjective(table, f, a[0], g, a[0]);
      }
      WordShows(table, FcsStep(table, f, a[0]), FcsStep(table, g, a[0]), a[1..]);
    }
  }

  // --- The CRC-32 table ---

  // Division by the CRC-32 polynomial, least significant bit first: one step and eight.
  function Half(x: Word): Word { Word(x.bits >> 1) }
  predicate Odd(x: Word) { x.bits & 1 == 1 }
  function Polynomial(x: Word): Word { if Odd(x) then Word(0xedb88320) else Word(0) }
  function Divided(x: Word): Word { Xor(Half(x), Polynomial(x)) }
  function Divided4(x: Word): Word { Divided(Divided(Divided(Divided(x)))) }
  function Divided8(x: Word): Word { Divided4(Divided4(x)) }

  function Wide(b: Byte): Word { Word(b as bv32) }

  ghost predicate IsCrcTable(table: seq<Word>)
    requires |table| == 256
  {
    forall b: Byte :: table[Value(b)] == Divided8(Wide(b))
  }

  lemma HalfSum(x: Word, y: Word)
    ensures Half(Xor(x, y)) == Xor(Half(x), Half(y))
  {
  }

  lemma OddSum(x: Word, y: Word)
    ensures Odd(Xor(x, y)) <==> Odd(x) != Odd(y)
  {
  }

  lemma PolynomialSums()
    ensures Xor(Word(0xedb88320), Word(0xedb88320)) == Word(0) && Xor(Word(0), Word(0)) == Word(0)
    ensures Xor(Word(0xedb88320), Word(0)) == Xor(Word(0), Word(0xedb88320)) == Word(0xedb88320)
  {
  }

  lemma PolynomialSum(x: Word, y: Word)
    ensures Polynomial(Xor(x, y)) == Xor(Polynomial(x), Polynomial(y))
  {
    hide Odd, Xor;
    OddSum(x, y);
    PolynomialSums();
  }

  lemma XorSwap(a: Word, b: Word, c: Word, d: Word)
    ensures Xor(Xor(a, b), Xor(c, d)) == Xor(Xor(a, c), Xor(b, d))
  {
  }

  lemma DividedSum(x: Word, y: Word)
    ensures Divided(Xor(x, y)) == Xor(Divided(x), Divided(y))
  {
    hide Half, Polynomial, Xor;
    HalfSum(x, y);
    PolynomialSum(x, y);
    XorSwap(Half(x), Half(y), Polynomial(x), Polynomial(y));
  }

  lemma Divided4Sum(x: Word, y: Word)
    ensures Divided4(Xor(x, y)) == Xor(Divided4(x), Divided4(y))
  {
    hide Divided, Xor;
    DividedSum(x, y);
    DividedSum(Divided(x), Divided(y));
    DividedSum(Divided(Divided(x)), Divided(Divided(y)));
    DividedSum(Divided(Divided(Divided(x))), Divided(Divided(Divided(y))));
  }

  lemma Divided8Sum(x: Word, y: Word)
    ensures Divided8(Xor(x, y)) == Xor(Divided8(x), Divided8(y))
  {
    hide Divided4, Xor;
    Divided4Sum(x, y);
    Divided4Sum(Divided4(x), Divided4(y));
  }

  // The part of a word above its lowest byte.
  function High(x: Word): Word { Word(x.bits & 0xffff_ff00) }

  lemma HighDivided(x: Word)
    ensures Divided8(High(x)) == Shr8(x)
  {
  }

  lemma TwoParts(x: Word)
    ensures x == Xor(High(x), Wide(LowByte(x)))
  {
  }

  lemma ByteAdded(f: Word, b: Byte)
    ensures Shr8(Xor(f, Wide(b))) == Shr8(f) && LowByte(Xor(f, Wide(b))) == IndexByte(f, b)
  {
  }

  // With that table a step divides the word, to which the byte was added, eight times.
  lemma FcsStepDivides(table: seq<Word>, f: Word, b: Byte)
    requires |table| == 256 && IsCrcTable(table)
    ensures FcsStep(table, f, b) == Divided8(Xor(f, Wide(b)))
  {
    hide Divided8, Value, IndexByte, Xor, High, LowByte, Wide, Shr8;
    var x := Xor(f, Wide(b));
    TwoParts(x);
    HighDivided(x);
    ByteAdded(f, b);
    Divided8Sum(High(x), Wide(LowByte(x)));
  }

  lemma TopNotZero(b: Byte)
    requires b != 0
    ensures Top(Divided8(Wide(b))) != 0
  {
  }

  lemma TopOfEqual(u: Word, v: Word)
    requires Top(u) == Top(v)
    ensures Top(Xor(u, v)) == 0
  {
  }

  lemma WideSum(b: Byte, c: Byte)
    ensures Wide(XorByte(b, c)) == Xor(Wide(b), Wide(c)) && (b != c ==> XorByte(b, c) != 0)
  {
  }

  lemma TopsDiffer(b: Byte, c: Byte)
    requires b != c
    ensures Top(Divided8(Wide(b))) != Top(Divided8(Wide(c)))
  {
    hide Top, Divided8, Wide, Xor, XorByte;
    WideSum(b, c);
    Divided8Sum(Wide(b), Wide(c));
    TopNotZero(XorByte(b, c));
    if Top(Divided8(Wide(b))) == Top(Divided8(Wide(c))) {
      TopOfEqual(Divided8(Wide(b)), Divided8(Wide(c)));
    }
  }

  lemma CrcTableTops(table: seq<Word>)
    requires |table| == 256 && IsCrcTable(table)
    ensures TopBytesDiffer(table)
  {
    hide Divided8, Value, Top, Wide;
    forall b: Byte, c: Byte | b != c ensures Top(table[Value(b)]) != Top(table[Value(c)]) {
      TopsDiffer(b, c);
    }
  }

  // The check value of CRC-32: that of the digits 1 to 9.
  const DIGITS: seq<Byte> := [0x31, 0x32, 0x33, 0x34, 0x35, 0x36, 0x37, 0x38, 0x39]

  lemma CheckValue(table: seq<Word>)
    requires |table| == 256 && IsCrcTable(table)
    ensures Xor(Fcs(table, INIT_FCS, DIGITS), ONES) == Word(0xcbf43926)
  {
  }

  // --- The encapsulated body ---

  // The integrity check value: the complemented CRC, least significant byte first.
  function Icv(table: seq<Word>, m: seq<Byte>): (b: seq<Byte>)
    requires |table| == 256
    ensures |b| == 4
  {
    LeBytes([Xor(Fcs(table, INIT_FCS, m), ONES)])
  }

  // That of the digits 1 to 9, least significant byte first.
  lemma CheckIcv(table: seq<Word>)
    requires |table| == 256 && IsCrcTable(table)
    ensures Icv(table, DIGITS) == [0x26, 0x39, 0xf4, 0xcb]
  {
    CheckValue(table);
    CheckBytes();
    hide Fcs, IsCrcTable, Xor, LeBytes;
  }

  lemma CheckBytes()
    ensures LeBytes([Word(0xcbf43926)]) == [0x26, 0x39, 0xf4, 0xcb]
  {
  }

  function KeyOctet(keyId: Byte): Byte { keyId << 6 }
  function KeyIndex(b: Byte): (i: nat)
    ensures i < 4
  {
    var k := (b & 0xc0) >> 6;
    assert k < 4;
    if k == 0 then 0 else if k == 1 then 1 else if k == 2 then 2 else 3
  }

  // IV, key index, and the data with its ICV encrypted under IV || key.
  function Body(table: seq<Word>, iv: seq<Byte>, keyId: Byte, key: seq<Byte>, m: seq<Byte>): seq<Byte>
    requires |table| == 256 && |iv| == 3
  {
    iv + [KeyOctet(keyId)] + Crypt(Initial(iv + key), m + Icv(table, m))
  }

  // PrivateInfo.FCSCRC32 and PrivateInfo.WEPCONTEXT
  class Engine {
    const table: seq<Word>
    const context: Context
    var fcs: Word

    ghost predicate Valid() reads context { |table| == 256 && context.Valid() }

    ghost predicate Apart(buffer: object) reads context { context.Apart(buffer) }

    // The data m has gone through since the engine was set up with seed: what is the state?
    ghost predicate Fed(seed: seq<Byte>, m: seq<Byte>)
      reads this, context, context.state
      requires Valid() && seed != []
    {
      fcs == Fcs(table, INIT_FCS, m) && context.Contents() == After(Initial(seed), |m|)
    }

    constructor (table: seq<Word>)
      requires |table| == 256
      ensures Valid() && this.table == table && fresh(context) && fresh(context.state)
    {
      this.table := table;
      context := new Context();
      fcs := Word(0);
    }

    // RTMPInitWepEngine (not CKIP), the three random bytes given as iv.
    method Init(key: seq<Byte>, keyId: Byte, iv: seq<Byte>, dest: array<Byte>)
      requires Valid() && |key| <= 13 && |iv| == 3 && dest.Length >= 4 && Apart(dest)
      modifies this, context, context.state, dest
      ensures Fed(iv + key, [])
      ensures dest[..] == iv + [KeyOctet(keyId)] + old(dest[4..])
    {
      hide Initial, Fcs, KeyOctet;
      fcs := INIT_FCS;
      FcsNone(table, INIT_FCS);
      context.Init(iv + key);
      NoSteps(context.Contents());
      MoveMemory(dest, 0, iv);
      dest[3] := KeyOctet(keyId);
    }

    // RTMPEncryptData
    method EncryptData(src: array<Byte>, dest: array<Byte>, off: nat, ghost seed: seq<Byte>, ghost m: seq<Byte>)
      requires Valid() && off + src.Length <= dest.Length && src != dest && Apart(src) && Apart(dest)
      requires seed != [] && Fed(seed, m)
      modifies this, context, context.state, dest
      ensures Fed(seed, m + old(src[..]))
      ensures Crypt(Initial(seed), m + old(src[..])) == Crypt(Initial(seed), m) + dest[off..off + src.Length]
      ensures dest[..off] == old(dest[..off]) && dest[off + src.Length..] == old(dest[off + src.Length..])
    {
      hide Initial, Fcs, After, Crypt;
      ghost var data := src[..];
      assert src[0..src.Length] == data;
      fcs := CalcFcs32(table, fcs, src[..]);
      context.Encrypt(dest, off, src, 0, src.Length);
      FcsJoin(table, INIT_FCS, m, data);
      CryptJoin(Initial(seed), m, data);
      AfterSum(Initial(seed), |m|, |data|);
    }

    // RTMPSetICV on a little-endian host; the running CRC is left complemented.
    method SetIcv(dest: array<Byte>, off: nat, ghost seed: seq<Byte>, ghost m: seq<Byte>)
      requires Valid() && off + 4 <= dest.Length && Apart(dest)
      requires seed != [] && Fed(seed, m)
      modifies this, context, context.state, dest
      ensures Crypt(Initial(seed), m + Icv(table, m)) == Crypt(Initial(seed), m) + dest[off..off + 4]
      ensures dest[..off] == old(dest[..off]) && dest[off + 4..] == old(dest[off + 4..])
      ensures fcs == Xor(old(fcs), ONES)
    {
      hide Initial, Fcs, After, Crypt, LeBytes;
      fcs := Xor(fcs, ONES);
      var bytes := LeBytes([fcs]);
      var memory := new Byte[4](i requires 0 <= i < 4 => bytes[i]);
      assert memory[0..4] == bytes;
      context.Encrypt(dest, off, memory, 0, 4);
      CryptJoin(Initial(seed), m, bytes);
    }

    // RTMPSoftDecryptWEP.  The payload is decrypted in place, four bytes towards its start; a
    // frame for which there is no key is left alone, however short.
    method SoftDecrypt(frame: array<Byte>, count: nat, keys: seq<seq<Byte>>) returns (ok: bool)
      requires Valid() && LENGTH_802_11 + 4 <= frame.Length && count <= frame.Length && Apart(frame)
      requires |keys| == 4 && forall k :: 0 <= k < 4 ==> |keys[k]| <= 13
      requires keys[KeyIndex(frame[27])] != [] ==> count >= LENGTH_802_11 + 8
      modifies this, context, context.state, frame
      ensures old(keys[KeyIndex(frame[27])] == []) ==> !ok && frame[..] == old(frame[..])
      ensures count >= LENGTH_802_11 + 8 ==> ok == Accepted(table, keys, old(frame[24..count]))
      ensures old(keys[KeyIndex(frame[27])] != []) ==>
                var p := old(frame[24..count]);
                frame[24..count] == Plain(keys, p) + p[|p| - 4..]
                && frame[..24] == old(frame[..24]) && frame[count..] == old(frame[count..])
    {
      hide Initial, Fcs, Crypt, LeWord, KeyIndex;
      var keyIdx := KeyIndex(frame[LENGTH_802_11 + 3]);
      if keys[keyIdx] == [] {
        assert count >= 32 ==> frame[24..count][3] == frame[27];
        return false;
      }
      ghost var p := frame[24..count];
      var payloadLen := count - LENGTH_802_11;
      assert frame[27] == p[3];
      context.Init(frame[24..27] + keys[keyIdx]);
      assert frame[24..27] == p[..3] && frame[28..count] == p[4..];
      ghost var was := frame[..];
      context.Encrypt(frame, 24, frame, 28, payloadLen - 4);
      ghost var plain := Plain(keys, p);
      assert frame[28..28 + (payloadLen - 4)] == frame[28..count];
      Decrypted(frame[..], was, p, plain, count);
      var trailFcs := LeWord(frame[24 + payloadLen - 8..24 + payloadLen - 4], 0);
      var crc32 := CalcFcs32(table, INIT_FCS, frame[24..24 + payloadLen - 8]);
      crc32 := Xor(crc32, ONES);
      ok := crc32 == trailFcs;
    }
  }

  // The 32-bit counts of the decryption and of the checksum loop.
  function DecryptCount(count: nat): int { (count - LENGTH_802_11 - 4) % 0x1_0000_0000 }
  function ChecksumCount(count: nat): int { (count - LENGTH_802_11 - 8) % 0x1_0000_0000 }

  lemma CountIs(n: int)
    requires -0x1_0000_0000 <= n < 0x1_0000_0000
    ensures n % 0x1_0000_0000 == if n < 0 then n + 0x1_0000_0000 else n
  {
  }

  // Both loops stay inside the frame, as their counts do not wrap, exactly for frames with
  // room for header, IV, checksum and frame check sequence.
  lemma CountsStayInsideIff(count: nat)
    requires count < 4096
    ensures DecryptCount(count) <= count <==> count >= LENGTH_802_11 + 4
    ensures ChecksumCount(count) <= count <==> count >= LENGTH_802_11 + 8
  {
    CountIs(count - LENGTH_802_11 - 4);
    CountIs(count - LENGTH_802_11 - 8);
  }

  // A frame of 31 bytes for which there is a key runs the checksum loop almost 2^32 times.
  lemma ShortFrameRunsOn()
    ensures DecryptCount(31) == 3 && ChecksumCount(31) == 0xffff_ffff
  {
    CountIs(31 - LENGTH_802_11 - 8);
  }

  lemma NoSteps(c: Rc4)
    requires Sized(c)
    ensures After(c, 0) == c
  {
  }

  lemma {:induction false} AfterSum(c: Rc4, m: nat, n: nat)
    requires Sized(c)
    ensures After(After(c, m), n) == After(c, m + n)
    decreases m
  {
    hide Next;
    if m > 0 {
      AfterSum(Next(c), m - 1, n);
    }
  }

  lemma Decrypted(now: seq<Byte>, was: seq<Byte>, p: seq<Byte>, plain: seq<Byte>, count: nat)
    requires 32 <= count <= |was| == |now| && p == was[24..count] && |plain| == count - 28
    requires now[24..count - 4] == plain && now[count - 4..] == was[count - 4..]
    ensures now[24..count] == plain + p[|p| - 4..] && now[count..] == was[count..]
    ensures now[count - 8..count - 4] == plain[|plain| - 4..] && now[24..count - 8] == plain[..|plain| - 4]
  {
    assert now[24..count] == now[24..count - 4] + now[count - 4..count];
    assert now[count - 4..count] == was[count - 4..count] == p[|p| - 4..];
    assert now[count..] == now[count - 4..][4..];
    assert was[count..] == was[count - 4..][4..];
    assert now[count - 8..count - 4] == now[24..count - 4][|plain| - 4..];
  }

  // --- What the decapsulation accepts ---

  // The payload decrypted under the IV it starts with and the key it names.
  function Plain(keys: seq<seq<Byte>>, p: seq<Byte>): (plain: seq<Byte>)
    requires |keys| == 4 && |p| >= 8
    ensures |plain| == |p| - 4
  {
    Crypt(Initial(p[..3] + keys[KeyIndex(p[3])]), p[4..])
  }

  predicate Accepted(table: seq<Word>, keys: seq<seq<Byte>>, p: seq<Byte>)
    requires |table| == 256 && |keys| == 4 && |p| >= 8
  {
    var plain := Plain(keys, p);
    keys[KeyIndex(p[3])] != []
    && Xor(Fcs(table, INIT_FCS, plain[..|plain| - 4]), ONES) == LeWord(plain[|plain| - 4..], 0)
  }

  lemma KeyIdBack(keyId: Byte)
    requires Value(keyId) < 4
    ensures KeyIndex(KeyOctet(keyId)) == Value(keyId)
  {
  }

  lemma BytesBack(b: seq<Byte>)
    requires |b| == 4
    ensures LeBytes([LeWord(b, 0)]) == b
  {
    BytesOfWord(b[0], b[1], b[2], b[3]);
  }

  lemma BytesOfWord(b0: Byte, b1: Byte, b2: Byte, b3: Byte)
    ensures var w := LeBits(b0, b1, b2, b3);
            (w & 0xff) as bv8 == b0 && ((w >> 8) & 0xff) as bv8 == b1
            && ((w >> 16) & 0xff) as bv8 == b2 && ((w >> 24) & 0xff) as bv8 == b3
  {
  }

  // A payload is accepted exactly when some data, encapsulated under the key and the IV it
  // carries, gives its encrypted part; that data is what stands in the buffer afterwards.
  lemma AcceptedIff(table: seq<Word>, keys: seq<seq<Byte>>, p: seq<Byte>)
    requires |table| == 256 && |keys| == 4 && |p| >= 8
    ensures var key, m := keys[KeyIndex(p[3])], Plain(keys, p)[..|p| - 8];
            Accepted(table, keys, p) <==> key != [] && p[4..] == Body(table, p[..3], p[3], key, m)[4..]
  {
    hide Fcs, Crypt, Initial, LeWord, LeBytes, KeyIndex, KeyOctet;
    var key, plain := keys[KeyIndex(p[3])], Plain(keys, p);
    var c, m, tail := Initial(p[..3] + key), plain[..|plain| - 4], plain[|plain| - 4..];
    var w := Xor(Fcs(table, INIT_FCS, m), ONES);
    CryptTwice(c, p[4..]);
    CryptTwice(c, m + Icv(table, m));
    BytesBack(tail);
    LeBytesBack(w);
    assert plain == m + tail && |m| == |p| - 8;
    assert Body(table, p[..3], p[3], key, m)[4..] == Crypt(c, m + Icv(table, m));
    assert p[4..] == Crypt(c, m + Icv(table, m)) ==> m + tail == m + Icv(table, m);
    assert m + tail == m + Icv(table, m) ==> (m + tail)[|m|..] == tail == Icv(table, m);
  }

  lemma {:induction false} CryptAt(c: Rc4, data: seq<Byte>, i: nat)
    requires Sized(c) && i < |data|
    ensures Crypt(c, data)[i] == XorByte(data[i], Output(Next(After(c, i))))
    decreases |data|
  {
    hide Next, Output, XorByte;
    if i > 0 {
      CryptAt(Next(c), data[1..], i - 1);
    }
  }

  lemma XorByteRight(a: Byte, b: Byte, k: Byte)
    requires XorByte(a, k) == XorByte(b, k)
    ensures a == b
  {
    XorByteTwice(a, k);
    XorByteTwice(b, k);
    hide XorByte;
  }

  predicate DifferAt(p: seq<Byte>, q: seq<Byte>, k: nat) {
    k < |p| == |q| && p[k] != q[k] && forall i :: 0 <= i < |p| && i != k ==> p[i] == q[i]
  }

  lemma CryptDiffersAt(c: Rc4, p: seq<Byte>, q: seq<Byte>, k: nat)
    requires Sized(c) && DifferAt(p, q, k)
    ensures DifferAt(Crypt(c, p), Crypt(c, q), k)
  {
    hide Crypt, Next, Output, XorByte, After;
    forall i | 0 <= i < |p| ensures Crypt(c, p)[i] == Crypt(c, q)[i] <==> i != k {
      CryptAt(c, p, i);
      CryptAt(c, q, i);
      if XorByte(p[i], Output(Next(After(c, i)))) == XorByte(q[i], Output(Next(After(c, i)))) {
        XorByteRight(p[i], q[i], Output(Next(After(c, i))));
      }
    }
  }

  lemma TailTells(a: seq<Byte>, b: seq<Byte>)
    requires |a| == |b| == 4 && LeWord(a, 0) == LeWord(b, 0)
    ensures a == b
  {
    hide LeWord, LeBytes;
    BytesBack(a);
    BytesBack(b);
  }

  // An accepted payload is no longer accepted once one encrypted byte, of the data or of the
  // check value, has changed.
  lemma OneByteIsNoticed(table: seq<Word>, keys: seq<seq<Byte>>, p: seq<Byte>, q: seq<Byte>, k: nat)
    requires |table| == 256 && TopBytesDiffer(table) && |keys| == 4
    requires |p| >= 8 && k >= 4 && DifferAt(p, q, k) && Accepted(table, keys, p)
    ensures !Accepted(table, keys, q)
  {
    hide Fcs, Crypt, Initial, LeWord, KeyIndex, TopBytesDiffer, Xor;
    assert p[..3] == q[..3] && DifferAt(p[4..], q[4..], k - 4);
    CryptDiffersAt(Initial(p[..3] + keys[KeyIndex(p[3])]), p[4..], q[4..], k - 4);
    var x, y := Plain(keys, p), Plain(keys, q);
    var n := |x| - 4;
    assert DifferAt(x, y, k - 4);
    if k - 4 < n {
      assert x[n..] == y[n..];
      OneByteShows(table, INIT_FCS, x[..n], y[..n], k - 4);
      if Accepted(table, keys, q) {
        XorRight(Fcs(table, INIT_FCS, x[..n]), Fcs(table, INIT_FCS, y[..n]), ONES);
      }
    } else {
      assert x[..n] == y[..n];
      assert x[n..][k - 4 - n] != y[n..][k - 4 - n];
      if LeWord(x[n..], 0) == LeWord(y[n..], 0) {
        TailTells(x[n..], y[n..]);
      }
    }
  }

  // Every body the engine builds is accepted and gives its data back.
  lemma BuiltIsAccepted(table: seq<Word>, keys: seq<seq<Byte>>, iv: seq<Byte>, keyId: Byte, m: seq<Byte>)
    requires |table| == 256 && |keys| == 4 && |iv| == 3 && Value(keyId) < 4 && keys[Value(keyId)] != []
    ensures var p := Body(table, iv, keyId, keys[Value(keyId)], m);
            |p| == |m| + 8 && Accepted(table, keys, p) && Plain(keys, p)[..|m|] == m
  {
    hide Fcs, Crypt, Initial, LeWord, LeBytes, KeyIndex, KeyOctet, Value;
    var key := keys[Value(keyId)];
    var c, all := Initial(iv + key), m + Icv(table, m);
    var p := Body(table, iv, keyId, key, m);
    KeyIdBack(keyId);
    assert p[..3] == iv && p[3] == KeyOctet(keyId) && p[4..] == Crypt(c, all);
    CryptTwice(c, all);
    assert all[..|m|] == m && all[|m|..] == Icv(table, m);
    LeBytesBack(Xor(Fcs(table, INIT_FCS, m), ONES));
  }

  // Data is encapsulated piece by piece, as the shared-key authentication frame is.
  method BuildBody(engine: Engine, key: seq<Byte>, keyId: Byte, iv: seq<Byte>, pieces: seq<seq<Byte>>)
    returns (body: array<Byte>)
    requires engine.Valid() && |key| <= 13 && |iv| == 3
    modifies engine, engine.context, engine.context.state
    ensures fresh(body) && body[..] == Body(engine.table, iv, keyId, key, Concat(pieces))
  {
    hide Body, Initial, Crypt, Fcs, KeyOctet;
    var total := TotalLength(pieces);
    body := new Byte[4 + total + 4];
    engine.Init(key, keyId, iv, body);
    EncryptPieces(engine, pieces, body, iv + key);
    ghost var m := Concat(pieces);
    ghost var was := body[..];
    engine.SetIcv(body, 4 + total, iv + key, m);
    assert body[4..4 + total] == was[4..4 + total];
    assert body[4 + total..] == body[4 + total..4 + total + 4];
    BodyParts(engine.table, iv, keyId, key, m, body[..], was[4..4 + total]);
  }

  method EncryptPieces(engine: Engine, pieces: seq<seq<Byte>>, body: array<Byte>, ghost seed: seq<Byte>)
    requires engine.Valid() && seed != [] && engine.Apart(body) && body.Length == |Concat(pieces)| + 8
    requires engine.Fed(seed, [])
    modifies engine, engine.context, engine.context.state, body
    ensures engine.Fed(seed, Concat(pieces)) && body[..4] == old(body[..4])
    ensures body[4..4 + |Concat(pieces)|] == Crypt(Initial(seed), Concat(pieces))
  {
    hide Initial, Crypt, Fcs, After;
    NothingYet(seed);
    var i, off := 0, 4;
    while i < |pieces|
      invariant 0 <= i <= |pieces| && engine.Valid()
      invariant engine.Fed(seed, Concat(pieces[..i])) && off == 4 + |Concat(pieces[..i])|
      invariant body[..4] == old(body[..4])
      invariant |Concat(pieces[..i])| <= |Concat(pieces)|
      invariant body[4..off] == Crypt(Initial(seed), Concat(pieces[..i]))
    {
      ConcatMore(pieces, i);
      OnePiece(engine, pieces[i], body, off, seed, Concat(pieces[..i]));
      off := off + |pieces[i]|;
      i := i + 1;
    }
    assert pieces[..|pieces|] == pieces;
  }

  method OnePiece(engine: Engine, piece: seq<Byte>, body: array<Byte>, off: nat, ghost seed: seq<Byte>,
                  ghost m: seq<Byte>)
    requires engine.Valid() && seed != [] && engine.Apart(body) && 4 <= off && off + |piece| <= body.Length
    requires engine.Fed(seed, m) && body[4..off] == Crypt(Initial(seed), m)
    modifies engine, engine.context, engine.context.state, body
    ensures engine.Fed(seed, m + piece) && body[..4] == old(body[..4])
    ensures body[4..off + |piece|] == Crypt(Initial(seed), m + piece)
  {
    hide Initial, Crypt, Fcs, After;
    var src := new Byte[|piece|](k requires 0 <= k < |piece| => piece[k]);
    assert src[..] == piece;
    ghost var was := body[..];
    engine.EncryptData(src, body, off, seed, m);
    assert body[..off] == was[..off];
    assert body[..4] == body[..off][..4] && body[4..off] == body[..off][4..];
    assert body[4..off + |piece|] == body[4..off] + body[off..off + |piece|];
  }

  lemma BodyParts(table: seq<Word>, iv: seq<Byte>, keyId: Byte, key: seq<Byte>, m: seq<Byte>, b: seq<Byte>,
                  head: seq<Byte>)
    requires |table| == 256 && |iv| == 3 && |b| == 8 + |m| && |head| == |m|
    requires b[..4] == iv + [KeyOctet(keyId)] && b[4..4 + |m|] == head
    requires Crypt(Initial(iv + key), m + Icv(table, m)) == head + b[4 + |m|..]
    ensures b == Body(table, iv, keyId, key, m)
  {
    hide Crypt, Initial, Icv, KeyOctet;
    assert b == b[..4] + (b[4..4 + |m|] + b[4 + |m|..]);
  }

  lemma NothingYet(seed: seq<Byte>)
    requires seed != []
    ensures Crypt(Initial(seed), []) == [] == Concat<Byte>([])
  {
  }

  method TotalLength(pieces: seq<seq<Byte>>) returns (n: nat)
    ensures n == |Concat(pieces)|
  {
    n := 0;
    var i := 0;
    while i < |pieces|
      invariant 0 <= i <= |pieces| && n == |Concat(pieces[..i])|
    {
      ConcatMore(pieces, i);
      n := n + |pieces[i]|;
      i := i + 1;
    }
    assert pieces[..|pieces|] == pieces;
  }

  // Sender and receiver together: any header, any data cut in any way, any key in its slot.
  method BuildThenDecrypt(sender: Engine, receiver: Engine, header: seq<Byte>, keys: seq<seq<Byte>>, keyId: Byte,
                          iv: seq<Byte>, pieces: seq<seq<Byte>>) returns (ok: bool, data: seq<Byte>)
    requires sender.Valid() && receiver.Valid() && sender.table == receiver.table
    requires |header| == 24 && |iv| == 3 && |keys| == 4 && forall k :: 0 <= k < 4 ==> |keys[k]| <= 13
    requires Value(keyId) < 4 && keys[Value(keyId)] != []
    modifies sender, sender.context, sender.context.state, receiver, receiver.context, receiver.context.state
    ensures ok && data == Concat(pieces)
  {
    hide Body, Accepted, Plain, Value;
    var body := BuildBody(sender, keys[Value(keyId)], keyId, iv, pieces);
    BuiltIsAccepted(sender.table, keys, iv, keyId, Concat(pieces));
    ghost var p := body[..];
    var frame := new Byte[24 + body.Length];
    MoveMemory(frame, 0, header);
    MoveMemory(frame, 24, body[..]);
    assert frame[24..frame.Length] == p;
    ok := receiver.SoftDecrypt(frame, frame.Length, keys);
    data := frame[24..frame.Length - 8];
    KeyNamed(sender.table, keys, p);
    assert frame[24..frame.Length][..|p| - 8] == data;
  }

  lemma KeyNamed(table: seq<Word>, keys: seq<seq<Byte>>, p: seq<Byte>)
    requires |table| == 256 && |keys| == 4 && |p| >= 8 && Accepted(table, keys, p)
    ensures keys[KeyIndex(p[3])] != [] && |Plain(keys, p)| == |p| - 4
  {
  }
}
