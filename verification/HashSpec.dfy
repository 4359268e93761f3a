// What a buffered Merkle-Damgard hash has to compute: the fold of its compression function
// over the padded message (sections 3.1-3.3 of RFC 1321, section 4 of RFC 3174).
module HashSpec {

  import opened Words

  type Compress = (seq<Word>, seq<Byte>) -> seq<Word>

  const WORD_MODULUS: int := 0x1_0000_0000

  // The compression function over consecutive 64-byte blocks.
  function Fold(f: Compress, h: seq<Word>, m: seq<Byte>): seq<Word>
    requires |m| % 64 == 0
    decreases |m|
  {
    if m == [] then h else Fold(f, f(h, m[..64]), m[64..])
  }

  function Zeros(n: nat): (z: seq<Byte>)
    ensures |z| == n && forall i :: 0 <= i < n ==> z[i] == 0
  {
    seq(n, _ => 0)
  }

  // The number of zero bytes that bring a message, the 0x80 byte and the length to a block.
  function PadZeros(n: nat): (k: nat)
    ensures k < 64 && (n + 1 + k + 8) % 64 == 0
  {
    (119 - n % 64) % 64
  }

  function Padded(m: seq<Byte>, len: seq<Byte>): (p: seq<Byte>)
    requires |len| == 8
    ensures |p| % 64 == 0
  {
    m + [0x80] + Zeros(PadZeros(|m|)) + len
  }

  // The whole blocks of a message, and what is left of it.
  function Whole(m: seq<Byte>): (w: seq<Byte>)
    ensures |w| % 64 == 0 && |w| <= |m| && |m| - |w| == |m| % 64
  {
    m[..|m| - |m| % 64]
  }

  function Rest(m: seq<Byte>): (r: seq<Byte>)
    ensures |r| == |m| % 64
  {
    m[|m| - |m| % 64..]
  }

  // Byte i of n, least significant first.
  function Octet(n: nat, i: nat): Byte {
    if i == 0 then (n % 256) as bv8 else Octet(n / 256, i - 1)
  }

  lemma {:induction false} NoOctet(i: nat)
    ensures Octet(0, i) == 0
  {
    if i > 0 {
      NoOctet(i - 1);
    }
  }

  lemma WholeAndRest(m: seq<Byte>, c: seq<Byte>, d: seq<Byte>)
    requires m == c + d && |c| % 64 == 0 && |d| < 64
    ensures Whole(m) == c && Rest(m) == d
  {
  }

  // The padded message ends in one block or two after the whole blocks.
  function LastBlocks(m: seq<Byte>, len: seq<Byte>): (p: seq<Byte>)
    requires |len| == 8
    ensures |p| == (if |m| % 64 < 56 then 64 else 128)
  {
    Rest(m) + [0x80] + Zeros(PadZeros(|m|)) + len
  }

  lemma PaddedIs(m: seq<Byte>, len: seq<Byte>)
    requires |len| == 8
    ensures Padded(m, len) == Whole(m) + LastBlocks(m, len)
  {
    assert m == Whole(m) + Rest(m);
  }

  lemma TwoBlocks(m: seq<Byte>, len: seq<Byte>, c: seq<Byte>, first: seq<Byte>, second: seq<Byte>)
    requires |len| == 8 && |m| % 64 >= 56 && c == Whole(m)
    requires first == Rest(m) + [0x80] + Zeros(63 - |m| % 64) && second == Zeros(56) + len
    ensures Padded(m, len) == c + first + second
  {
    PaddedIs(m, len);
    assert LastBlocks(m, len) == first + second;
  }

  lemma {:induction false} FoldJoin(f: Compress, h: seq<Word>, a: seq<Byte>, b: seq<Byte>)
    requires |a| % 64 == 0 && |b| % 64 == 0
    ensures Fold(f, h, a + b) == Fold(f, Fold(f, h, a), b)
    decreases |a|
  {
    if a == [] {
      assert a + b == b;
    } else {
      assert (a + b)[..64] == a[..64] && (a + b)[64..] == a[64..] + b;
      FoldJoin(f, f(h, a[..64]), a[64..], b);
    }
  }

  lemma FoldBlock(f: Compress, h: seq<Word>, a: seq<Byte>, b: seq<Byte>)
    requires |a| % 64 == 0 && |b| == 64
    ensures Fold(f, h, a + b) == f(Fold(f, h, a), b)
  {
    FoldJoin(f, h, a, b);
    assert b[..64] == b && b[64..] == [];
    assert Fold(f, Fold(f, h, a), b) == Fold(f, f(Fold(f, h, a), b), []);
  }

  // --- The 64-bit bit counter held in two 32-bit words ---

  function CountLow(n: nat): nat { (8 * n) % WORD_MODULUS }
  function CountHigh(n: nat): nat { (8 * n / WORD_MODULUS) % WORD_MODULUS }

  // The counter update of MD5Update and SHAUpdate: shift, add, carry, add the high part.
  function AddLow(low: nat, len: nat): nat { (low + (len * 8) % WORD_MODULUS) % WORD_MODULUS }
  function AddHigh(low: nat, high: nat, len: nat): nat {
    var carried := if AddLow(low, len) < low then (high + 1) % WORD_MODULUS else high;
    (carried + len / 0x2000_0000) % WORD_MODULUS
  }

  lemma SplitAt(n: nat) returns (q: nat, r: nat)
    ensures n == q * WORD_MODULUS + r && r < WORD_MODULUS && q == n / WORD_MODULUS && r == n % WORD_MODULUS
  {
    q, r := n / WORD_MODULUS, n % WORD_MODULUS;
  }

  lemma ModOfSum(q: int, r: int)
    requires 0 <= r < WORD_MODULUS
    ensures (q * WORD_MODULUS + r) % WORD_MODULUS == r && (q * WORD_MODULUS + r) / WORD_MODULUS == q
  {
  }

  lemma AddMod(x: int, y: int)
    ensures (x % WORD_MODULUS + y) % WORD_MODULUS == (x + y) % WORD_MODULUS
  {
  }

  lemma CountsAre(n: nat, q: nat, r: nat)
    requires 8 * n == q * WORD_MODULUS + r && r < WORD_MODULUS
    ensures CountLow(n) == r && CountHigh(n) == q % WORD_MODULUS
  {
    ModOfSum(q, r);
  }

  lemma Carried(x: nat, y: nat)
    requires x < WORD_MODULUS && y < WORD_MODULUS
    ensures (x + y) % WORD_MODULUS == if x + y < WORD_MODULUS then x + y else x + y - WORD_MODULUS
  {
    ModOfSum(if x + y < WORD_MODULUS then 0 else 1, (x + y) % WORD_MODULUS);
  }

  lemma AddsAre(low: nat, high: nat, len: nat, q: nat, r: nat)
    requires 8 * len == q * WORD_MODULUS + r && r < WORD_MODULUS && low < WORD_MODULUS
    ensures AddLow(low, len) == if low + r < WORD_MODULUS then low + r else low + r - WORD_MODULUS
    ensures AddHigh(low, high, len)
         == ((if low + r < WORD_MODULUS then high else (high + 1) % WORD_MODULUS) + q) % WORD_MODULUS
  {
    ModOfSum(q, r);
    Carried(low, r);
    assert len / 0x2000_0000 == q;
  }

  // Both words count the bits of the longer message, modulo 2^64.
  lemma CounterAdds(n: nat, len: nat)
    requires len < WORD_MODULUS
    ensures AddLow(CountLow(n), len) == CountLow(n + len)
    ensures AddHigh(CountLow(n), CountHigh(n), len) == CountHigh(n + len)
  {
    hide CountLow, CountHigh, AddLow, AddHigh;
    var nq, nr := SplitAt(8 * n);
    var lq, lr := SplitAt(8 * len);
    CountsAre(n, nq, nr);
    AddsAre(nr, nq % WORD_MODULUS, len, lq, lr);
    if nr + lr < WORD_MODULUS {
      CountsAre(n + len, nq + lq, nr + lr);
      AddMod(nq, lq);
    } else {
      CountsAre(n + len, nq + lq + 1, nr + lr - WORD_MODULUS);
      AddMod(nq, 1);
      AddMod(nq + 1, lq);
    }
  }

  lemma WrapIsSmaller(nq: nat, sq: nat)
    requires nq < WORD_MODULUS && nq <= sq <= nq + 16
    ensures sq % WORD_MODULUS < nq <==> sq >= WORD_MODULUS
  {
    if sq >= WORD_MODULUS {
      ModOfSum(1, sq - WORD_MODULUS);
    }
  }

  // Adding past 2^64 bits shows as a smaller high word, and only that does.
  lemma HighWordWraps(n: nat, len: nat)
    requires len < WORD_MODULUS && 8 * n < WORD_MODULUS * WORD_MODULUS
    ensures AddHigh(CountLow(n), CountHigh(n), len) < CountHigh(n) <==> 8 * (n + len) >= WORD_MODULUS * WORD_MODULUS
  {
    hide AddHigh, AddLow, CountLow;
    CounterAdds(n, len);
    HighUnwrapped(n);
    QuotientPast(8 * (n + len));
    QuotientGrows(8 * n, 8 * len);
    WrapIsSmaller(8 * n / WORD_MODULUS, 8 * (n + len) / WORD_MODULUS);
  }

  lemma HighUnwrapped(n: nat)
    requires 8 * n < WORD_MODULUS * WORD_MODULUS
    ensures CountHigh(n) == 8 * n / WORD_MODULUS < WORD_MODULUS
  {
    QuotientPast(8 * n);
  }

  lemma QuotientPast(x: nat)
    ensures x / WORD_MODULUS >= WORD_MODULUS <==> x >= WORD_MODULUS * WORD_MODULUS
  {
    var q, r := SplitAt(x);
  }

  lemma QuotientGrows(a: nat, b: nat)
    requires b < 8 * WORD_MODULUS
    ensures a / WORD_MODULUS <= (a + b) / WORD_MODULUS <= a / WORD_MODULUS + 16
  {
    var q, r := SplitAt(a);
    var p, s := SplitAt(a + b);
  }

  lemma ModOfBlocks(q: nat, r: nat)
    ensures (64 * q + r) % 64 == r % 64
  {
  }

  // The buffer fill derived from the low word.
  lemma FillFromCounter(n: nat)
    ensures (CountLow(n) / 8) % 64 == n % 64
  {
    hide CountLow;
    var q, r := n / 0x2000_0000, n % 0x2000_0000;
    CountsAre(n, q, 8 * r);
    assert 8 * r / 8 == r;
    var blocks := q * 0x80_0000;
    assert n == 64 * blocks + r;
    ModOfBlocks(blocks, r);
  }

  // The guard of the short branch of both updates, a 32-bit sum, lets through just the data
  // the 64-byte buffer has room for exactly when that sum does not wrap.
  lemma GuardRightIff(fill: nat, len: nat)
    requires fill < 64 && len < WORD_MODULUS
    ensures ((fill + len) % WORD_MODULUS < 64 ==> fill + len < 64) <==> fill + len < WORD_MODULUS
  {
    if fill + len >= WORD_MODULUS {
      ModOfSum(1, fill + len - WORD_MODULUS);
    }
  }

  lemma ModThenDiv1(q: nat, r: nat)
    ensures (q * WORD_MODULUS + r) % 256 == r % 256
    ensures (q * WORD_MODULUS + r) / 256 == q * 0x100_0000 + r / 256
    ensures (q * 0x100_0000 + r) % 256 == r % 256
    ensures (q * 0x100_0000 + r) / 256 == q * 0x1_0000 + r / 256
  {
  }

  lemma ModThenDiv2(q: nat, r: nat)
    ensures (q * 0x1_0000 + r) % 256 == r % 256
    ensures (q * 0x1_0000 + r) / 256 == q * 256 + r / 256
    ensures (q * 256 + r) % 256 == r % 256
    ensures r < 256 ==> (q * 256 + r) / 256 == q
  {
  }

  lemma ModThenDiv(n: nat)
    ensures n % WORD_MODULUS % 256 == n % 256
    ensures n % WORD_MODULUS / 256 % 256 == n / 256 % 256
    ensures n % WORD_MODULUS / 256 / 256 % 256 == n / 256 / 256 % 256
    ensures n % WORD_MODULUS / 256 / 256 / 256 % 256 == n / 256 / 256 / 256 % 256
    ensures n / 256 / 256 / 256 / 256 == n / WORD_MODULUS
  {
    var q, r := SplitAt(n);
    ModThenDiv1(q, r);
    ModThenDiv1(q, r / 256);
    ModThenDiv2(q, r / 256 / 256);
    ModThenDiv2(q, r / 256 / 256 / 256);
  }

  lemma LowOctets(n: nat, i: nat)
    requires i < 4
    ensures Octet(n % WORD_MODULUS, i) == Octet(n, i)
    ensures Octet(n, i + 4) == Octet(n / WORD_MODULUS, i)
  {
    ModThenDiv(n);
    if i == 0 {
    } else if i == 1 {
      OctetAt(n % WORD_MODULUS, 1);
      OctetAt(n, 1);
    } else if i == 2 {
      OctetAt(n % WORD_MODULUS, 2);
      OctetAt(n, 2);
    } else {
      OctetAt(n % WORD_MODULUS, 3);
      OctetAt(n, 3);
    }
    assert Octet(n, i + 4) == Octet(n / 256, i + 3) == Octet(n / 256 / 256, i + 2);
    assert Octet(n / 256 / 256, i + 2) == Octet(n / 256 / 256 / 256, i + 1);
    assert Octet(n / 256 / 256 / 256, i + 1) == Octet(n / 256 / 256 / 256 / 256, i);
  }

  lemma OctetAt(n: nat, i: nat)
    requires 1 <= i <= 3
    ensures i == 1 ==> Octet(n, i) == (n / 256 % 256) as bv8
    ensures i == 2 ==> Octet(n, i) == (n / 256 / 256 % 256) as bv8
    ensures i == 3 ==> Octet(n, i) == (n / 256 / 256 / 256 % 256) as bv8
  {
    if i == 1 {
      assert Octet(n, 1) == Octet(n / 256, 0);
    } else if i == 2 {
      assert Octet(n, 2) == Octet(n / 256, 1) == Octet(n / 256 / 256, 0);
    } else {
      assert Octet(n, 3) == Octet(n / 256, 2) == Octet(n / 256 / 256, 1) == Octet(n / 256 / 256 / 256, 0);
    }
  }

  // The length bytes written from the two words are those of the bit count.
  lemma CounterOctets(n: nat, i: nat)
    requires i < 4
    ensures Octet(CountLow(n), i) == Octet(8 * n, i)
    ensures Octet(CountHigh(n), i) == Octet(8 * n, i + 4)
  {
    LowOctets(8 * n, i);
    LowOctets(8 * n / WORD_MODULUS, i);
  }
}
