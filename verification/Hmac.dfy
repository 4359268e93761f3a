// HMAC, the PBKDF2 function F and the 802.11i PRF (common/md5.c, common/cmm_wpa.c).
module Hmac {
  import opened Words
  import opened Pieces
  import opened HashSpec
  import opened Memory
  import Md5
  import Sha1

  type Hash = seq<Byte> -> seq<Byte>

  // --- Section 2 of RFC 2104 ---

  // The key, hashed if it is longer than a block, padded with zeros and XORed with c.
  function PadKey(key: seq<Byte>, c: Byte): (p: seq<Byte>)
    ensures |p| == 64
  {
    seq(64, i requires 0 <= i < 64 => XorByte(if i < |key| then key[i] else 0, c))
  }

  function BlockKey(h: Hash, key: seq<Byte>): seq<Byte> {
    if |key| > 64 then h(key) else key
  }

  function HmacOf(h: Hash, key: seq<Byte>, text: seq<Byte>): seq<Byte> {
    var k := BlockKey(h, key);
    h(PadKey(k, 0x5c) + h(PadKey(k, 0x36) + text))
  }

  // Of a hash that changes nothing, keyed with a short key, both pads and the text show, the
  // outer pad first.
  lemma HmacShown(key: seq<Byte>, text: seq<Byte>, i: nat)
    requires |key| <= 64 && i < 64
    ensures var r := HmacOf(x => x, key, text);
            && |r| == 128 + |text| && r[128..] == text
            && (i < |key| ==> r[i] == XorByte(key[i], 0x5c) && r[64 + i] == XorByte(key[i], 0x36))
            && (i >= |key| ==> r[i] == 0x5c && r[64 + i] == 0x36)
  {
    XorZero(0x5c);
    XorZero(0x36);
    hide XorByte;
  }

  // A key longer than a block is as good as its hash.
  lemma LongKeyIsHashed(h: Hash, key: seq<Byte>, text: seq<Byte>)
    requires |key| > 64 && |h(key)| <= 64
    ensures HmacOf(h, key, text) == HmacOf(h, h(key), text)
  {
    hide PadKey;
  }

  lemma XorZero(c: Byte)
    ensures XorByte(0, c) == c
  {
  }

  // Both pads of a key of at most 64 bytes, as the two k_pad buffers hold them.
  method MakePads(key: seq<Byte>) returns (ipad: seq<Byte>, opad: seq<Byte>)
    requires |key| <= 64
    ensures ipad == PadKey(key, 0x36) && opad == PadKey(key, 0x5c)
  {
    hide XorByte;
    var k_ipad, k_opad := new Byte[65], new Byte[65];
    ghost var start := key + seq(65 - |key|, _ => 0);
    LoadPad(k_ipad, key);
    LoadPad(k_opad, key);
    var i := 0;
    while i < 64
      invariant 0 <= i <= 64
      invariant forall k :: 0 <= k < 64 ==> k_ipad[k] == if k < i then XorByte(start[k], 0x36) else start[k]
      invariant forall k :: 0 <= k < 64 ==> k_opad[k] == if k < i then XorByte(start[k], 0x5c) else start[k]
    {
      k_ipad[i] := XorByte(k_ipad[i], 0x36);
      k_opad[i] := XorByte(k_opad[i], 0x5c);
      i := i + 1;
    }
    ipad, opad := k_ipad[..64], k_opad[..64];
  }

  method LoadPad(pad: array<Byte>, key: seq<Byte>)
    requires pad.Length == 65 && |key| <= 64
    modifies pad
    ensures pad[..] == key + seq(65 - |key|, _ => 0)
  {
    ZeroMemory(pad, 0, 65);
    MoveMemory(pad, 0, key);
  }

  // Lengths a 32-bit count can pass to an update without wrapping its guard.
  predicate Short(s: seq<Byte>) { |s| + 128 < WORD_MODULUS }

  // hmac_md5
  method HmacMd5(key: seq<Byte>, data: seq<Byte>) returns (mac: seq<Byte>)
    requires Short(key) && Short(data)
    ensures mac == HmacOf(Md5.Digest, key, data) && |mac| == 16
  {
    hide Md5.Digest, PadKey;
    var k := key;
    if |key| > 64 {
      k := Md5.HashPieces([key]);
      ConcatOne(key);
    }
    var ipad, opad := MakePads(k);
    mac := Md5.HashPieces([ipad, data]);
    ConcatTwo(ipad, data);
    ghost var inner := mac;
    mac := Md5.HashPieces([opad, mac]);
    ConcatTwo(opad, inner);
  }

  // HMAC_SHA1; a long key is replaced in the caller's buffer by its hash.
  method HmacSha1(text: seq<Byte>, key: array<Byte>, keyLen: nat) returns (digest: seq<Byte>)
    requires keyLen <= key.Length && Short(text) && Short(key[..keyLen])
    modifies key
    ensures digest == HmacOf(Sha1.Digest, old(key[..keyLen]), text) && |digest| == 20
    ensures key[..keyLen] == KeyAfter(Sha1.Digest, old(key[..keyLen])) && key[keyLen..] == old(key[keyLen..])
  {
    hide Sha1.Digest, PadKey;
    var len := keyLen;
    ghost var k0 := key[..keyLen];
    ghost var above := key[keyLen..];
    if keyLen > 64 {
      var h := HashSha1([key[..keyLen]]);
      ConcatOne(k0);
      ghost var all := key[..];
      MoveMemory(key, 0, h);
      assert key[..] == h + all[20..];
      assert key[..20] == h && key[..keyLen] == h + k0[20..] && key[keyLen..] == above;
      len := 20;
    }
    var ipad, opad := MakePads(key[..len]);
    digest := HashSha1([ipad, text]);
    ConcatTwo(ipad, text);
    ghost var inner := digest;
    digest := HashSha1([opad, digest]);
    ConcatTwo(opad, inner);
  }

  // At most two short pieces stay far below 2^64 bits.
  method HashSha1(pieces: seq<seq<Byte>>) returns (digest: seq<Byte>)
    requires |pieces| <= 2 && forall i :: 0 <= i < |pieces| ==> |pieces[i]| + 63 < WORD_MODULUS
    ensures digest == Sha1.Digest(Concat(pieces)) && |digest| == 20
  {
    hide Sha1.Digest;
    if |pieces| == 2 {
      ConcatTwo(pieces[0], pieces[1]);
      assert pieces == [pieces[0], pieces[1]];
    } else if |pieces| == 1 {
      ConcatOne(pieces[0]);
      assert pieces == [pieces[0]];
    }
    digest := Sha1.HashPieces(pieces);
  }

  // --- F and PasswordHash (section 5.2 of RFC 2898) ---

  function XorBytes(a: seq<Byte>, b: seq<Byte>): (r: seq<Byte>)
    ensures |r| == |a|
  {
    seq(|a|, i requires 0 <= i < |a| => if i < |b| then XorByte(a[i], b[i]) else a[i])
  }

  // INT(i): four octets, most significant first.
  function Int4(n: nat): (b: seq<Byte>)
    ensures |b| == 4
  {
    [Octet(n, 3), Octet(n, 2), Octet(n, 1), Octet(n, 0)]
  }

  // The last octet is the lowest, and the octets move up by one when n grows by 256.
  lemma Int4Is(n: nat, low: nat)
    requires low < 256
    ensures Int4(0) == [0, 0, 0, 0]
    ensures Int4(256 * n + low) == Int4(n)[1..] + [low as bv8]
  {
    assert (256 * n + low) / 256 == n && (256 * n + low) % 256 == low;
    var m := 256 * n + low;
    assert Octet(m, 1) == Octet(n, 0) && Octet(m, 2) == Octet(n, 1) && Octet(m, 3) == Octet(n, 2);
    assert Octet(0, 3) == Octet(0, 2) == Octet(0, 1) == Octet(0, 0) == 0;
  }

  // U_1 = PRF(P, S || INT(i)), U_n = PRF(P, U_{n-1})
  function U(h: Hash, p: seq<Byte>, s: seq<Byte>, count: nat, n: nat): seq<Byte> {
    if n <= 1 then HmacOf(h, p, s + Int4(count)) else HmacOf(h, p, U(h, p, s, count, n - 1))
  }

  // U_1 xor ... xor U_c
  function Chain(h: Hash, p: seq<Byte>, s: seq<Byte>, count: nat, c: nat): seq<Byte> {
    if c <= 1 then U(h, p, s, count, 1) else XorBytes(Chain(h, p, s, count, c - 1), U(h, p, s, count, c))
  }

  // Of a hash that changes nothing, U_1 shows behind its pads the salt and the number.
  lemma FirstUShown(p: seq<Byte>, s: seq<Byte>, count: nat)
    requires |p| <= 64
    ensures var u := U(x => x, p, s, count, 1); |u| >= 128 && u[128..] == s + Int4(count)
  {
    HmacShown(p, s + Int4(count), 0);
    hide HmacOf, Int4;
  }

  lemma XorByteOrder(a: Byte, b: Byte)
    ensures XorByte(a, b) == XorByte(b, a)
  {
  }

  // Two iterations: the sum of U_1 and of the HMAC of it.
  lemma ChainOfTwo(h: Hash, p: seq<Byte>, s: seq<Byte>, count: nat)
    ensures var u := U(h, p, s, count, 1); var v := HmacOf(h, p, u);
            |u| == |v| ==> Chain(h, p, s, count, 2) == XorBytes(v, u)
  {
    var u := U(h, p, s, count, 1);
    var v := HmacOf(h, p, u);
    assert U(h, p, s, count, 2) == v && Chain(h, p, s, count, 2) == XorBytes(u, v);
    forall i | 0 <= i < |u| && i < |v| ensures XorByte(u[i], v[i]) == XorByte(v[i], u[i]) {
      XorByteOrder(u[i], v[i]);
    }
    hide XorByte, HmacOf;
  }

  // The C string in a buffer: what stands before the first zero.
  function StringIn(b: seq<Byte>): (s: seq<Byte>)
    ensures |s| <= |b| && b[..|s|] == s
  {
    if b == [] || b[0] == 0 then [] else [b[0]] + StringIn(b[1..])
  }

  method StringLength(b: array<Byte>) returns (n: nat)
    ensures n <= b.Length && b[..n] == StringIn(b[..])
  {
    n := 0;
    while n < b.Length && b[n] != 0
      invariant n <= b.Length && forall k :: 0 <= k < n ==> b[k] != 0
    {
      n := n + 1;
    }
    StringEnds(b[..], n);
  }

  lemma {:induction false} StringEnds(b: seq<Byte>, n: nat)
    requires n <= |b| && (forall k :: 0 <= k < n ==> b[k] != 0) && (n < |b| ==> b[n] == 0)
    ensures StringIn(b) == b[..n]
  {
    if n > 0 {
      StringEnds(b[1..], n - 1);
      assert b[..n] == [b[0]] + b[1..][..n - 1];
    }
  }

  // What one call of HMAC_SHA1 under the string in a buffer makes of the buffer, and n calls.
  function BufferAfter(h: Hash, b: seq<Byte>): seq<Byte> {
    KeyAfter(h, StringIn(b)) + b[|StringIn(b)|..]
  }

  function BufferAt(h: Hash, b: seq<Byte>, n: nat): seq<Byte> {
    if n == 0 then b else BufferAfter(h, BufferAt(h, b, n - 1))
  }

  // The driver's U and its chain: every call finds the buffer as the one before left it.
  function DrivenU(h: Hash, b: seq<Byte>, s: seq<Byte>, count: nat, n: nat): seq<Byte> {
    if n <= 1 then HmacOf(h, StringIn(b), s + Int4(count))
    else HmacOf(h, StringIn(BufferAt(h, b, n - 1)), DrivenU(h, b, s, count, n - 1))
  }

  function DrivenChain(h: Hash, b: seq<Byte>, s: seq<Byte>, count: nat, c: nat): seq<Byte> {
    if c <= 1 then DrivenU(h, b, s, count, 1)
    else XorBytes(DrivenChain(h, b, s, count, c - 1), DrivenU(h, b, s, count, c))
  }

  // A password of at most 64 characters stays in its buffer, and the chain is the standard's.
  lemma {:induction false} ShortPasswordStays(h: Hash, b: seq<Byte>, n: nat)
    requires |StringIn(b)| <= 64
    ensures BufferAt(h, b, n) == b
  {
    if n > 0 {
      ShortPasswordStays(h, b, n - 1);
      assert StringIn(b) + b[|StringIn(b)|..] == b;
    }
  }

  lemma {:induction false} ShortPasswordU(h: Hash, b: seq<Byte>, s: seq<Byte>, count: nat, n: nat)
    requires |StringIn(b)| <= 64
    ensures DrivenU(h, b, s, count, n) == U(h, StringIn(b), s, count, n)
  {
    hide HmacOf, StringIn, BufferAt;
    if n > 1 {
      ShortPasswordStays(h, b, n - 1);
      ShortPasswordU(h, b, s, count, n - 1);
    }
  }

  lemma {:induction false} ShortPasswordChain(h: Hash, b: seq<Byte>, s: seq<Byte>, count: nat, c: nat)
    requires |StringIn(b)| <= 64
    ensures DrivenChain(h, b, s, count, c) == Chain(h, StringIn(b), s, count, c)
  {
    hide XorBytes, StringIn, DrivenU, U;
    if c > 1 {
      ShortPasswordU(h, b, s, count, c);
      ShortPasswordChain(h, b, s, count, c - 1);
    } else {
      ShortPasswordU(h, b, s, count, 1);
    }
  }

  // HMAC_SHA1 under a password; it is strlen that finds its length, every time.
  method HmacString(text: seq<Byte>, password: array<Byte>) returns (digest: seq<Byte>)
    requires Short(text) && password.Length + 128 < WORD_MODULUS
    modifies password
    ensures digest == HmacOf(Sha1.Digest, StringIn(old(password[..])), text) && |digest| == 20
    ensures password[..] == BufferAfter(Sha1.Digest, old(password[..]))
  {
    hide Sha1.Digest, HmacOf, KeyAfter, StringIn;
    var n := StringLength(password);
    digest := HmacSha1(text, password, n);
    assert password[..] == password[..n] + password[n..];
  }

  // F
  method F(password: array<Byte>, ssid: seq<Byte>, iterations: nat, count: nat, output: array<Byte>, off: nat)
    requires password != output && password.Length + 128 < WORD_MODULUS
    requires |ssid| <= 32 && off + 20 <= output.Length
    modifies password, output
    ensures output[..off] == old(output[..off]) && output[off + 20..] == old(output[off + 20..])
    ensures output[off..off + 20] == DrivenChain(Sha1.Digest, old(password[..]), ssid, count, iterations)
    ensures password[..] == BufferAt(Sha1.Digest, old(password[..]), if iterations == 0 then 1 else iterations)
  {
    hide Sha1.Digest, HmacOf, XorBytes, Int4, BufferAfter, StringIn;
    ghost var b := password[..];
    ghost var before, after := output[..off], output[off + 20..];
    var digest1 := HmacString(ssid + Int4(count), password);
    assert password[..] == BufferAt(Sha1.Digest, b, 1) by { assert BufferAt(Sha1.Digest, b, 0) == b; }
    PutDigest(output, off, digest1);
    hide BufferAt;
    var i := 1;
    while i < iterations
      invariant 1 <= i && (i <= iterations || i == 1)
      invariant password[..] == BufferAt(Sha1.Digest, b, i) && |digest1| == 20
      invariant digest1 == DrivenU(Sha1.Digest, b, ssid, count, i)
      invariant output[..off] == before && output[off + 20..] == after
      invariant output[off..off + 20] == DrivenChain(Sha1.Digest, b, ssid, count, i)
      decreases iterations - i
    {
      var digest := HmacString(digest1, password);
      NextBuffer(Sha1.Digest, b, i);
      digest1 := digest;
      XorInto(output, off, digest);
      i := i + 1;
    }
  }

  lemma NextBuffer(h: Hash, b: seq<Byte>, n: nat)
    ensures BufferAt(h, b, n + 1) == BufferAfter(h, BufferAt(h, b, n))
  {
  }

  method PutDigest(output: array<Byte>, off: nat, digest: seq<Byte>)
    requires |digest| == 20 && off + 20 <= output.Length
    modifies output
    ensures output[..off] == old(output[..off]) && output[off + 20..] == old(output[off + 20..])
    ensures output[off..off + 20] == digest
  {
    MoveMemory(output, off, digest);
  }

  method XorInto(output: array<Byte>, off: nat, digest: seq<Byte>)
    requires |digest| == 20 && off + 20 <= output.Length
    modifies output
    ensures output[..off] == old(output[..off]) && output[off + 20..] == old(output[off + 20..])
    ensures output[off..off + 20] == XorBytes(old(output[off..off + 20]), digest)
  {
    hide XorByte;
    var j := 0;
    while j < 20
      invariant 0 <= j <= 20
      invariant forall k :: 0 <= k < output.Length && !(off <= k < off + j) ==> output[k] == old(output[k])
      invariant forall k :: off <= k < off + j ==> output[k] == XorByte(old(output[k]), digest[k - off])
    {
      output[off + j] := XorByte(output[off + j], digest[j]);
      j := j + 1;
    }
  }

  // 256 bits of key and 64 spare: F with counts 1 and 2.
  method PasswordHash(password: array<Byte>, ssid: seq<Byte>, output: array<Byte>) returns (ok: nat)
    requires password != output && password.Length + 128 < WORD_MODULUS && output.Length == 40
    modifies password, output
    ensures password[..] == old(password[..])
    ensures ok == if |StringIn(password[..])| > 63 || |ssid| > 32 then 0 else 1
    ensures ok == 0 ==> output[..] == old(output[..])
    ensures ok == 1 ==> var p := StringIn(password[..]);
              output[..] == Chain(Sha1.Digest, p, ssid, 1, 4096) + Chain(Sha1.Digest, p, ssid, 2, 4096)
  {
    hide Chain, DrivenChain, Sha1.Digest, StringIn, BufferAt;
    ghost var b := password[..];
    var n := StringLength(password);
    if n > 63 || |ssid| > 32 {
      return 0;
    }
    ShortPasswordStays(Sha1.Digest, b, 4096);
    ShortPasswordChain(Sha1.Digest, b, ssid, 1, 4096);
    ShortPasswordChain(Sha1.Digest, b, ssid, 2, 4096);
    F(password, ssid, 4096, 1, output, 0);
    assert output[..20] == output[0..20];
    F(password, ssid, 4096, 2, output, 20);
    assert output[..] == output[..20] + output[20..40];
    return 1;
  }

  // --- PRF (Annex H.3 of IEEE 802.11i-2004) ---

  // What a call of HMAC_SHA1 leaves in the caller's key buffer.
  function KeyAfter(h: Hash, key: seq<Byte>): (k: seq<Byte>)
  {
    if |key| > 64 then h(key) + key[if |key| < 20 then |key| else 20..] else key
  }

  // The octet that numbers the blocks, incremented as a byte.
  function Counter(i: nat): Byte {
    if i == 0 then 0 else Counter(i - 1) + 1
  }

  function PrfInput(prefix: seq<Byte>, data: seq<Byte>, i: nat): seq<Byte> {
    prefix + [0] + data + [Counter(i)]
  }

  // The standard: HMAC(key, prefix || 0 || data || i) for i = 0, 1, ...
  function PrfBlocks(h: Hash, key: seq<Byte>, prefix: seq<Byte>, data: seq<Byte>, i: nat, n: nat): seq<Byte>
    decreases n
  {
    if n == 0 then []
    else HmacOf(h, key, PrfInput(prefix, data, i)) + PrfBlocks(h, key, prefix, data, i + 1, n - 1)
  }

  // Of a hash that changes nothing, the four blocks of a transient key show behind their pads
  // what they are computed of.
  lemma PrfShown(key: seq<Byte>, prefix: seq<Byte>, data: seq<Byte>, i: nat)
    requires |key| <= 64 && i < 4
    ensures var r := PrfBlocks(x => x, key, prefix, data, i, 1);
            |r| >= 128 && r[128..] == prefix + [0] + data + [[0, 1, 2, 3][i]]
  {
    FirstCounters();
    HmacShown(key, PrfInput(prefix, data, i), 0);
    hide HmacOf, Counter;
    assert PrfBlocks(x => x, key, prefix, data, i + 1, 0) == [];
  }

  lemma FirstCounters()
    ensures Counter(0) == 0 && Counter(1) == 1 && Counter(2) == 2 && Counter(3) == 3
  {
    assert Counter(2) == Counter(1) + 1;
  }

  // The driver: the key buffer changes between the blocks.
  function PrfDriven(h: Hash, key: seq<Byte>, prefix: seq<Byte>, data: seq<Byte>, i: nat, n: nat): seq<Byte>
    decreases n
  {
    if n == 0 then []
    else HmacOf(h, key, PrfInput(prefix, data, i)) + PrfDriven(h, KeyAfter(h, key), prefix, data, i + 1, n - 1)
  }

  function PrfCount(len: nat): nat { (len + 19) / 20 }

  // PRF; memory says whether its 1024-byte scratch buffer could be allocated.  Without it
  // nothing is written, and the caller is not told.
  method Prf(key: array<Byte>, keyLen: nat, prefix: seq<Byte>, data: seq<Byte>, output: array<Byte>, len: nat,
             memory: bool)
    requires key != output && keyLen <= key.Length && Short(key[..keyLen])
    requires |prefix| + 1 + |data| + 1 <= 1024 && 20 * PrfCount(len) <= output.Length
    modifies key, output
    ensures !memory ==> key[..] == old(key[..]) && output[..] == old(output[..])
    ensures memory ==>
              output[..20 * PrfCount(len)] == PrfDriven(Sha1.Digest, old(key[..keyLen]), prefix, data, 0, PrfCount(len))
    ensures output[20 * PrfCount(len)..] == old(output[20 * PrfCount(len)..])
  {
    hide Sha1.Digest, HmacOf, KeyAfter, PrfDriven;
    if !memory {
      return;
    }
    var n := PrfCount(len);
    var input := prefix + [0] + data + [0];
    assert input == PrfInput(prefix, data, 0);
    hide PrfInput, PrfCount;
    ghost var k0 := key[..keyLen];
    var i, currentindex := 0, 0;
    ghost var total := PrfDriven(Sha1.Digest, k0, prefix, data, 0, n);
    assert output[..0] == [];
    while i < n
      invariant 0 <= i <= n && currentindex == 20 * i && Short(key[..keyLen])
      invariant input == PrfInput(prefix, data, i)
      invariant output[..currentindex] + PrfDriven(Sha1.Digest, key[..keyLen], prefix, data, i, n - i) == total
      invariant output[20 * n..] == old(output[20 * n..])
    {
      ghost var k, done := key[..keyLen], output[..currentindex];
      var digest := HmacSha1(input, key, keyLen);
      PrfGoesOn(done, total, Sha1.Digest, k, prefix, data, i, n - i);
      AppendDigest(output, currentindex, digest, 20 * n);
      currentindex := currentindex + 20;
      NextInput(prefix, data, i);
      input := input[|input| - 1 := input[|input| - 1] + 1];
      i := i + 1;
    }
    PrfDrivenNone(Sha1.Digest, key[..keyLen], prefix, data, n);
  }

  // The last octet counts up modulo 256.
  lemma NextInput(prefix: seq<Byte>, data: seq<Byte>, i: nat)
    ensures var x := PrfInput(prefix, data, i);
            |x| == |prefix| + |data| + 2 && x[|x| - 1 := x[|x| - 1] + 1] == PrfInput(prefix, data, i + 1)
  {
  }

  lemma PrfDrivenNone(h: Hash, key: seq<Byte>, prefix: seq<Byte>, data: seq<Byte>, i: nat)
    ensures PrfDriven(h, key, prefix, data, i, 0) == []
  {
  }

  method AppendDigest(output: array<Byte>, index: nat, digest: seq<Byte>, end: nat)
    requires |digest| == 20 && index + 20 <= end <= output.Length
    modifies output
    ensures output[..index + 20] == old(output[..index]) + digest && output[end..] == old(output[end..])
  {
    MoveMemory(output, index, digest);
  }

  lemma PrfGoesOn(done: seq<Byte>, total: seq<Byte>, h: Hash, key: seq<Byte>, prefix: seq<Byte>, data: seq<Byte>,
                  i: nat, n: nat)
    requires n > 0 && done + PrfDriven(h, key, prefix, data, i, n) == total
    ensures done + HmacOf(h, key, PrfInput(prefix, data, i))
          + PrfDriven(h, KeyAfter(h, key), prefix, data, i + 1, n - 1)
         == total
  {
    hide HmacOf, KeyAfter, PrfInput;
  }

  // With a key of at most one block the driver computes the standard's blocks.
  lemma {:induction false} ShortKeyPrf(h: Hash, key: seq<Byte>, prefix: seq<Byte>, data: seq<Byte>, i: nat, n: nat)
    requires |key| <= 64 || n <= 1
    ensures PrfDriven(h, key, prefix, data, i, n) == PrfBlocks(h, key, prefix, data, i, n)
    decreases n
  {
    if n > 0 {
      ShortKeyPrf(h, KeyAfter(h, key), prefix, data, i + 1, n - 1);
      if n == 1 {
        assert PrfDriven(h, KeyAfter(h, key), prefix, data, i + 1, 0) == [];
      }
    }
  }

  // A hash that tells the key in the buffer from the caller's key.
  function FirstPlusOne(m: seq<Byte>): (r: seq<Byte>)
    ensures |r| == 20 && r[0] == (if m == [] then 0 else m[0] + 1)
  {
    seq(20, _ => if m == [] then 0 else m[0] + 1)
  }

  lemma NextByteDiffers(x: Byte)
    ensures ((x + 1) ^ 0x5c) + 1 != ((x + 2) ^ 0x5c) + 1
  {
  }

  lemma FirstByteOfHmac(key: seq<Byte>, text: seq<Byte>)
    requires |key| > 64
    ensures |HmacOf(FirstPlusOne, key, text)| == 20
    ensures HmacOf(FirstPlusOne, key, text)[0] == ((key[0] + 1) ^ 0x5c) + 1
  {
    var k := FirstPlusOne(key);
    assert (PadKey(k, 0x5c) + FirstPlusOne(PadKey(k, 0x36) + text))[0] == k[0] ^ 0x5c;
  }

  lemma LongKeyPrfDiffers(key: seq<Byte>, prefix: seq<Byte>, data: seq<Byte>, n: nat)
    requires |key| > 64 && n >= 2
    ensures PrfDriven(FirstPlusOne, key, prefix, data, 0, n) != PrfBlocks(FirstPlusOne, key, prefix, data, 0, n)
  {
    hide HmacOf, PrfInput;
    var h, i1 := FirstPlusOne, PrfInput(prefix, data, 1);
    var k1 := KeyAfter(h, key);
    FirstByteOfHmac(key, PrfInput(prefix, data, 0));
    FirstByteOfHmac(key, i1);
    FirstByteOfHmac(k1, i1);
    assert k1[0] == key[0] + 1;
    NextByteDiffers(key[0]);
    assert k1[0] + 1 == key[0] + 2;
    var rest, rest' := PrfBlocks(h, key, prefix, data, 2, n - 2), PrfDriven(h, KeyAfter(h, k1), prefix, data, 2, n - 2);
    assert PrfBlocks(h, key, prefix, data, 1, n - 1) == HmacOf(h, key, i1) + rest;
    assert PrfDriven(h, k1, prefix, data, 1, n - 1) == HmacOf(h, k1, i1) + rest';
    assert PrfBlocks(h, key, prefix, data, 0, n)[20] == HmacOf(h, key, i1)[0];
    assert PrfDriven(h, key, prefix, data, 0, n)[20] == HmacOf(h, k1, i1)[0];
  }

  // Exactly when the output is the standard's, whatever the hash: the key fits one block,
  // or a single block of output is asked for.
  lemma PrfIsStandardIff(key: seq<Byte>, prefix: seq<Byte>, data: seq<Byte>, n: nat)
    ensures (forall h: Hash :: PrfDriven(h, key, prefix, data, 0, n) == PrfBlocks(h, key, prefix, data, 0, n))
            <==> |key| <= 64 || n <= 1
  {
    if |key| <= 64 || n <= 1 {
      forall h: Hash ensures PrfDriven(h, key, prefix, data, 0, n) == PrfBlocks(h, key, prefix, data, 0, n) {
        ShortKeyPrf(h, key, prefix, data, 0, n);
      }
    } else {
      LongKeyPrfDiffers(key, prefix, data, n);
    }
  }
}
