// Bytes and 32-bit words.  A word is boxed so that proofs about where words go need not
// look into their bits.
module Words {

  type Byte = bv8

  datatype Word = Word(bits: bv32)

  function XorByte(a: Byte, b: Byte): Byte { a ^ b }

  lemma XorByteTwice(a: Byte, b: Byte)
    ensures XorByte(XorByte(a, b), b) == a
  {
  }

  lemma XorByteLeft(a: Byte, b: Byte)
    ensures XorByte(a, XorByte(a, b)) == b
  {
  }

  function Plus(x: bv32, y: bv32): bv32 { x + y }

  function Add(x: Word, y: Word): Word { Word(Plus(x.bits, y.bits)) }
  function And(x: Word, y: Word): Word { Word(x.bits & y.bits) }
  function Or(x: Word, y: Word): Word { Word(x.bits | y.bits) }
  function Xor(x: Word, y: Word): Word { Word(x.bits ^ y.bits) }
  function Not(x: Word): Word { Word(!x.bits) }

  lemma XorRight(x: Word, y: Word, z: Word)
    requires Xor(x, z) == Xor(y, z)
    ensures x == y
  {
  }

  // CYCLIC_LEFT_SHIFT, ROL32
  function Rotl(w: Word, s: bv32): Word
    requires s <= 32
  {
    Word((w.bits << s) | (w.bits >> (32 - s)))
  }

  function LeBits(b0: Byte, b1: Byte, b2: Byte, b3: Byte): bv32 {
    (b0 as bv32) | ((b1 as bv32) << 8) | ((b2 as bv32) << 16) | ((b3 as bv32) << 24)
  }

  // Word i of a buffer, least and most significant byte first.
  function LeWord(b: seq<Byte>, i: nat): Word
    requires 4 * i + 4 <= |b|
  {
    Word(LeBits(b[4 * i], b[4 * i + 1], b[4 * i + 2], b[4 * i + 3]))
  }

  function BeWord(b: seq<Byte>, i: nat): Word
    requires 4 * i + 4 <= |b|
  {
    Word(LeBits(b[4 * i + 3], b[4 * i + 2], b[4 * i + 1], b[4 * i]))
  }

  // Byte k of a word, least significant first.
  function WordByte(w: Word, k: nat): Byte {
    if k == 0 then (w.bits & 0xff) as bv8
    else if k == 1 then ((w.bits >> 8) & 0xff) as bv8
    else if k == 2 then ((w.bits >> 16) & 0xff) as bv8
    else ((w.bits >> 24) & 0xff) as bv8
  }

  function LeBytes(ws: seq<Word>): (b: seq<Byte>)
    ensures |b| == 4 * |ws|
  {
    seq(4 * |ws|, i requires 0 <= i < 4 * |ws| => WordByte(ws[i / 4], i % 4))
  }

  function BeBytes(ws: seq<Word>): (b: seq<Byte>)
    ensures |b| == 4 * |ws|
  {
    seq(4 * |ws|, i requires 0 <= i < 4 * |ws| => WordByte(ws[i / 4], 3 - i % 4))
  }

  // The byte swap SHATransform does on its message words.
  function SwapBits(m: bv32): bv32 {
    ((m >> 24) & 0xff) | ((m >> 8) & 0xff00) | ((m << 8) & 0xff0000) | ((m << 24) & 0xff000000)
  }

  lemma SwapTurnsOrder(b0: Byte, b1: Byte, b2: Byte, b3: Byte)
    ensures SwapBits(LeBits(b0, b1, b2, b3)) == LeBits(b3, b2, b1, b0)
  {
  }

  // Taking a word apart and putting it together again.
  lemma WordOfItsBytes(w: bv32)
    ensures LeBits((w & 0xff) as bv8, ((w >> 8) & 0xff) as bv8, ((w >> 16) & 0xff) as bv8, ((w >> 24) & 0xff) as bv8)
         == w
  {
  }
}
