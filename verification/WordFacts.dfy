// What the word operations mean.
module WordFacts {
  import opened Words

  // --- Rotation ---

  // One turn to the left: doubling modulo 2^32, the bit that falls out coming in again as the
  // lowest one.
  function Turn(w: Word): Word { Word(w.bits + w.bits + (w.bits >> 31)) }

  function Turns(w: Word, n: bv32): Word {
    if n == 0 then w else Turn(Turns(w, n - 1))
  }

  // CYCLIC_LEFT_SHIFT and ROL32 turn a word to the left s times.
  lemma {:induction false} RotlTurns(w: Word, s: bv32)
    requires s <= 32
    ensures Rotl(w, s) == Turns(w, s)
  {
    hide Turn, Rotl;
    if s == 0 {
      Rotl0(w);
    } else {
      RotlTurns(w, s - 1);
      RotlNext(w, s - 1);
    }
  }

  lemma Rotl0(w: Word)
    ensures Rotl(w, 0) == w
  {
  }

  lemma RotlNext(w: Word, s: bv32)
    requires s < 32
    ensures Rotl(w, s + 1) == Turn(Rotl(w, s))
  {
    hide Turn, Rotl;
    match s
    case 0 => Rotl1(w);
    case 1 => Rotl2(w);
    case 2 => Rotl3(w);
    case 3 => Rotl4(w);
    case 4 => Rotl5(w);
    case 5 => Rotl6(w);
    case 6 => Rotl7(w);
    case 7 => Rotl8(w);
    case 8 => Rotl9(w);
    case 9 => Rotl10(w);
    case 10 => Rotl11(w);
    case 11 => Rotl12(w);
    case 12 => Rotl13(w);
    case 13 => Rotl14(w);
    case 14 => Rotl15(w);
    case 15 => Rotl16(w);
    case 16 => Rotl17(w);
    case 17 => Rotl18(w);
    case 18 => Rotl19(w);
    case 19 => Rotl20(w);
    case 20 => Rotl21(w);
    case 21 => Rotl22(w);
    case 22 => Rotl23(w);
    case 23 => Rotl24(w);
    case 24 => Rotl25(w);
    case 25 => Rotl26(w);
    case 26 => Rotl27(w);
    case 27 => Rotl28(w);
    case 28 => Rotl29(w);
    case 29 => Rotl30(w);
    case 30 => Rotl31(w);
    case 31 => Rotl32(w);
    case _ =>
  }

  lemma Rotl1(w: Word)
    ensures Rotl(w, 1) == Turn(Rotl(w, 0))
  {
  }

  lemma Rotl2(w: Word)
    ensures Rotl(w, 2) == Turn(Rotl(w, 1))
  {
  }

  lemma Rotl3(w: Word)
    ensures Rotl(w, 3) == Turn(Rotl(w, 2))
  {
  }

  lemma Rotl4(w: Word)
    ensures Rotl(w, 4) == Turn(Rotl(w, 3))
  {
  }

  lemma Rotl5(w: Word)
    ensures Rotl(w, 5) == Turn(Rotl(w, 4))
  {
  }

  lemma Rotl6(w: Word)
    ensures Rotl(w, 6) == Turn(Rotl(w, 5))
  {
  }

  lemma Rotl7(w: Word)
    ensures Rotl(w, 7) == Turn(Rotl(w, 6))
  {
  }

  lemma Rotl8(w: Word)
    ensures Rotl(w, 8) == Turn(Rotl(w, 7))
  {
  }

  lemma Rotl9(w: Word)
    ensures Rotl(w, 9) == Turn(Rotl(w, 8))
  {
  }

  lemma Rotl10(w: Word)
    ensures Rotl(w, 10) == Turn(Rotl(w, 9))
  {
  }

  lemma Rotl11(w: Word)
    ensures Rotl(w, 11) == Turn(Rotl(w, 10))
  {
  }

  lemma Rotl12(w: Word)
    ensures Rotl(w, 12) == Turn(Rotl(w, 11))
  {
  }

  lemma Rotl13(w: Word)
    ensures Rotl(w, 13) == Turn(Rotl(w, 12))
  {
  }

  lemma Rotl14(w: Word)
    ensures Rotl(w, 14) == Turn(Rotl(w, 13))
  {
  }

  lemma Rotl15(w: Word)
    ensures Rotl(w, 15) == Turn(Rotl(w, 14))
  {
  }

  lemma Rotl16(w: Word)
    ensures Rotl(w, 16) == Turn(Rotl(w, 15))
  {
  }

  lemma Rotl17(w: Word)
    ensures Rotl(w, 17) == Turn(Rotl(w, 16))
  {
  }

  lemma Rotl18(w: Word)
    ensures Rotl(w, 18) == Turn(Rotl(w, 17))
  {
  }

  lemma Rotl19(w: Word)
    ensures Rotl(w, 19) == Turn(Rotl(w, 18))
  {
  }

  lemma Rotl20(w: Word)
    ensures Rotl(w, 20) == Turn(Rotl(w, 19))
  {
  }

  lemma Rotl21(w: Word)
    ensures Rotl(w, 21) == Turn(Rotl(w, 20))
  {
  }

  lemma Rotl22(w: Word)
    ensures Rotl(w, 22) == Turn(Rotl(w, 21))
  {
  }

  lemma Rotl23(w: Word)
    ensures Rotl(w, 23) == Turn(Rotl(w, 22))
  {
  }

  lemma Rotl24(w: Word)
    ensures Rotl(w, 24) == Turn(Rotl(w, 23))
  {
  }

  lemma Rotl25(w: Word)
    ensures Rotl(w, 25) == Turn(Rotl(w, 24))
  {
  }

  lemma Rotl26(w: Word)
    ensures Rotl(w, 26) == Turn(Rotl(w, 25))
  {
  }

  lemma Rotl27(w: Word)
    ensures Rotl(w, 27) == Turn(Rotl(w, 26))
  {
  }

  lemma Rotl28(w: Word)
    ensures Rotl(w, 28) == Turn(Rotl(w, 27))
  {
  }

  lemma Rotl29(w: Word)
    ensures Rotl(w, 29) == Turn(Rotl(w, 28))
  {
  }

  lemma Rotl30(w: Word)
    ensures Rotl(w, 30) == Turn(Rotl(w, 29))
  {
  }

  lemma Rotl31(w: Word)
    ensures Rotl(w, 31) == Turn(Rotl(w, 30))
  {
  }

  lemma Rotl32(w: Word)
    ensures Rotl(w, 32) == Turn(Rotl(w, 31))
  {
  }

  // --- Words and their bytes ---

  lemma FourBytes(w: Word)
    ensures LeBits(WordByte(w, 0), WordByte(w, 1), WordByte(w, 2), WordByte(w, 3)) == w.bits
  {
    WordOfItsBytes(w.bits);
    hide LeBits;
  }

  lemma LeBytesBack(w: Word)
    ensures LeWord(LeBytes([w]), 0) == w
  {
    FourBytes(w);
    hide LeBits, WordByte;
  }
}
