// The SHA-1 context of common/md5.c: any way of cutting a message into updates gives the
// digest RFC 3174 defines for the whole message.
module Sha1 {
  import opened Words
  import opened Pieces
  import opened HashSpec
  import opened Memory
  import Sha1Transform

  const IV: seq<Word> := [Word(0x67452301), Word(0xefcdab89), Word(0x98badcfe), Word(0x10325476), Word(0xc3d2e1f0)]

  function Block(h: seq<Word>, b: seq<Byte>): seq<Word> {
    if |h| == 5 && |b| == 64 then Sha1Transform.RfcTransform(h, b) else h
  }

  // The bit count, high-order word first.
  function LengthBytes(n: nat): (b: seq<Byte>)
    ensures |b| == 8
  {
    seq(8, i requires 0 <= i < 8 => Octet(8 * n, 7 - i))
  }

  function Digest(m: seq<Byte>): (d: seq<Byte>) {
    BeBytes(Fold(Block, IV, Padded(m, LengthBytes(|m|))))
  }

  // Messages of 2^64 bits and more are refused.
  predicate Fits(n: nat) { 8 * n < WORD_MODULUS * WORD_MODULUS }

  class ShaCtx {
    const buf: array<Word>
    const input: array<Byte>
    var len0: nat
    var len1: nat
    ghost var msg: seq<Byte>

    // The message absorbed so far is the blocks in buf and the rest in input.
    ghost predicate Valid()
      reads this, buf, input
    {
      && buf.Length == 5 && input.Length == 80
      && Fits(|msg|)
      && len0 == CountLow(|msg|) && len1 == CountHigh(|msg|)
      && buf[..] == Fold(Block, IV, Whole(msg))
      && input[..|msg| % 64] == Rest(msg)
    }

    // SHAInit
    constructor ()
      ensures Valid() && msg == []
      ensures fresh(buf) && fresh(input)
    {
      buf := new Word[5];
      input := new Byte[80];
      len0, len1, msg := 0, 0, [];
      new;
      buf[0], buf[1], buf[2], buf[3], buf[4] := IV[0], IV[1], IV[2], IV[3], IV[4];
      assert buf[..] == IV;
    }

    // SHATransform on the first 64 bytes of the input buffer; the cleared rest is not used.
    method TransformInput(clear: nat)
      requires buf.Length == 5 && input.Length == 80 && clear <= 16
      modifies buf, input
      ensures input[..64] == old(input[..64])
      ensures buf[..] == Block(old(buf[..]), old(input[..64]))
    {
      hide LeWord;
      ghost var b := input[..64];
      ZeroMemory(input, 64, clear);
      assert input[..64] == b;
      var mes := seq(20, i requires 0 <= i < 20 reads this, input => LeWord(input[..], i));
      assert forall i :: 0 <= i < 16 ==> mes[i] == LeWord(b, i) by {
        forall i | 0 <= i < 16 ensures LeWord(input[..], i) == LeWord(b, i) {
          SameWord(input[..], b, i);
        }
      }
      Sha1Transform.Transform(buf, mes, b);
    }

    // Fill the input buffer up behind head and absorb the block.
    method AbsorbBlock(d: seq<Byte>, ghost c: seq<Byte>, ghost head: seq<Byte>)
      requires buf.Length == 5 && input.Length == 80 && |head| + |d| == 64
      requires |c| % 64 == 0 && buf[..] == Fold(Block, IV, c) && input[..|head|] == head
      modifies buf, input
      ensures |c + head + d| % 64 == 0
      ensures buf[..] == Fold(Block, IV, c + head + d)
    {
      hide Fold, Block;
      MoveMemory(input, 64 - |d|, d);
      assert input[..64] == head + d;
      TransformInput(16);
      FoldBlock(Block, IV, c, head + d);
      assert c + head + d == c + (head + d);
    }

    // The bit counter of SHAUpdate; returns how full the input buffer was.
    method AddToCount(len: nat) returns (fill: nat, err: bool)
      requires len < WORD_MODULUS && Fits(|msg|) && len0 == CountLow(|msg|) && len1 == CountHigh(|msg|)
      modifies this`len0, this`len1
      ensures len0 == CountLow(|msg| + len) && len1 == CountHigh(|msg| + len)
      ensures fill == |msg| % 64
      ensures err <==> !Fits(|msg| + len)
    {
      CounterAdds(|msg|, len);
      HighWordWraps(|msg|, len);
      FillFromCounter(|msg|);
      hide CountLow, CountHigh;
      var temp1, temp2 := len0, len1;
      len0 := (len0 + (len * 8) % WORD_MODULUS) % WORD_MODULUS;
      if len0 < temp1 {
        len1 := (len1 + 1) % WORD_MODULUS;
      }
      len1 := (len1 + len / 0x2000_0000) % WORD_MODULUS;
      err := len1 < temp2;
      fill := (temp1 / 8) % 64;
    }

    // SHAUpdate returns 1, and absorbs nothing, exactly when the message would reach 2^64
    // bits.  The guard of the short branch, where it is reached, must not wrap at 32 bits.
    method Update(data: seq<Byte>) returns (err: nat)
      requires Valid() && |data| < WORD_MODULUS && (|msg| % 64 != 0 ==> |msg| % 64 + |data| < WORD_MODULUS)
      modifies this`len0, this`len1, this`msg, buf, input
      ensures err == if Fits(|old(msg)| + |data|) then 0 else 1
      ensures err == 0 ==> Valid() && msg == old(msg) + data
      ensures err == 1 ==> msg == old(msg) && buf[..] == old(buf[..]) && input[..] == old(input[..])
    {
      hide Fold, CountLow, CountHigh, Fits;
      ghost var before := msg;
      var fill, wrapped := AddToCount(|data|);
      if wrapped {
        return 1;
      }
      msg := msg + data;
      Absorb(data, fill, Whole(before), Rest(before));
      err := 0;
    }

    // The part of the update that copies and transforms.
    method Absorb(data: seq<Byte>, fill: nat, ghost whole: seq<Byte>, ghost rest: seq<Byte>)
      requires buf.Length == 5 && input.Length == 80 && fill == |rest| < 64 && |whole| % 64 == 0
      requires |data| < WORD_MODULUS && (fill != 0 ==> fill + |data| < WORD_MODULUS)
      requires msg == whole + rest + data && buf[..] == Fold(Block, IV, whole) && input[..fill] == rest
      modifies buf, input
      ensures buf[..] == Fold(Block, IV, Whole(msg)) && input[..|msg| % 64] == Rest(msg)
    {
      hide Fold, Whole, Rest;
      var d := data;
      ghost var c := whole;
      if fill != 0 {
        if (fill + |d|) % WORD_MODULUS < 64 {
          MoveMemory(input, fill, d);
          assert msg == whole + (rest + d);
          WholeAndRest(msg, whole, rest + d);
          assert input[..fill + |d|] == rest + d;
          return;
        }
        AbsorbBlock(d[..64 - fill], whole, rest);
        c := whole + rest + d[..64 - fill];
        d := d[64 - fill..];
        assert msg == c + d;
      } else {
        assert msg == c + d;
      }
      AbsorbBlocks(d, c);
    }

    // The block loop of SHAUpdate and the remainder.
    method AbsorbBlocks(data: seq<Byte>, ghost before: seq<Byte>)
      requires buf.Length == 5 && input.Length == 80
      requires msg == before + data && |before| % 64 == 0 && buf[..] == Fold(Block, IV, before)
      modifies buf, input
      ensures buf[..] == Fold(Block, IV, Whole(msg)) && input[..|msg| % 64] == Rest(msg)
    {
      hide Fold;
      var d := data;
      ghost var c := before;
      var tfTimes := |d| / 64;
      while tfTimes > 0
        invariant |c| % 64 == 0 && c + d == msg && tfTimes == |d| / 64
        invariant buf[..] == Fold(Block, IV, c)
      {
        assert input[..0] == [];
        AbsorbBlock(d[..64], c, []);
        assert c + [] + d[..64] == c + d[..64];
        c := c + d[..64];
        d := d[64..];
        tfTimes := tfTimes - 1;
      }
      if |d| != 0 {
        MoveMemory(input, 0, d);
      }
      WholeAndRest(msg, c, d);
      assert input[..|d|] == d;
    }

    // Bytes 56..63 of the last block.
    method WriteLength()
      requires input.Length == 80 && len0 == CountLow(|msg|) && len1 == CountHigh(|msg|)
      modifies input
      ensures input[..64] == old(input[..56]) + LengthBytes(|msg|)
    {
      hide CountLow, CountHigh, Octet;
      var i := 0;
      while i < 4
        invariant 0 <= i <= 4
        invariant forall k :: 0 <= k < 56 ==> input[k] == old(input[k])
        invariant forall k :: 56 <= k < 56 + i ==> input[k] == Octet(8 * |msg|, 63 - k)
        invariant forall k :: 60 <= k < 60 + i ==> input[k] == Octet(8 * |msg|, 63 - k)
      {
        CounterOctets(|msg|, 3 - i);
        input[56 + i] := Octet(len1, 3 - i);
        input[60 + i] := Octet(len0, 3 - i);
        i := i + 1;
      }
    }

    // The padding that stays in one block.
    method FinishInOne(remainder: nat)
      requires Valid() && remainder == |msg| % 64 < 56
      modifies buf, input
      ensures buf[..] == Fold(Block, IV, Padded(msg, LengthBytes(|msg|)))
    {
      hide Fold, CountLow, CountHigh, Block, LengthBytes;
      ghost var rest, len := Rest(msg), LengthBytes(|msg|);
      input[remainder] := 0x80;
      ZeroMemory(input, remainder + 1, 55 - remainder);
      assert input[..56] == rest + [0x80] + Zeros(55 - remainder);
      WriteLength();
      assert input[..64] == LastBlocks(msg, len);
      TransformInput(14);
      FoldBlock(Block, IV, Whole(msg), LastBlocks(msg, len));
      PaddedIs(msg, len);
    }

    // The padding that crosses into a second block: the first block,
    method FinishFirst(remainder: nat)
      requires Valid() && 56 <= remainder == |msg| % 64
      modifies buf, input
      ensures var first := Rest(msg) + [0x80] + Zeros(63 - remainder);
              |Whole(msg) + first| % 64 == 0 && buf[..] == Fold(Block, IV, Whole(msg) + first)
    {
      hide Fold, CountLow, CountHigh, Block;
      ghost var rest := Rest(msg);
      input[remainder] := 0x80;
      ZeroMemory(input, remainder + 1, 63 - remainder);
      assert input[..64] == rest + [0x80] + Zeros(63 - remainder);
      TransformInput(16);
      FoldBlock(Block, IV, Whole(msg), rest + [0x80] + Zeros(63 - remainder));
    }

    // and the second.
    method FinishSecond(ghost c: seq<Byte>)
      requires buf.Length == 5 && input.Length == 80 && len0 == CountLow(|msg|) && len1 == CountHigh(|msg|)
      requires |c| % 64 == 0 && buf[..] == Fold(Block, IV, c)
      modifies buf, input
      ensures |c + (Zeros(56) + LengthBytes(|msg|))| % 64 == 0
      ensures buf[..] == Fold(Block, IV, c + (Zeros(56) + LengthBytes(|msg|)))
    {
      hide Fold, CountLow, CountHigh, Block, LengthBytes;
      ZeroMemory(input, 0, 56);
      assert input[..56] == Zeros(56);
      WriteLength();
      assert input[..64] == Zeros(56) + LengthBytes(|msg|);
      TransformInput(16);
      FoldBlock(Block, IV, c, Zeros(56) + LengthBytes(|msg|));
    }

    method FinishInTwo(remainder: nat)
      requires Valid() && 56 <= remainder == |msg| % 64
      modifies buf, input
      ensures buf[..] == Fold(Block, IV, Padded(msg, LengthBytes(|msg|)))
    {
      hide Fold, CountLow, CountHigh, Block, LengthBytes;
      ghost var c, len := Whole(msg), LengthBytes(|msg|);
      ghost var first, second := Rest(msg) + [0x80] + Zeros(63 - remainder), Zeros(56) + len;
      FinishFirst(remainder);
      FinishSecond(c + first);
      TwoBlocks(msg, len, c, first, second);
    }

    // SHAFinal; it clears the start of the context, which must be set up again.
    method Final() returns (digest: seq<Byte>)
      requires Valid()
      modifies this, buf, input
      ensures digest == Digest(old(msg)) && |digest| == 20
    {
      hide Fold, CountLow, CountHigh, Block;
      FillFromCounter(|msg|);
      var remainder := (len0 / 8) % 64;
      if remainder < 56 {
        FinishInOne(remainder);
      } else {
        FinishInTwo(remainder);
      }
      digest := BeBytes(buf[..]);
      buf[0] := Word(0);
    }
  }

  lemma SameWord(x: seq<Byte>, b: seq<Byte>, i: nat)
    requires 4 * i + 4 <= |b| <= |x| && x[..|b|] == b
    ensures LeWord(x, i) == LeWord(b, i)
  {
    assert forall k :: 0 <= k < |b| ==> x[k] == x[..|b|][k];
  }

  // Hashing a list of pieces with one context.
  method HashPieces(pieces: seq<seq<Byte>>) returns (digest: seq<Byte>)
    requires forall i :: 0 <= i < |pieces| ==> |pieces[i]| + 63 < WORD_MODULUS
    requires Fits(|Concat(pieces)|)
    ensures digest == Digest(Concat(pieces)) && |digest| == 20
  {
    hide Fold, Digest, CountLow, CountHigh, Whole, Rest;
    var ctx := new ShaCtx();
    var i := 0;
    while i < |pieces|
      invariant 0 <= i <= |pieces| && ctx.Valid()
      invariant ctx.msg + Concat(pieces[i..]) == Concat(pieces)
      invariant fresh(ctx) && fresh(ctx.buf) && fresh(ctx.input)
    {
      assert pieces[i..][0] == pieces[i] && pieces[i..][1..] == pieces[i + 1..];
      ghost var before := ctx.msg;
      var err := ctx.Update(pieces[i]);
      assert before + (pieces[i] + Concat(pieces[i + 1..])) == before + pieces[i] + Concat(pieces[i + 1..]);
      i := i + 1;
    }
    assert ctx.msg == Concat(pieces);
    digest := ctx.Final();
  }
}
