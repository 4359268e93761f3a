// The MD5 context of common/md5.c: any way of cutting a message into updates gives the
// digest RFC 1321 defines for the whole message.
module Md5 {
  import opened Words
  import opened Pieces
  import opened HashSpec
  import opened Memory
  import Md5Transform

  const IV: seq<Word> := [Word(0x67452301), Word(0xefcdab89), Word(0x98badcfe), Word(0x10325476)]

  function WordsOf(b: seq<Byte>): seq<Word>
    requires |b| == 64
  {
    seq(16, i requires 0 <= i < 16 => LeWord(b, i))
  }

  function Block(h: seq<Word>, b: seq<Byte>): seq<Word> {
    if |h| == 4 && |b| == 64 then Md5Transform.RfcTransform(h, WordsOf(b)) else h
  }

  // The bit count, low-order word first.
  function LengthBytes(n: nat): (b: seq<Byte>)
    ensures |b| == 8
  {
    seq(8, i requires 0 <= i < 8 => Octet(8 * n, i))
  }

  function Digest(m: seq<Byte>): seq<Byte> {
    LeBytes(Fold(Block, IV, Padded(m, LengthBytes(|m|))))
  }

  class Md5Ctx {
    const buf: array<Word>
    const input: array<Byte>
    var len0: nat
    var len1: nat
    ghost var msg: seq<Byte>

    // The message absorbed so far is the blocks in buf and the rest in input.
    ghost predicate Valid()
      reads this, buf, input
    {
      && buf.Length == 4 && input.Length == 64
      && len0 == CountLow(|msg|) && len1 == CountHigh(|msg|)
      && buf[..] == Fold(Block, IV, Whole(msg))
      && input[..|msg| % 64] == Rest(msg)
    }

    // MD5Init
    constructor ()
      ensures Valid() && msg == []
      ensures fresh(buf) && fresh(input)
    {
      buf := new Word[4];
      input := new Byte[64];
      len0, len1, msg := 0, 0, [];
      new;
      buf[0], buf[1], buf[2], buf[3] := IV[0], IV[1], IV[2], IV[3];
      assert buf[..] == IV;
    }

    // MD5Transform on the full input buffer.
    method TransformInput()
      requires buf.Length == 4 && input.Length == 64
      modifies buf
      ensures buf[..] == Block(old(buf[..]), input[..])
    {
      Md5Transform.Transform(buf, WordsOf(input[..]));
    }

    // Fill the input buffer up behind head and absorb the block.
    method AbsorbBlock(d: seq<Byte>, ghost c: seq<Byte>, ghost head: seq<Byte>)
      requires buf.Length == 4 && input.Length == 64 && |head| + |d| == 64
      requires |c| % 64 == 0 && buf[..] == Fold(Block, IV, c) && input[..|head|] == head
      modifies buf, input
      ensures |c + head + d| % 64 == 0
      ensures buf[..] == Fold(Block, IV, c + head + d)
    {
      hide Fold, Block;
      MoveMemory(input, 64 - |d|, d);
      assert input[..] == head + d;
      TransformInput();
      FoldBlock(Block, IV, c, head + d);
      assert c + head + d == c + (head + d);
    }

    // The bit counter of MD5Update; returns how full the input buffer was.
    method AddToCount(len: nat) returns (fill: nat)
      requires len < WORD_MODULUS && len0 == CountLow(|msg|) && len1 == CountHigh(|msg|)
      modifies this`len0, this`len1
      ensures len0 == CountLow(|msg| + len) && len1 == CountHigh(|msg| + len)
      ensures fill == |msg| % 64
    {
      CounterAdds(|msg|, len);
      FillFromCounter(|msg|);
      hide CountLow, CountHigh;
      var temp := len0;
      len0 := (len0 + (len * 8) % WORD_MODULUS) % WORD_MODULUS;
      if len0 < temp {
        len1 := (len1 + 1) % WORD_MODULUS;
      }
      len1 := (len1 + len / 0x2000_0000) % WORD_MODULUS;
      fill := (temp / 8) % 64;
    }

    // MD5Update; the guard of the short branch, where it is reached, must not wrap at 32 bits.
    method Update(data: seq<Byte>)
      requires Valid() && |data| < WORD_MODULUS && (|msg| % 64 != 0 ==> |msg| % 64 + |data| < WORD_MODULUS)
      modifies this`len0, this`len1, this`msg, buf, input
      ensures Valid() && msg == old(msg) + data
    {
      hide Fold, CountLow, CountHigh;
      ghost var before := msg;
      var fill := AddToCount(|data|);
      msg := msg + data;
      Absorb(data, fill, Whole(before), Rest(before));
    }

    // The part of the update that copies and transforms.
    method Absorb(data: seq<Byte>, fill: nat, ghost whole: seq<Byte>, ghost rest: seq<Byte>)
      requires buf.Length == 4 && input.Length == 64 && fill == |rest| < 64 && |whole| % 64 == 0
      requires |data| < WORD_MODULUS && (fill != 0 ==> fill + |data| < WORD_MODULUS)
      requires msg == whole + rest + data && buf[..] == Fold(Block, IV, whole) && input[..fill] == rest
      modifies buf, input
      ensures buf[..] == Fold(Block, IV, Whole(msg)) && input[..|msg| % 64] == Rest(msg)
    {
      hide Fold, Whole, Rest;
      var d := data;
      ghost var c := whole;
      if fill != 0 {
        if (fill + |d|) % WORD_MODULUS < 64 {
          MoveMemory(input, fill, d);
          assert msg == whole + (rest + d);
          WholeAndRest(msg, whole, rest + d);
          assert input[..fill + |d|] == rest + d;
          return;
        }
        AbsorbBlock(d[..64 - fill], whole, rest);
        c := whole + rest + d[..64 - fill];
        d := d[64 - fill..];
        assert msg == c + d;
      } else {
        assert msg == c + d;
      }
      AbsorbBlocks(d, c);
    }

    // The block loop of MD5Update and the remainder.
    method AbsorbBlocks(data: seq<Byte>, ghost before: seq<Byte>)
      requires buf.Length == 4 && input.Length == 64
      requires msg == before + data && |before| % 64 == 0 && buf[..] == Fold(Block, IV, before)
      modifies buf, input
      ensures buf[..] == Fold(Block, IV, Whole(msg)) && input[..|msg| % 64] == Rest(msg)
    {
      hide Fold;
      var d := data;
      ghost var c := before;
      var tfTimes := |d| / 64;
      while tfTimes > 0
        invariant |c| % 64 == 0 && c + d == msg && tfTimes == |d| / 64
        invariant buf[..] == Fold(Block, IV, c)
      {
        assert input[..0] == [];
        AbsorbBlock(d[..64], c, []);
        assert c + [] + d[..64] == c + d[..64];
        c := c + d[..64];
        d := d[64..];
        tfTimes := tfTimes - 1;
      }
      if |d| != 0 {
        MoveMemory(input, 0, d);
      }
      WholeAndRest(msg, c, d);
      assert input[..|d|] == d;
    }

    // Bytes 56..63 of the last block.
    method WriteLength()
      requires input.Length == 64 && len0 == CountLow(|msg|) && len1 == CountHigh(|msg|)
      modifies input
      ensures input[..] == old(input[..56]) + LengthBytes(|msg|)
    {
      hide CountLow, CountHigh, Octet;
      var i := 0;
      while i < 4
        invariant 0 <= i <= 4
        invariant forall k :: 0 <= k < 56 ==> input[k] == old(input[k])
        invariant forall k :: 56 <= k < 56 + i ==> input[k] == Octet(8 * |msg|, k - 56)
        invariant forall k :: 60 <= k < 60 + i ==> input[k] == Octet(8 * |msg|, k - 56)
      {
        CounterOctets(|msg|, i);
        input[56 + i] := Octet(len0, i);
        input[60 + i] := Octet(len1, i);
        i := i + 1;
      }
    }

    // The padding that stays in one block.
    method FinishInOne(remainder: nat)
      requires Valid() && remainder == |msg| % 64 < 56
      modifies buf, input
      ensures buf[..] == Fold(Block, IV, Padded(msg, LengthBytes(|msg|)))
    {
      hide Fold, CountLow, CountHigh, Block, LengthBytes;
      ghost var rest, len := Rest(msg), LengthBytes(|msg|);
      input[remainder] := 0x80;
      ZeroMemory(input, remainder + 1, 55 - remainder);
      assert input[..56] == rest + [0x80] + Zeros(55 - remainder);
      WriteLength();
      assert input[..] == LastBlocks(msg, len);
      TransformInput();
      FoldBlock(Block, IV, Whole(msg), LastBlocks(msg, len));
      PaddedIs(msg, len);
    }

    // The padding that crosses into a second block: the first block,
    method FinishFirst(remainder: nat)
      requires Valid() && 56 <= remainder == |msg| % 64
      modifies buf, input
      ensures var first := Rest(msg) + [0x80] + Zeros(63 - remainder);
              |Whole(msg) + first| % 64 == 0 && buf[..] == Fold(Block, IV, Whole(msg) + first)
    {
      hide Fold, CountLow, CountHigh, Block;
      ghost var rest := Rest(msg);
      input[remainder] := 0x80;
      ZeroMemory(input, remainder + 1, 63 - remainder);
      assert input[..] == rest + [0x80] + Zeros(63 - remainder);
      TransformInput();
      FoldBlock(Block, IV, Whole(msg), rest + [0x80] + Zeros(63 - remainder));
    }

    // and the second.
    method FinishSecond(ghost c: seq<Byte>)
      requires buf.Length == 4 && input.Length == 64 && len0 == CountLow(|msg|) && len1 == CountHigh(|msg|)
      requires |c| % 64 == 0 && buf[..] == Fold(Block, IV, c)
      modifies buf, input
      ensures |c + (Zeros(56) + LengthBytes(|msg|))| % 64 == 0
      ensures buf[..] == Fold(Block, IV, c + (Zeros(56) + LengthBytes(|msg|)))
    {
      hide Fold, CountLow, CountHigh, Block, LengthBytes;
      ZeroMemory(input, 0, 56);
      assert input[..56] == Zeros(56);
      WriteLength();
      assert input[..] == Zeros(56) + LengthBytes(|msg|);
      TransformInput();
      FoldBlock(Block, IV, c, Zeros(56) + LengthBytes(|msg|));
    }

    method FinishInTwo(remainder: nat)
      requires Valid() && 56 <= remainder == |msg| % 64
      modifies buf, input
      ensures buf[..] == Fold(Block, IV, Padded(msg, LengthBytes(|msg|)))
    {
      hide Fold, CountLow, CountHigh, Block, LengthBytes;
      ghost var c, len := Whole(msg), LengthBytes(|msg|);
      ghost var first, second := Rest(msg) + [0x80] + Zeros(63 - remainder), Zeros(56) + len;
      FinishFirst(remainder);
      FinishSecond(c + first);
      TwoBlocks(msg, len, c, first, second);
    }

    // MD5Final; it clears the start of the context, which must be set up again.
    method Final() returns (digest: seq<Byte>)
      requires Valid()
      modifies this, buf, input
      ensures digest == Digest(old(msg)) && |digest| == 16
    {
      hide Fold, CountLow, CountHigh, Block;
      FillFromCounter(|msg|);
      var remainder := (len0 / 8) % 64;
      if remainder < 56 {
        FinishInOne(remainder);
      } else {
        FinishInTwo(remainder);
      }
      digest := LeBytes(buf[..]);
      buf[0] := Word(0);
    }
  }

  // Hashing a list of pieces with one context.
  method HashPieces(pieces: seq<seq<Byte>>) returns (digest: seq<Byte>)
    requires forall i :: 0 <= i < |pieces| ==> |pieces[i]| + 63 < WORD_MODULUS
    ensures digest == Digest(Concat(pieces)) && |digest| == 16
  {
    hide Fold, Digest, CountLow, CountHigh, Whole, Rest;
    var ctx := new Md5Ctx();
    var i := 0;
    while i < |pieces|
      invariant 0 <= i <= |pieces| && ctx.Valid()
      invariant ctx.msg + Concat(pieces[i..]) == Concat(pieces)
      invariant fresh(ctx) && fresh(ctx.buf) && fresh(ctx.input)
    {
      assert pieces[i..][0] == pieces[i] && pieces[i..][1..] == pieces[i + 1..];
      ghost var before := ctx.msg;
      ctx.Update(pieces[i]);
      assert before + (pieces[i] + Concat(pieces[i + 1..])) == before + pieces[i] + Concat(pieces[i + 1..]);
      i := i + 1;
    }
    assert ctx.msg == Concat(pieces);
    digest := ctx.Final();
  }
}
