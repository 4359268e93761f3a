// GetPacketFromRxRing (common/2870_rtmp_init.c): carving a bulk-in buffer into frames.
module BulkIn {
  import opened Octets
  import opened Pieces

  const LENGTH_FIELD: nat := 4 // RT2870_RXDMALEN_FIELD_SIZE
  const RXWI_SIZE: nat := 16
  const RXINFO_SIZE: nat := 4

  // One frame as the device delivers it: two bytes of length, two bytes the driver ignores,
  // the data (which starts with the RXWI), and the RXINFO.
  datatype Frame = Frame(ignored: seq<Octet>, data: seq<Octet>, info: seq<Octet>)

  predicate Shaped(f: Frame) { |f.ignored| == 2 && |f.info| == RXINFO_SIZE && |f.data| < 65536 }

  function Encode(f: Frame): (e: seq<Octet>)
    requires Shaped(f)
    ensures |e| == |f.data| + 8
  {
    [Low(|f.data|), High(|f.data|)] + f.ignored + f.data + f.info
  }

  function EncodeAll(fs: seq<Frame>): seq<Octet>
    requires forall f :: f in fs ==> Shaped(f)
  {
    if fs == [] then [] else Encode(fs[0]) + EncodeAll(fs[1..])
  }

  // MPDUtotalByteCount, 12 bits of the first word of the RXWI.
  function ByteCount(data: seq<Octet>): nat
    requires |data| >= 4
  {
    Sixteen(data[3] % 16, data[2])
  }

  // The count a frame was built with, whatever the four bits above it are.
  lemma ByteCountBack(data: seq<Octet>, n: nat, above: nat)
    requires |data| >= 4 && n < 4096 && above < 16
    requires data[2] == Low(n) && data[3] == 16 * above + High(n)
    ensures ByteCount(data) == n
  {
    var q, r := n / 256, n % 256;
    assert n == 256 * q + r && q < 16;
  }

  // --- One frame ---

  function Length(b: seq<Octet>): nat
    requires |b| >= 2
  {
    Sixteen(b[1], b[0])
  }

  // b, the rest of the buffer, starts with a frame the driver takes.
  predicate Takes(b: seq<Octet>) {
    |b| >= LENGTH_FIELD + RXWI_SIZE + RXINFO_SIZE
    && Length(b) != 0 && Length(b) % 4 == 0 && Length(b) + 8 <= |b|
    && ByteCount(b[4..]) <= Length(b)
  }

  function Taken(b: seq<Octet>): (f: Frame)
    requires Takes(b)
    ensures Shaped(f) && |f.data| == Length(b)
  {
    var n := Length(b);
    LengthBound(b);
    Frame(b[2..4], b[4..4 + n], b[4 + n..8 + n])
  }

  lemma LengthBound(b: seq<Octet>)
    requires |b| >= 2
    ensures Length(b) < 65536
  {
  }

  function Parse(b: seq<Octet>): (fs: seq<Frame>)
    ensures forall f :: f in fs ==> Shaped(f)
    decreases |b|
  {
    if Takes(b) then [Taken(b)] + Parse(b[8 + Length(b)..]) else []
  }

  // A frame as the device should build it.
  predicate Proper(f: Frame) {
    Shaped(f) && |f.data| >= RXWI_SIZE && |f.data| % 4 == 0 && ByteCount(f.data) <= |f.data|
  }

  lemma OctetsOf(b: seq<Octet>)
    requires |b| >= 2
    ensures [Low(Length(b)), High(Length(b))] == b[..2]
  {
  }

  // What is parsed, put together again, is the start of the buffer, and at its end there is
  // nothing the driver takes.
  lemma {:induction false} ParseIsPrefix(b: seq<Octet>)
    ensures var e := EncodeAll(Parse(b)); |e| <= |b| && e == b[..|e|] && !Takes(b[|e|..])
    decreases |b|
  {
    hide Takes, Low, High, Encode, Taken;
    if Takes(b) {
      TakenIsStart(b);
      var n := Length(b);
      ParseIsPrefix(b[8 + n..]);
      var fs, rest := Parse(b), Parse(b[8 + n..]);
      assert fs[1..] == rest;
      var e := EncodeAll(rest);
      StartAndMore(b, 8 + n, |e|);
    } else {
      assert b[0..] == b;
    }
  }

  lemma StartAndMore(b: seq<Octet>, k: nat, m: nat)
    requires k + m <= |b|
    ensures b[..k] + b[k..][..m] == b[..k + m] && b[k..][m..] == b[k + m..]
  {
  }

  lemma TakenIsStart(b: seq<Octet>)
    requires Takes(b)
    ensures |b| >= 2 && 8 + Length(b) <= |b| && Encode(Taken(b)) == b[..8 + Length(b)]
    ensures b == Encode(Taken(b)) + b[8 + Length(b)..]
  {
    OctetsOf(b);
    hide Low, High, Length, ByteCount;
    var n := Length(b);
    FourParts(b, n);
  }

  lemma FourParts(b: seq<Octet>, n: nat)
    requires 8 + n <= |b|
    ensures b[..8 + n] == b[..2] + b[2..4] + b[4..4 + n] + b[4 + n..8 + n]
  {
    assert b[..4] == b[..2] + b[2..4];
    assert b[..4 + n] == b[..4] + b[4..4 + n];
    assert b[..8 + n] == b[..4 + n] + b[4 + n..8 + n];
  }

  // Frames that are put in one after the other come out again, whatever follows that is not
  // taken for a frame.
  lemma {:induction false} ParseOfEncode(fs: seq<Frame>, tail: seq<Octet>)
    requires (forall f :: f in fs ==> Shaped(f) && Proper(f)) && !Takes(tail)
    ensures Parse(EncodeAll(fs) + tail) == fs
  {
    hide Takes, Proper, Shaped, Taken, Encode;
    if fs == [] {
      assert EncodeAll(fs) + tail == tail;
    } else {
      assert fs[0] in fs && forall x :: x in fs[1..] ==> x in fs;
      var f, more := fs[0], EncodeAll(fs[1..]);
      EncodedThenRest(f, more, tail);
      ParseOfEncode(fs[1..], tail);
    }
  }

  lemma EncodedThenRest(f: Frame, more: seq<Octet>, tail: seq<Octet>)
    requires Shaped(f) && Proper(f)
    ensures Parse(Encode(f) + more + tail) == [f] + Parse(more + tail)
  {
    var b := Encode(f) + (more + tail);
    TakesEncoded(f, more + tail);
    ParseUnfold(b);
    hide Takes, Proper, Shaped, Taken, Encode, Parse;
    assert Encode(f) + more + tail == b;
    assert b[8 + |f.data|..] == more + tail;
  }

  lemma TakesEncoded(f: Frame, rest: seq<Octet>)
    requires Proper(f)
    ensures var b := Encode(f) + rest; Takes(b) && Taken(b) == f && Length(b) == |f.data|
  {
    var b, n := Encode(f) + rest, |f.data|;
    TakesIff(f, rest);
    LengthBack(f, rest);
    hide Low, High, Sixteen, Encode, Length, ByteCount, Takes;
    FieldsBack(f, rest);
  }

  // What the device put in is taken exactly when its length is a multiple of four and not
  // zero, there are 24 bytes to look at, and the count in its RXWI does not exceed it.
  lemma TakesIff(f: Frame, rest: seq<Octet>)
    requires Shaped(f) && |f.data| >= 4
    ensures Takes(Encode(f) + rest)
        <==> |f.data| % 4 == 0 && |f.data| + |rest| >= RXWI_SIZE && ByteCount(f.data) <= |f.data|
  {
    var b, n := Encode(f) + rest, |f.data|;
    LengthBack(f, rest);
    hide Low, High, Sixteen, Encode, Length;
    FieldsBack(f, rest);
    assert b[4..][2] == b[4..4 + n][2] && b[4..][3] == b[4..4 + n][3];
    assert ByteCount(b[4..]) == ByteCount(f.data);
    hide ByteCount;
  }

  lemma NothingIsNotTaken(f: Frame, rest: seq<Octet>)
    requires Shaped(f) && f.data == []
    ensures !Takes(Encode(f) + rest)
  {
    LengthBack(f, rest);
    hide Length, Encode;
  }

  lemma LengthBack(f: Frame, rest: seq<Octet>)
    requires Shaped(f)
    ensures Length(Encode(f) + rest) == |f.data|
  {
    hide Low, High, Sixteen;
    var b := Encode(f) + rest;
    assert b[0] == Low(|f.data|) && b[1] == High(|f.data|);
    OctetsBack(|f.data|);
  }

  lemma FieldsBack(f: Frame, rest: seq<Octet>)
    requires Shaped(f)
    ensures var b, n := Encode(f) + rest, |f.data|;
            b[2..4] == f.ignored && b[4..4 + n] == f.data && b[4 + n..8 + n] == f.info
  {
    hide Low, High;
    var n, head := |f.data|, [Low(|f.data|), High(|f.data|)];
    var b := Encode(f) + rest;
    Middle(head, f.ignored, f.data + f.info + rest, b);
    Middle(head + f.ignored, f.data, f.info + rest, b);
    Middle(head + f.ignored + f.data, f.info, rest, b);
  }

  lemma Middle(x: seq<Octet>, y: seq<Octet>, z: seq<Octet>, b: seq<Octet>)
    requires b == x + y + z
    ensures b[|x|..|x| + |y|] == y
  {
  }

  // --- The driver ---

  datatype Option = None | Some(frame: Frame)

  class RxContext {
    // TransferBuffer, BulkInOffset, Readable and InUse, and the adapter's ReadPosition.
    const transferBuffer: array<Octet>
    var bulkInOffset: nat
    var readable: bool
    var inUse: bool
    var readPosition: nat

    ghost predicate Valid()
      reads this
    {
      readPosition <= bulkInOffset <= transferBuffer.Length
    }

    // What is left to be read.
    ghost function Rest(): seq<Octet>
      reads this, transferBuffer
      requires Valid()
    {
      transferBuffer[readPosition..bulkInOffset]
    }

    constructor (size: nat)
      ensures Valid() && fresh(transferBuffer) && transferBuffer.Length == size && bulkInOffset == 0 && !readable
    {
      transferBuffer := new Octet[size];
      bulkInOffset, readPosition, readable, inUse := 0, 0, false, false;
    }

    // GetPacketFromRxRing; memory says whether a packet for the frame can be allocated.
    method GetPacket(memory: bool) returns (r: Option)
      requires Valid()
      modifies this`readPosition
      ensures Valid() && readPosition >= old(readPosition)
      ensures r.Some? <==> readable && !inUse && memory && Takes(old(Rest()))
      ensures r.Some? ==> r.frame == Taken(old(Rest())) && Rest() == old(Rest())[8 + |r.frame.data|..]
      ensures r.Some? ==> readPosition == old(readPosition) + |r.frame.data| + 8
      ensures r.None? ==> readPosition == old(readPosition)
    {
      if !readable || inUse {
        return None;
      }
      hide Sixteen, Taken;
      ghost var b := Rest();
      var rxBufferLength := bulkInOffset - readPosition;
      if rxBufferLength < LENGTH_FIELD + RXWI_SIZE + RXINFO_SIZE {
        return None;
      }
      var thisFrameLen := Sixteen(transferBuffer[readPosition + 1], transferBuffer[readPosition]);
      assert thisFrameLen == Length(b);
      if thisFrameLen == 0 || thisFrameLen % 4 != 0 || thisFrameLen + 8 > rxBufferLength {
        return None;
      }
      var pData := readPosition + LENGTH_FIELD;
      var rxwi := transferBuffer[pData..pData + RXWI_SIZE];
      assert rxwi[2] == b[4..][2] && rxwi[3] == b[4..][3];
      if ByteCount(rxwi) > thisFrameLen || !memory {
        return None;
      }
      hide ByteCount;
      r := CopyOut(thisFrameLen);
    }

    // Copy the frame at the read position and go on behind it.
    method CopyOut(thisFrameLen: nat) returns (r: Option)
      requires Valid() && Takes(Rest()) && thisFrameLen == Length(Rest())
      modifies this`readPosition
      ensures Valid() && readPosition == old(readPosition) + thisFrameLen + 8
      ensures r == Some(Taken(old(Rest()))) && Rest() == old(Rest())[8 + thisFrameLen..]
    {
      hide ByteCount, Length;
      var pData := readPosition + LENGTH_FIELD;
      var ignored := transferBuffer[readPosition + 2..readPosition + 4];
      var data := transferBuffer[pData..pData + thisFrameLen];
      var info := transferBuffer[pData + thisFrameLen..pData + thisFrameLen + RXINFO_SIZE];
      Slices(transferBuffer[..], readPosition, bulkInOffset - readPosition, thisFrameLen);
      assert transferBuffer[..][readPosition..readPosition + (bulkInOffset - readPosition)] == Rest();
      readPosition := readPosition + (thisFrameLen + LENGTH_FIELD + RXINFO_SIZE);
      r := Some(Frame(ignored, data, info));
    }

    // The receive loop: packets until there is none.
    method GetAll() returns (fs: seq<Frame>)
      requires Valid() && readable && !inUse
      modifies this`readPosition
      ensures Valid() && fs == Parse(old(Rest())) && !Takes(Rest())
      ensures old(Rest()) == EncodeAll(fs) + Rest()
    {
      hide Takes, Taken, Encode, Length;
      fs := [];
      ghost var b := Rest();
      assert b == EncodeAll([]) + Rest();
      var more := true;
      while more
        invariant Valid() && readable && !inUse && (!more ==> !Takes(Rest()))
        invariant fs + Parse(Rest()) == Parse(b)
        invariant (forall f :: f in fs ==> Shaped(f)) && b == EncodeAll(fs) + Rest()
        decreases |Rest()|, more
      {
        ghost var rest := Rest();
        var r := GetPacket(true);
        if r.Some? {
          ParseMore(fs, rest);
          EncodedMore(fs, rest);
          fs := fs + [r.frame];
        } else {
          more := false;
        }
      }
    }
  }

  // One frame more.
  lemma ParseMore(fs: seq<Frame>, b: seq<Octet>)
    requires Takes(b)
    ensures var f := Taken(b);
            8 + |f.data| <= |b| && fs + Parse(b) == fs + [f] + Parse(b[8 + |f.data|..])
  {
    ParseUnfold(b);
    hide Takes, Taken, Parse;
  }

  lemma EncodedMore(fs: seq<Frame>, b: seq<Octet>)
    requires (forall f :: f in fs ==> Shaped(f)) && Takes(b)
    ensures var f := Taken(b);
            8 + |f.data| <= |b| && EncodeAll(fs) + b == EncodeAll(fs + [f]) + b[8 + |f.data|..]
  {
    TakenIsStart(b);
    EncodeMore(fs, Taken(b));
    hide Takes, Encode, Taken, EncodeAll;
    Regrouped(EncodeAll(fs), Encode(Taken(b)), b[8 + |Taken(b).data|..], b);
  }

  lemma Regrouped(all: seq<Octet>, e: seq<Octet>, rest: seq<Octet>, b: seq<Octet>)
    requires b == e + rest
    ensures all + b == all + e + rest
  {
  }

  lemma ParseUnfold(b: seq<Octet>)
    requires Takes(b)
    ensures 8 + |Taken(b).data| <= |b| && Parse(b) == [Taken(b)] + Parse(b[8 + |Taken(b).data|..])
  {
    TakesFits(b);
    hide Takes, Length;
    assert |Taken(b).data| == Length(b);
    hide Taken;
  }

  lemma TakesFits(b: seq<Octet>)
    requires Takes(b)
    ensures |b| >= 8 + Length(b)
  {
    hide ByteCount, Sixteen;
  }

  lemma {:induction false} EncodeMore(fs: seq<Frame>, f: Frame)
    requires (forall x :: x in fs ==> Shaped(x)) && Shaped(f)
    ensures EncodeAll(fs + [f]) == EncodeAll(fs) + Encode(f)
  {
    hide Encode;
    if fs == [] {
      assert [f][1..] == [] && fs + [f] == [f];
    } else {
      assert (fs + [f])[1..] == fs[1..] + [f];
      assert forall x :: x in fs[1..] ==> x in fs;
      EncodeMore(fs[1..], f);
    }
  }

  lemma Slices(all: seq<Octet>, pos: nat, len: nat, n: nat)
    requires pos + len <= |all| && 8 + n <= len
    ensures var b := all[pos..pos + len];
            b[2..4] == all[pos + 2..pos + 4] && b[4..4 + n] == all[pos + 4..pos + 4 + n]
            && b[4 + n..8 + n] == all[pos + 4 + n..pos + 8 + n] && b[8 + n..] == all[pos + 8 + n..pos + len]
  {
    Part(all, pos, len, 2, 4);
    Part(all, pos, len, 4, 4 + n);
    Part(all, pos, len, 4 + n, 8 + n);
    Part(all, pos, len, 8 + n, len);
  }
}
