// deaggregate_AMSDU_announce (common/cmm_data.c): splitting an A-MSDU in place.
module Amsdu {
  import opened Memory
  import opened Octets
  import opened Pieces

  const LENGTH_802_3: nat := 14
  const SNAP_802_1H: seq<Octet> := [0xaa, 0xaa, 0x03, 0x00, 0x00, 0x00]
  const SNAP_BRIDGE_TUNNEL: seq<Octet> := [0xaa, 0xaa, 0x03, 0x00, 0x00, 0xf8]
  const IPX: seq<Octet> := [0x81, 0x37]
  const APPLE_TALK: seq<Octet> := [0x80, 0xf3]

  function Pad4(n: nat): (p: nat)
    ensures n <= p < n + 4 && p % 4 == 0
  {
    (n + 3) / 4 * 4
  }

  // CONVERT_TO_802_3 removes the LLC/SNAP header that starts with these eight bytes.
  predicate Removed(llc: seq<Octet>)
    requires |llc| == 8
  {
    llc[..6] == SNAP_BRIDGE_TUNNEL
    || (llc[..6] == SNAP_802_1H && llc[6..] != IPX && llc[6..] != APPLE_TALK)
  }

  // Both kinds of header are removed, of IPX and AppleTalk only the bridge tunnel's.
  lemma RemovedAre(high: Octet, low: Octet)
    ensures Removed([0xaa, 0xaa, 0x03, 0x00, 0x00, 0xf8, high, low])
    ensures Removed([0xaa, 0xaa, 0x03, 0x00, 0x00, 0x00, high, low])
        <==> 256 * high + low != 0x8137 && 256 * high + low != 0x80f3
  {
    var t, h := [0xaa, 0xaa, 0x03, 0x00, 0x00, 0xf8, high, low], [0xaa, 0xaa, 0x03, 0x00, 0x00, 0x00, high, low];
    assert t[..6] == SNAP_BRIDGE_TUNNEL;
    assert h[..6] == SNAP_802_1H && h[..6][5] != SNAP_BRIDGE_TUNNEL[5] && h[6..] == [high, low];
  }

  // Any other header stays.
  lemma OthersStay(llc: seq<Octet>)
    requires |llc| == 8 && Removed(llc)
    ensures llc[0] == llc[1] == 0xaa && llc[2] == 3 && llc[3] == llc[4] == 0 && (llc[5] == 0 || llc[5] == 0xf8)
  {
    assert llc[..6][0] == llc[0] && llc[..6][1] == llc[1] && llc[..6][2] == llc[2] && llc[..6][3] == llc[3];
    assert llc[..6][4] == llc[4] && llc[..6][5] == llc[5];
  }

  // --- What is announced, as a function of the buffer as it arrived ---

  // There are subframe header and LLC/SNAP header to look at.
  predicate Readable(b: seq<Octet>, pos: nat) { pos + 22 <= |b| }

  function PayloadSize(b: seq<Octet>, pos: nat): (n: nat)
    requires Readable(b, pos)
  {
    Sixteen(b[pos + 12], b[pos + 13])
  }

  // The subframe at pos is announced: it lies within the data and is not too long.
  predicate Wellformed(b: seq<Octet>, pos: nat, size: nat)
    requires Readable(b, pos)
  {
    PayloadSize(b, pos) + LENGTH_802_3 <= size && PayloadSize(b, pos) <= 1518
  }

  function Length(b: seq<Octet>, pos: nat): nat
    requires Readable(b, pos)
  {
    Pad4(PayloadSize(b, pos) + LENGTH_802_3)
  }

  // The split goes on behind the subframe at pos.
  predicate GoesOn(b: seq<Octet>, pos: nat, size: nat)
    requires Readable(b, pos)
  {
    32 <= Length(b, pos) <= 1528 && Length(b, pos) < size
  }

  // The announced frame: with LLC/SNAP removed the addresses, the protocol and the rest of
  // the payload; otherwise the bare payload.
  function Frame(b: seq<Octet>, pos: nat): seq<Octet>
    requires Readable(b, pos) && pos + LENGTH_802_3 + PayloadSize(b, pos) <= |b|
  {
    var p := PayloadSize(b, pos);
    if Removed(b[pos + 14..pos + 22])
    then (b[pos..pos + 12] + b[pos + 20..pos + 22] + b[pos + 22..])[..p + 6]
    else b[pos + 14..pos + 14 + p]
  }

  // The frames announced from pos on; cloned(k) says whether the packet for subframe k
  // could be cloned.
  function Announced(b: seq<Octet>, pos: nat, size: nat, cloned: nat -> bool, k: nat): seq<seq<Octet>>
    requires size > LENGTH_802_3 ==> pos + size + 7 <= |b|
    decreases size
  {
    if size <= LENGTH_802_3 || !Wellformed(b, pos, size) then []
    else
      (if cloned(k) then [Frame(b, pos)] else [])
      + (if GoesOn(b, pos, size) then Announced(b, pos + Length(b, pos), size - Length(b, pos), cloned, k + 1) else [])
  }

  // The number returned counts a malformed subframe, too.
  function Count(b: seq<Octet>, pos: nat, size: nat): nat
    requires size > LENGTH_802_3 ==> pos + size + 7 <= |b|
    decreases size
  {
    if size <= LENGTH_802_3 then 0
    else if Wellformed(b, pos, size) && GoesOn(b, pos, size)
    then 1 + Count(b, pos + Length(b, pos), size - Length(b, pos))
    else 1
  }

  // --- The driver ---

  // A clone shares the memory of the packet: it is where its frame stands.
  datatype Span = Span(off: nat, len: nat)

  predicate Inside(spans: seq<Span>, end: nat) {
    forall i :: 0 <= i < |spans| ==> spans[i].off + spans[i].len <= end
  }

  function Shown(b: seq<Octet>, spans: seq<Span>): seq<seq<Octet>>
    requires Inside(spans, |b|)
  {
    seq(|spans|, i requires 0 <= i < |spans| => b[spans[i].off..spans[i].off + spans[i].len])
  }

  // Writing behind the announced frames does not change them.
  lemma ShownFrame(b: seq<Octet>, b': seq<Octet>, spans: seq<Span>, end: nat)
    requires Inside(spans, end) && end <= |b| == |b'| && b[..end] == b'[..end]
    ensures Shown(b, spans) == Shown(b', spans)
  {
    forall i | 0 <= i < |spans| ensures Shown(b, spans)[i] == Shown(b', spans)[i] {
      var s := spans[i];
      assert b[s.off..s.off + s.len] == b[..end][s.off..s.off + s.len];
      assert b'[s.off..s.off + s.len] == b'[..end][s.off..s.off + s.len];
    }
  }

  lemma ShownMore(b: seq<Octet>, spans: seq<Span>, s: Span)
    requires Inside(spans, |b|) && s.off + s.len <= |b|
    ensures Inside(spans + [s], |b|) && Shown(b, spans + [s]) == Shown(b, spans) + [b[s.off..s.off + s.len]]
  {
  }

  // Announce one well-formed subframe: where is the frame to be cloned?  The header is moved
  // over the LLC/SNAP header that is removed.
  method Convert(buf: array<Octet>, pos: nat) returns (s: Span)
    requires Readable(buf[..], pos) && pos + LENGTH_802_3 + PayloadSize(buf[..], pos) <= buf.Length
    modifies buf
    ensures s.off >= pos && s.off + s.len == pos + LENGTH_802_3 + PayloadSize(old(buf[..]), pos)
    ensures buf[s.off..s.off + s.len] == Frame(old(buf[..]), pos)
    ensures buf[..pos] == old(buf[..pos]) && buf[pos + 22..] == old(buf[pos + 22..])
  {
    hide PayloadSize, Removed;
    ghost var b := buf[..];
    SizeIs(b, pos);
    var payloadSize := Sixteen(buf[pos + 12], buf[pos + 13]);
    var llc := buf[pos + 14..pos + 22];
    assert llc == b[pos + 14..pos + 22];
    if Removed(llc) {
      var header := buf[pos..pos + 12] + buf[pos + 20..pos + 22];
      assert header == b[pos..pos + 12] + b[pos + 20..pos + 22];
      MoveMemory(buf, pos + 8, header);
      s := Span(pos + 8, payloadSize + 6);
      MovedOver(b, buf[..], pos, payloadSize);
    } else {
      s := Span(pos + LENGTH_802_3, payloadSize);
    }
  }

  lemma SizeIs(b: seq<Octet>, pos: nat)
    requires Readable(b, pos)
    ensures PayloadSize(b, pos) == Sixteen(b[pos + 12], b[pos + 13])
  {
  }

  lemma MovedOver(b: seq<Octet>, b': seq<Octet>, pos: nat, p: nat)
    requires pos + 22 <= |b| && pos + 14 + p <= |b|
    requires b' == b[..pos + 8] + (b[pos..pos + 12] + b[pos + 20..pos + 22]) + b[pos + 22..]
    ensures b'[pos + 8..pos + 14 + p] == (b[pos..pos + 12] + b[pos + 20..pos + 22] + b[pos + 22..])[..p + 6]
    ensures b'[..pos] == b[..pos] && b'[pos + 22..] == b[pos + 22..]
  {
    var rest := b[pos..pos + 12] + b[pos + 20..pos + 22] + b[pos + 22..];
    assert b' == b[..pos + 8] + rest;
    assert b'[pos + 8..] == rest;
    assert b'[pos + 8..pos + 14 + p] == b'[pos + 8..][..p + 6];
  }

  lemma NothingShown(b: seq<Octet>, end: nat)
    ensures Inside([], end) && Inside([], |b|) && Shown(b, []) == []
  {
  }

  lemma End(b: seq<Octet>, pos: nat, size: nat, cloned: nat -> bool, k: nat)
    requires size <= LENGTH_802_3
    ensures Announced(b, pos, size, cloned, k) == [] && Count(b, pos, size) == 0
  {
  }

  lemma Unfold(b: seq<Octet>, pos: nat, size: nat, cloned: nat -> bool, k: nat)
    requires size > LENGTH_802_3 && pos + size + 7 <= |b|
    ensures !Wellformed(b, pos, size) ==> Announced(b, pos, size, cloned, k) == [] && Count(b, pos, size) == 1
    ensures Wellformed(b, pos, size) && !GoesOn(b, pos, size) ==>
              Announced(b, pos, size, cloned, k) == (if cloned(k) then [Frame(b, pos)] else [])
              && Count(b, pos, size) == 1
    ensures Wellformed(b, pos, size) && GoesOn(b, pos, size) ==>
              var q := Length(b, pos);
              Announced(b, pos, size, cloned, k)
              == (if cloned(k) then [Frame(b, pos)] else []) + Announced(b, pos + q, size - q, cloned, k + 1)
              && Count(b, pos, size) == 1 + Count(b, pos + q, size - q)
  {
    hide Frame, PayloadSize, Pad4;
  }

  // What has not been rewritten yet is read as it arrived.
  lemma SameAhead(now: seq<Octet>, b: seq<Octet>, pos: nat)
    requires Readable(b, pos) && |b| == |now| && now[pos..] == b[pos..]
    ensures PayloadSize(now, pos) == PayloadSize(b, pos)
    ensures pos + LENGTH_802_3 + PayloadSize(b, pos) <= |b| ==> Frame(now, pos) == Frame(b, pos)
  {
    hide Removed, Frame;
    assert now[pos..][12] == b[pos..][12] && now[pos..][13] == b[pos..][13];
    hide PayloadSize;
    if pos + LENGTH_802_3 + PayloadSize(b, pos) <= |b| {
      SameFrame(now, b, pos);
    }
  }

  lemma SameFrame(now: seq<Octet>, b: seq<Octet>, pos: nat)
    requires Readable(b, pos) && |b| == |now| && now[pos..] == b[pos..]
    requires PayloadSize(now, pos) == PayloadSize(b, pos) && pos + LENGTH_802_3 + PayloadSize(b, pos) <= |b|
    ensures Frame(now, pos) == Frame(b, pos)
  {
    hide Removed, PayloadSize;
    SameSlice(now, b, pos, 0, 12);
    SameSlice(now, b, pos, 20, 22);
    SameSlice(now, b, pos, 14, 22);
    StillBehind(b, now, pos);
    SameSlice(now, b, pos, 14, 14 + PayloadSize(b, pos));
  }

  lemma SameSlice(now: seq<Octet>, b: seq<Octet>, pos: nat, lo: nat, hi: nat)
    requires lo <= hi && pos + hi <= |b| == |now| && now[pos..] == b[pos..]
    ensures now[pos + lo..pos + hi] == b[pos + lo..pos + hi]
  {
    var x, y := now[pos + lo..pos + hi], b[pos + lo..pos + hi];
    forall k | 0 <= k < hi - lo ensures x[k] == y[k] {
      assert now[pos..][lo + k] == b[pos..][lo + k];
    }
  }

  // What has been announced and counted and what still will be, make up the whole.
  ghost predicate Progress(b: seq<Octet>, pos: nat, size: nat, cloned: nat -> bool, k: nat, shown: seq<seq<Octet>>,
                           all: seq<seq<Octet>>, count: nat)
  {
    (size > LENGTH_802_3 ==> pos + size + 7 <= |b|)
    && shown + Announced(b, pos, size, cloned, k) == all && k + Count(b, pos, size) == count
  }

  lemma ProgressBegins(b: seq<Octet>, pos: nat, size: nat, cloned: nat -> bool)
    requires size > LENGTH_802_3 ==> pos + size + 7 <= |b|
    ensures Progress(b, pos, size, cloned, 0, [], Announced(b, pos, size, cloned, 0), Count(b, pos, size))
  {
    hide Announced, Count;
  }

  lemma ProgressEnds(b: seq<Octet>, pos: nat, size: nat, cloned: nat -> bool, k: nat, shown: seq<seq<Octet>>,
                     all: seq<seq<Octet>>, count: nat)
    requires Progress(b, pos, size, cloned, k, shown, all, count) && size <= LENGTH_802_3
    ensures shown == all && k == count
  {
  }

  lemma ProgressStops(b: seq<Octet>, pos: nat, size: nat, cloned: nat -> bool, k: nat, shown: seq<seq<Octet>>,
                      all: seq<seq<Octet>>, count: nat)
    requires size > LENGTH_802_3 && Progress(b, pos, size, cloned, k, shown, all, count) && !Wellformed(b, pos, size)
    ensures Progress(b, pos, 0, cloned, k + 1, shown, all, count)
  {
    hide Frame, PayloadSize, Pad4;
  }

  lemma ProgressStep(b: seq<Octet>, pos: nat, size: nat, cloned: nat -> bool, k: nat, shown: seq<seq<Octet>>,
                     all: seq<seq<Octet>>, count: nat, shown': seq<seq<Octet>>, q: nat, pos': nat)
    requires size > LENGTH_802_3 && Progress(b, pos, size, cloned, k, shown, all, count) && Wellformed(b, pos, size)
    requires shown' == shown + (if cloned(k) then [Frame(b, pos)] else []) && q == Length(b, pos)
    ensures GoesOn(b, pos, size) ==> Progress(b, pos + q, size - q, cloned, k + 1, shown', all, count)
    ensures !GoesOn(b, pos, size) ==> Progress(b, pos', 0, cloned, k + 1, shown', all, count)
  {
    hide Frame, PayloadSize, Pad4, Announced, Count;
    Unfold(b, pos, size, cloned, k);
    End(b, pos', 0, cloned, k + 1);
  }

  // deaggregate_AMSDU_announce.  The buffer has room behind the data for looking at a header.
  method Deaggregate(buf: array<Octet>, start: nat, dataSize: nat, cloned: nat -> bool)
    returns (spans: seq<Span>, nMsdu: nat)
    requires start + dataSize + 7 <= buf.Length
    modifies buf
    ensures Inside(spans, buf.Length)
    ensures Shown(buf[..], spans) == Announced(old(buf[..]), start, dataSize, cloned, 0)
    ensures nMsdu == Count(old(buf[..]), start, dataSize)
  {
    hide Announced, Count, Frame, PayloadSize, Pad4, Shown, Removed, Progress, Inside;
    ghost var b := buf[..];
    var pos: nat, size: nat := start, dataSize;
    spans, nMsdu := [], 0;
    NothingShown(b, pos);
    ghost var all, count := Announced(b, pos, size, cloned, 0), Count(b, pos, size);
    ProgressBegins(b, pos, size, cloned);
    while size > LENGTH_802_3
      invariant pos + size + 7 <= buf.Length
      invariant Inside(spans, pos) && Inside(spans, buf.Length)
      invariant Progress(b, pos, size, cloned, nMsdu, Shown(buf[..], spans), all, count)
      invariant size > LENGTH_802_3 ==> buf[pos..] == b[pos..]
      decreases size
    {
      ghost var shown, k := Shown(buf[..], spans), nMsdu;
      nMsdu := nMsdu + 1;
      var payloadSize := ReadSize(buf, pos, b);
      var subFrameSize := payloadSize + LENGTH_802_3;
      if size < subFrameSize || payloadSize > 1518 {
        ProgressStops(b, pos, size, cloned, k, shown, all, count);
        size := 0;
      } else {
        spans := Announce(buf, pos, cloned(nMsdu - 1), spans, b);
        var end := pos + subFrameSize;
        subFrameSize := Pad4(subFrameSize);
        ProgressStep(b, pos, size, cloned, k, shown, all, count, Shown(buf[..], spans), subFrameSize, end);
        InsideMore(spans, end, pos + subFrameSize);
        if subFrameSize > 1528 || subFrameSize < 32 || size <= subFrameSize {
          pos, size := end, 0;
        } else {
          Behind(buf[..], b, pos, subFrameSize);
          pos, size := pos + subFrameSize, size - subFrameSize;
        }
      }
    }
    ProgressEnds(b, pos, size, cloned, nMsdu, Shown(buf[..], spans), all, count);
  }

  lemma InsideMore(spans: seq<Span>, end: nat, end': nat)
    requires Inside(spans, end) && end <= end'
    ensures Inside(spans, end')
  {
  }

  lemma Behind(now: seq<Octet>, b: seq<Octet>, pos: nat, n: nat)
    requires pos + n <= |b| == |now| && n >= 22 && now[pos + 22..] == b[pos + 22..]
    ensures now[pos + n..] == b[pos + n..]
  {
    assert now[pos + n..] == now[pos + 22..][n - 22..];
    assert b[pos + n..] == b[pos + 22..][n - 22..];
  }

  lemma StillBehind(b: seq<Octet>, was: seq<Octet>, pos: nat)
    requires pos + 22 <= |b| == |was| && was[pos..] == b[pos..]
    ensures was[pos + 22..] == b[pos + 22..]
  {
    assert was[pos + 22..] == was[pos..][22..];
    assert b[pos + 22..] == b[pos..][22..];
  }

  method ReadSize(buf: array<Octet>, pos: nat, ghost b: seq<Octet>) returns (n: nat)
    requires Readable(b, pos) && |b| == buf.Length && buf[pos..] == b[pos..]
    ensures n == PayloadSize(b, pos)
  {
    assert buf[pos..][12] == b[pos..][12] && buf[pos..][13] == b[pos..][13];
    n := Sixteen(buf[pos + 12], buf[pos + 13]);
  }

  // Announce the subframe at pos, if the packet can be cloned.  From pos on the buffer b has
  // not been rewritten.
  method Announce(buf: array<Octet>, pos: nat, clone: bool, spans: seq<Span>, ghost b: seq<Octet>)
    returns (spans': seq<Span>)
    requires Readable(b, pos) && |b| == buf.Length && buf[pos..] == b[pos..]
    requires pos + LENGTH_802_3 + PayloadSize(b, pos) <= buf.Length
    requires Inside(spans, pos) && Inside(spans, buf.Length)
    modifies buf
    ensures Inside(spans', pos + LENGTH_802_3 + PayloadSize(b, pos)) && Inside(spans', buf.Length)
    ensures Shown(buf[..], spans') == old(Shown(buf[..], spans)) + (if clone then [Frame(b, pos)] else [])
    ensures buf[pos + 22..] == b[pos + 22..]
  {
    hide Frame, PayloadSize, Shown;
    ghost var now := buf[..];
    SameAhead(now, b, pos);
    StillBehind(b, now, pos);
    var s := Convert(buf, pos);
    ShownFrame(now, buf[..], spans, pos);
    spans' := spans;
    if clone {
      ShownMore(buf[..], spans, s);
      spans' := spans + [s];
    }
  }

  // --- Section 7.2.2.2 of IEEE 802.11n-2009: packing, and what splitting makes of it ---

  type Address = a: seq<Octet> | |a| == 6 witness [0, 0, 0, 0, 0, 0]

  datatype Msdu = Msdu(da: Address, sa: Address, payload: seq<Octet>)

  function Subframe(m: Msdu): (s: seq<Octet>)
    ensures |s| == LENGTH_802_3 + |m.payload|
  {
    m.da + m.sa + [High(|m.payload|), Low(|m.payload|)] + m.payload
  }

  // Every subframe but the last is padded to a multiple of four bytes.
  function Pack(ms: seq<Msdu>): seq<Octet> {
    if ms == [] then []
    else if |ms| == 1 then Subframe(ms[0])
    else Subframe(ms[0]) + seq(Pad4(|Subframe(ms[0])|) - |Subframe(ms[0])|, _ => 0) + Pack(ms[1..])
  }

  // An MSDU whose length the header can tell.
  predicate Sound(m: Msdu) { |m.payload| < 65536 }

  // The split goes on behind it.
  predicate Fits(m: Msdu) {
    32 <= Pad4(LENGTH_802_3 + |m.payload|) <= 1528
  }

  predicate Encapsulated(m: Msdu) {
    |m.payload| >= 8 && Removed(m.payload[..8])
  }

  // The Ethernet frame that carries the MSDU.
  function Ethernet(m: Msdu): seq<Octet> {
    if Encapsulated(m) then m.da + m.sa + m.payload[6..8] + m.payload[8..]
    else m.da + m.sa + [High(|m.payload|), Low(|m.payload|)] + m.payload
  }

  // What is announced for it if it has room for an LLC/SNAP header.
  function Up(m: Msdu): seq<Octet> {
    if Encapsulated(m) then Ethernet(m) else m.payload
  }

  function Ups(ms: seq<Msdu>): (u: seq<seq<Octet>>)
    ensures |u| == |ms|
  {
    seq(|ms|, i requires 0 <= i < |ms| => Up(ms[i]))
  }

  function Ethernets(ms: seq<Msdu>): (u: seq<seq<Octet>>)
    ensures |u| == |ms|
  {
    seq(|ms|, i requires 0 <= i < |ms| => Ethernet(ms[i]))
  }

  // What is announced for it in any case: in a short MSDU the header is looked for in the bytes
  // behind it, too.
  function Out(m: Msdu, tail: seq<Octet>): seq<Octet>
    requires |m.payload| + |tail| >= 8
  {
    var x := m.payload + tail;
    if Removed(x[..8]) then (m.da + m.sa + x[6..])[..|m.payload| + 6] else m.payload
  }

  lemma OutIsUp(m: Msdu, tail: seq<Octet>)
    requires |m.payload| >= 8
    ensures Out(m, tail) == Up(m)
  {
    hide Removed;
    var x, n := m.payload + tail, |m.payload|;
    assert x[..8] == m.payload[..8];
    assert x[6..] == m.payload[6..] + tail && m.payload[6..8] + m.payload[8..] == m.payload[6..];
    assert (m.da + m.sa + x[6..])[..n + 6] == m.da + m.sa + m.payload[6..];
  }

  // What splitting a packed body announces, with the bytes behind the body: it ends at the
  // first MSDU that is too long or behind which it does not go on.
  function Split(ms: seq<Msdu>, behind: seq<Octet>): seq<seq<Octet>>
    requires |behind| >= 7
  {
    if ms == [] || |ms[0].payload| > 1518 || (|ms| == 1 && ms[0].payload == []) then []
    else
      var tail := (Pack(ms) + behind)[|Subframe(ms[0])|..];
      TailIsLong(ms, behind);
      [Out(ms[0], tail)] + (if Fits(ms[0]) && |ms| > 1 then Split(ms[1..], behind) else [])
  }

  lemma TailIsLong(ms: seq<Msdu>, behind: seq<Octet>)
    requires ms != [] && |behind| >= 7 && (|ms| > 1 || ms[0].payload != [])
    ensures |Subframe(ms[0])| <= |Pack(ms)|
    ensures |ms[0].payload| + |(Pack(ms) + behind)[|Subframe(ms[0])|..]| >= 8
  {
    PackBegins(ms);
    if |ms| > 1 {
      PackNotEmpty(ms[1..]);
    }
  }

  // The last MSDU is not empty and, if it is short, not taken for one with a header.
  predicate Alone(m: Msdu, behind: seq<Octet>)
    requires |behind| >= 7
  {
    1 <= |m.payload| && (|m.payload| >= 8 || !Removed((m.payload + behind)[..8]))
  }

  predicate LengthsOk(ms: seq<Msdu>) {
    forall i :: 0 <= i < |ms| ==>
      |ms[i].payload| <= 1518 && (i + 1 < |ms| ==> 15 <= |ms[i].payload| <= 1514)
  }

  predicate Recoverable(ms: seq<Msdu>, behind: seq<Octet>)
    requires ms != [] && |behind| >= 7
  {
    LengthsOk(ms) && Alone(ms[|ms| - 1], behind)
  }

  lemma LengthsOkRest(ms: seq<Msdu>)
    requires ms != [] && LengthsOk(ms)
    ensures LengthsOk(ms[1..])
  {
    var rest := ms[1..];
    forall i | 0 <= i < |rest|
      ensures |rest[i].payload| <= 1518 && (i + 1 < |rest| ==> 15 <= |rest[i].payload| <= 1514)
    {
      assert rest[i] == ms[i + 1];
    }
  }

  lemma LengthsOkMore(ms: seq<Msdu>)
    requires ms != [] && LengthsOk(ms[1..])
    requires |ms[0].payload| <= 1518 && (|ms| > 1 ==> 15 <= |ms[0].payload| <= 1514)
    ensures LengthsOk(ms)
  {
    forall i | 0 <= i < |ms|
      ensures |ms[i].payload| <= 1518 && (i + 1 < |ms| ==> 15 <= |ms[i].payload| <= 1514)
    {
      if i > 0 {
        assert ms[i] == ms[1..][i - 1];
      }
    }
  }

  lemma FitsIff(m: Msdu)
    ensures Fits(m) <==> 15 <= |m.payload| <= 1514
  {
  }

  lemma LengthsOkFirst(ms: seq<Msdu>)
    requires ms != []
    ensures LengthsOk(ms) <==> |ms[0].payload| <= 1518 && (|ms| > 1 ==> Fits(ms[0])) && LengthsOk(ms[1..])
  {
    hide Fits;
    FitsIff(ms[0]);
    if LengthsOk(ms) {
      LengthsOkRest(ms);
    }
    if |ms[0].payload| <= 1518 && (|ms| > 1 ==> Fits(ms[0])) && LengthsOk(ms[1..]) {
      LengthsOkMore(ms);
    }
  }

  // All MSDUs come out exactly when none is too long, all but the last have between 15 and
  // 1514 bytes, and the last is not empty and not mistaken.
  lemma {:induction false} SplitIsUpsIff(ms: seq<Msdu>, behind: seq<Octet>)
    requires ms != [] && |behind| >= 7
    ensures Split(ms, behind) == Ups(ms) <==> Recoverable(ms, behind)
    decreases |ms|
  {
    hide Out, Up, Ups, Pack, Subframe, Fits, Alone, LengthsOk;
    var m, rest := ms[0], ms[1..];
    UpsAre(ms);
    LengthsOkFirst(ms);
    LengthsOkNone();
    if |m.payload| <= 1518 && (|ms| > 1 || m.payload != []) {
      TailIsLong(ms, behind);
      var tail := (Pack(ms) + behind)[|Subframe(m)|..];
      if |ms| > 1 && Fits(m) {
        FitsIff(m);
        OutIsUp(m, tail);
        SplitIsUpsIff(rest, behind);
        assert Split(ms, behind) == [Up(m)] + Split(rest, behind);
        assert Split(ms, behind)[1..] == Split(rest, behind) && Ups(ms)[1..] == Ups(rest);
      } else if |ms| == 1 {
        SingleIsUpIff(ms, behind);
      } else {
        assert |Split(ms, behind)| == 1;
      }
    } else {
      AloneNotEmpty(m, behind);
    }
  }

  lemma LengthsOkNone()
    ensures LengthsOk([])
  {
  }

  lemma AloneNotEmpty(m: Msdu, behind: seq<Octet>)
    requires |behind| >= 7
    ensures m.payload == [] ==> !Alone(m, behind)
  {
  }

  lemma SingleIsUpIff(ms: seq<Msdu>, behind: seq<Octet>)
    requires |ms| == 1 && |behind| >= 7 && 1 <= |ms[0].payload| <= 1518
    ensures Split(ms, behind) == Ups(ms) <==> Alone(ms[0], behind)
  {
    hide Removed, Subframe;
    var m := ms[0];
    TailIsLong(ms, behind);
    var tail := (Pack(ms) + behind)[|Subframe(m)|..];
    assert tail == behind;
    UpsAre(ms);
    assert Split(ms, behind) == [Out(m, behind)];
    assert [Out(m, behind)][0] == Out(m, behind) && [Up(m)][0] == Up(m);
    if |m.payload| >= 8 {
      OutIsUp(m, behind);
    } else if Removed((m.payload + behind)[..8]) {
      assert |Out(m, behind)| == |m.payload| + 6;
    }
  }

  // Each frame is as long as its MSDU, or six bytes longer.
  lemma {:induction false} SplitLengths(ms: seq<Msdu>, behind: seq<Octet>, i: nat)
    requires |behind| >= 7 && i < |Split(ms, behind)|
    ensures i < |ms|
    ensures var n := |ms[i].payload|; |Split(ms, behind)[i]| == n || |Split(ms, behind)[i]| == n + 6
    decreases |ms|
  {
    hide Removed, Pack, Subframe, Fits;
    TailIsLong(ms, behind);
    if i > 0 {
      SplitLengths(ms[1..], behind, i - 1);
    }
  }

  // The subframe at pos is that of m.
  predicate StandsAt(b: seq<Octet>, pos: nat, m: Msdu) {
    pos + LENGTH_802_3 + |m.payload| <= |b| && b[pos..pos + LENGTH_802_3 + |m.payload|] == Subframe(m)
  }

  lemma FrameOfSubframe(b: seq<Octet>, pos: nat, m: Msdu)
    requires StandsAt(b, pos, m) && Sound(m) && Readable(b, pos)
    ensures PayloadSize(b, pos) == |m.payload| && Frame(b, pos) == Out(m, b[pos + LENGTH_802_3 + |m.payload|..])
  {
    hide Removed;
    SizeOfSubframe(b, pos, m);
    SubframeParts(b, pos, m);
    hide PayloadSize, StandsAt;
    var x := m.payload + b[pos + LENGTH_802_3 + |m.payload|..];
    assert x == b[pos + 14..];
    assert x[..8] == b[pos + 14..pos + 22];
    assert x[6..] == b[pos + 20..] == b[pos + 20..pos + 22] + b[pos + 22..];
    assert b[pos..pos + 12] + b[pos + 20..pos + 22] + b[pos + 22..] == m.da + m.sa + x[6..];
  }

  lemma SizeOfSubframe(b: seq<Octet>, pos: nat, m: Msdu)
    requires StandsAt(b, pos, m) && Sound(m) && Readable(b, pos)
    ensures PayloadSize(b, pos) == |m.payload|
  {
    hide High, Low;
    var s := b[pos..pos + LENGTH_802_3 + |m.payload|];
    OctetsBack(|m.payload|);
    assert s[12] == b[pos + 12] == High(|m.payload|) && s[13] == b[pos + 13] == Low(|m.payload|);
  }

  lemma SubframeParts(b: seq<Octet>, pos: nat, m: Msdu)
    requires StandsAt(b, pos, m)
    ensures var n := |m.payload|; b[pos..pos + 12] == m.da + m.sa && b[pos + 14..pos + 14 + n] == m.payload
  {
    hide High, Low;
    var n := |m.payload|;
    var s := b[pos..pos + 14 + n];
    Part(b, pos, 14 + n, 0, 12);
    assert s[0..12] == m.da + m.sa;
    Part(b, pos, 14 + n, 14, 14 + n);
    assert s[14..14 + n] == m.payload;
  }

  // Cloning never fails.
  predicate Always(k: nat) { true }

  // The body of ms stands at pos, with room behind it.
  predicate Packed(b: seq<Octet>, pos: nat, ms: seq<Msdu>) {
    pos + |Pack(ms)| + 7 <= |b| && b[pos..pos + |Pack(ms)|] == Pack(ms)
  }

  lemma PackedFirst(b: seq<Octet>, pos: nat, ms: seq<Msdu>)
    requires ms != [] && Packed(b, pos, ms)
    ensures var n, size := |Subframe(ms[0])|, |Pack(ms)|;
            && n <= size && StandsAt(b, pos, ms[0])
            && b[pos + n..] == (Pack(ms) + b[pos + size..])[n..]
            && (|ms| == 1 ==> size == n)
            && (|ms| > 1 ==>
                  size == Pad4(n) + |Pack(ms[1..])| && |Pack(ms[1..])| >= 14 && Packed(b, pos + Pad4(n), ms[1..]))
  {
    hide Pad4, Subframe, Pack;
    var n, size := |Subframe(ms[0])|, |Pack(ms)|;
    PackBegins(ms);
    Part(b, pos, size, 0, n);
    Stands(b, pos, ms[0]);
    assert b[pos..] == Pack(ms) + b[pos + size..];
    assert b[pos..][n..] == b[pos + n..];
    if |ms| > 1 {
      PackNotEmpty(ms[1..]);
      Part(b, pos, size, Pad4(n), size);
    }
  }

  // What happens to the first MSDU of a packed body, and what is left to be split then.
  lemma SplitOfFirst(b: seq<Octet>, pos: nat, ms: seq<Msdu>, k: nat)
    requires ms != [] && Sound(ms[0]) && Packed(b, pos, ms) && (|ms| > 1 || ms[0].payload != [])
    ensures var m, size, n := ms[0], |Pack(ms)|, |Subframe(ms[0])|;
            n <= size && |m.payload| + |(Pack(ms) + b[pos + size..])[n..]| >= 8
            && var out := Out(m, (Pack(ms) + b[pos + size..])[n..]);
            && (|m.payload| > 1518 ==> Announced(b, pos, size, Always, k) == [])
            && (|m.payload| <= 1518 && (!Fits(m) || |ms| == 1) ==>
                  Announced(b, pos, size, Always, k) == [out] && Count(b, pos, size) == 1)
            && (Fits(m) && |ms| > 1 ==>
                  Pad4(n) <= size
                  && Announced(b, pos, size, Always, k)
                     == [out] + Announced(b, pos + Pad4(n), size - Pad4(n), Always, k + 1)
                  && Count(b, pos, size) == 1 + Count(b, pos + Pad4(n), size - Pad4(n)))
  {
    hide Frame, PayloadSize, Out, Removed, Announced, Count, Pack, Subframe, Pad4, StandsAt;
    var m, n, size := ms[0], |Subframe(ms[0])|, |Pack(ms)|;
    PackedFirst(b, pos, ms);
    TailIsLong(ms, b[pos + size..]);
    FrameOfSubframe(b, pos, m);
    Unfold(b, pos, size, Always, k);
    assert Pad4(n) == Length(b, pos);
    PadAtLeast(n);
    if Fits(m) {
      FitsIff(m);
    }
  }

  lemma PadAtLeast(n: nat)
    ensures n <= Pad4(n)
  {
  }

  // Splitting a packed body announces what Split says, whatever lengths its MSDUs have.
  lemma {:induction false} SplitOfPack(b: seq<Octet>, pos: nat, ms: seq<Msdu>, k: nat)
    requires ms != [] && (forall m :: m in ms ==> Sound(m)) && Packed(b, pos, ms)
    ensures Announced(b, pos, |Pack(ms)|, Always, k) == Split(ms, b[pos + |Pack(ms)|..])
    ensures Recoverable(ms, b[pos + |Pack(ms)|..]) ==> Count(b, pos, |Pack(ms)|) == |ms|
    decreases |ms|
  {
    hide Out, Announced, Count, Pack, Subframe, Pad4, Fits, Alone, LengthsOk, Packed;
    var m, size := ms[0], |Pack(ms)|;
    assert m in ms;
    PackedRoom(b, pos, ms);
    var behind := b[pos + size..];
    LengthsOkFirst(ms);
    AloneNotEmpty(m, behind);
    if |ms| == 1 && m.payload == [] {
      EmptyIsNotSplit(b, pos, ms, k);
    } else {
      SplitOfFirst(b, pos, ms, k);
      if |ms| > 1 && Fits(m) {
        var q := Pad4(|Subframe(m)|);
        assert forall x :: x in ms[1..] ==> x in ms;
        PackedFirst(b, pos, ms);
        FitsIff(m);
        SplitOfPack(b, pos + q, ms[1..], k + 1);
      }
    }
  }

  lemma PackedRoom(b: seq<Octet>, pos: nat, ms: seq<Msdu>)
    requires Packed(b, pos, ms)
    ensures pos + |Pack(ms)| + 7 <= |b|
  {
  }

  lemma EmptyIsNotSplit(b: seq<Octet>, pos: nat, ms: seq<Msdu>, k: nat)
    requires |ms| == 1 && ms[0].payload == []
    ensures |Pack(ms)| == 14 && Announced(b, pos, 14, Always, k) == []
  {
  }

  lemma Stands(b: seq<Octet>, pos: nat, m: Msdu)
    requires pos + |Subframe(m)| <= |b| && b[pos..pos + |Subframe(m)|] == Subframe(m)
    ensures StandsAt(b, pos, m)
  {
    hide Subframe;
  }

  lemma UpsAre(ms: seq<Msdu>)
    requires ms != []
    ensures |ms| == 1 ==> Ups(ms) == [Up(ms[0])]
    ensures Ups(ms) == [Up(ms[0])] + Ups(ms[1..])
    ensures Ups(ms[..0]) == []
  {
    hide Up;
  }

  lemma PackNotEmpty(ms: seq<Msdu>)
    requires ms != []
    ensures |Pack(ms)| >= 14
  {
  }

  lemma PackBegins(ms: seq<Msdu>)
    requires ms != []
    ensures var n, p := |Subframe(ms[0])|, Pack(ms);
            n <= |p| && p[0..n] == Subframe(ms[0])
            && (|ms| == 1 ==> |p| == n)
            && (|ms| > 1 ==> Pad4(n) <= |p| && p[Pad4(n)..|p|] == Pack(ms[1..]) && |p| == Pad4(n) + |Pack(ms[1..])|)
  {
    hide Subframe, Pad4;
  }

  lemma RecoveredIff(b: seq<Octet>, pos: nat, ms: seq<Msdu>)
    requires ms != [] && (forall m :: m in ms ==> Sound(m)) && Packed(b, pos, ms)
    ensures Announced(b, pos, |Pack(ms)|, Always, 0) == Ups(ms) <==> Recoverable(ms, b[pos + |Pack(ms)|..])
  {
    hide Announced, Pack, Split, Recoverable, Ups;
    SplitOfPack(b, pos, ms, 0);
    SplitIsUpsIff(ms, b[pos + |Pack(ms)|..]);
  }

  lemma LengthsTell(ms: seq<Msdu>, behind: seq<Octet>, i: nat)
    requires |behind| >= 7 && i < |ms| && !Encapsulated(ms[i])
    ensures Split(ms, behind) != Ethernets(ms)
  {
    hide Split, Removed;
    if |Split(ms, behind)| == |ms| {
      SplitLengths(ms, behind, i);
      assert |Ethernets(ms)[i]| == |ms[i].payload| + 14;
    }
  }

  // What is announced are the Ethernet frames of the MSDUs exactly when, besides, every MSDU
  // has an LLC/SNAP header that is removed; the others go up without their addresses.
  lemma AnnouncedIsEthernetIff(b: seq<Octet>, pos: nat, ms: seq<Msdu>)
    requires ms != [] && (forall m :: m in ms ==> Sound(m)) && Packed(b, pos, ms)
    ensures Announced(b, pos, |Pack(ms)|, Always, 0) == Ethernets(ms)
        <==> Recoverable(ms, b[pos + |Pack(ms)|..]) && forall m :: m in ms ==> Encapsulated(m)
  {
    hide Announced, Pack, Removed, Split, Recoverable, Packed;
    PackedRoom(b, pos, ms);
    var behind := b[pos + |Pack(ms)|..];
    SplitOfPack(b, pos, ms, 0);
    SplitIsUpsIff(ms, behind);
    if forall m :: m in ms ==> Encapsulated(m) {
      assert forall i :: 0 <= i < |ms| ==> ms[i] in ms;
      assert Ups(ms) == Ethernets(ms);
    } else {
      var m :| m in ms && !Encapsulated(m);
      var i :| 0 <= i < |ms| && ms[i] == m;
      LengthsTell(ms, behind, i);
    }
  }

  // The start of a bridge's configuration message: an LLC header that is not SNAP.
  const MESSAGE: seq<Octet> := [0x42, 0x42, 0x03, 0x00, 0x00, 0x00, 0x00, 0x00]
  const BRIDGE: Msdu := Msdu([0x01, 0x80, 0xc2, 0, 0, 0], [0x02, 0, 0, 0, 0, 1], MESSAGE)

  // It is announced without its Ethernet header, and what is packed behind it not at all.
  lemma HeaderIsLost(b: seq<Octet>)
    requires Packed(b, 0, [BRIDGE, BRIDGE])
    ensures Announced(b, 0, |Pack([BRIDGE, BRIDGE])|, Always, 0) == [MESSAGE] != [Ethernet(BRIDGE)]
  {
    var ms := [BRIDGE, BRIDGE];
    hide Announced, Pack, Packed, Out, Subframe;
    assert forall m :: m in ms ==> m == BRIDGE;
    PackedRoom(b, 0, ms);
    var behind := b[|Pack(ms)|..];
    assert b[0 + |Pack(ms)|..] == behind;
    SplitOfPack(b, 0, ms, 0);
    TailIsLong(ms, behind);
    OutIsUp(BRIDGE, (Pack(ms) + behind)[|Subframe(BRIDGE)|..]);
    assert !Encapsulated(BRIDGE) by {
      assert MESSAGE[..8] == MESSAGE && MESSAGE[..6][0] != SNAP_802_1H[0] && MESSAGE[..6][0] != SNAP_BRIDGE_TUNNEL[0];
    }
    assert Split(ms, behind) == [Up(BRIDGE)];
    assert |Ethernet(BRIDGE)| == 22;
  }

  // Seven bytes that, with a byte that happens to stand behind the body, look like a header.
  const SHORT: Msdu := Msdu([0x02, 0, 0, 0, 0, 2], [0x02, 0, 0, 0, 0, 1], SNAP_802_1H + [0x08])

  lemma ShortIsMistaken(b: seq<Octet>)
    requires Packed(b, 0, [SHORT]) && b[|Pack([SHORT])|] == 0
    ensures Announced(b, 0, |Pack([SHORT])|, Always, 0) != Ups([SHORT])
  {
    var ms := [SHORT];
    hide Announced, Pack, Split;
    PackedRoom(b, 0, ms);
    var behind := b[0 + |Pack(ms)|..];
    assert forall m :: m in ms ==> m == SHORT;
    RecoveredIff(b, 0, ms);
    var x := (SHORT.payload + behind)[..8];
    assert x == SNAP_802_1H + [0x08, 0];
    assert x[..6] == SNAP_802_1H && x[6..] == [0x08, 0];
    assert x[6..][0] != IPX[0] && x[6..][0] != APPLE_TALK[0];
  }

  // The driver on a packed body: the clones show what Split says.
  method SplitPacked(buf: array<Octet>, start: nat, ghost ms: seq<Msdu>, size: nat) returns (spans: seq<Span>, n: nat)
    requires ms != [] && (forall m :: m in ms ==> Sound(m)) && size == |Pack(ms)| && Packed(buf[..], start, ms)
    modifies buf
    ensures Inside(spans, buf.Length) && Shown(buf[..], spans) == Split(ms, old(buf[start + size..]))
    ensures Recoverable(ms, old(buf[start + size..])) ==> n == |ms| && Shown(buf[..], spans) == Ups(ms)
  {
    hide Announced, Count, Pack, Ups, Shown, Inside, Recoverable, Split, Packed;
    ghost var b := buf[..];
    PackedRoom(b, start, ms);
    ghost var behind := b[start + size..];
    assert behind == buf[start + size..];
    SplitOfPack(b, start, ms, 0);
    SplitIsUpsIff(ms, behind);
    spans, n := Deaggregate(buf, start, size, Always);
  }
}
