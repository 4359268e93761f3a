// A reference receiver in the terms of section 9.10.7.6 of IEEE 802.11n-2009: the last
// number passed up (WinStart - 1) and a map from held numbers to packets, no list and no
// blocks.  Data frames and BlockAckReqs are the standard's; the timeouts and the state
// without a last number are the driver's own, told in terms of the map.  The driver's session
// does what the receiver does whenever its block allocations succeed, every BlockAckReq is one
// of BarStandard (it names no held frame past the next number, and, while there is no last
// number, a StartSeq in the lower half of the circle), and a set-up finds nothing held.
module ReorderReference {
  import opened ReorderModel
  import opened ReorderInvariant
  import R = ReorderRefinement

  datatype Receiver = Receiver(
    last: Last,
    held: map<int, nat>,
    win: int,
    timer: int,
    up: seq<Frame>,
    released: seq<nat>)

  // Keep only numbers past n.
  function Past(held: map<int, nat>, n: int): map<int, nat> {
    map m | m in held && m > n :: held[m]
  }

  // The held frames numbered lo..hi, in ascending order.
  function HeldIn(held: map<int, nat>, lo: int, hi: int): seq<Frame>
    decreases hi - lo + 1
  {
    if lo > hi then []
    else (if lo in held then [Frame(lo, held[lo])] else []) + HeldIn(held, lo + 1, hi)
  }

  // The end of the consecutive run of held numbers after n.
  function RunEnd(held: map<int, nat>, n: int): int
    decreases |Past(held, n)|
  {
    if n + 1 in held then
      assert Past(held, n + 1) == Past(held, n) - {n + 1};
      RunEnd(held, n + 1)
    else n
  }

  // Pass up everything held up to n and let n be the last number.
  function AdvanceTo(r: Receiver, n: int): Receiver
    requires r.last.At?
  {
    r.(last := At(n), held := Past(r.held, n), up := r.up + HeldIn(r.held, r.last.n + 1, n))
  }

  // Pass up the consecutive run that has become complete.
  function Drain(r: Receiver): Receiver
    requires r.last.At?
  {
    AdvanceTo(r, RunEnd(r.held, r.last.n))
  }

  // Everything held, in ascending order; nothing is held past the window.
  function Flush(r: Receiver): Receiver {
    if r.last.Reset? then r
    else AdvanceTo(r, r.last.n + r.win).(last := Reset)
  }

  // A frame: old ones and copies are released, a frame past the window moves the window,
  // then the frame is held and the run after the last number is passed up.
  function Receive(r: Receiver, f: Frame, now: int): Receiver {
    if r.last.Reset? then
      r.(last := At(f.seqno), up := r.up + [f], timer := now)
    else if f.seqno <= r.last.n || f.seqno in r.held then
      r.(released := r.released + [f.pkt], timer := now)
    else
      var m := if f.seqno > r.last.n + r.win then AdvanceTo(r, f.seqno - r.win) else r;
      Drain(m.(held := m.held[f.seqno := f.pkt], timer := now))
  }

  function Expire(r: Receiver, now: int, hz: nat): Receiver {
    if TimeAfter(now, r.timer + Limit500(hz)) && |r.held| > 1 then
      Flush(r).(timer := now)
    else if TimeAfter(now, r.timer + Limit100(hz)) && |r.held| > 0 && r.last.At? then
      Drain(AdvanceTo(r, r.last.n + 1)).(timer := now)
    else r
  }

  // A request moves the window to StartSeq: what is held before it is passed up, and then the
  // run that starts with it.
  function BlockAckRequest(r: Receiver, start: int): Receiver {
    if r.last.Reset? then r.(last := At(start - 1))
    else if r.last.n + 1 < start then Drain(AdvanceTo(r, start - 1))
    else r
  }

  function RefStep(r: Receiver, e: Event, hz: nat): Receiver {
    match e
    case Tick(now) => Expire(r, now, hz)
    case Data(f, now) => Receive(r, f, now)
    case BlockAckReq(start) => BlockAckRequest(r, start)
    case Flushed => Flush(r)
    case Resized(win) => r.(win := win)
    case Marked => r.(last := Reset)
    case IdleTimer(now) => if TimeAfter(now, r.timer + 1000) then Flush(r) else r
    case Others(_) => r
  }

  function RefRun(r: Receiver, es: seq<Event>, hz: nat): Receiver
    decreases |es|
  {
    if es == [] then r else RefRun(RefStep(r, es[0], hz), es[1..], hz)
  }

  // nDropPacket counts the frames that come too late, and nothing else.
  lemma DropsCountLate(s: Rx, e: Event, hz: nat)
    ensures Step(Unbounded, s, e, hz).drops
         == s.drops + (if e.Data? && s.last.At? && e.f.seqno <= s.last.n then 1 else 0)
  {
    hide LeLen, RunLen, InsertPos, Ups, PushAll, TimeAfter, Limit100, Limit500;
  }

  // --- The session seen as a receiver ---

  function HeldMap(l: seq<Mpdu>): map<int, nat> {
    if l == [] then map[] else HeldMap(l[1..])[l[0].seqno := l[0].pkt]
  }

  function View(s: Rx): Receiver {
    Receiver(s.last, HeldMap(s.list), s.win, s.timer, s.up, s.released)
  }

  lemma {:induction false} HeldMapHolds(l: seq<Mpdu>, n: int)
    ensures n in HeldMap(l) <==> Holds(l, n)
  {
    if l != [] {
      HeldMapHolds(l[1..], n);
    }
  }

  lemma {:induction false} HeldMapRange(l: seq<Mpdu>, lo: int, hi: int)
    requires Sorted(l, lo, hi)
    ensures forall n :: n in HeldMap(l) ==> lo <= n <= hi
  {
    if l != [] {
      HeldMapRange(l[1..], l[0].seqno + 1, hi);
    }
  }

  lemma {:induction false} HeldMapSize(l: seq<Mpdu>, lo: int, hi: int)
    requires Sorted(l, lo, hi)
    ensures |HeldMap(l)| == |l|
  {
    if l != [] {
      HeldMapSize(l[1..], l[0].seqno + 1, hi);
      HeldMapRange(l[1..], l[0].seqno + 1, hi);
    }
  }

  // Below the head nothing is held.
  lemma {:induction false} HeldInSkips(held: map<int, nat>, lo: int, mid: int, hi: int)
    requires lo <= mid <= hi + 1
    requires forall n :: lo <= n < mid ==> n !in held
    ensures HeldIn(held, lo, hi) == HeldIn(held, mid, hi)
    decreases mid - lo
  {
    if lo < mid {
      HeldInSkips(held, lo + 1, mid, hi);
    }
  }

  lemma {:induction false} HeldInSame(h: map<int, nat>, h': map<int, nat>, lo: int, hi: int)
    requires forall n :: lo <= n <= hi ==> (n in h <==> n in h') && (n in h ==> h[n] == h'[n])
    ensures HeldIn(h, lo, hi) == HeldIn(h', lo, hi)
    decreases hi - lo + 1
  {
    if lo <= hi {
      HeldInSame(h, h', lo + 1, hi);
    }
  }

  lemma HeldMapAbove(l: seq<Mpdu>, n: int, lo: int, hi: int)
    requires Sorted(l, lo, hi) && (l == [] || l[0].seqno > n)
    ensures forall m :: m in HeldMap(l) ==> m > n
  {
    if l != [] {
      HeldMapRange(l[1..], l[0].seqno + 1, hi);
    }
  }

  lemma HeldInHead(h: map<int, nat>, q: int, pkt: nat, lo: int, hi: int)
    requires lo <= q <= hi && forall n :: n in h ==> n > q
    ensures HeldIn(h[q := pkt], lo, hi) == [Frame(q, pkt)] + HeldIn(h, q + 1, hi)
  {
    var h' := h[q := pkt];
    HeldInSkips(h', lo, q, hi);
    HeldInSame(h', h, q + 1, hi);
  }

  // Releasing a prefix of the list is reading the map in ascending order.
  lemma {:induction false} ReleaseIsHeldIn(l: seq<Mpdu>, n: int, lo: int, hi: int)
    requires Sorted(l, lo, hi)
    ensures Ups(l[..LeLen(Unbounded, l, n)]) == HeldIn(HeldMap(l), lo, n)
  {
    if l != [] && l[0].seqno <= n {
      var q := l[0].seqno;
      HeldMapRange(l[1..], q + 1, hi);
      ReleaseIsHeldIn(l[1..], n, q + 1, hi);
      HeldInHead(HeldMap(l[1..]), q, l[0].pkt, lo, n);
      ReleaseHead(l, n);
      hide HeldIn, Ups, LeLen;
    } else {
      NothingBelow(l, n, lo, hi);
      assert Ups(l[..0]) == [];
    }
  }

  lemma ReleaseHead(l: seq<Mpdu>, n: int)
    requires l != [] && l[0].seqno <= n
    ensures Ups(l[..LeLen(Unbounded, l, n)])
         == [Frame(l[0].seqno, l[0].pkt)] + Ups(l[1..][..LeLen(Unbounded, l[1..], n)])
  {
    var k := LeLen(Unbounded, l[1..], n);
    assert l[..k + 1] == [l[0]] + l[1..][..k];
  }

  lemma NothingBelow(l: seq<Mpdu>, n: int, lo: int, hi: int)
    requires Sorted(l, lo, hi) && (l == [] || l[0].seqno > n)
    ensures HeldIn(HeldMap(l), lo, n) == []
  {
    if lo <= n {
      HeldMapAbove(l, n, lo, hi);
      HeldInSkips(HeldMap(l), lo, n + 1, n);
    }
  }

  lemma {:induction false} ReleaseIsPast(l: seq<Mpdu>, n: int, lo: int, hi: int)
    requires Sorted(l, lo, hi)
    ensures HeldMap(l[LeLen(Unbounded, l, n)..]) == Past(HeldMap(l), n)
  {
    var k := LeLen(Unbounded, l, n);
    if l != [] && l[0].seqno <= n {
      ReleaseIsPast(l[1..], n, l[0].seqno + 1, hi);
      assert l[k..] == l[1..][k - 1..];
    } else {
      if l != [] {
        HeldMapRange(l[1..], l[0].seqno + 1, hi);
      }
      assert l[k..] == l;
    }
  }

  // Draining the list is draining the map.
  lemma {:induction false} RunLenIsRunEnd(l: seq<Mpdu>, start: int, hi: int)
    requires Sorted(l, start + 1, hi)
    ensures RunEnd(HeldMap(l), start) == start + RunLen(Unbounded, l, start)
    ensures RunLen(Unbounded, l, start) == LeLen(Unbounded, l, start + RunLen(Unbounded, l, start))
  {
    HeldMapRange(l, start + 1, hi);
    if l != [] && l[0].seqno == start + 1 {
      RunLenIsRunEnd(l[1..], start + 1, hi);
      HeldMapRange(l[1..], start + 2, hi);
      RunEndSame(HeldMap(l), HeldMap(l[1..]), start + 1);
    } else if l != [] {
      HeldMapRange(l[1..], l[0].seqno + 1, hi);
    }
  }

  lemma {:induction false} RunEndSame(h: map<int, nat>, h': map<int, nat>, n: int)
    requires forall m :: m > n ==> (m in h <==> m in h')
    ensures RunEnd(h, n) == RunEnd(h', n)
    decreases |Past(h, n)|
  {
    if n + 1 in h {
      assert Past(h, n + 1) == Past(h, n) - {n + 1};
      RunEndSame(h, h', n + 1);
    }
  }

  lemma UpdatesCommute(h: map<int, nat>, a: int, x: nat, b: int, y: nat)
    requires a != b
    ensures h[a := x][b := y] == h[b := y][a := x]
  {
  }

  lemma {:induction false} InsertIsUpdate(l: seq<Mpdu>, m: Mpdu, lo: int, hi: int)
    requires Sorted(l, lo, hi)
    ensures var i := InsertPos(Unbounded, l, m.seqno);
            HeldMap(l[..i] + [m] + l[i..]) == HeldMap(l)[m.seqno := m.pkt]
  {
    var i := InsertPos(Unbounded, l, m.seqno);
    var r := l[..i] + [m] + l[i..];
    if l != [] && l[0].seqno < m.seqno {
      InsertIsUpdate(l[1..], m, l[0].seqno + 1, hi);
      UpdatesCommute(HeldMap(l[1..]), m.seqno, m.pkt, l[0].seqno, l[0].pkt);
      assert r == [l[0]] + (l[1..][..i - 1] + [m] + l[1..][i - 1..]);
      hide InsertPos, Sorted;
    } else {
      assert r == [m] + l;
    }
  }

  lemma MoveToIsAdvance(s: Rx, n: int)
    requires s.last.At? && Sorted(s.list, s.last.n + 1, s.last.n + s.win)
    ensures View(MoveTo(Unbounded, s, n)) == AdvanceTo(View(s), n)
  {
    ReleaseIsHeldIn(s.list, n, s.last.n + 1, s.last.n + s.win);
    ReleaseIsPast(s.list, n, s.last.n + 1, s.last.n + s.win);
    hide Past, HeldIn, HeldMap, LeLen, Sorted, PushAll;
  }

  lemma DrainIsDrain(s: Rx)
    requires s.last.At? && Sorted(s.list, s.last.n + 1, s.last.n + s.win)
    ensures View(DrainInOrder(Unbounded, s, s.last.n)) == Drain(View(s))
  {
    hide Past, HeldIn, HeldMap, RunLen, RunEnd, Sorted, PushAll, Ups;
    RunIsRun(s.list, s.last.n, s.last.n + s.win);
  }

  lemma RunIsRun(l: seq<Mpdu>, n: int, hi: int)
    requires Sorted(l, n + 1, hi)
    ensures var k := RunLen(Unbounded, l, n);
            && RunEnd(HeldMap(l), n) == n + k && (k > 0 ==> l[k - 1].seqno == n + k)
            && Ups(l[..k]) == HeldIn(HeldMap(l), n + 1, n + k) && HeldMap(l[k..]) == Past(HeldMap(l), n + k)
  {
    hide Past, HeldIn, HeldMap, LeLen, RunLen, RunEnd, Sorted, Ups;
    var k := RunLen(Unbounded, l, n);
    RunLenIsRunEnd(l, n, hi);
    ReleaseIsHeldIn(l, n + k, n + 1, hi);
    ReleaseIsPast(l, n + k, n + 1, hi);
    RunLenSplits(l, n, hi);
  }

  lemma RefreshIsFlush(s: Rx)
    requires Inv(s)
    ensures View(Refresh(s)) == Flush(View(s))
  {
    if s.last.At? {
      SortedWiden(s.list, s.last.n + 2, s.last.n + s.win, s.last.n + 1, s.last.n + s.win);
      LeLenSplits(s.list, s.last.n + s.win, s.last.n + 1, s.last.n + s.win);
      MoveToIsAdvance(s, s.last.n + s.win);
      assert Refresh(s) == MoveTo(Unbounded, s, s.last.n + s.win).(last := Reset);
    } else {
      assert s.list[|s.list|..] == s.list && s.up + Ups(s.list[..0]) == s.up;
    }
  }

  lemma LongExpiry(s: Rx, now: int, hz: nat)
    requires Inv(s) && TimeAfter(now, s.timer + Limit500(hz)) && |s.list| > 1
    ensures View(Timeout(Unbounded, s, now, hz)) == Expire(View(s), now, hz)
  {
    hide Flush, Refresh, HeldMap, Sorted, TimeAfter, Limit100, Limit500;
    HeldMapSize(s.list, s.last.n + 2, s.last.n + s.win);
    RefreshIsFlush(s);
  }

  lemma ShortExpiry(s: Rx, now: int, hz: nat)
    requires Inv(s) && !(TimeAfter(now, s.timer + Limit500(hz)) && |s.list| > 1)
    ensures View(Timeout(Unbounded, s, now, hz)) == Expire(View(s), now, hz)
  {
    hide DrainInOrder, MoveTo, Drain, AdvanceTo, Sorted, TimeAfter, Limit100, Limit500;
    if s.list != [] {
      HeldMapSize(s.list, s.last.n + 2, s.last.n + s.win);
      SkipOneIsDrain(s, now);
    }
  }

  lemma TimeoutIsExpire(s: Rx, now: int, hz: nat)
    requires Inv(s)
    ensures View(Timeout(Unbounded, s, now, hz)) == Expire(View(s), now, hz)
  {
    hide Timeout, Expire, View, Inv;
    if TimeAfter(now, s.timer + Limit500(hz)) && |s.list| > 1 {
      LongExpiry(s, now, hz);
    } else {
      ShortExpiry(s, now, hz);
    }
  }

  lemma SkipOneIsDrain(s: Rx, now: int)
    requires Inv(s) && s.last.At?
    ensures var n := s.last.n + 1;
            View(DrainInOrder(Unbounded, MoveTo(Unbounded, s, n).(timer := now), n))
            == Drain(AdvanceTo(View(s), n)).(timer := now)
  {
    var n := s.last.n + 1;
    SortedWiden(s.list, s.last.n + 2, s.last.n + s.win, s.last.n + 1, s.last.n + s.win);
    MoveToIsAdvance(s, n);
    LeLenSplits(s.list, n, n + 1, s.last.n + s.win);
    var t := MoveTo(Unbounded, s, n).(timer := now);
    SortedWiden(t.list, n + 1, s.last.n + s.win, n + 1, n + s.win);
    DrainIsDrain(t);
  }

  // The frames for which the driver takes a block find one.
  predicate AllocOk(s: Rx, e: Event) {
    e.Data? && s.last.At? ==>
      if s.last.n + 2 <= e.f.seqno <= s.last.n + s.win then s.free != []
      else e.f.seqno > s.last.n + s.win ==> MoveTo(Unbounded, s, e.f.seqno - s.win).free != []
  }

  lemma EnqueueIsHold(s: Rx, f: Frame, lo: int, hi: int)
    requires s.free != [] && Sorted(s.list, lo, hi) && lo <= f.seqno <= hi
    ensures View(Enqueue(Unbounded, s, f))
         == if Holds(s.list, f.seqno) then View(s).(released := s.released + [f.pkt])
            else View(s).(held := HeldMap(s.list)[f.seqno := f.pkt])
  {
    var m := Mpdu(s.free[0], f.seqno, f.pkt);
    InsertSorted(s.list, m, lo, hi);
    InsertIsUpdate(s.list, m, lo, hi);
  }

  // Holding the next number and draining is passing it up and draining.
  lemma NextIsDrain(r: Receiver, f: Frame)
    requires r.last.At? && f.seqno == r.last.n + 1
    requires forall n :: n in r.held ==> n > f.seqno
    ensures Drain(r.(held := r.held[f.seqno := f.pkt])) == Drain(r.(last := At(f.seqno), up := r.up + [f]))
  {
    var h := r.held[f.seqno := f.pkt];
    RunEndSame(h, r.held, f.seqno);
    var n := RunEnd(h, f.seqno);
    RunEndBeyond(h, f.seqno);
    HeldInSame(h, r.held, f.seqno + 1, n);
    assert Past(h, n) == Past(r.held, n);
    assert HeldIn(h, r.last.n + 1, n) == [f] + HeldIn(h, f.seqno + 1, n);
  }

  lemma {:induction false} RunEndBeyond(h: map<int, nat>, n: int)
    ensures RunEnd(h, n) >= n
    decreases |Past(h, n)|
  {
    if n + 1 in h {
      assert Past(h, n + 1) == Past(h, n) - {n + 1};
      RunEndBeyond(h, n + 1);
    }
  }

  // A number with a gap before it changes no run.
  lemma HoldGapIsDrain(r: Receiver, f: Frame)
    requires r.last.At? && r.last.n + 1 !in r.held && f.seqno > r.last.n + 1
    requires forall n :: n in r.held ==> n > r.last.n
    ensures Drain(r.(held := r.held[f.seqno := f.pkt])) == r.(held := r.held[f.seqno := f.pkt])
  {
    var h := r.held[f.seqno := f.pkt];
    assert Past(h, r.last.n) == h;
    assert r.up + HeldIn(h, r.last.n + 1, r.last.n) == r.up;
  }

  lemma NextIsReceive(s: Rx, f: Frame, now: int)
    requires Inv(s) && s.last.At? && f.seqno == s.last.n + 1
    ensures View(Arrive(Unbounded, s, f, now)) == Receive(View(s), f, now)
  {
    HeldMapRange(s.list, s.last.n + 2, s.last.n + s.win);
    var t := PassUp(s.(timer := now, last := At(f.seqno)), f);
    SortedWiden(t.list, s.last.n + 2, s.last.n + s.win, t.last.n + 1, t.last.n + t.win);
    DrainIsDrain(t);
    NextIsDrain(View(s).(timer := now), f);
  }

  lemma WindowIsReceive(s: Rx, f: Frame, now: int)
    requires Inv(s) && s.last.At? && s.last.n + 2 <= f.seqno <= s.last.n + s.win && s.free != []
    ensures View(Arrive(Unbounded, s, f, now)) == Receive(View(s), f, now)
  {
    HeldMapRange(s.list, s.last.n + 2, s.last.n + s.win);
    HeldMapHolds(s.list, f.seqno);
    EnqueueIsHold(s.(timer := now), f, s.last.n + 2, s.last.n + s.win);
    HoldGapIsDrain(View(s).(timer := now), f);
  }

  // The frame at the end of a window just moved.
  lemma HoldAtEnd(r: Rx, f: Frame)
    requires 1 <= r.win <= MAX_BA_WIN && r.last == At(f.seqno - r.win) && r.free != []
    requires Sorted(r.list, f.seqno - r.win + 1, f.seqno - 1)
    ensures var t := Enqueue(Unbounded, r, f);
            View(DrainInOrder(Unbounded, t, t.last.Value()))
            == Drain(View(r).(held := HeldMap(r.list)[f.seqno := f.pkt]))
  {
    var lo := f.seqno - r.win + 1;
    NotHeldPast(r.list, lo, f.seqno - 1, f.seqno);
    SortedWiden(r.list, lo, f.seqno - 1, lo, f.seqno);
    EnqueueIsHold(r, f, lo, f.seqno);
    EnqueueAtWindowEnd(r, f);
    hide Enqueue, Drain;
    DrainIsDrain(Enqueue(Unbounded, r, f));
  }

  lemma SurpassIsReceive(s: Rx, f: Frame, now: int)
    requires Inv(s) && s.last.At? && f.seqno > s.last.n + s.win
    requires MoveTo(Unbounded, s, f.seqno - s.win).free != []
    ensures View(Surpass(Unbounded, s.(timer := now), f)) == Receive(View(s), f, now)
  {
    hide Drain, DrainInOrder, Enqueue, HeldMap, Sorted, HeldIn, Past, LeLen;
    var s1 := s.(timer := now);
    var w := f.seqno - s.win;
    HeldMapRange(s.list, s.last.n + 2, s.last.n + s.win);
    SortedWiden(s.list, s.last.n + 2, s.last.n + s.win, s.last.n + 1, s.last.n + s.win);
    MoveToIsAdvance(s1, w);
    CutToWindow(s1, f);
    HoldAtEnd(MoveTo(Unbounded, s1, w), f);
  }

  lemma NotHeldPast(l: seq<Mpdu>, lo: int, hi: int, n: int)
    requires Sorted(l, lo, hi) && hi < n
    ensures !Holds(l, n)
  {
    if Holds(l, n) {
      HoldsBounds(l, lo, hi, n);
    }
  }

  lemma ArriveIsReceive(s: Rx, f: Frame, now: int)
    requires Inv(s) && AllocOk(s, Data(f, now))
    ensures View(Arrive(Unbounded, s, f, now)) == Receive(View(s), f, now)
  {
    hide Surpass, DrainInOrder;
    if s.last.At? {
      if f.seqno == s.last.n + 1 {
        NextIsReceive(s, f, now);
      } else if f.seqno <= s.last.n {
      } else if f.seqno <= s.last.n + s.win {
        WindowIsReceive(s, f, now);
      } else {
        SurpassIsReceive(s, f, now);
      }
    }
  }

  // The requests the driver answers as the standard says: StartSeq is not held, or, without
  // a last number, lies in the lower half of the circle.
  predicate BarStandard(s: Rx, start: int) {
    if s.last.Reset? then start % SEQ_MODULUS < SEQ_MODULUS / 2
    else s.last.n < start ==> !Holds(s.list, start)
  }

  lemma {:induction false} HeldInEnd(h: map<int, nat>, lo: int, hi: int)
    requires hi !in h
    ensures HeldIn(h, lo, hi) == HeldIn(h, lo, hi - 1)
    decreases hi - lo + 1
  {
    if lo < hi {
      HeldInEnd(h, lo + 1, hi);
    }
  }

  // Nothing follows n, so draining from n changes nothing.
  lemma DrainAtGap(r: Receiver)
    requires r.last.At? && r.last.n + 1 !in r.held && forall n :: n in r.held ==> n > r.last.n
    ensures Drain(r) == r
  {
    assert Past(r.held, r.last.n) == r.held;
    assert HeldIn(r.held, r.last.n + 1, r.last.n) == [];
  }

  lemma BarFromLast(s: Rx, start: int)
    requires Inv(s) && s.last.At? && s.last.n < start
    ensures View(Bar(Unbounded, s, start)) == AdvanceTo(View(s), start).(last := At(start - 1))
  {
    SortedWiden(s.list, s.last.n + 2, s.last.n + s.win, s.last.n + 1, s.last.n + s.win);
    MoveToIsAdvance(s, start);
  }

  lemma BarPastGap(s: Rx, start: int)
    requires Inv(s) && s.last.At? && s.last.n + 1 < start && !Holds(s.list, start)
    ensures View(Bar(Unbounded, s, start)) == BlockAckRequest(View(s), start)
  {
    hide Bar, RunEnd;
    var r := View(s);
    BarFromLast(s, start);
    HeldMapHolds(s.list, start);
    HeldInEnd(r.held, s.last.n + 1, start);
    assert Past(r.held, start) == Past(r.held, start - 1);
    DrainAtGap(AdvanceTo(r, start - 1));
  }

  lemma BarPastHeld(s: Rx, start: int)
    requires Inv(s) && s.last.At? && s.last.n + 1 < start && Holds(s.list, start)
    ensures View(Bar(Unbounded, s, start)).last.n < BlockAckRequest(View(s), start).last.n
  {
    hide Bar;
    var m := AdvanceTo(View(s), start - 1);
    BarFromLast(s, start);
    HeldMapHolds(s.list, start);
    assert start in m.held;
    RunEndBeyond(m.held, start);
  }

  lemma BarWithoutLast(s: Rx, start: int)
    requires Inv(s) && s.last.Reset?
    ensures View(Bar(Unbounded, s, start)) == BlockAckRequest(View(s), start) <==> start % SEQ_MODULUS < SEQ_MODULUS / 2
  {
    assert s.up + Ups(s.list[..0]) == s.up;
    assert BarMovesOn(Unbounded, s, start) <==> start % SEQ_MODULUS < SEQ_MODULUS / 2;
  }

  lemma BarOfNext(s: Rx, start: int)
    requires Inv(s) && s.last.At? && start <= s.last.n + 1
    ensures View(Bar(Unbounded, s, start)) == View(s) && (s.last.n < start ==> !Holds(s.list, start))
  {
    if s.last.n < start {
      BarFromLast(s, start);
      if Holds(s.list, start) {
        HoldsBounds(s.list, s.last.n + 2, s.last.n + s.win, start);
      }
      HeldMapRange(s.list, s.last.n + 2, s.last.n + s.win);
      HeldInEnd(View(s).held, start, start);
      assert Past(View(s).held, start) == View(s).held;
    }
  }

  // The driver's answer to a BlockAckReq is the standard's exactly then.
  lemma BarIsRequestIff(s: Rx, start: int)
    requires Inv(s)
    ensures View(Bar(Unbounded, s, start)) == BlockAckRequest(View(s), start) <==> BarStandard(s, start)
  {
    hide Bar, AdvanceTo, Drain;
    if s.last.Reset? {
      BarWithoutLast(s, start);
    } else if start <= s.last.n + 1 {
      BarOfNext(s, start);
    } else if Holds(s.list, start) {
      BarPastHeld(s, start);
    } else {
      BarPastGap(s, start);
    }
  }

  // A frame that needs a block finds one, a BlockAckReq is answered as the standard has it, and
  // a new window or mark keeps the session's invariant.
  predicate Standard(s: Rx, e: Event) {
    match e
    case Data(_, _) => AllocOk(s, e)
    case BlockAckReq(start) => BarStandard(s, start)
    case _ => EventOk(s, e)
  }

  lemma StepIsRefStep(s: Rx, e: Event, hz: nat)
    requires Inv(s) && Standard(s, e)
    ensures View(Step(Unbounded, s, e, hz)) == RefStep(View(s), e, hz)
  {
    match e
    case Tick(now) => TimeoutIsExpire(s, now, hz);
    case Data(f, now) => ArriveIsReceive(s, f, now);
    case BlockAckReq(start) => BarIsRequestIff(s, start);
    case Flushed => RefreshIsFlush(s);
    case IdleTimer(now) => RefreshIsFlush(s);
    case _ =>
  }

  lemma StandardIsEventOk(s: Rx, e: Event)
    requires Standard(s, e)
    ensures EventOk(s, e)
  {
  }

  predicate StandardRun(s: Rx, es: seq<Event>, hz: nat)
    decreases |es|
  {
    es == [] ||
    (Standard(s, es[0]) && StandardRun(Step(Unbounded, s, es[0], hz), es[1..], hz))
  }

  // Over any run of such events the session is the reference receiver.
  lemma {:induction false} RunIsRefRun(s: Rx, es: seq<Event>, hz: nat)
    requires Inv(s) && StandardRun(s, es, hz)
    ensures View(Run(Unbounded, s, es, hz)) == RefRun(View(s), es, hz)
    decreases |es|
  {
    if es != [] {
      StandardIsEventOk(s, es[0]);
      hide Step, RefStep, Standard, AllocOk, BarStandard, EventOk, Inv;
      StepIsRefStep(s, es[0], hz);
      StepKeepsInv(s, es[0], hz);
      RunIsRefRun(Step(Unbounded, s, es[0], hz), es[1..], hz);
    }
  }

  // From the 12-bit driver to the standard: with true numbers in range and blocks to spare,
  // the frames the 12-bit session passes up are those of the reference receiver modulo 4096,
  // and it releases the same packets.
  lemma CircularRunIsReference(s: Rx, es: seq<Event>, hz: nat)
    requires Inv(s) && R.RunOk(s, es, hz) && StandardRun(s, es, hz)
    ensures var t := Run(Circular, R.WrapRx(s), R.WrapEvents(es), hz);
            var r := RefRun(View(s), es, hz);
            t.up == R.WrapFrames(r.up) && t.released == r.released && t.last == R.WrapLast(r.last)
  {
    R.RunRefines(s, es, hz);
    RunIsRefRun(s, es, hz);
    hide Run, RefRun, R.RunOk, StandardRun, Inv;
  }
}
