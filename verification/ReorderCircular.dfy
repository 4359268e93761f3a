// The invariant of the 12-bit session itself, carried over from the unbounded one: every
// 12-bit frame has exactly one true number within -2048..+2047 of the last one.
module ReorderCircular {
  import opened ReorderModel
  import opened ReorderInvariant
  import opened ReorderRefinement

  // How far q lies past base on the circle.
  function Dist(q: int, base: int): (d: int)
    ensures 0 <= d < SEQ_MODULUS
  {
    (q - base) % SEQ_MODULUS
  }

  predicate Is12Bit(q: int) { 0 <= q < SEQ_MODULUS }

  // Strictly ascending by distance from base, every distance in lo..hi.
  predicate SortedFrom(l: seq<Mpdu>, base: int, lo: int, hi: int) {
    l == [] ||
    (Is12Bit(l[0].seqno) && lo <= Dist(l[0].seqno, base) <= hi
     && SortedFrom(l[1..], base, Dist(l[0].seqno, base) + 1, hi))
  }

  ghost predicate CircularInv(s: Rx) {
    && 1 <= s.win <= MAX_BA_WIN
    && (s.last.Reset? ==> s.list == [])
    && (s.last.At? ==> Is12Bit(s.last.n) && SortedFrom(s.list, s.last.n, 2, s.win))
    && (forall i :: 0 <= i < |s.up| ==> Is12Bit(s.up[i].seqno))
  }

  predicate HoldsCircular(l: seq<Mpdu>, q: int) {
    l != [] && (l[0].seqno == q || HoldsCircular(l[1..], q))
  }

  predicate CircularStuckHead(s: Rx, f: Frame) {
    && s.last.At? && s.free == []
    && 2 <= Dist(f.seqno, s.last.n) <= s.win
    && HoldsCircular(s.list, (f.seqno + 1) % SEQ_MODULUS)
  }

  // Sequence numbers on the air have 12 bits.
  predicate AirEvent(e: Event) {
    match e
    case Data(f, _) => Is12Bit(f.seqno)
    case BlockAckReq(start) => Is12Bit(start)
    case Resized(win) => 1 <= win <= MAX_BA_WIN
    case _ => true
  }

  predicate CircularFits(s: Rx, win: int) {
    s.last.At? ==> forall i :: 0 <= i < |s.list| ==> Dist(s.list[i].seqno, s.last.n) <= win
  }

  // The events that keep the 12-bit invariant.
  predicate Kept(s: Rx, e: Event) {
    match e
    case Data(f, _) => !CircularStuckHead(s, f)
    case Resized(win) => CircularFits(s, win)
    case Marked => s.list == []
    case _ => true
  }

  // The true number of the 12-bit q nearest to the last number base.
  function Near(q: int, base: int): (n: int)
    requires Is12Bit(q)
    ensures -2048 <= n - base <= 2047 && Wrap(n) == q
  {
    base + (q - base + 2048) % SEQ_MODULUS - 2048
  }

  function LiftList(l: seq<Mpdu>, base: int): (r: seq<Mpdu>)
    ensures |r| == |l|
  {
    seq(|l|, i requires 0 <= i < |l| => l[i].(seqno := base + Dist(l[i].seqno, base)))
  }

  function Lift(s: Rx): Rx {
    if s.last.Reset? then s else s.(list := LiftList(s.list, s.last.n))
  }

  function LiftEvent(s: Rx, e: Event): Event
    requires AirEvent(e)
  {
    if s.last.Reset? then e else
    match e
    case Data(f, now) => Data(f.(seqno := Near(f.seqno, s.last.n)), now)
    case BlockAckReq(start) =>
      BlockAckReq(s.last.n - ((s.last.n - start + 2048) % SEQ_MODULUS - 2048))
    case _ => e
  }

  lemma LiftedEquals(q: int, base: int, n: int)
    requires Is12Bit(q) && 0 <= n - base < SEQ_MODULUS
    ensures base + Dist(q, base) == n <==> q == Wrap(n)
  {
  }

  lemma NearDist(q: int, base: int, win: int)
    requires Is12Bit(q) && 1 <= win <= MAX_BA_WIN
    ensures 2 <= Near(q, base) - base <= win <==> 2 <= Dist(q, base) <= win
  {
    var d := Dist(q, base);
    var k := (q - base) / SEQ_MODULUS;
    assert q - base == SEQ_MODULUS * k + d;
    if d < 2048 {
      assert q - base + 2048 == SEQ_MODULUS * k + (d + 2048);
      assert Near(q, base) == base + d;
    } else {
      assert q - base + 2048 == SEQ_MODULUS * (k + 1) + (d - 2048);
      assert Near(q, base) == base + d - SEQ_MODULUS;
    }
  }

  lemma WrapNext(n: int, q: int)
    requires Wrap(n) == q
    ensures Wrap(n + 1) == (q + 1) % SEQ_MODULUS
  {
  }

  lemma {:induction false} LiftListSorted(l: seq<Mpdu>, base: int, lo: int, hi: int)
    requires Is12Bit(base) && SortedFrom(l, base, lo, hi) && hi <= MAX_BA_WIN
    ensures Sorted(LiftList(l, base), base + lo, base + hi)
    ensures WrapList(LiftList(l, base)) == l
  {
    if l != [] {
      LiftListSorted(l[1..], base, Dist(l[0].seqno, base) + 1, hi);
      assert LiftList(l, base)[1..] == LiftList(l[1..], base);
      assert WrapList(LiftList(l, base))[1..] == WrapList(LiftList(l, base)[1..]);
      var n := base + Dist(l[0].seqno, base);
      assert Wrap(n) == l[0].seqno;
      assert WrapList(LiftList(l, base)) == [l[0]] + l[1..];
    }
  }

  lemma {:induction false} LiftListHolds(l: seq<Mpdu>, base: int, lo: int, hi: int, n: int)
    requires Is12Bit(base) && SortedFrom(l, base, lo, hi) && 0 <= lo && hi <= MAX_BA_WIN
    requires 0 <= n - base <= 4095
    ensures Holds(LiftList(l, base), n) <==> HoldsCircular(l, Wrap(n))
  {
    if l != [] {
      LiftedEquals(l[0].seqno, base, n);
      hide Dist, Wrap;
      LiftListHolds(l[1..], base, Dist(l[0].seqno, base) + 1, hi, n);
      assert LiftList(l, base)[1..] == LiftList(l[1..], base);
    }
  }

  lemma LiftUnwraps(s: Rx)
    requires CircularInv(s)
    ensures Inv(Lift(s)) && WrapRx(Lift(s)) == s
  {
    if s.last.At? {
      LiftListSorted(s.list, s.last.n, 2, s.win);
    }
    assert WrapFrames(s.up) == s.up;
    assert s.last.Reset? ==> WrapList(s.list) == s.list;
  }

  lemma {:induction false} WrapListSorted(l: seq<Mpdu>, base: int, lo: int, hi: int)
    requires Sorted(l, base + lo, base + hi) && 0 <= lo && hi <= MAX_BA_WIN
    ensures SortedFrom(WrapList(l), Wrap(base), lo, hi)
  {
    if l != [] {
      var d := l[0].seqno - base;
      assert Dist(Wrap(l[0].seqno), Wrap(base)) == d;
      WrapListSorted(l[1..], base, d + 1, hi);
      assert WrapList(l)[1..] == WrapList(l[1..]);
    }
  }

  lemma WrapKeepsInv(s: Rx)
    requires Inv(s)
    ensures CircularInv(WrapRx(s))
  {
    if s.last.At? {
      WrapListSorted(s.list, s.last.n, 2, s.win);
    }
  }

  lemma LiftFits(s: Rx, win: int)
    requires s.last.At?
    ensures Fits(Lift(s), win) <==> CircularFits(s, win)
  {
    hide Dist;
    var l := LiftList(s.list, s.last.n);
    assert forall i :: 0 <= i < |l| ==> l[i].seqno == s.last.n + Dist(s.list[i].seqno, s.last.n);
  }

  lemma LiftEventOk(s: Rx, e: Event)
    requires CircularInv(s) && AirEvent(e)
    ensures var e' := LiftEvent(s, e);
            WrapEvent(e') == e && InRange(Lift(s), e')
            && (EventOk(Lift(s), e') <==> Kept(s, e))
  {
    if s.last.At? && e.Resized? {
      LiftFits(s, e.win);
    } else if s.last.At? && e.Data? {
      hide Dist, Wrap, Near;
      var n := Near(e.f.seqno, s.last.n);
      NearDist(e.f.seqno, s.last.n, s.win);
      WrapNext(n, e.f.seqno);
      if 2 <= n - s.last.n <= s.win {
        LiftListHolds(s.list, s.last.n, 2, s.win, n + 1);
      }
    }
  }

  // Every event keeps the invariant of the 12-bit session, except a data frame whose
  // block allocation fails while its successor is held, a window too small for what is held,
  // and the mark on a session that holds something.
  lemma CircularStepKeepsInv(s: Rx, e: Event, hz: nat)
    requires CircularInv(s) && AirEvent(e) && Kept(s, e)
    ensures CircularInv(Step(Circular, s, e, hz))
  {
    hide Step, Inv;
    var u, e' := Lift(s), LiftEvent(s, e);
    LiftUnwraps(s);
    LiftEventOk(s, e);
    StepKeepsInv(u, e', hz);
    StepWraps(u, e', hz);
    WrapKeepsInv(Step(Unbounded, u, e', hz));
  }

  lemma HeadTooClose(t: Rx, n: int)
    requires t.last == At(Wrap(n)) && t.list != [] && t.list[0].seqno == Wrap(n + 1)
    ensures !CircularInv(t)
  {
    assert Dist(t.list[0].seqno, t.last.n) == 1;
  }

  lemma CircularStuckHeadLosesInv(s: Rx, f: Frame, now: int)
    requires CircularInv(s) && Is12Bit(f.seqno) && CircularStuckHead(s, f)
    ensures !CircularInv(Arrive(Circular, s, f, now))
  {
    hide Arrive, Inv, Lift, CircularInv, CircularStuckHead;
    var u, e' := Lift(s), LiftEvent(s, Data(f, now));
    LiftUnwraps(s);
    LiftEventOk(s, Data(f, now));
    hide LiftEvent;
    ArriveWraps(u, e'.f, now);
    StuckHeadLeavesSuccessor(u, e'.f, now);
    HeadTooClose(WrapRx(Arrive(Unbounded, u, e'.f, now)), e'.f.seqno);
  }

  // And the exception is real: in that case the invariant is lost.
  lemma CircularArriveKeepsInvIff(s: Rx, f: Frame, now: int)
    requires CircularInv(s) && Is12Bit(f.seqno)
    ensures CircularInv(Arrive(Circular, s, f, now)) <==> !CircularStuckHead(s, f)
  {
    hide Arrive, CircularInv, CircularStuckHead;
    if CircularStuckHead(s, f) {
      CircularStuckHeadLosesInv(s, f, now);
    } else {
      CircularStepKeepsInv(s, Data(f, now), 0);
    }
  }

  lemma {:induction false} SortedFromAt(l: seq<Mpdu>, base: int, lo: int, hi: int, i: nat)
    requires SortedFrom(l, base, lo, hi) && i < |l|
    ensures Is12Bit(l[i].seqno) && lo <= Dist(l[i].seqno, base) <= hi
  {
    if i > 0 {
      SortedFromAt(l[1..], base, Dist(l[0].seqno, base) + 1, hi, i - 1);
    }
  }

  // Exactly these events keep the invariant.
  lemma CircularStepKeepsInvIff(s: Rx, e: Event, hz: nat)
    requires CircularInv(s) && AirEvent(e)
    ensures CircularInv(Step(Circular, s, e, hz)) <==> Kept(s, e)
  {
    hide Arrive, CircularStuckHead, Dist;
    if Kept(s, e) {
      CircularStepKeepsInv(s, e, hz);
    } else if e.Data? {
      CircularArriveKeepsInvIff(s, e.f, e.now);
    } else if e.Resized? {
      var i :| 0 <= i < |s.list| && Dist(s.list[i].seqno, s.last.n) > e.win;
      if SortedFrom(s.list, s.last.n, 2, e.win) {
        SortedFromAt(s.list, s.last.n, 2, e.win, i);
      }
    }
  }

  predicate CircularRunOk(s: Rx, es: seq<Event>, hz: nat)
    decreases |es|
  {
    es == [] ||
    (AirEvent(es[0]) && Kept(s, es[0])
     && CircularRunOk(Step(Circular, s, es[0], hz), es[1..], hz))
  }

  lemma {:induction false} CircularRunKeepsInv(s: Rx, es: seq<Event>, hz: nat)
    requires CircularInv(s) && CircularRunOk(s, es, hz)
    ensures CircularInv(Run(Circular, s, es, hz))
    decreases |es|
  {
    hide Step, CircularInv, Kept;
    if es != [] {
      CircularStepKeepsInv(s, es[0], hz);
      CircularRunKeepsInv(Step(Circular, s, es[0], hz), es[1..], hz);
    }
  }

  // The list of a 12-bit session fits its window, as the driver asserts.
  lemma CircularListFits(s: Rx)
    requires CircularInv(s)
    ensures |s.list| < s.win || s.list == []
  {
    LiftUnwraps(s);
    if s.last.At? {
      SortedLength(Lift(s).list, s.last.n + 2, s.last.n + s.win);
    }
  }

  // What the lost invariant leads to, on a concrete run: 13 is held, no block is free, 12
  // arrives and is passed up although 13 is now next; 13 is retransmitted and passed up,
  // and the timeout then passes the held copy up a second time.
  const HELD: Rx := Rx([Mpdu(0, 13, 100)], At(10), 64, 0, 0, [], [], [])

  lemma StuckHeadMove(s: Rx)
    requires s == HELD
    ensures MoveTo(Circular, s, 12) == s.(last := At(12))
  {
    assert LeLen(Circular, s.list, 12) == 0;
    assert s.list[0..] == s.list;
    assert s.up + Ups(s.list[..0]) == [];
  }

  lemma ArriveUnallocated(s: Rx, f: Frame)
    requires s.last == At(10) && s.win == 64 && s.free == [] && f.seqno == 12
    ensures Arrive(Circular, s, f, s.timer) == PassUp(MoveTo(Circular, s, f.seqno), f)
  {
    hide MoveTo, Surpass, DrainInOrder, InsertPos;
    assert s.(timer := s.timer) == s;
  }

  lemma StuckHeadFirst(s: Rx, f: Frame)
    requires s == HELD && f == Frame(12, 101)
    ensures Arrive(Circular, s, f, 0) == s.(last := At(12), up := [f])
  {
    hide Arrive;
    StuckHeadMove(s);
    ArriveUnallocated(s, f);
    hide MoveTo;
    assert s.up + [f] == [f];
  }

  lemma StuckHeadSecond(s: Rx)
    requires s == HELD.(last := At(12), up := [Frame(12, 101)])
    ensures Arrive(Circular, s, Frame(13, 102), 0) == s.(last := At(13), up := [Frame(12, 101), Frame(13, 102)])
  {
    assert RunLen(Circular, s.list, 13) == 0;
    assert s.list[0..] == s.list;
    assert s.up + [Frame(13, 102)] + Ups(s.list[..0]) == [Frame(12, 101), Frame(13, 102)];
  }

  lemma StuckHeadRelease(s: Rx)
    requires s.list == HELD.list
    ensures MoveTo(Circular, s, 14).list == [] && MoveTo(Circular, s, 14).up == s.up + [Frame(13, 100)]
  {
    assert LeLen(Circular, s.list, 14) == 1;
    assert Ups(s.list[..1]) == [Frame(13, 100)];
  }

  lemma DrainNothing(s: Rx, n: int)
    requires s.list == []
    ensures DrainInOrder(Circular, s, n).up == s.up
  {
    assert s.up + Ups(s.list[..0]) == s.up;
  }

  lemma TimeIsUp()
    ensures TimeAfter(1000, 0 + Limit100(100)) && Norm(Circular, 13 + 1) == 14
  {
  }

  lemma StuckHeadThird(s: Rx)
    requires s == HELD.(last := At(13), up := [Frame(12, 101), Frame(13, 102)])
    ensures Timeout(Circular, s, 1000, 100).up == s.up + [Frame(13, 100)]
  {
    StuckHeadRelease(s);
    var t := MoveTo(Circular, s, 14).(timer := 1000);
    DrainNothing(t, 14);
    TimeIsUp();
    hide MoveTo, Refresh, DrainInOrder, TimeAfter, Limit100, Limit500, Norm;
    assert Timeout(Circular, s, 1000, 100) == DrainInOrder(Circular, t, 14);
  }

  lemma StuckHeadDeliversTwice()
    ensures CircularInv(HELD) && CircularStuckHead(HELD, Frame(12, 101))
    ensures Run(Circular, HELD, [Data(Frame(12, 101), 0), Data(Frame(13, 102), 0), Tick(1000)], 100).up
         == [Frame(12, 101), Frame(13, 102), Frame(13, 100)]
  {
    hide Arrive, Timeout;
    var es := [Data(Frame(12, 101), 0), Data(Frame(13, 102), 0), Tick(1000)];
    StuckHeadFirst(HELD, Frame(12, 101));
    var s1 := Step(Circular, HELD, es[0], 100);
    StuckHeadSecond(s1);
    var s2 := Step(Circular, s1, es[1], 100);
    StuckHeadThird(s2);
    assert es[1..] == [es[1], es[2]] && es[1..][1..] == [es[2]] && es[1..][1..][1..] == [];
    assert Run(Circular, HELD, es, 100) == Run(Circular, s1, es[1..], 100);
    assert Run(Circular, s1, es[1..], 100) == Run(Circular, s2, [es[2]], 100);
  }

  // And a BlockAckReq: 12 and 13 are held, 12 is asked for and passed up, but 13 stays behind
  // with 12 next; 12 is retransmitted and passed up a second time.
  const ASKED: Rx := Rx([Mpdu(0, 12, 100), Mpdu(1, 13, 101)], At(10), 64, 0, 0, [2], [], [])

  lemma RequestFirst()
    ensures Bar(Circular, ASKED, 12)
         == ASKED.(list := [Mpdu(1, 13, 101)], last := At(11), free := [0, 2], up := [Frame(12, 100)])
  {
    var l := ASKED.list;
    assert l[1..] == [Mpdu(1, 13, 101)] && l[..1] == [Mpdu(0, 12, 100)];
    assert LeLen(Circular, l[1..], 12) == 0;
    assert LeLen(Circular, l, 12) == 1;
    assert Ups(l[..1]) == [Frame(12, 100)];
    assert PushAll(l[..1], [2]) == PushAll([], [0, 2]) == [0, 2];
    hide LeLen, PushAll, Ups;
    assert BarMovesOn(Circular, ASKED, 12);
  }

  lemma RequestSecond(s: Rx)
    requires s == ASKED.(list := [Mpdu(1, 13, 101)], last := At(11), free := [0, 2], up := [Frame(12, 100)])
    ensures Arrive(Circular, s, Frame(12, 102), 0).up == [Frame(12, 100), Frame(12, 102), Frame(13, 101)]
  {
    var t := PassUp(s.(timer := 0, last := At(12)), Frame(12, 102));
    assert t.list[1..] == [];
    assert RunLen(Circular, t.list, 12) == 1;
    assert Ups(t.list[..1]) == [Frame(13, 101)];
    hide RunLen, Ups;
    assert Arrive(Circular, s, Frame(12, 102), 0) == DrainInOrder(Circular, t, 12);
  }

  lemma AskedIsGood()
    ensures CircularInv(ASKED)
  {
    var l := ASKED.list;
    assert l[1..] == [Mpdu(1, 13, 101)] && l[1..][1..] == [];
    assert Dist(12, 10) == 2 && Dist(13, 10) == 3;
    assert SortedFrom(l[1..], 10, 3, 64);
  }

  lemma RequestDeliversTwice()
    ensures CircularInv(ASKED)
    ensures var t := Step(Circular, ASKED, BlockAckReq(12), 100);
            t.last == At(11) && HoldsCircular(t.list, 13)
    ensures Run(Circular, ASKED, [BlockAckReq(12), Data(Frame(12, 102), 0)], 100).up
         == [Frame(12, 100), Frame(12, 102), Frame(13, 101)]
  {
    AskedIsGood();
    RequestFirst();
    var es := [BlockAckReq(12), Data(Frame(12, 102), 0)];
    hide Arrive, Bar;
    var s := Step(Circular, ASKED, es[0], 100);
    RequestSecond(s);
    assert es[1..] == [es[1]] && es[1..][1..] == [];
    assert Run(Circular, ASKED, es, 100) == Run(Circular, s, es[1..], 100);
  }
}
