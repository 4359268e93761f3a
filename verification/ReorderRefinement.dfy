// The 12-bit circular reorder buffer refines the unbounded one: as long as every frame's
// true number lies within -2048..+2047 of the true last number, both make the same moves.
module ReorderRefinement {
  import opened ReorderModel
  import opened ReorderInvariant

  function Wrap(n: int): int { n % SEQ_MODULUS }

  function WrapMpdu(m: Mpdu): Mpdu { m.(seqno := Wrap(m.seqno)) }

  function WrapFrame(f: Frame): Frame { f.(seqno := Wrap(f.seqno)) }

  function WrapList(l: seq<Mpdu>): (r: seq<Mpdu>)
    ensures |r| == |l|
  {
    seq(|l|, i requires 0 <= i < |l| => WrapMpdu(l[i]))
  }

  function WrapFrames(l: seq<Frame>): (r: seq<Frame>)
    ensures |r| == |l|
  {
    seq(|l|, i requires 0 <= i < |l| => WrapFrame(l[i]))
  }

  function WrapLast(l: Last): Last {
    if l.Reset? then Reset else At(Wrap(l.n))
  }

  function WrapRx(s: Rx): Rx {
    s.(list := WrapList(s.list), last := WrapLast(s.last), up := WrapFrames(s.up))
  }

  function WrapEvent(e: Event): Event {
    match e
    case Data(f, now) => Data(WrapFrame(f), now)
    case BlockAckReq(start) => BlockAckReq(Wrap(start))
    case _ => e
  }

  // The true numbers stay close enough for 12 bits to tell them apart.
  predicate InRange(s: Rx, e: Event) {
    match e
    case Data(f, _) => s.last.At? ==> -2048 <= f.seqno - s.last.n <= 2047
    case BlockAckReq(start) => s.last.At? ==> -2048 <= s.last.n - start <= 2047
    case _ => true
  }

  lemma CompareWraps(a: int, b: int)
    requires -2048 <= a - b <= 2047
    ensures Smaller(Circular, Wrap(a), Wrap(b)) <==> a < b
    ensures Wrap(a) == Wrap(b) <==> a == b
    ensures StepOne(Circular, Wrap(a), Wrap(b)) <==> a == b + 1
  {
    DifferenceWraps(a, b);
    DifferenceWraps(a, b + 1);
    SameWraps(a, b);
    SameWraps(a, b + 1);
    NormWraps(b, 1);
    InsideCircle(a - b);
  }

  lemma PlainCompare(a: int, b: int)
    ensures Smaller(Unbounded, a, b) <==> a < b
    ensures StepOne(Unbounded, a, b) <==> a == b + 1
    ensures Norm(Unbounded, a) == a
  {
  }

  lemma ModOfCircles(q: int, r: int)
    requires 0 <= r < SEQ_MODULUS
    ensures (q * SEQ_MODULUS + r) % SEQ_MODULUS == r
  {
  }

  // The difference of two numbers modulo 4096 is that of the numbers.
  lemma DifferenceWraps(a: int, b: int)
    ensures (Wrap(a) - Wrap(b)) % SEQ_MODULUS == Wrap(a - b)
  {
    var p, q := a / SEQ_MODULUS, b / SEQ_MODULUS;
    var x := Wrap(a) - Wrap(b);
    var k, r := x / SEQ_MODULUS, x % SEQ_MODULUS;
    assert a - b == (p - q + k) * SEQ_MODULUS + r;
    ModOfCircles(p - q + k, r);
  }

  lemma InsideCircle(d: int)
    requires -2048 <= d <= 2047
    ensures Wrap(d) == if d < 0 then d + SEQ_MODULUS else d
  {
    if d < 0 {
      ModOfCircles(-1, d + SEQ_MODULUS);
    }
  }

  lemma SameWraps(a: int, b: int)
    requires -2049 <= a - b <= 2047
    ensures Wrap(a) == Wrap(b) <==> a == b
  {
    var p, q := a / SEQ_MODULUS, b / SEQ_MODULUS;
    assert a == p * SEQ_MODULUS + Wrap(a) && b == q * SEQ_MODULUS + Wrap(b);
  }

  lemma NormWraps(a: int, k: int)
    ensures Norm(Circular, Wrap(a) + k) == Wrap(a + k)
  {
    var p, x := a / SEQ_MODULUS, Wrap(a) + k;
    var q, r := x / SEQ_MODULUS, x % SEQ_MODULUS;
    assert a + k == (p + q) * SEQ_MODULUS + r;
    ModOfCircles(p + q, r);
  }

  lemma {:induction false} LeLenWraps(l: seq<Mpdu>, n: int, lo: int, hi: int)
    requires Sorted(l, lo, hi) && -2048 <= lo - n && hi - n <= 2047
    ensures LeLen(Circular, WrapList(l), Wrap(n)) == LeLen(Unbounded, l, n)
  {
    if l != [] {
      CompareWraps(l[0].seqno, n);
      LeLenWraps(l[1..], n, l[0].seqno + 1, hi);
      assert WrapList(l)[1..] == WrapList(l[1..]);
    }
  }

  lemma {:induction false} InsertPosWraps(l: seq<Mpdu>, n: int, lo: int, hi: int)
    requires Sorted(l, lo, hi) && -2048 <= lo - n && hi - n <= 2047
    ensures var i := InsertPos(Unbounded, l, n);
            && InsertPos(Circular, WrapList(l), Wrap(n)) == i
            && (i < |l| ==> (Wrap(l[i].seqno) == Wrap(n) <==> l[i].seqno == n))
  {
    if l != [] {
      CompareWraps(l[0].seqno, n);
      InsertPosWraps(l[1..], n, l[0].seqno + 1, hi);
      assert WrapList(l)[1..] == WrapList(l[1..]);
    }
  }

  lemma {:induction false} RunLenWraps(l: seq<Mpdu>, start: int, lo: int, hi: int)
    requires Sorted(l, lo, hi) && -2048 <= lo - start && hi - start <= 2047
    ensures RunLen(Circular, WrapList(l), Wrap(start)) == RunLen(Unbounded, l, start)
  {
    if l != [] {
      CompareWraps(l[0].seqno, start);
      if l[0].seqno == start + 1 {
        RunLenWraps(l[1..], l[0].seqno, l[0].seqno + 1, hi);
      }
      assert WrapList(l)[1..] == WrapList(l[1..]);
    }
  }

  lemma {:induction false} PushAllWraps(l: seq<Mpdu>, free: seq<nat>)
    ensures PushAll(WrapList(l), free) == PushAll(l, free)
  {
    if l != [] {
      PushAllWraps(l[1..], [l[0].blk] + free);
      assert WrapList(l)[1..] == WrapList(l[1..]);
    }
  }

  lemma DeliverWraps(s: Rx, k: nat)
    requires k <= |s.list|
    ensures WrapRx(Deliver(s, k)) == Deliver(WrapRx(s), k)
  {
    PushAllWraps(s.list[..k], s.free);
    assert WrapList(s.list)[..k] == WrapList(s.list[..k]);
    assert WrapList(s.list)[k..] == WrapList(s.list[k..]);
    assert WrapFrames(s.up + Ups(s.list[..k])) == WrapFrames(s.up) + Ups(WrapList(s.list[..k]));
  }

  lemma PassUpWraps(s: Rx, f: Frame)
    ensures WrapRx(PassUp(s, f)) == PassUp(WrapRx(s), WrapFrame(f))
  {
    assert WrapFrames(s.up + [f]) == WrapFrames(s.up) + [WrapFrame(f)];
  }

  lemma MoveToWraps(s: Rx, n: int, lo: int, hi: int)
    requires Sorted(s.list, lo, hi) && -2048 <= lo - n && hi - n <= 2047
    ensures WrapRx(MoveTo(Unbounded, s, n)) == MoveTo(Circular, WrapRx(s), Wrap(n))
    ensures WrapRx(ReleaseLe(Unbounded, s, n)) == ReleaseLe(Circular, WrapRx(s), Wrap(n))
  {
    LeLenWraps(s.list, n, lo, hi);
    DeliverWraps(s, LeLen(Unbounded, s.list, n));
  }

  lemma DrainWraps(s: Rx, start: int, lo: int, hi: int)
    requires Sorted(s.list, lo, hi) && -2048 <= lo - start && hi - start <= 2047
    ensures WrapRx(DrainInOrder(Unbounded, s, start)) == DrainInOrder(Circular, WrapRx(s), Wrap(start))
  {
    RunLenWraps(s.list, start, lo, hi);
    DeliverWraps(s, RunLen(Unbounded, s.list, start));
  }

  lemma EnqueueWraps(s: Rx, f: Frame, lo: int, hi: int)
    requires Sorted(s.list, lo, hi) && -2048 <= lo - f.seqno && hi - f.seqno <= 2047
    ensures WrapRx(Enqueue(Unbounded, s, f)) == Enqueue(Circular, WrapRx(s), WrapFrame(f))
  {
    if s.free == [] {
      MoveToWraps(s, f.seqno, lo, hi);
      PassUpWraps(MoveTo(Unbounded, s, f.seqno), f);
    } else {
      var i := InsertPos(Unbounded, s.list, f.seqno);
      InsertPosWraps(s.list, f.seqno, lo, hi);
      var m := Mpdu(s.free[0], f.seqno, f.pkt);
      assert WrapList(s.list[..i] + [m] + s.list[i..])
          == WrapList(s.list)[..i] + [WrapMpdu(m)] + WrapList(s.list)[i..];
    }
  }

  // The 100 ms branch of the timeout flush.
  lemma SkipOneWraps(s: Rx, now: int)
    requires Inv(s) && s.last.At?
    ensures var n := s.last.n + 1;
            WrapRx(DrainInOrder(Unbounded, MoveTo(Unbounded, s, n).(timer := now), n))
            == DrainInOrder(Circular, MoveTo(Circular, WrapRx(s), Wrap(n)).(timer := now), Wrap(n))
  {
    var n := s.last.n + 1;
    MoveToWraps(s, n, n + 1, s.last.n + s.win);
    LeLenSplits(s.list, n, n + 1, s.last.n + s.win);
    DrainWraps(MoveTo(Unbounded, s, n).(timer := now), n, n + 1, s.last.n + s.win);
  }

  lemma TimeoutWraps(s: Rx, now: int, hz: nat)
    requires Inv(s)
    ensures WrapRx(Timeout(Unbounded, s, now, hz)) == Timeout(Circular, WrapRx(s), now, hz)
  {
    hide DrainInOrder, MoveTo;
    if TimeAfter(now, s.timer + Limit500(hz)) && |s.list| > 1 {
      DeliverWraps(s, |s.list|);
    } else if s.list != [] {
      NormWraps(s.last.n, 1);
      SkipOneWraps(s, now);
    }
  }

  lemma SurpassWraps(s: Rx, f: Frame)
    requires Inv(s) && s.last.At? && s.win < f.seqno - s.last.n <= 2047
    ensures WrapRx(Surpass(Unbounded, s, f)) == Surpass(Circular, WrapRx(s), WrapFrame(f))
  {
    hide DrainInOrder, Enqueue;
    var w := f.seqno - s.win;
    NormWraps(f.seqno, -s.win);
    var r := MoveTo(Unbounded, s, w);
    assert Sorted(r.list, w + 1, f.seqno - 1) by {
      CutToWindow(s, f);
    }
    MoveToWraps(s, w, s.last.n + 2, s.last.n + s.win);
    QueueAndDrainWraps(r, f);
  }

  lemma QueueAndDrainWraps(r: Rx, f: Frame)
    requires 1 <= r.win <= MAX_BA_WIN && r.last == At(f.seqno - r.win)
    requires Sorted(r.list, f.seqno - r.win + 1, f.seqno - 1)
    ensures var t := Enqueue(Unbounded, r, f);
            var t' := Enqueue(Circular, WrapRx(r), WrapFrame(f));
            WrapRx(DrainInOrder(Unbounded, t, t.last.Value())) == DrainInOrder(Circular, t', t'.last.Value())
  {
    EnqueueWraps(r, f, f.seqno - r.win + 1, f.seqno - 1);
    EnqueueAtWindowEnd(r, f);
    var t := Enqueue(Unbounded, r, f);
    DrainWraps(t, t.last.n, t.last.n + 1, t.last.n + t.win);
  }

  lemma ArriveWraps(s: Rx, f: Frame, now: int)
    requires Inv(s) && InRange(s, Data(f, now))
    ensures WrapRx(Arrive(Unbounded, s, f, now)) == Arrive(Circular, WrapRx(s), WrapFrame(f), now)
  {
    hide DrainInOrder, Enqueue, Surpass, Wrap, WrapList, WrapFrames, Smaller, StepOne, Norm;
    var s1 := s.(timer := now);
    assert WrapRx(s1) == WrapRx(s).(timer := now);
    if s.last.Reset? {
      PassUpWraps(s1.(last := At(f.seqno)), f);
    } else {
      CompareWraps(f.seqno, s.last.n);
      PlainCompare(f.seqno, s.last.n);
      if f.seqno == s.last.n + 1 {
        var g := PassUp(s1.(last := At(f.seqno)), f);
        PassUpWraps(s1.(last := At(f.seqno)), f);
        DrainWraps(g, f.seqno, s.last.n + 2, s.last.n + s.win);
      } else if f.seqno > s.last.n {
        CompareWraps(f.seqno, s.last.n + s.win + 1);
        PlainCompare(s.last.n + s.win + 1, f.seqno);
        PlainCompare(f.seqno, s.last.n + s.win + 1);
        NormWraps(s.last.n, s.win + 1);
        if f.seqno <= s.last.n + s.win {
          EnqueueWraps(s1, f, s.last.n + 2, s.last.n + s.win);
        } else {
          SurpassWraps(s1, f);
        }
      }
    }
  }

  lemma ResetWraps(start: int)
    ensures (RESET_RCV_SEQ - Wrap(start)) % SEQ_MODULUS == (RESET_RCV_SEQ - start) % SEQ_MODULUS
  {
    var x := RESET_RCV_SEQ - Wrap(start);
    var q, k, r := start / SEQ_MODULUS, x / SEQ_MODULUS, x % SEQ_MODULUS;
    assert RESET_RCV_SEQ - start == (k - q) * SEQ_MODULUS + r;
    ModOfCircles(k - q, r);
  }

  lemma BarWraps(s: Rx, start: int)
    requires Inv(s) && InRange(s, BlockAckReq(start))
    ensures WrapRx(Bar(Unbounded, s, start)) == Bar(Circular, WrapRx(s), Wrap(start))
  {
    hide Wrap, WrapList, WrapFrames, Smaller, Norm, ReleaseLe;
    PlainCompare(start - 1, s.last.Value());
    if s.last.At? {
      PlainCompare(s.last.n, start);
      CompareWraps(s.last.n, start);
      NormWraps(start, -1);
      if s.last.n < start {
        MoveToWraps(s, start, s.last.n + 2, s.last.n + s.win);
      }
    } else {
      ResetWraps(start);
      NormWraps(start, -1);
      MoveToWraps(s, start, start, start);
    }
  }

  lemma StepWraps(s: Rx, e: Event, hz: nat)
    requires Inv(s) && InRange(s, e)
    ensures WrapRx(Step(Unbounded, s, e, hz)) == Step(Circular, WrapRx(s), WrapEvent(e), hz)
  {
    match e
    case Tick(now) => TimeoutWraps(s, now, hz);
    case Data(f, now) => ArriveWraps(s, f, now);
    case BlockAckReq(start) => BarWraps(s, start);
    case Flushed => DeliverWraps(s, |s.list|);
    case Resized(win) =>
    case Marked =>
    case IdleTimer(now) => DeliverWraps(s, |s.list|);
    case Others(free) =>
  }

  function WrapEvents(es: seq<Event>): (r: seq<Event>)
    ensures |r| == |es|
  {
    seq(|es|, i requires 0 <= i < |es| => WrapEvent(es[i]))
  }

  predicate RunOk(s: Rx, es: seq<Event>, hz: nat)
    decreases |es|
  {
    es == [] ||
    (EventOk(s, es[0]) && InRange(s, es[0]) && RunOk(Step(Unbounded, s, es[0], hz), es[1..], hz))
  }

  // Refinement over any run: the 12-bit session is the unbounded one seen modulo 4096,
  // its list, its last number and everything it passed up and released.
  lemma {:induction false} RunRefines(s: Rx, es: seq<Event>, hz: nat)
    requires Inv(s) && RunOk(s, es, hz)
    ensures Inv(Run(Unbounded, s, es, hz))
    ensures WrapRx(Run(Unbounded, s, es, hz)) == Run(Circular, WrapRx(s), WrapEvents(es), hz)
    decreases |es|
  {
    hide Step, Inv, EventOk, InRange;
    if es != [] {
      StepKeepsInv(s, es[0], hz);
      StepWraps(s, es[0], hz);
      RunRefines(Step(Unbounded, s, es[0], hz), es[1..], hz);
      assert WrapEvents(es)[1..] == WrapEvents(es[1..]);
    }
  }
}
