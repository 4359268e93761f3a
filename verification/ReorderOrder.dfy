// The order in which a session passes frames up.  An epoch is a stretch of events between
// two resets of LastIndSeq; only inside an epoch is any order promised.
module ReorderOrder {
  import opened ReorderModel
  import opened ReorderInvariant
  import R = ReorderRefinement

  // Strictly increasing numbers, all past lo and none past hi.
  predicate Climbs(u: seq<Frame>, lo: int, hi: int) {
    u == [] || (lo < u[0].seqno <= hi && Climbs(u[1..], u[0].seqno, hi))
  }

  // What a step from s to t passed up.
  function NewUps(s: Rx, t: Rx): seq<Frame> {
    if |s.up| <= |t.up| then t.up[|s.up|..] else []
  }

  predicate Extends(s: Rx, t: Rx) {
    |s.up| <= |t.up| && t.up[..|s.up|] == s.up
  }

  lemma {:induction false} ClimbsAt(u: seq<Frame>, lo: int, hi: int, i: nat)
    requires Climbs(u, lo, hi) && i < |u|
    ensures lo < u[i].seqno <= hi
    ensures forall j :: i < j < |u| ==> u[i].seqno < u[j].seqno
  {
    if i == 0 {
      forall j | 0 < j < |u| ensures u[0].seqno < u[j].seqno {
        ClimbsAt(u[1..], u[0].seqno, hi, j - 1);
      }
    } else {
      ClimbsAt(u[1..], u[0].seqno, hi, i - 1);
      assert forall j :: i < j < |u| ==> u[j] == u[1..][j - 1];
    }
  }

  lemma {:induction false} RepeatNotClimbs(u: seq<Frame>, lo: int, hi: int, i: nat, j: nat)
    requires i < j < |u| && u[i].seqno >= u[j].seqno
    ensures !Climbs(u, lo, hi)
  {
    if Climbs(u, lo, hi) {
      ClimbsAt(u, lo, hi, i);
    }
  }

  lemma {:induction false} PastNotClimbs(u: seq<Frame>, lo: int, hi: int, i: nat)
    requires i < |u| && u[i].seqno > hi
    ensures !Climbs(u, lo, hi)
  {
    if Climbs(u, lo, hi) {
      ClimbsAt(u, lo, hi, i);
    }
  }

  lemma {:induction false} ClimbsJoin(u: seq<Frame>, v: seq<Frame>, lo: int, mid: int, hi: int)
    requires Climbs(u, lo, mid) && Climbs(v, mid, hi) && lo <= mid <= hi
    ensures Climbs(u + v, lo, hi)
  {
    if u == [] {
      assert u + v == v;
      ClimbsWiden(v, mid, hi, lo, hi);
    } else {
      ClimbsJoin(u[1..], v, u[0].seqno, mid, hi);
      assert (u + v)[1..] == u[1..] + v;
    }
  }

  lemma {:induction false} ClimbsWiden(u: seq<Frame>, lo: int, hi: int, lo': int, hi': int)
    requires Climbs(u, lo, hi) && lo' <= lo && hi <= hi'
    ensures Climbs(u, lo', hi')
  {
    if u != [] {
      ClimbsWiden(u[1..], u[0].seqno, hi, u[0].seqno, hi');
    }
  }

  lemma {:induction false} SortedUps(l: seq<Mpdu>, lo: int, hi: int)
    requires Sorted(l, lo, hi)
    ensures Climbs(Ups(l), lo - 1, hi)
  {
    if l != [] {
      SortedUps(l[1..], l[0].seqno + 1, hi);
      assert Ups(l)[1..] == Ups(l[1..]);
    }
  }

  lemma DeliverExtends(s: Rx, k: nat)
    requires k <= |s.list|
    ensures Extends(s, Deliver(s, k)) && NewUps(s, Deliver(s, k)) == Ups(s.list[..k])
  {
  }

  lemma JoinUps(s: Rx, t: Rx, v: Rx, lo: int, mid: int, hi: int)
    requires Extends(s, t) && Extends(t, v) && lo <= mid <= hi
    requires Climbs(NewUps(s, t), lo, mid) && Climbs(NewUps(t, v), mid, hi)
    ensures Extends(s, v) && Climbs(NewUps(s, v), lo, hi)
  {
    hide Climbs;
    ClimbsJoin(NewUps(s, t), NewUps(t, v), lo, mid, hi);
    var a, b := |s.up|, |t.up|;
    assert v.up[..b][a..] == v.up[a..b] && v.up[..b][..a] == v.up[..a];
    assert v.up[a..] == v.up[a..b] + v.up[b..];
  }

  // The relation every step inside an epoch satisfies: new frames climb from the old last
  // number to the new one, or to the end of the window when the step ends the epoch.
  predicate Ordered(s: Rx, t: Rx)
    requires s.last.At?
  {
    && Extends(s, t)
    && (t.last.At? ==> s.last.n <= t.last.n && Climbs(NewUps(s, t), s.last.n, t.last.n))
    && (t.last.Reset? ==> Climbs(NewUps(s, t), s.last.n, s.last.n + s.win))
  }

  lemma OrderedTwice(s: Rx, t: Rx, v: Rx)
    requires s.last.At? && t.last.At? && v.last.At?
    requires Ordered(s, t) && Ordered(t, v)
    ensures Ordered(s, v)
  {
    JoinUps(s, t, v, s.last.n, t.last.n, v.last.n);
  }

  lemma DrainOrdered(s: Rx)
    requires s.last.At? && 1 <= s.win && Sorted(s.list, s.last.n + 1, s.last.n + s.win)
    ensures Ordered(s, DrainInOrder(Unbounded, s, s.last.n))
  {
    var k := RunLen(Unbounded, s.list, s.last.n);
    RunLenSplits(s.list, s.last.n, s.last.n + s.win);
    DeliverExtends(s, k);
    ConsecutiveClimb(s.list[..k], s.last.n);
  }

  lemma {:induction false} ConsecutiveClimb(l: seq<Mpdu>, start: int)
    requires forall i :: 0 <= i < |l| ==> l[i].seqno == start + 1 + i
    ensures Climbs(Ups(l), start, start + |l|)
  {
    if l != [] {
      ConsecutiveClimb(l[1..], start + 1);
      assert Ups(l)[1..] == Ups(l[1..]);
    }
  }

  lemma MoveToClimbs(s: Rx, n: int, lo: int, hi: int)
    requires Sorted(s.list, lo, hi)
    ensures Extends(s, MoveTo(Unbounded, s, n)) && Climbs(NewUps(s, MoveTo(Unbounded, s, n)), lo - 1, n)
  {
    LeLenSplits(s.list, n, lo, hi);
    var k := LeLen(Unbounded, s.list, n);
    DeliverExtends(s, k);
    SortedUps(s.list[..k], lo, n);
  }

  // A failed allocation for a frame that is already held passes the number up twice.
  predicate PassedTwice(s: Rx, f: Frame) {
    && s.last.At? && s.free == []
    && s.last.n + 2 <= f.seqno <= s.last.n + s.win
    && Holds(s.list, f.seqno)
  }

  lemma {:induction false} UpsEndAt(l: seq<Mpdu>, n: int, lo: int, hi: int)
    requires Sorted(l, lo, hi) && Holds(l, n)
    ensures var k := LeLen(Unbounded, l, n); k > 0 && l[k - 1].seqno == n
  {
    if l[0].seqno == n {
      assert LeLen(Unbounded, l[1..], n) == 0;
    } else {
      HoldsBounds(l[1..], l[0].seqno + 1, hi, n);
      UpsEndAt(l[1..], n, l[0].seqno + 1, hi);
    }
  }

  // Without a free block in the window: the held frames up to f, then f itself.
  lemma UnallocatedOrderedIff(s: Rx, f: Frame)
    requires Inv(s) && s.last.At? && s.free == []
    requires s.last.n + 2 <= f.seqno <= s.last.n + s.win
    ensures Ordered(s, Enqueue(Unbounded, s, f)) <==> !Holds(s.list, f.seqno)
  {
    var lo, hi := s.last.n + 2, s.last.n + s.win;
    var m := MoveTo(Unbounded, s, f.seqno);
    var t := PassUp(m, f);
    var k := LeLen(Unbounded, s.list, f.seqno);
    DeliverExtends(s, k);
    assert NewUps(s, t) == Ups(s.list[..k]) + [f];
    if Holds(s.list, f.seqno) {
      UpsEndAt(s.list, f.seqno, lo, hi);
      RepeatNotClimbs(NewUps(s, t), s.last.n, f.seqno, k - 1, k);
    } else {
      NotHeldBelow(s.list, f.seqno, lo, hi);
      SortedUps(s.list[..k], lo, f.seqno - 1);
      ClimbsJoin(Ups(s.list[..k]), [f], s.last.n + 1, f.seqno - 1, f.seqno);
      ClimbsWiden(NewUps(s, t), s.last.n + 1, f.seqno, s.last.n, f.seqno);
    }
  }

  lemma {:induction false} NotHeldBelow(l: seq<Mpdu>, n: int, lo: int, hi: int)
    requires Sorted(l, lo, hi) && !Holds(l, n)
    ensures LeLen(Unbounded, l, n) == LeLen(Unbounded, l, n - 1)
    ensures Sorted(l[..LeLen(Unbounded, l, n)], lo, n - 1)
  {
    LeLenSplits(l, n - 1, lo, hi);
    LeLenSame(l, n);
  }

  lemma {:induction false} LeLenSame(l: seq<Mpdu>, n: int)
    requires !Holds(l, n)
    ensures LeLen(Unbounded, l, n) == LeLen(Unbounded, l, n - 1)
  {
    if l != [] {
      LeLenSame(l[1..], n);
    }
  }

  lemma SurpassOrdered(s: Rx, f: Frame)
    requires Inv(s) && s.last.At? && f.seqno > s.last.n + s.win
    ensures Ordered(s, Surpass(Unbounded, s, f))
  {
    hide DrainInOrder, Ordered, Enqueue, MoveTo, Sorted;
    var r := MoveTo(Unbounded, s, f.seqno - s.win);
    SurpassMoves(s, f);
    EnqueueAtWindowEnd(r, f);
    EnqueuePastOrdered(r, f);
    var t := Enqueue(Unbounded, r, f);
    DrainOrdered(t);
    DrainKeepsAt(t);
    OrderedTwice(s, r, t);
    OrderedTwice(s, t, DrainInOrder(Unbounded, t, t.last.n));
  }

  lemma SurpassMoves(s: Rx, f: Frame)
    requires Inv(s) && s.last.At? && f.seqno > s.last.n + s.win
    ensures var r := MoveTo(Unbounded, s, f.seqno - s.win);
            && r.last == At(f.seqno - s.win) && r.win == s.win
            && Sorted(r.list, f.seqno - s.win + 1, f.seqno - 1) && Ordered(s, r)
  {
    hide Sorted, Climbs, NewUps;
    var w := f.seqno - s.win;
    var r := MoveTo(Unbounded, s, w);
    MoveToClimbs(s, w, s.last.n + 2, s.last.n + s.win);
    ClimbsWiden(NewUps(s, r), s.last.n + 1, w, s.last.n, w);
    CutToWindow(s, f);
  }

  lemma EnqueuePastOrdered(r: Rx, f: Frame)
    requires 1 <= r.win && r.last == At(f.seqno - r.win)
    requires Sorted(r.list, f.seqno - r.win + 1, f.seqno - 1)
    ensures Ordered(r, Enqueue(Unbounded, r, f))
  {
    if r.free == [] {
      var lo := f.seqno - r.win + 1;
      LeLenSplits(r.list, f.seqno, lo, f.seqno - 1);
      var k := LeLen(Unbounded, r.list, f.seqno);
      DeliverExtends(r, k);
      var t := Enqueue(Unbounded, r, f);
      assert r.list[..k] == r.list;
      SortedUps(r.list, lo, f.seqno - 1);
      ClimbsJoin(Ups(r.list), [f], lo - 1, f.seqno - 1, f.seqno);
      assert NewUps(r, t) == Ups(r.list) + [f];
    }
  }

  // A data frame inside an epoch keeps the order, exactly when it is not passed up twice.
  lemma ArriveOrderedIff(s: Rx, f: Frame, now: int)
    requires Inv(s) && s.last.At?
    ensures Ordered(s, Arrive(Unbounded, s, f, now)) <==> !PassedTwice(s, f)
  {
    hide Surpass, DrainInOrder;
    var s1 := s.(timer := now);
    if f.seqno == s.last.n + 1 {
      var t := PassUp(s1.(last := At(f.seqno)), f);
      assert NewUps(s, t) == [f];
      SortedWiden(t.list, s.last.n + 2, s.last.n + s.win, t.last.n + 1, t.last.n + t.win);
      DrainOrdered(t);
      DrainKeepsAt(t);
      OrderedTwice(s, t, DrainInOrder(Unbounded, t, t.last.n));
    } else if f.seqno <= s.last.n {
    } else if f.seqno <= s.last.n + s.win {
      if s.free == [] {
        UnallocatedOrderedIff(s1, f);
      }
    } else {
      SurpassOrdered(s1, f);
    }
  }

  lemma DrainKeepsAt(s: Rx)
    requires s.last.At?
    ensures DrainInOrder(Unbounded, s, s.last.n).last.At?
  {
  }

  lemma TimeoutOrdered(s: Rx, now: int, hz: nat)
    requires Inv(s) && s.last.At?
    ensures Ordered(s, Timeout(Unbounded, s, now, hz))
  {
    hide DrainInOrder, MoveTo;
    if TimeAfter(now, s.timer + Limit500(hz)) && |s.list| > 1 {
      RefreshOrdered(s);
    } else if s.list != [] {
      SkipOneOrdered(s, now);
    }
  }

  lemma RefreshOrdered(s: Rx)
    requires Inv(s) && s.last.At?
    ensures Ordered(s, Refresh(s))
  {
    DeliverExtends(s, |s.list|);
    assert s.list[..|s.list|] == s.list;
    SortedUps(s.list, s.last.n + 2, s.last.n + s.win);
    ClimbsWiden(Ups(s.list), s.last.n + 1, s.last.n + s.win, s.last.n, s.last.n + s.win);
  }

  lemma SkipOneOrdered(s: Rx, now: int)
    requires Inv(s) && s.last.At?
    ensures var n := s.last.n + 1;
            Ordered(s, DrainInOrder(Unbounded, MoveTo(Unbounded, s, n).(timer := now), n))
  {
    var n := s.last.n + 1;
    LeLenSplits(s.list, n, n + 1, s.last.n + s.win);
    MoveToClimbs(s, n, n + 1, s.last.n + s.win);
    var t := MoveTo(Unbounded, s, n).(timer := now);
    assert NewUps(s, t) == [];
    SortedWiden(t.list, n + 1, s.last.n + s.win, n + 1, n + s.win);
    DrainOrdered(t);
    DrainKeepsAt(t);
    hide MoveTo;
    OrderedTwice(s, t, DrainInOrder(Unbounded, t, n));
  }

  // A BlockAckReq steps back to StartSeq - 1 after releasing StartSeq, so the bound holds
  // exactly when StartSeq was not among the held frames.
  lemma BarOrderedIff(s: Rx, start: int)
    requires Inv(s) && s.last.At? && s.last.n < start
    ensures Ordered(s, Bar(Unbounded, s, start)) <==> !Holds(s.list, start)
  {
    var lo, hi := s.last.n + 2, s.last.n + s.win;
    var t := Bar(Unbounded, s, start);
    var k := LeLen(Unbounded, s.list, start);
    DeliverExtends(s, k);
    if Holds(s.list, start) {
      UpsEndAt(s.list, start, lo, hi);
      PastNotClimbs(NewUps(s, t), s.last.n, start - 1, k - 1);
    } else {
      NotHeldBelow(s.list, start, lo, hi);
      SortedUps(s.list[..k], lo, start - 1);
      ClimbsWiden(Ups(s.list[..k]), s.last.n + 1, start - 1, s.last.n, start - 1);
    }
  }

  predicate Passes(u: seq<Frame>, n: int) {
    u != [] && (u[0].seqno == n || Passes(u[1..], n))
  }

  lemma {:induction false} UpsPass(l: seq<Mpdu>, n: int, m: int, lo: int, hi: int)
    requires Sorted(l, lo, hi) && m <= n
    ensures Passes(Ups(l[..LeLen(Unbounded, l, n)]), m) <==> Holds(l, m)
  {
    var k := LeLen(Unbounded, l, n);
    if k > 0 {
      UpsPass(l[1..], n, m, l[0].seqno + 1, hi);
      assert l[1..][..k - 1] == l[1..k];
      assert Ups(l[..k])[1..] == Ups(l[1..k]);
    } else if Holds(l, m) {
      HoldsBounds(l, l[0].seqno, hi, m);
    }
  }

  lemma NextFirst(t: Rx, f: Frame, now: int)
    requires t.last.At? && f.seqno == t.last.n + 1
    ensures Extends(t, Arrive(Unbounded, t, f, now))
    ensures NewUps(t, Arrive(Unbounded, t, f, now)) != [] && NewUps(t, Arrive(Unbounded, t, f, now))[0] == f
  {
    var g := PassUp(t.(timer := now, last := At(f.seqno)), f);
    var k := RunLen(Unbounded, g.list, f.seqno);
    hide RunLen;
    assert g.up + Ups(g.list[..k]) == t.up + ([f] + Ups(g.list[..k]));
  }

  // What follows from that: StartSeq is passed up by the request exactly when it was held, and
  // a frame with its number is passed up after it in any case, so then it goes up twice; and
  // the number after StartSeq stays behind if it was held.
  lemma BarDeliversTwiceIff(s: Rx, start: int, f: Frame, now: int)
    requires Inv(s) && s.last.At? && s.last.n < start && f.seqno == start
    ensures var t := Bar(Unbounded, s, start);
            var u := Arrive(Unbounded, t, f, now);
            Extends(s, t) && (Passes(NewUps(s, t), start) <==> Holds(s.list, start))
            && Extends(t, u) && NewUps(t, u) != [] && NewUps(t, u)[0] == f
            && (Holds(t.list, start + 1) <==> Holds(s.list, start + 1))
  {
    var lo, hi := s.last.n + 2, s.last.n + s.win;
    var t := Bar(Unbounded, s, start);
    DeliverExtends(s, LeLen(Unbounded, s.list, start));
    UpsPass(s.list, start, start, lo, hi);
    LeLenHolds(s.list, start, start + 1, lo, hi);
    NextFirst(t, f, now);
  }

  // A run inside one epoch: the last event may end it, no BlockAckReq moves backwards over
  // a held StartSeq, and no allocation failure hits a held frame or its predecessor.
  predicate EpochRun(s: Rx, es: seq<Event>, hz: nat)
    decreases |es|
  {
    es == [] ||
    (s.last.At? && EventOk(s, es[0]) && OrderOk(s, es[0]) && EpochRun(Step(Unbounded, s, es[0], hz), es[1..], hz))
  }

  predicate OrderOk(s: Rx, e: Event) {
    match e
    case Data(f, _) => !PassedTwice(s, f)
    case BlockAckReq(start) => s.last.At? && s.last.n < start ==> !Holds(s.list, start)
    case _ => true
  }

  lemma StepOrdered(s: Rx, e: Event, hz: nat)
    requires Inv(s) && s.last.At? && OrderOk(s, e)
    ensures Ordered(s, Step(Unbounded, s, e, hz))
  {
    match e
    case Tick(now) => TimeoutOrdered(s, now, hz);
    case Data(f, now) => ArriveOrderedIff(s, f, now);
    case BlockAckReq(start) =>
      if s.last.n < start {
        BarOrderedIff(s, start);
      }
    case Flushed => RefreshOrdered(s);
    case IdleTimer(now) => RefreshOrdered(s);
    case _ => assert NewUps(s, Step(Unbounded, s, e, hz)) == [];
  }

  // No number is passed up out of order or twice within an epoch.
  lemma {:induction false} EpochIsOrdered(s: Rx, es: seq<Event>, hz: nat)
    requires Inv(s) && s.last.At? && EpochRun(s, es, hz)
    ensures var t := Run(Unbounded, s, es, hz);
            && Extends(s, t)
            && (forall i :: 0 <= i < |NewUps(s, t)| ==> s.last.n < NewUps(s, t)[i].seqno)
            && (forall i, j :: 0 <= i < j < |NewUps(s, t)| ==> NewUps(s, t)[i].seqno < NewUps(s, t)[j].seqno)
  {
    var hi := EpochClimbs(s, es, hz);
    var u := NewUps(s, Run(Unbounded, s, es, hz));
    forall i, j | 0 <= i < j < |u| ensures u[i].seqno < u[j].seqno {
      ClimbsAt(u, s.last.n, hi, i);
    }
    forall i | 0 <= i < |u| ensures s.last.n < u[i].seqno {
      ClimbsAt(u, s.last.n, hi, i);
    }
  }

  lemma {:induction false} EpochClimbs(s: Rx, es: seq<Event>, hz: nat) returns (hi: int)
    requires Inv(s) && s.last.At? && EpochRun(s, es, hz)
    ensures var t := Run(Unbounded, s, es, hz);
            s.last.n <= hi && Extends(s, t) && Climbs(NewUps(s, t), s.last.n, hi)
    decreases |es|
  {
    hide Step, Inv, EventOk, OrderOk;
    hi := s.last.n;
    if es != [] {
      var t := Step(Unbounded, s, es[0], hz);
      StepOrdered(s, es[0], hz);
      StepKeepsInv(s, es[0], hz);
      if t.last.Reset? {
        assert es[1..] == [];
        hi := s.last.n + s.win;
        WindowNonNegative(s);
      } else {
        hi := EpochClimbs(t, es[1..], hz);
        JoinUps(s, t, Run(Unbounded, t, es[1..], hz), s.last.n, t.last.n, hi);
      }
    }
  }

  lemma WindowNonNegative(s: Rx)
    requires Inv(s)
    ensures s.win >= 1
  {
  }

  // So does the 12-bit session: what it passes up in an epoch are, modulo 4096, strictly
  // increasing true numbers.
  lemma CircularEpochIsOrdered(s: Rx, es: seq<Event>, hz: nat)
    requires Inv(s) && s.last.At? && EpochRun(s, es, hz) && R.RunOk(s, es, hz)
    ensures var u := NewUps(s, Run(Unbounded, s, es, hz));
            && NewUps(R.WrapRx(s), Run(Circular, R.WrapRx(s), R.WrapEvents(es), hz)) == R.WrapFrames(u)
            && forall i, j :: 0 <= i < j < |u| ==> s.last.n < u[i].seqno < u[j].seqno
  {
    R.RunRefines(s, es, hz);
    EpochIsOrdered(s, es, hz);
    hide Run, EpochRun, R.RunOk, Inv;
    NewUpsWrap(s, Run(Unbounded, s, es, hz));
  }

  lemma NewUpsWrap(s: Rx, t: Rx)
    ensures NewUps(R.WrapRx(s), R.WrapRx(t)) == R.WrapFrames(NewUps(s, t))
  {
  }
}
