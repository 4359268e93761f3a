// The reorder list over unbounded sequence numbers: what every event keeps, and when a
// failed block allocation breaks it.
module ReorderInvariant {
  import opened ReorderModel

  // Strictly ascending, with every number in lo..hi.
  predicate Sorted(l: seq<Mpdu>, lo: int, hi: int) {
    l == [] || (lo <= l[0].seqno <= hi && Sorted(l[1..], l[0].seqno + 1, hi))
  }

  predicate Holds(l: seq<Mpdu>, n: int) {
    l != [] && (l[0].seqno == n || Holds(l[1..], n))
  }

  // The reorder list is sorted and lies at distance 2 to BAWinSize past the last frame
  // passed up: the number after the last one is not held and nothing lies outside the window.
  predicate Inv(s: Rx) {
    && 1 <= s.win <= MAX_BA_WIN
    && (s.last.Reset? ==> s.list == [])
    && (s.last.At? ==> Sorted(s.list, s.last.n + 2, s.last.n + s.win))
  }

  lemma {:induction false} SortedWiden(l: seq<Mpdu>, lo: int, hi: int, lo': int, hi': int)
    requires Sorted(l, lo, hi) && lo' <= lo && hi <= hi'
    ensures Sorted(l, lo', hi')
  {
    if l != [] {
      SortedWiden(l[1..], l[0].seqno + 1, hi, l[0].seqno + 1, hi');
    }
  }

  // Element by element, Sorted is what its name says.
  lemma {:induction false} SortedAt(l: seq<Mpdu>, lo: int, hi: int, i: nat)
    requires Sorted(l, lo, hi) && i < |l|
    ensures lo + i <= l[i].seqno <= hi
    ensures forall j :: i < j < |l| ==> l[i].seqno < l[j].seqno
  {
    if i == 0 {
      forall j | 0 < j < |l| ensures l[0].seqno < l[j].seqno {
        SortedAt(l[1..], l[0].seqno + 1, hi, j - 1);
      }
    } else {
      SortedAt(l[1..], l[0].seqno + 1, hi, i - 1);
      assert forall j :: i < j < |l| ==> l[j] == l[1..][j - 1];
    }
  }

  lemma {:induction false} HoldsBounds(l: seq<Mpdu>, lo: int, hi: int, n: int)
    requires Sorted(l, lo, hi) && Holds(l, n)
    ensures lo <= n <= hi
  {
    if l[0].seqno != n {
      HoldsBounds(l[1..], l[0].seqno + 1, hi, n);
    }
  }

  // Releasing up to n leaves exactly the numbers past n.
  lemma {:induction false} LeLenSplits(l: seq<Mpdu>, n: int, lo: int, hi: int)
    requires Sorted(l, lo, hi)
    ensures var k := LeLen(Unbounded, l, n);
            && Sorted(l[..k], lo, n)
            && Sorted(l[k..], if lo <= n then n + 1 else lo, hi)
    ensures n < lo ==> LeLen(Unbounded, l, n) == 0
    ensures hi <= n ==> LeLen(Unbounded, l, n) == |l|
  {
    if l != [] && l[0].seqno <= n {
      var k := LeLen(Unbounded, l[1..], n);
      LeLenSplits(l[1..], n, l[0].seqno + 1, hi);
      assert l[..k + 1][1..] == l[1..][..k];
      assert l[1..][k..] == l[k + 1..];
      if k < |l| - 1 {
        SortedWiden(l[k + 1..], if l[0].seqno + 1 <= n then n + 1 else l[0].seqno + 1, hi, n + 1, hi);
      }
    } else {
      assert l[..0] == [] && l[0..] == l;
      if l != [] && lo <= n {
        SortedWiden(l[1..], l[0].seqno + 1, hi, l[0].seqno + 1, hi);
      }
    }
  }

  lemma {:induction false} LeLenHolds(l: seq<Mpdu>, n: int, m: int, lo: int, hi: int)
    requires Sorted(l, lo, hi)
    ensures Holds(l[LeLen(Unbounded, l, n)..], m) <==> Holds(l, m) && m > n
  {
    if l != [] && l[0].seqno <= n {
      LeLenHolds(l[1..], n, m, l[0].seqno + 1, hi);
      assert l[1..][LeLen(Unbounded, l[1..], n)..] == l[1 + LeLen(Unbounded, l[1..], n)..];
    } else if Holds(l, m) {
      assert l[0..] == l;
      if l[0].seqno != m {
        HoldsBounds(l[1..], l[0].seqno + 1, hi, m);
      }
    }
  }

  // Draining takes the consecutive run after start and leaves a gap before the rest.
  lemma {:induction false} RunLenSplits(l: seq<Mpdu>, start: int, hi: int)
    requires Sorted(l, start + 1, hi)
    ensures var k := RunLen(Unbounded, l, start);
            && (forall i :: 0 <= i < k ==> l[i].seqno == start + 1 + i)
            && Sorted(l[k..], start + k + 2, hi)
  {
    if l != [] && l[0].seqno == start + 1 {
      var k := RunLen(Unbounded, l[1..], start + 1);
      RunLenSplits(l[1..], start + 1, hi);
      assert l[1..][k..] == l[k + 1..];
      assert forall i :: 1 <= i <= k ==> l[i] == l[1..][i - 1];
    } else {
      assert l[0..] == l;
    }
  }

  lemma {:induction false} InsertSorted(l: seq<Mpdu>, m: Mpdu, lo: int, hi: int)
    requires Sorted(l, lo, hi) && lo <= m.seqno <= hi
    ensures var i := InsertPos(Unbounded, l, m.seqno);
            && (i < |l| && l[i].seqno == m.seqno <==> Holds(l, m.seqno))
            && (!Holds(l, m.seqno) ==> Sorted(l[..i] + [m] + l[i..], lo, hi))
  {
    var i := InsertPos(Unbounded, l, m.seqno);
    var r := l[..i] + [m] + l[i..];
    if l != [] && l[0].seqno < m.seqno {
      InsertSorted(l[1..], m, l[0].seqno + 1, hi);
      assert r[1..] == l[1..][..i - 1] + [m] + l[1..][i - 1..];
      assert r[0] == l[0];
    } else {
      assert r[1..] == l;
      if l != [] && l[0].seqno != m.seqno && Holds(l, m.seqno) {
        HoldsBounds(l[1..], l[0].seqno + 1, hi, m.seqno);
      }
    }
  }

  lemma DrainRestores(s: Rx)
    requires 1 <= s.win <= MAX_BA_WIN && s.last.At?
    requires Sorted(s.list, s.last.n + 1, s.last.n + s.win)
    ensures Inv(DrainInOrder(Unbounded, s, s.last.n))
  {
    var k := RunLen(Unbounded, s.list, s.last.n);
    RunLenSplits(s.list, s.last.n, s.last.n + s.win);
    SortedWiden(s.list[k..], s.last.n + k + 2, s.last.n + s.win, s.last.n + k + 2, s.last.n + k + s.win);
  }

  lemma TimeoutKeepsInv(s: Rx, now: int, hz: nat)
    requires Inv(s)
    ensures Inv(Timeout(Unbounded, s, now, hz))
  {
    if s.list != [] {
      var n := s.last.n + 1;
      LeLenSplits(s.list, n, n + 1, s.last.n + s.win);
      var t := MoveTo(Unbounded, s, n).(timer := now);
      SortedWiden(t.list, n + 1, s.last.n + s.win, n + 1, n + s.win);
      DrainRestores(t);
    }
  }

  // An allocation failure inside the window is the only way to lose the invariant, and it
  // does so exactly when the number after the frame is already held.
  predicate StuckHead(s: Rx, f: Frame) {
    && s.last.At? && s.free == []
    && s.last.n + 2 <= f.seqno <= s.last.n + s.win
    && Holds(s.list, f.seqno + 1)
  }

  lemma EnqueueAllocated(s: Rx, f: Frame, lo: int, hi: int)
    requires s.free != [] && Sorted(s.list, lo, hi) && lo <= f.seqno <= hi
    ensures Sorted(Enqueue(Unbounded, s, f).list, lo, hi)
  {
    InsertSorted(s.list, Mpdu(s.free[0], f.seqno, f.pkt), lo, hi);
  }

  lemma EnqueueInWindow(s: Rx, f: Frame)
    requires Inv(s) && s.last.At? && s.last.n + 2 <= f.seqno <= s.last.n + s.win
    ensures Inv(Enqueue(Unbounded, s, f)) <==> !StuckHead(s, f)
  {
    var lo, hi := s.last.n + 2, s.last.n + s.win;
    if s.free == [] {
      var t := MoveTo(Unbounded, s, f.seqno).list;
      LeLenSplits(s.list, f.seqno, lo, hi);
      LeLenHolds(s.list, f.seqno, f.seqno + 1, lo, hi);
      if t != [] {
        SortedWiden(t[1..], t[0].seqno + 1, hi, t[0].seqno + 1, f.seqno + s.win);
        if t[0].seqno != f.seqno + 1 && Holds(t, f.seqno + 1) {
          HoldsBounds(t[1..], t[0].seqno + 1, hi, f.seqno + 1);
        }
      }
    } else {
      EnqueueAllocated(s, f, lo, hi);
    }
  }

  lemma EnqueueAtWindowEnd(r: Rx, f: Frame)
    requires 1 <= r.win && r.last == At(f.seqno - r.win)
    requires Sorted(r.list, f.seqno - r.win + 1, f.seqno - 1)
    ensures var t := Enqueue(Unbounded, r, f);
            t.last.At? && t.win == r.win && Sorted(t.list, t.last.n + 1, t.last.n + t.win)
  {
    var lo := f.seqno - r.win + 1;
    if r.free == [] {
      LeLenSplits(r.list, f.seqno, lo, f.seqno - 1);
    } else {
      SortedWiden(r.list, lo, f.seqno - 1, lo, f.seqno);
      EnqueueAllocated(r, f, lo, f.seqno);
    }
  }

  lemma CutToWindow(s: Rx, f: Frame)
    requires Inv(s) && s.last.At? && f.seqno > s.last.n + s.win
    ensures Sorted(MoveTo(Unbounded, s, f.seqno - s.win).list, f.seqno - s.win + 1, f.seqno - 1)
  {
    var w := f.seqno - s.win;
    LeLenSplits(s.list, w, s.last.n + 2, s.last.n + s.win);
    SortedWiden(MoveTo(Unbounded, s, w).list, if s.last.n + 2 <= w then w + 1 else s.last.n + 2, s.last.n + s.win,
                w + 1, f.seqno - 1);
  }

  // Past the window the list is cut to the new window before the frame is queued, so even
  // a failed allocation leaves a good list.
  lemma SurpassKeepsInv(s: Rx, f: Frame)
    requires Inv(s) && s.last.At? && f.seqno > s.last.n + s.win
    ensures Inv(Surpass(Unbounded, s, f))
  {
    hide Enqueue, DrainInOrder;
    var r := MoveTo(Unbounded, s, f.seqno - s.win);
    CutToWindow(s, f);
    EnqueueAtWindowEnd(r, f);
    DrainRestores(Enqueue(Unbounded, r, f));
  }

  // The strong invariant after a data frame, exactly.
  lemma ArriveKeepsInvIff(s: Rx, f: Frame, now: int)
    requires Inv(s)
    ensures Inv(Arrive(Unbounded, s, f, now)) <==> !StuckHead(s, f)
  {
    var s1 := s.(timer := now);
    if s.last.Reset? || f.seqno <= s.last.n {
    } else if f.seqno == s.last.n + 1 {
      var t := PassUp(s1.(last := At(f.seqno)), f);
      SortedWiden(t.list, s.last.n + 2, s.last.n + s.win, t.last.n + 1, t.last.n + t.win);
      DrainRestores(t);
    } else if f.seqno <= s.last.n + s.win {
      EnqueueInWindow(s1, f);
    } else {
      SurpassKeepsInv(s1, f);
    }
  }

  // The stuck state: the frame is passed up, its successor stays behind at the head.
  lemma StuckHeadLeavesSuccessor(s: Rx, f: Frame, now: int)
    requires Inv(s) && StuckHead(s, f)
    ensures var t := Arrive(Unbounded, s, f, now);
            t.last == At(f.seqno) && t.list != [] && t.list[0].seqno == f.seqno + 1
  {
    var lo, hi := s.last.n + 2, s.last.n + s.win;
    var t := MoveTo(Unbounded, s, f.seqno).list;
    LeLenSplits(s.list, f.seqno, lo, hi);
    LeLenHolds(s.list, f.seqno, f.seqno + 1, lo, hi);
    if t[0].seqno != f.seqno + 1 {
      HoldsBounds(t[1..], t[0].seqno + 1, hi, f.seqno + 1);
    }
  }

  lemma BarKeepsInv(s: Rx, start: int)
    requires Inv(s)
    ensures Inv(Bar(Unbounded, s, start))
  {
    if BarMovesOn(Unbounded, s, start) {
      if s.last.At? {
        LeLenSplits(s.list, start, s.last.n + 2, s.last.n + s.win);
        var t := ReleaseLe(Unbounded, s, start).list;
        SortedWiden(t, if s.last.n + 2 <= start then start + 1 else s.last.n + 2, s.last.n + s.win,
                    start + 1, start - 1 + s.win);
      }
    }
  }

  // Nothing held lies outside a window of that size.
  predicate Fits(s: Rx, win: int) {
    s.last.At? ==> forall i :: 0 <= i < |s.list| ==> s.list[i].seqno <= s.last.n + win
  }

  lemma {:induction false} SortedWithin(l: seq<Mpdu>, lo: int, hi: int, hi': int)
    requires Sorted(l, lo, hi) && forall i :: 0 <= i < |l| ==> l[i].seqno <= hi'
    ensures Sorted(l, lo, hi')
  {
    if l != [] {
      assert forall i :: 0 <= i < |l[1..]| ==> l[1..][i] == l[i + 1];
      SortedWithin(l[1..], l[0].seqno + 1, hi, hi');
    }
  }

  // A new window keeps the invariant exactly when it has a proper size and everything held
  // fits it.
  lemma ResizeKeepsInvIff(s: Rx, win: int)
    requires Inv(s)
    ensures Inv(Resize(s, win)) <==> 1 <= win <= MAX_BA_WIN && Fits(s, win)
  {
    if s.last.At? {
      var lo, hi := s.last.n + 2, s.last.n + win;
      if Sorted(s.list, lo, hi) {
        forall i | 0 <= i < |s.list| ensures s.list[i].seqno <= hi {
          SortedAt(s.list, lo, hi, i);
        }
      } else if Fits(s, win) {
        SortedWithin(s.list, lo, s.last.n + s.win, hi);
      }
    }
  }

  // What an event must satisfy for the strong invariant to survive it.
  predicate EventOk(s: Rx, e: Event) {
    match e
    case Data(f, _) => !StuckHead(s, f)
    case Resized(win) => 1 <= win <= MAX_BA_WIN && Fits(s, win)
    case Marked => s.list == []
    case _ => true
  }

  lemma StepKeepsInv(s: Rx, e: Event, hz: nat)
    requires Inv(s) && EventOk(s, e)
    ensures Inv(Step(Unbounded, s, e, hz))
  {
    match e
    case Tick(now) => TimeoutKeepsInv(s, now, hz);
    case Data(f, now) => ArriveKeepsInvIff(s, f, now);
    case BlockAckReq(start) => BarKeepsInv(s, start);
    case Resized(win) => ResizeKeepsInvIff(s, win);
    case _ =>
  }

  // The driver's own ASSERT: the list never outgrows the window.
  lemma {:induction false} SortedLength(l: seq<Mpdu>, lo: int, hi: int)
    requires Sorted(l, lo, hi)
    ensures |l| == 0 || |l| <= hi - lo + 1
  {
    if l != [] {
      SortedLength(l[1..], l[0].seqno + 1, hi);
    }
  }

  // That ASSERT, made right after a frame was queued, on both ways that lead to it.
  lemma QueueAssertHolds(s: Rx, f: Frame)
    requires Inv(s) && s.last.At? && f.seqno >= s.last.n + 2
    ensures f.seqno <= s.last.n + s.win ==> |Enqueue(Unbounded, s, f).list| <= s.win
    ensures f.seqno > s.last.n + s.win ==> |Enqueue(Unbounded, MoveTo(Unbounded, s, f.seqno - s.win), f).list| <= s.win
  {
    if f.seqno <= s.last.n + s.win {
      InsideAssertHolds(s, f);
    } else {
      hide Enqueue, Sorted;
      var r := MoveTo(Unbounded, s, f.seqno - s.win);
      CutToWindow(s, f);
      EnqueueAtWindowEnd(r, f);
      var t := Enqueue(Unbounded, r, f);
      SortedLength(t.list, t.last.n + 1, t.last.n + t.win);
    }
  }

  lemma InsideAssertHolds(s: Rx, f: Frame)
    requires Inv(s) && s.last.At? && s.last.n + 2 <= f.seqno <= s.last.n + s.win
    ensures |Enqueue(Unbounded, s, f).list| <= s.win
  {
    hide Sorted;
    var lo, hi := s.last.n + 2, s.last.n + s.win;
    if s.free == [] {
      LeLenSplits(s.list, f.seqno, lo, hi);
      SortedLength(Enqueue(Unbounded, s, f).list, f.seqno + 1, hi);
    } else {
      EnqueueAllocated(s, f, lo, hi);
      SortedLength(Enqueue(Unbounded, s, f).list, lo, hi);
    }
  }
}
