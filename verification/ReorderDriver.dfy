// The reordering code of common/ba_action.c as it runs: a session object, the shared block
// pool and the upper layer, updated step by step.  Every method is proved to make exactly
// the step of the circular model.
module ReorderDriver {
  import opened ReorderModel
  import opened ReorderList

  const MAX_RX_PKT_LEN: int := 1520

  // mpdu_blk_pool
  class BlockPool {
    const freelist: ReorderingList

    ghost predicate Valid()
      reads freelist, freelist.nodes
    {
      freelist.Valid()
    }

    // The blocks on the free list.
    ghost function Free(): seq<nat>
      reads freelist
    {
      Ids(freelist.nodes)
    }

    // ba_reordering_resource_init
    constructor (num: nat)
      ensures Valid() && fresh(freelist) && (forall b :: b in freelist.nodes ==> fresh(b))
      ensures |Free()| == num && forall i :: 0 <= i < num ==> Free()[i] == num - 1 - i
    {
      freelist := new ReorderingList();
      new;
      var i := 0;
      while i < num
        invariant 0 <= i <= num && Valid() && fresh(freelist) && (forall b :: b in freelist.nodes ==> fresh(b))
        invariant |Free()| == i && forall k :: 0 <= k < i ==> Free()[k] == i - 1 - k
      {
        var b := new Block(i);
        IdsHead(b, freelist.nodes);
        freelist.Enqueue(b);
        i := i + 1;
      }
    }

    // ba_mpdu_blk_free
    method Put(b: Block)
      requires Valid() && b !in freelist.nodes
      modifies freelist, b`next
      ensures Valid() && freelist.nodes == [b] + old(freelist.nodes)
    {
      freelist.Enqueue(b);
    }

    // ba_mpdu_blk_alloc
    method Take() returns (b: Block?)
      requires Valid()
      modifies freelist, freelist.nodes
      ensures Valid() && (b == null <==> old(freelist.nodes) == [])
      ensures b != null ==>
                b == old(freelist.nodes)[0] && freelist.nodes == old(freelist.nodes)[1..] && b !in freelist.nodes
      ensures b == null ==> freelist.nodes == []
    {
      b := freelist.Dequeue();
      if b != null {
        b.next, b.seqno, b.pkt := null, 0, 0;
      }
    }
  }

  // The network layer above, as a log.
  class UpperLayer {
    var up: seq<Frame>
    var released: seq<nat>

    constructor ()
      ensures up == [] && released == []
    {
      up, released := [], [];
    }

    method Announce(f: Frame)
      modifies this`up
      ensures up == old(up) + [f]
    {
      up := up + [f];
    }

    method ReleasePacket(pkt: nat)
      modifies this`released
      ensures released == old(released) + [pkt]
    {
      released := released + [pkt];
    }
  }

  // BA_REC_ENTRY
  class RecEntry {
    const list: ReorderingList
    var lastIndSeq: int
    var baWinSize: int
    var lastIndSeqAtTimer: int
    var nDropPacket: nat
    const pool: BlockPool
    const upper: UpperLayer
    const hz: nat

    // No block hangs on both lists.
    ghost predicate Apart()
      reads list, list.nodes, pool.freelist, pool.freelist.nodes
    {
      && list != pool.freelist && list.Valid() && pool.Valid()
      && (forall b :: b in list.nodes ==> b !in pool.freelist.nodes)
      && (forall b :: b in list.nodes ==> 0 <= b.seqno <= MAXSEQ)
    }

    ghost predicate Valid()
      reads this, list, list.nodes, pool.freelist, pool.freelist.nodes
    {
      && Apart()
      && 1 <= baWinSize <= MAX_BA_WIN
      && (0 <= lastIndSeq <= MAXSEQ || lastIndSeq == RESET_RCV_SEQ)
    }

    // The blocks on the two lists.
    ghost function Blocks(): set<Block>
      reads list, pool.freelist
    {
      On(list.nodes) + On(pool.freelist.nodes)
    }

    // The session, its pool and the upper layer as one value.
    ghost function State(): Rx
      reads this, list, list.nodes, pool.freelist, upper
    {
      Rx(Contents(list.nodes), if lastIndSeq == RESET_RCV_SEQ then Reset else At(lastIndSeq), baWinSize,
         lastIndSeqAtTimer, nDropPacket, pool.Free(), upper.up, upper.released)
    }

    constructor (pool: BlockPool, upper: UpperLayer, hz: nat, win: int)
      requires pool.Valid() && 1 <= win <= MAX_BA_WIN
      ensures Valid() && fresh(list) && list.nodes == []
      ensures this.pool == pool && this.upper == upper && this.hz == hz
      ensures State() == Rx([], Reset, win, 0, 0, pool.Free(), upper.up, upper.released)
    {
      list := new ReorderingList();
      lastIndSeq, baWinSize := RESET_RCV_SEQ, win;
      lastIndSeqAtTimer, nDropPacket := 0, 0;
      this.pool, this.upper, this.hz := pool, upper, hz;
    }

    // Dequeue the head, pass it up, free its block.
    method PassHeadUp() returns (seqno: int)
      requires Valid() && State().list != []
      modifies list, pool.freelist, Blocks()`next, upper`up
      ensures Valid() && Blocks() == old(Blocks())
      ensures seqno == old(State()).list[0].seqno
      ensures State() == Deliver(old(State()), 1)
    {
      hide Contents, Ids, Deliver, ReorderingList.Valid;
      DeliverHead(State());
      ContentsTail(list.nodes);
      IdsTail(list.nodes);
      ghost var rest := list.nodes[1..];
      var b := list.Dequeue();
      assert forall x :: x in pool.freelist.nodes ==> x.next == old(x.next);
      seqno := b.seqno;
      upper.Announce(Frame(b.seqno, b.pkt));
      IdsHead(b, pool.freelist.nodes);
      pool.Put(b);
      SameContents(rest);
    }

    // Take a block from the pool.
    method TakeBlock() returns (blk: Block?)
      requires Valid()
      modifies pool.freelist, pool.freelist.nodes
      ensures Valid() && (blk == null <==> old(State()).free == [])
      ensures blk == null ==> State() == old(State()) && Blocks() == old(Blocks())
      ensures blk != null ==> State() == old(State()).(free := old(State()).free[1..]) && blk.id == old(State()).free[0]
      ensures blk != null ==> blk !in list.nodes && blk !in pool.freelist.nodes && Blocks() + {blk} == old(Blocks())
    {
      hide Contents, Ids, After, Distinct;
      if pool.freelist.nodes != [] {
        IdsTail(pool.freelist.nodes);
      }
      blk := pool.Take();
      SameContents(list.nodes);
      assert forall x :: x in list.nodes ==> x.next == old(x.next);
    }

    // What ba_reordering_mpdu_probe looks at is the head of the list.
    lemma Head()
      requires Valid()
      ensures list.next == null <==> State().list == []
      ensures list.next != null ==> list.next.seqno == State().list[0].seqno
      ensures list.qlen == |State().list|
    {
    }

    lemma HeldInRange()
      requires Valid()
      ensures forall i :: 0 <= i < |State().list| ==> 0 <= State().list[i].seqno <= MAXSEQ
    {
      hide ReorderingList.Valid;
    }

    // ba_indicate_reordering_mpdus_in_order
    method IndicateInOrder(startSeq: int) returns (last: int)
      requires Valid()
      modifies list, pool.freelist, Blocks()`next, upper`up
      ensures Valid() && Blocks() == old(Blocks())
      ensures var l := old(State()).list; var k := RunLen(Circular, l, startSeq);
              && State() == Deliver(old(State()), k)
              && last == if k > 0 then l[k - 1].seqno else RESET_RCV_SEQ
    {
      hide Deliver, Valid, Blocks, State;
      var start := startSeq;
      last := RESET_RCV_SEQ;
      ghost var s := State();
      ghost var k := 0;
      DeliverNone(s);
      Head();
      assert s.list[0..] == s.list;
      while list.next != null
        invariant Valid() && Blocks() == old(Blocks())
        invariant 0 <= k <= |s.list| && State() == Deliver(s, k) && State().list == s.list[k..]
        invariant list.next == null <==> State().list == []
        invariant RunLen(Circular, s.list, startSeq) == k + RunLen(Circular, s.list[k..], start)
        invariant k == 0 ==> start == startSeq && last == RESET_RCV_SEQ
        invariant k > 0 ==> start == last == s.list[k - 1].seqno
        decreases |s.list| - k
      {
        Head();
        if !StepOne(Circular, list.next.seqno, start) {
          break;
        }
        start := PassHeadUp();
        last := start;
        DeliverOneMore(s, k);
        k := k + 1;
        DeliverLeaves(s, k);
        Head();
      }
    }

    // ba_indicate_reordering_mpdus_le_seq
    method IndicateLeSeq(sequence: int)
      requires Valid()
      modifies list, pool.freelist, Blocks()`next, upper`up
      ensures Valid() && Blocks() == old(Blocks())
      ensures State() == ReleaseLe(Circular, old(State()), sequence)
    {
      hide Deliver, Valid, Blocks, State;
      ghost var s := State();
      ghost var k := 0;
      DeliverNone(s);
      Head();
      assert s.list[0..] == s.list;
      while list.next != null
        invariant Valid() && Blocks() == old(Blocks())
        invariant 0 <= k <= |s.list| && State() == Deliver(s, k) && State().list == s.list[k..]
        invariant list.next == null <==> State().list == []
        invariant LeLen(Circular, s.list, sequence) == k + LeLen(Circular, s.list[k..], sequence)
        decreases |s.list| - k
      {
        Head();
        if list.next.seqno == sequence || Smaller(Circular, list.next.seqno, sequence) {
          var _ := PassHeadUp();
          DeliverOneMore(s, k);
          k := k + 1;
          DeliverLeaves(s, k);
          Head();
        } else {
          break;
        }
      }
    }

    // Pass up to sequence and make it the last number, as three places of the code do.
    method AdvanceTo(sequence: int)
      requires Valid() && 0 <= sequence <= MAXSEQ
      modifies this`lastIndSeq, list, pool.freelist, Blocks()`next, upper`up
      ensures Valid() && Blocks() == old(Blocks())
      ensures State() == MoveTo(Circular, old(State()), sequence)
    {
      hide ReleaseLe, Apart, Blocks, Contents;
      IndicateLeSeq(sequence);
      lastIndSeq := sequence;
    }

    // Pass up the run after start; without one LastIndSeq stays.
    method DrainFrom(start: int)
      requires Valid()
      modifies this`lastIndSeq, list, pool.freelist, Blocks()`next, upper`up
      ensures Valid() && Blocks() == old(Blocks())
      ensures State() == DrainInOrder(Circular, old(State()), start)
    {
      hide Deliver, RunLen, Apart, Blocks, Contents;
      DeliverKeepsLast(State(), RunLen(Circular, State().list, start));
      HeldInRange();
      var last := IndicateInOrder(start);
      if last != RESET_RCV_SEQ {
        lastIndSeq := last;
      }
    }

    // ba_refresh_reordering_mpdus
    method RefreshMpdus()
      requires Valid()
      modifies this`lastIndSeq, list, pool.freelist, Blocks()`next, upper`up
      ensures Valid() && Blocks() == old(Blocks())
      ensures State() == Refresh(old(State()))
    {
      ghost var s := State();
      ghost var k := 0;
      DeliverNone(s);
      Head();
      hide Deliver, Blocks, Apart, Contents;
      while list.qlen != 0
        invariant Valid() && Blocks() == old(Blocks())
        invariant 0 <= k <= |s.list| && State() == Deliver(s, k).(last := State().last)
        invariant list.qlen == |s.list| - k
        decreases |s.list| - k
      {
        RefreshOne(s, k);
        k := k + 1;
      }
      SetMark();
    }

    // One turn of that loop, the k-th.
    method RefreshOne(ghost s: Rx, ghost k: nat)
      requires Valid() && k < |s.list| && State() == Deliver(s, k).(last := State().last)
      modifies this`lastIndSeq, list, pool.freelist, Blocks()`next, upper`up
      ensures Valid() && Blocks() == old(Blocks()) && list.qlen == old(list.qlen) - 1
      ensures State() == Deliver(s, k + 1).(last := State().last)
    {
      hide Apart, Blocks, Contents, Deliver;
      DeliverOneMoreAt(s, k, State().last);
      DeliverLeaves(State(), 1);
      Head();
      HeldInRange();
      lastIndSeq := PassHeadUp();
      Head();
    }

    // ba_flush_reordering_timeout_mpdus
    method FlushTimeout(now: int)
      requires Valid()
      modifies this`lastIndSeq, this`lastIndSeqAtTimer, list, pool.freelist, Blocks()`next, upper`up
      ensures Valid() && Blocks() == old(Blocks())
      ensures State() == Timeout(Circular, old(State()), now, hz)
    {
      hide DrainInOrder, MoveTo, Refresh, TimeAfter, Limit100, Limit500, Apart, Blocks, Contents;
      Head();
      if TimeAfter(now, lastIndSeqAtTimer + Limit500(hz)) && list.qlen > 1 {
        RefreshMpdus();
        lastIndSeqAtTimer := now;
      } else if TimeAfter(now, lastIndSeqAtTimer + Limit100(hz)) && list.qlen > 0 {
        var sequence := (lastIndSeq + 1) % SEQ_MODULUS;
        AdvanceTo(sequence);
        lastIndSeqAtTimer := now;
        DrainFrom(sequence);
      }
    }

    // ba_enqueue_reordering_packet
    method EnqueuePacket(f: Frame)
      requires Valid() && 0 <= f.seqno <= MAXSEQ
      modifies this`lastIndSeq, list, pool.freelist, Blocks(), upper
      ensures Valid() && Blocks() == old(Blocks())
      ensures State() == Enqueue(Circular, old(State()), f)
    {
      hide Apart, Contents, Ids, Enqueue, MoveTo;
      ghost var s := State();
      NothingFree(s, f);
      var blk := TakeBlock();
      if blk != null {
        blk.seqno := f.seqno;
        blk.pkt := f.pkt;
        QueueBlock(f, blk, s);
      } else {
        AdvanceTo(f.seqno);
        upper.Announce(f);
      }
    }

    method QueueBlock(f: Frame, blk: Block, ghost s: Rx)
      requires Valid() && blk !in list.nodes && blk !in pool.freelist.nodes && 0 <= f.seqno <= MAXSEQ
      requires s.free != [] && State() == s.(free := s.free[1..])
      requires Mpdu(blk.id, blk.seqno, blk.pkt) == Mpdu(s.free[0], f.seqno, f.pkt)
      modifies list, pool.freelist, Blocks()`next, blk`next, upper`released
      ensures Valid() && Blocks() == old(Blocks()) + {blk}
      ensures State() == Enqueue(Circular, s, f)
    {
      hide Contents, Ids, InsertPos, Enqueue, Apart, Blocks;
      EnqueueIs(s, f);
      var inserted := HangOn(blk);
      if !inserted {
        upper.ReleasePacket(f.pkt);
        PutBack(blk);
        assert s.free == [s.free[0]] + s.free[1..];
      }
    }

    // Into the list, unless its number is held.
    method HangOn(blk: Block) returns (inserted: bool)
      requires Valid() && blk !in list.nodes && blk !in pool.freelist.nodes && 0 <= blk.seqno <= MAXSEQ
      modifies list, Blocks()`next, blk`next
      ensures Valid()
      ensures var l := old(State()).list; var i := InsertPos(Circular, l, blk.seqno);
              && inserted == !(i < |l| && l[i].seqno == blk.seqno)
              && State() == old(State()).(
                              list := if inserted then l[..i] + [Mpdu(blk.id, blk.seqno, blk.pkt)] + l[i..] else l)
      ensures Blocks() == old(Blocks()) + if inserted then {blk} else {}
      ensures !inserted ==> blk !in list.nodes && pool.freelist.nodes == old(pool.freelist.nodes)
    {
      hide Contents, Ids, ReorderingList.Valid, InsertPos;
      ghost var was := list.nodes;
      ghost var i := InsertPos(Circular, Contents(was), blk.seqno);
      inserted := list.InsertSorted(blk);
      assert forall x :: x in pool.freelist.nodes ==> x.next == old(x.next);
      SameContents(was);
      if inserted {
        ContentsInsert(was, i, blk);
        OnInsert(was, i, blk);
        assert forall b :: b in list.nodes ==> b in was || b == blk;
      }
    }

    // Back to the pool.
    method PutBack(blk: Block)
      requires Valid() && blk !in list.nodes && blk !in pool.freelist.nodes
      modifies pool.freelist, blk`next
      ensures Valid() && Blocks() == old(Blocks()) + {blk}
      ensures State() == old(State()).(free := [blk.id] + old(State()).free)
    {
      hide Contents, Ids, ReorderingList.Valid;
      IdsHead(blk, pool.freelist.nodes);
      pool.Put(blk);
      SameContents(list.nodes);
    }

    // Indicate_AMPDU_Packet once the session is found.
    method IndicateAmpdu(f: Frame, isAmsdu: bool, dataSize: int, now: int)
      requires Valid() && 0 <= f.seqno <= MAXSEQ
      modifies this, list, pool.freelist, Blocks(), upper
      ensures Valid() && Blocks() == old(Blocks())
      ensures State() == if !isAmsdu && dataSize > MAX_RX_PKT_LEN then Release(old(State()), f.pkt)
                         else Run(Circular, old(State()), [Tick(now), Data(f, now)], hz)
    {
      if !isAmsdu && dataSize > MAX_RX_PKT_LEN {
        upper.ReleasePacket(f.pkt);
        return;
      }
      FlushTimeout(now);
      ArriveFrame(f, now);
      RunTwo(old(State()), Tick(now), Data(f, now), hz);
    }

    method ArriveFrame(f: Frame, now: int)
      requires Valid() && 0 <= f.seqno <= MAXSEQ
      modifies this, list, pool.freelist, Blocks(), upper
      ensures Valid() && Blocks() == old(Blocks())
      ensures State() == Arrive(Circular, old(State()), f, now)
    {
      hide DrainInOrder, Enqueue, Surpass, Apart, Blocks, Contents;
      lastIndSeqAtTimer := now;
      if lastIndSeq == RESET_RCV_SEQ {
        lastIndSeq := f.seqno;
        upper.Announce(f);
        return;
      }
      if StepOne(Circular, f.seqno, lastIndSeq) {
        lastIndSeq := f.seqno;
        upper.Announce(f);
        DrainFrom(lastIndSeq);
      } else if f.seqno == lastIndSeq {
        nDropPacket := nDropPacket + 1;
        upper.ReleasePacket(f.pkt);
      } else if Smaller(Circular, f.seqno, lastIndSeq) {
        nDropPacket := nDropPacket + 1;
        upper.ReleasePacket(f.pkt);
      } else if Smaller(Circular, f.seqno, (lastIndSeq + baWinSize + 1) % SEQ_MODULUS) {
        EnqueuePacket(f);
      } else {
        SurpassWindow(f);
      }
    }

    method SurpassWindow(f: Frame)
      requires Valid() && 0 <= f.seqno <= MAXSEQ
      modifies this`lastIndSeq, list, pool.freelist, Blocks(), upper
      ensures Valid() && Blocks() == old(Blocks())
      ensures State() == Surpass(Circular, old(State()), f)
    {
      hide DrainInOrder, Enqueue, MoveTo, Apart, Blocks, Contents;
      var tmpSeq := f.seqno - baWinSize - 1;
      if tmpSeq < 0 {
        tmpSeq := MAXSEQ + 1 + tmpSeq;
      }
      var winStartSeq := (tmpSeq + 1) % SEQ_MODULUS;
      assert winStartSeq == Norm(Circular, f.seqno - baWinSize);
      AdvanceTo(winStartSeq);
      EnqueuePacket(f);
      DrainFrom(lastIndSeq);
    }

    // The BlockAckReq part of CntlEnqueueForRecv.
    method BlockAckRequest(start: int)
      requires Valid() && 0 <= start <= MAXSEQ
      modifies this`lastIndSeq, list, pool.freelist, Blocks()`next, upper`up
      ensures Valid() && Blocks() == old(Blocks())
      ensures State() == Bar(Circular, old(State()), start)
    {
      hide ReleaseLe, Apart, Blocks, Contents;
      if Smaller(Circular, lastIndSeq, start) {
        IndicateLeSeq(start);
        lastIndSeq := if start == 0 then MAXSEQ else start - 1;
      }
    }

    // BARecSessionAdd on a live session, when no frame comes in between its parts: BAWinSize is
    // the smaller of the requested buffer size and the configured limit, with 0 read as 64.
    method AddSession(bufSize: int, rxBAWinLimit: int)
      requires Valid() && 0 <= bufSize <= 255 && 1 <= rxBAWinLimit <= MAX_BA_WIN
      modifies this, list, pool.freelist, Blocks()`next, upper`up
      ensures Valid() && Blocks() == old(Blocks())
      ensures (bufSize > 0 ==> baWinSize <= bufSize) && baWinSize <= MAX_BA_WIN
      ensures var win := if bufSize < rxBAWinLimit then bufSize else rxBAWinLimit;
              State() == ReAdd(old(State()), if win == 0 then 64 else win)
    {
      hide Deliver, Apart, Blocks, Contents, Refresh;
      var win := if bufSize < rxBAWinLimit then bufSize else rxBAWinLimit;
      if win == 0 {
        win := 64;
      }
      ReAddInParts(State(), win);
      RefreshMpdus();
      SetWindow(win);
      SetMark();
    }

    // The unlocked assignments that follow the flush.
    method SetWindow(win: int)
      requires Valid() && 1 <= win <= MAX_BA_WIN
      modifies this`baWinSize
      ensures Valid() && State() == Resize(old(State()), win)
    {
      hide Apart, Contents;
      baWinSize := win;
    }

    method SetMark()
      requires Valid()
      modifies this`lastIndSeq
      ensures Valid() && Blocks() == old(Blocks()) && State() == Mark(old(State()))
    {
      hide Apart, Contents;
      lastIndSeq := RESET_RCV_SEQ;
    }

    // BARecSessionIdleTimeout of an accepted session.
    method IdleTimeout(now: int)
      requires Valid()
      modifies this`lastIndSeq, list, pool.freelist, Blocks()`next, upper`up
      ensures Valid() && Blocks() == old(Blocks())
      ensures State() == Idle(old(State()), now)
    {
      hide Refresh, Apart, Blocks, Contents;
      if TimeAfter(now, lastIndSeqAtTimer + 1000) {
        RefreshMpdus();
      }
    }
  }

  lemma DeliverHead(s: Rx)
    requires s.list != []
    ensures var m := s.list[0];
            Deliver(s, 1) == s.(list := s.list[1..], up := s.up + [Frame(m.seqno, m.pkt)], free := [m.blk] + s.free)
  {
    var m := s.list[0];
    assert s.list[..1] == [m];
    assert PushAll([m], s.free) == PushAll([], [m.blk] + s.free);
    assert Ups([m]) == [Frame(m.seqno, m.pkt)];
  }

  lemma EnqueueIs(s: Rx, f: Frame)
    requires s.free != []
    ensures var i := InsertPos(Circular, s.list, f.seqno);
            Enqueue(Circular, s, f) ==
            if i < |s.list| && s.list[i].seqno == f.seqno then Release(s, f.pkt)
            else s.(list := s.list[..i] + [Mpdu(s.free[0], f.seqno, f.pkt)] + s.list[i..], free := s.free[1..])
  {
  }

  lemma NothingFree(s: Rx, f: Frame)
    ensures s.free == [] ==> Enqueue(Circular, s, f) == PassUp(MoveTo(Circular, s, f.seqno), f)
  {
  }

  lemma DeliverKeepsLast(s: Rx, k: nat)
    requires k <= |s.list|
    ensures Deliver(s, k).last == s.last
  {
  }

  lemma DeliverLeaves(s: Rx, k: nat)
    requires k <= |s.list|
    ensures Deliver(s, k).list == s.list[k..]
  {
  }

  lemma DeliverNone(s: Rx)
    ensures Deliver(s, 0) == s
  {
    assert s.up + Ups(s.list[..0]) == s.up;
  }

  lemma {:induction false} PushAllOneMore(l: seq<Mpdu>, m: Mpdu, free: seq<nat>)
    ensures PushAll(l + [m], free) == [m.blk] + PushAll(l, free)
  {
    if l == [] {
      assert l + [m] == [m];
      assert PushAll([m], free) == PushAll([], [m.blk] + free);
    } else {
      PushAllOneMore(l[1..], m, [l[0].blk] + free);
      assert (l + [m])[1..] == l[1..] + [m];
    }
  }

  lemma DeliverOneMore(s: Rx, k: nat)
    requires k < |s.list|
    ensures Deliver(Deliver(s, k), 1) == Deliver(s, k + 1)
  {
    var m := s.list[k];
    PushAllOneMore(s.list[..k], m, s.free);
    assert s.list[..k + 1] == s.list[..k] + [m];
    assert s.list[k..][..1] == [m];
    assert PushAll([m], PushAll(s.list[..k], s.free)) == PushAll([], [m.blk] + PushAll(s.list[..k], s.free));
    assert Ups(s.list[..k + 1]) == Ups(s.list[..k]) + Ups([m]);
    assert s.list[k..][1..] == s.list[k + 1..];
  }

  lemma DeliverOneMoreAt(s: Rx, k: nat, last: Last)
    requires k < |s.list|
    ensures var t := Deliver(s, k).(last := last);
            t.list != [] && Deliver(t, 1) == Deliver(s, k + 1).(last := last)
  {
    hide PushAll, Ups;
    DeliverOneMore(s, k);
  }

  lemma RunTwo(s: Rx, e1: Event, e2: Event, hz: nat)
    ensures Run(Circular, s, [e1, e2], hz) == Step(Circular, Step(Circular, s, e1, hz), e2, hz)
  {
    hide Step;
    assert [e1, e2][1..] == [e2] && [e2][1..] == [];
    assert Run(Circular, s, [e1, e2], hz) == Run(Circular, Step(Circular, s, e1, hz), [e2], hz);
  }
}
