// Receive reordering of one Block-Ack recipient session (common/ba_action.c).
//
// The driver compares 12-bit sequence numbers on a circle.  Every operation below takes
// the arithmetic as a parameter, so that the same operation exists on the circle
// (what the driver does) and on unbounded integers (what the driver means).
module ReorderModel {

  const MAXSEQ: int := 0xFFF
  const SEQ_MODULUS: int := 0x1000
  const RESET_RCV_SEQ: int := 0xFFFF
  const MAX_BA_WIN: int := 64
  const ULONG_MODULUS: int := 0x1_0000_0000

  datatype Arith = Circular | Unbounded

  // SEQ_STEPONE: a is the number right after b.
  predicate StepOne(ar: Arith, a: int, b: int) {
    if ar.Circular? then a == (b + 1) % SEQ_MODULUS else a == b + 1
  }

  // SEQ_SMALLER: bit 11 of the difference.
  predicate Smaller(ar: Arith, a: int, b: int) {
    if ar.Circular? then (a - b) % SEQ_MODULUS >= SEQ_MODULUS / 2 else a < b
  }

  function Norm(ar: Arith, n: int): int {
    if ar.Circular? then n % SEQ_MODULUS else n
  }

  // RTMP_TIME_AFTER on a 32-bit ULONG.
  predicate TimeAfter(a: int, b: int) {
    (b - a) % ULONG_MODULUS >= ULONG_MODULUS / 2
  }

  // Of two times less than half the counter's range apart that is the later one, wherever the
  // 32-bit counter has wrapped.
  lemma TimeAfterIs(a: int, b: int)
    requires -(ULONG_MODULUS / 2) < a - b <= ULONG_MODULUS / 2
    ensures TimeAfter(a % ULONG_MODULUS, b % ULONG_MODULUS) <==> a > b
  {
    var d, q := b - a, b / ULONG_MODULUS - a / ULONG_MODULUS;
    assert b % ULONG_MODULUS - a % ULONG_MODULUS == d - q * ULONG_MODULUS;
    ModOfShift(d, -q);
  }

  lemma ModOfShift(d: int, q: int)
    ensures (d + q * ULONG_MODULUS) % ULONG_MODULUS == d % ULONG_MODULUS
  {
  }

  // A reordering_mpdu block: its identity in the pool, the frame's number and packet.
  datatype Mpdu = Mpdu(blk: nat, seqno: int, pkt: nat)

  // A frame handed to the reorderer, and a frame passed to the upper layer.
  datatype Frame = Frame(seqno: int, pkt: nat)

  // LastIndSeq: either the reset mark or the number last passed up.
  datatype Last = Reset | At(n: int) {
    function Value(): int {
      if Reset? then RESET_RCV_SEQ else n
    }
  }

  // One recipient session together with what it shares: the free list of blocks and
  // the logs of packets passed up and packets released (dropped).
  datatype Rx = Rx(
    list: seq<Mpdu>,
    last: Last,
    win: int,
    timer: int,
    drops: nat,
    free: seq<nat>,
    up: seq<Frame>,
    released: seq<nat>)

  function Ups(l: seq<Mpdu>): (r: seq<Frame>)
    ensures |r| == |l|
  {
    seq(|l|, i requires 0 <= i < |l| => Frame(l[i].seqno, l[i].pkt))
  }

  // ba_mpdu_blk_free of the blocks of l, one after the other.
  function PushAll(l: seq<Mpdu>, free: seq<nat>): (r: seq<nat>)
    ensures |r| == |l| + |free|
  {
    if l == [] then free else PushAll(l[1..], [l[0].blk] + free)
  }

  // Dequeue the first k blocks, pass their packets up, free the blocks.
  function Deliver(s: Rx, k: nat): Rx
    requires k <= |s.list|
  {
    s.(list := s.list[k..], up := s.up + Ups(s.list[..k]), free := PushAll(s.list[..k], s.free))
  }

  // How many blocks ba_indicate_reordering_mpdus_in_order takes.
  function RunLen(ar: Arith, l: seq<Mpdu>, start: int): (k: nat)
    ensures k <= |l|
  {
    if l == [] || !StepOne(ar, l[0].seqno, start) then 0
    else 1 + RunLen(ar, l[1..], l[0].seqno)
  }

  // How many blocks ba_indicate_reordering_mpdus_le_seq takes.
  function LeLen(ar: Arith, l: seq<Mpdu>, n: int): (k: nat)
    ensures k <= |l|
  {
    if l == [] || !(l[0].seqno == n || Smaller(ar, l[0].seqno, n)) then 0
    else 1 + LeLen(ar, l[1..], n)
  }

  // Where ba_reordering_mpdu_insertsorted stops scanning.
  function InsertPos(ar: Arith, l: seq<Mpdu>, n: int): (k: nat)
    ensures k <= |l|
  {
    if l == [] || !Smaller(ar, l[0].seqno, n) then 0
    else 1 + InsertPos(ar, l[1..], n)
  }

  function DrainInOrder(ar: Arith, s: Rx, start: int): Rx {
    var k := RunLen(ar, s.list, start);
    Deliver(s, k).(last := if k > 0 then At(s.list[k - 1].seqno) else s.last)
  }

  function ReleaseLe(ar: Arith, s: Rx, n: int): Rx {
    Deliver(s, LeLen(ar, s.list, n))
  }

  // ba_refresh_reordering_mpdus
  function Refresh(s: Rx): Rx {
    Deliver(s, |s.list|).(last := Reset)
  }

  function PassUp(s: Rx, f: Frame): Rx {
    s.(up := s.up + [f])
  }

  function Release(s: Rx, pkt: nat): Rx {
    s.(released := s.released + [pkt])
  }

  // System ticks per second decide both flush limits.
  function Limit100(hz: nat): int { (100 * hz) / 1000 }
  function Limit500(hz: nat): int { ((3000 * hz) / 1000) / 6 }

  // ba_flush_reordering_timeout_mpdus
  function Timeout(ar: Arith, s: Rx, now: int, hz: nat): Rx {
    if TimeAfter(now, s.timer + Limit500(hz)) && |s.list| > 1 then
      Refresh(s).(timer := now)
    else if TimeAfter(now, s.timer + Limit100(hz)) && |s.list| > 0 then
      var n := Norm(ar, s.last.Value() + 1);
      DrainInOrder(ar, MoveTo(ar, s, n).(timer := now), n)
    else
      s
  }

  // The limits are a tenth and half of a second.
  lemma LimitsAre(hz: nat)
    ensures 10 * Limit100(hz) <= hz < 10 * Limit100(hz) + 10
    ensures 2 * Limit500(hz) <= hz < 2 * Limit500(hz) + 2
  {
  }

  // The timer against the true times: when the session was last served, and now.
  lemma TimeoutIs(ar: Arith, s: Rx, served: nat, now: nat, hz: nat)
    requires s.timer == served % ULONG_MODULUS && served <= now < served + ULONG_MODULUS / 2
    requires hz < ULONG_MODULUS
    ensures var t := Timeout(ar, s, now % ULONG_MODULUS, hz);
            var n := Norm(ar, s.last.Value() + 1);
            t == if now > served + Limit500(hz) && |s.list| > 1 then Refresh(s).(timer := now % ULONG_MODULUS)
                 else if now > served + Limit100(hz) && |s.list| > 0 then
                   DrainInOrder(ar, MoveTo(ar, s, n).(timer := now % ULONG_MODULUS), n)
                 else s
  {
    hide Refresh, DrainInOrder, MoveTo, Norm;
    LimitsAre(hz);
    DueIff(served, Limit500(hz), now);
    DueIff(served, Limit100(hz), now);
  }

  lemma DueIff(served: nat, limit: nat, now: nat)
    requires served <= now < served + ULONG_MODULUS / 2 && limit < ULONG_MODULUS / 2
    ensures TimeAfter(now % ULONG_MODULUS, served % ULONG_MODULUS + limit) <==> now > served + limit
  {
    var n, m := now % ULONG_MODULUS, served % ULONG_MODULUS;
    TimeAfterIs(now, served + limit);
    assert served + limit == m + limit + served / ULONG_MODULUS * ULONG_MODULUS;
    ModOfShift(m + limit, served / ULONG_MODULUS);
    var k := (m + limit) / ULONG_MODULUS;
    assert m + limit - n == (m + limit) % ULONG_MODULUS - n + k * ULONG_MODULUS;
    ModOfShift((m + limit) % ULONG_MODULUS - n, k);
  }

  // ba_enqueue_reordering_packet
  function Enqueue(ar: Arith, s: Rx, f: Frame): Rx {
    if s.free == [] then
      PassUp(MoveTo(ar, s, f.seqno), f)
    else
      var i := InsertPos(ar, s.list, f.seqno);
      if i < |s.list| && s.list[i].seqno == f.seqno then
        Release(s, f.pkt)
      else
        s.(list := s.list[..i] + [Mpdu(s.free[0], f.seqno, f.pkt)] + s.list[i..], free := s.free[1..])
  }

  // Release everything up to n and count n as passed up.
  function MoveTo(ar: Arith, s: Rx, n: int): Rx {
    ReleaseLe(ar, s, n).(last := At(n))
  }

  // A frame past the window: move the window so that the frame is its last number.
  function Surpass(ar: Arith, s: Rx, f: Frame): Rx {
    var t := Enqueue(ar, MoveTo(ar, s, Norm(ar, f.seqno - s.win)), f);
    DrainInOrder(ar, t, t.last.Value())
  }

  // The part of Indicate_AMPDU_Packet after the timeout check.
  function Arrive(ar: Arith, s0: Rx, f: Frame, now: int): Rx {
    var s := s0.(timer := now);
    if s.last.Reset? then
      PassUp(s.(last := At(f.seqno)), f)
    else if StepOne(ar, f.seqno, s.last.n) then
      DrainInOrder(ar, PassUp(s.(last := At(f.seqno)), f), f.seqno)
    else if f.seqno == s.last.n || Smaller(ar, f.seqno, s.last.n) then
      Release(s, f.pkt).(drops := s.drops + 1)
    else if Smaller(ar, f.seqno, Norm(ar, s.last.n + s.win + 1)) then
      Enqueue(ar, s, f)
    else
      Surpass(ar, s, f)
  }

  // The BlockAckReq part of CntlEnqueueForRecv.  A reset session compares as 0xFFFF,
  // whatever the arithmetic.
  predicate BarMovesOn(ar: Arith, s: Rx, start: int) {
    if s.last.Reset? then (RESET_RCV_SEQ - start) % SEQ_MODULUS >= SEQ_MODULUS / 2
    else Smaller(ar, s.last.n, start)
  }

  function Bar(ar: Arith, s: Rx, start: int): Rx {
    if BarMovesOn(ar, s, start) then
      ReleaseLe(ar, s, start).(last := At(Norm(ar, start - 1)))
    else s
  }

  // The two assignments BARecSessionAdd makes outside the lock of its flush, and teardown
  // under another one: the window, and the mark that no number was passed up yet.
  function Resize(s: Rx, win: int): Rx { s.(win := win) }

  function Mark(s: Rx): Rx { s.(last := Reset) }

  // BARecSessionAdd on a live session when nothing comes in between.
  function ReAdd(s: Rx, win: int): Rx {
    Refresh(s).(win := win)
  }

  lemma ReAddInParts(s: Rx, win: int)
    ensures ReAdd(s, win) == Mark(Resize(Refresh(s), win))
  {
  }

  // BARecSessionIdleTimeout; its limit is in ticks, not scaled.
  function Idle(s: Rx, now: int): Rx {
    if TimeAfter(now, s.timer + 1000) then Refresh(s) else s
  }

  lemma IdleIs(s: Rx, served: nat, now: nat)
    requires s.timer == served % ULONG_MODULUS && served <= now < served + ULONG_MODULUS / 2
    ensures Idle(s, now % ULONG_MODULUS) == if now > served + 1000 then Refresh(s) else s
  {
    hide Refresh;
    DueIff(served, 1000, now);
  }

  // What can happen to a session.  A received data frame is Tick followed by Data.  Setting a
  // live session up again is Flushed, Resized and Marked, and frames may come in between.
  // Others is any use of the shared block pool by the other sessions.
  datatype Event =
    | Tick(now: int)
    | Data(f: Frame, now: int)
    | BlockAckReq(start: int)
    | Flushed
    | Resized(win: int)
    | Marked
    | IdleTimer(now: int)
    | Others(free: seq<nat>)

  function Step(ar: Arith, s: Rx, e: Event, hz: nat): Rx {
    match e
    case Tick(now) => Timeout(ar, s, now, hz)
    case Data(f, now) => Arrive(ar, s, f, now)
    case BlockAckReq(start) => Bar(ar, s, start)
    case Flushed => Refresh(s)
    case Resized(win) => Resize(s, win)
    case Marked => Mark(s)
    case IdleTimer(now) => Idle(s, now)
    case Others(free) => s.(free := free)
  }

  function Run(ar: Arith, s: Rx, es: seq<Event>, hz: nat): Rx
    decreases |es|
  {
    if es == [] then s else Run(ar, Step(ar, s, es[0], hz), es[1..], hz)
  }
}
