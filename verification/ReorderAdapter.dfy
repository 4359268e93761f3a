// All recipient sessions of an adapter share one pool of blocks: conservation of blocks
// and packets over any run, and the session invariant for every live session.
module ReorderAdapter {
  import opened ReorderModel
  import opened ReorderCircular

  const MAX_BARECI_SESSION: nat := 8

  // An entry that is not Recipient_NONE is taken; a taken one that BARecWcidArray names is
  // live, and only then do frames reach it.
  datatype Phase = Vacant | Taken | Live

  datatype Session = Session(phase: Phase, list: seq<Mpdu>, last: Last, win: int, timer: int, drops: nat)

  // num is numAsRecipient.
  datatype Adapter = Adapter(sessions: seq<Session>, num: int, free: seq<nat>, up: seq<Frame>, released: seq<nat>)

  // Sessions are set up and torn down by a thread, frames come in between its steps.  A new
  // session is Reserve, On(Resized) and Enter; one that is set up again On(Flushed),
  // On(Resized) and On(Marked); a teardown On(Flushed), Clear and Vacate.
  datatype AdapterEvent =
    | On(i: nat, e: Event)      // an event of session i
    | Reserve                   // BATableAllocRecEntry
    | Enter(i: nat)             // the mark of a new session, and its index
    | Clear(j: nat)             // the locked region of BARecSessionTearDown
    | Vacate(j: nat)            // BATableFreeRecEntry
    | Bypass(f: Frame)          // a frame of no session is passed up as it is
    | Oversize(pkt: nat)        // a frame longer than MAX_RX_PKT_LEN is released

  function RxOf(a: Adapter, i: nat): Rx
    requires i < |a.sessions|
  {
    var s := a.sessions[i];
    Rx(s.list, s.last, s.win, s.timer, s.drops, a.free, a.up, a.released)
  }

  function Store(a: Adapter, i: nat, phase: Phase, s: Rx): Adapter
    requires i < |a.sessions|
  {
    Adapter(a.sessions[i := Session(phase, s.list, s.last, s.win, s.timer, s.drops)], a.num, s.free, s.up, s.released)
  }

  // The first vacant entry from k on, or the number of entries.
  function FirstVacant(ss: seq<Session>, k: nat): (i: nat)
    requires k <= |ss|
    ensures k <= i <= |ss| && (i < |ss| ==> ss[i].phase == Vacant)
    decreases |ss| - k
  {
    if k == |ss| || ss[k].phase == Vacant then k else FirstVacant(ss, k + 1)
  }

  // Entry 0 is never given out, nor more than MAX_BARECI_SESSION entries.
  function ReserveEntry(a: Adapter): Adapter {
    if a.num >= MAX_BARECI_SESSION || a.sessions == [] then a
    else
      var k := FirstVacant(a.sessions, 1);
      if k == |a.sessions| then a
      else a.(sessions := a.sessions[k := a.sessions[k].(phase := Taken)], num := a.num + 1)
  }

  // An event that can happen: only live sessions are reached by frames and timers.
  predicate Possible(a: Adapter, e: AdapterEvent) {
    match e
    case On(i, e) => i < |a.sessions| && !e.Others? && AirEvent(e)
                     && (a.sessions[i].phase == Live || (a.sessions[i].phase == Taken && e.Resized?))
    case Reserve => true
    case Enter(i) => i < |a.sessions| && a.sessions[i].phase == Taken && 1 <= a.sessions[i].win <= MAX_BA_WIN
    case Clear(j) => j < |a.sessions| && a.sessions[j].phase == Live
    case Vacate(j) => j < |a.sessions| && a.sessions[j].phase == Taken
    case Bypass(f) => Is12Bit(f.seqno)
    case Oversize(_) => true
  }

  function AdapterStep(a: Adapter, e: AdapterEvent, hz: nat): Adapter
    requires Possible(a, e)
  {
    match e
    case On(i, e) => Store(a, i, a.sessions[i].phase, Step(Circular, RxOf(a, i), e, hz))
    case Reserve => ReserveEntry(a)
    case Enter(i) => Store(a, i, Live, Mark(RxOf(a, i)))
    case Clear(j) => Store(a, j, Taken, Mark(Resize(RxOf(a, j), 0)))
    case Vacate(j) => Store(a, j, Vacant, RxOf(a, j)).(num := a.num - 1)
    case Bypass(f) => a.(up := a.up + [f])
    case Oversize(pkt) => a.(released := a.released + [pkt])
  }

  // How often an event brings in packet x.
  function Gives(e: AdapterEvent, x: nat): nat {
    match e
    case On(_, e) => EventGives(e, x)
    case Bypass(f) => One(f.pkt, x)
    case Oversize(pkt) => One(pkt, x)
    case _ => 0
  }

  function EventGives(e: Event, x: nat): nat {
    if e.Data? then One(e.f.pkt, x) else 0
  }

  // --- Where a block or a packet is ---

  function One(y: nat, x: nat): nat { if y == x then 1 else 0 }

  function Count(s: seq<nat>, x: nat): nat {
    if s == [] then 0 else One(s[0], x) + Count(s[1..], x)
  }

  function Blocks(l: seq<Mpdu>, x: nat): nat {
    if l == [] then 0 else One(l[0].blk, x) + Blocks(l[1..], x)
  }

  function Packets(l: seq<Mpdu>, x: nat): nat {
    if l == [] then 0 else One(l[0].pkt, x) + Packets(l[1..], x)
  }

  function UpPackets(u: seq<Frame>, x: nat): nat {
    if u == [] then 0 else One(u[0].pkt, x) + UpPackets(u[1..], x)
  }

  lemma {:induction false} CountJoin(s: seq<nat>, t: seq<nat>, x: nat)
    ensures Count(s + t, x) == Count(s, x) + Count(t, x)
  {
    if s == [] {
      assert s + t == t;
    } else {
      CountJoin(s[1..], t, x);
      assert (s + t)[1..] == s[1..] + t;
    }
  }

  lemma {:induction false} ListJoin(l: seq<Mpdu>, m: seq<Mpdu>, x: nat)
    ensures Blocks(l + m, x) == Blocks(l, x) + Blocks(m, x)
    ensures Packets(l + m, x) == Packets(l, x) + Packets(m, x)
  {
    if l == [] {
      assert l + m == m;
    } else {
      ListJoin(l[1..], m, x);
      assert (l + m)[1..] == l[1..] + m;
    }
  }

  lemma {:induction false} UpJoin(u: seq<Frame>, v: seq<Frame>, x: nat)
    ensures UpPackets(u + v, x) == UpPackets(u, x) + UpPackets(v, x)
  {
    if u == [] {
      assert u + v == v;
    } else {
      UpJoin(u[1..], v, x);
      assert (u + v)[1..] == u[1..] + v;
    }
  }

  lemma {:induction false} UpsCarryPackets(l: seq<Mpdu>, x: nat)
    ensures UpPackets(Ups(l), x) == Packets(l, x)
  {
    if l != [] {
      UpsCarryPackets(l[1..], x);
      assert Ups(l)[1..] == Ups(l[1..]);
    }
  }

  lemma {:induction false} PushAllCounts(l: seq<Mpdu>, free: seq<nat>, x: nat)
    ensures Count(PushAll(l, free), x) == Blocks(l, x) + Count(free, x)
  {
    if l != [] {
      PushAllCounts(l[1..], [l[0].blk] + free, x);
      assert ([l[0].blk] + free)[1..] == free;
    }
  }

  // The step from s to t moves block x around and adds packet x given times; the number of
  // blocks stays the same.
  predicate Conserves(s: Rx, t: Rx, x: nat, given: nat) {
    && |t.free| + |t.list| == |s.free| + |s.list|
    && Count(t.free, x) + Blocks(t.list, x) == Count(s.free, x) + Blocks(s.list, x)
    && UpPackets(t.up, x) + Count(t.released, x) + Packets(t.list, x)
       == UpPackets(s.up, x) + Count(s.released, x) + Packets(s.list, x) + given
  }

  lemma DeliverConserves(s: Rx, k: nat, x: nat)
    requires k <= |s.list|
    ensures Conserves(s, Deliver(s, k), x, 0)
  {
    assert s.list == s.list[..k] + s.list[k..];
    ListJoin(s.list[..k], s.list[k..], x);
    PushAllCounts(s.list[..k], s.free, x);
    UpsCarryPackets(s.list[..k], x);
    UpJoin(s.up, Ups(s.list[..k]), x);
  }

  lemma PassUpConserves(s: Rx, f: Frame, x: nat)
    ensures Conserves(s, PassUp(s, f), x, One(f.pkt, x))
  {
    UpJoin(s.up, [f], x);
  }

  lemma ReleaseConserves(s: Rx, pkt: nat, x: nat)
    ensures Conserves(s, Release(s, pkt), x, One(pkt, x))
  {
    CountJoin(s.released, [pkt], x);
  }

  lemma InsertConserves(s: Rx, i: nat, f: Frame, x: nat)
    requires s.free != [] && i <= |s.list|
    ensures var t := s.(list := s.list[..i] + [Mpdu(s.free[0], f.seqno, f.pkt)] + s.list[i..], free := s.free[1..]);
            Conserves(s, t, x, One(f.pkt, x))
  {
    var m := Mpdu(s.free[0], f.seqno, f.pkt);
    ListJoin(s.list[..i], s.list[i..], x);
    ListJoin(s.list[..i] + [m], s.list[i..], x);
    ListJoin(s.list[..i], [m], x);
    assert s.list == s.list[..i] + s.list[i..];
  }

  lemma EnqueueConserves(ar: Arith, s: Rx, f: Frame, x: nat)
    ensures Conserves(s, Enqueue(ar, s, f), x, One(f.pkt, x))
  {
    hide LeLen, InsertPos, Count, Blocks, Packets, UpPackets, Deliver;
    if s.free == [] {
      DeliverConserves(s, LeLen(ar, s.list, f.seqno), x);
      PassUpConserves(MoveTo(ar, s, f.seqno), f, x);
    } else {
      InsertConserves(s, InsertPos(ar, s.list, f.seqno), f, x);
      ReleaseConserves(s, f.pkt, x);
    }
  }

  lemma DrainConserves(ar: Arith, s: Rx, n: int, x: nat)
    ensures Conserves(s, DrainInOrder(ar, s, n), x, 0)
  {
    hide RunLen, Count, Blocks, Packets, UpPackets;
    DeliverConserves(s, RunLen(ar, s.list, n), x);
  }

  lemma MoveToConserves(ar: Arith, s: Rx, n: int, x: nat)
    ensures Conserves(s, MoveTo(ar, s, n), x, 0)
  {
    hide LeLen, Count, Blocks, Packets, UpPackets;
    DeliverConserves(s, LeLen(ar, s.list, n), x);
  }

  lemma SurpassConserves(ar: Arith, s: Rx, f: Frame, x: nat)
    ensures Conserves(s, Surpass(ar, s, f), x, One(f.pkt, x))
  {
    hide Count, Blocks, Packets, UpPackets, Norm, Enqueue, MoveTo, DrainInOrder;
    var r := MoveTo(ar, s, Norm(ar, f.seqno - s.win));
    MoveToConserves(ar, s, Norm(ar, f.seqno - s.win), x);
    EnqueueConserves(ar, r, f, x);
    var t := Enqueue(ar, r, f);
    DrainConserves(ar, t, t.last.Value(), x);
  }

  lemma ArriveConserves(ar: Arith, s: Rx, f: Frame, now: int, x: nat)
    ensures Conserves(s, Arrive(ar, s, f, now), x, One(f.pkt, x))
  {
    hide Count, Blocks, Packets, UpPackets, StepOne, Smaller, Norm, Enqueue, DrainInOrder, Surpass, Release, PassUp;
    var s1 := s.(timer := now);
    var g := PassUp(s1.(last := At(f.seqno)), f);
    PassUpConserves(s1.(last := At(f.seqno)), f, x);
    DrainConserves(ar, g, f.seqno, x);
    ReleaseConserves(s1, f.pkt, x);
    EnqueueConserves(ar, s1, f, x);
    SurpassConserves(ar, s1, f, x);
  }

  lemma RefreshConserves(s: Rx, x: nat)
    ensures Conserves(s, Refresh(s), x, 0)
  {
    DeliverConserves(s, |s.list|, x);
  }

  lemma BarConserves(ar: Arith, s: Rx, start: int, x: nat)
    ensures Conserves(s, Bar(ar, s, start), x, 0)
  {
    hide Count, Blocks, Packets, UpPackets, LeLen;
    DeliverConserves(s, LeLen(ar, s.list, start), x);
  }

  lemma TimeoutConserves(ar: Arith, s: Rx, now: int, hz: nat, x: nat)
    ensures Conserves(s, Timeout(ar, s, now, hz), x, 0)
  {
    hide Count, Blocks, Packets, UpPackets, Norm, TimeAfter, Limit100, Limit500, DrainInOrder, MoveTo;
    DeliverConserves(s, |s.list|, x);
    var n := Norm(ar, s.last.Value() + 1);
    MoveToConserves(ar, s, n, x);
    DrainConserves(ar, MoveTo(ar, s, n).(timer := now), n, x);
  }

  // Every event of a session moves blocks between the list and the free list, and packets
  // from the list to the upper layer, and loses none.
  lemma StepConserves(ar: Arith, s: Rx, e: Event, hz: nat, x: nat)
    requires !e.Others?
    ensures Conserves(s, Step(ar, s, e, hz), x, EventGives(e, x))
  {
    hide Conserves, Timeout, Arrive, Bar, TimeAfter, One;
    match e
    case Tick(now) => TimeoutConserves(ar, s, now, hz, x);
    case Data(f, now) => ArriveConserves(ar, s, f, now, x);
    case BlockAckReq(start) => BarConserves(ar, s, start, x);
    case Flushed => RefreshConserves(s, x);
    case Resized(win) => StayConserves(s, s.last, win, x);
    case Marked => StayConserves(s, Reset, s.win, x);
    case IdleTimer(now) =>
      RefreshConserves(s, x);
      StayConserves(s, s.last, s.win, x);
  }

  lemma StayConserves(s: Rx, last: Last, win: int, x: nat)
    ensures Conserves(s, s.(last := last, win := win), x, 0)
  {
  }

  // --- The whole adapter ---

  function HeldBlocks(ss: seq<Session>, x: nat): nat {
    if ss == [] then 0 else Blocks(ss[0].list, x) + HeldBlocks(ss[1..], x)
  }

  function HeldPackets(ss: seq<Session>, x: nat): nat {
    if ss == [] then 0 else Packets(ss[0].list, x) + HeldPackets(ss[1..], x)
  }

  function HeldCount(ss: seq<Session>): nat {
    if ss == [] then 0 else |ss[0].list| + HeldCount(ss[1..])
  }

  // The blocks there are, free and held.
  function BlockCount(a: Adapter): nat { |a.free| + HeldCount(a.sessions) }

  // A block is free or holds a frame; a packet is passed up, released or held.
  function BlockPlaces(a: Adapter, x: nat): nat {
    Count(a.free, x) + HeldBlocks(a.sessions, x)
  }

  function PacketPlaces(a: Adapter, x: nat): nat {
    UpPackets(a.up, x) + Count(a.released, x) + HeldPackets(a.sessions, x)
  }

  lemma {:induction false} HeldUpdate(ss: seq<Session>, i: nat, s: Session, x: nat)
    requires i < |ss|
    ensures HeldBlocks(ss[i := s], x) + Blocks(ss[i].list, x) == HeldBlocks(ss, x) + Blocks(s.list, x)
    ensures HeldPackets(ss[i := s], x) + Packets(ss[i].list, x) == HeldPackets(ss, x) + Packets(s.list, x)
    ensures HeldCount(ss[i := s]) + |ss[i].list| == HeldCount(ss) + |s.list|
  {
    hide Blocks, Packets;
    if i == 0 {
      assert ss[i := s][1..] == ss[1..];
    } else {
      HeldUpdate(ss[1..], i - 1, s, x);
      assert ss[i := s][1..] == ss[1..][i - 1 := s];
    }
  }

  lemma StoreConserves(a: Adapter, i: nat, phase: Phase, t: Rx, x: nat, given: nat)
    requires i < |a.sessions| && Conserves(RxOf(a, i), t, x, given)
    ensures BlockPlaces(Store(a, i, phase, t), x) == BlockPlaces(a, x)
    ensures PacketPlaces(Store(a, i, phase, t), x) == PacketPlaces(a, x) + given
    ensures BlockCount(Store(a, i, phase, t)) == BlockCount(a)
  {
    hide Count, Blocks, Packets, HeldBlocks, HeldPackets, UpPackets, HeldCount;
    HeldUpdate(a.sessions, i, Session(phase, t.list, t.last, t.win, t.timer, t.drops), x);
  }

  lemma AdapterStepConserves(a: Adapter, e: AdapterEvent, hz: nat, x: nat)
    requires Possible(a, e)
    ensures BlockPlaces(AdapterStep(a, e, hz), x) == BlockPlaces(a, x)
    ensures PacketPlaces(AdapterStep(a, e, hz), x) == PacketPlaces(a, x) + Gives(e, x)
    ensures BlockCount(AdapterStep(a, e, hz)) == BlockCount(a)
  {
    hide Step, Store, Conserves, HeldCount, HeldBlocks, HeldPackets, Count, UpPackets, One;
    match e
    case On(i, e) =>
      StepConserves(Circular, RxOf(a, i), e, hz, x);
      StoreConserves(a, i, a.sessions[i].phase, Step(Circular, RxOf(a, i), e, hz), x, EventGives(e, x));
    case Reserve => ReserveConserves(a, x);
    case Enter(i) => PhaseConserves(a, i, Live, Reset, a.sessions[i].win, x);
    case Clear(j) => PhaseConserves(a, j, Taken, Reset, 0, x);
    case Vacate(j) => PhaseConserves(a, j, Vacant, a.sessions[j].last, a.sessions[j].win, x);
    case Bypass(f) => BypassConserves(a, f, x);
    case Oversize(pkt) => OversizeConserves(a, pkt, x);
  }

  lemma PhaseConserves(a: Adapter, i: nat, phase: Phase, last: Last, win: int, x: nat)
    requires i < |a.sessions|
    ensures var b := Store(a, i, phase, RxOf(a, i).(last := last, win := win));
            BlockPlaces(b, x) == BlockPlaces(a, x) && PacketPlaces(b, x) == PacketPlaces(a, x)
            && BlockCount(b) == BlockCount(a)
  {
    hide Store, Conserves, BlockPlaces, PacketPlaces, BlockCount;
    StayConserves(RxOf(a, i), last, win, x);
    StoreConserves(a, i, phase, RxOf(a, i).(last := last, win := win), x, 0);
  }

  lemma ReserveConserves(a: Adapter, x: nat)
    ensures var b := ReserveEntry(a);
            BlockPlaces(b, x) == BlockPlaces(a, x) && PacketPlaces(b, x) == PacketPlaces(a, x)
            && BlockCount(b) == BlockCount(a)
  {
    hide Count, Blocks, Packets, HeldBlocks, HeldPackets, UpPackets, HeldCount, FirstVacant;
    if ReserveEntry(a) != a {
      var k := FirstVacant(a.sessions, 1);
      HeldUpdate(a.sessions, k, a.sessions[k].(phase := Taken), x);
    }
  }

  lemma BypassConserves(a: Adapter, f: Frame, x: nat)
    ensures PacketPlaces(a.(up := a.up + [f]), x) == PacketPlaces(a, x) + One(f.pkt, x)
  {
    UpJoin(a.up, [f], x);
  }

  lemma OversizeConserves(a: Adapter, pkt: nat, x: nat)
    ensures PacketPlaces(a.(released := a.released + [pkt]), x) == PacketPlaces(a, x) + One(pkt, x)
  {
    CountJoin(a.released, [pkt], x);
  }

  // --- Runs ---

  // A live session satisfies the session invariant, the others hold nothing.
  ghost predicate AdapterInv(a: Adapter) {
    && (forall i :: 0 <= i < |a.sessions| ==> SessionOk(a, i))
    && UpOk(a.up)
  }

  ghost predicate SessionOk(a: Adapter, i: nat)
    requires i < |a.sessions|
  {
    if a.sessions[i].phase == Live then CircularInv(RxOf(a, i)) else a.sessions[i].list == []
  }

  ghost predicate UpOk(up: seq<Frame>) {
    forall i :: 0 <= i < |up| ==> Is12Bit(up[i].seqno)
  }

  // No allocation fails for a frame whose successor is already held, no new window is too
  // small for what is held, and nothing is held where a session is marked or cleared.
  predicate Healthy(a: Adapter, e: AdapterEvent)
    requires Possible(a, e)
  {
    match e
    case On(i, e) => a.sessions[i].phase == Live ==> Kept(RxOf(a, i), e)
    case Clear(j) => a.sessions[j].list == []
    case _ => true
  }

  lemma OthersKeepInv(s: Rx, t: Rx)
    requires CircularInv(s) && UpOk(t.up)
    ensures CircularInv(t.(list := s.list, last := s.last, win := s.win, timer := s.timer, drops := s.drops))
  {
  }

  lemma StoreKeepsInvIff(a: Adapter, i: nat, phase: Phase, t: Rx)
    requires AdapterInv(a) && i < |a.sessions| && (phase != Live ==> UpOk(t.up))
    ensures AdapterInv(Store(a, i, phase, t)) <==> if phase == Live then CircularInv(t) else t.list == []
  {
    var b := Store(a, i, phase, t);
    assert RxOf(b, i) == t;
    assert SessionOk(b, i) <==> if phase == Live then CircularInv(t) else t.list == [];
    if SessionOk(b, i) {
      UpOfInv(t, phase);
      forall j | 0 <= j < |b.sessions| ensures SessionOk(b, j) {
        if j != i {
          assert SessionOk(a, j);
          if a.sessions[j].phase == Live {
            OthersKeepInv(RxOf(a, j), t);
          }
        }
      }
    }
  }

  lemma UpOfInv(t: Rx, phase: Phase)
    requires if phase == Live then CircularInv(t) else UpOk(t.up)
    ensures UpOk(t.up)
  {
  }

  // Every event keeps the invariant of all sessions, exactly if it is healthy.
  lemma AdapterStepKeepsInvIff(a: Adapter, e: AdapterEvent, hz: nat)
    requires AdapterInv(a) && Possible(a, e)
    ensures AdapterInv(AdapterStep(a, e, hz)) <==> Healthy(a, e)
  {
    hide Step, Store, Kept, CircularInv, UpOk;
    match e
    case On(i, e) => OnKeepsInvIff(a, i, e, hz);
    case Reserve => ReserveKeepsInv(a);
    case Enter(i) =>
      assert SessionOk(a, i);
      MarkedEmpty(RxOf(a, i));
      StoreKeepsInvIff(a, i, Live, Mark(RxOf(a, i)));
    case Clear(j) => StoreKeepsInvIff(a, j, Taken, Mark(Resize(RxOf(a, j), 0)));
    case Vacate(j) =>
      assert SessionOk(a, j);
      StoreKeepsInvIff(a, j, Vacant, RxOf(a, j));
      CountKeepsInv(Store(a, j, Vacant, RxOf(a, j)), a.num - 1);
    case Bypass(f) =>
      UpMore(a.up, f);
      LogsKeepInv(a, a.(up := a.up + [f]));
    case Oversize(pkt) => LogsKeepInv(a, a.(released := a.released + [pkt]));
  }

  lemma UpMore(up: seq<Frame>, f: Frame)
    requires UpOk(up) && Is12Bit(f.seqno)
    ensures UpOk(up + [f])
  {
  }

  lemma OnKeepsInvIff(a: Adapter, i: nat, e: Event, hz: nat)
    requires AdapterInv(a) && Possible(a, On(i, e))
    ensures AdapterInv(AdapterStep(a, On(i, e), hz)) <==> Healthy(a, On(i, e))
  {
    hide Store, Kept, CircularInv, UpOk;
    var s := RxOf(a, i);
    assert SessionOk(a, i);
    if a.sessions[i].phase == Live {
      CircularStepKeepsInvIff(s, e, hz);
    }
    StoreKeepsInvIff(a, i, a.sessions[i].phase, Step(Circular, s, e, hz));
  }

  lemma MarkedEmpty(s: Rx)
    requires s.list == [] && 1 <= s.win <= MAX_BA_WIN && UpOk(s.up)
    ensures CircularInv(Mark(s))
  {
  }

  lemma CountKeepsInv(a: Adapter, num: int)
    ensures AdapterInv(a.(num := num)) <==> AdapterInv(a)
  {
    hide CircularInv;
    var b := a.(num := num);
    assert forall j :: 0 <= j < |a.sessions| ==> (SessionOk(b, j) <==> SessionOk(a, j));
  }

  lemma ReserveKeepsInv(a: Adapter)
    requires AdapterInv(a)
    ensures AdapterInv(ReserveEntry(a))
  {
    hide CircularInv, FirstVacant;
    var b := ReserveEntry(a);
    forall j | 0 <= j < |b.sessions| ensures SessionOk(b, j) {
      assert SessionOk(a, j);
      assert b.sessions[j].phase == Live ==> RxOf(b, j) == RxOf(a, j);
    }
  }

  lemma LogsKeepInv(a: Adapter, b: Adapter)
    requires AdapterInv(a) && b.sessions == a.sessions && b.free == a.free && UpOk(b.up)
    ensures AdapterInv(b)
  {
    hide CircularInv, UpOk;
    forall j | 0 <= j < |b.sessions| ensures SessionOk(b, j) {
      assert SessionOk(a, j);
      if a.sessions[j].phase == Live {
        OthersKeepInv(RxOf(a, j), RxOf(b, j));
      }
    }
  }

  predicate AdapterRunOk(a: Adapter, es: seq<AdapterEvent>, hz: nat)
    decreases |es|
  {
    es == [] || (Possible(a, es[0]) && AdapterRunOk(AdapterStep(a, es[0], hz), es[1..], hz))
  }

  function AdapterRun(a: Adapter, es: seq<AdapterEvent>, hz: nat): Adapter
    requires AdapterRunOk(a, es, hz)
    decreases |es|
  {
    if es == [] then a else AdapterRun(AdapterStep(a, es[0], hz), es[1..], hz)
  }

  // How often a run brings in packet x.
  function RunGives(es: seq<AdapterEvent>, x: nat): nat {
    if es == [] then 0 else Gives(es[0], x) + RunGives(es[1..], x)
  }

  // ba_reordering_resource_init: num blocks, each pushed on the free list.
  function FreshPool(num: nat): seq<nat> {
    if num == 0 then [] else [num - 1] + FreshPool(num - 1)
  }

  function Booted(sessions: nat, num: nat): Adapter {
    Adapter(seq(sessions, _ => Session(Vacant, [], Reset, 0, 0, 0)), 0, FreshPool(num), [], [])
  }

  // ba_reordering_resource_release: of every entry that is not vacant the held packets are
  // released and the blocks freed.
  function ReleaseList(l: seq<Mpdu>): seq<nat> {
    if l == [] then [] else [l[0].pkt] + ReleaseList(l[1..])
  }

  function ReleaseEntry(a: Adapter, i: nat): Adapter
    requires i < |a.sessions|
  {
    var l := a.sessions[i].list;
    if a.sessions[i].phase == Vacant then a
    else a.(sessions := a.sessions[i := a.sessions[i].(list := [])], free := PushAll(l, a.free),
            released := a.released + ReleaseList(l))
  }

  function ShutDown(a: Adapter, i: nat): Adapter
    requires i <= |a.sessions|
    decreases |a.sessions| - i
  {
    if i == |a.sessions| then a else ShutDown(ReleaseEntry(a, i), i + 1)
  }

  lemma {:induction false} ReleaseListPackets(l: seq<Mpdu>, x: nat)
    ensures Count(ReleaseList(l), x) == Packets(l, x)
  {
    if l != [] {
      ReleaseListPackets(l[1..], x);
      assert ReleaseList(l)[1..] == ReleaseList(l[1..]);
    }
  }

  lemma {:induction false} FreshPoolDistinct(num: nat, x: nat)
    ensures Count(FreshPool(num), x) == if x < num then 1 else 0
  {
    if num > 0 {
      FreshPoolDistinct(num - 1, x);
      assert FreshPool(num)[1..] == FreshPool(num - 1);
    }
  }

  lemma {:induction false} NothingHeld(ss: seq<Session>, x: nat)
    requires forall i :: 0 <= i < |ss| ==> ss[i].list == []
    ensures HeldBlocks(ss, x) == 0 && HeldPackets(ss, x) == 0
  {
    if ss != [] {
      NothingHeld(ss[1..], x);
    }
  }

  lemma {:induction false} RunConserves(a: Adapter, es: seq<AdapterEvent>, hz: nat, x: nat)
    requires AdapterRunOk(a, es, hz)
    ensures BlockPlaces(AdapterRun(a, es, hz), x) == BlockPlaces(a, x)
    ensures PacketPlaces(AdapterRun(a, es, hz), x) == PacketPlaces(a, x) + RunGives(es, x)
    decreases |es|
  {
    hide BlockPlaces, PacketPlaces, Gives, AdapterStep;
    if es != [] {
      AdapterStepConserves(a, es[0], hz, x);
      RunConserves(AdapterStep(a, es[0], hz), es[1..], hz, x);
    }
  }

  // From power-up, over any run: each of the num blocks is in exactly one place, and every
  // packet is passed up, released or held exactly as often as it was given.
  lemma BootedRunConserves(sessions: nat, num: nat, es: seq<AdapterEvent>, hz: nat, x: nat)
    requires AdapterRunOk(Booted(sessions, num), es, hz)
    ensures var a := AdapterRun(Booted(sessions, num), es, hz);
            && BlockPlaces(a, x) == (if x < num then 1 else 0)
            && PacketPlaces(a, x) == RunGives(es, x)
  {
    var a := Booted(sessions, num);
    RunConserves(a, es, hz, x);
    FreshPoolDistinct(num, x);
    NothingHeld(a.sessions, x);
  }

  lemma ReleaseEntryConserves(a: Adapter, i: nat, x: nat)
    requires i < |a.sessions|
    ensures BlockPlaces(ReleaseEntry(a, i), x) == BlockPlaces(a, x)
    ensures PacketPlaces(ReleaseEntry(a, i), x) == PacketPlaces(a, x)
  {
    hide Count, Packets, HeldBlocks, HeldPackets, UpPackets, PushAll, ReleaseList;
    var l := a.sessions[i].list;
    if a.sessions[i].phase != Vacant {
      HeldUpdate(a.sessions, i, a.sessions[i].(list := []), x);
      PushAllCounts(l, a.free, x);
      ReleaseListPackets(l, x);
      CountJoin(a.released, ReleaseList(l), x);
      NoPlaces(x);
    }
  }

  lemma NoPlaces(x: nat)
    ensures Blocks([], x) == 0 && Packets([], x) == 0
  {
  }

  lemma {:induction false} ShutDownConserves(a: Adapter, i: nat, x: nat)
    requires i <= |a.sessions|
    ensures BlockPlaces(ShutDown(a, i), x) == BlockPlaces(a, x)
    ensures PacketPlaces(ShutDown(a, i), x) == PacketPlaces(a, x)
    decreases |a.sessions| - i
  {
    hide BlockPlaces, PacketPlaces, ReleaseEntry;
    if i < |a.sessions| {
      ReleaseEntryConserves(a, i, x);
      ReleaseEntrySize(a, i);
      ShutDownConserves(ReleaseEntry(a, i), i + 1, x);
    }
  }

  lemma ReleaseEntrySize(a: Adapter, i: nat)
    requires i < |a.sessions|
    ensures |ReleaseEntry(a, i).sessions| == |a.sessions|
  {
  }

  // What is left on the lists of the entries: that of the vacant ones.
  lemma {:induction false} ShutDownEmpties(a: Adapter, i: nat, j: nat)
    requires i <= |a.sessions| && j < |a.sessions|
    ensures var b := ShutDown(a, i);
            |b.sessions| == |a.sessions|
            && b.sessions[j].list == if j >= i && a.sessions[j].phase != Vacant then [] else a.sessions[j].list
    decreases |a.sessions| - i
  {
    if i < |a.sessions| {
      ShutDownEmpties(ReleaseEntry(a, i), i + 1, j);
    }
  }

  predicate VacantEmpty(a: Adapter) {
    forall i :: 0 <= i < |a.sessions| && a.sessions[i].phase == Vacant ==> a.sessions[i].list == []
  }

  lemma {:induction false} HeldSome(ss: seq<Session>, j: nat, x: nat)
    requires j < |ss|
    ensures HeldBlocks(ss, x) >= Blocks(ss[j].list, x) && HeldPackets(ss, x) >= Packets(ss[j].list, x)
  {
    hide Blocks, Packets;
    if j > 0 {
      HeldSome(ss[1..], j - 1, x);
    }
  }

  ghost predicate BlocksBack(b: Adapter, num: nat) {
    forall x: nat :: Count(b.free, x) == if x < num then 1 else 0
  }

  ghost predicate PacketsSettled(b: Adapter, es: seq<AdapterEvent>) {
    forall x: nat :: UpPackets(b.up, x) + Count(b.released, x) == RunGives(es, x)
  }

  // After the driver has shut down no block is missing and no packet is left behind, exactly
  // when no vacant entry holds a frame: the code passes those entries over.
  lemma NothingLeaksIff(sessions: nat, num: nat, es: seq<AdapterEvent>, hz: nat)
    requires AdapterRunOk(Booted(sessions, num), es, hz)
    ensures var a := AdapterRun(Booted(sessions, num), es, hz); var b := ShutDown(a, 0);
            (BlocksBack(b, num) <==> VacantEmpty(a)) && (PacketsSettled(b, es) <==> VacantEmpty(a))
  {
    hide AdapterRun, ShutDown, Count, UpPackets, HeldBlocks, HeldPackets, Booted;
    var a := AdapterRun(Booted(sessions, num), es, hz);
    var b := ShutDown(a, 0);
    forall x: nat
      ensures Count(b.free, x) + HeldBlocks(b.sessions, x) == if x < num then 1 else 0
      ensures UpPackets(b.up, x) + Count(b.released, x) + HeldPackets(b.sessions, x) == RunGives(es, x)
    {
      BootedRunConserves(sessions, num, es, hz, x);
      ShutDownConserves(a, 0, x);
    }
    if VacantEmpty(a) {
      ShutDownLeaves(a);
      forall x: nat ensures HeldBlocks(b.sessions, x) == 0 && HeldPackets(b.sessions, x) == 0 {
        NothingHeld(b.sessions, x);
      }
    } else {
      var j :| 0 <= j < |a.sessions| && a.sessions[j].phase == Vacant && a.sessions[j].list != [];
      ShutDownEmpties(a, 0, j);
      var m := a.sessions[j].list[0];
      FirstIsHeld(a.sessions[j].list);
      HeldSome(b.sessions, j, m.blk);
      HeldSome(b.sessions, j, m.pkt);
      NotBack(b, num, m.blk);
      NotSettled(b, es, m.pkt);
    }
  }

  lemma NotBack(b: Adapter, num: nat, x: nat)
    requires Count(b.free, x) < if x < num then 1 else 0
    ensures !BlocksBack(b, num)
  {
  }

  lemma NotSettled(b: Adapter, es: seq<AdapterEvent>, x: nat)
    requires UpPackets(b.up, x) + Count(b.released, x) < RunGives(es, x)
    ensures !PacketsSettled(b, es)
  {
  }

  lemma FirstIsHeld(l: seq<Mpdu>)
    requires l != []
    ensures Blocks(l, l[0].blk) >= 1 && Packets(l, l[0].pkt) >= 1
  {
  }

  lemma ShutDownLeaves(a: Adapter)
    requires VacantEmpty(a)
    ensures forall j :: 0 <= j < |ShutDown(a, 0).sessions| ==> ShutDown(a, 0).sessions[j].list == []
  {
    hide ShutDown;
    if a.sessions != [] {
      ShutDownEmpties(a, 0, 0);
      forall j | 0 <= j < |a.sessions| ensures ShutDown(a, 0).sessions[j].list == [] {
        ShutDownEmpties(a, 0, j);
      }
    } else {
      ShutDownNothing(a);
    }
  }

  lemma ShutDownNothing(a: Adapter)
    requires a.sessions == []
    ensures ShutDown(a, 0) == a
  {
  }

  // Only live entries hold anything.
  predicate Tidy(a: Adapter) {
    forall i :: 0 <= i < |a.sessions| && a.sessions[i].phase != Live ==> a.sessions[i].list == []
  }

  predicate ClearsEmpty(a: Adapter, es: seq<AdapterEvent>, hz: nat)
    requires AdapterRunOk(a, es, hz)
    decreases |es|
  {
    es == []
    || ((es[0].Clear? ==> a.sessions[es[0].j].list == []) && ClearsEmpty(AdapterStep(a, es[0], hz), es[1..], hz))
  }

  lemma StepTidyIff(a: Adapter, e: AdapterEvent, hz: nat)
    requires Tidy(a) && Possible(a, e)
    ensures Tidy(AdapterStep(a, e, hz)) <==> e.Clear? ==> a.sessions[e.j].list == []
  {
    hide FirstVacant;
    match e
    case Clear(j) =>
      var b := AdapterStep(a, e, hz);
      assert b.sessions[j].list == a.sessions[j].list && b.sessions[j].phase == Taken;
    case On(i, e) =>
      hide Step;
      assert a.sessions[i].phase == Taken ==> Step(Circular, RxOf(a, i), e, hz) == Resize(RxOf(a, i), e.win) by {
        ResizeStep(RxOf(a, i), e, hz);
      }
    case _ =>
  }

  lemma ResizeStep(s: Rx, e: Event, hz: nat)
    ensures e.Resized? ==> Step(Circular, s, e, hz) == Resize(s, e.win)
  {
  }

  lemma {:induction false} RunTidy(a: Adapter, es: seq<AdapterEvent>, hz: nat)
    requires Tidy(a) && AdapterRunOk(a, es, hz) && ClearsEmpty(a, es, hz)
    ensures Tidy(AdapterRun(a, es, hz))
    decreases |es|
  {
    hide Tidy, AdapterStep, Possible;
    if es != [] {
      StepTidyIff(a, es[0], hz);
      RunTidy(AdapterStep(a, es[0], hz), es[1..], hz);
    }
  }

  // So nothing leaks over any run in which a teardown finds the list still empty when it
  // clears the entry.
  lemma NothingLeaks(sessions: nat, num: nat, es: seq<AdapterEvent>, hz: nat)
    requires AdapterRunOk(Booted(sessions, num), es, hz) && ClearsEmpty(Booted(sessions, num), es, hz)
    ensures var b := ShutDown(AdapterRun(Booted(sessions, num), es, hz), 0);
            BlocksBack(b, num) && PacketsSettled(b, es)
  {
    BootedTidy(sessions, num);
    hide AdapterRun, ShutDown, Booted, ClearsEmpty;
    RunTidy(Booted(sessions, num), es, hz);
    NothingLeaksIff(sessions, num, es, hz);
  }

  lemma BootedTidy(sessions: nat, num: nat)
    ensures Tidy(Booted(sessions, num))
  {
  }

  predicate HealthyRun(a: Adapter, es: seq<AdapterEvent>, hz: nat)
    requires AdapterRunOk(a, es, hz)
    decreases |es|
  {
    es == [] || (Healthy(a, es[0]) && HealthyRun(AdapterStep(a, es[0], hz), es[1..], hz))
  }

  lemma {:induction false} RunKeepsInv(a: Adapter, es: seq<AdapterEvent>, hz: nat)
    requires AdapterInv(a) && AdapterRunOk(a, es, hz) && HealthyRun(a, es, hz)
    ensures AdapterInv(AdapterRun(a, es, hz))
    decreases |es|
  {
    hide AdapterInv, Healthy, AdapterStep;
    if es != [] {
      AdapterStepKeepsInvIff(a, es[0], hz);
      RunKeepsInv(AdapterStep(a, es[0], hz), es[1..], hz);
    }
  }
}
