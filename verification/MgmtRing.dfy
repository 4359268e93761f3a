// The management ring: MiniportMMRequest and RtmpUSBMgmtKickOut put frames on it,
// RTUSBBulkOutMLMEPacket hands them to USB one at a time, rt2870_mgmt_dma_done_tasklet takes
// them off (common/cmm_data.c, cmm_data_2870.c, rtusb_bulk.c, 2870_rtmp_init.c).
module MgmtRing {

  const SIZE: nat := 32 // MGMT_RING_SIZE

  const UINT32: nat := 0x1_0000_0000

  type Packet = nat

  datatype Option = None | Some(p: Packet)

  // pNdisPacket and the flags of the TX_CONTEXT of a cell.
  datatype Cell = Cell(packet: Option, inUse: bool, waiting: bool, irpPending: bool)

  // The cell USB works on: none, one that has been claimed but not yet submitted, or one on
  // the air.
  datatype Air = Idle | Claimed(index: nat) | Sending(index: nat)

  // The cell of a tasklet that has left its first locked region and not yet entered the second.
  datatype Halfway = NoHalf | Half(index: nat)

  // cpu, dma and free are TxCpuIdx, TxDmaIdx and the 32-bit TxSwFreeIdx, pending is
  // BulkOutPending.  requests counts the calls of MiniportMMRequest that have seen a free cell
  // and not put their frame yet; kicks lists the cells that calls of RTUSBBulkOutMLMEPacket
  // have looked at and not claimed yet.  queued and freed list the packets put on the ring and
  // taken off it so far.
  datatype Ring = Ring(cells: seq<Cell>, cpu: nat, dma: nat, free: nat, pending: bool, air: Air, half: Halfway,
                       requests: nat, kicks: seq<nat>, queued: seq<Packet>, freed: seq<Packet>)

  predicate Shaped(r: Ring) {
    |r.cells| == SIZE && r.cpu < SIZE && r.dma < SIZE
    && (r.air != Idle ==> r.air.index < SIZE) && (r.half != NoHalf ==> r.half.index < SIZE)
    && forall k :: 0 <= k < |r.kicks| ==> r.kicks[k] < SIZE
  }

  // A 32-bit count, decremented.
  function Less(n: nat): (m: nat)
    ensures m < UINT32
  {
    (n + UINT32 - 1) % UINT32
  }

  lemma LessIs(n: nat)
    requires n <= SIZE
    ensures Less(n) == if n == 0 then UINT32 - 1 else n - 1
  {
  }

  // And incremented.
  function More(n: nat): (m: nat)
    ensures m < UINT32
  {
    (n + 1) % UINT32
  }

  lemma MoreIs(n: nat)
    requires n <= SIZE
    ensures More(n) == n + 1
  {
  }

  function Increased(i: nat): (j: nat)
    ensures j < SIZE
  {
    (i + 1) % SIZE
  }

  // --- The steps ---

  // RtmpUSBMgmtKickOut, under the lock that keeps other producers out.
  function Put(r: Ring, p: Packet): (r': Ring)
    requires Shaped(r)
    ensures Shaped(r')
  {
    r.(cells := r.cells[r.cpu := Cell(Some(p), true, true, r.cells[r.cpu].irpPending)],
       free := Less(r.free), cpu := Increased(r.cpu), queued := r.queued + [p])
  }

  // MiniportMMRequest looks at the free count without a lock.
  predicate SeesRoom(r: Ring, up: bool) { up && r.free > 0 }

  function Ask(r: Ring, up: bool): (r': Ring)
    requires Shaped(r)
    ensures Shaped(r')
  {
    if SeesRoom(r, up) then r.(requests := r.requests + 1) else r
  }

  // A request that saw room: the packet may not be had, or may not be sent.
  function Finish(r: Ring, p: Packet, memory: bool, allowed: bool): (r': Ring)
    requires Shaped(r) && r.requests > 0
    ensures Shaped(r')
  {
    var s := r.(requests := r.requests - 1);
    if memory && allowed then Put(s, p) else s
  }

  // RTUSBBulkOutMLMEPacket looks at the cell at TxDmaIdx without a lock.
  predicate SeesWork(r: Ring)
    requires Shaped(r)
  {
    r.free < SIZE && r.cells[r.dma].inUse && r.cells[r.dma].waiting
  }

  function Look(r: Ring): (r': Ring)
    requires Shaped(r)
    ensures Shaped(r')
  {
    if SeesWork(r) then r.(kicks := r.kicks + [r.dma]) else r
  }

  // Its locked region, for the k-th call under way: claim the cell that was looked at.
  function Claim(r: Ring, k: nat, stopped: bool): (r': Ring)
    requires Shaped(r) && k < |r.kicks|
    ensures Shaped(r')
  {
    var i, s := r.kicks[k], r.(kicks := r.kicks[..k] + r.kicks[k + 1..]);
    if r.pending || stopped then s
    else s.(cells := r.cells[i := r.cells[i].(irpPending := true, waiting := false)], pending := true,
            air := Claimed(i))
  }

  // The submission, and the locked region that takes the claim back if USB refuses it.
  function Submit(r: Ring, accepted: bool): (r': Ring)
    requires Shaped(r) && r.air.Claimed?
    ensures Shaped(r')
  {
    var i := r.air.index;
    if accepted then r.(air := Sending(i))
    else r.(cells := r.cells[i := r.cells[i].(irpPending := false, waiting := true)], pending := false, air := Idle)
  }

  // The first locked region of the tasklet.
  function Done1(r: Ring): (r': Ring)
    requires Shaped(r) && r.air.Sending? && r.half == NoHalf
    ensures Shaped(r')
  {
    r.(pending := false, air := Idle, half := Half(r.air.index))
  }

  // The second.
  function Done2(r: Ring): (r': Ring)
    requires Shaped(r) && r.half.Half?
    ensures Shaped(r')
  {
    var i := r.half.index;
    r.(cells := r.cells[i := Cell(None, false, false, false)],
       freed := r.freed + (if r.cells[i].packet.Some? then [r.cells[i].packet.p] else []),
       dma := Increased(r.dma), free := More(r.free), half := NoHalf)
  }

  // --- The invariant ---

  // The n packets from index d on, around the ring.
  function Arc(cells: seq<Cell>, d: nat, n: nat): (s: seq<Option>)
    requires |cells| == SIZE
    ensures |s| == n
  {
    seq(n, k requires 0 <= k < n => cells[(d + k) % SIZE].packet)
  }

  function Wrapped(ps: seq<Packet>): (s: seq<Option>)
    ensures |s| == |ps|
  {
    seq(|ps|, k requires 0 <= k < |ps| => Some(ps[k]))
  }

  // Distance of index i from index d, going up.
  function Distance(i: nat, d: nat): (n: nat)
    requires i < SIZE && d < SIZE
    ensures n < SIZE && (d + n) % SIZE == i
  {
    if i >= d then i - d else i + SIZE - d
  }

  // Cell i is on the arc of the n cells from d on.
  predicate Occupied(i: nat, d: nat, n: nat)
    requires i < SIZE && d < SIZE
  {
    Distance(i, d) < n
  }

  // The flags of cell i are right: the cell being sent is not waiting any more.
  predicate CellOk(r: Ring, i: nat)
    requires Shaped(r) && i < SIZE && r.free <= SIZE
  {
    var c, busy := r.cells[i], (r.air != Idle && r.air.index == i) || (r.half != NoHalf && r.half.index == i);
    if Occupied(i, r.dma, SIZE - r.free) then c.packet.Some? && c.inUse && c.waiting == !busy && c.irpPending == busy
    else c == Cell(None, false, false, false)
  }

  ghost predicate Inv(r: Ring) {
    Shaped(r) && r.free <= SIZE
    && r.cpu == (r.dma + (SIZE - r.free)) % SIZE
    && (forall i :: 0 <= i < SIZE ==> CellOk(r, i))
    && (r.air != Idle ==> r.air.index == r.dma && r.free < SIZE && r.half == NoHalf)
    && (r.half != NoHalf ==> r.half.index == r.dma && r.free < SIZE)
    && r.pending == (r.air != Idle)
    && r.freed <= r.queued
    && Arc(r.cells, r.dma, SIZE - r.free) == Wrapped(r.queued[|r.freed|..])
  }

  // --- Each step keeps it ---

  lemma DistanceBack(d: nat, n: nat)
    requires d < SIZE && n < SIZE
    ensures Distance((d + n) % SIZE, d) == n
  {
  }

  lemma ArcMore(cells: seq<Cell>, cells': seq<Cell>, d: nat, n: nat)
    requires |cells| == |cells'| == SIZE && d < SIZE && n < SIZE
    requires forall i :: 0 <= i < SIZE && i != (d + n) % SIZE ==> cells'[i].packet == cells[i].packet
    ensures Arc(cells', d, n + 1) == Arc(cells, d, n) + [cells'[(d + n) % SIZE].packet]
  {
    forall k | 0 <= k < n ensures Arc(cells', d, n + 1)[k] == Arc(cells, d, n)[k] {
      DistanceBack(d, k);
      DistanceBack(d, n);
    }
  }

  lemma ArcLess(cells: seq<Cell>, cells': seq<Cell>, d: nat, n: nat)
    requires |cells| == |cells'| == SIZE && d < SIZE && 0 < n <= SIZE
    requires forall i :: 0 <= i < SIZE && i != d ==> cells'[i].packet == cells[i].packet
    ensures Arc(cells', Increased(d), n - 1) == Arc(cells, d, n)[1..]
  {
    var x, y := Arc(cells', Increased(d), n - 1), Arc(cells, d, n)[1..];
    forall k | 0 <= k < n - 1 ensures x[k] == y[k] {
      Hop(d, k);
      assert x[k] == cells'[(d + (k + 1)) % SIZE].packet;
      assert y[k] == cells[(d + (k + 1)) % SIZE].packet;
    }
  }

  lemma Hop(d: nat, k: nat)
    requires d < SIZE && k < SIZE - 1
    ensures (Increased(d) + k) % SIZE == (d + (k + 1)) % SIZE != d
  {
  }

  lemma WrappedParts(queued: seq<Packet>, from: nat, p: Packet)
    requires from <= |queued|
    ensures Wrapped((queued + [p])[from..]) == Wrapped(queued[from..]) + [Some(p)]
    ensures from < |queued| ==> Wrapped(queued[from..])[0] == Some(queued[from])
                                && Wrapped(queued[from + 1..]) == Wrapped(queued[from..])[1..]
  {
    assert (queued + [p])[from..] == queued[from..] + [p];
    if from < |queued| {
      assert queued[from + 1..] == queued[from..][1..];
    }
  }

  lemma PutDistance(i: nat, d: nat, n: nat)
    requires i < SIZE && d < SIZE && n < SIZE
    ensures Occupied(i, d, n + 1) <==> Occupied(i, d, n) || i == (d + n) % SIZE
  {
    DistanceBack(d, n);
  }

  lemma IncreasedIs(i: nat)
    requires i < SIZE
    ensures Increased(i) == if i == SIZE - 1 then 0 else i + 1
  {
  }

  lemma IncreasedSum(x: nat)
    ensures Increased(x % SIZE) == (x + 1) % SIZE
  {
  }

  lemma IncreasedStart(d: nat, n: nat)
    requires d < SIZE && n > 0
    ensures (Increased(d) + (n - 1)) % SIZE == (d + n) % SIZE
  {
    IncreasedIs(d);
  }

  lemma DoneDistance(i: nat, d: nat, n: nat)
    requires i < SIZE && d < SIZE && 0 < n <= SIZE
    ensures Occupied(i, Increased(d), n - 1) <==> Occupied(i, d, n) && i != d
  {
    IncreasedIs(d);
    hide Increased;
  }

  lemma PutCells(r: Ring, p: Packet)
    requires Inv(r) && r.free > 0
    ensures forall i :: 0 <= i < SIZE ==> CellOk(Put(r, p), i)
  {
    hide Arc, Wrapped, Distance, Occupied, Increased, Less;
    LessIs(r.free);
    var r', n := Put(r, p), SIZE - r.free;
    NotOccupied(r.dma, n);
    assert CellOk(r, r.cpu);
    forall i | 0 <= i < SIZE ensures CellOk(r', i) {
      PutDistance(i, r.dma, n);
      assert CellOk(r, i);
    }
  }

  lemma PutArc(r: Ring, p: Packet)
    requires Inv(r) && r.free > 0
    ensures Arc(Put(r, p).cells, r.dma, SIZE - r.free + 1) == Wrapped((r.queued + [p])[|r.freed|..])
  {
    hide CellOk, Arc, Wrapped, Increased, Less;
    ArcMore(r.cells, Put(r, p).cells, r.dma, SIZE - r.free);
    WrappedParts(r.queued, |r.freed|, p);
  }

  // Putting a frame on the ring keeps the invariant exactly when a cell is free.
  lemma PutKeepsInvIff(r: Ring, p: Packet)
    requires Inv(r)
    ensures Inv(Put(r, p)) <==> r.free > 0
  {
    LessIs(r.free);
    if r.free > 0 {
      PutCells(r, p);
      PutArc(r, p);
      IncreasedSum(r.dma + (SIZE - r.free));
      hide CellOk, Arc, Wrapped, Increased, Less;
      assert SIZE - Put(r, p).free == SIZE - r.free + 1;
    } else {
      hide CellOk, Arc, Wrapped, Increased, Less;
    }
  }

  lemma NotOccupied(d: nat, n: nat)
    requires d < SIZE && n < SIZE
    ensures !Occupied((d + n) % SIZE, d, n)
  {
    DistanceBack(d, n);
  }

  // What a kick saw when it looked still holds.
  predicate StillWaits(r: Ring, i: nat) {
    i == r.dma && r.free < SIZE && r.air == Idle && r.half == NoHalf
  }

  lemma ClaimCells(r: Ring, k: nat)
    requires Inv(r) && k < |r.kicks| && StillWaits(r, r.kicks[k])
    ensures Inv(Claim(r, k, false))
  {
    hide Arc, Wrapped, Distance, Occupied;
    var r' := Claim(r, k, false);
    assert CellOk(r, r.dma);
    OwnCell(r.dma, SIZE - r.free);
    forall i | 0 <= i < SIZE ensures CellOk(r', i) {
      assert CellOk(r, i);
    }
    SameArc(r.cells, r'.cells, r.dma, SIZE - r.free);
  }

  lemma OwnCell(d: nat, n: nat)
    requires d < SIZE && 0 < n
    ensures Occupied(d, d, n)
  {
  }

  lemma SameRing(r: Ring, r': Ring)
    requires Inv(r) && r' == r.(requests := r'.requests, kicks := r'.kicks) && Shaped(r')
    ensures Inv(r')
  {
    hide Arc, Wrapped, Distance, Occupied;
    forall i | 0 <= i < SIZE ensures CellOk(r', i) {
      assert CellOk(r, i);
    }
  }

  // Claiming a cell keeps the invariant exactly when nothing has been claimed, and if so what
  // was seen without the lock still holds under it.
  lemma ClaimKeepsInvIff(r: Ring, k: nat, stopped: bool)
    requires Inv(r) && k < |r.kicks|
    ensures Inv(Claim(r, k, stopped)) <==> r.pending || stopped || StillWaits(r, r.kicks[k])
  {
    if r.pending || stopped {
      SameRing(r, Claim(r, k, stopped));
    } else if StillWaits(r, r.kicks[k]) {
      ClaimCells(r, k);
    }
  }

  lemma SubmitKeepsInv(r: Ring, accepted: bool)
    requires Inv(r) && r.air.Claimed?
    ensures Inv(Submit(r, accepted))
  {
    hide Arc, Wrapped, Distance, Occupied;
    var r' := Submit(r, accepted);
    OwnCell(r.dma, SIZE - r.free);
    assert CellOk(r, r.dma);
    forall i | 0 <= i < SIZE ensures CellOk(r', i) {
      assert CellOk(r, i);
    }
    SameArc(r.cells, r'.cells, r.dma, SIZE - r.free);
  }

  lemma SameArc(cells: seq<Cell>, cells': seq<Cell>, d: nat, n: nat)
    requires |cells| == |cells'| == SIZE && forall i :: 0 <= i < SIZE ==> cells'[i].packet == cells[i].packet
    ensures Arc(cells', d, n) == Arc(cells, d, n)
  {
  }

  lemma Done1KeepsInv(r: Ring)
    requires Inv(r) && r.air.Sending? && r.half == NoHalf
    ensures Inv(Done1(r))
  {
    hide Arc, Wrapped, Distance, Occupied;
    var r' := Done1(r);
    forall i | 0 <= i < SIZE ensures CellOk(r', i) {
      assert CellOk(r, i);
    }
  }

  lemma Done2Cells(r: Ring)
    requires Inv(r) && r.half.Half?
    ensures forall i :: 0 <= i < SIZE ==> CellOk(Done2(r), i)
  {
    MoreIs(r.free);
    hide Arc, Wrapped, Distance, Occupied, Increased, More;
    forall i | 0 <= i < SIZE ensures CellOk(Done2(r), i) {
      DoneDistance(i, r.dma, SIZE - r.free);
      assert CellOk(r, i);
    }
  }

  lemma Oldest(r: Ring)
    requires Inv(r) && r.free < SIZE
    ensures |r.freed| < |r.queued| && r.cells[r.dma].packet == Some(r.queued[|r.freed|])
  {
    hide CellOk;
    var n := SIZE - r.free;
    assert |Arc(r.cells, r.dma, n)| == n == |r.queued| - |r.freed|;
    assert Arc(r.cells, r.dma, n)[0] == r.cells[r.dma].packet;
  }

  lemma Done2Arc(r: Ring)
    requires Inv(r) && r.half.Half?
    ensures |r.freed| < |r.queued| && Done2(r).freed == r.queued[..|r.freed| + 1]
    ensures Arc(Done2(r).cells, Done2(r).dma, SIZE - r.free - 1) == Wrapped(r.queued[|r.freed| + 1..])
  {
    Oldest(r);
    hide CellOk, Arc, Wrapped, Increased, More;
    ArcLess(r.cells, Done2(r).cells, r.dma, SIZE - r.free);
    WrappedParts(r.queued, |r.freed|, 0);
    assert r.queued[..|r.freed| + 1] == r.freed + [r.queued[|r.freed|]];
  }

  // The tasklet finds its own cell at TxDmaIdx, as the code asserts, and frees the oldest
  // packet on the ring.
  lemma Done2KeepsInv(r: Ring)
    requires Inv(r) && r.half.Half?
    ensures r.half.index == r.dma && |r.freed| < |r.queued|
    ensures r.cells[r.dma].packet == Some(r.queued[|r.freed|])
    ensures Inv(Done2(r)) && Done2(r).freed == r.queued[..|r.freed| + 1]
  {
    Oldest(r);
    Done2Cells(r);
    Done2Arc(r);
    IncreasedStart(r.dma, SIZE - r.free);
    MoreIs(r.free);
    hide CellOk, Arc, Wrapped, Increased, More;
  }

  // --- Runs ---

  datatype Event =
    | Asked(up: bool)
    | Finished(p: Packet, memory: bool, allowed: bool)
    | Looked
    | Claimed1(k: nat, stopped: bool)
    | Submitted(accepted: bool)
    | Completed1
    | Completed2

  // What can happen next: only calls under way go on, and USB completes what it was given.
  predicate Enabled(r: Ring, ev: Event) {
    match ev
    case Finished(_, _, _) => r.requests > 0
    case Claimed1(k, _) => k < |r.kicks|
    case Submitted(_) => r.air.Claimed?
    case Completed1 => r.air.Sending? && r.half == NoHalf
    case Completed2 => r.half.Half?
    case _ => true
  }

  function Step(r: Ring, ev: Event): (r': Ring)
    requires Shaped(r) && Enabled(r, ev)
    ensures Shaped(r')
  {
    match ev
    case Asked(up) => Ask(r, up)
    case Finished(p, memory, allowed) => Finish(r, p, memory, allowed)
    case Looked => Look(r)
    case Claimed1(k, stopped) => Claim(r, k, stopped)
    case Submitted(accepted) => Submit(r, accepted)
    case Completed1 => Done1(r)
    case Completed2 => Done2(r)
  }

  predicate RunOk(r: Ring, evs: seq<Event>)
    requires Shaped(r)
    decreases |evs|
  {
    evs == [] || (Enabled(r, evs[0]) && RunOk(Step(r, evs[0]), evs[1..]))
  }

  function Run(r: Ring, evs: seq<Event>): (r': Ring)
    requires Shaped(r) && RunOk(r, evs)
    ensures Shaped(r')
    decreases |evs|
  {
    if evs == [] then r else Run(Step(r, evs[0]), evs[1..])
  }

  // The initialisation of the ring.
  function Start(): (r: Ring)
    ensures Shaped(r)
  {
    Ring(seq(SIZE, _ => Cell(None, false, false, false)), 0, 0, SIZE, false, Idle, NoHalf, 0, [], [], [])
  }

  lemma StartInv()
    ensures Inv(Start())
  {
  }

  // No more requests under way than free cells, and at most one kick, whose cell still waits.
  ghost predicate Orderly(r: Ring) {
    Inv(r) && r.requests <= r.free && |r.kicks| <= 1 && (r.kicks != [] ==> StillWaits(r, r.kicks[0]))
  }

  // What the lock does not enforce: a request begins only when there is also room for those
  // under way, and a kick only when no other is under way.
  predicate Apart(r: Ring, ev: Event) {
    (ev == Asked(true) ==> r.requests < r.free || r.free == 0) && (ev.Looked? ==> r.kicks == [])
  }

  predicate ApartRun(r: Ring, evs: seq<Event>)
    requires Shaped(r) && RunOk(r, evs)
    decreases |evs|
  {
    evs == [] || (Apart(r, evs[0]) && ApartRun(Step(r, evs[0]), evs[1..]))
  }

  lemma FinishOrderly(r: Ring, p: Packet, memory: bool, allowed: bool)
    requires Orderly(r) && r.requests > 0
    ensures Orderly(Finish(r, p, memory, allowed))
  {
    var s := r.(requests := r.requests - 1);
    SameRing(r, s);
    PutKeepsInvIff(s, p);
    hide CellOk, Arc, Wrapped;
    LessIs(r.free);
  }

  lemma LookOrderly(r: Ring)
    requires Orderly(r) && r.kicks == []
    ensures Orderly(Look(r))
  {
    SameRing(r, Look(r));
    hide Arc, Wrapped, Distance, Occupied;
    assert CellOk(r, r.dma);
  }

  lemma ClaimOrderly(r: Ring, k: nat, stopped: bool)
    requires Orderly(r) && k < |r.kicks|
    ensures Orderly(Claim(r, k, stopped))
  {
    ClaimKeepsInvIff(r, k, stopped);
    hide CellOk, Arc, Wrapped;
  }

  lemma DoneOrderly(r: Ring)
    requires Orderly(r) && r.half.Half?
    ensures Orderly(Done2(r))
  {
    Done2KeepsInv(r);
    MoreIs(r.free);
    hide CellOk, Arc, Wrapped, More;
  }

  lemma StepOrderly(r: Ring, ev: Event)
    requires Orderly(r) && Enabled(r, ev) && Apart(r, ev)
    ensures Orderly(Step(r, ev))
  {
    hide CellOk, Arc, Wrapped, Finish, Look, Claim;
    match ev
    case Asked(up) => SameRing(r, Ask(r, up));
    case Finished(p, memory, allowed) => FinishOrderly(r, p, memory, allowed);
    case Looked => LookOrderly(r);
    case Claimed1(k, stopped) => ClaimOrderly(r, k, stopped);
    case Submitted(accepted) => SubmitKeepsInv(r, accepted);
    case Completed1 => Done1KeepsInv(r);
    case Completed2 => DoneOrderly(r);
  }

  // Over any interleaving of requests, kicks and completions, cut at every lock, in which
  // requests under way never outnumber free cells and kicks do not overlap: the ring is in
  // order.
  lemma {:induction false} RunOrderly(r: Ring, evs: seq<Event>)
    requires Orderly(r) && RunOk(r, evs) && ApartRun(r, evs)
    ensures Orderly(Run(r, evs))
    decreases |evs|
  {
    hide CellOk, Arc, Wrapped, Step, Apart, Enabled;
    if evs != [] {
      StepOrderly(r, evs[0]);
      RunOrderly(Step(r, evs[0]), evs[1..]);
    }
  }

  // Then the packets freed are those queued first, each once and in order, and the others are
  // on the ring: as many as the free count leaves.
  lemma RingIsFifo(evs: seq<Event>)
    requires RunOk(Start(), evs) && ApartRun(Start(), evs)
    ensures var r := Run(Start(), evs);
            r.freed <= r.queued && |r.queued| - |r.freed| == SIZE - r.free <= SIZE
  {
    hide CellOk, Step, Run;
    StartInv();
    RunOrderly(Start(), evs);
  }

  // A request that is over has put its packet last exactly when it had one and might send it.
  lemma FinishIs(r: Ring, p: Packet, memory: bool, allowed: bool)
    requires Inv(r) && 0 < r.requests && 0 < r.free
    ensures var s := Finish(r, p, memory, allowed); var n := if memory && allowed then 1 else 0;
            s.queued == r.queued + (if n == 1 then [p] else []) && s.free == r.free - n
            && s.requests == r.requests - 1 && s.freed == r.freed && s.dma == r.dma
  {
    LessIs(r.free);
    hide CellOk, Arc, Wrapped, Less;
  }

  // A submission that USB refuses leaves the ring as it was before the claim, but for the call
  // that is over.
  lemma RefusedIsUndone(r: Ring, k: nat)
    requires Inv(r) && k < |r.kicks| && StillWaits(r, r.kicks[k])
    ensures var s := Claim(r, k, false);
            s.air == Claimed(r.dma) && Submit(s, false) == r.(kicks := r.kicks[..k] + r.kicks[k + 1..])
  {
    hide Arc, Wrapped, Distance, Occupied;
    OwnCell(r.dma, SIZE - r.free);
    assert CellOk(r, r.dma);
    var c := r.cells[r.dma];
    assert c.(irpPending := true, waiting := false).(irpPending := false, waiting := true) == c;
    assert r.cells[r.dma := c.(irpPending := true, waiting := false)][r.dma := c] == r.cells;
  }

  // One kick undisturbed from the look to the end of the tasklet sends the oldest packet and
  // frees it and its cell.
  const ROUND: seq<Event> := [Looked, Claimed1(0, false), Submitted(true), Completed1, Completed2]

  lemma RoundFreesOldest(r: Ring)
    requires Inv(r) && r.free < SIZE && r.air == Idle && r.half == NoHalf && r.kicks == []
    ensures RunOk(r, ROUND)
    ensures var r' := Run(r, ROUND);
            && |r.freed| < |r.queued| && r'.freed == r.queued[..|r.freed| + 1] && r'.queued == r.queued
            && r'.free == r.free + 1 && r'.air == Idle && r'.half == NoHalf && r'.kicks == [] && Inv(r')
  {
    LookFinds(r);
    var r1 := Look(r);
    ClaimCells(r1, 0);
    var r2 := Claim(r1, 0, false);
    assert r2.kicks == [];
    SubmitKeepsInv(r2, true);
    var r3 := Submit(r2, true);
    Done1KeepsInv(r3);
    var r4 := Done1(r3);
    Done2KeepsInv(r4);
    MoreIs(r4.free);
    hide Inv, Look, Claim, Submit, Done1, More, CellOk;
    RoundIs(r, r1, r2, r3, r4);
  }

  lemma RoundIs(r: Ring, r1: Ring, r2: Ring, r3: Ring, r4: Ring)
    requires Shaped(r) && r1 == Look(r) && |r1.kicks| > 0 && r2 == Claim(r1, 0, false) && r2.air.Claimed?
    requires r3 == Submit(r2, true) && r3.air.Sending? && r3.half == NoHalf && r4 == Done1(r3) && r4.half.Half?
    ensures RunOk(r, ROUND) && Run(r, ROUND) == Done2(r4)
  {
    hide Look, Claim, Submit, Done1, Done2, Shaped, Run, RunOk;
    RunFive(r, Looked, Claimed1(0, false), Submitted(true), Completed1, Completed2);
  }

  lemma LookFinds(r: Ring)
    requires Inv(r) && r.free < SIZE && r.air == Idle && r.half == NoHalf && r.kicks == []
    ensures var s := Look(r); s == r.(kicks := [r.dma]) && Inv(s)
  {
    OwnCell(r.dma, SIZE - r.free);
    assert CellOk(r, r.dma);
    hide CellOk;
    SameRing(r, Look(r));
  }

  lemma RunFive(r: Ring, e1: Event, e2: Event, e3: Event, e4: Event, e5: Event)
    requires Shaped(r) && Enabled(r, e1)
    requires Enabled(Step(r, e1), e2) && Enabled(Step(Step(r, e1), e2), e3)
    requires Enabled(Step(Step(Step(r, e1), e2), e3), e4)
    requires Enabled(Step(Step(Step(Step(r, e1), e2), e3), e4), e5)
    ensures var es := [e1, e2, e3, e4, e5];
            RunOk(r, es) && Run(r, es) == Step(Step(Step(Step(Step(r, e1), e2), e3), e4), e5)
  {
    hide Step, Enabled, Shaped;
    var s1 := Step(r, e1);
    var s2 := Step(s1, e2);
    var s3 := Step(s2, e3);
    var s4 := Step(s3, e4);
    var s5 := Step(s4, e5);
    RunNone(s5);
    RunFirst(s4, e5, []);
    RunFirst(s3, e4, [e5]);
    RunFirst(s2, e3, [e4, e5]);
    RunFirst(s1, e2, [e3, e4, e5]);
    RunFirst(r, e1, [e2, e3, e4, e5]);
  }

  lemma RunNone(r: Ring)
    requires Shaped(r)
    ensures RunOk(r, []) && Run(r, []) == r
  {
  }

  lemma RunFirst(r: Ring, ev: Event, evs: seq<Event>)
    requires Shaped(r) && Enabled(r, ev) && RunOk(Step(r, ev), evs)
    ensures RunOk(r, [ev] + evs) && Run(r, [ev] + evs) == Run(Step(r, ev), evs)
  {
    hide Step, Enabled;
    assert ([ev] + evs)[1..] == evs;
  }

  // Full and empty are told apart although TxCpuIdx equals TxDmaIdx in both.
  lemma FullOrEmpty(r: Ring)
    requires Inv(r) && r.cpu == r.dma
    ensures r.free == 0 || r.free == SIZE
    ensures r.free == SIZE <==> r.freed == r.queued
  {
    hide CellOk;
    assert |Arc(r.cells, r.dma, SIZE - r.free)| == |r.queued[|r.freed|..]|;
    if r.freed == r.queued {
      assert r.queued[|r.freed|..] == [];
    }
  }

  // --- Requests that overlap ---

  ghost predicate EveryPutFits(r: Ring, ps: seq<Packet>)
    decreases |ps|
  {
    Inv(r) && (ps == [] || EveryPutFits(Put(r, ps[0]), ps[1..]))
  }

  // The converse: requests under way can all put their frames exactly when they do not
  // outnumber the free cells.
  lemma {:induction false} EveryPutFitsIff(r: Ring, ps: seq<Packet>)
    requires Inv(r)
    ensures EveryPutFits(r, ps) <==> |ps| <= r.free
    decreases |ps|
  {
    hide CellOk, Arc, Wrapped;
    if ps != [] {
      PutKeepsInvIff(r, ps[0]);
      if r.free > 0 {
        LessIs(r.free);
        EveryPutFitsIff(Put(r, ps[0]), ps[1..]);
      }
    }
  }

  lemma {:induction false} RunJoin(r: Ring, a: seq<Event>, b: seq<Event>)
    requires Shaped(r) && RunOk(r, a) && RunOk(Run(r, a), b)
    ensures RunOk(r, a + b) && Run(r, a + b) == Run(Run(r, a), b)
    decreases |a|
  {
    hide Step, Enabled;
    if a == [] {
      assert a + b == b;
    } else {
      assert (a + b)[0] == a[0] && (a + b)[1..] == a[1..] + b;
      RunJoin(Step(r, a[0]), a[1..], b);
    }
  }

  // n requests that see room, and n requests that put the packets from, from + 1, ...
  function Asks(n: nat): seq<Event> { if n == 0 then [] else [Asked(true)] + Asks(n - 1) }

  function Finishes(from: nat, n: nat): seq<Event>
    decreases n
  {
    if n == 0 then [] else [Finished(from, true, true)] + Finishes(from + 1, n - 1)
  }

  function Numbers(from: nat, n: nat): seq<Packet>
    decreases n
  {
    if n == 0 then [] else [from] + Numbers(from + 1, n - 1)
  }

  lemma {:induction false} NumbersAt(from: nat, n: nat, i: nat)
    requires i < n
    decreases n
    ensures |Numbers(from, n)| == n && Numbers(from, n)[i] == from + i
  {
    if i > 0 {
      NumbersAt(from + 1, n - 1, i - 1);
    } else if n > 1 {
      NumbersAt(from + 1, n - 1, 0);
    }
  }

  lemma {:induction false} AfterAsks(r: Ring, n: nat)
    requires Shaped(r) && r.free > 0
    ensures RunOk(r, Asks(n)) && Run(r, Asks(n)) == r.(requests := r.requests + n)
    decreases n
  {
    if n > 0 {
      assert Asks(n)[1..] == Asks(n - 1);
      AfterAsks(Ask(r, true), n - 1);
    }
  }

  // What puts leave alone, and how far they get.
  ghost predicate Fills(r: Ring, s: Ring, from: nat, n: nat) {
    Inv(s) && s.free == r.free - n && s.requests == r.requests - n && s.dma == r.dma
    && s.freed == r.freed && s.queued == r.queued + Numbers(from, n)
  }

  lemma FinishFills(r: Ring, p: Packet)
    requires Inv(r) && r.free > 0 && r.requests > 0
    ensures var s := Finish(r, p, true, true);
            Inv(s) && s.free == r.free - 1 && s.requests == r.requests - 1 && s.dma == r.dma
            && s.freed == r.freed && s.queued == r.queued + [p]
  {
    var m := r.(requests := r.requests - 1);
    SameRing(r, m);
    PutKeepsInvIff(m, p);
    LessIs(r.free);
    hide CellOk, Arc, Wrapped, Less;
  }

  lemma {:induction false} AfterFinishes(r: Ring, from: nat, n: nat)
    requires Inv(r) && n <= r.free && n <= r.requests
    ensures RunOk(r, Finishes(from, n)) && Fills(r, Run(r, Finishes(from, n)), from, n)
    decreases n
  {
    hide CellOk, Arc, Wrapped;
    if n > 0 {
      assert Finishes(from, n)[1..] == Finishes(from + 1, n - 1);
      FinishFills(r, from);
      hide Inv, Finish;
      AfterFinishes(Finish(r, from, true, true), from + 1, n - 1);
      assert r.queued + [from] + Numbers(from + 1, n - 1) == r.queued + Numbers(from, n);
    }
  }

  function Overrun(): seq<Event> { Asks(33) + Finishes(0, 32) + [Finished(32, true, true)] }

  lemma FilledRing(s: Ring)
    requires Inv(s) && s.free == 0 && s.dma == 0 && s.freed == [] && s.queued == Numbers(0, 32)
    ensures s.cpu == 0 && forall i :: 0 <= i < SIZE ==> s.cells[i].packet == Some(i)
  {
    forall i | 0 <= i < SIZE ensures s.cells[i].packet == Some(i) {
      FilledCell(s, i);
    }
    hide Inv, Numbers;
  }

  lemma FilledCell(s: Ring, i: nat)
    requires Inv(s) && s.free == 0 && s.dma == 0 && s.freed == [] && s.queued == Numbers(0, 32) && i < SIZE
    ensures s.cpu == 0 && s.cells[i].packet == Some(i)
  {
    FilledArc(s);
    NumbersAt(0, 32, i);
    ArcAt(s.cells, i);
    WrappedAt(s.queued, i);
    hide Inv, Arc, Wrapped, Numbers;
  }

  lemma FilledArc(s: Ring)
    requires Inv(s) && s.free == 0 && s.dma == 0 && s.freed == []
    ensures s.cpu == 0 && |s.cells| == SIZE && Arc(s.cells, 0, SIZE) == Wrapped(s.queued)
  {
    hide CellOk, Arc, Wrapped;
    assert s.queued[0..] == s.queued;
  }

  lemma ArcAt(cells: seq<Cell>, i: nat)
    requires |cells| == SIZE && i < SIZE
    ensures Arc(cells, 0, SIZE)[i] == cells[i].packet
  {
  }

  lemma WrappedAt(ps: seq<Packet>, i: nat)
    requires i < |ps|
    ensures Wrapped(ps)[i] == Some(ps[i])
  {
  }

  lemma OverrunUpTo() returns (s: Ring)
    ensures RunOk(Start(), Asks(33) + Finishes(0, 32)) && s == Run(Start(), Asks(33) + Finishes(0, 32))
    ensures Inv(s) && s.free == 0 && s.requests == 1 && s.dma == 0 && s.freed == [] && s.queued == Numbers(0, 32)
  {
    StartInv();
    hide CellOk, Arc, Wrapped, Run, RunOk, Asks, Finishes, Numbers;
    AfterAsks(Start(), 33);
    var r := Run(Start(), Asks(33));
    SameRing(Start(), r);
    AfterFinishes(r, 0, 32);
    RunJoin(Start(), Asks(33), Finishes(0, 32));
    s := Run(r, Finishes(0, 32));
    assert [] + Numbers(0, 32) == Numbers(0, 32);
  }

  // A run from the start in which a packet is overwritten: 33 requests see room before the
  // first puts its frame.  Packet 0 was queued, is not on the ring any more and was not freed,
  // and the free count has wrapped.
  lemma OverlappingRequestsOverwrite()
    ensures RunOk(Start(), Overrun())
    ensures var r := Run(Start(), Overrun());
            0 in r.queued && r.freed == [] && (forall i :: 0 <= i < SIZE ==> r.cells[i].packet != Some(0))
            && r.free == UINT32 - 1
  {
    var s := OverrunUpTo();
    FilledRing(s);
    NumbersAt(0, 32, 0);
    var last := Finished(32, true, true);
    LastPut(s, last);
    RunJoin(Start(), Asks(33) + Finishes(0, 32), [last]);
  }

  lemma LastPut(s: Ring, last: Event)
    requires Shaped(s) && last == Finished(32, true, true) && s.requests > 0 && s.free == 0 && s.cpu == 0
    requires s.queued != [] && s.queued[0] == 0 && forall i :: 0 <= i < SIZE ==> s.cells[i].packet == Some(i)
    ensures RunOk(s, [last])
    ensures var r := Run(s, [last]);
            r.queued != [] && r.queued[0] == 0 && r.freed == s.freed && r.free == UINT32 - 1
            && forall i :: 0 <= i < SIZE ==> r.cells[i].packet != Some(0)
  {
    assert [last][1..] == [] && [last][0] == last;
    LessIs(0);
    hide Less;
    assert Run(Step(s, last), []) == Step(s, last);
  }

  // --- Kicks that overlap ---

  const LOOKS: seq<Event> := [Asked(true), Finished(7, true, true), Looked, Looked]
  const SENDS: seq<Event> := [Claimed1(0, false), Submitted(true), Completed1, Completed2]
  const CLAIMS: seq<Event> := [Claimed1(0, false), Submitted(true)]
  const CLASH: seq<Event> := LOOKS + SENDS + CLAIMS

  lemma RunTwo(r: Ring, a: Event, b: Event, s: Ring, t: Ring)
    requires Shaped(r) && Enabled(r, a) && s == Step(r, a) && Enabled(s, b) && t == Step(s, b)
    ensures RunOk(r, [a, b]) && Run(r, [a, b]) == t
  {
    hide Step, Enabled;
    assert [a, b][1..] == [b] && [b][1..] == [];
    assert RunOk(s, [b]) && Run(s, [b]) == Run(t, []) == t;
  }

  lemma RunFour(r: Ring, es: seq<Event>, s1: Ring, s2: Ring, s3: Ring, s4: Ring)
    requires |es| == 4 && Shaped(r) && Enabled(r, es[0]) && s1 == Step(r, es[0])
    requires Enabled(s1, es[1]) && s2 == Step(s1, es[1])
    requires Enabled(s2, es[2]) && s3 == Step(s2, es[2])
    requires Enabled(s3, es[3]) && s4 == Step(s3, es[3])
    ensures RunOk(r, es) && Run(r, es) == s4
  {
    hide Step, Enabled, Run, RunOk, Shaped;
    RunTwo(r, es[0], es[1], s1, s2);
    RunTwo(s2, es[2], es[3], s3, s4);
    RunJoin(r, [es[0], es[1]], [es[2], es[3]]);
    assert [es[0], es[1]] + [es[2], es[3]] == es;
  }

  lemma ClashLooks()
    ensures RunOk(Start(), LOOKS)
    ensures var s := Run(Start(), LOOKS);
            s.kicks == [0, 0] && s.dma == 0 && s.air == Idle && s.half == NoHalf && !s.pending
  {
    LessIs(SIZE);
    hide Less, Run, RunOk;
    var s1 := Ask(Start(), true);
    var s2 := Finish(s1, 7, true, true);
    assert SeesWork(s2);
    var s3 := Look(s2);
    var s4 := Look(s3);
    RunFour(Start(), LOOKS, s1, s2, s3, s4);
    assert [] + [0] + [0] == [0, 0];
  }

  lemma ClashSends(r: Ring)
    requires Shaped(r) && r.kicks == [0, 0] && r.dma == 0 && r.air == Idle && r.half == NoHalf && !r.pending
    ensures RunOk(r, SENDS)
    ensures var s := Run(r, SENDS);
            s.kicks == [0] && s.dma == 1 && s.air == Idle && s.half == NoHalf && !s.pending && s.cells[0].packet == None
  {
    hide More, Run, RunOk;
    var s1 := Claim(r, 0, false);
    var s2 := Submit(s1, true);
    var s3 := Done1(s2);
    var s4 := Done2(s3);
    assert r.kicks[..0] + r.kicks[1..] == [0];
    RunFour(r, SENDS, s1, s2, s3, s4);
  }

  lemma ClashClaims(r: Ring)
    requires Shaped(r) && r.kicks == [0] && r.dma == 1 && r.air == Idle && !r.pending && r.cells[0].packet == None
    ensures RunOk(r, CLAIMS)
    ensures var s := Run(r, CLAIMS); s.air == Sending(0) && s.dma == 1 && s.cells[0].packet == None && !Inv(s)
  {
    hide Run, RunOk;
    var s := Claim(r, 0, false);
    RunTwo(r, CLAIMS[0], CLAIMS[1], s, Submit(s, true));
  }

  // A run from the start in which the tasklet will not find its cell at TxDmaIdx: two kicks
  // look at cell 0, the second claims it after the first has sent it.
  lemma OverlappingKicksClash()
    ensures RunOk(Start(), CLASH)
    ensures var r := Run(Start(), CLASH); r.air == Sending(0) && r.dma == 1 && r.cells[0].packet == None && !Inv(r)
  {
    hide Run, RunOk, Inv, Start;
    ClashLooks();
    var s4 := Run(Start(), LOOKS);
    ClashSends(s4);
    var s8 := Run(s4, SENDS);
    ClashClaims(s8);
    RunJoin(Start(), LOOKS, SENDS);
    RunJoin(Start(), LOOKS + SENDS, CLAIMS);
  }
}
