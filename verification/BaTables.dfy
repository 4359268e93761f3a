// Block-Ack session tables (common/ba_action.c, lines 490-1135): the originator and the
// recipient side each have 128 slots, an index by peer and TID, a bitmap per peer and a
// counter.  Both sides have the same shape, and their status enums the same order.
module BaTables {

  const SLOTS: nat := 128          // MAX_LEN_OF_BA_ORI_TABLE, MAX_LEN_OF_BA_REC_TABLE
  const MACS: nat := 32            // MAX_LEN_OF_MAC_TABLE
  const TIDS: nat := 8             // NUM_OF_TID
  const MAX_BARECI_SESSION: nat := 8
  const ORI_SESSION_MAX_RETRY: nat := 8

  // Originator_NONE/USED/WaitRes/Done and Recipient_NONE/USED/HandleRes/Accept.
  datatype Status = None | Used | Pending | Active

  predicate AtLeastPending(s: Status) { s == Pending || s == Active }

  datatype Slot = Slot(status: Status, wcid: nat, tid: nat, win: int, token: nat, armed: bool)

  datatype Side = Side(slots: seq<Slot>, index: seq<seq<nat>>, bits: seq<set<nat>>, count: int)

  function LiveCount(s: seq<Slot>): (n: nat)
    ensures n <= |s|
  {
    if s == [] then 0 else (if s[0].status == None then 0 else 1) + LiveCount(s[1..])
  }

  predicate Shape(d: Side) {
    && |d.slots| == SLOTS && |d.index| == MACS && |d.bits| == MACS
    && (forall w :: 0 <= w < MACS ==> |d.index[w]| == TIDS)
  }

  // A live slot is found through the index of the peer and TID it names.
  predicate SlotOk(d: Side, k: nat)
    requires Shape(d) && k < SLOTS
  {
    var s := d.slots[k];
    && (s.status != None ==>
          && k != 0 && AtLeastPending(s.status)
          && s.wcid < MACS && s.tid < TIDS && d.index[s.wcid][s.tid] == k)
    && (s.armed ==> s.status == Pending)
    && (s.status == Pending ==> 1 <= s.token <= ORI_SESSION_MAX_RETRY)
  }

  // A non-zero index names a live slot that points back; the bit says it is active.
  predicate IndexOk(d: Side, w: nat, t: nat)
    requires Shape(d) && w < MACS && t < TIDS
  {
    var k := d.index[w][t];
    && (k != 0 ==> k < SLOTS && d.slots[k].status != None && d.slots[k].wcid == w && d.slots[k].tid == t)
    && (t in d.bits[w] <==> k != 0 && d.slots[k].status == Active)
  }

  ghost predicate SideInv(d: Side) {
    && Shape(d)
    && (forall k :: 0 <= k < SLOTS ==> SlotOk(d, k))
    && (forall w, t :: 0 <= w < MACS && 0 <= t < TIDS ==> IndexOk(d, w, t))
    && d.count == LiveCount(d.slots)
  }

  // The first free slot from i on, or SLOTS.
  function FirstFree(s: seq<Slot>, i: nat): (k: nat)
    requires i <= |s|
    ensures i <= k <= |s|
    ensures k < |s| ==> s[k].status == None
    ensures forall j :: i <= j < k ==> s[j].status != None
    decreases |s| - i
  {
    if i == |s| || s[i].status == None then i else FirstFree(s, i + 1)
  }

  // What BATableAllocOriEntry and BATableAllocRecEntry return: a slot to use, if the
  // pointer is not null, and the index, which keeps the caller's 0 when no slot is free.
  datatype Alloc = Null | Pointer(slot: nat, idx: nat)

  function Allocate(d: Side, limit: nat): (Side, Alloc)
    requires Shape(d)
  {
    if d.count >= limit then (d, Null)
    else
      var k := FirstFree(d.slots, 1);
      if k == SLOTS then (d, Pointer(SLOTS - 1, 0))
      else (d.(slots := d.slots[k := d.slots[k].(status := Used)], count := d.count + 1), Pointer(k, k))
  }

  function SetIndex(d: Side, w: nat, t: nat, k: nat): Side
    requires Shape(d) && w < MACS && t < TIDS
  {
    var row: seq<nat> := d.index[w][t := k];
    d.(index := d.index[w := row])
  }

  // BATableFreeOriEntry; BATableFreeRecEntry leaves the bitmap to its caller.
  function Free(d: Side, k: nat): Side
    requires Shape(d)
    requires 0 < k < SLOTS && d.slots[k].status != None ==> d.slots[k].wcid < MACS && d.slots[k].tid < TIDS
  {
    if k == 0 || k >= SLOTS || d.slots[k].status == None then d
    else
      var s := d.slots[k];
      var e := SetIndex(d, s.wcid, s.tid, 0);
      e.(bits := if s.status == Active then d.bits[s.wcid := d.bits[s.wcid] - {s.tid}] else d.bits,
         count := d.count - 1,
         slots := d.slots[k := s.(status := None, token := 0)])
  }

  function CancelTimer(d: Side, k: nat): Side
    requires Shape(d) && k < SLOTS
  {
    d.(slots := d.slots[k := d.slots[k].(armed := false)])
  }

  // --- Originator operations ---

  // BAOriSessionSetUp; allowed stands for AutoBA or forced, and HT transmission.
  function OriSetUp(d: Side, w: nat, t: nat, allowed: bool, win: int): Side
    requires Shape(d) && w < MACS && t < TIDS && d.index[w][t] < SLOTS
  {
    if !allowed then d else
    var idx := d.index[w][t];
    var (e, p) := if idx == 0 then Allocate(d, SLOTS) else (d, Pointer(idx, idx));
    if p.Null? || AtLeastPending(e.slots[p.slot].status) then e
    else
      SetIndex(e, w, t, p.idx).(slots := e.slots[p.slot := Slot(Pending, w, t, win, 1, true)])
  }

  // BAOriSessionAdd: an ADDBA response with status 0.
  function OriAdd(d: Side, w: nat, t: nat, bufSize: int, maxSize: int): Side
    requires Shape(d) && w < MACS && t < TIDS && d.index[w][t] < SLOTS
  {
    var idx := d.index[w][t];
    var s := d.slots[idx];
    if idx != 0 && s.tid == t && s.status == Pending then
      var win := if s.win < bufSize then s.win else bufSize;
      d.(slots := d.slots[idx := s.(status := Active, win := if win > maxSize then maxSize else win, armed := false)],
         bits := d.bits[w := d.bits[w] + {t}])
    else d
  }

  // BAOriSessionTearDown, without the frames it may send.
  function OriTearDown(d: Side, w: nat, t: nat): Side
    requires SideInv(d) && t < TIDS
  {
    if w >= MACS then d else
    var idx := d.index[w][t];
    if idx == 0 || idx >= SLOTS then d
    else
      assert IndexOk(d, w, t) && SlotOk(d, idx);
      Free(CancelTimer(d, idx), idx)
  }

  // BAOriSessionSetupTimeout of slot k: resend and re-arm, or give up.
  function OriTimeout(d: Side, k: nat, monitor: bool): Side
    requires SideInv(d) && k < SLOTS && d.slots[k].armed
  {
    assert SlotOk(d, k);
    var e := CancelTimer(d, k);
    var s := d.slots[k];
    if monitor then e
    else if s.status == Pending && s.token < ORI_SESSION_MAX_RETRY then
      d.(slots := d.slots[k := s.(token := s.token + 1, armed := true)])
    else Free(e, d.index[s.wcid][s.tid])
  }

  // --- Recipient operations ---

  // BARecSessionAdd; the flush of the reorder list is in the reordering model.
  function RecAdd(d: Side, w: nat, t: nat, win: int): (Side, bool)
    requires Shape(d) && w < MACS && t < TIDS && d.index[w][t] < SLOTS
  {
    var idx := d.index[w][t];
    var (e, p) := if idx == 0 then Allocate(d, MAX_BARECI_SESSION) else (d, Pointer(idx, idx));
    if p.Null? then (e, false)
    else
      (SetIndex(e, w, t, p.idx).(
         slots := e.slots[p.slot := e.slots[p.slot].(status := Active, wcid := w, tid := t, win := win)],
         bits := e.bits[w := e.bits[w] + {t}]), true)
  }

  // BARecSessionTearDown followed by BATableFreeRecEntry.
  function RecTearDown(d: Side, w: nat, t: nat): Side
    requires SideInv(d) && t < TIDS
  {
    if w >= MACS then d else
    var idx := d.index[w][t];
    if idx == 0 then d
    else
      assert IndexOk(d, w, t) && SlotOk(d, idx);
      var s := d.slots[idx];
      var e :=
        if t == s.tid && s.status == Active then
          SetIndex(d, w, t, 0).(bits := d.bits[w := d.bits[w] - {s.tid}],
                                slots := d.slots[idx := s.(win := 0)])
        else d;
      FreeRec(e, idx)
  }

  function FreeRec(d: Side, k: nat): Side
    requires Shape(d)
    requires 0 < k < SLOTS && d.slots[k].status != None ==> d.slots[k].wcid < MACS && d.slots[k].tid < TIDS
  {
    Free(d, k).(bits := d.bits)
  }

  // --- What the operations keep ---

  lemma {:induction false} LiveCountUpdate(s: seq<Slot>, k: nat, x: Slot)
    requires k < |s|
    ensures LiveCount(s[k := x]) == LiveCount(s) - (if s[k].status == None then 0 else 1)
                                                 + (if x.status == None then 0 else 1)
  {
    if k == 0 {
      assert s[k := x][1..] == s[1..];
    } else {
      LiveCountUpdate(s[1..], k - 1, x);
      assert s[k := x][1..] == s[1..][k - 1 := x];
    }
  }

  lemma {:induction false} AllLiveCount(s: seq<Slot>, i: nat)
    requires i <= |s| && forall j :: i <= j < |s| ==> s[j].status != None
    ensures LiveCount(s) >= |s| - i
  {
    if i > 0 {
      AllLiveCount(s[1..], i - 1);
    } else if s != [] {
      AllLiveCount(s[1..], 0);
    }
  }

  lemma {:induction false} NoneLiveCount(s: seq<Slot>)
    requires forall j :: 0 <= j < |s| ==> s[j].status == None
    ensures LiveCount(s) == 0
  {
    if s != [] {
      NoneLiveCount(s[1..]);
    }
  }

  lemma CountBelowSlots(d: Side)
    requires SideInv(d)
    ensures d.count <= SLOTS - 1
  {
    assert SlotOk(d, 0);
    assert d.slots == [d.slots[0]] + d.slots[1..];
  }

  // With fewer live slots than usable ones the scan finds a free one.
  lemma AllocatorFinds(d: Side)
    requires SideInv(d) && d.count < SLOTS - 1
    ensures FirstFree(d.slots, 1) < SLOTS
  {
    if FirstFree(d.slots, 1) == SLOTS {
      AllLiveCount(d.slots, 1);
    }
  }

  // Bind a free slot to a peer and TID that have none.
  function Bound(d: Side, k: nat, x: Slot): Side
    requires Shape(d) && k < SLOTS && x.wcid < MACS && x.tid < TIDS
  {
    SetIndex(d, x.wcid, x.tid, k).(
      slots := d.slots[k := x],
      count := d.count + 1,
      bits := if x.status == Active then d.bits[x.wcid := d.bits[x.wcid] + {x.tid}] else d.bits)
  }

  lemma BoundKeepsInv(d: Side, k: nat, x: Slot)
    requires SideInv(d) && 0 < k < SLOTS && d.slots[k].status == None
    requires x.wcid < MACS && x.tid < TIDS && d.index[x.wcid][x.tid] == 0
    requires AtLeastPending(x.status) && (x.armed ==> x.status == Pending)
    requires x.status == Pending ==> 1 <= x.token <= ORI_SESSION_MAX_RETRY
    ensures SideInv(Bound(d, k, x))
  {
    var e := Bound(d, k, x);
    LiveCountUpdate(d.slots, k, x);
    forall j | 0 <= j < SLOTS ensures SlotOk(e, j) {
      assert SlotOk(d, j);
    }
    forall w, t | 0 <= w < MACS && 0 <= t < TIDS ensures IndexOk(e, w, t) {
      assert IndexOk(d, w, t);
    }
  }

  // Change a live slot in place, keeping whom it serves.
  function Changed(d: Side, k: nat, x: Slot): Side
    requires Shape(d) && k < SLOTS && x.wcid < MACS
  {
    d.(slots := d.slots[k := x],
       bits := if x.status == Active then d.bits[x.wcid := d.bits[x.wcid] + {x.tid}] else d.bits)
  }

  lemma ChangedKeepsInv(d: Side, k: nat, x: Slot)
    requires SideInv(d) && k < SLOTS && d.slots[k].status != None
    requires x.wcid == d.slots[k].wcid < MACS && x.tid == d.slots[k].tid
    requires AtLeastPending(x.status) && (x.armed ==> x.status == Pending)
    requires d.slots[k].status == Active ==> x.status == Active
    requires x.status == Pending ==> 1 <= x.token <= ORI_SESSION_MAX_RETRY
    ensures SideInv(Changed(d, k, x))
  {
    var e := Changed(d, k, x);
    LiveCountUpdate(d.slots, k, x);
    assert SlotOk(d, k);
    forall j | 0 <= j < SLOTS ensures SlotOk(e, j) {
      assert SlotOk(d, j);
    }
    forall w, t | 0 <= w < MACS && 0 <= t < TIDS ensures IndexOk(e, w, t) {
      assert IndexOk(d, w, t);
    }
  }

  // The slot freed and unlinked, the timer off.
  function Freed(d: Side, k: nat, x: Slot): Side
    requires Shape(d) && k < SLOTS && d.slots[k].wcid < MACS && d.slots[k].tid < TIDS
  {
    var s := d.slots[k];
    SetIndex(d, s.wcid, s.tid, 0).(slots := d.slots[k := x], count := d.count - 1,
                                    bits := d.bits[s.wcid := d.bits[s.wcid] - {s.tid}])
  }

  lemma FreedKeepsInv(d: Side, k: nat, x: Slot)
    requires SideInv(d) && k < SLOTS && d.slots[k].status != None
    requires d.slots[k].wcid < MACS && d.slots[k].tid < TIDS
    requires x.status == None && !x.armed
    ensures SideInv(Freed(d, k, x))
  {
    var e := Freed(d, k, x);
    LiveCountUpdate(d.slots, k, x);
    assert SlotOk(d, k);
    forall j | 0 <= j < SLOTS ensures SlotOk(e, j) {
      assert SlotOk(d, j);
    }
    forall w, t | 0 <= w < MACS && 0 <= t < TIDS ensures IndexOk(e, w, t) {
      assert IndexOk(d, w, t);
    }
  }

  lemma {:induction false} FreeSlotBound(s: seq<Slot>, k: nat)
    requires k < |s| && s[k].status == None
    ensures LiveCount(s) <= |s| - 1
  {
    if k > 0 {
      FreeSlotBound(s[1..], k - 1);
    }
  }

  lemma FullTableHasNoFree(d: Side)
    requires SideInv(d) && d.count == SLOTS - 1
    ensures FirstFree(d.slots, 1) == SLOTS
  {
    assert SlotOk(d, 0);
    assert d.slots == [d.slots[0]] + d.slots[1..];
    var k := FirstFree(d.slots, 1);
    if k < SLOTS {
      FreeSlotBound(d.slots[1..], k - 1);
    }
  }

  // On a full table the allocator hands out the last entry, which is in use: nothing changes.
  lemma OriSetUpFullTable(d: Side, w: nat, t: nat, allowed: bool, win: int)
    requires SideInv(d) && w < MACS && t < TIDS && d.index[w][t] == 0
    requires d.count == SLOTS - 1
    ensures Allocate(d, SLOTS) == (d, Pointer(SLOTS - 1, 0))
    ensures OriSetUp(d, w, t, allowed, win) == d
  {
    FullTableHasNoFree(d);
    assert SlotOk(d, SLOTS - 1);
  }

  // A new session takes a free slot; a session already under way is left alone.
  lemma OriSetUpIs(d: Side, w: nat, t: nat, win: int)
    requires SideInv(d) && w < MACS && t < TIDS
    ensures d.index[w][t] < SLOTS
    ensures d.index[w][t] != 0 || d.count == SLOTS - 1 ==> OriSetUp(d, w, t, true, win) == d
    ensures var k := FirstFree(d.slots, 1);
            d.index[w][t] == 0 && d.count != SLOTS - 1 ==>
              k < SLOTS && OriSetUp(d, w, t, true, win) == Bound(d, k, Slot(Pending, w, t, win, 1, true))
  {
    assert IndexOk(d, w, t);
    CountBelowSlots(d);
    if d.index[w][t] != 0 {
      assert SlotOk(d, d.index[w][t]);
    } else if d.count == SLOTS - 1 {
      OriSetUpFullTable(d, w, t, true, win);
    } else {
      AllocatorFinds(d);
      var k := FirstFree(d.slots, 1);
      assert d.slots[k := d.slots[k].(status := Used)][k := Slot(Pending, w, t, win, 1, true)]
          == d.slots[k := Slot(Pending, w, t, win, 1, true)];
    }
  }

  lemma OriSetUpKeepsInv(d: Side, w: nat, t: nat, allowed: bool, win: int)
    requires SideInv(d) && w < MACS && t < TIDS && d.index[w][t] < SLOTS
    ensures SideInv(OriSetUp(d, w, t, allowed, win))
  {
    OriSetUpIs(d, w, t, win);
    if allowed && d.index[w][t] == 0 && d.count != SLOTS - 1 {
      CountBelowSlots(d);
      AllocatorFinds(d);
      BoundKeepsInv(d, FirstFree(d.slots, 1), Slot(Pending, w, t, win, 1, true));
    }
  }

  lemma OriAddKeepsInv(d: Side, w: nat, t: nat, bufSize: int, maxSize: int)
    requires SideInv(d) && w < MACS && t < TIDS && d.index[w][t] < SLOTS
    ensures SideInv(OriAdd(d, w, t, bufSize, maxSize))
  {
    assert IndexOk(d, w, t);
    var k := d.index[w][t];
    if k != 0 && d.slots[k].status == Pending {
      assert SlotOk(d, k);
      var e := OriAdd(d, w, t, bufSize, maxSize);
      assert e == Changed(d, k, e.slots[k]);
      ChangedKeepsInv(d, k, e.slots[k]);
    }
  }

  // Accepting a response makes a pending session active: the timer off, the bit set, and the
  // window the least of the one asked for, the one granted and the own limit.  Anything else
  // is left alone.
  lemma OriAddIs(d: Side, w: nat, t: nat, bufSize: int, maxSize: int)
    requires SideInv(d) && w < MACS && t < TIDS
    ensures d.index[w][t] < SLOTS
    ensures var k := d.index[w][t]; var s := d.slots[k]; var r := OriAdd(d, w, t, bufSize, maxSize);
            if k == 0 || s.status != Pending then r == d
            else
              var x := r.slots[k];
              && r == d.(slots := d.slots[k := x], bits := d.bits[w := d.bits[w] + {t}])
              && x == s.(status := Active, armed := false, win := x.win)
              && x.win <= s.win && x.win <= bufSize && x.win <= maxSize
              && (x.win == s.win || x.win == bufSize || x.win == maxSize)
  {
    hide LiveCount;
    assert IndexOk(d, w, t);
    if d.index[w][t] != 0 {
      assert SlotOk(d, d.index[w][t]);
    }
  }

  lemma FreeIsFreed(d: Side, k: nat)
    requires SideInv(d) && 0 < k < SLOTS && d.slots[k].status != None
    ensures d.slots[k].wcid < MACS && d.slots[k].tid < TIDS
    ensures Free(CancelTimer(d, k), k) == Freed(d, k, d.slots[k].(status := None, token := 0, armed := false))
    ensures SideInv(Freed(d, k, d.slots[k].(status := None, token := 0, armed := false)))
  {
    assert SlotOk(d, k);
    var s := d.slots[k];
    assert IndexOk(d, s.wcid, s.tid);
    var x := s.(status := None, token := 0, armed := false);
    assert d.slots[k := s.(armed := false)][k := x] == d.slots[k := x];
    if s.status != Active {
      assert d.bits[s.wcid] - {s.tid} == d.bits[s.wcid];
    }
    FreedKeepsInv(d, k, x);
  }

  // A teardown frees the entry of the session, whatever its state, and nothing else.
  lemma OriTearDownIs(d: Side, w: nat, t: nat)
    requires SideInv(d) && w < MACS && t < TIDS
    ensures var k := d.index[w][t]; var r := OriTearDown(d, w, t);
            && k < SLOTS
            && (k == 0 ==> r == d)
            && (k != 0 ==>
                  && d.slots[k].status != None && r.slots == d.slots[k := r.slots[k]]
                  && r.slots[k] == d.slots[k].(status := None, token := 0, armed := false)
                  && r.index == d.index[w := d.index[w][t := 0]]
                  && r.bits == d.bits[w := d.bits[w] - {t}] && r.count == d.count - 1)
  {
    hide LiveCount;
    assert IndexOk(d, w, t);
    if d.index[w][t] != 0 {
      FreeIsFreed(d, d.index[w][t]);
    }
  }

  lemma OriTearDownKeepsInv(d: Side, w: nat, t: nat)
    requires SideInv(d) && t < TIDS
    ensures SideInv(OriTearDown(d, w, t))
    ensures w < MACS ==> OriTearDown(d, w, t).index[w][t] == 0
    ensures forall v, u :: 0 <= v < MACS && 0 <= u < TIDS && (v != w || u != t) ==>
              OriTearDown(d, w, t).index[v][u] == d.index[v][u]
  {
    if w < MACS {
      assert IndexOk(d, w, t);
      if d.index[w][t] != 0 {
        FreeIsFreed(d, d.index[w][t]);
      }
    }
  }

  lemma OriTimeoutKeepsInv(d: Side, k: nat, monitor: bool)
    requires SideInv(d) && k < SLOTS && d.slots[k].armed
    ensures SideInv(OriTimeout(d, k, monitor))
  {
    assert SlotOk(d, k);
    var s := d.slots[k];
    if monitor {
      ChangedKeepsInv(d, k, s.(armed := false));
      assert Changed(d, k, s.(armed := false)) == CancelTimer(d, k);
    } else if s.token < ORI_SESSION_MAX_RETRY {
      ChangedKeepsInv(d, k, s.(token := s.token + 1, armed := true));
    } else {
      FreeIsFreed(d, k);
    }
  }

  // The timer asks again eight times, the token counting, and then frees the entry.
  lemma OriTimeoutIs(d: Side, k: nat)
    requires SideInv(d) && k < SLOTS && d.slots[k].armed
    ensures var s := d.slots[k];
            && s.status == Pending && s.wcid < MACS && s.tid < TIDS
            && OriTimeout(d, k, true) == d.(slots := d.slots[k := s.(armed := false)])
            && OriTimeout(d, k, false) ==
                 if s.token < 8 then d.(slots := d.slots[k := s.(token := s.token + 1)])
                 else OriTearDown(d, s.wcid, s.tid)
  {
    hide LiveCount;
    assert SlotOk(d, k);
    var s := d.slots[k];
    assert s.(token := s.token + 1, armed := true) == s.(token := s.token + 1);
  }

  // The timer of slot k firing again and again, each time in monitor mode or not.
  function Timeouts(d: Side, k: nat, modes: seq<bool>): (r: Side)
    requires SideInv(d) && k < SLOTS
    ensures SideInv(r)
    decreases |modes|
  {
    if modes == [] || !d.slots[k].armed then d
    else
      OriTimeoutKeepsInv(d, k, modes[0]);
      Timeouts(OriTimeout(d, k, modes[0]), k, modes[1..])
  }

  // A session nobody answers is freed when its retries have run out, exactly if none of the
  // timeouts falls into monitor mode: such a timeout does not arm the timer again, and the
  // entry stays pending.
  lemma {:induction false} UnansweredIsFreedIff(d: Side, k: nat, modes: seq<bool>, w: nat, t: nat)
    requires SideInv(d) && k < SLOTS && d.slots[k].armed && |modes| == ORI_SESSION_MAX_RETRY + 1 - d.slots[k].token
    requires w == d.slots[k].wcid && w < MACS && t == d.slots[k].tid && t < TIDS
    ensures var r := Timeouts(d, k, modes);
            && (true !in modes ==> r.slots[k].status == None && r.index[w][t] == 0 && r.count == d.count - 1)
            && (true in modes ==>
                  r.slots[k].status == Pending && !r.slots[k].armed && r.index[w][t] == k && r.count == d.count)
    decreases |modes|
  {
    assert SlotOk(d, k);
    OriTimeoutKeepsInv(d, k, modes[0]);
    var e := OriTimeout(d, k, modes[0]);
    assert true in modes <==> modes[0] || true in modes[1..];
    if modes[0] {
      assert Timeouts(e, k, modes[1..]) == e;
    } else if d.slots[k].token < ORI_SESSION_MAX_RETRY {
      UnansweredIsFreedIff(e, k, modes[1..], w, t);
    } else {
      FreeIsFreed(d, k);
      assert modes[1..] == [] && Timeouts(e, k, []) == e;
    }
  }

  // With at most 8 sessions the recipient allocator never runs past the table.
  lemma RecAddIs(d: Side, w: nat, t: nat, win: int)
    requires SideInv(d) && w < MACS && t < TIDS && d.count <= MAX_BARECI_SESSION
    ensures d.index[w][t] < SLOTS
    ensures var k := d.index[w][t];
            k != 0 ==>
              d.slots[k].wcid == w
              && RecAdd(d, w, t, win) == (Changed(d, k, d.slots[k].(status := Active, win := win)), true)
    ensures d.index[w][t] == 0 && d.count == MAX_BARECI_SESSION ==> RecAdd(d, w, t, win) == (d, false)
    ensures var f := FirstFree(d.slots, 1);
            d.index[w][t] == 0 && d.count < MAX_BARECI_SESSION ==>
              f < SLOTS
              && RecAdd(d, w, t, win)
                 == (Bound(d, f, d.slots[f].(status := Active, wcid := w, tid := t, win := win)), true)
  {
    assert IndexOk(d, w, t);
    var k := d.index[w][t];
    if k != 0 {
      assert d.index[w][t := k] == d.index[w];
      assert SetIndex(d, w, t, k).index == d.index;
      assert d.slots[k].(status := Active, wcid := w, tid := t, win := win)
          == d.slots[k].(status := Active, win := win);
    } else if d.count < MAX_BARECI_SESSION {
      AllocatorFinds(d);
      var f := FirstFree(d.slots, 1);
      var x := d.slots[f].(status := Active, wcid := w, tid := t, win := win);
      assert d.slots[f := d.slots[f].(status := Used)][f := x] == d.slots[f := x];
    }
  }

  // Recipient slots carry no armed timer.
  ghost predicate NoTimers(d: Side) {
    forall k :: 0 <= k < |d.slots| ==> !d.slots[k].armed
  }

  ghost predicate RecInv(d: Side) {
    SideInv(d) && NoTimers(d) && d.count <= MAX_BARECI_SESSION
    && (forall k :: 0 <= k < |d.slots| ==> d.slots[k].status == None || d.slots[k].status == Active)
  }

  lemma RecAddKeepsInv(d: Side, w: nat, t: nat, win: int)
    requires RecInv(d) && w < MACS && t < TIDS && d.index[w][t] < SLOTS
    ensures RecInv(RecAdd(d, w, t, win).0)
    ensures RecAdd(d, w, t, win).1 <==> d.index[w][t] != 0 || d.count < MAX_BARECI_SESSION
    ensures RecAdd(d, w, t, win).1 ==> t in RecAdd(d, w, t, win).0.bits[w]
  {
    RecAddIs(d, w, t, win);
    assert IndexOk(d, w, t);
    var k := d.index[w][t];
    if k != 0 {
      assert SlotOk(d, k);
      ChangedKeepsInv(d, k, d.slots[k].(status := Active, win := win));
    } else if d.count < MAX_BARECI_SESSION {
      AllocatorFinds(d);
      var f := FirstFree(d.slots, 1);
      BoundKeepsInv(d, f, d.slots[f].(status := Active, wcid := w, tid := t, win := win));
    }
  }

  lemma RecTearDownIs(d: Side, w: nat, t: nat)
    requires RecInv(d) && w < MACS && t < TIDS
    ensures var k := d.index[w][t]; var r := RecTearDown(d, w, t);
            && k < SLOTS
            && (k == 0 ==> r == d)
            && (k != 0 ==>
                  && d.slots[k].status == Active && r.slots == d.slots[k := r.slots[k]]
                  && r.slots[k] == d.slots[k].(status := None, token := 0, win := 0)
                  && r.index == d.index[w := d.index[w][t := 0]]
                  && r.bits == d.bits[w := d.bits[w] - {t}] && r.count == d.count - 1)
  {
    hide LiveCount;
    assert IndexOk(d, w, t);
    var k := d.index[w][t];
    if k != 0 {
      assert SlotOk(d, k);
      var x := d.slots[k].(status := None, token := 0, win := 0);
      assert d.slots[k := d.slots[k].(win := 0)][k := x] == d.slots[k := x];
      var row: seq<nat> := d.index[w][t := 0];
      assert row[t := 0] == row && d.index[w := row][w := row] == d.index[w := row];
    }
  }

  lemma RecTearDownKeepsInv(d: Side, w: nat, t: nat)
    requires RecInv(d) && t < TIDS
    ensures RecInv(RecTearDown(d, w, t))
    ensures w < MACS ==> RecTearDown(d, w, t).index[w][t] == 0
    ensures forall v, u :: 0 <= v < MACS && 0 <= u < TIDS && (v != w || u != t) ==>
              RecTearDown(d, w, t).index[v][u] == d.index[v][u]
  {
    if w < MACS {
      assert IndexOk(d, w, t);
      var k := d.index[w][t];
      if k != 0 {
        assert SlotOk(d, k);
        RecTearDownIs(d, w, t);
        var x := d.slots[k].(status := None, token := 0, win := 0);
        assert RecTearDown(d, w, t) == Freed(d, k, x);
        FreedKeepsInv(d, k, x);
      }
    }
  }

  // --- Both sides over any run ---

  datatype Tables = Tables(ori: Side, rec: Side)

  datatype Event =
    | SetUp(w: nat, t: nat, allowed: bool, win: int)
    | Response(w: nat, t: nat, accepted: bool, bufSize: int, maxSize: int)   // PeerAddBARspAction
    | Request(w: nat, t: nat, win: int)                                       // PeerAddBAReqAction
    | DelBa(w: nat, t: nat, fromOriginator: bool)                             // PeerDelBAAction
    | Timer(k: nat, monitor: bool)
    | PeerGone(w: nat)                                                        // BASessionTearDownALL

  ghost predicate TablesInv(s: Tables) {
    SideInv(s.ori) && RecInv(s.rec)
  }

  // Peers are MAC table entries, TIDs are below 8, and only an armed timer fires.
  predicate Enabled(s: Tables, e: Event) {
    match e
    case SetUp(w, t, _, _) => w < MACS && t < TIDS
    case Response(w, t, _, _, _) => w < MACS && t < TIDS
    case Request(w, t, _) => w < MACS && t < TIDS
    case DelBa(_, t, _) => t < TIDS
    case Timer(k, _) => k < |s.ori.slots| && s.ori.slots[k].armed
    case PeerGone(_) => true
  }

  lemma IndexInTable(d: Side, w: nat, t: nat)
    requires SideInv(d) && w < MACS && t < TIDS
    ensures d.index[w][t] < SLOTS
  {
    assert IndexOk(d, w, t);
  }

  function TearDownFrom(s: Tables, w: nat, t: nat): (r: Tables)
    requires TablesInv(s) && t <= TIDS
    decreases TIDS - t
  {
    if t == TIDS then s
    else
      OriTearDownKeepsInv(s.ori, w, t);
      RecTearDownKeepsInv(s.rec, w, t);
      TearDownFrom(Tables(OriTearDown(s.ori, w, t), RecTearDown(s.rec, w, t)), w, t + 1)
  }

  function Step(s: Tables, e: Event): Tables
    requires TablesInv(s) && Enabled(s, e)
  {
    match e
    case SetUp(w, t, allowed, win) =>
      IndexInTable(s.ori, w, t);
      s.(ori := OriSetUp(s.ori, w, t, allowed, win))
    case Response(w, t, accepted, bufSize, maxSize) =>
      IndexInTable(s.ori, w, t);
      s.(ori := if accepted then OriAdd(s.ori, w, t, bufSize, maxSize) else OriTearDown(s.ori, w, t))
    case Request(w, t, win) =>
      IndexInTable(s.rec, w, t);
      s.(rec := RecAdd(s.rec, w, t, win).0)
    case DelBa(w, t, fromOriginator) =>
      if fromOriginator then s.(rec := RecTearDown(s.rec, w, t)) else s.(ori := OriTearDown(s.ori, w, t))
    case Timer(k, monitor) => s.(ori := OriTimeout(s.ori, k, monitor))
    case PeerGone(w) => TearDownFrom(s, w, 0)
  }

  // A DELBA of an originator ends the session we receive, one of a recipient the session we
  // send; the other table is left alone.
  lemma DelBaIs(s: Tables, w: nat, t: nat)
    requires TablesInv(s) && w < MACS && t < TIDS
    ensures var r := Step(s, DelBa(w, t, true));
            r.ori == s.ori && Shape(r.rec) && r.rec.index[w][t] == 0 && t !in r.rec.bits[w]
    ensures var r := Step(s, DelBa(w, t, false));
            r.rec == s.rec && Shape(r.ori) && r.ori.index[w][t] == 0 && t !in r.ori.bits[w]
  {
    OriTearDownIs(s.ori, w, t);
    RecTearDownIs(s.rec, w, t);
    hide LiveCount, OriTearDown, RecTearDown;
    assert IndexOk(s.ori, w, t) && IndexOk(s.rec, w, t);
  }

  // A response that accepts makes the pending session active, one that refuses ends it.
  lemma ResponseIs(s: Tables, w: nat, t: nat, bufSize: int, maxSize: int)
    requires TablesInv(s) && w < MACS && t < TIDS && s.ori.index[w][t] != 0
    ensures var r, k := Step(s, Response(w, t, true, bufSize, maxSize)), s.ori.index[w][t];
            r.rec == s.rec && Shape(r.ori) && r.ori.index == s.ori.index
            && k < SLOTS && r.ori.slots[k].status == Active && t in r.ori.bits[w]
    ensures Step(s, Response(w, t, false, bufSize, maxSize)) == Step(s, DelBa(w, t, false))
  {
    OriAddIs(s.ori, w, t, bufSize, maxSize);
    hide LiveCount, OriTearDown, RecTearDown, OriAdd;
    assert IndexOk(s.ori, w, t);
    assert SlotOk(s.ori, s.ori.index[w][t]);
  }

  lemma {:induction false} TearDownFromClears(s: Tables, w: nat, t: nat)
    requires TablesInv(s) && t <= TIDS
    ensures TablesInv(TearDownFrom(s, w, t))
    ensures forall v, u :: 0 <= v < MACS && 0 <= u < TIDS ==>
              var r := TearDownFrom(s, w, t);
              && r.ori.index[v][u] == (if v == w && u >= t then 0 else s.ori.index[v][u])
              && r.rec.index[v][u] == (if v == w && u >= t then 0 else s.rec.index[v][u])
    decreases TIDS - t
  {
    if t < TIDS {
      OriTearDownKeepsInv(s.ori, w, t);
      RecTearDownKeepsInv(s.rec, w, t);
      TearDownFromClears(Tables(OriTearDown(s.ori, w, t), RecTearDown(s.rec, w, t)), w, t + 1);
    }
  }

  // After a peer is gone no slot of either table serves it.
  lemma PeerGoneLeavesNothing(s: Tables, w: nat)
    requires TablesInv(s)
    ensures var r := Step(s, PeerGone(w));
            && TablesInv(r)
            && (forall k :: 0 <= k < SLOTS && r.ori.slots[k].wcid == w ==> r.ori.slots[k].status == None)
            && (forall k :: 0 <= k < SLOTS && r.rec.slots[k].wcid == w ==> r.rec.slots[k].status == None)
  {
    TearDownFromClears(s, w, 0);
    hide SideInv, TearDownFrom, LiveCount;
    var r := TearDownFrom(s, w, 0);
    NoIndexNoSlot(r.ori, w);
    NoIndexNoSlot(r.rec, w);
  }

  lemma NoIndexNoSlot(d: Side, w: nat)
    requires SideInv(d) && (w < MACS ==> forall u :: 0 <= u < TIDS ==> d.index[w][u] == 0)
    ensures forall k :: 0 <= k < SLOTS && d.slots[k].wcid == w ==> d.slots[k].status == None
  {
    hide LiveCount;
    forall k | 0 <= k < SLOTS ensures d.slots[k].wcid == w ==> d.slots[k].status == None {
      assert SlotOk(d, k);
    }
  }

  lemma StepKeepsInv(s: Tables, e: Event)
    requires TablesInv(s) && Enabled(s, e)
    ensures TablesInv(Step(s, e))
  {
    match e
    case SetUp(w, t, allowed, win) =>
      IndexInTable(s.ori, w, t);
      OriSetUpKeepsInv(s.ori, w, t, allowed, win);
    case Response(w, t, accepted, bufSize, maxSize) =>
      IndexInTable(s.ori, w, t);
      OriAddKeepsInv(s.ori, w, t, bufSize, maxSize);
      OriTearDownKeepsInv(s.ori, w, t);
    case Request(w, t, win) =>
      IndexInTable(s.rec, w, t);
      RecAddKeepsInv(s.rec, w, t, win);
    case DelBa(w, t, _) =>
      OriTearDownKeepsInv(s.ori, w, t);
      RecTearDownKeepsInv(s.rec, w, t);
    case Timer(k, monitor) => OriTimeoutKeepsInv(s.ori, k, monitor);
    case PeerGone(w) => TearDownFromClears(s, w, 0);
  }

  // BATableInit on zeroed memory.
  function Fresh(): Side {
    Side(seq(SLOTS, _ => Slot(None, 0, 0, 0, 0, false)), seq(MACS, _ => seq(TIDS, _ => 0)), seq(MACS, _ => {}), 0)
  }

  lemma FreshInv()
    ensures SideInv(Fresh())
  {
    hide SlotOk, IndexOk, LiveCount;
    var d := Fresh();
    NoneLiveCount(d.slots);
    forall k | 0 <= k < SLOTS ensures SlotOk(d, k) {
      FreshSlot(k);
    }
    forall w, t | 0 <= w < MACS && 0 <= t < TIDS ensures IndexOk(d, w, t) {
      FreshIndex(w, t);
    }
  }

  lemma FreshSlot(k: nat)
    requires k < SLOTS
    ensures Shape(Fresh()) && SlotOk(Fresh(), k)
  {
  }

  lemma FreshIndex(w: nat, t: nat)
    requires w < MACS && t < TIDS
    ensures Shape(Fresh()) && IndexOk(Fresh(), w, t)
  {
  }

  function PowerUp(): (s: Tables)
    ensures TablesInv(s)
  {
    FreshInv();
    Tables(Fresh(), Fresh())
  }

  predicate RunEnabled(s: Tables, es: seq<Event>)
    requires TablesInv(s)
    decreases |es|
  {
    es == [] || (Enabled(s, es[0]) && (StepKeepsInv(s, es[0]); RunEnabled(Step(s, es[0]), es[1..])))
  }

  // Over any run of enabled events tables, indexes, bitmaps and counters agree.
  function Run(s: Tables, es: seq<Event>): (r: Tables)
    requires TablesInv(s) && RunEnabled(s, es)
    ensures TablesInv(r)
    decreases |es|
  {
    if es == [] then s else (StepKeepsInv(s, es[0]); Run(Step(s, es[0]), es[1..]))
  }

  // The agreement spelled out: a set transmit bit means an active originator session, a set
  // receive bit an index, and an index names the one live slot that serves the peer and TID.
  predicate Agreement(r: Tables, w: nat, t: nat)
    requires Shape(r.ori) && Shape(r.rec) && w < MACS && t < TIDS
  {
    var o, i := r.ori.index[w][t], r.rec.index[w][t];
    && o < SLOTS && i < SLOTS
    && (t in r.ori.bits[w] <==> o != 0 && r.ori.slots[o].status == Active)
    && (t in r.rec.bits[w] <==> i != 0)
    && (i != 0 ==> r.rec.slots[i].status == Active)
    && (forall k :: 0 < k < SLOTS ==> (Serves(r.ori.slots[k], w, t) <==> o == k))
    && (forall k :: 0 < k < SLOTS ==> (Serves(r.rec.slots[k], w, t) <==> i == k))
  }

  predicate Serves(s: Slot, w: nat, t: nat) { s.status != None && s.wcid == w && s.tid == t }

  lemma InvAgrees(r: Tables, w: nat, t: nat)
    requires TablesInv(r) && w < MACS && t < TIDS
    ensures Agreement(r, w, t)
  {
    hide LiveCount;
    assert IndexOk(r.ori, w, t) && IndexOk(r.rec, w, t);
    forall k | 0 < k < SLOTS
      ensures Serves(r.ori.slots[k], w, t) <==> r.ori.index[w][t] == k
      ensures Serves(r.rec.slots[k], w, t) <==> r.rec.index[w][t] == k
    {
      assert SlotOk(r.ori, k) && SlotOk(r.rec, k);
    }
  }

  // For every state reachable from power-up.
  lemma TablesAgree(es: seq<Event>, w: nat, t: nat)
    requires RunEnabled(PowerUp(), es) && w < MACS && t < TIDS
    ensures var r := Run(PowerUp(), es);
            Agreement(r, w, t) && r.ori.count == LiveCount(r.ori.slots)
            && r.rec.count == LiveCount(r.rec.slots) <= MAX_BARECI_SESSION
  {
    hide Run, RunEnabled, PowerUp, LiveCount;
    InvAgrees(Run(PowerUp(), es), w, t);
  }

  // A request at power-up whose timer fires in monitor mode: the entry stays pending and has
  // no timer that could free it.
  lemma MonitorKeepsPending()
    ensures var e := OriSetUp(Fresh(), 1, 0, true, 16);
            SideInv(e) && e.slots[1].armed
            && var r := OriTimeout(e, 1, true); r.slots[1].status == Pending && !r.slots[1].armed && r.index[1][0] == 1
  {
    FreshInv();
    var d := Fresh();
    assert d.index[1][0] == 0 && d.slots[1].status == None && d.count == 0;
    OriSetUpKeepsInv(d, 1, 0, true, 16);
    hide LiveCount, SlotOk, IndexOk, Fresh, SideInv;
    assert FirstFree(d.slots, 1) == 1;
    var e, row := OriSetUp(d, 1, 0, true, 16), d.index[1][0 := 1];
    assert e.slots[1] == Slot(Pending, 1, 0, 16, 1, true) && e.index == d.index[1 := row];
  }
}
