// The session table code of common/ba_action.c as it runs on its arrays.  Every method is
// proved to compute the table function of the same operation.
module BaTableDriver {
  import opened BaTables

  // BAOriEntry or BARecEntry with its counter, the index arrays and bitmaps of the peers.
  class SideTable {
    const slots: array<Slot>
    const index: array<seq<nat>>
    const bits: array<set<nat>>
    var count: int

    predicate Valid()
      reads this, slots, index, bits
    {
      Shape(Value())
    }

    function Value(): Side
      reads this, slots, index, bits
    {
      Side(slots[..], index[..], bits[..], count)
    }

    // BATableInit
    constructor ()
      ensures Valid() && Value() == Fresh()
      ensures fresh(slots) && fresh(index) && fresh(bits)
    {
      slots := new Slot[SLOTS](_ => Slot(None, 0, 0, 0, 0, false));
      index := new seq<nat>[MACS](_ => seq(TIDS, _ => 0));
      bits := new set<nat>[MACS](_ => {});
      count := 0;
      new;
      assert slots[..] == Fresh().slots && index[..] == Fresh().index && bits[..] == Fresh().bits;
    }

    // BATableAllocOriEntry, BATableAllocRecEntry
    method AllocateEntry(limit: nat, idxIn: nat) returns (isNull: bool, slot: nat, idx: nat)
      requires Valid() && idxIn == 0
      modifies this`count, slots
      ensures Valid() && slot < SLOTS
      ensures Value() == Allocate(old(Value()), limit).0
      ensures Allocate(old(Value()), limit).1 == if isNull then Null else Pointer(slot, idx)
    {
      isNull, slot, idx := true, 0, idxIn;
      if count >= limit {
        return;
      }
      var i := 1;
      while i < SLOTS
        invariant 1 <= i <= SLOTS && Value() == old(Value()) && idx == 0
        invariant i > 1 ==> !isNull && slot == i - 1
        invariant FirstFree(slots[..], 1) == FirstFree(slots[..], i)
      {
        isNull, slot := false, i;
        if slots[i].status == None {
          count := count + 1;
          slots[i] := slots[i].(status := Used);
          idx := i;
          return;
        }
        i := i + 1;
      }
    }

    method PutIndex(w: nat, t: nat, k: nat)
      requires Valid() && w < MACS && t < TIDS
      modifies index
      ensures Valid() && Value() == SetIndex(old(Value()), w, t, k)
    {
      var row: seq<nat> := index[w][t := k];
      index[w] := row;
    }

    // BAOriSessionSetUp
    method SetUp(w: nat, t: nat, autoBa: bool, forced: bool, htOnly: bool, win: int)
      requires Valid() && w < MACS && t < TIDS && index[w][t] < SLOTS
      modifies this`count, slots, index
      ensures Valid()
      ensures Value() == OriSetUp(old(Value()), w, t, (autoBa || forced) && htOnly, win)
    {
      if !autoBa && !forced {
        return;
      }
      if !htOnly {
        return;
      }
      var idx := index[w][t];
      var slot := idx;
      if idx == 0 {
        var isNull;
        isNull, slot, idx := AllocateEntry(SLOTS, idx);
        if isNull {
          return;
        }
      }
      if AtLeastPending(slots[slot].status) {
        return;
      }
      PutIndex(w, t, idx);
      slots[slot] := Slot(Pending, w, t, win, 1, true);
    }

    // BAOriSessionAdd
    method AddOriginator(w: nat, t: nat, bufSize: int, maxSize: int)
      requires Valid() && w < MACS && t < TIDS && index[w][t] < SLOTS
      modifies slots, bits
      ensures Valid()
      ensures Value() == OriAdd(old(Value()), w, t, bufSize, maxSize)
    {
      var idx := index[w][t];
      var s := slots[idx];
      if idx != 0 && s.tid == t && s.status == Pending {
        var win := if s.win < bufSize then s.win else bufSize;
        if win > maxSize {
          win := maxSize;
        }
        slots[idx] := s.(win := win, status := Active, armed := false);
        bits[w] := bits[w] + {t};
      }
    }

    // BATableFreeOriEntry
    method FreeEntry(k: nat)
      requires Valid()
      requires 0 < k < SLOTS && slots[k].status != None ==> slots[k].wcid < MACS && slots[k].tid < TIDS
      modifies this`count, slots, index, bits
      ensures Valid() && Value() == Free(old(Value()), k)
    {
      if k == 0 || k >= SLOTS {
        return;
      }
      var s := slots[k];
      if s.status != None {
        PutIndex(s.wcid, s.tid, 0);
        if s.status == Active {
          bits[s.wcid] := bits[s.wcid] - {s.tid};
        }
        count := count - 1;
        slots[k] := s.(status := None, token := 0);
      }
    }

    // BAOriSessionTearDown
    method TearDownOriginator(w: nat, t: nat)
      requires Valid() && SideInv(Value()) && t < TIDS
      modifies this`count, slots, index, bits
      ensures Valid() && Value() == OriTearDown(old(Value()), w, t)
    {
      if w >= MACS {
        return;
      }
      var idx := index[w][t];
      if idx == 0 || idx >= SLOTS {
        return;
      }
      assert IndexOk(Value(), w, t) && SlotOk(Value(), idx);
      slots[idx] := slots[idx].(armed := false);
      FreeEntry(idx);
    }

    // BAOriSessionSetupTimeout; the fired timer is no longer armed.
    method SetupTimeout(k: nat, monitor: bool)
      requires Valid() && SideInv(Value()) && k < SLOTS && slots[k].armed
      modifies this`count, slots, index, bits
      ensures Valid() && Value() == OriTimeout(old(Value()), k, monitor)
    {
      assert SlotOk(Value(), k);
      slots[k] := slots[k].(armed := false);
      if monitor {
        return;
      }
      if slots[k].status == Pending && slots[k].token < ORI_SESSION_MAX_RETRY {
        slots[k] := slots[k].(token := slots[k].token + 1);
        slots[k] := slots[k].(armed := true);
      } else {
        FreeEntry(index[slots[k].wcid][slots[k].tid]);
      }
    }

    // BARecSessionAdd; a full recipient table refuses.
    method AddRecipient(w: nat, t: nat, win: int) returns (ok: bool)
      requires Valid() && w < MACS && t < TIDS && index[w][t] < SLOTS
      modifies this`count, slots, index, bits
      ensures Valid() && (Value(), ok) == RecAdd(old(Value()), w, t, win)
    {
      var idx := index[w][t];
      var slot := idx;
      if idx == 0 {
        var isNull;
        isNull, slot, idx := AllocateEntry(MAX_BARECI_SESSION, idx);
        if isNull {
          return false;
        }
      }
      ghost var e := Value();
      slots[slot] := slots[slot].(status := Pending, win := win, wcid := w, tid := t);
      slots[slot] := slots[slot].(status := Active);
      bits[w] := bits[w] + {t};
      PutIndex(w, t, idx);
      assert Value().slots == e.slots[slot := e.slots[slot].(status := Active, wcid := w, tid := t, win := win)];
      return true;
    }

    // BARecSessionTearDown
    method TearDownRecipient(w: nat, t: nat)
      requires Valid() && SideInv(Value()) && t < TIDS
      modifies this`count, slots, index, bits
      ensures Valid() && Value() == RecTearDown(old(Value()), w, t)
    {
      if w >= MACS {
        return;
      }
      var idx := index[w][t];
      if idx == 0 {
        return;
      }
      assert IndexOk(Value(), w, t) && SlotOk(Value(), idx);
      if t == slots[idx].tid && slots[idx].status == Active {
        slots[idx] := slots[idx].(win := 0);
        bits[w] := bits[w] - {slots[idx].tid};
        PutIndex(w, t, 0);
      }
      FreeRecEntry(idx);
    }

    // BATableFreeRecEntry
    method FreeRecEntry(k: nat)
      requires Valid()
      requires 0 < k < SLOTS && slots[k].status != None ==> slots[k].wcid < MACS && slots[k].tid < TIDS
      modifies this`count, slots, index
      ensures Valid() && Value() == FreeRec(old(Value()), k)
    {
      if k == 0 || k >= SLOTS {
        return;
      }
      var s := slots[k];
      if s.status != None {
        PutIndex(s.wcid, s.tid, 0);
        count := count - 1;
        slots[k] := s.(status := None, token := 0);
      }
    }
  }

  // BASessionTearDownALL
  method TearDownAll(ori: SideTable, rec: SideTable, w: nat)
    requires {ori.slots as object, ori.index, ori.bits} !! {rec.slots as object, rec.index, rec.bits} && ori != rec
    requires ori.Valid() && rec.Valid() && TablesInv(Tables(ori.Value(), rec.Value()))
    modifies ori, ori.slots, ori.index, ori.bits, rec, rec.slots, rec.index, rec.bits
    ensures Tables(ori.Value(), rec.Value()) == TearDownFrom(old(Tables(ori.Value(), rec.Value())), w, 0)
  {
    ghost var s := Tables(ori.Value(), rec.Value());
    var t := 0;
    while t < TIDS
      invariant 0 <= t <= TIDS && ori.Valid() && rec.Valid()
      invariant TablesInv(Tables(ori.Value(), rec.Value()))
      invariant TearDownFrom(Tables(ori.Value(), rec.Value()), w, t) == TearDownFrom(s, w, 0)
    {
      OriTearDownKeepsInv(ori.Value(), w, t);
      RecTearDownKeepsInv(rec.Value(), w, t);
      ori.TearDownOriginator(w, t);
      rec.TearDownRecipient(w, t);
      t := t + 1;
    }
  }
}
