// The management ring as the driver keeps it: an array of cells and three counters.  Every
// method is a stretch of code that runs under one lock, or one look without a lock.
module MgmtRingDriver {
  import opened MgmtRing

  class TxRing {
    const cells: array<Cell>
    var txCpuIdx: nat
    var txDmaIdx: nat
    var txSwFreeIdx: nat
    var bulkOutPending: bool
    var mgmtRingFullCount: nat
    // What USB and the tasklet are doing, the calls under way, and the packets queued and
    // freed so far.
    ghost var air: Air
    ghost var half: Halfway
    ghost var requests: nat
    ghost var kicks: seq<nat>
    ghost var queued: seq<Packet>
    ghost var freed: seq<Packet>

    ghost function Contents(): Ring
      reads this, cells
    {
      Ring(cells[..], txCpuIdx, txDmaIdx, txSwFreeIdx, bulkOutPending, air, half, requests, kicks, queued, freed)
    }

    ghost predicate Valid()
      reads this, cells
    {
      cells.Length == SIZE && Shaped(Contents())
    }

    constructor ()
      ensures Valid() && Contents() == Start() && fresh(cells)
    {
      cells := new Cell[SIZE](_ => Cell(None, false, false, false));
      txCpuIdx, txDmaIdx, txSwFreeIdx, bulkOutPending := 0, 0, SIZE, false;
      mgmtRingFullCount := 0;
      air, half, requests, kicks, queued, freed := Idle, NoHalf, 0, [], [], [];
      new;
      assert cells[..] == Start().cells;
    }

    // MiniportMMRequest up to its look at the free count.  A request that goes on is under way;
    // one that finds the ring full is counted and otherwise looks like success.
    method AskForRoom(up: bool) returns (goesOn: bool, success: bool)
      requires Valid()
      modifies this`mgmtRingFullCount, this`requests
      ensures Valid() && Contents() == Ask(old(Contents()), up)
      ensures goesOn == SeesRoom(old(Contents()), up) && success == up
      ensures mgmtRingFullCount == old(mgmtRingFullCount) + if up && !goesOn then 1 else 0
    {
      if !up {
        return false, false;
      }
      var freeNum := txSwFreeIdx;
      if freeNum > 0 {
        requests := requests + 1;
        return true, true;
      }
      mgmtRingFullCount := mgmtRingFullCount + 1;
      return false, true;
    }

    // The rest of it, which ends in RtmpUSBMgmtKickOut.  A packet that may not be sent is
    // released.
    method FinishRequest(p: Packet, memory: bool, allowed: bool) returns (success: bool, released: bool)
      requires Valid() && requests > 0
      modifies this, cells
      ensures Valid() && Contents() == Finish(old(Contents()), p, memory, allowed)
      ensures success == (memory && allowed) && released == (memory && !allowed)
      ensures mgmtRingFullCount == old(mgmtRingFullCount)
    {
      hide Put;
      requests := requests - 1;
      if !memory {
        return false, false;
      }
      if !allowed {
        return false, true;
      }
      KickOut(p);
      return true, false;
    }

    // RtmpUSBMgmtKickOut
    method KickOut(p: Packet)
      requires Valid()
      modifies this`txCpuIdx, this`txSwFreeIdx, this`queued, cells
      ensures Valid() && Contents() == Put(old(Contents()), p)
    {
      hide Less, Increased;
      ghost var r := Contents();
      var swIdx := txCpuIdx;
      cells[txCpuIdx] := cells[txCpuIdx].(packet := Some(p));
      cells[swIdx] := cells[swIdx].(inUse := true);
      cells[swIdx] := cells[swIdx].(waiting := true);
      txSwFreeIdx := Less(txSwFreeIdx);
      txCpuIdx := Increased(txCpuIdx);
      queued := queued + [p];
      assert cells[..] == r.cells[swIdx := Cell(Some(p), true, true, r.cells[swIdx].irpPending)];
    }

    // RTUSBBulkOutMLMEPacket up to its lock: the cell it is going to claim.
    method LookForWork() returns (goesOn: bool, index: nat)
      requires Valid()
      modifies this`kicks
      ensures Valid() && Contents() == Look(old(Contents()))
      ensures goesOn == SeesWork(old(Contents())) && index == txDmaIdx
    {
      index := txDmaIdx;
      if txSwFreeIdx >= SIZE || !cells[index].inUse || !cells[index].waiting {
        return false, index;
      }
      kicks := kicks + [index];
      return true, index;
    }

    // Its locked region.
    method ClaimCell(index: nat, stopped: bool, ghost k: nat) returns (claimed: bool)
      requires Valid() && k < |kicks| && kicks[k] == index
      modifies this`bulkOutPending, this`air, this`kicks, cells
      ensures Valid() && Contents() == Claim(old(Contents()), k, stopped)
      ensures claimed == (!old(bulkOutPending) && !stopped)
    {
      ghost var r := Contents();
      kicks := kicks[..k] + kicks[k + 1..];
      if bulkOutPending || stopped {
        return false;
      }
      bulkOutPending := true;
      cells[index] := cells[index].(irpPending := true);
      cells[index] := cells[index].(waiting := false);
      air := Claimed(index);
      claimed := true;
      assert cells[..] == r.cells[index := r.cells[index].(irpPending := true, waiting := false)];
    }

    // What follows the submission; a refused one is taken back under the lock.
    method AfterSubmission(index: nat, accepted: bool)
      requires Valid() && air == Claimed(index)
      modifies this`bulkOutPending, this`air, cells
      ensures Valid() && Contents() == Submit(old(Contents()), accepted)
    {
      ghost var r := Contents();
      air := Sending(index);
      if !accepted {
        bulkOutPending := false;
        cells[index] := cells[index].(irpPending := false);
        cells[index] := cells[index].(waiting := true);
        air := Idle;
        assert cells[..] == r.cells[index := r.cells[index].(irpPending := false, waiting := true)];
      }
    }

    // The first locked region of rt2870_mgmt_dma_done_tasklet.
    method DmaDone1(index: nat)
      requires Valid() && air == Sending(index) && half == NoHalf
      modifies this`bulkOutPending, this`air, this`half
      ensures Valid() && Contents() == Done1(old(Contents()))
    {
      bulkOutPending := false;
      air, half := Idle, Half(index);
    }

    // The second; the packet is given back to the system.  On an orderly ring the cell is the
    // one at TxDmaIdx and the packet is the oldest one queued.
    method DmaDone2(index: nat) returns (pPacket: Option)
      requires Valid() && half == Half(index)
      modifies this`txDmaIdx, this`txSwFreeIdx, this`half, this`freed, cells
      ensures Valid() && Contents() == Done2(old(Contents())) && pPacket == old(cells[index].packet)
      ensures old(Inv(Contents())) ==> index == old(txDmaIdx) && pPacket == Some(old(queued)[|old(freed)|])
    {
      hide Inv, More, Increased;
      ghost var r := Contents();
      if Inv(r) {
        Done2KeepsInv(r);
      }
      cells[index] := cells[index].(irpPending := false);
      cells[index] := cells[index].(inUse := false);
      cells[index] := cells[index].(waiting := false);
      pPacket := cells[index].packet;
      cells[index] := cells[index].(packet := None);
      txDmaIdx := Increased(txDmaIdx);
      txSwFreeIdx := More(txSwFreeIdx);
      half := NoHalf;
      freed := if pPacket.Some? then freed + [pPacket.p] else freed;
      assert cells[..] == r.cells[index := Cell(None, false, false, false)];
    }
  }
}
