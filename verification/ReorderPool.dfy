// The pool is large enough: with the driver's own limits a block is always free, so that
// what the reordering code does when none is left never happens.
module ReorderPool {
  import opened ReorderModel
  import opened ReorderCircular
  import opened ReorderAdapter

  const MAX_REORDERING_MPDU_NUM: nat := 512
  const MAX_LEN_OF_BA_REC_TABLE: nat := 128

  // The entries that are not vacant.
  function Occupied(ss: seq<Session>): nat {
    if ss == [] then 0 else (if ss[0].phase == Vacant then 0 else 1) + Occupied(ss[1..])
  }

  // Every session on its own: a live one holds less than its window, the others nothing.
  predicate Bounded(s: Session) {
    if s.phase == Live then |s.list| < MAX_BA_WIN else s.list == []
  }

  lemma {:induction false} HeldAtMost(ss: seq<Session>)
    requires forall s :: s in ss ==> Bounded(s)
    ensures HeldCount(ss) <= (MAX_BA_WIN - 1) * Occupied(ss)
  {
    if ss != [] {
      assert ss[0] in ss && forall s :: s in ss[1..] ==> s in ss;
      HeldAtMost(ss[1..]);
    }
  }

  // The driver's counter is right and has not passed its limit, and no block is missing.
  ghost predicate PoolInv(a: Adapter) {
    AdapterInv(a) && a.num == Occupied(a.sessions) <= MAX_BARECI_SESSION && BlockCount(a) == MAX_REORDERING_MPDU_NUM
  }

  lemma SessionsBounded(a: Adapter)
    requires AdapterInv(a)
    ensures forall s :: s in a.sessions ==> Bounded(s)
  {
    hide CircularInv;
    forall s | s in a.sessions ensures Bounded(s) {
      var i :| 0 <= i < |a.sessions| && a.sessions[i] == s;
      assert SessionOk(a, i);
      if s.phase == Live {
        CircularListFits(RxOf(a, i));
        WindowAtMost(RxOf(a, i));
      }
    }
  }

  lemma WindowAtMost(s: Rx)
    requires CircularInv(s)
    ensures 1 <= s.win <= MAX_BA_WIN
  {
  }

  // At most 8 * 63 of the 512 blocks are held.
  lemma BlockIsFree(a: Adapter)
    requires PoolInv(a)
    ensures |a.free| >= MAX_REORDERING_MPDU_NUM - MAX_BARECI_SESSION * (MAX_BA_WIN - 1) == 8
  {
    SessionsBounded(a);
    HeldAtMost(a.sessions);
    hide AdapterInv, HeldCount, Occupied;
  }

  function Taking(s: Session): nat { if s.phase == Vacant then 0 else 1 }

  lemma {:induction false} OccupiedUpdate(ss: seq<Session>, i: nat, s: Session)
    requires i < |ss|
    ensures Occupied(ss[i := s]) + Taking(ss[i]) == Occupied(ss) + Taking(s)
  {
    if i == 0 {
      assert ss[i := s][1..] == ss[1..];
    } else {
      assert ss[i := s][1..] == ss[1..][i - 1 := s];
      OccupiedUpdate(ss[1..], i - 1, s);
    }
  }

  // Every event keeps the counter right and within its limit.
  lemma StepCounts(a: Adapter, e: AdapterEvent, hz: nat)
    requires Possible(a, e) && a.num == Occupied(a.sessions) <= MAX_BARECI_SESSION
    ensures var b := AdapterStep(a, e, hz); b.num == Occupied(b.sessions) <= MAX_BARECI_SESSION
  {
    hide Occupied, Step, FirstVacant;
    match e
    case On(i, e) => OccupiedUpdate(a.sessions, i, AdapterStep(a, On(i, e), hz).sessions[i]);
    case Reserve =>
      if a.sessions != [] {
        var k := FirstVacant(a.sessions, 1);
        if k < |a.sessions| {
          OccupiedUpdate(a.sessions, k, a.sessions[k].(phase := Taken));
        }
      }
    case Enter(i) => OccupiedUpdate(a.sessions, i, AdapterStep(a, e, hz).sessions[i]);
    case Clear(j) => OccupiedUpdate(a.sessions, j, AdapterStep(a, e, hz).sessions[j]);
    case Vacate(j) => OccupiedUpdate(a.sessions, j, AdapterStep(a, e, hz).sessions[j]);
    case _ =>
  }

  // What the thread that sets up and tears down sessions has to meet: nothing is held where it
  // marks or clears a session, or outside the window it sets.
  predicate Undisturbed(a: Adapter, e: AdapterEvent)
    requires Possible(a, e)
  {
    (e.On? && e.e.Data?) || Healthy(a, e)
  }

  lemma StepKeepsPoolIff(a: Adapter, e: AdapterEvent, hz: nat)
    requires PoolInv(a) && Possible(a, e)
    ensures PoolInv(AdapterStep(a, e, hz)) <==> Undisturbed(a, e)
    ensures Undisturbed(a, e) ==> Healthy(a, e)
  {
    BlockIsFree(a);
    assert Undisturbed(a, e) ==> Healthy(a, e);
    hide AdapterInv, BlockCount, AdapterStep, Healthy, Occupied;
    AdapterStepConserves(a, e, hz, 0);
    AdapterStepKeepsInvIff(a, e, hz);
    StepCounts(a, e, hz);
  }

  predicate UndisturbedRun(a: Adapter, es: seq<AdapterEvent>, hz: nat)
    requires AdapterRunOk(a, es, hz)
    decreases |es|
  {
    es == [] || (Undisturbed(a, es[0]) && UndisturbedRun(AdapterStep(a, es[0], hz), es[1..], hz))
  }

  lemma {:induction false} NothingHeldOrTaken(ss: seq<Session>)
    requires forall s :: s in ss ==> s.phase == Vacant && s.list == []
    ensures HeldCount(ss) == 0 && Occupied(ss) == 0
  {
    if ss != [] {
      assert ss[0] in ss && forall s :: s in ss[1..] ==> s in ss;
      NothingHeldOrTaken(ss[1..]);
    }
  }

  lemma {:induction false} FreshPoolSize(num: nat)
    ensures |FreshPool(num)| == num
  {
    if num > 0 {
      FreshPoolSize(num - 1);
    }
  }

  lemma BootedPoolInv()
    ensures PoolInv(Booted(MAX_LEN_OF_BA_REC_TABLE, MAX_REORDERING_MPDU_NUM))
  {
    var a := Booted(MAX_LEN_OF_BA_REC_TABLE, MAX_REORDERING_MPDU_NUM);
    NothingHeldOrTaken(a.sessions);
    FreshPoolSize(MAX_REORDERING_MPDU_NUM);
  }

  lemma {:induction false} RunKeepsPool(a: Adapter, es: seq<AdapterEvent>, hz: nat)
    requires PoolInv(a) && AdapterRunOk(a, es, hz) && UndisturbedRun(a, es, hz)
    ensures HealthyRun(a, es, hz) && PoolInv(AdapterRun(a, es, hz))
    decreases |es|
  {
    hide PoolInv, AdapterStep, Healthy, Undisturbed;
    if es != [] {
      StepKeepsPoolIff(a, es[0], hz);
      RunKeepsPool(AdapterStep(a, es[0], hz), es[1..], hz);
    }
  }

  // From power-up on, whatever frames, timeouts, requests, set-ups and teardowns come, as long
  // as no frame disturbs a set-up or teardown: every live session keeps its invariant without
  // any assumption on allocation, and there are blocks to spare.
  lemma AllocationNeverFails(es: seq<AdapterEvent>, hz: nat)
    requires AdapterRunOk(Booted(MAX_LEN_OF_BA_REC_TABLE, MAX_REORDERING_MPDU_NUM), es, hz)
    requires UndisturbedRun(Booted(MAX_LEN_OF_BA_REC_TABLE, MAX_REORDERING_MPDU_NUM), es, hz)
    ensures var a := AdapterRun(Booted(MAX_LEN_OF_BA_REC_TABLE, MAX_REORDERING_MPDU_NUM), es, hz);
            AdapterInv(a) && |a.free| >= 8
  {
    BootedPoolInv();
    hide AdapterInv, AdapterRun, Occupied, BlockCount, Booted;
    RunKeepsPool(Booted(MAX_LEN_OF_BA_REC_TABLE, MAX_REORDERING_MPDU_NUM), es, hz);
    BlockIsFree(AdapterRun(Booted(MAX_LEN_OF_BA_REC_TABLE, MAX_REORDERING_MPDU_NUM), es, hz));
  }
}
