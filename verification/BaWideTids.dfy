// Action frames with TIDs 8..15, which the sanity checks let through and the arrays of the MAC
// table entry have no room for (common/ba_action.c, common/cmm_sanity.c).  Behind
// BARecWcidArray stands BAOriWcidArray, so a recipient operation meets the originator index of
// TID - 8.  Behind that stands BAOriSequence, which nothing writes: an originator operation
// finds index 0 and does nothing.
module BaWideTids {
  import opened BaTables

  // Agreement as far as it does not depend on the range of a TID: a non-zero index names a live
  // slot that points back, and the counter counts the live slots.
  predicate IndexLive(d: Side, w: nat, t: nat)
    requires Shape(d) && w < MACS && t < TIDS
  {
    var k := d.index[w][t];
    k != 0 ==> k < SLOTS && d.slots[k].status != None && d.slots[k].wcid == w && d.slots[k].tid == t
  }

  ghost predicate Agrees(d: Side) {
    Shape(d) && (forall w, t :: 0 <= w < MACS && 0 <= t < TIDS ==> IndexLive(d, w, t)) && d.count == LiveCount(d.slots)
  }

  lemma SideAgrees(d: Side)
    requires SideInv(d)
    ensures Agrees(d)
  {
    hide LiveCount;
    forall w, t | 0 <= w < MACS && 0 <= t < TIDS ensures IndexLive(d, w, t) {
      assert IndexOk(d, w, t);
    }
  }

  // BARecSessionAdd for a TID of four bits.
  function WideAdd(s: Tables, w: nat, t: nat, win: int): (Tables, bool)
    requires TablesInv(s) && w < MACS && t < 2 * TIDS
  {
    if t < TIDS then
      assert IndexOk(s.rec, w, t);
      var (e, ok) := RecAdd(s.rec, w, t, win);
      (Tables(s.ori, e), ok)
    else
      var u := t - TIDS;
      assert IndexOk(s.ori, w, u);
      var idx := s.ori.index[w][u];
      var (e, p) := if idx == 0 then Allocate(s.rec, MAX_BARECI_SESSION) else (s.rec, Pointer(idx, idx));
      if p.Null? then (s, false)
      else
        var x := e.slots[p.slot].(status := Active, wcid := w, tid := t, win := win);
        (Tables(SetIndex(s.ori, w, u, p.idx),
                e.(slots := e.slots[p.slot := x], bits := e.bits[w := e.bits[w] + {t}])), true)
  }

  // A new entry: its number goes into the originator index, which had none, and there names
  // an entry that is vacant or somebody else's.
  lemma WideNewDisagrees(s: Tables, w: nat, t: nat, win: int)
    requires TablesInv(s) && w < MACS && TIDS <= t < 2 * TIDS
    requires s.ori.index[w][t - TIDS] == 0 && s.rec.count < MAX_BARECI_SESSION
    ensures var (r, ok) := WideAdd(s, w, t, win); ok && !Agrees(r.ori)
  {
    AllocatorFinds(s.rec);
    hide LiveCount;
    var (r, ok) := WideAdd(s, w, t, win);
    var k := FirstFree(s.rec.slots, 1);
    assert SlotOk(s.ori, k);
    assert r.ori.index[w][t - TIDS] == k;
    assert !IndexLive(r.ori, w, t - TIDS);
  }

  // The entry the originator index names is taken: uncounted if it was vacant, from its
  // session otherwise.
  lemma WideTakenDisagrees(s: Tables, w: nat, t: nat, win: int)
    requires TablesInv(s) && w < MACS && TIDS <= t < 2 * TIDS && s.ori.index[w][t - TIDS] != 0
    ensures var (r, ok) := WideAdd(s, w, t, win); ok && !Agrees(r.rec)
  {
    var k := s.ori.index[w][t - TIDS];
    assert IndexOk(s.ori, w, t - TIDS);
    var (r, ok) := WideAdd(s, w, t, win);
    LiveCountUpdate(s.rec.slots, k, r.rec.slots[k]);
    hide LiveCount;
    if s.rec.slots[k].status != None {
      var o := s.rec.slots[k];
      assert SlotOk(s.rec, k);
      assert r.rec.index[o.wcid][o.tid] == k;
      assert !IndexLive(r.rec, o.wcid, o.tid);
    }
  }

  // A request keeps the tables in agreement exactly when its TID is below 8, or when there is
  // no originator session of TID - 8 and eight recipient sessions leave no entry for it.
  lemma WideAddKeepsInvIff(s: Tables, w: nat, t: nat, win: int)
    requires TablesInv(s) && w < MACS && t < 2 * TIDS
    ensures var r := WideAdd(s, w, t, win).0;
            var none := t < TIDS || (s.ori.index[w][t - TIDS] == 0 && s.rec.count == MAX_BARECI_SESSION);
            (TablesInv(r) <==> none) && (Agrees(r.ori) && Agrees(r.rec) <==> none)
  {
    var r := WideAdd(s, w, t, win).0;
    assert Shape(s.ori) && Shape(s.rec);
    hide LiveCount, SideInv, Agrees;
    if t < TIDS {
      IndexInTable(s.rec, w, t);
      RecAddKeepsInv(s.rec, w, t, win);
    } else if s.ori.index[w][t - TIDS] != 0 {
      WideTakenDisagrees(s, w, t, win);
    } else if s.rec.count < MAX_BARECI_SESSION {
      WideNewDisagrees(s, w, t, win);
    }
    if TablesInv(r) {
      SideAgrees(r.ori);
      SideAgrees(r.rec);
    }
  }

  // BARecSessionTearDown for such a TID, from a DELBA: the test of the entry's TID fails, so
  // nothing is flushed and no bit cleared, and the entry is freed.
  function WideDelBa(s: Tables, w: nat, t: nat): Tables
    requires TablesInv(s) && w < MACS && TIDS <= t < 2 * TIDS
  {
    var idx := s.ori.index[w][t - TIDS];
    assert IndexOk(s.ori, w, t - TIDS);
    if idx == 0 then s
    else
      assert SlotOk(s.rec, idx);
      s.(rec := FreeRec(s.rec, idx))
  }

  // It keeps the tables in agreement exactly when the originator index is empty or names no
  // live recipient entry; otherwise somebody's session is freed and its bit stays set.
  lemma WideDelBaKeepsInvIff(s: Tables, w: nat, t: nat)
    requires TablesInv(s) && w < MACS && TIDS <= t < 2 * TIDS
    ensures var k := s.ori.index[w][t - TIDS]; var r := WideDelBa(s, w, t);
            && k < SLOTS
            && (TablesInv(r) <==> k == 0 || s.rec.slots[k].status == None)
            && (k != 0 && s.rec.slots[k].status != None ==>
                  var o := s.rec.slots[k];
                  o.wcid < MACS && o.tid < TIDS
                  && r.rec.slots[k].status == None && r.rec.index[o.wcid][o.tid] == 0 && o.tid in r.rec.bits[o.wcid])
  {
    hide LiveCount;
    var k := s.ori.index[w][t - TIDS];
    var r := WideDelBa(s, w, t);
    assert IndexOk(s.ori, w, t - TIDS);
    if k != 0 {
      assert SlotOk(s.rec, k);
      var o := s.rec.slots[k];
      if o.status != None {
        assert IndexOk(s.rec, o.wcid, o.tid);
        assert !IndexOk(r.rec, o.wcid, o.tid);
      }
    }
  }

  // --- Runs with any TID a frame can carry ---

  datatype WideEvent = Narrow(e: Event) | Request8(w: nat, t: nat, win: int) | DelBa8(w: nat, t: nat)

  predicate WideEnabled(s: Tables, e: WideEvent) {
    match e
    case Narrow(e) => Enabled(s, e)
    case Request8(w, t, _) => w < MACS && TIDS <= t < 2 * TIDS
    case DelBa8(w, t) => w < MACS && TIDS <= t < 2 * TIDS
  }

  function WideStep(s: Tables, e: WideEvent): Tables
    requires TablesInv(s) && WideEnabled(s, e)
  {
    match e
    case Narrow(e) => Step(s, e)
    case Request8(w, t, win) => WideAdd(s, w, t, win).0
    case DelBa8(w, t) => WideDelBa(s, w, t)
  }

  predicate Harmless(s: Tables, e: WideEvent)
    requires TablesInv(s) && WideEnabled(s, e)
  {
    match e
    case Narrow(e) => true
    case Request8(w, t, win) => s.ori.index[w][t - TIDS] == 0 && s.rec.count == MAX_BARECI_SESSION
    case DelBa8(w, t) =>
      var k := s.ori.index[w][t - TIDS];
      assert IndexOk(s.ori, w, t - TIDS);
      k == 0 || s.rec.slots[k].status == None
  }

  lemma WideStepKeepsInvIff(s: Tables, e: WideEvent)
    requires TablesInv(s) && WideEnabled(s, e)
    ensures TablesInv(WideStep(s, e)) <==> Harmless(s, e)
  {
    hide LiveCount, Step;
    match e
    case Narrow(e) => StepKeepsInv(s, e);
    case Request8(w, t, win) => WideAddKeepsInvIff(s, w, t, win);
    case DelBa8(w, t) => WideDelBaKeepsInvIff(s, w, t);
  }

  predicate HarmlessRun(s: Tables, es: seq<WideEvent>)
    requires TablesInv(s)
    decreases |es|
  {
    es == []
    || (WideEnabled(s, es[0]) && Harmless(s, es[0])
        && (WideStepKeepsInvIff(s, es[0]); HarmlessRun(WideStep(s, es[0]), es[1..])))
  }

  function WideRun(s: Tables, es: seq<WideEvent>): (r: Tables)
    requires TablesInv(s) && HarmlessRun(s, es)
    ensures TablesInv(r)
    decreases |es|
  {
    if es == [] then s else (WideStepKeepsInvIff(s, es[0]); WideRun(WideStep(s, es[0]), es[1..]))
  }

  // Over any run from power-up, whatever the TIDs, in which every frame with a wide TID is
  // harmless, the tables agree.
  lemma WideTablesAgree(es: seq<WideEvent>, w: nat, t: nat)
    requires HarmlessRun(PowerUp(), es) && w < MACS && t < TIDS
    ensures var r := WideRun(PowerUp(), es);
            Agreement(r, w, t) && r.ori.count == LiveCount(r.ori.slots)
            && r.rec.count == LiveCount(r.rec.slots) <= MAX_BARECI_SESSION
  {
    hide WideRun, HarmlessRun, PowerUp, LiveCount;
    InvAgrees(WideRun(PowerUp(), es), w, t);
  }

  // --- Inputs ---

  // A request for TID 8 at power-up.
  lemma WideRequestBreaks()
    ensures var (r, ok) := WideAdd(PowerUp(), 1, 8, 16);
            ok && r.ori.index[1][0] != 0 && r.ori.slots[r.ori.index[1][0]].status == None && !Agrees(r.ori)
  {
    var s := PowerUp();
    FreshSlot(1);
    assert s.ori.index[1][0] == 0 && s.rec.count == 0;
    WideNewDisagrees(s, 1, 8, 16);
    AllocatorFinds(s.rec);
    hide LiveCount, SideInv;
    assert forall k :: 0 <= k < SLOTS ==> s.ori.slots[k].status == None;
  }

  predicate TwoLive(s: Tables) {
    Shape(s.ori) && Shape(s.rec) && s.ori.index[1][0] == 1 && s.rec.index[2][0] == 1
    && s.rec.slots[1].status == Active && s.rec.slots[1].wcid == 2 && s.rec.slots[1].tid == 0
  }

  lemma SetUpTaken(d: Side)
    requires SideInv(d) && d.index[1][0] == 0 && d.slots[1].status == None && d.count == 0
    ensures var o := OriSetUp(d, 1, 0, true, 16); Shape(o) && o.index[1][0] == 1
  {
    OriSetUpIs(d, 1, 0, 16);
    hide LiveCount, SideInv, OriSetUp;
    assert FirstFree(d.slots, 1) == 1;
  }

  lemma RequestTaken(d: Side)
    requires RecInv(d) && d.index[2][0] == 0 && d.slots[1].status == None && d.count == 0
    ensures var (e, ok) := RecAdd(d, 2, 0, 16);
            ok && Shape(e) && e.index[2][0] == 1
            && e.slots[1].status == Active && e.slots[1].wcid == 2 && e.slots[1].tid == 0
  {
    RecAddIs(d, 2, 0, 16);
    hide LiveCount, SideInv, RecAdd;
    assert FirstFree(d.slots, 1) == 1;
  }

  // Where nothing has happened yet.
  predicate Unused(s: Tables) {
    Shape(s.ori) && Shape(s.rec) && s.ori.count == 0 && s.rec.count == 0
    && s.ori.index[1][0] == 0 && s.rec.index[2][0] == 0
    && s.ori.slots[1].status == None && s.rec.slots[1].status == None
  }

  lemma PowerUpUnused()
    ensures Unused(PowerUp())
  {
    FreshSlot(1);
  }

  // A session offered to peer 1 and one accepted from peer 2, both of TID 0.
  const TWO_SESSIONS: seq<Event> := [SetUp(1, 0, true, 16), Request(2, 0, 16)]

  lemma RunNone(s: Tables)
    requires TablesInv(s)
    ensures RunEnabled(s, []) && Run(s, []) == s
  {
  }

  lemma RunFirst(s: Tables, es: seq<Event>)
    requires TablesInv(s) && es != [] && Enabled(s, es[0]) && TablesInv(Step(s, es[0]))
    ensures RunEnabled(s, es) <==> RunEnabled(Step(s, es[0]), es[1..])
    ensures RunEnabled(s, es) ==> Run(s, es) == Run(Step(s, es[0]), es[1..])
  {
    hide Step, Enabled, TablesInv;
  }

  lemma RunTwoSessions(s: Tables) returns (t: Tables)
    requires TablesInv(s) && Unused(s)
    ensures RunEnabled(s, TWO_SESSIONS) && t == Run(s, TWO_SESSIONS) && TablesInv(t) && TwoLive(t)
  {
    var e, f := TWO_SESSIONS[0], TWO_SESSIONS[1];
    SetUpTaken(s.ori);
    RequestTaken(s.rec);
    StepKeepsInv(s, e);
    var u := Step(s, e);
    StepKeepsInv(u, f);
    t := Step(u, f);
    hide OriSetUp, RecAdd, LiveCount, SideInv, Run, RunEnabled;
    assert TWO_SESSIONS[1..] == [f] && [f][1..] == [];
    RunNone(t);
    RunFirst(u, [f]);
    RunFirst(s, TWO_SESSIONS);
  }

  // After it peer 1 sends a DELBA for TID 8, and the session of peer 2 is gone: its entry is
  // free, its index cleared, its bit still set.
  lemma WideDelBaBreaks() returns (s: Tables, r: Tables)
    ensures RunEnabled(PowerUp(), TWO_SESSIONS) && s == Run(PowerUp(), TWO_SESSIONS) && r == WideDelBa(s, 1, 8)
    ensures TwoLive(s) && Shape(r.rec) && r.rec.slots[1].status == None && r.rec.index[2][0] == 0 && 0 in r.rec.bits[2]
    ensures !TablesInv(r)
  {
    PowerUpUnused();
    hide PowerUp, RunEnabled, Run, LiveCount;
    s := RunTwoSessions(PowerUp());
    r := WideDelBa(s, 1, 8);
    assert SlotOk(s.rec, 1);
    WideDelBaKeepsInvIff(s, 1, 8);
  }
}
