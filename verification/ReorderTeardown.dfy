// Setting up and tearing down sessions step by step: without a frame in between the steps make
// one whole, with one a teardown can lose a block and a packet.
module ReorderTeardown {
  import opened ReorderModel
  import opened ReorderCircular
  import opened ReorderAdapter

  lemma {:induction false} RunJoin(a: Adapter, es: seq<AdapterEvent>, fs: seq<AdapterEvent>, hz: nat)
    requires AdapterRunOk(a, es, hz) && AdapterRunOk(AdapterRun(a, es, hz), fs, hz)
    ensures AdapterRunOk(a, es + fs, hz) && AdapterRun(a, es + fs, hz) == AdapterRun(AdapterRun(a, es, hz), fs, hz)
    decreases |es|
  {
    hide AdapterStep, Possible;
    if es == [] {
      assert es + fs == fs;
    } else {
      assert (es + fs)[0] == es[0] && (es + fs)[1..] == es[1..] + fs;
      RunJoin(AdapterStep(a, es[0], hz), es[1..], fs, hz);
    }
  }

  lemma RunThree(a: Adapter, e1: AdapterEvent, e2: AdapterEvent, e3: AdapterEvent, hz: nat, b: Adapter, c: Adapter,
                 d: Adapter)
    requires Possible(a, e1) && b == AdapterStep(a, e1, hz)
    requires Possible(b, e2) && c == AdapterStep(b, e2, hz)
    requires Possible(c, e3) && d == AdapterStep(c, e3, hz)
    ensures var es := [e1, e2, e3];
            && AdapterRunOk(a, es, hz) && AdapterRun(a, es, hz) == d
            && (HealthyRun(a, es, hz) <==> Healthy(a, e1) && Healthy(b, e2) && Healthy(c, e3))
  {
    hide AdapterStep, Possible, Healthy;
    var es := [e1, e2, e3];
    assert es[1..] == [e2, e3] && es[1..][1..] == [e3] && es[1..][1..][1..] == [];
    assert AdapterRunOk(d, [], hz) && AdapterRun(d, [], hz) == d && HealthyRun(d, [], hz);
    assert AdapterRunOk(c, [e3], hz) && AdapterRun(c, [e3], hz) == d && (HealthyRun(c, [e3], hz) <==> Healthy(c, e3));
    assert AdapterRunOk(b, [e2, e3], hz) && AdapterRun(b, [e2, e3], hz) == d;
    assert HealthyRun(b, [e2, e3], hz) <==> Healthy(b, e2) && Healthy(c, e3);
  }

  // BARecSessionTearDown as one step.
  function TornDown(a: Adapter, j: nat): Adapter
    requires j < |a.sessions|
  {
    Store(a, j, Vacant, ReAdd(RxOf(a, j), 0)).(num := a.num - 1)
  }

  // BARecSessionAdd on a live session as one step.
  function SetUpAgain(a: Adapter, i: nat, win: int): Adapter
    requires i < |a.sessions|
  {
    Store(a, i, Live, ReAdd(RxOf(a, i), win))
  }

  lemma StoreTwice(a: Adapter, i: nat, p: Phase, s: Rx, q: Phase, t: Rx)
    requires i < |a.sessions|
    ensures RxOf(Store(a, i, p, s), i) == s && Store(Store(a, i, p, s), i, q, t) == Store(a, i, q, t)
  {
  }

  lemma RefreshEmpties(s: Rx)
    ensures Refresh(s).list == []
  {
  }

  // With nothing in between, the steps of a teardown are that step, and each of them keeps
  // the invariant.
  lemma TornDownInSteps(a: Adapter, j: nat, hz: nat)
    requires AdapterInv(a) && j < |a.sessions| && a.sessions[j].phase == Live
    ensures var es := [On(j, Flushed), Clear(j), Vacate(j)];
            AdapterRunOk(a, es, hz) && HealthyRun(a, es, hz) && AdapterRun(a, es, hz) == TornDown(a, j)
  {
    hide Refresh, Store, RxOf, AdapterInv;
    var s := RxOf(a, j);
    var r, t := Refresh(s), Mark(Resize(Refresh(s), 0));
    RefreshEmpties(s);
    var b, c := Store(a, j, Live, r), Store(a, j, Taken, t);
    Stored(a, j, Live, r);
    Stored(a, j, Taken, t);
    StoreTwice(a, j, Live, r, Taken, t);
    StoreTwice(a, j, Taken, t, Vacant, t);
    ReAddInParts(s, 0);
    RunThree(a, On(j, Flushed), Clear(j), Vacate(j), hz, b, c, Store(a, j, Vacant, t).(num := a.num - 1));
  }

  lemma Stored(a: Adapter, i: nat, p: Phase, s: Rx)
    requires i < |a.sessions|
    ensures var b := Store(a, i, p, s);
            |b.sessions| == |a.sessions| && b.num == a.num
            && b.sessions[i] == Session(p, s.list, s.last, s.win, s.timer, s.drops)
  {
  }

  // So are those of a new set-up.
  lemma SetUpAgainInSteps(a: Adapter, i: nat, win: int, hz: nat)
    requires AdapterInv(a) && i < |a.sessions| && a.sessions[i].phase == Live && 1 <= win <= MAX_BA_WIN
    ensures var es := [On(i, Flushed), On(i, Resized(win)), On(i, Marked)];
            AdapterRunOk(a, es, hz) && HealthyRun(a, es, hz) && AdapterRun(a, es, hz) == SetUpAgain(a, i, win)
  {
    hide Refresh, Store, RxOf, AdapterInv;
    var s := RxOf(a, i);
    var r := Refresh(s);
    var t, u := Resize(r, win), Mark(Resize(r, win));
    RefreshEmpties(s);
    Stored(a, i, Live, r);
    Stored(a, i, Live, t);
    StoreTwice(a, i, Live, r, Live, t);
    StoreTwice(a, i, Live, t, Live, u);
    ReAddInParts(s, win);
    RunThree(a, On(i, Flushed), On(i, Resized(win)), On(i, Marked), hz, Store(a, i, Live, r), Store(a, i, Live, t),
             Store(a, i, Live, u));
  }

  // --- A frame that comes in between ---

  // One entry to give out and one block.  A session is set up, flushed by a teardown, and
  // before the entry is cleared the frames 10 and 12 come in.
  const SET_UP: seq<AdapterEvent> := [Reserve, On(1, Resized(64)), Enter(1)]
  const BETWEEN: seq<AdapterEvent> := [On(1, Flushed), On(1, Data(Frame(10, 100), 0)), On(1, Data(Frame(12, 101), 0))]
  const CLEARED: seq<AdapterEvent> := [Clear(1), Vacate(1)]
  const LEAK: seq<AdapterEvent> := SET_UP + BETWEEN + CLEARED

  // The adapter with entry 1 as given.
  function With(s: Session, num: int, free: seq<nat>, up: seq<Frame>): Adapter {
    Adapter([Session(Vacant, [], Reset, 0, 0, 0), s], num, free, up, [])
  }

  lemma RunTwo(a: Adapter, e1: AdapterEvent, e2: AdapterEvent, hz: nat, b: Adapter, c: Adapter)
    requires Possible(a, e1) && b == AdapterStep(a, e1, hz)
    requires Possible(b, e2) && c == AdapterStep(b, e2, hz)
    ensures AdapterRunOk(a, [e1, e2], hz) && AdapterRun(a, [e1, e2], hz) == c
  {
    hide AdapterStep, Possible;
    assert [e1, e2][1..] == [e2] && [e1, e2][1..][1..] == [];
    assert AdapterRunOk(c, [], hz) && AdapterRun(c, [], hz) == c;
    assert AdapterRunOk(b, [e2], hz) && AdapterRun(b, [e2], hz) == c;
  }

  lemma StoreWith(s: Session, num: int, free: seq<nat>, up: seq<Frame>, p: Phase, t: Rx)
    requires t.released == []
    ensures Store(With(s, num, free, up), 1, p, t)
         == With(Session(p, t.list, t.last, t.win, t.timer, t.drops), num, t.free, t.up)
    ensures RxOf(With(s, num, free, up), 1) == Rx(s.list, s.last, s.win, s.timer, s.drops, free, up, [])
  {
  }

  const HELD: seq<Mpdu> := [Mpdu(0, 12, 101)]
  const PASSED: seq<Frame> := [Frame(10, 100)]

  lemma RunSetUp(l: seq<Mpdu>, last: Last, win: int, free: seq<nat>, up: seq<Frame>, hz: nat)
    ensures var a := With(Session(Vacant, l, last, win, 0, 0), 0, free, up);
            AdapterRunOk(a, SET_UP, hz)
            && AdapterRun(a, SET_UP, hz) == With(Session(Live, l, Reset, 64, 0, 0), 1, free, up)
  {
    var a := With(Session(Vacant, l, last, win, 0, 0), 0, free, up);
    var t := Session(Taken, l, last, win, 0, 0);
    var b, c := With(t, 1, free, up), With(t.(win := 64), 1, free, up);
    assert FirstVacant(a.sessions, 1) == 1;
    assert ReserveEntry(a) == b;
    var s := Rx(l, last, 64, 0, 0, free, up, []);
    StoreWith(t, 1, free, up, Taken, s);
    StoreWith(t.(win := 64), 1, free, up, Live, Mark(s));
    hide With, Store, RxOf;
    RunThree(a, Reserve, On(1, Resized(64)), Enter(1), hz, b, c, With(Session(Live, l, Reset, 64, 0, 0), 1, free, up));
  }

  lemma FlushNothing(s: Rx)
    requires s.list == [] && s.last.Reset?
    ensures Refresh(s) == s
  {
    assert s.list[..0] == [] && s.list[0..] == [] && s.up + Ups([]) == s.up;
  }

  lemma FirstFrame(s: Rx)
    requires s.last.Reset? && s.timer == 0 && s.up == []
    ensures Arrive(Circular, s, Frame(10, 100), 0) == s.(last := At(10), up := PASSED)
  {
    assert [] + [Frame(10, 100)] == PASSED;
  }

  lemma SecondFrame(s: Rx)
    requires s.last == At(10) && s.win == 64 && s.timer == 0 && s.list == [] && s.free == [0]
    ensures Arrive(Circular, s, Frame(12, 101), 0) == s.(list := HELD, free := [])
  {
    assert InsertPos(Circular, s.list, 12) == 0;
    assert s.list[..0] + [Mpdu(0, 12, 101)] + s.list[0..] == HELD && s.free[1..] == [];
    hide InsertPos, Surpass, DrainInOrder, MoveTo;
    assert s.(timer := 0) == s;
    assert Arrive(Circular, s, Frame(12, 101), 0) == Enqueue(Circular, s, Frame(12, 101));
  }

  lemma RunBetween(hz: nat)
    ensures var a := With(Session(Live, [], Reset, 64, 0, 0), 1, [0], []);
            AdapterRunOk(a, BETWEEN, hz)
            && AdapterRun(a, BETWEEN, hz) == With(Session(Live, HELD, At(10), 64, 0, 0), 1, [], PASSED)
  {
    var v := Session(Live, [], Reset, 64, 0, 0);
    var a, c := With(v, 1, [0], []), With(v.(last := At(10)), 1, [0], PASSED);
    var s := Rx([], Reset, 64, 0, 0, [0], [], []);
    var t := s.(last := At(10), up := PASSED);
    FlushNothing(s);
    FirstFrame(s);
    SecondFrame(t);
    StoreWith(v, 1, [0], [], Live, s);
    StoreWith(v, 1, [0], [], Live, t);
    StoreWith(v.(last := At(10)), 1, [0], PASSED, Live, t.(list := HELD, free := []));
    WithShape(v, 1, [0], []);
    WithShape(v.(last := At(10)), 1, [0], PASSED);
    hide With, Store, RxOf, Refresh, Arrive;
    RunThree(a, BETWEEN[0], BETWEEN[1], BETWEEN[2], hz, a, c,
             With(Session(Live, HELD, At(10), 64, 0, 0), 1, [], PASSED));
  }

  lemma WithShape(s: Session, num: int, free: seq<nat>, up: seq<Frame>)
    ensures |With(s, num, free, up).sessions| == 2 && With(s, num, free, up).sessions[1] == s
  {
  }

  lemma RunCleared(hz: nat)
    ensures var a := With(Session(Live, HELD, At(10), 64, 0, 0), 1, [], PASSED);
            AdapterRunOk(a, CLEARED, hz)
            && AdapterRun(a, CLEARED, hz) == With(Session(Vacant, HELD, Reset, 0, 0, 0), 0, [], PASSED)
  {
    var v := Session(Live, HELD, At(10), 64, 0, 0);
    var u := Session(Taken, HELD, Reset, 0, 0, 0);
    var s := Rx(HELD, Reset, 0, 0, 0, [], PASSED, []);
    StoreWith(v, 1, [], PASSED, Taken, s);
    StoreWith(u, 1, [], PASSED, Vacant, s);
    WithShape(v, 1, [], PASSED);
    WithShape(u, 1, [], PASSED);
    var b := With(u, 1, [], PASSED);
    var c := With(Session(Vacant, HELD, Reset, 0, 0, 0), 1, [], PASSED).(num := 0);
    assert c == With(Session(Vacant, HELD, Reset, 0, 0, 0), 0, [], PASSED);
    hide Store, RxOf;
    RunTwo(With(v, 1, [], PASSED), Clear(1), Vacate(1), hz, b, c);
  }

  // After it the entry is vacant and holds frame 12.  Shut-down passes it over: the block is
  // missing, the packet is neither passed up nor released.
  lemma FrameBetweenLeaks(hz: nat)
    ensures AdapterRunOk(Booted(2, 1), LEAK, hz)
    ensures var a := AdapterRun(Booted(2, 1), LEAK, hz); var b := ShutDown(a, 0);
            a == With(Session(Vacant, HELD, Reset, 0, 0, 0), 0, [], PASSED)
            && !BlocksBack(b, 1) && !PacketsSettled(b, LEAK)
  {
    RunLeak(hz);
    hide ShutDown, AdapterRun, BlocksBack, PacketsSettled;
    var a := AdapterRun(Booted(2, 1), LEAK, hz);
    WithShape(Session(Vacant, HELD, Reset, 0, 0, 0), 0, [], PASSED);
    assert !VacantEmpty(a) by { assert a.sessions[1].list != []; }
    NothingLeaksIff(2, 1, LEAK, hz);
  }

  lemma BootedIs()
    ensures Booted(2, 1) == With(Session(Vacant, [], Reset, 0, 0, 0), 0, [0], [])
  {
    assert FreshPool(1) == [0] + FreshPool(0) == [0];
  }

  lemma RunLeak(hz: nat)
    ensures AdapterRunOk(Booted(2, 1), LEAK, hz)
    ensures AdapterRun(Booted(2, 1), LEAK, hz) == With(Session(Vacant, HELD, Reset, 0, 0, 0), 0, [], PASSED)
  {
    BootedIs();
    RunSetUp([], Reset, 0, [0], [], hz);
    RunBetween(hz);
    RunCleared(hz);
    hide With, AdapterRun, AdapterRunOk, Booted;
    RunJoin(Booted(2, 1), SET_UP, BETWEEN, hz);
    RunJoin(Booted(2, 1), SET_UP + BETWEEN, CLEARED, hz);
  }

  // The next session that is given the entry starts at the reset mark with frame 12 on its
  // list.
  lemma LeakIsInherited(hz: nat)
    ensures AdapterRunOk(Booted(2, 1), LEAK + SET_UP, hz)
    ensures var a := AdapterRun(Booted(2, 1), LEAK + SET_UP, hz);
            a == With(Session(Live, HELD, Reset, 64, 0, 0), 1, [], PASSED) && !AdapterInv(a)
  {
    RunLeak(hz);
    RunSetUp(HELD, Reset, 0, [], PASSED, hz);
    RunJoin(Booted(2, 1), LEAK, SET_UP, hz);
    hide AdapterRun, AdapterRunOk, Booted;
    var a := AdapterRun(Booted(2, 1), LEAK + SET_UP, hz);
    assert !SessionOk(a, 1);
  }
}
