// RTMPDeQueuePacket with CanDoAggregateTransmit (common/cmm_data.c).
module Transmit {
  const NUM_OF_TX_RING: nat := 5
  const MAX_AMSDU: nat := 3740 // RX_BUFFER_AGGRESIZE - 100

  datatype FrameType = Mcast | Legacy | Ampdu | AmsduFrame | Ralink | Frag

  datatype Packet = Packet(id: nat, len: nat, wcid: nat, mcast: bool, dhcp: bool, eapol: bool, wai: bool,
                           lowRate: bool, moreData: bool, up: nat, atLeastRate6: bool, fragments: nat)

  datatype Peer = Peer(ht: bool, powerSave: bool, txBa: set<nat>, amsduInUse: bool, aggregation: bool, wmm: bool)

  // What does not change while the queues are served.
  datatype Setting = Setting(peers: nat -> Peer, aggregationCapable: bool, wmmInUse: bool, infrastructure: bool)

  // --- TxPktClassification ---

  function Classify(s: Setting, p: Packet): FrameType {
    var peer := s.peers(p.wcid);
    if p.mcast then Mcast
    else if !p.lowRate && peer.ht && !p.moreData && !peer.powerSave && p.up in peer.txBa then Ampdu
    else if !p.lowRate && peer.ht && !p.moreData && !peer.powerSave && peer.amsduInUse then AmsduFrame
    else if !p.lowRate && !peer.ht && peer.aggregation && s.aggregationCapable && p.atLeastRate6
            && !(s.wmmInUse && peer.wmm) then Ralink
    else if p.fragments > 1 then Frag
    else Legacy
  }

  predicate Aggregates(t: FrameType) { t == Ralink || t == AmsduFrame }

  // CanDoAggregateTransmit; total is the 16-bit TotalFrameLen.
  predicate CanAggregate(s: Setting, p: Packet, t: FrameType, total: nat, number: nat) {
    !p.mcast && !p.dhcp && !p.eapol && !p.wai
    && !(t == AmsduFrame && total + p.len > MAX_AMSDU)
    && !(t == Ralink && number == 2)
    && s.infrastructure
  }

  // --- What is promised of a batch ---

  datatype Batch = Batch(kind: FrameType, packets: seq<Packet>)

  function Total(ps: seq<Packet>): nat {
    if ps == [] then 0 else Total(ps[..|ps| - 1]) + ps[|ps| - 1].len
  }

  // TotalFrameLen holds 16 bits.
  function Total16(ps: seq<Packet>): nat {
    if ps == [] then 0 else (Total16(ps[..|ps| - 1]) + ps[|ps| - 1].len) % 0x1_0000
  }

  // The packets after the first were admitted one by one.
  predicate Admitted(s: Setting, t: FrameType, ps: seq<Packet>) {
    |ps| <= 1 || (Admitted(s, t, ps[..|ps| - 1])
                  && CanAggregate(s, ps[|ps| - 1], t, Total16(ps[..|ps| - 1]), |ps| - 1))
  }

  // A batch starts with a packet of its own type and has more only if the type aggregates; an
  // aggregate of one packet is sent as legacy frame.
  predicate BatchOk(s: Setting, b: Batch) {
    b.packets != []
    && var t := Classify(s, b.packets[0]);
       Admitted(s, t, b.packets)
       && (|b.packets| > 1 ==> Aggregates(t) && b.kind == t)
       && (|b.packets| == 1 ==> b.kind == if Aggregates(t) then Legacy else t)
  }

  // Only the first packet can have made the 16-bit total wrap.
  lemma {:induction false} TotalsDiffer(s: Setting, ps: seq<Packet>)
    requires Admitted(s, AmsduFrame, ps) && ps != []
    ensures Total(ps) == Total16(ps) + ps[0].len / 0x1_0000 * 0x1_0000
    ensures |ps| > 1 ==> Total16(ps) <= MAX_AMSDU
  {
    hide Classify;
    var front := ps[..|ps| - 1];
    if |ps| > 1 {
      TotalsDiffer(s, front);
      assert front[0] == ps[0];
    } else {
      assert front == [];
    }
  }

  // An A-MSDU of two packets or more fits the receiver's buffer if and only if the length of
  // its first packet has 16 bits.
  lemma AmsduFitsIff(s: Setting, b: Batch)
    requires BatchOk(s, b) && b.kind == AmsduFrame
    ensures |b.packets| >= 2
    ensures Total(b.packets) <= MAX_AMSDU <==> b.packets[0].len < 0x1_0000
  {
    TotalsDiffer(s, b.packets);
  }

  // A longer packet in front makes the check pass by what its length leaves of 65536.  The
  // network stack hands over no such packet, its limit being the MTU of the interface, so for
  // what it hands over the limit holds.
  lemma LongPacketSlips(s: Setting, p: Packet, q: Packet)
    requires s.infrastructure && p.len == 0x1_0000 && q.len == 100 && Classify(s, p) == AmsduFrame
    requires !q.mcast && !q.dhcp && !q.eapol && !q.wai
    ensures var b := Batch(AmsduFrame, [p, q]); BatchOk(s, b) && Total(b.packets) > MAX_AMSDU
  {
    var ps := [p, q];
    assert ps[..|ps| - 1] == [p] && [p][..|[p]| - 1] == [];
    assert Total([p]) == p.len;
    assert Total16([p]) == (Total16([]) + p.len) % 0x1_0000 == 0;
    assert Admitted(s, AmsduFrame, [p]);
    assert CanAggregate(s, q, AmsduFrame, 0, 1);
  }

  lemma {:induction false} RalinkAtMostTwo(s: Setting, ps: seq<Packet>)
    requires Admitted(s, Ralink, ps)
    ensures |ps| <= 2
  {
    if |ps| > 2 {
      RalinkAtMostTwo(s, ps[..|ps| - 1]);
    }
  }

  lemma RalinkIsPair(s: Setting, b: Batch)
    requires BatchOk(s, b) && b.kind == Ralink
    ensures |b.packets| == 2
  {
    RalinkAtMostTwo(s, b.packets);
  }

  lemma {:induction false} AdmittedAreOrdinary(s: Setting, t: FrameType, ps: seq<Packet>, i: nat)
    requires Admitted(s, t, ps) && 1 <= i < |ps|
    ensures !ps[i].mcast && !ps[i].dhcp && !ps[i].eapol && !ps[i].wai
  {
    if i < |ps| - 1 {
      AdmittedAreOrdinary(s, t, ps[..|ps| - 1], i);
    }
  }

  // Packets are aggregated for the access point of an infrastructure network only.
  lemma AggregatesGoToAp(s: Setting, b: Batch)
    requires BatchOk(s, b) && Aggregates(b.kind)
    ensures s.infrastructure
  {
    hide Classify, Total16;
  }

  // Nothing that is sent in an aggregate is a group frame, nor a DHCP, EAPOL or WAI frame,
  // since those are marked for the low rate.
  lemma AggregatesAreOrdinary(s: Setting, b: Batch, i: nat)
    requires BatchOk(s, b) && Aggregates(b.kind) && i < |b.packets|
    requires forall p :: p in b.packets && (p.dhcp || p.eapol || p.wai) ==> p.lowRate
    ensures var p := b.packets[i]; !p.mcast && !p.dhcp && !p.eapol && !p.wai
  {
    if i == 0 {
      assert b.packets[0] in b.packets;
    } else {
      AdmittedAreOrdinary(s, Classify(s, b.packets[0]), b.packets, i);
    }
  }

  // What goes out as an A-MPDU, an A-MSDU or a Ralink aggregate is for a station that can take
  // it: one with a session of that priority, one that takes A-MSDUs, or an older one that
  // takes Ralink aggregates.  Group frames and fragmented packets go alone, and a fragmented
  // packet goes as such unless it could have been aggregated.
  lemma KindsAre(s: Setting, b: Batch)
    requires BatchOk(s, b)
    ensures var p := b.packets[0]; var peer := s.peers(p.wcid);
            && (p.mcast <==> b.kind == Mcast)
            && (b.kind in {Mcast, Ampdu, Frag} ==> |b.packets| == 1)
            && (b.kind in {Ampdu, AmsduFrame} ==> peer.ht && !peer.powerSave && !p.lowRate && !p.moreData)
            && (b.kind == Ampdu ==> p.up in peer.txBa)
            && (b.kind == AmsduFrame ==> p.up !in peer.txBa && peer.amsduInUse)
            && (b.kind == Ralink ==>
                  !peer.ht && peer.aggregation && s.aggregationCapable && !p.lowRate && p.atLeastRate6
                  && !(s.wmmInUse && peer.wmm))
            && (b.kind == Frag ==> p.fragments > 1)
            && (b.kind == Legacy && p.fragments > 1 ==> Aggregates(Classify(s, p)))
  {
    assert b.kind == Classify(s, b.packets[0]) || b.kind == Legacy;
    hide Admitted;
  }

  // Every packet for such a session that is sent goes out as an A-MPDU.
  lemma SessionIsUsed(s: Setting, b: Batch)
    requires BatchOk(s, b)
    ensures var p := b.packets[0]; var peer := s.peers(p.wcid);
            !p.mcast && !p.lowRate && peer.ht && !p.moreData && !peer.powerSave && p.up in peer.txBa ==> b.kind == Ampdu
  {
    hide Admitted;
  }

  // --- The queues ---

  function Sent(bs: seq<Batch>): seq<Packet> {
    if bs == [] then [] else Sent(bs[..|bs| - 1]) + bs[|bs| - 1].packets
  }

  predicate AllOk(s: Setting, bs: seq<Batch>) {
    forall b :: b in bs ==> BatchOk(s, b)
  }

  predicate Full(s: Setting, ps: seq<Packet>, rest: seq<Packet>) {
    ps != [] && rest != [] ==>
      var t := Classify(s, ps[0]);
      Aggregates(t) ==> !CanAggregate(s, rest[0], t, Total16(ps), |ps|)
  }

  // Between two batches the lock is free, and packets can join the queues.
  datatype Arrival = Arrival(to: nat, p: Packet)

  predicate ToQueues(joined: seq<Arrival>) {
    forall a :: a in joined ==> a.to < NUM_OF_TX_RING
  }

  // What joins queue k, in order.
  function Of(joined: seq<Arrival>, k: nat): seq<Packet> {
    if joined == [] then []
    else Of(joined[..|joined| - 1], k)
         + (if joined[|joined| - 1].to == k then [joined[|joined| - 1].p] else [])
  }

  // Everything queue k has held once n packets have joined the queues.
  function Held(was: seq<Packet>, joined: seq<Arrival>, k: nat, n: nat): seq<Packet>
    requires n <= |joined|
  {
    was + Of(joined[..n], k)
  }

  lemma {:induction false} OfJoin(a: seq<Arrival>, b: seq<Arrival>, k: nat)
    ensures Of(a + b, k) == Of(a, k) + Of(b, k)
  {
    if b == [] {
      assert a + b == a;
    } else {
      var front := b[..|b| - 1];
      assert (a + b)[..|a + b| - 1] == a + front;
      OfJoin(a, front, k);
    }
  }

  lemma {:induction false} OfAtMost(a: seq<Arrival>, k: nat)
    ensures |Of(a, k)| <= |a|
  {
    if a == [] {
    } else {
      OfAtMost(a[..|a| - 1], k);
    }
  }

  lemma OfParts(a: seq<Arrival>, l: nat, m: nat, n: nat, k: nat)
    requires l <= m <= n <= |a|
    ensures Of(a[l..n], k) == Of(a[l..m], k) + Of(a[m..n], k)
  {
    assert a[l..n] == a[l..m] + a[m..n];
    OfJoin(a[l..m], a[m..n], k);
  }

  lemma HeldMore(was: seq<Packet>, joined: seq<Arrival>, k: nat, m: nat, n: nat)
    requires m <= n <= |joined|
    ensures Held(was, joined, k, n) == Held(was, joined, k, m) + Of(joined[m..n], k)
  {
    assert joined[..n] == joined[..m] + joined[m..n];
    OfJoin(joined[..m], joined[m..n], k);
  }

  lemma OfNext(a: seq<Arrival>, m: nat, n: nat)
    requires m <= n < |a|
    ensures forall k :: Of(a[m..n + 1], k) == Of(a[m..n], k) + (if a[n].to == k then [a[n].p] else [])
  {
    assert a[m..n + 1][..n - m] == a[m..n];
  }

  // From a to b the queues but queue i have grown by what joined between m and n.
  predicate Grown(a: seq<seq<Packet>>, b: seq<seq<Packet>>, joined: seq<Arrival>, m: nat, n: nat, i: nat)
    requires m <= n <= |joined|
  {
    |a| == |b| && forall k :: 0 <= k < |a| && k != i ==> b[k] == a[k] + Of(joined[m..n], k)
  }

  lemma GrownMore(a: seq<seq<Packet>>, b: seq<seq<Packet>>, c: seq<seq<Packet>>, joined: seq<Arrival>, l: nat, m: nat,
                  n: nat, i: nat)
    requires l <= m <= n <= |joined| && Grown(a, b, joined, l, m, i) && Grown(b, c, joined, m, n, |b|)
    ensures Grown(a, c, joined, l, n, i)
  {
    hide Of;
    forall k | 0 <= k < |a| && k != i ensures c[k] == a[k] + Of(joined[l..n], k) {
      OfParts(joined, l, m, n, k);
    }
  }

  lemma GrownElse(a: seq<seq<Packet>>, b: seq<seq<Packet>>, c: seq<seq<Packet>>, joined: seq<Arrival>, m: nat, n: nat,
                  i: nat)
    requires m <= n <= |joined| && Grown(a, b, joined, m, n, i)
    requires |c| == |b| && forall k :: 0 <= k < |b| && k != i ==> c[k] == b[k]
    ensures Grown(a, c, joined, m, n, i)
  {
    hide Of;
  }

  lemma GrownNot(a: seq<seq<Packet>>, joined: seq<Arrival>, m: nat, i: nat)
    requires m <= |joined|
    ensures Grown(a, a, joined, m, m, i)
  {
    assert joined[m..m] == [];
  }

  // What was sent of all a queue has held, and what is left of it.
  predicate Parts(s: Setting, all: seq<Packet>, bs: seq<Batch>, rest: seq<Packet>) {
    Sent(bs) + rest == all && AllOk(s, bs)
  }

  // Batch j was complete when cuts[j] packets had joined the queues, and could not have been
  // longer then.
  predicate Greedy(s: Setting, was: seq<Packet>, joined: seq<Arrival>, k: nat, bs: seq<Batch>, cuts: seq<nat>) {
    |cuts| == |bs| && forall j :: 0 <= j < |bs| ==> FullAt(s, was, joined, k, bs, cuts[j], j)
  }

  predicate FullAt(s: Setting, was: seq<Packet>, joined: seq<Arrival>, k: nat, bs: seq<Batch>, cut: nat, j: nat)
    requires j < |bs|
  {
    cut <= |joined| && |Sent(bs[..j + 1])| <= |Held(was, joined, k, cut)|
    && Full(s, bs[j].packets, Held(was, joined, k, cut)[|Sent(bs[..j + 1])|..])
  }

  // Nothing more could be sent when end packets had joined.
  predicate Exhausted(s: Setting, was: seq<Packet>, joined: seq<Arrival>, k: nat, bs: seq<Batch>, cuts: seq<nat>,
                      end: nat, max: nat)
  {
    Greedy(s, was, joined, k, bs, cuts) && end <= |joined|
    && (|Sent(bs)| == |Held(was, joined, k, end)| || |Sent(bs)| % 256 >= max)
  }

  class Queues {
    // TxSwQueue and DeQueueRunning
    const queue: array<seq<Packet>>
    const running: array<bool>

    ghost predicate Valid() {
      queue.Length == running.Length == NUM_OF_TX_RING && queue as object != running
    }

    constructor ()
      ensures Valid() && fresh(queue) && fresh(running)
    {
      queue := new seq<Packet>[NUM_OF_TX_RING](_ => []);
      running := new bool[NUM_OF_TX_RING](_ => false);
    }

    // Any number of the packets that are to come join the queues.
    method JoinSome(joined: seq<Arrival>, from: nat) returns (to: nat)
      requires Valid() && from <= |joined| && ToQueues(joined)
      modifies queue
      ensures from <= to <= |joined| && Grown(old(queue[..]), queue[..], joined, from, to, NUM_OF_TX_RING)
    {
      hide Of;
      to := from;
      ghost var was := queue[..];
      GrownNot(was, joined, from, NUM_OF_TX_RING);
      while to < |joined|
        invariant from <= to <= |joined| && Grown(was, queue[..], joined, from, to, NUM_OF_TX_RING)
      {
        var more: bool := *;
        if !more {
          break;
        }
        var a := joined[to];
        assert a in joined;
        OfNext(joined, from, to);
        ghost var before := queue[..];
        queue[a.to] := queue[a.to] + [a.p];
        assert queue[..] == before[a.to := before[a.to] + [a.p]];
        to := to + 1;
      }
    }

    // The do-while loop: move packets from the queue to the batch while they can be
    // aggregated.  If plenty, descriptors never run out.
    method Extend(s: Setting, i: nat, t: FrameType, first: Packet, plenty: bool) returns (ps: seq<Packet>)
      requires Valid() && i < NUM_OF_TX_RING && t == Classify(s, first)
      modifies queue
      ensures ps + queue[i] == [first] + old(queue[i]) && ps != [] && ps[0] == first
      ensures Admitted(s, t, ps) && (plenty && Aggregates(t) ==> Full(s, ps, queue[i]))
      ensures forall k :: 0 <= k < NUM_OF_TX_RING && k != i ==> queue[k] == old(queue[k])
    {
      hide CanAggregate, Classify, Total16, Admitted;
      ps := [first];
      var total := first.len % 0x1_0000;
      AdmitFirst(s, t, first);
      while queue[i] != []
        invariant ps + queue[i] == [first] + old(queue[i]) && ps != [] && ps[0] == first
        invariant Admitted(s, t, ps) && total == Total16(ps)
        invariant forall k :: 0 <= k < NUM_OF_TX_RING && k != i ==> queue[k] == old(queue[k])
        decreases |queue[i]|
      {
        var p := queue[i][0];
        var hasTxDesc: bool := *;
        if (!hasTxDesc && !plenty) || !CanAggregate(s, p, t, total, |ps|) {
          break;
        }
        AdmitMore(s, t, ps, p);
        ghost var rest := queue[i];
        queue[i] := queue[i][1..];
        assert ps + [p] + queue[i] == ps + rest;
        total := (total + p.len) % 0x1_0000;
        ps := ps + [p];
      }
    }

    // Take the next batch off a queue that has a packet.  Nothing is taken when the packet is
    // put back to wait for more to aggregate with.
    method NextBatch(s: Setting, i: nat, calm: bool) returns (b: Batch, taken: bool)
      requires Valid() && i < NUM_OF_TX_RING && queue[i] != []
      modifies queue
      ensures taken ==> BatchOk(s, b) && b.packets + queue[i] == old(queue[i])
      ensures !taken ==> queue[i] == old(queue[i])
      ensures calm ==> taken && Full(s, b.packets, queue[i])
      ensures forall k :: 0 <= k < NUM_OF_TX_RING && k != i ==> queue[k] == old(queue[k])
    {
      hide CanAggregate, Classify;
      var pPacket := queue[i][0];
      var kind := Classify(s, pPacket);
      queue[i] := queue[i][1..];
      var packets := [pPacket];
      if Aggregates(kind) {
        var needQueueBack: bool := *;
        if kind == Ralink && needQueueBack && !calm {
          queue[i] := [pPacket] + queue[i];
          return Batch(kind, []), false;
        }
        packets := Extend(s, i, kind, pPacket, calm);
        if |packets| == 1 {
          kind := Legacy;
        }
      }
      b, taken := Batch(kind, packets), true;
    }

    // Packets that join while the lock is free.
    method JoinMore(s: Setting, i: nat, joined: seq<Arrival>, at: nat, ghost bs: seq<Batch>, ghost was: seq<Packet>)
      returns (to: nat)
      requires Valid() && i < NUM_OF_TX_RING && at <= |joined| && ToQueues(joined)
      requires Parts(s, Held(was, joined, i, at), bs, queue[i])
      modifies queue
      ensures at <= to <= |joined| && Parts(s, Held(was, joined, i, to), bs, queue[i])
      ensures |queue[i]| - to <= old(|queue[i]|) - at
      ensures Grown(old(queue[..]), queue[..], joined, at, to, NUM_OF_TX_RING)
    {
      hide Held, Of, Parts;
      to := JoinSome(joined, at);
      OfAtMost(joined[at..to], i);
      PartsGrow(s, was, joined, i, at, to, bs, old(queue[i]));
      assert queue[..][i] == old(queue[..])[i] + Of(joined[at..to], i);
    }

    // Serve one queue: the body of the for loop up to the end of its while loop.  calm says
    // that no flag is raised, no packet is put back and descriptors do not run out.
    method Serve(s: Setting, i: nat, max: nat, calm: bool, joined: seq<Arrival>, from: nat, ghost was: seq<Packet>)
      returns (bs: seq<Batch>, stopped: bool, to: nat, ghost cuts: seq<nat>)
      requires Valid() && i < NUM_OF_TX_RING && from <= |joined| && ToQueues(joined)
      requires queue[i] == Held(was, joined, i, from)
      modifies queue
      ensures from <= to <= |joined| && Parts(s, Held(was, joined, i, to), bs, queue[i])
      ensures calm ==> !stopped && Exhausted(s, was, joined, i, bs, cuts, to, max)
      ensures Grown(old(queue[..]), queue[..], joined, from, to, i)
    {
      hide BatchOk, Full, Held, Greedy, Parts, Sent, Grown;
      bs, stopped, to, cuts := [], false, from, [];
      var count := 0;
      ghost var start := queue[..];
      Nothing(s, queue[i]);
      NoneYet(s, was, joined, i);
      GrownNot(start, joined, from, i);
      while true
        invariant from <= to <= |joined| && Parts(s, Held(was, joined, i, to), bs, queue[i])
        invariant count == |Sent(bs)| % 256
        invariant calm ==> Greedy(s, was, joined, i, bs, cuts)
        invariant Grown(start, queue[..], joined, from, to, i)
        decreases |queue[i]| + (|joined| - to)
      {
        var flagged: bool := *;
        if flagged && !calm {
          return bs, true, to, cuts;
        }
        if count >= max {
          break;
        }
        ghost var at, before := to, queue[..];
        to := JoinMore(s, i, joined, to, bs, was);
        ghost var all := queue[..];
        GrownMore(start, before, all, joined, from, at, to, i);
        if queue[i] == [] {
          break;
        }
        var hasTxDesc: bool := *;
        if !hasTxDesc && !calm {
          break;
        }
        var b, taken := NextBatch(s, i, calm);
        GrownElse(start, all, queue[..], joined, from, to, i);
        if !taken {
          break;
        }
        BatchNotEmpty(s, b);
        SentMore(s, Held(was, joined, i, to), bs, b, queue[i]);
        if calm {
          GreedyMore(s, was, joined, i, bs, cuts, b, queue[i], to);
        }
        bs, cuts := bs + [b], cuts + [to];
        count := (count + |b.packets|) % 256;
      }
      PartsLength(s, Held(was, joined, i, to), bs, queue[i]);
    }

    // The body of the for loop; a queue that is being served is passed over.
    method ServeIfIdle(s: Setting, i: nat, max: nat, calm: bool, joined: seq<Arrival>, from: nat,
                       ghost was: seq<Packet>)
      returns (bs: seq<Batch>, stopped: bool, to: nat, ghost cuts: seq<nat>)
      requires Valid() && i < NUM_OF_TX_RING && from <= |joined| && ToQueues(joined)
      requires queue[i] == Held(was, joined, i, from)
      modifies queue, running
      ensures from <= to <= |joined| && Parts(s, Held(was, joined, i, to), bs, queue[i])
      ensures running[..] == old(running[..])
      ensures running[i] ==> !stopped && bs == []
      ensures calm && !running[i] ==> !stopped && Exhausted(s, was, joined, i, bs, cuts, to, max)
      ensures Grown(old(queue[..]), queue[..], joined, from, to, i)
    {
      hide Parts, Exhausted, Held, Grown;
      if running[i] {
        Nothing(s, queue[i]);
        GrownNot(queue[..], joined, from, i);
        return [], false, from, [];
      }
      running[i] := true;
      bs, stopped, to, cuts := Serve(s, i, max, calm, joined, from, was);
      running[i] := false;
    }

    // RTMPDeQueuePacket.  joined is what is to come while it runs, of which used packets come.
    method DeQueue(s: Setting, qIdx: nat, max: nat, calm: bool, joined: seq<Arrival>)
      returns (sent: seq<seq<Batch>>, used: nat, ghost cuts: seq<seq<nat>>, ghost ends: seq<nat>)
      requires Valid() && qIdx <= NUM_OF_TX_RING && ToQueues(joined)
      modifies queue, running
      ensures |sent| == |cuts| == |ends| == NUM_OF_TX_RING && used <= |joined| && running[..] == old(running[..])
      ensures forall k :: 0 <= k < NUM_OF_TX_RING ==>
                Parts(s, Held(old(queue[k]), joined, k, used), sent[k], queue[k])
      ensures calm ==> forall k :: 0 <= k < NUM_OF_TX_RING && Served(k, qIdx) && !running[k] ==>
                ends[k] <= used && Exhausted(s, old(queue[k]), joined, k, sent[k], cuts[k], ends[k], max)
      ensures forall k :: 0 <= k < NUM_OF_TX_RING && (!Served(k, qIdx) || running[k]) ==> sent[k] == []
    {
      hide Parts, Exhausted, Held, Of;
      sent, used, cuts, ends := [[], [], [], [], []], 0, [[], [], [], [], []], [0, 0, 0, 0, 0];
      forall k | 0 <= k < NUM_OF_TX_RING
        ensures queue[k] == Held(queue[k], joined, k, 0) && Parts(s, queue[k], [], queue[k])
      {
        Nothing(s, queue[k]);
        NoneYet(s, queue[k], joined, k);
      }
      var from, to := qIdx, qIdx;
      if qIdx == NUM_OF_TX_RING {
        from, to := 0, 3;
      }
      ghost var was := queue[..];
      var i := from;
      while i <= to
        invariant from <= i <= to + 1 && |sent| == |cuts| == |ends| == NUM_OF_TX_RING && used <= |joined|
        invariant running[..] == old(running[..])
        invariant forall k :: 0 <= k < NUM_OF_TX_RING ==>
                    Parts(s, Held(was[k], joined, k, used), sent[k], queue[k])
        invariant calm ==> forall k :: from <= k < i && !running[k] ==>
                    ends[k] <= used && Exhausted(s, was[k], joined, k, sent[k], cuts[k], ends[k], max)
        invariant forall k :: 0 <= k < NUM_OF_TX_RING && (k < from || k >= i || running[k]) ==> sent[k] == []
      {
        NothingSent(s, Held(was[i], joined, i, used), queue[i]);
        ghost var before, at := queue[..], used;
        var bs, stopped;
        ghost var cs;
        bs, stopped, used, cs := ServeIfIdle(s, i, max, calm, joined, used, was[i]);
        forall k | 0 <= k < NUM_OF_TX_RING && k != i
          ensures Parts(s, Held(was[k], joined, k, used), sent[k], queue[k])
        {
          assert queue[..][k] == before[k] + Of(joined[at..used], k);
          PartsGrow(s, was[k], joined, k, at, used, sent[k], before[k]);
        }
        sent, cuts, ends := sent[i := bs], cuts[i := cs], ends[i := used];
        if stopped {
          return;
        }
        i := i + 1;
      }
    }
  }

  // Queue k is asked for.
  predicate Served(k: nat, qIdx: nat) {
    if qIdx == NUM_OF_TX_RING then k <= 3 else k == qIdx
  }

  lemma AdmitFirst(s: Setting, t: FrameType, p: Packet)
    ensures Admitted(s, t, [p]) && Total16([p]) == p.len % 0x1_0000
  {
    assert [p][..|[p]| - 1] == [] && Total16([]) == 0;
  }

  lemma AdmitMore(s: Setting, t: FrameType, ps: seq<Packet>, p: Packet)
    ensures Total16(ps + [p]) == (Total16(ps) + p.len) % 0x1_0000
    ensures Admitted(s, t, ps) && CanAggregate(s, p, t, Total16(ps), |ps|) ==> Admitted(s, t, ps + [p])
  {
    hide CanAggregate;
    assert (ps + [p])[..|ps + [p]| - 1] == ps;
  }

  lemma Nothing(s: Setting, queue: seq<Packet>)
    ensures Parts(s, queue, [], queue) && |Sent([])| == 0
  {
  }

  lemma NothingSent(s: Setting, all: seq<Packet>, rest: seq<Packet>)
    ensures Parts(s, all, [], rest) ==> rest == all
  {
  }

  lemma NoneYet(s: Setting, was: seq<Packet>, joined: seq<Arrival>, k: nat)
    ensures Held(was, joined, k, 0) == was && Greedy(s, was, joined, k, [], [])
  {
    assert joined[..0] == [] && Of([], k) == [];
  }

  lemma PartsLength(s: Setting, all: seq<Packet>, bs: seq<Batch>, rest: seq<Packet>)
    requires Parts(s, all, bs, rest)
    ensures |Sent(bs)| + |rest| == |all|
  {
    hide Sent, BatchOk;
  }

  lemma PartsGrow(s: Setting, was: seq<Packet>, joined: seq<Arrival>, k: nat, m: nat, n: nat, bs: seq<Batch>,
                  rest: seq<Packet>)
    requires m <= n <= |joined| && Parts(s, Held(was, joined, k, m), bs, rest)
    ensures Parts(s, Held(was, joined, k, n), bs, rest + Of(joined[m..n], k))
  {
    hide Held, Of, BatchOk;
    HeldMore(was, joined, k, m, n);
  }

  lemma BatchNotEmpty(s: Setting, b: Batch)
    requires BatchOk(s, b)
    ensures b.packets != []
  {
  }

  lemma SentMore(s: Setting, all: seq<Packet>, bs: seq<Batch>, b: Batch, rest: seq<Packet>)
    requires Parts(s, all, bs, b.packets + rest) && BatchOk(s, b)
    ensures Parts(s, all, bs + [b], rest) && |Sent(bs + [b])| == |Sent(bs)| + |b.packets|
  {
    hide BatchOk;
    assert (bs + [b])[..|bs|] == bs;
  }

  lemma GreedyMore(s: Setting, was: seq<Packet>, joined: seq<Arrival>, k: nat, bs: seq<Batch>, cuts: seq<nat>,
                   b: Batch, rest: seq<Packet>, cut: nat)
    requires Greedy(s, was, joined, k, bs, cuts) && cut <= |joined| && Full(s, b.packets, rest)
    requires Parts(s, Held(was, joined, k, cut), bs + [b], rest)
    ensures Greedy(s, was, joined, k, bs + [b], cuts + [cut])
  {
    hide Held, Full, BatchOk, Sent;
    var more, moreCuts := bs + [b], cuts + [cut];
    forall j | 0 <= j < |more|
      ensures FullAt(s, was, joined, k, more, moreCuts[j], j)
    {
      if j < |bs| {
        assert FullAt(s, was, joined, k, bs, cuts[j], j);
        assert more[..j + 1] == bs[..j + 1];
      } else {
        assert more[..j + 1] == more;
        assert Held(was, joined, k, cut)[|Sent(more)|..] == rest;
      }
    }
  }
}
