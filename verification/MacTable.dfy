// The MAC table and its address hash (common/cmm_data.c), as values.
module MacTable {
  import opened Words

  const MAX_LEN_OF_MAC_TABLE: nat := 32
  const HASH_TABLE_SIZE: nat := 256

  type Address = a: seq<Byte> | |a| == 6 witness [0, 0, 0, 0, 0, 0]

  // A table entry: nothing, a client (ValidAsCLI) or a direct link (ValidAsDls).
  datatype Entry = Vacant | Client(addr: Address) | Dls(addr: Address)

  // The table entries, and for every hash value the indexes on its chain, in order.
  datatype Table = Table(entries: seq<Entry>, chains: seq<seq<nat>>)

  // MAC_ADDR_HASH_INDEX
  function HashByte(a: Address): Byte {
    XorByte(XorByte(XorByte(XorByte(XorByte(a[0], a[1]), a[2]), a[3]), a[4]), a[5])
  }

  function Hash(a: Address): (h: nat)
    ensures h < HASH_TABLE_SIZE
  {
    HashByte(a) as nat
  }

  lemma SumTells(x: Byte, y: Byte, b: Byte, c: Byte)
    ensures (x != y && b == c) || (x == y && b != c) ==> XorByte(x, b) != XorByte(y, c)
  {
    XorByteTwice(x, b);
    XorByteTwice(y, b);
    XorByteLeft(x, b);
    XorByteLeft(x, c);
    hide XorByte;
  }

  lemma ByteTells(a: Address, b: Address, k: nat)
    requires k < 6 && a[k] != b[k] && forall i :: 0 <= i < 6 && i != k ==> a[i] == b[i]
    ensures HashByte(a) != HashByte(b)
  {
    hide XorByte;
    var x1, y1 := XorByte(a[0], a[1]), XorByte(b[0], b[1]);
    var x2, y2 := XorByte(x1, a[2]), XorByte(y1, b[2]);
    var x3, y3 := XorByte(x2, a[3]), XorByte(y2, b[3]);
    var x4, y4 := XorByte(x3, a[4]), XorByte(y3, b[4]);
    SumTells(a[0], b[0], a[1], b[1]);
    SumTells(x1, y1, a[2], b[2]);
    SumTells(x2, y2, a[3], b[3]);
    SumTells(x3, y3, a[4], b[4]);
    SumTells(x4, y4, a[5], b[5]);
  }

  // Addresses that differ in exactly one byte are on different chains.
  lemma HashTells(a: Address, b: Address, k: nat)
    requires k < 6 && a[k] != b[k] && forall i :: 0 <= i < 6 && i != k ==> a[i] == b[i]
    ensures Hash(a) != Hash(b)
  {
    ByteTells(a, b, k);
    hide HashByte;
  }

  predicate Shaped(t: Table) {
    |t.entries| == MAX_LEN_OF_MAC_TABLE && |t.chains| == HASH_TABLE_SIZE
  }

  predicate Distinct(s: seq<nat>) {
    s == [] || (s[0] !in s[1..] && Distinct(s[1..]))
  }

  // Index i belongs on chain h.
  predicate Belongs(t: Table, i: nat, h: nat)
    requires Shaped(t)
  {
    i < MAX_LEN_OF_MAC_TABLE && t.entries[i] != Vacant && Hash(t.entries[i].addr) == h
  }

  // Every chain holds each index that belongs on it once, and nothing else.
  ghost predicate ChainOk(t: Table, h: nat)
    requires Shaped(t) && h < HASH_TABLE_SIZE
  {
    Distinct(t.chains[h]) && forall i: nat :: i in t.chains[h] <==> Belongs(t, i, h)
  }

  // Entry 0 is never given away, so that the index can serve as association identifier.
  ghost predicate Inv(t: Table) {
    Shaped(t) && t.entries[0] == Vacant && forall h :: 0 <= h < HASH_TABLE_SIZE ==> ChainOk(t, h)
  }

  function Valid(entries: seq<Entry>): nat {
    if entries == [] then 0 else (if entries[0] == Vacant then 0 else 1) + Valid(entries[1..])
  }

  datatype Option = None | Some(i: nat)

  // --- MacTableLookup ---

  // The walk goes on while the entry is valid, where direct links do not count as valid, and
  // gives back the entry it stops at.
  function Walk(t: Table, chain: seq<nat>, a: Address): Option
    requires Shaped(t)
  {
    if chain == [] then None
    else if chain[0] < MAX_LEN_OF_MAC_TABLE && t.entries[chain[0]].Client? && t.entries[chain[0]].addr != a
    then Walk(t, chain[1..], a)
    else Some(chain[0])
  }

  function Lookup(t: Table, a: Address): Option
    requires Shaped(t)
  {
    Walk(t, t.chains[Hash(a)], a)
  }

  predicate Holds(t: Table, i: nat, a: Address)
    requires Shaped(t)
  {
    i < MAX_LEN_OF_MAC_TABLE && t.entries[i] != Vacant && t.entries[i].addr == a
  }

  // A lookup is right when it finds an entry with the address, or nothing because none has it.
  ghost predicate Right(t: Table, a: Address, r: Option)
    requires Shaped(t)
  {
    match r
    case Some(i) => Holds(t, i, a)
    case None => forall i: nat :: !Holds(t, i, a)
  }

  // On the way to the address, or to the end of the chain, there is a direct link to
  // somebody else.
  predicate StrangerAhead(t: Table, chain: seq<nat>, a: Address)
    requires Shaped(t)
  {
    chain != [] && chain[0] < MAX_LEN_OF_MAC_TABLE && t.entries[chain[0]] != Vacant
    && t.entries[chain[0]].addr != a
    && (t.entries[chain[0]].Dls? || StrangerAhead(t, chain[1..], a))
  }

  lemma {:induction false} WalkFinds(t: Table, chain: seq<nat>, a: Address)
    requires Shaped(t) && forall i :: i in chain ==> i < MAX_LEN_OF_MAC_TABLE && t.entries[i] != Vacant
    ensures var r := Walk(t, chain, a);
            match r
            case None => !StrangerAhead(t, chain, a) && forall i :: i in chain ==> !Holds(t, i, a)
            case Some(i) => i in chain && (Holds(t, i, a) <==> !StrangerAhead(t, chain, a))
  {
    if chain != [] {
      assert chain[0] in chain;
      assert forall i :: i in chain <==> i == chain[0] || i in chain[1..];
      WalkFinds(t, chain[1..], a);
    }
  }

  // A lookup is right exactly when no direct link to somebody else is in its way.
  lemma LookupRightIff(t: Table, a: Address)
    requires Inv(t)
    ensures Right(t, a, Lookup(t, a)) <==> !StrangerAhead(t, t.chains[Hash(a)], a)
  {
    hide Hash;
    var h := Hash(a);
    assert ChainOk(t, h);
    WalkFinds(t, t.chains[h], a);
    forall i: nat | Holds(t, i, a) ensures i in t.chains[h] {
      assert Belongs(t, i, h);
    }
  }

  ghost predicate OnlyClients(t: Table) {
    forall e :: e in t.entries ==> !e.Dls?
  }

  lemma {:induction false} NoStrangers(t: Table, chain: seq<nat>, a: Address)
    requires Shaped(t) && OnlyClients(t)
    ensures !StrangerAhead(t, chain, a)
  {
    if chain != [] {
      NoStrangers(t, chain[1..], a);
      assert chain[0] < MAX_LEN_OF_MAC_TABLE ==> t.entries[chain[0]] in t.entries;
    }
  }

  // Without direct links the hash index agrees with a scan of the table.
  lemma LookupIsScan(t: Table, a: Address)
    requires Inv(t) && OnlyClients(t)
    ensures Right(t, a, Lookup(t, a))
  {
    NoStrangers(t, t.chains[Hash(a)], a);
    LookupRightIff(t, a);
  }

  // One direct link makes a lookup of any other address with its hash wrong.
  lemma DirectLinkHides(t: Table, i: nat, a: Address)
    requires Inv(t) && i < MAX_LEN_OF_MAC_TABLE && t.entries[i].Dls?
    requires t.entries[i].addr != a && t.chains[Hash(a)] == [i]
    ensures Lookup(t, a) == Some(i) && !Right(t, a, Lookup(t, a))
  {
  }

  // --- MacTableInsertEntry ---

  function FirstVacant(entries: seq<Entry>, from: nat): (r: Option)
    ensures r.Some? ==> from <= r.i < |entries| && entries[r.i] == Vacant
    ensures r.Some? ==> forall k :: from <= k < r.i ==> entries[k] != Vacant
    ensures r.None? ==> forall k :: from <= k < |entries| ==> entries[k] != Vacant
    decreases |entries| - from
  {
    if from >= |entries| then None
    else if entries[from] == Vacant then Some(from)
    else FirstVacant(entries, from + 1)
  }

  function Put(t: Table, i: nat, e: Entry): (t': Table)
    requires Shaped(t) && i < MAX_LEN_OF_MAC_TABLE && e != Vacant
    ensures Shaped(t')
  {
    var h := Hash(e.addr);
    Table(t.entries[i := e], t.chains[h := t.chains[h] + [i]])
  }

  function Insert(t: Table, e: Entry, first: nat): (t': Table)
    requires Shaped(t) && e != Vacant
    ensures Shaped(t')
  {
    var r := FirstVacant(t.entries, first);
    if r.None? then t else Put(t, r.i, e)
  }

  // --- MacTableDeleteEntry ---

  function Without(s: seq<nat>, i: nat): seq<nat> {
    if s == [] then [] else if s[0] == i then s[1..] else [s[0]] + Without(s[1..], i)
  }

  function Delete(t: Table, i: nat, a: Address): (t': Table)
    requires Shaped(t)
    ensures Shaped(t')
  {
    if Holds(t, i, a) then
      Table(t.entries[i := Vacant], t.chains[Hash(a) := Without(t.chains[Hash(a)], i)])
    else t
  }

  // --- Runs ---

  lemma {:induction false} DistinctAppend(s: seq<nat>, i: nat)
    requires Distinct(s) && i !in s
    ensures Distinct(s + [i])
  {
    if s != [] {
      assert (s + [i])[1..] == s[1..] + [i];
      DistinctAppend(s[1..], i);
    }
  }

  lemma {:induction false} WithoutIs(s: seq<nat>, i: nat)
    requires Distinct(s)
    ensures Distinct(Without(s, i))
    ensures forall k :: k in Without(s, i) <==> k in s && k != i
  {
    if s != [] {
      WithoutIs(s[1..], i);
      assert forall k :: k in s <==> k == s[0] || k in s[1..];
      if s[0] != i {
        var w := Without(s[1..], i);
        assert ([s[0]] + w)[1..] == w;
      }
    }
  }

  lemma PutKeepsInv(t: Table, i: nat, e: Entry)
    requires Inv(t) && 1 <= i < MAX_LEN_OF_MAC_TABLE && t.entries[i] == Vacant && e != Vacant
    ensures Inv(Put(t, i, e))
  {
    hide Hash, Distinct;
    var t', g := Put(t, i, e), Hash(e.addr);
    forall h | 0 <= h < HASH_TABLE_SIZE ensures ChainOk(t', h) {
      assert ChainOk(t, h);
      assert !Belongs(t, i, h);
      assert forall k: nat :: k != i ==> (Belongs(t', k, h) <==> Belongs(t, k, h));
      if h == g {
        assert i in t.chains[h] <==> Belongs(t, i, h);
        DistinctAppend(t.chains[h], i);
        assert t'.chains[h] == t.chains[h] + [i];
      }
    }
  }

  lemma InsertKeepsInv(t: Table, e: Entry, first: nat)
    requires Inv(t) && e != Vacant && first >= 1
    ensures Inv(Insert(t, e, first))
  {
    hide ChainOk, Put;
    var r := FirstVacant(t.entries, first);
    if r.Some? {
      PutKeepsInv(t, r.i, e);
    }
  }

  lemma DeleteKeepsInv(t: Table, i: nat, a: Address)
    requires Inv(t)
    ensures Inv(Delete(t, i, a))
  {
    hide Hash, Distinct, Without;
    var t', g := Delete(t, i, a), Hash(a);
    if Holds(t, i, a) {
      forall h | 0 <= h < HASH_TABLE_SIZE ensures ChainOk(t', h) {
        assert ChainOk(t, h);
        assert forall k: nat :: k != i ==> (Belongs(t', k, h) <==> Belongs(t, k, h));
        if h == g {
          WithoutIs(t.chains[h], i);
        } else {
          assert !Belongs(t, i, h);
        }
      }
    }
  }

  datatype Event = Added(e: Entry, first: nat) | Removed(i: nat, a: Address)

  // Insertions start at entry 1, or at entry 2 in an infrastructure network.
  predicate EventOk(ev: Event) {
    ev.Added? ==> ev.e != Vacant && 1 <= ev.first <= 2
  }

  function Step(t: Table, ev: Event): (t': Table)
    requires Shaped(t) && EventOk(ev)
    ensures Shaped(t')
  {
    match ev
    case Added(e, first) => Insert(t, e, first)
    case Removed(i, a) => Delete(t, i, a)
  }

  function Run(t: Table, evs: seq<Event>): (t': Table)
    requires Shaped(t) && forall ev :: ev in evs ==> EventOk(ev)
    ensures Shaped(t')
    decreases |evs|
  {
    if evs == [] then t else Run(Step(t, evs[0]), evs[1..])
  }

  function Empty(): (t: Table)
    ensures Shaped(t)
  {
    Table(seq(MAX_LEN_OF_MAC_TABLE, _ => Vacant), seq(HASH_TABLE_SIZE, _ => []))
  }

  lemma EmptyInv()
    ensures Inv(Empty())
  {
    var t := Empty();
    forall h | 0 <= h < HASH_TABLE_SIZE ensures ChainOk(t, h) {
      assert t.chains[h] == [];
      assert forall i: nat :: !Belongs(t, i, h);
    }
  }

  lemma {:induction false} RunKeepsInv(t: Table, evs: seq<Event>)
    requires Inv(t) && forall ev :: ev in evs ==> EventOk(ev)
    ensures Inv(Run(t, evs))
    decreases |evs|
  {
    hide Insert, Delete, ChainOk;
    if evs != [] {
      assert evs[0] in evs;
      match evs[0] {
        case Added(e, first) => InsertKeepsInv(t, e, first);
        case Removed(i, a) => DeleteKeepsInv(t, i, a);
      }
      RunKeepsInv(Step(t, evs[0]), evs[1..]);
    }
  }

  predicate AddsClients(evs: seq<Event>) {
    forall ev :: ev in evs ==> EventOk(ev) && (ev.Added? ==> ev.e.Client?)
  }

  lemma {:induction false} RunKeepsClients(t: Table, evs: seq<Event>)
    requires Shaped(t) && OnlyClients(t) && AddsClients(evs)
    ensures OnlyClients(Run(t, evs))
    decreases |evs|
  {
    if evs != [] {
      var t' := Step(t, evs[0]);
      assert OnlyClients(t') by {
        assert evs[0] in evs;
        forall e | e in t'.entries ensures !e.Dls? {
          var k :| 0 <= k < |t'.entries| && t'.entries[k] == e;
          assert t.entries[k] in t.entries;
        }
      }
      RunKeepsClients(t', evs[1..]);
    }
  }

  // Over any run of client insertions and deletions from the empty table, a lookup finds an
  // entry with the address if there is one, and nothing otherwise.
  lemma LookupAfterRun(evs: seq<Event>, a: Address)
    requires AddsClients(evs)
    ensures Right(Run(Empty(), evs), a, Lookup(Run(Empty(), evs), a))
  {
    hide Inv, Right, Lookup, Run;
    EmptyInv();
    assert OnlyClients(Empty());
    RunKeepsInv(Empty(), evs);
    RunKeepsClients(Empty(), evs);
    LookupIsScan(Run(Empty(), evs), a);
  }

  // A run that shows it: after one direct link, looking up another address with its hash
  // gives the direct link, although no entry has that address.
  lemma DirectLinkHidesAddress()
    ensures var a, b := [1, 0, 0, 0, 0, 0], [0, 1, 0, 0, 0, 0];
            var t := Run(Empty(), [Added(Dls(a), 2)]);
            a != b && Lookup(t, b) == Some(2) && !Right(t, b, Lookup(t, b))
  {
    var a: Address, b: Address := [1, 0, 0, 0, 0, 0], [0, 1, 0, 0, 0, 0];
    var ev := Added(Dls(a), 2);
    EmptyInv();
    RunKeepsInv(Empty(), [ev]);
    var t := Step(Empty(), ev);
    assert [ev][1..] == [];
    assert Run(Empty(), [ev]) == Run(t, []) == t;
    assert Hash(a) == Hash(b);
    assert FirstVacant(Empty().entries, 2) == Some(2);
    assert t.chains[Hash(b)] == [] + [2];
    hide Inv, Walk;
    DirectLinkHides(t, 2, b);
  }

  // --- The entry count ---

  lemma {:induction false} ValidAt(entries: seq<Entry>, i: nat, e: Entry)
    requires i < |entries|
    ensures Valid(entries[i := e]) + (if entries[i] == Vacant then 0 else 1)
         == Valid(entries) + (if e == Vacant then 0 else 1)
  {
    if i == 0 {
      assert entries[i := e][1..] == entries[1..];
    } else {
      assert entries[i := e][1..] == entries[1..][i - 1 := e];
      ValidAt(entries[1..], i - 1, e);
    }
  }

  lemma {:induction false} ValidAtMost(entries: seq<Entry>)
    ensures Valid(entries) <= |entries|
  {
    if entries != [] {
      ValidAtMost(entries[1..]);
    }
  }

  // --- What an insertion and a deletion do ---

  // The first vacant entry from first on is filled and counted, and nothing else; without one
  // nothing happens.
  lemma InsertIs(t: Table, e: Entry, first: nat)
    requires Inv(t) && e != Vacant
    ensures var t' := Insert(t, e, first);
            match FirstVacant(t.entries, first)
            case None => t' == t
            case Some(i) => t'.entries == t.entries[i := e] && Valid(t'.entries) == Valid(t.entries) + 1
  {
    var r := FirstVacant(t.entries, first);
    if r.Some? {
      ValidAt(t.entries, r.i, e);
    }
  }

  // Deleting an entry by its index and address vacates it, and nothing else; with another
  // address nothing happens.
  lemma DeleteIs(t: Table, i: nat, a: Address)
    requires Inv(t)
    ensures var t' := Delete(t, i, a);
            if Holds(t, i, a)
            then t'.entries == t.entries[i := Vacant] && Valid(t'.entries) == Valid(t.entries) - 1
            else t' == t
  {
    if Holds(t, i, a) {
      ValidAt(t.entries, i, Vacant);
    }
  }

  lemma ClientsAfter(t: Table, i: nat, e: Entry)
    requires Shaped(t) && OnlyClients(t) && !e.Dls? && i < MAX_LEN_OF_MAC_TABLE
    ensures OnlyClients(t.(entries := t.entries[i := e]))
  {
    var es := t.entries[i := e];
    forall x | x in es ensures !x.Dls? {
      var k :| 0 <= k < |es| && es[k] == x;
      assert t.entries[k] in t.entries;
    }
  }

  // A client that is inserted is found at its entry, and an address that is deleted is not
  // found, provided no other entry has the address.
  lemma InsertedIsFound(t: Table, a: Address, first: nat)
    requires Inv(t) && OnlyClients(t) && first >= 1 && forall k: nat :: !Holds(t, k, a)
    requires FirstVacant(t.entries, first).Some?
    ensures Lookup(Insert(t, Client(a), first), a) == FirstVacant(t.entries, first)
  {
    var t', i := Insert(t, Client(a), first), FirstVacant(t.entries, first).i;
    InsertIs(t, Client(a), first);
    InsertKeepsInv(t, Client(a), first);
    ClientsAfter(t, i, Client(a));
    LookupIsScan(t', a);
    hide Inv, Lookup, Insert, FirstVacant, Valid;
    assert Holds(t', i, a);
    assert forall k: nat :: k != i ==> (Holds(t', k, a) <==> Holds(t, k, a));
  }

  lemma DeletedIsNotFound(t: Table, i: nat, a: Address)
    requires Inv(t) && OnlyClients(t) && Holds(t, i, a) && forall k: nat :: k != i ==> !Holds(t, k, a)
    ensures Lookup(Delete(t, i, a), a) == None
  {
    var t' := Delete(t, i, a);
    DeleteIs(t, i, a);
    DeleteKeepsInv(t, i, a);
    ClientsAfter(t, i, Vacant);
    LookupIsScan(t', a);
    hide Inv, Lookup, Delete, Valid;
    assert forall k: nat :: k != i ==> (Holds(t', k, a) <==> Holds(t, k, a));
    assert !Holds(t', i, a);
  }

  // The test for a full table never fires: entry 0 stays vacant.
  lemma NeverFull(t: Table)
    requires Inv(t)
    ensures Valid(t.entries) < MAX_LEN_OF_MAC_TABLE
  {
    ValidAtMost(t.entries[1..]);
  }
}
