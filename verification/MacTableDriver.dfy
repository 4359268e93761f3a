// MacTableLookup, MacTableInsertEntry and MacTableDeleteEntry on linked hash chains.
module MacTableDriver {
  import opened MacTable
  import M = MacTable

  // pNext and the heads of the chains: the index of an entry, or NULL.
  datatype Pointer = Null | At(i: nat)

  datatype Cell = Cell(entry: Entry, next: Pointer)

  function Entries(cells: seq<Cell>): (e: seq<Entry>)
    ensures |e| == |cells|
  {
    seq(|cells|, i requires 0 <= i < |cells| => cells[i].entry)
  }

  // Following pNext from p visits the chain and ends.
  predicate Linked(cells: seq<Cell>, p: Pointer, chain: seq<nat>)
    decreases |chain|
  {
    if chain == [] then p == Null
    else p == At(chain[0]) && chain[0] < |cells| && Linked(cells, cells[chain[0]].next, chain[1..])
  }

  lemma {:induction false} LinkedFrame(cells: seq<Cell>, cells': seq<Cell>, p: Pointer, chain: seq<nat>)
    requires Linked(cells, p, chain) && |cells'| == |cells|
    requires forall i :: i in chain && i < |cells| ==> cells'[i].next == cells[i].next
    ensures Linked(cells', p, chain)
    decreases |chain|
  {
    if chain != [] {
      assert chain[0] in chain;
      assert forall i :: i in chain[1..] ==> i in chain;
      LinkedFrame(cells, cells', cells[chain[0]].next, chain[1..]);
    }
  }

  lemma {:induction false} LinkedAppend(cells: seq<Cell>, cells': seq<Cell>, p: Pointer, chain: seq<nat>, i: nat)
    requires Linked(cells, p, chain) && chain != [] && Distinct(chain) && i !in chain && i < |cells|
    requires cells[i].next == Null && chain[|chain| - 1] < |cells|
    requires cells' == cells[chain[|chain| - 1] := cells[chain[|chain| - 1]].(next := At(i))]
    ensures Linked(cells', p, chain + [i])
    decreases |chain|
  {
    var rest := chain[1..];
    assert (chain + [i])[1..] == rest + [i];
    if rest == [] {
      assert [i][1..] == [];
      assert Linked(cells', Null, []);
      assert Linked(cells', At(i), [i]);
    } else {
      assert rest[|rest| - 1] == chain[|chain| - 1] && rest[|rest| - 1] in rest;
      LinkedAppend(cells, cells', cells[chain[0]].next, rest, i);
    }
  }

  lemma {:induction false} LinkedWithout(cells: seq<Cell>, cells': seq<Cell>, p: Pointer, chain: seq<nat>, k: nat)
    requires Linked(cells, p, chain) && Distinct(chain) && 1 <= k < |chain|
    requires chain[k - 1] < |cells| && chain[k] < |cells|
    requires cells' == cells[chain[k - 1] := cells[chain[k - 1]].(next := cells[chain[k]].next)]
    ensures Linked(cells', p, Without(chain, chain[k]))
    decreases |chain|
  {
    var rest := chain[1..];
    var i := chain[k];
    assert rest[k - 1] == i && i in rest;
    assert Without(chain, i) == [chain[0]] + Without(rest, i);
    assert ([chain[0]] + Without(rest, i))[1..] == Without(rest, i);
    if k == 1 {
      assert Without(rest, i) == rest[1..];
      assert forall j :: j in rest[1..] ==> j in rest;
      LinkedFrame(cells, cells', cells[i].next, rest[1..]);
    } else {
      assert rest[k - 2] == chain[k - 1] && rest[k - 2] in rest;
      LinkedWithout(cells, cells', cells[chain[0]].next, rest, k - 1);
    }
  }

  ghost predicate AllValid(cells: seq<Cell>, chain: seq<nat>) {
    forall x: nat :: x in chain ==> x < |cells| && cells[x].entry != Vacant
  }

  ghost predicate Disjoint(a: seq<nat>, b: seq<nat>) {
    forall x: nat :: x in a ==> x !in b
  }

  // Index i is on no chain, the chains share nothing, and what is on them is valid.
  ghost predicate Apart(cells: seq<Cell>, chains: seq<seq<nat>>, i: nat) {
    && (forall g :: 0 <= g < |chains| ==> i !in chains[g] && Distinct(chains[g]) && AllValid(cells, chains[g]))
    && (forall g, h :: 0 <= g < |chains| && 0 <= h < |chains| && g != h ==> Disjoint(chains[g], chains[h]))
  }

  lemma InvIsApart(cells: seq<Cell>, chains: seq<seq<nat>>, i: nat)
    requires Inv(Table(Entries(cells), chains)) && i < |cells| && cells[i].entry == Vacant
    ensures Apart(cells, chains, i)
  {
    hide M.Hash, Distinct;
    var t := Table(Entries(cells), chains);
    forall g | 0 <= g < |chains|
      ensures i !in chains[g] && Distinct(chains[g]) && AllValid(cells, chains[g])
    {
      assert ChainOk(t, g) && !Belongs(t, i, g);
      forall x: nat | x in chains[g] ensures x < |cells| && cells[x].entry != Vacant {
        assert Belongs(t, x, g);
      }
    }
    forall g, h | 0 <= g < |chains| && 0 <= h < |chains| && g != h ensures Disjoint(chains[g], chains[h]) {
      assert ChainOk(t, g) && ChainOk(t, h);
      forall x: nat | x in chains[g] ensures x !in chains[h] {
        assert Belongs(t, x, g) && !Belongs(t, x, h);
      }
    }
  }

  // Giving an entry that is on no chain a new value leaves the chains as they are.
  lemma ApartFrame(cells: seq<Cell>, chains: seq<seq<nat>>, i: nat, c: Cell)
    requires Apart(cells, chains, i) && i < |cells|
    ensures Apart(cells[i := c], chains, i)
  {
    hide Distinct, Disjoint;
    forall g | 0 <= g < |chains| ensures AllValid(cells[i := c], chains[g]) {
      assert AllValid(cells, chains[g]) && i !in chains[g];
    }
  }

  class MacTab {
    const content: array<Cell>
    const hash: array<Pointer>
    var size: nat
    ghost var chains: seq<seq<nat>>

    ghost function Contents(): Table
      reads this, content
    {
      Table(Entries(content[..]), chains)
    }

    ghost predicate Chained()
      reads this, content, hash
    {
      content.Length == MAX_LEN_OF_MAC_TABLE && hash.Length == |chains| == HASH_TABLE_SIZE
      && (forall h :: 0 <= h < HASH_TABLE_SIZE ==> Linked(content[..], hash[h], chains[h]))
      && forall i :: 0 <= i < MAX_LEN_OF_MAC_TABLE && content[i].entry == Vacant ==> content[i].next == Null
    }

    ghost predicate Valid()
      reads this, content, hash
    {
      Chained() && Inv(Contents()) && size == M.Valid(Contents().entries)
    }

    constructor ()
      ensures Valid() && Contents() == Empty() && fresh(content) && fresh(hash)
    {
      content := new Cell[MAX_LEN_OF_MAC_TABLE](_ => Cell(Vacant, Null));
      hash := new Pointer[HASH_TABLE_SIZE](_ => Null);
      size := 0;
      chains := Empty().chains;
      new;
      EmptyInv();
      NoneValid(Contents().entries);
      assert Contents().entries == Empty().entries;
    }

    // MacTableLookup
    method Lookup(a: Address) returns (r: Option)
      requires Valid()
      ensures r == M.Lookup(Contents(), a)
    {
      hide Inv, M.Hash, Entries;
      ghost var rest := chains[Hash(a)];
      var pEntry := hash[Hash(a)];
      while pEntry != Null && content[pEntry.i].entry.Client?
        invariant Linked(content[..], pEntry, rest)
        invariant Walk(Contents(), rest, a) == Walk(Contents(), chains[Hash(a)], a)
        decreases |rest|
      {
        EntryAt(content[..], pEntry.i);
        if content[pEntry.i].entry.addr == a {
          break;
        }
        pEntry, rest := content[pEntry.i].next, rest[1..];
      }
      if pEntry != Null {
        EntryAt(content[..], pEntry.i);
      }
      r := if pEntry == Null then None else Some(pEntry.i);
    }

    // The end of a chain that has one.
    method LastOf(h: nat) returns (last: nat)
      requires Chained() && h < HASH_TABLE_SIZE && chains[h] != []
      ensures last == chains[h][|chains[h]| - 1] && last < MAX_LEN_OF_MAC_TABLE
    {
      last := hash[h].i;
      ghost var k := 0;
      ghost var chain := chains[h];
      while content[last].next != Null
        invariant k < |chain| && last == chain[k] && last < MAX_LEN_OF_MAC_TABLE
        invariant Linked(content[..], At(last), chain[k..])
        decreases |chain| - k
      {
        assert chain[k..][1..] == chain[k + 1..];
        last := content[last].next.i;
        k := k + 1;
      }
      assert chain[k..][1..] == chain[k + 1..];
    }

    // Hang entry i at the end of chain h.
    method AppendToChain(h: nat, i: nat)
      requires Chained() && h < HASH_TABLE_SIZE && i < MAX_LEN_OF_MAC_TABLE && content[i].next == Null
      requires Apart(content[..], chains, i)
      modifies content, hash, this`chains
      ensures Chained() && chains == old(chains)[h := old(chains[h]) + [i]]
      ensures Entries(content[..]) == old(Entries(content[..]))
    {
      hide Distinct;
      ghost var cells := content[..];
      if hash[h] == Null {
        hash[h] := At(i);
        assert [i][1..] == [];
        assert Linked(cells, Null, []) && Linked(cells, At(i), [i]);
      } else {
        var last := LastOf(h);
        assert last in chains[h] && AllValid(cells, chains[h]);
        content[last] := content[last].(next := At(i));
        assert content[..] == cells[last := cells[last].(next := At(i))];
        LinkedAppend(cells, content[..], hash[h], chains[h], i);
        forall g | 0 <= g < HASH_TABLE_SIZE && g != h ensures Linked(content[..], hash[g], chains[g]) {
          assert Disjoint(chains[g], chains[h]);
          LinkedFrame(cells, content[..], hash[g], chains[g]);
        }
      }
      chains := chains[h := chains[h] + [i]];
      assert Linked(content[..], hash[h], chains[h]);
      assert (forall g :: 0 <= g < HASH_TABLE_SIZE ==> Linked(content[..], hash[g], chains[g]));
      assert forall i :: 0 <= i < MAX_LEN_OF_MAC_TABLE && content[i].entry == Vacant ==> content[i].next == Null;
    }

    method FindVacancy(first: nat) returns (r: Option)
      requires content.Length == MAX_LEN_OF_MAC_TABLE
      ensures r == FirstVacant(Entries(content[..]), first)
    {
      var i := first;
      while i < MAX_LEN_OF_MAC_TABLE
        invariant first <= i && FirstVacant(Entries(content[..]), first) == FirstVacant(Entries(content[..]), i)
      {
        EntryAt(content[..], i);
        if content[i].entry == Vacant {
          return Some(i);
        }
        i := i + 1;
      }
      r := None;
    }

    // MacTableInsertEntry.  The test for a full table is the code's own; it never fires.
    method Insert(a: Address, dls: bool, infrastructure: bool) returns (r: Option)
      requires Valid()
      modifies this, content, hash
      ensures Valid()
      ensures var e, first := if dls then Dls(a) else Client(a), if infrastructure then 2 else 1;
              r == FirstVacant(old(Contents()).entries, first) && Contents() == M.Insert(old(Contents()), e, first)
    {
      hide Linked, Distinct, ChainOk, M.Hash, M.Valid, Entries;
      ghost var t := Contents();
      NeverFull(t);
      if size >= MAX_LEN_OF_MAC_TABLE {
        return None;
      }
      var first := if infrastructure then 2 else 1;
      var e := if dls then Dls(a) else Client(a);
      r := FindVacancy(first);
      InsertKeepsInv(t, e, first);
      if r.Some? {
        EntryAt(content[..], r.i);
        Occupy(r.i, e);
      }
    }

    method Occupy(i: nat, e: Entry)
      requires Valid() && 1 <= i < MAX_LEN_OF_MAC_TABLE && content[i].entry == Vacant && e != Vacant
      modifies this, content, hash
      ensures Valid() && Contents() == Put(old(Contents()), i, e)
    {
      hide Linked, Distinct, ChainOk, M.Hash, M.Valid;
      ghost var t := Contents();
      ghost var cells := content[..];
      InvIsApart(cells, chains, i);
      ApartFrame(cells, chains, i, Cell(e, Null));
      PutKeepsInv(t, i, e);
      ValidAt(t.entries, i, e);
      content[i] := Cell(e, Null);
      assert Entries(content[..]) == t.entries[i := e];
      size := size + 1;
      forall g | 0 <= g < HASH_TABLE_SIZE ensures Linked(content[..], hash[g], chains[g]) {
        LinkedFrame(cells, content[..], hash[g], chains[g]);
      }
      assert content[..] == cells[i := Cell(e, Null)];
      AppendToChain(Hash(e.addr), i);
    }

    // Where entry i is on chain h: what comes before it.
    method Before(h: nat, i: nat) returns (prev: Pointer, ghost k: nat)
      requires Chained() && h < HASH_TABLE_SIZE && i in chains[h]
      ensures k < |chains[h]| && chains[h][k] == i && i !in chains[h][..k]
      ensures prev == if k == 0 then Null else At(chains[h][k - 1])
    {
      var probe := hash[h].i;
      ghost var chain := chains[h];
      prev, k := Null, 0;
      while probe != i
        invariant k < |chain| && probe == chain[k] && probe < MAX_LEN_OF_MAC_TABLE && i !in chain[..k]
        invariant Linked(content[..], At(probe), chain[k..])
        invariant prev == if k == 0 then Null else At(chain[k - 1])
        decreases |chain| - k
      {
        assert chain[k..][1..] == chain[k + 1..];
        assert chain == chain[..k] + [chain[k]] + chain[k + 1..];
        prev := At(probe);
        probe := content[probe].next.i;
        k := k + 1;
      }
    }

    // Take entry i off chain h.
    method Unlink(h: nat, i: nat)
      requires Chained() && h < HASH_TABLE_SIZE && i in chains[h] && i < MAX_LEN_OF_MAC_TABLE
      requires forall g :: 0 <= g < HASH_TABLE_SIZE ==> Distinct(chains[g]) && AllValid(content[..], chains[g])
      requires forall g :: 0 <= g < HASH_TABLE_SIZE && g != h ==> Disjoint(chains[g], chains[h])
      modifies content, hash, this`chains
      ensures Chained() && chains == old(chains)[h := Without(old(chains[h]), i)]
      ensures Entries(content[..]) == old(Entries(content[..]))
    {
      hide Distinct, Without;
      ghost var cells, chain := content[..], chains[h];
      var prev, k := Before(h, i);
      LinkedTo(cells, hash[h], chain, k);
      if prev == Null {
        hash[h] := content[i].next;
        FirstGone(chain);
      } else {
        assert prev.i == chain[k - 1] && prev.i in chain && AllValid(cells, chain);
        content[prev.i] := content[prev.i].(next := content[i].next);
        assert content[..] == cells[prev.i := cells[prev.i].(next := cells[i].next)];
        LinkedWithout(cells, content[..], hash[h], chain, k);
        forall g | 0 <= g < HASH_TABLE_SIZE && g != h ensures Linked(content[..], hash[g], chains[g]) {
          assert Disjoint(chains[g], chain);
          LinkedFrame(cells, content[..], hash[g], chains[g]);
        }
      }
      chains := chains[h := Without(chain, i)];
      assert Linked(content[..], hash[h], chains[h]);
      assert forall g :: 0 <= g < HASH_TABLE_SIZE ==> Linked(content[..], hash[g], chains[g]);
    }

    // MacTableDeleteEntry; the answer is FALSE only for an index outside the table.
    method Delete(wcid: nat, a: Address) returns (ok: bool)
      requires Valid()
      modifies this, content, hash
      ensures Valid() && ok == (wcid < MAX_LEN_OF_MAC_TABLE)
      ensures Contents() == M.Delete(old(Contents()), wcid, a)
    {
      hide Linked, Distinct, ChainOk, M.Hash, M.Valid, Entries;
      if wcid >= MAX_LEN_OF_MAC_TABLE {
        return false;
      }
      EntryAt(content[..], wcid);
      if content[wcid].entry != Vacant && content[wcid].entry.addr == a {
        Vacate(wcid, a);
      }
      ok := true;
    }

    method Vacate(i: nat, a: Address)
      requires Valid() && Holds(Contents(), i, a)
      modifies this, content, hash
      ensures Valid() && Contents() == M.Delete(old(Contents()), i, a)
    {
      hide Linked, Distinct, ChainOk, M.Hash, M.Valid, Without;
      ghost var t := Contents();
      OnItsChain(content[..], chains, i);
      DeleteKeepsInv(t, i, a);
      ValidAt(t.entries, i, Vacant);
      OneValid(t.entries, i);
      Unlink(Hash(a), i);
      OffItsChain(t.chains, chains, Hash(a), i);
      ghost var cells := content[..];
      content[i] := Cell(Vacant, Null);
      assert content[..] == cells[i := Cell(Vacant, Null)];
      assert Entries(content[..]) == t.entries[i := Vacant];
      size := size - 1;
      forall g | 0 <= g < HASH_TABLE_SIZE ensures Linked(content[..], hash[g], chains[g]) {
        assert i !in chains[g];
        LinkedFrame(cells, content[..], hash[g], chains[g]);
      }
    }
  }

  lemma {:induction false} LinkedTo(cells: seq<Cell>, p: Pointer, chain: seq<nat>, k: nat)
    requires Linked(cells, p, chain) && k < |chain|
    ensures chain[k] < |cells| && Linked(cells, cells[chain[k]].next, chain[k + 1..])
    ensures p == At(chain[0])
    decreases k
  {
    if k > 0 {
      LinkedTo(cells, cells[chain[0]].next, chain[1..], k - 1);
      assert chain[1..][k..] == chain[k + 1..];
    }
  }

  lemma FirstGone(chain: seq<nat>)
    requires chain != []
    ensures Without(chain, chain[0]) == chain[1..]
  {
  }

  // A valid entry is on the chain of its address and on no other.
  lemma OnItsChain(cells: seq<Cell>, chains: seq<seq<nat>>, i: nat)
    requires Inv(Table(Entries(cells), chains)) && i < |cells| && cells[i].entry != Vacant
    ensures var h := Hash(cells[i].entry.addr);
            i in chains[h] && forall g :: 0 <= g < |chains| && g != h ==> i !in chains[g]
    ensures forall g :: 0 <= g < |chains| ==> Distinct(chains[g]) && AllValid(cells, chains[g])
    ensures forall g, h :: 0 <= g < |chains| && 0 <= h < |chains| && g != h ==> Disjoint(chains[g], chains[h])
  {
    assert Entries(cells)[0] == cells[0].entry;
    InvIsApart(cells, chains, 0);
    var t, h := Table(Entries(cells), chains), Hash(cells[i].entry.addr);
    hide M.Hash, Distinct;
    assert ChainOk(t, h) && Belongs(t, i, h);
    forall g | 0 <= g < |chains| && g != h ensures i !in chains[g] {
      assert ChainOk(t, g) && !Belongs(t, i, g);
    }
  }

  lemma OffItsChain(chains: seq<seq<nat>>, chains': seq<seq<nat>>, h: nat, i: nat)
    requires h < |chains| && Distinct(chains[h]) && chains' == chains[h := Without(chains[h], i)]
    requires forall g :: 0 <= g < |chains| && g != h ==> i !in chains[g]
    ensures forall g :: 0 <= g < |chains'| ==> i !in chains'[g]
  {
    WithoutIs(chains[h], i);
    hide Distinct, Without;
  }

  lemma OneValid(entries: seq<Entry>, i: nat)
    requires i < |entries| && entries[i] != Vacant
    ensures M.Valid(entries) > 0
  {
    ValidAt(entries, i, Vacant);
  }

  lemma EntryAt(cells: seq<Cell>, i: nat)
    requires i < |cells|
    ensures Entries(cells)[i] == cells[i].entry
  {
  }

  lemma {:induction false} NoneValid(entries: seq<Entry>)
    requires forall e :: e in entries ==> e == Vacant
    ensures M.Valid(entries) == 0
  {
    if entries != [] {
      assert entries[0] in entries;
      assert forall e :: e in entries[1..] ==> e in entries;
      NoneValid(entries[1..]);
    }
  }
}
