// The linked lists of common/ba_action.c: the same blocks hang on a session's sorted list or
// on the free list, linked by their next fields.
module ReorderList {
  import opened ReorderModel

  // struct reordering_mpdu; id tells the blocks apart.
  class Block {
    const id: nat
    var next: Block?
    var seqno: int
    var pkt: nat

    constructor (id: nat)
      ensures this.id == id && next == null
    {
      this.id, next, seqno, pkt := id, null, 0, 0;
    }
  }

  // What node i links to.
  function After(nodes: seq<Block>, i: nat): Block?
    requires i < |nodes|
  {
    if i + 1 < |nodes| then nodes[i + 1] else null
  }

  // Following next from head visits nodes, one after the other, and then ends.
  ghost predicate Linked(head: Block?, nodes: seq<Block>)
    reads nodes
  {
    head == (if nodes == [] then null else nodes[0])
    && forall i :: 0 <= i < |nodes| ==> nodes[i].next == After(nodes, i)
  }

  predicate Distinct(nodes: seq<Block>) {
    forall i, j :: 0 <= i < j < |nodes| ==> nodes[i] != nodes[j]
  }

  // What the blocks hold.
  ghost function Contents(nodes: seq<Block>): (l: seq<Mpdu>)
    reads nodes
    ensures |l| == |nodes|
  {
    seq(|nodes|, i requires 0 <= i < |nodes| reads nodes => Mpdu(nodes[i].id, nodes[i].seqno, nodes[i].pkt))
  }

  function Ids(nodes: seq<Block>): (s: seq<nat>)
    ensures |s| == |nodes|
  {
    seq(|nodes|, i requires 0 <= i < |nodes| => nodes[i].id)
  }

  function On(nodes: seq<Block>): set<Block> {
    set b | b in nodes
  }

  lemma ContentsTail(nodes: seq<Block>)
    requires nodes != []
    ensures Contents(nodes)[0] == Mpdu(nodes[0].id, nodes[0].seqno, nodes[0].pkt)
    ensures Contents(nodes[1..]) == Contents(nodes)[1..]
  {
  }

  lemma ContentsInsert(nodes: seq<Block>, i: nat, m: Block)
    requires i <= |nodes|
    ensures Contents(nodes[..i] + [m] + nodes[i..])
         == Contents(nodes)[..i] + [Mpdu(m.id, m.seqno, m.pkt)] + Contents(nodes)[i..]
  {
  }

  // Links do not matter to what is held.
  twostate lemma SameContents(nodes: seq<Block>)
    requires forall b :: b in nodes ==> b.seqno == old(b.seqno) && b.pkt == old(b.pkt)
    ensures Contents(nodes) == old(Contents(nodes))
  {
  }

  lemma IdsHead(b: Block, nodes: seq<Block>)
    ensures Ids([b] + nodes) == [b.id] + Ids(nodes)
    ensures On([b] + nodes) == {b} + On(nodes)
  {
  }

  lemma IdsTail(nodes: seq<Block>)
    requires nodes != []
    ensures Ids(nodes)[0] == nodes[0].id && Ids(nodes[1..]) == Ids(nodes)[1..]
    ensures On(nodes) == {nodes[0]} + On(nodes[1..])
  {
    assert nodes == [nodes[0]] + nodes[1..];
  }

  lemma OnInsert(nodes: seq<Block>, i: nat, m: Block)
    requires i <= |nodes|
    ensures On(nodes[..i] + [m] + nodes[i..]) == On(nodes) + {m}
  {
    assert nodes == nodes[..i] + nodes[i..];
  }

  lemma DistinctAt(nodes: seq<Block>, i: nat)
    requires Distinct(nodes) && 0 < i <= |nodes|
    ensures forall k :: 0 <= k < |nodes| && k != i - 1 ==> nodes[k] != nodes[i - 1]
  {
  }

  // Where the links go once m has been put in at place i.
  lemma AfterInserted(nodes: seq<Block>, i: nat, m: Block, k: nat)
    requires i <= |nodes| && k <= |nodes|
    ensures var r := nodes[..i] + [m] + nodes[i..];
            if k < i then r[k] == nodes[k] && After(r, k) == if k == i - 1 then m else After(nodes, k)
            else if k == i then r[k] == m && After(r, k) == if i < |nodes| then nodes[i] else null
            else r[k] == nodes[k - 1] && After(r, k) == After(nodes, k - 1)
  {
  }

  lemma InsertedDistinct(nodes: seq<Block>, i: nat, m: Block)
    requires Distinct(nodes) && m !in nodes && i <= |nodes|
    ensures Distinct(nodes[..i] + [m] + nodes[i..])
  {
    var r := nodes[..i] + [m] + nodes[i..];
    forall j, k | 0 <= j < k < |r| ensures r[j] != r[k] {
      assert r[j] == if j < i then nodes[j] else if j == i then m else nodes[j - 1];
      assert r[k] == if k < i then nodes[k] else if k == i then m else nodes[k - 1];
    }
  }

  // struct reordering_list
  class ReorderingList {
    var next: Block?
    var qlen: int
    ghost var nodes: seq<Block>

    ghost predicate Valid()
      reads this, nodes
    {
      Linked(next, nodes) && Distinct(nodes) && qlen == |nodes|
    }

    constructor ()
      ensures Valid() && nodes == []
    {
      next, qlen, nodes := null, 0, [];
    }

    // ba_enqueue
    method Enqueue(b: Block)
      requires Valid() && b !in nodes
      modifies this, b`next
      ensures Valid() && nodes == [b] + old(nodes)
    {
      qlen := qlen + 1;
      b.next := next;
      next := b;
      ghost var was := nodes;
      nodes := [b] + nodes;
      forall i | 0 < i < |nodes|
        ensures nodes[i].next == After(nodes, i)
      {
        assert nodes[i] == was[i - 1] && was[i - 1].next == old(was[i - 1].next);
      }
    }

    // ba_dequeue: it looks at qlen first
    method Dequeue() returns (b: Block?)
      requires Valid()
      modifies this, nodes`next
      ensures Valid() && (b == null <==> old(nodes) == [])
      ensures b != null ==> b == old(nodes)[0] && nodes == old(nodes)[1..] && b !in nodes
      ensures b == null ==> nodes == []
    {
      b := null;
      if qlen != 0 {
        qlen := qlen - 1;
        b := next;
        if b != null {
          next := b.next;
          assert b.next == old(nodes[0].next);
          b.next := null;
          ghost var was := nodes;
          nodes := nodes[1..];
          forall i | 0 <= i < |nodes|
            ensures nodes[i].next == After(nodes, i)
          {
            assert nodes[i] == was[i + 1] != was[0] && was[i + 1].next == old(was[i + 1].next);
          }
        }
      }
    }

    // ba_reordering_mpdu_insertsorted; ppScan is the next field of scan, or that of the list.
    method InsertSorted(m: Block) returns (inserted: bool)
      requires Valid() && m !in nodes
      modifies this, nodes`next, m`next
      ensures Valid()
      ensures var l := old(Contents(nodes)); var i := InsertPos(Circular, l, m.seqno);
              && inserted == !(i < |l| && l[i].seqno == m.seqno)
              && nodes == if inserted then old(nodes)[..i] + [m] + old(nodes)[i..] else old(nodes)
    {
      ghost var i := 0;
      ghost var l := Contents(nodes);
      assert l[0..] == l;
      var scan: Block?, at: Block? := null, next;
      while at != null
        invariant 0 <= i <= |nodes| && at == (if i < |nodes| then nodes[i] else null)
        invariant scan == (if i == 0 then null else nodes[i - 1])
        invariant InsertPos(Circular, l, m.seqno) == i + InsertPos(Circular, l[i..], m.seqno)
        decreases |nodes| - i
      {
        assert l[i..][0] == l[i] && l[i..][1..] == l[i + 1..];
        if Smaller(Circular, at.seqno, m.seqno) {
          assert at.next == old(nodes[i].next);
          scan, at := at, at.next;
          i := i + 1;
        } else if at.seqno == m.seqno {
          return false;
        } else {
          break;
        }
      }
      LinkBefore(m, scan, at, i);
      return true;
    }

    method LinkBefore(m: Block, scan: Block?, at: Block?, ghost i: nat)
      requires Valid() && m !in nodes && i <= |nodes|
      requires scan == (if i == 0 then null else nodes[i - 1]) && at == (if i < |nodes| then nodes[i] else null)
      modifies this, nodes`next, m`next
      ensures Valid() && nodes == old(nodes)[..i] + [m] + old(nodes)[i..]
    {
      hide After, Distinct;
      ghost var was := nodes;
      if i > 0 {
        DistinctAt(was, i);
      }
      m.next := at;
      if scan == null {
        next := m;
      } else {
        scan.next := m;
      }
      qlen := qlen + 1;
      nodes := nodes[..i] + [m] + nodes[i..];
      forall k | 0 <= k < |nodes|
        ensures nodes[k].next == After(nodes, k)
      {
        AfterInserted(was, i, m, k);
        if k < i - 1 {
          assert was[k].next == old(was[k].next);
        } else if k > i {
          assert was[k - 1].next == old(was[k - 1].next);
        }
      }
      InsertedDistinct(was, i, m);
    }
  }
}
