// Data handed over piece by piece, and pieces of pieces.
module Pieces {

  function Concat<T>(pieces: seq<seq<T>>): seq<T> {
    if pieces == [] then [] else pieces[0] + Concat(pieces[1..])
  }

  lemma {:induction false} ConcatJoin<T>(a: seq<seq<T>>, b: seq<seq<T>>)
    ensures Concat(a + b) == Concat(a) + Concat(b)
  {
    if a == [] {
      assert a + b == b;
    } else {
      assert (a + b)[1..] == a[1..] + b;
      ConcatJoin(a[1..], b);
    }
  }

  lemma ConcatMore<T>(pieces: seq<seq<T>>, i: nat)
    requires i < |pieces|
    ensures Concat(pieces[..i + 1]) == Concat(pieces[..i]) + pieces[i]
    ensures |Concat(pieces[..i + 1])| <= |Concat(pieces)|
  {
    assert pieces[..i + 1] == pieces[..i] + [pieces[i]];
    ConcatJoin(pieces[..i], [pieces[i]]);
    ConcatOne(pieces[i]);
    assert pieces == pieces[..i + 1] + pieces[i + 1..];
    ConcatJoin(pieces[..i + 1], pieces[i + 1..]);
  }

  lemma ConcatOne<T>(a: seq<T>)
    ensures Concat([a]) == a
  {
    assert [a][1..] == [];
  }

  lemma ConcatTwo<T>(a: seq<T>, b: seq<T>)
    ensures Concat([a, b]) == a + b
  {
    assert [a, b][1..] == [b];
    ConcatOne(b);
  }

  // A slice of a slice.
  lemma Part<T>(b: seq<T>, pos: nat, len: nat, lo: nat, hi: nat)
    requires pos + len <= |b| && lo <= hi <= len
    ensures b[pos..pos + len][lo..hi] == b[pos + lo..pos + hi]
  {
    var s, x, y := b[pos..pos + len], b[pos..pos + len][lo..hi], b[pos + lo..pos + hi];
    forall j | 0 <= j < hi - lo ensures x[j] == y[j] {
      assert s[lo + j] == b[pos + (lo + j)];
    }
  }
}
