// ARCFOUR_INIT, ARCFOUR_BYTE, ARCFOUR_ENCRYPT and ARCFOUR_DECRYPT (common/rtmp_wep.c).
module Arcfour {
  import opened Words

  type Index = n: nat | n < 256

  function Value(b: Byte): Index { b as nat }
  function AsByte(i: Index): Byte { i as bv8 }

  lemma ValueBack(b: Byte)
    ensures AsByte(Value(b)) == b
  {
  }

  // The state of the cipher as a value.
  datatype Rc4 = Rc4(s: seq<Index>, x: Index, y: Index)

  predicate Sized(c: Rc4) { |c.s| == 256 }

  function Identity(): (s: seq<Index>)
    ensures |s| == 256
  {
    seq(256, i requires 0 <= i < 256 => i)
  }

  // The state table holds every byte value exactly once.
  ghost predicate Permutation(s: seq<Index>) {
    multiset(s) == multiset(Identity())
  }

  function Swap(s: seq<Index>, i: Index, j: Index): (t: seq<Index>)
    requires |s| == 256
    ensures |t| == 256
  {
    s[i := s[j]][j := s[i]]
  }

  datatype Mix = Mix(s: seq<Index>, j: Index)

  // Key scheduling: n rounds, round k using key byte k mod |key|.
  function Scheduled(key: seq<Byte>, n: nat): (m: Mix)
    requires key != [] && n <= 256
    ensures |m.s| == 256
  {
    if n == 0 then Mix(Identity(), 0)
    else
      var m := Scheduled(key, n - 1);
      var j := (m.j + Value(key[(n - 1) % |key|]) + m.s[n - 1]) % 256;
      Mix(Swap(m.s, n - 1, j), j)
  }

  function Initial(key: seq<Byte>): (c: Rc4)
    requires key != []
    ensures Sized(c)
  {
    Rc4(Scheduled(key, 256).s, 0, 0)
  }

  // One step of the generator, and the byte it leaves to be used.
  function Next(c: Rc4): (d: Rc4)
    requires Sized(c)
    ensures Sized(d)
  {
    var x := (c.x + 1) % 256;
    var y := (c.s[x] + c.y) % 256;
    Rc4(Swap(c.s, x, y), x, y)
  }

  function Output(c: Rc4): Byte
    requires Sized(c)
  {
    var i: nat, j: nat := c.s[c.x], c.s[c.y];
    AsByte(c.s[(i + j) % 256])
  }

  function After(c: Rc4, n: nat): (d: Rc4)
    requires Sized(c)
    ensures Sized(d)
    decreases n
  {
    if n == 0 then c else After(Next(c), n - 1)
  }

  function Crypt(c: Rc4, data: seq<Byte>): (r: seq<Byte>)
    requires Sized(c)
    ensures |r| == |data|
    decreases |data|
  {
    if data == [] then []
    else [XorByte(data[0], Output(Next(c)))] + Crypt(Next(c), data[1..])
  }

  // How scheduling with the key 01 02 03 begins: the first rounds exchange entries 0 and 1, 1
  // and 3, and 2 and 8.
  lemma FirstRounds()
    ensures var m := Scheduled([1, 2, 3], 3);
            m.j == 8 && m.s[0] == 1 && m.s[1] == 3 && m.s[2] == 8 && m.s[3] == 0 && m.s[8] == 2
            && forall i :: 4 <= i < 256 && i != 8 ==> m.s[i] == i
  {
    var key: seq<Byte> := [1, 2, 3];
    ValueSmall();
    hide Value;
    assert Scheduled(key, 0) == Mix(Identity(), 0);
    assert Scheduled(key, 1) == Mix(Swap(Identity(), 0, 1), 1);
    var m := Scheduled(key, 2);
    assert m.j == 3 && m.s[0] == 1 && m.s[1] == 3 && m.s[3] == 0 && m.s[2] == 2;
  }

  lemma ValueSmall()
    ensures Value(1) == 1 && Value(2) == 2 && Value(3) == 3
  {
  }

  lemma FirstStep(c: Rc4)
    requires Sized(c) && c.x == 0 && c.y == 0 && forall i :: 0 <= i < 256 ==> c.s[i] == i
    ensures var d := Next(c);
            d.x == 1 && d.y == 1 && (forall i :: 0 <= i < 256 ==> d.s[i] == i) && Output(d) == AsByte(2)
  {
    hide AsByte;
  }

  lemma SecondStep(c: Rc4)
    requires Sized(c) && c.x == 1 && c.y == 1 && forall i :: 0 <= i < 256 ==> c.s[i] == i
    ensures var d := Next(c);
            && d.x == 2 && d.y == 3 && d.s[2] == 3 && d.s[3] == 2
            && (forall i :: 4 <= i < 256 ==> d.s[i] == i) && Output(d) == AsByte(5)
  {
    hide AsByte;
  }

  lemma ThirdStep(c: Rc4)
    requires Sized(c) && c.x == 2 && c.y == 3 && c.s[3] == 2 && forall i :: 4 <= i < 256 ==> c.s[i] == i
    ensures Output(Next(c)) == AsByte(7)
  {
    hide AsByte;
  }

  // The first bytes from a table that is still in order are 02 05 07.
  lemma FirstOutputs()
    ensures var c := Rc4(Identity(), 0, 0);
            Output(After(c, 1)) == 2 && Output(After(c, 2)) == 5 && Output(After(c, 3)) == 7
  {
    InOrder();
    AsByteSmall();
    hide AsByte, Identity, Next, Output;
    var c := Rc4(Identity(), 0, 0);
    FirstStep(c);
    SecondStep(Next(c));
    ThirdStep(Next(Next(c)));
    assert After(c, 1) == After(Next(c), 0);
    assert After(c, 2) == After(Next(c), 1) == After(Next(Next(c)), 0);
    assert After(c, 3) == After(Next(c), 2) == After(Next(Next(c)), 1) == After(Next(Next(Next(c))), 0);
  }

  lemma AsByteSmall()
    ensures AsByte(2) == 2 && AsByte(5) == 5 && AsByte(7) == 7
  {
    ValueBack(2);
    ValueBack(5);
    ValueBack(7);
    hide AsByte;
  }

  lemma InOrder()
    ensures forall i :: 0 <= i < 256 ==> Identity()[i] == i
  {
  }

  lemma SwapPermutes(s: seq<Index>, i: Index, j: Index)
    requires |s| == 256
    ensures multiset(Swap(s, i, j)) == multiset(s)
  {
  }

  lemma {:induction false} ScheduleKeepsPermutation(key: seq<Byte>, n: nat)
    requires key != [] && n <= 256
    ensures Permutation(Scheduled(key, n).s)
  {
    hide Swap, Identity, Value;
    if n > 0 {
      ScheduleKeepsPermutation(key, n - 1);
      var m := Scheduled(key, n - 1);
      SwapPermutes(m.s, n - 1, (m.j + Value(key[(n - 1) % |key|]) + m.s[n - 1]) % 256);
    }
  }

  // For every key and any amount of data the table stays a permutation of 0..255.
  lemma {:induction false} PermutationAlways(c: Rc4, n: nat)
    requires Sized(c) && Permutation(c.s)
    ensures Permutation(After(c, n).s)
    decreases n
  {
    hide Swap, Identity;
    if n > 0 {
      var x := (c.x + 1) % 256;
      SwapPermutes(c.s, x, (c.s[x] + c.y) % 256);
      PermutationAlways(Next(c), n - 1);
    }
  }

  lemma StateIsPermutation(key: seq<Byte>, n: nat)
    requires key != []
    ensures Permutation(After(Initial(key), n).s)
  {
    ScheduleKeepsPermutation(key, 256);
    PermutationAlways(Initial(key), n);
  }

  function Previous(c: Rc4): (d: Rc4)
    requires Sized(c)
  {
    Rc4(Swap(c.s, c.x, c.y), (c.x + 255) % 256, (c.y + 256 - c.s[c.y]) % 256)
  }

  lemma SwapTwice(s: seq<Index>, i: Index, j: Index)
    requires |s| == 256
    ensures Swap(Swap(s, i, j), i, j) == s && Swap(s, i, j)[j] == s[i]
  {
  }

  lemma SumBack(a: Index, b: Index)
    ensures ((a + b) % 256 + 256 - a) % 256 == b
  {
  }

  lemma CountBack(x: Index)
    ensures ((x + 1) % 256 + 255) % 256 == x
  {
  }

  // A step can be taken back, so different states never run into the same one.
  lemma StepBack(c: Rc4)
    requires Sized(c)
    ensures Previous(Next(c)) == c
  {
    var x := (c.x + 1) % 256;
    var y := (c.s[x] + c.y) % 256;
    SwapTwice(c.s, x, y);
    CountBack(c.x);
    SumBack(c.s[x], c.y);
    hide Swap;
  }

  // Data cut in two is encrypted as if it were whole.
  lemma {:induction false} CryptJoin(c: Rc4, a: seq<Byte>, b: seq<Byte>)
    requires Sized(c)
    ensures Crypt(c, a + b) == Crypt(c, a) + Crypt(After(c, |a|), b)
    decreases |a|
  {
    hide Next, Output, XorByte;
    if a == [] {
      assert a + b == b;
    } else {
      assert (a + b)[1..] == a[1..] + b;
      CryptJoin(Next(c), a[1..], b);
    }
  }

  lemma {:induction false} CryptTwice(c: Rc4, data: seq<Byte>)
    requires Sized(c)
    ensures Crypt(c, Crypt(c, data)) == data
    decreases |data|
  {
    hide Next, Output, XorByte;
    if data != [] {
      XorByteTwice(data[0], Output(Next(c)));
      CryptTwice(Next(c), data[1..]);
      assert Crypt(c, data)[1..] == Crypt(Next(c), data[1..]);
    }
  }

  lemma {:induction false} AfterNext(c: Rc4, n: nat)
    requires Sized(c)
    ensures After(c, n + 1) == Next(After(c, n))
    decreases n
  {
    hide Next;
    if n > 0 {
      AfterNext(Next(c), n - 1);
    }
  }

  // ARCFOURCONTEXT
  class Context {
    const state: array<Index>
    var x: Index
    var y: Index

    ghost predicate Valid() { state.Length == 256 }

    // Data buffers are other objects than the state table.
    ghost predicate Apart(buffer: object) { buffer != state }

    ghost function Contents(): (c: Rc4)
      reads this, state
      requires Valid()
      ensures Sized(c)
    {
      Rc4(state[..], x, y)
    }

    constructor ()
      ensures Valid() && fresh(state)
    {
      state := new Index[256];
      x, y := 0, 0;
    }

    // ARCFOUR_INIT
    method Init(key: seq<Byte>)
      requires Valid() && key != []
      modifies this, state
      ensures Contents() == Initial(key)
    {
      hide Value, Identity, Swap;
      x, y := 0, 0;
      Fill();
      var keyindex, stateindex, counter := 0, 0, 0;
      while counter < 256
        invariant 0 <= counter <= 256 && keyindex == counter % |key| && x == y == 0
        invariant 0 <= stateindex < 256 && Mix(state[..], stateindex) == Scheduled(key, counter)
      {
        stateindex := ScheduleRound(key, counter, keyindex, stateindex);
        keyindex := keyindex + 1;
        if keyindex >= |key| {
          keyindex := 0;
        }
        NextRemainder(counter, |key|);
        counter := counter + 1;
      }
    }

    // One round of key scheduling.
    method ScheduleRound(key: seq<Byte>, counter: nat, keyindex: nat, stateindex: Index) returns (j: Index)
      requires Valid() && key != [] && counter < 256 && keyindex == counter % |key|
      requires Mix(state[..], stateindex) == Scheduled(key, counter)
      modifies state
      ensures Mix(state[..], j) == Scheduled(key, counter + 1)
    {
      hide Value, Scheduled;
      ScheduledNext(key, counter, keyindex);
      var t := state[counter];
      j := (stateindex + Value(key[keyindex]) + t) % 256;
      var u := state[j];
      ghost var before := state[..];
      state[j] := t;
      state[counter] := u;
      assert state[..] == Swap(before, counter, j);
    }

    method Fill()
      requires Valid()
      modifies state
      ensures state[..] == Identity()
    {
      var counter := 0;
      while counter < 256
        invariant 0 <= counter <= 256
        invariant forall i :: 0 <= i < counter ==> state[i] == i
      {
        state[counter] := counter;
        counter := counter + 1;
      }
    }

    // ARCFOUR_BYTE
    method NextByte() returns (b: Byte)
      requires Valid()
      modifies this, state
      ensures Contents() == Next(old(Contents())) && b == Output(Contents())
    {
      hide AsByte;
      var x' := (x + 1) % 256;
      var sx := state[x'];
      var y' := (sx + y) % 256;
      var sy := state[y'];
      x, y := x', y';
      state[y'] := sx;
      state[x'] := sy;
      assert state[..] == Swap(old(state[..]), x', y');
      b := AsByte(state[(sx + sy) % 256]);
    }

    // ARCFOUR_ENCRYPT and ARCFOUR_DECRYPT, whose bodies are the same.  The two buffers may be
    // one, as long as the destination does not lie after the source.
    method Encrypt(dest: array<Byte>, d: nat, src: array<Byte>, s: nat, len: nat)
      requires Valid() && d + len <= dest.Length && s + len <= src.Length
      requires (dest != src || d <= s) && Apart(dest) && Apart(src)
      modifies this, state, dest
      ensures Contents() == After(old(Contents()), len)
      ensures dest[d..d + len] == Crypt(old(Contents()), old(src[s..s + len]))
      ensures dest[..d] == old(dest[..d]) && dest[d + len..] == old(dest[d + len..])
    {
      hide Next, Output, Crypt, After, XorByte;
      ghost var c, data := Contents(), src[s..s + len];
      CryptStart(c, data);
      var i := 0;
      while i < len
        invariant 0 <= i <= len && Contents() == After(c, i)
        invariant src[s + i..s + len] == data[i..]
        invariant dest[d..d + i] == Crypt(c, data[..i])
        invariant dest[..d] == old(dest[..d]) && dest[d + len..] == old(dest[d + len..])
      {
        EncryptStep(dest, d, src, s, len, i, c, data);
        i := i + 1;
      }
      assert data[..len] == data;
    }

    // One turn of that loop.
    method EncryptStep(dest: array<Byte>, d: nat, src: array<Byte>, s: nat, len: nat, i: nat, ghost c: Rc4,
                       ghost data: seq<Byte>)
      requires Valid() && d + len <= dest.Length && s + len <= src.Length
      requires (dest != src || d <= s) && Apart(dest) && Apart(src)
      requires i < len == |data| && Sized(c) && Contents() == After(c, i)
      requires src[s + i..s + len] == data[i..] && dest[d..d + i] == Crypt(c, data[..i])
      modifies this, state, dest
      ensures Contents() == After(c, i + 1)
      ensures src[s + (i + 1)..s + len] == data[i + 1..] && dest[d..d + (i + 1)] == Crypt(c, data[..i + 1])
      ensures dest[..d] == old(dest[..d]) && dest[d + len..] == old(dest[d + len..])
    {
      hide Next, Output, Crypt, After, XorByte;
      CryptMore(c, data, i);
      AfterNext(c, i);
      ghost var was, before := src[..], dest[..];
      ghost var b := XorByte(data[i], Output(Next(After(c, i))));
      assert was[s + i..s + len] == data[i..] && src[s + i] == data[i..][0];
      EncryptByte(dest, d + i, src, s + i);
      LeftToRead(was, src[..], s + i, s + len, data[i..], d + i, b);
      Written(before, dest[..], d, i, d + len, b);
      assert dest[..][d..d + (i + 1)] == dest[d..d + (i + 1)] && before[d..d + i] == old(dest[d..d + i]);
    }

    method EncryptByte(dest: array<Byte>, d: nat, src: array<Byte>, s: nat)
      requires Valid() && d < dest.Length && s < src.Length && Apart(dest) && Apart(src)
      modifies this, state, dest
      ensures Contents() == Next(old(Contents()))
      ensures dest[..] == old(dest[..][d := XorByte(src[s], Output(Next(Contents())))])
      ensures dest != src ==> src[..] == old(src[..])
    {
      hide Next, Output, XorByte;
      var k := NextByte();
      dest[d] := XorByte(src[s], k);
    }
  }

  lemma LeftToRead(was: seq<Byte>, now: seq<Byte>, from: nat, to: nat, data: seq<Byte>, k: nat, b: Byte)
    requires from < to <= |was| == |now| && was[from..to] == data
    requires now == was || (k <= from && now == was[k := b])
    ensures now[from + 1..to] == data[1..]
  {
  }

  lemma Written(was: seq<Byte>, now: seq<Byte>, d: nat, i: nat, end: nat, b: Byte)
    requires d + i < end <= |was| && now == was[d + i := b]
    ensures now[d..d + (i + 1)] == was[d..d + i] + [b] && now[..d] == was[..d] && now[end..] == was[end..]
  {
  }

  lemma ScheduledNext(key: seq<Byte>, n: nat, k: nat)
    requires key != [] && n < 256 && k == n % |key|
    ensures var m := Scheduled(key, n); var j := (m.j + Value(key[k]) + m.s[n]) % 256;
            k < |key| && Scheduled(key, n + 1) == Mix(Swap(m.s, n, j), j)
  {
    hide Value, Swap, Identity;
  }

  lemma CryptStart(c: Rc4, data: seq<Byte>)
    requires Sized(c)
    ensures After(c, 0) == c && Crypt(c, data[..0]) == []
  {
  }

  lemma CryptMore(c: Rc4, data: seq<Byte>, i: nat)
    requires Sized(c) && i < |data|
    ensures Crypt(c, data[..i + 1]) == Crypt(c, data[..i]) + [XorByte(data[i], Output(Next(After(c, i))))]
  {
    hide Next, Output, XorByte;
    assert data[..i + 1] == data[..i] + [data[i]];
    CryptJoin(c, data[..i], [data[i]]);
    assert [data[i]][1..] == [];
  }

  lemma NextRemainder(k: nat, n: nat)
    requires n > 0
    ensures (k + 1) % n == if k % n + 1 >= n then 0 else k % n + 1
  {
    var q := k / n;
    assert k == q * n + k % n;
    if k % n + 1 >= n {
      assert k + 1 == (q + 1) * n + 0;
      Divided(k + 1, n, q + 1, 0);
    } else {
      Divided(k + 1, n, q, k % n + 1);
    }
  }

  lemma Divided(x: int, n: int, q: int, r: int)
    requires n > 0 && x == q * n + r && 0 <= r < n
    ensures x % n == r
  {
    var d := x / n - q;
    assert x == (x / n) * n + x % n;
    assert d * n == (x / n) * n - q * n;
    assert d >= 1 ==> d * n >= n;
    assert d <= -1 ==> d * n <= -n;
  }
}
