// NdisMoveMemory and NdisZeroMemory.
module Memory {
  import opened Words

  method MoveMemory<T>(dst: array<T>, off: nat, src: seq<T>)
    requires off + |src| <= dst.Length
    modifies dst
    ensures dst[..] == old(dst[..off]) + src + old(dst[off + |src|..])
  {
    var i := 0;
    while i < |src|
      invariant 0 <= i <= |src|
      invariant dst[..] == old(dst[..off]) + src[..i] + old(dst[off + i..])
    {
      dst[off + i] := src[i];
      i := i + 1;
    }
    assert src[..|src|] == src;
  }

  method ZeroMemory(dst: array<Byte>, off: nat, n: nat)
    requires off + n <= dst.Length
    modifies dst
    ensures dst[..] == old(dst[..off]) + seq(n, _ => 0) + old(dst[off + n..])
  {
    var i := 0;
    while i < n
      invariant 0 <= i <= n
      invariant forall k :: 0 <= k < dst.Length ==> dst[k] == if off <= k < off + i then 0 else old(dst[k])
    {
      dst[off + i] := 0;
      i := i + 1;
    }
  }
}
