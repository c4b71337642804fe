/** memcpy and memmove. */
module Memory {
  import opened Bytes

  /** memcpy between buffers that do not overlap. */
  method CopyBytes(dst: array<byte>, d: nat, src: array<byte>, s: nat, n: nat)
    requires dst != src && d + n <= dst.Length && s + n <= src.Length
    modifies dst
    ensures dst[..] == old(dst[..d]) + src[s..s + n] + old(dst[d + n..])
  {
    PutBytes(dst, d, src[s..s + n]);
  }

  /** memcpy of a string into a buffer. */
  method PutBytes(dst: array<byte>, d: nat, data: seq<byte>)
    requires d + |data| <= dst.Length
    modifies dst
    ensures dst[..] == old(dst[..d]) + data + old(dst[d + |data|..])
  {
    var i := 0;
    while i < |data|
      invariant i <= |data|
      invariant forall k :: 0 <= k < dst.Length ==>
                  dst[k] == if d <= k < d + i then data[k - d] else old(dst[k])
    {
      dst[d + i] := data[i];
      i := i + 1;
    }
  }

  /** memmove of n bytes to the front of the same buffer. */
  method MoveToFront(buf: array<byte>, s: nat, n: nat)
    requires s + n <= buf.Length
    modifies buf
    ensures buf[..n] == old(buf[s..s + n])
  {
    var i := 0;
    while i < n
      invariant i <= n
      invariant forall k :: 0 <= k < i ==> buf[k] == old(buf[s + k])
      invariant forall k :: i <= k < buf.Length ==> buf[k] == old(buf[k])
    {
      buf[i] := buf[s + i];
      i := i + 1;
    }
  }
}
