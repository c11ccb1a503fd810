/** The byte-moving loops of kernel/memory/memory.c. */
module Memory {
  import opened Bytes

  /** memcpy between two distinct buffers: one window is replaced, nothing else changes. */
  method Memcpy(src: array<byte>, from: nat, dst: array<byte>, to: nat, size: nat)
    requires src != dst && from + size <= src.Length && to + size <= dst.Length
    modifies dst
    ensures dst[..] == Splice(old(dst[..]), to, src[from..from + size])
  {
    var i := 0;
    while i < size
      invariant 0 <= i <= size
      invariant dst[..] == Splice(old(dst[..]), to, src[from..from + i])
    {
      dst[to + i] := src[from + i];
      i := i + 1;
    }
  }

  /** memset: the first len bytes become data. */
  method Memset(dst: array<byte>, data: byte, len: nat)
    requires len <= dst.Length
    modifies dst
    ensures forall k :: 0 <= k < len ==> dst[k] == data
    ensures forall k :: len <= k < dst.Length ==> dst[k] == old(dst[k])
  {
    var i := 0;
    while i < len
      invariant 0 <= i <= len
      invariant forall k :: 0 <= k < i ==> dst[k] == data
      invariant forall k :: i <= k < dst.Length ==> dst[k] == old(dst[k])
    {
      dst[i] := data;
      i := i + 1;
    }
  }

  /** How many bytes strncpy stores: up to and including the first NUL, never more than size. */
  function CopyLen(src: seq<byte>, size: nat): (n: nat)
    requires 0 in src || size <= |src|
    ensures n <= size && n <= |src|
    ensures forall i | 0 <= i < n - 1 :: src[i] != 0
    ensures n < size ==> n > 0 && src[n - 1] == 0
  {
    if |CString(src)| < size then |CString(src)| + 1 else size
  }

  lemma {:induction false} NoNulWithin(s: seq<byte>, n: nat)
    requires n <= |s| && 0 !in s[..n]
    ensures |CString(s)| >= n
  {
    if n > 0 {
      assert s[0] == s[..n][0];
      assert s[1..][..n - 1] == s[..n][1..];
      NoNulWithin(s[1..], n - 1);
    }
  }

  /** strncpy stops at the terminator and leaves the rest of the destination as it was. */
  method Strncpy(src: array<byte>, dst: array<byte>, to: nat, size: nat)
    requires src != dst && to + size <= dst.Length
    requires 0 in src[..] || size <= src.Length
    modifies dst
    ensures dst[..] == Splice(old(dst[..]), to, src[..CopyLen(src[..], size)])
  {
    var i := 0;
    while i < size
      invariant 0 <= i <= size && i <= src.Length
      invariant 0 !in src[..i]
      invariant dst[..] == Splice(old(dst[..]), to, src[..i])
    {
      assert src[..src.Length] == src[..];
      dst[to + i] := src[i];
      i := i + 1;
      if src[i - 1] == 0 {
        CStringUnique(src[..], i - 1);
        return;
      }
    }
    NoNulWithin(src[..], size);
  }
}
