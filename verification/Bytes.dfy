/** Bytes, 32-bit words, and little-endian words inside a byte string. */
module Bytes {
  type byte = x: int | 0 <= x < 0x100
  type word = x: int | 0 <= x < 0x1_0000_0000

  /** The 32-bit little-endian word at offset off. */
  function Word(s: seq<byte>, off: nat): (w: word)
    requires off + 4 <= |s|
  {
    s[off] as int + 0x100 * (s[off + 1] as int) + 0x1_0000 * (s[off + 2] as int) + 0x100_0000 * (s[off + 3] as int)
  }

  /** The k-th little-endian byte of a word. */
  function WordByte(w: word, k: nat): byte
    requires k < 4
  {
    if k == 0 then w % 0x100
    else if k == 1 then w / 0x100 % 0x100
    else if k == 2 then w / 0x100 / 0x100 % 0x100
    else w / 0x100 / 0x100 / 0x100
  }

  lemma WordSplits(w: word)
    ensures WordByte(w, 0) as int + 0x100 * (WordByte(w, 1) as int) + 0x1_0000 * (WordByte(w, 2) as int)
            + 0x100_0000 * (WordByte(w, 3) as int) == w
  {
  }

  /** s with the word w stored at offset off, as a little-endian machine stores it. */
  function WithWord(s: seq<byte>, off: nat, w: word): (r: seq<byte>)
    requires off + 4 <= |s|
    ensures |r| == |s|
    ensures forall i :: 0 <= i < |s| && (i < off || off + 4 <= i) ==> r[i] == s[i]
    ensures Word(r, off) == w
  {
    WordSplits(w);
    seq(|s|, i requires 0 <= i < |s| => if off <= i < off + 4 then WordByte(w, i - off) else s[i])
  }

  lemma WordJoins(s: seq<byte>, off: nat)
    requires off + 4 <= |s|
    ensures forall k :: 0 <= k < 4 ==> WordByte(Word(s, off), k) == s[off + k]
  {
    var a, b, c, e := s[off] as int, s[off + 1] as int, s[off + 2] as int, s[off + 3] as int;
    var w := a + 0x100 * b + 0x1_0000 * c + 0x100_0000 * e;
    assert w / 0x100 == b + 0x100 * c + 0x1_0000 * e;
    assert w / 0x100 / 0x100 == c + 0x100 * e;
  }

  /** Byte strings one after the other. */
  function Joined(parts: seq<seq<byte>>): (r: seq<byte>) {
    if parts == [] then [] else Joined(parts[..|parts| - 1]) + parts[|parts| - 1]
  }

  /** A C string: the bytes before the first NUL (all of them when there is none). */
  function CString(s: seq<byte>): (r: seq<byte>)
    ensures r <= s
    ensures 0 !in r
    ensures |r| < |s| ==> s[|r|] == 0
  {
    if s == [] || s[0] == 0 then [] else [s[0]] + CString(s[1..])
  }

  /** bs written over the window of s that starts at off. */
  function Splice(s: seq<byte>, off: nat, bs: seq<byte>): (r: seq<byte>)
    requires off + |bs| <= |s|
    ensures |r| == |s|
    ensures forall i :: 0 <= i < |s| ==> r[i] == if off <= i < off + |bs| then bs[i - off] else s[i]
  {
    seq(|s|, i requires 0 <= i < |s| => if off <= i < off + |bs| then bs[i - off] else s[i])
  }

  /** Those three facts pin the C string down. */
  lemma {:induction false} CStringUnique(s: seq<byte>, n: nat)
    requires n <= |s| && 0 !in s[..n] && (n < |s| ==> s[n] == 0)
    ensures CString(s) == s[..n]
  {
    if n > 0 {
      assert s[0] == s[..n][0];
      assert s[1..][..n - 1] == s[..n][1..];
      CStringUnique(s[1..], n - 1);
      assert s[..n] == [s[0]] + s[1..][..n - 1];
    }
  }
}
