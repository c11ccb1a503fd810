/** Reading a file back, on every well-formed disk. */
module NqfsReading {
  import opened Bytes
  import opened RamDisk
  import opened NqfsLayout
  import opened NqfsSpec
  import opened NqfsInvariant
  import opened NqfsSteps
  import opened NqfsAppend
  import opened NqfsRefinement
  import opened Counting
  import V = NqfsVolume

  lemma SuffixInData(d: Disk, cs: Chains, f: nat, i: nat)
    requires Linked(d, cs) && f in cs && i < |cs[f]|
    ensures forall b | b in cs[f][i..] :: InData(d, b)
    ensures InData(d, cs[f][i])
    ensures Next(d[cs[f][i]]) == if i + 1 < |cs[f]| then cs[f][i + 1] else 0
  {
    ChainInData(d, cs, f);
    assert PathAt(d, cs[f], i);
  }

  /** From any block of a chain, the loop copies the rest of the chain and then stops short. */
  lemma {:induction false} ReadAlong(d: Disk, cs: Chains, f: nat, i: nat, size: word)
    requires Linked(d, cs) && f in cs && i < |cs[f]|
    ensures var rest := (SuffixInData(d, cs, f, i); Flat(d, cs[f][i..]));
      ReadFrom(d, cs[f][i], size) == (rest[..Min(size, |rest|)], size - Min(size, |rest|))
    decreases size
  {
    hide Linked, Next, Data;
    SuffixInData(d, cs, f, i);
    var c := cs[f];
    assert c[i..][1..] == c[i + 1..];
    var head := Data(d[c[i]]);
    assert Flat(d, c[i..]) == head + Flat(d, c[i + 1..]);
    if size > BLOCK_BYTES && i + 1 < |c| {
      SuffixInData(d, cs, f, i + 1);
      ReadAlong(d, cs, f, i + 1, size - BLOCK_BYTES);
      var rest := Flat(d, c[i + 1..]);
      assert head[..BLOCK_BYTES] == head;
      assert head + rest[..Min(size - BLOCK_BYTES, |rest|)] == (head + rest)[..Min(size, |head + rest|)];
    } else if i + 1 == |c| {
      assert c[i + 1..] == [];
      assert head + [] == head;
    } else {
      assert (head + Flat(d, c[i + 1..]))[..size] == head[..size];
    }
  }

  /** What a user sees of a file is what its chain holds of it. */
  lemma ShownBytes(d: Disk, f: nat)
    requires WellFormed(d) && f in ChainsOf(d)
    ensures f < INODES && f in VolumeOf(d).files
    ensures var all := ChainBytes(d, ChainsOf(d), f);
      |all| == BLOCK_BYTES * |ChainsOf(d)[f]| && VolumeOf(d).files[f].bytes == all[..Min(SizeOf(d, f), |all|)]
  {
    hide ChainsOf, Indexed, Disjoint, Path, LeakedSet, InodeOf, NameField, FreeSet, Size;
    KeysAreInodes(d, ChainsOf(d));
  }

  lemma NoFileNoStart(d: Disk, h: V.Handle)
    requires WellFormed(d) && V.FileOf(h) !in ChainsOf(d)
    ensures Start(InodeOf(d, V.FileOf(h))) == 0
  {
  }

  /**
   A read delivers the first bytes of the file, as many as were asked for and the chain holds. It
   returns how many it could not deliver: nothing, on a disk without leaks.
   */
  lemma ReadDelivers(d: Disk, h: V.Handle, size: word)
    requires WellFormed(d)
    ensures var (bytes, left) := Read(d, h, size);
      var (v, f) := (VolumeOf(d), V.FileOf(h));
      if f !in v.files then bytes == [] && left == 0 else (
        && bytes == v.files[f].bytes[..Min(size, |v.files[f].bytes|)]
        && left == Min(size, SizeOf(d, f)) - |bytes|
        && (Sound(d) ==> left == 0))
  {
    hide ChainsOf, Linked, LeakedSet, Inode, Size, Start, NameField, Data, Next, Sized, CString, FileAt, Flat;
    var f, cs := V.FileOf(h), ChainsOf(d);
    SizeOfSlotZero(d, h);
    if f !in cs {
      NoFileNoStart(d, h);
    } else {
      StartIsHead(d, cs, f);
      ShownBytes(d, f);
      SizedAt(d, f);
      ReadAlong(d, cs, f, 0, Min(SizeOf(d, f), size));
      assert cs[f][0..] == cs[f];
    }
  }
}
