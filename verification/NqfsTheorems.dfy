/** What each operation of the file system does to the volume a user sees, on every well-formed disk. */
module NqfsTheorems {
  import opened Bytes
  import opened RamDisk
  import opened NqfsLayout
  import opened NqfsSpec
  import opened NqfsInvariant
  import opened NqfsSteps
  import opened NqfsLeaks
  import opened Counting
  import opened NqfsRefinement
  import V = NqfsVolume

  lemma SameContents(d: Disk, cs: Chains, e: Disk, es: Chains, g: nat)
    requires Linked(d, cs) && Linked(e, es) && g in cs && g in es && SameFile(d, cs, e, es, g)
    ensures Contents(e, es, g) == Contents(d, cs, g)
  {
    KeysAreInodes(d, cs);
  }

  lemma SameShown(d: Disk, cs: Chains, e: Disk, es: Chains, g: nat)
    requires Linked(d, cs) && Linked(e, es) && g in cs && g in es && SameFile(d, cs, e, es, g)
    ensures FileAt(e, es, g) == FileAt(d, cs, g)
  {
    SameContents(d, cs, e, es, g);
  }

  lemma GrownShown(d: Disk, cs: Chains, e: Disk, es: Chains, f: nat, added: seq<byte>)
    requires Grown(d, cs, e, es, f, added)
    ensures FileAt(e, es, f) == FileAt(d, cs, f).(bytes := FileAt(d, cs, f).bytes + added)
  {
    hide Linked, LeakedSet, FreeSet, SameFile, InodeOf, NameField, SizeOf, ChainBytes;
  }

  lemma GrownVolume(d: Disk, e: Disk, es: Chains, f: nat, added: seq<byte>)
    requires WellFormed(d) && Grown(d, ChainsOf(d), e, es, f, added) && Sized(e, es)
    ensures WellFormed(e) && Leaks(e) == Leaks(d)
    ensures var v := VolumeOf(d);
      && f in v.files
      && VolumeOf(e).files == v.files[f := v.files[f].(bytes := v.files[f].bytes + added)]
  {
    hide ChainsOf, Linked, Sized, LeakedSet, FreeSet, FileAt, SameFile, Fits, Contents, InodeOf, NameField, SizeOf;
    var cs := ChainsOf(d);
    IsWellFormed(e, es);
    KeysAreInodes(d, cs);
    forall g | g in cs && g != f
      ensures FileAt(e, es, g) == FileAt(d, cs, g)
    {
      SameShown(d, cs, e, es, g);
    }
    GrownShown(d, cs, e, es, f, added);
  }

  /** A file whose chain holds all of it shows its full size. */
  lemma ShownSize(d: Disk, f: nat)
    requires WellFormed(d) && f in ChainsOf(d)
    ensures f < INODES && f in VolumeOf(d).files
    ensures |VolumeOf(d).files[f].bytes|
         == if SizeOf(d, f) <= BLOCK_BYTES * |ChainsOf(d)[f]| then SizeOf(d, f) else BLOCK_BYTES * |ChainsOf(d)[f]|
  {
    hide ChainsOf, Indexed, Disjoint, Path, LeakedSet, InodeOf, NameField, FreeSet, Size;
    KeysAreInodes(d, ChainsOf(d));
  }

  /** How much of the input is stored follows from the free blocks alone. */
  lemma AcceptedArith(v: V.Volume, f: nat, n: nat, len: nat, chain: nat, chain': nat, free': nat)
    requires f in v.files && n <= len
    requires var s := |v.files[f].bytes|;
      chain == Blocks(s) && chain' == Blocks(s + n) && free' + chain' == v.free + chain
      && (n < len ==> free' == 0 && s + n == BLOCK_BYTES * chain')
    ensures V.Accepted(v, f, len) == n
  {
    BlocksCover(|v.files[f].bytes| + n);
  }

  lemma FullArith(s: nat, k: nat)
    requires k <= s / BLOCK_BYTES && k > 0
    ensures s >= BLOCK_BYTES * k && Blocks(BLOCK_BYTES * k) == k && BLOCK_BYTES * k % BLOCK_BYTES == 0
  {
  }

  lemma AppendNoRoom(v: V.Volume, h: V.Handle, bytes: seq<byte>)
    requires V.FileOf(h) in v.files && v.free == 0
    requires var s := |v.files[V.FileOf(h)].bytes|; s == BLOCK_BYTES * Blocks(s)
    ensures V.Append(v, h, bytes) == (v, 0)
  {
    var f := V.FileOf(h);
    assert v.files[f].bytes + bytes[..0] == v.files[f].bytes;
    assert v.files[f := v.files[f]] == v.files;
  }

  lemma SpilledShown(d: Disk, e: Disk, cs: Chains, f: nat, g: nat)
    requires Spilled(d, e, cs, f) && g in cs && f in cs && BLOCK_BYTES * |cs[f]| <= SizeOf(d, f)
    ensures FileAt(e, cs, g) == FileAt(d, cs, g)
  {
    hide Indexed, Disjoint, Path, LeakedSet, FreeSet, InodeOf, NameField, ChainBytes, Size;
    KeysAreInodes(d, cs);
  }

  /**
   What an append past the chain returns, takes and records. It reports success whenever the free blocks
   suffice, although nothing it writes can be read; all blocks that it takes are lost; and the size that it
   leaves behind counts the bytes that went there.
   */
  ghost predicate Overrun(d: Disk, h: V.Handle, bytes: seq<byte>, out: Outcome)
    requires WellFormed(d) && WellFormed(out.disk)
    requires V.FileOf(h) in VolumeOf(d).files
    requires |VolumeOf(d).files[V.FileOf(h)].bytes| / BLOCK_BYTES <= SizeOf(d, V.FileOf(h)) / BLOCK_BYTES
  {
    var (size, free) := (SizeOf(d, V.FileOf(h)), |FreeSet(d)|);
    var chain := |VolumeOf(d).files[V.FileOf(h)].bytes| / BLOCK_BYTES;
    && out.ret as nat == (if Wanted(size, chain, |bytes|) <= free then |bytes| else 0)
    && |Leaks(out.disk)| == |Leaks(d)| + Min(Wanted(size, chain, |bytes|), free)
    && SizeOf(out.disk, V.FileOf(h)) == size + Recorded(size, chain, |bytes|, free)
  }

  /** No file shows more than its size field says. */
  lemma ShownWithinSize(d: Disk, f: nat)
    requires WellFormed(d) && f in VolumeOf(d).files
    ensures f < INODES && |VolumeOf(d).files[f].bytes| / BLOCK_BYTES <= SizeOf(d, f) / BLOCK_BYTES
  {
    hide ChainsOf, Linked, Sized, LeakedSet, InodeOf, Size, FileAt, FreeSet;
    ShownSize(d, f);
  }

  lemma ChainShown(d: Disk, f: nat)
    requires WellFormed(d) && f in ChainsOf(d) && f < INODES && |ChainsOf(d)[f]| <= SizeOf(d, f) / BLOCK_BYTES
    ensures f in VolumeOf(d).files && |VolumeOf(d).files[f].bytes| / BLOCK_BYTES == |ChainsOf(d)[f]|
  {
    hide ChainsOf, Linked, Sized, LeakedSet, InodeOf, Size, FileAt, FreeSet;
    ShownSize(d, f);
  }

  lemma WantsSome(size: nat, chain: nat, n: nat)
    requires chain <= size / BLOCK_BYTES
    ensures Wanted(size, chain, n) > 0
  {
  }

  /** Past the end of the chain nothing that can be read changes, and only a full disk is harmless. */
  lemma AppendBeyond(d: Disk, h: V.Handle, bytes: seq<byte>)
    requires WellFormed(d) && |bytes| < 0x1_0000_0000 && V.FileOf(h) in ChainsOf(d)
    requires |ChainsOf(d)[V.FileOf(h)]| <= SizeOf(d, V.FileOf(h)) / BLOCK_BYTES
    ensures var out := Write(d, h, bytes);
      && WellFormed(out.disk) && Leaks(d) <= Leaks(out.disk)
      && VolumeOf(out.disk).files == VolumeOf(d).files
      && (V.Leaky(VolumeOf(d), h) <==> FreeSet(d) != {})
      && (if FreeSet(d) == {}
          then out == Outcome(d, 0) && V.Append(VolumeOf(d), h, bytes) == (VolumeOf(d), 0)
          else |Leaks(d)| < |Leaks(out.disk)| && VolumeOf(out.disk).free < VolumeOf(d).free)
      && VolumeOf(out.disk).free + |Leaks(out.disk)| == VolumeOf(d).free + |Leaks(d)|
      && Overrun(d, h, bytes, out)
  {
    hide ChainsOf, Linked, LeakedSet, InodeOf, NameField, FreeSet, Size, Write, SizeOf, FileAt, ChainBytes;
    hide Wanted, Recorded;
    var f, cs, v, e := V.FileOf(h), ChainsOf(d), VolumeOf(d), Write(d, h, bytes).disk;
    ShownSize(d, f);
    SizedAt(d, f);
    KeysAreInodes(d, cs);
    FullArith(SizeOf(d, f), |cs[f]|);
    ChainShown(d, f);
    WriteBeyondChain(d, cs, h, bytes);
    WantsSome(SizeOf(d, f), |cs[f]|, |bytes|);
    SpilledSized(d, e, cs, f);
    IsWellFormed(e, cs);
    forall g | g in cs
      ensures FileAt(e, cs, g) == FileAt(d, cs, g)
    {
      SpilledShown(d, e, cs, f, g);
    }
    assert FreeSet(d) == {} <==> v.free == 0;
    if v.free == 0 {
      AppendNoRoom(v, h, bytes);
    }
  }

  lemma AppendWithin(d: Disk, h: V.Handle, bytes: seq<byte>)
    requires WellFormed(d) && |bytes| < 0x1_0000_0000 && V.FileOf(h) in ChainsOf(d)
    requires SizeOf(d, V.FileOf(h)) / BLOCK_BYTES < |ChainsOf(d)[V.FileOf(h)]|
    ensures var out := Write(d, h, bytes);
      && WellFormed(out.disk) && Leaks(out.disk) == Leaks(d) && !V.Leaky(VolumeOf(d), h)
      && (VolumeOf(out.disk), out.ret as nat) == V.Append(VolumeOf(d), h, bytes)
  {
    hide ChainsOf, Linked, LeakedSet, InodeOf, NameField, FreeSet, Size, Write, SizeOf, FileAt, ChainBytes, Contents;
    var f, cs, v, e := V.FileOf(h), ChainsOf(d), VolumeOf(d), Write(d, h, bytes).disk;
    ShownSize(d, f);
    SizedAt(d, f);
    LastBlockArith(SizeOf(d, f), |cs[f]|);
    var es, n := WriteOnChain(d, cs, h, bytes);
    GrownSized(d, cs, e, es, f, bytes[..n]);
    GrownVolume(d, e, es, f, bytes[..n]);
    AcceptedArith(v, f, n, |bytes|, |cs[f]|, |es[f]|, |FreeSet(e)|);
  }

  /**
   Append refines concatenation. Unless the file ends on a block boundary with a block still free,
   the append stores exactly as much as the free blocks allow, returns what it should, and touches
   no other file.
   */
  lemma AppendRefines(d: Disk, h: V.Handle, bytes: seq<byte>)
    requires WellFormed(d) && |bytes| < 0x1_0000_0000 && !V.Leaky(VolumeOf(d), h)
    ensures var out := Write(d, h, bytes);
      && WellFormed(out.disk) && Leaks(out.disk) == Leaks(d)
      && (VolumeOf(out.disk), out.ret as nat) == V.Append(VolumeOf(d), h, bytes)
  {
    hide ChainsOf, Linked, Sized, LeakedSet, SizeOf, Write;
    if V.FileOf(h) !in ChainsOf(d) {
      WriteNoFile(d, h, bytes);
    } else if SizeOf(d, V.FileOf(h)) / BLOCK_BYTES < |ChainsOf(d)[V.FileOf(h)]| {
      AppendWithin(d, h, bytes);
    } else {
      AppendBeyond(d, h, bytes);
    }
  }

  /**
   The other appends, and only they, leak: they take blocks off the free list that no file gets, and
   what they write can never be read. Even so no file loses a byte that could be read before.
   */
  lemma AppendLeaks(d: Disk, h: V.Handle, bytes: seq<byte>)
    requires WellFormed(d) && |bytes| < 0x1_0000_0000
    ensures var out := Write(d, h, bytes);
      && WellFormed(out.disk)
      && (V.Leaky(VolumeOf(d), h) ==>
           && VolumeOf(out.disk).files == VolumeOf(d).files && VolumeOf(out.disk).free < VolumeOf(d).free
           && Leaks(d) <= Leaks(out.disk) && |Leaks(d)| < |Leaks(out.disk)|
           && VolumeOf(out.disk).free + |Leaks(out.disk)| == VolumeOf(d).free + |Leaks(d)|
           && (ShownWithinSize(d, V.FileOf(h)); Overrun(d, h, bytes, out)))
      && (Leaks(out.disk) == Leaks(d) <==> !V.Leaky(VolumeOf(d), h))
  {
    hide ChainsOf, Linked, Sized, Leaks, SizeOf, Write, FreeSet, FileAt, Recorded;
    if !V.Leaky(VolumeOf(d), h) {
      AppendRefines(d, h, bytes);
    } else if SizeOf(d, V.FileOf(h)) / BLOCK_BYTES < |ChainsOf(d)[V.FileOf(h)]| {
      AppendWithin(d, h, bytes);
    } else {
      AppendBeyond(d, h, bytes);
    }
  }

  /** Exactly when an append off the block boundary reports success: when its extra blocks are free. */
  lemma AppendSucceedsIff(d: Disk, h: V.Handle, bytes: seq<byte>)
    requires WellFormed(d) && 0 < |bytes| < 0x1_0000_0000
    requires V.FileOf(h) in VolumeOf(d).files && !V.Leaky(VolumeOf(d), h)
    ensures var size := |VolumeOf(d).files[V.FileOf(h)].bytes|;
      Write(d, h, bytes).ret == if Blocks(size + |bytes|) - Blocks(size) <= |FreeSet(d)| then |bytes| else 0
  {
    hide ChainsOf, WellFormed, FreeSet, FileAt, Write;
    AppendRefines(d, h, bytes);
    BlocksCover(|VolumeOf(d).files[V.FileOf(h)].bytes| + |bytes|);
  }

  /** The 32-bit size field never wraps: no file claims more than the data region could hold. */
  lemma SizeNeverWraps(d: Disk, f: nat)
    requires WellFormed(d) && f in ChainsOf(d) && f < INODES
    ensures SizeOf(d, f) <= BLOCK_BYTES * (|d| - 1 - INODE_SECTORS)
  {
    hide ChainsOf, Linked, Sized, LeakedSet, Size;
    SizedAt(d, f);
    ChainBound(d, ChainsOf(d), f);
  }

  /** On a sound disk every chain has the number of blocks that the size of its file asks for, and holds all of it. */
  lemma SoundSizes(d: Disk, f: nat)
    requires Sound(d) && f in ChainsOf(d) && f < INODES
    ensures |ChainsOf(d)[f]| == Blocks(SizeOf(d, f)) && |VolumeOf(d).files[f].bytes| == SizeOf(d, f)
  {
    hide ChainsOf, Linked, LeakedSet, Size, FileAt;
    SizedAt(d, f);
    ShownSize(d, f);
  }

  /** And the marked blocks of its data region are exactly the blocks on chains, each at one place on one chain. */
  lemma SoundMarks(d: Disk)
    requires Sound(d)
    ensures Disjoint(ChainsOf(d))
    ensures forall b: nat | InData(d, b) :: Magic(d[b]) == MAGIC <==> OnChain(ChainsOf(d), b)
  {
    hide ChainsOf, Indexed, Disjoint, Path, Magic, Sized;
    var cs := ChainsOf(d);
    forall b: nat | InData(d, b)
      ensures Magic(d[b]) == MAGIC <==> OnChain(cs, b)
    {
      assert b !in LeakedSet(d, cs);
      if OnChain(cs, b) {
        var f :| f in cs && b in cs[f];
        ChainInData(d, cs, f);
      }
    }
  }
}
