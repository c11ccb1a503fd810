/** The operations of NqfsSpec, on well-formed disks, are the operations of NqfsVolume. */
module NqfsRefinement {
  import opened Bytes
  import opened Options
  import opened RamDisk
  import opened NqfsLayout
  import opened NqfsSpec
  import opened NqfsInvariant
  import opened NqfsSteps
  import opened NqfsAppend
  import opened NqfsLeaks
  import opened Counting
  import V = NqfsVolume

  ghost function FileAt(d: Disk, cs: Chains, f: nat): V.File
    requires Linked(d, cs) && f in cs
  {
    KeysAreInodes(d, cs);
    V.File(CString(NameField(InodeOf(d, f))), Contents(d, cs, f))
  }

  /** The files on a well-formed disk, each as far as its chain reaches. */
  ghost function VolumeOf(d: Disk): V.Volume
    requires WellFormed(d)
  {
    var cs := ChainsOf(d);
    V.Volume(map f | f in cs :: FileAt(d, cs, f), |FreeSet(d)|)
  }

  ghost function Leaks(d: Disk): set<nat>
    requires WellFormed(d)
  {
    LeakedSet(d, ChainsOf(d))
  }

  /** Chains found in any way are the chains of the disk. */
  lemma IsWellFormed(d: Disk, cs: Chains)
    requires Linked(d, cs) && Sized(d, cs)
    ensures WellFormed(d) && ChainsOf(d) == cs
  {
    ChainsUnique(d, cs);
  }

  // ---- appends that stay on the chain

  lemma LastBlockArith(s: nat, k: nat)
    requires s / BLOCK_BYTES < k <= Blocks(s)
    ensures k == s / BLOCK_BYTES + 1 == Blocks(s) && (s % BLOCK_BYTES != 0 || s == 0)
  {
  }

  /** Where the first loop ends up when the end of the file lies inside the chain. */
  lemma OnChainSeek(d: Disk, cs: Chains, f: nat)
    requires Linked(d, cs) && f in cs && f < INODES
    requires SizeOf(d, f) / BLOCK_BYTES < |cs[f]| <= Blocks(SizeOf(d, f))
    ensures var s := SizeOf(d, f);
      && cs[f] != [] && InData(d, cs[f][|cs[f]| - 1])
      && Start(InodeOf(d, f)) != 0
      && Seek(d, Start(InodeOf(d, f)), s) == (d, Some(cs[f][|cs[f]| - 1]))
      && s == BLOCK_BYTES * (|cs[f]| - 1) + s % BLOCK_BYTES
  {
    hide Magic, Next, Disjoint, Walk, InodeOf, Used, Start, Seek, Size;
    LastBlockArith(SizeOf(d, f), |cs[f]|);
    assert PathAt(d, cs[f], 0);
    TailFacts(d, cs, f);
    SeekWithin(d, cs, f, 0, SizeOf(d, f));
  }

  /** What Write does once the first loop has found the last block. */
  lemma WriteIsPour(d: Disk, h: nat, block: word, bytes: seq<byte>)
    requires Formattable(d) && h < INODE_SECTORS && |bytes| < 0x1_0000_0000
    requires Start(InodeOf(d, h * SLOTS)) != 0
    requires var s := SizeOf(d, h * SLOTS);
      Seek(d, Start(InodeOf(d, h * SLOTS)), s) == (d, Some(block))
    ensures var (e, ok) := Pour(d, h, d[h], block, SizeOf(d, h * SLOTS) % BLOCK_BYTES, bytes);
      Write(d, h, bytes) == Outcome(e, if ok then |bytes| else 0)
  {
    hide Inode, Size, Start, Seek, Pour;
    SizeOfSlotZero(d, h);
  }

  lemma BlocksOf(s: nat, k: nat)
    requires BLOCK_BYTES * (k - 1) < s <= BLOCK_BYTES * k && k > 0
    ensures Blocks(s) == k
  {
  }

  lemma GrownSelf(d: Disk, cs: Chains, f: nat)
    requires Linked(d, cs) && f in cs && f < INODES && Fits(d, cs, f)
    ensures Grown(d, cs, d, cs, f, [])
  {
    KeysAreInodes(d, cs);
  }

  lemma WriteOnChain(d: Disk, cs: Chains, h: nat, bytes: seq<byte>) returns (es: Chains, n: nat)
    requires Linked(d, cs) && h < INODE_SECTORS && h * SLOTS in cs && |bytes| < 0x1_0000_0000
    requires SizeOf(d, h * SLOTS) / BLOCK_BYTES < |cs[h * SLOTS]| <= Blocks(SizeOf(d, h * SLOTS))
    ensures var f := h * SLOTS;
      var out := Write(d, h, bytes);
      && n <= |bytes| && Grown(d, cs, out.disk, es, f, bytes[..n])
      && |cs[f]| == Blocks(SizeOf(d, f)) && |es[f]| == Blocks(SizeOf(out.disk, f))
      && out.ret == (if n == |bytes| then n else 0)
      && (n < |bytes| ==> FreeSet(out.disk) == {} && SizeOf(out.disk, f) == BLOCK_BYTES * |es[f]|)
  {
    hide Linked, LeakedSet, FreeSet, Seek, Pour, Write, SizeOf, InodeOf, Start, ChainBytes, Contents, NameField;
    var f := h * SLOTS;
    OnChainSeek(d, cs, f);
    var s, block := SizeOf(d, f), cs[f][|cs[f]| - 1];
    LastBlockArith(s, |cs[f]|);
    WriteIsPour(d, h, block, bytes);
    if bytes == [] {
      PourNothing(d, h, d[h], block, s % BLOCK_BYTES);
      GrownSelf(d, cs, f);
      es, n := cs, 0;
    } else {
      es, n := PourTail(d, cs, h, block, s % BLOCK_BYTES, bytes);
      KeysAreInodes(Write(d, h, bytes).disk, es);
      BlocksOf(SizeOf(Write(d, h, bytes).disk, f), |es[f]|);
    }
  }

  // ---- appends that run past the chain

  /** With no free block the first loop changes nothing. */
  lemma {:induction false} SeekNoFree(d: Disk, block: word, cur: word)
    requires Formattable(d) && FreeSet(d) == {}
    ensures Seek(d, block, cur).0 == d
    decreases cur
  {
    hide Alloc, FreeSet, Next;
    if cur >= BLOCK_BYTES && Readable(d, block) {
      AllocTakes(d);
      if Next(At(d, block)) != 0 {
        SeekNoFree(d, Next(At(d, block)), cur - BLOCK_BYTES);
      }
    }
  }

  lemma {:induction false} SeekKeepsInodes(d: Disk, block: word, cur: word)
    requires Formattable(d)
    ensures forall h | 0 <= h < INODE_SECTORS :: Seek(d, block, cur).0[h] == d[h]
    decreases cur
  {
    hide Alloc, FreeSet, Next;
    if cur >= BLOCK_BYTES && Readable(d, block) {
      AllocTakes(d);
      var (claimed, nb) := Alloc(d);
      if Next(At(d, block)) != 0 {
        SeekKeepsInodes(d, Next(At(d, block)), cur - BLOCK_BYTES);
      } else if nb != 0 {
        SeekKeepsInodes(claimed, nb, cur - BLOCK_BYTES);
      }
    }
  }

  lemma SubsetSize(a: set<nat>, b: set<nat>)
    requires a <= b
    ensures |a| <= |b|
  {
    assert b == a + (b - a);
  }

  lemma StartIsHead(d: Disk, cs: Chains, f: nat)
    requires Linked(d, cs) && f in cs
    ensures f < INODES && cs[f] != [] && InData(d, cs[f][0]) && Start(InodeOf(d, f)) == cs[f][0]
  {
    hide InodeOf, Start, Used, Magic, Next, Disjoint;
    assert PathAt(d, cs[f], 0);
  }

  /** Either nothing was free and nothing happens, or blocks leak; chained bytes stay as they are. */
  lemma WriteBeyondChain(d: Disk, cs: Chains, h: nat, bytes: seq<byte>)
    requires Linked(d, cs) && h < INODE_SECTORS && h * SLOTS in cs && |bytes| < 0x1_0000_0000
    requires |cs[h * SLOTS]| <= SizeOf(d, h * SLOTS) / BLOCK_BYTES
    requires SizeOf(d, h * SLOTS) <= BLOCK_BYTES * (|cs[h * SLOTS]| + |LeakedSet(d, cs)|)
    ensures var f := h * SLOTS;
      var out := Write(d, h, bytes);
      && Spilled(d, out.disk, cs, f)
      && SizeOf(out.disk, f) <= BLOCK_BYTES * (|cs[f]| + |LeakedSet(out.disk, cs)|)
      && (FreeSet(d) == {} ==> out.disk == d)
      && (var (size, chain, free) := (SizeOf(d, f), |cs[f]|, |FreeSet(d)|);
          && out.ret == (if Wanted(size, chain, |bytes|) <= free then |bytes| else 0)
          && |LeakedSet(out.disk, cs)| == |LeakedSet(d, cs)| + Min(Wanted(size, chain, |bytes|), free)
          && SizeOf(out.disk, f) == size + Recorded(size, chain, |bytes|, free))
  {
    hide Linked, LeakedSet, FreeSet, Seek, Pour, SizeOf, InodeOf, Start, ChainBytes, NameField, Inode, Size, More;
    var f := h * SLOTS;
    StartIsHead(d, cs, f);
    SizeOfSlotZero(d, h);
    var s := SizeOf(d, f);
    SeekBeyond(d, cs, f, 0, s);
    var (e, found) := Seek(d, cs[f][0], s);
    if FreeSet(d) == {} {
      SeekNoFree(d, cs[f][0], s);
      assert |FreeSet(e)| == 0;
    }
    if found.Some? {
      SeekKeepsInodes(d, cs[f][0], s);
      PourLeaked(e, cs, h, found.value, s % BLOCK_BYTES, bytes);
      var out := Pour(e, h, d[h], found.value, s % BLOCK_BYTES, bytes).0;
      SpilledTrans(d, e, out, cs, f);
      SubsetSize(LeakedSet(e, cs), LeakedSet(out, cs));
    }
  }

  // ---- the invariant

  lemma BlocksCover(s: nat)
    ensures s <= BLOCK_BYTES * Blocks(s)
    ensures forall k: nat :: Blocks(s) <= k <==> s <= BLOCK_BYTES * k && k > 0
  {
  }

  lemma SizedAt(d: Disk, f: nat)
    requires WellFormed(d) && f in ChainsOf(d)
    ensures f < INODES
    ensures |ChainsOf(d)[f]| <= Blocks(SizeOf(d, f)) <= |ChainsOf(d)[f]| + |Leaks(d)|
    ensures SizeOf(d, f) <= BLOCK_BYTES * (|ChainsOf(d)[f]| + |Leaks(d)|)
  {
    hide ChainsOf, LeakedSet, Path, Disjoint, InodeOf, Size;
    KeysAreInodes(d, ChainsOf(d));
    BlocksCover(SizeOf(d, f));
  }

  lemma GrownSized(d: Disk, cs: Chains, e: Disk, es: Chains, f: nat, added: seq<byte>)
    requires Grown(d, cs, e, es, f, added) && Sized(d, cs) && |es[f]| == Blocks(SizeOf(e, f))
    ensures Sized(e, es)
  {
    hide Indexed, Disjoint, Path, LeakedSet, InodeOf, Size, ChainBytes, Contents, FreeSet;
    forall g | g in es && g < INODES
      ensures |es[g]| <= Blocks(SizeOf(e, g)) <= |es[g]| + |LeakedSet(e, es)|
    {
      assert g != f ==> SameFile(d, cs, e, es, g);
    }
  }

  lemma SpilledSized(d: Disk, e: Disk, cs: Chains, f: nat)
    requires Spilled(d, e, cs, f) && Sized(d, cs) && f in cs
    requires SizeOf(e, f) <= BLOCK_BYTES * (|cs[f]| + |LeakedSet(e, cs)|)
    ensures Sized(e, cs)
  {
    hide Indexed, Disjoint, Path, LeakedSet, InodeOf, Size, ChainBytes, Contents, FreeSet;
    SubsetSize(LeakedSet(d, cs), LeakedSet(e, cs));
    KeysAreInodes(d, cs);
    BlocksCover(SizeOf(e, f));
    BlocksCover(SizeOf(d, f));
  }

  lemma WriteNoFile(d: Disk, h: V.Handle, bytes: seq<byte>)
    requires WellFormed(d) && |bytes| < 0x1_0000_0000 && V.FileOf(h) !in ChainsOf(d)
    ensures Write(d, h, bytes) == Outcome(d, 0)
  {
    hide Inode, ChainsOf, Start, Seek, Pour;
    SizeOfSlotZero(d, h);
  }
}
