/**
 An append that starts on a block boundary. The first loop of NQFS_write_bytes then runs past the end
 of the chain, claims a block, and records the link only in its own buffer: the block, and whatever
 the second loop hangs after it, ends up marked but on no chain.
 */
module NqfsLeaks {
  import opened Bytes
  import opened Options
  import opened RamDisk
  import opened NqfsLayout
  import opened NqfsSpec
  import opened NqfsInvariant
  import opened NqfsSteps
  import opened NqfsAppend
  import opened Counting

  /**
   From d to e, blocks may have leaked and the size of f may have changed; no chain did, nor any byte
   stored on one, nor any other inode.
   */
  ghost predicate Spilled(d: Disk, e: Disk, cs: Chains, f: nat) {
    && Linked(d, cs) && Linked(e, cs) && |e| == |d| && f < INODES
    && (forall g | 0 <= g < INODES && g != f :: InodeOf(e, g) == InodeOf(d, g))
    && NameField(InodeOf(e, f)) == NameField(InodeOf(d, f)) && SizeOf(d, f) <= SizeOf(e, f)
    && (forall g | g in cs :: ChainBytes(e, cs, g) == ChainBytes(d, cs, g))
    && LeakedSet(d, cs) <= LeakedSet(e, cs)
    && |FreeSet(e)| + |LeakedSet(e, cs)| == |FreeSet(d)| + |LeakedSet(d, cs)|
  }

  lemma SpilledTrans(a: Disk, b: Disk, c: Disk, cs: Chains, f: nat)
    requires Spilled(a, b, cs, f) && Spilled(b, c, cs, f)
    ensures Spilled(a, c, cs, f)
  {
    hide Linked, InodeOf, NameField, SizeOf, ChainBytes, LeakedSet, FreeSet;
  }

  lemma SpilledSelf(d: Disk, cs: Chains, f: nat)
    requires Linked(d, cs) && f < INODES
    ensures Spilled(d, d, cs, f)
  {
    hide Linked;
  }

  // ---- what such an append takes and records

  /** The blocks the second loop takes beyond the one it starts in, for n bytes from offset off. */
  function More(off: nat, n: nat): nat {
    if n == 0 then 0 else (off + n - 1) / BLOCK_BYTES
  }

  /** The blocks the first loop takes beyond a chain. */
  function Beyond(size: nat, chain: nat): nat
    requires chain <= size / BLOCK_BYTES
  {
    size / BLOCK_BYTES - chain + 1
  }

  /** All blocks an append of n bytes wants, when the file's size runs past its chain. */
  function Wanted(size: nat, chain: nat, n: nat): nat
    requires chain <= size / BLOCK_BYTES
  {
    Beyond(size, chain) + More(size % BLOCK_BYTES, n)
  }

  /** The bytes it adds to the size: all, or none where the first loop finds no block, or what fills the blocks. */
  function Recorded(size: nat, chain: nat, n: nat, free: nat): nat
    requires chain <= size / BLOCK_BYTES
  {
    if Wanted(size, chain, n) <= free then n
    else if free < Beyond(size, chain) then 0
    else BLOCK_BYTES - size % BLOCK_BYTES + BLOCK_BYTES * (free - Beyond(size, chain))
  }

  lemma MoreStep(off: nat, n: nat)
    requires off < BLOCK_BYTES
    ensures off + n <= BLOCK_BYTES ==> More(off, n) == 0
    ensures off + n > BLOCK_BYTES ==> More(off, n) == 1 + More(0, off + n - BLOCK_BYTES)
  {
  }

  // ---- the first loop

  /** Claiming a block without linking it leaks exactly that block. */
  lemma ClaimSpills(d: Disk, cs: Chains, f: nat)
    requires Linked(d, cs) && f < INODES
    ensures var (e, nb) := Alloc(d);
      if nb == 0 then FreeSet(d) == {} && e == d
      else (
        && InData(d, nb) && Spilled(d, e, cs, f) && nb in LeakedSet(e, cs) && Next(e[nb]) == 0
        && |LeakedSet(e, cs)| == |LeakedSet(d, cs)| + 1 && nb !in LeakedSet(d, cs) && SizeOf(e, f) == SizeOf(d, f)
        && forall b | 0 <= b < |d| && b != nb :: e[b] == d[b])
  {
    hide InodeOf, NameField, Size, ChainBytes, LeakedSet, FreeSet, Alloc, Claimed, Next, Indexed, Disjoint, Path;
    AllocTakes(d);
    var (e, nb) := Alloc(d);
    if nb != 0 {
      ClaimKeepsChains(d, cs, nb);
      ClaimKeepsBytes(d, cs, nb);
      ClaimedNext(d[nb]);
    }
  }

  /** Seeking within the chain finds the block that holds the offset and changes nothing. */
  lemma {:induction false} SeekWithin(d: Disk, cs: Chains, f: nat, i: nat, cur: word)
    requires Linked(d, cs) && f in cs && i + cur / BLOCK_BYTES < |cs[f]|
    ensures InData(d, cs[f][i]) && Seek(d, cs[f][i], cur) == (d, Some(cs[f][i + cur / BLOCK_BYTES]))
    decreases cur
  {
    hide InodeOf, Magic, Next, Disjoint, Alloc;
    assert PathAt(d, cs[f], i);
    if cur >= BLOCK_BYTES {
      SeekWithin(d, cs, f, i + 1, cur - BLOCK_BYTES);
      assert PathAt(d, cs[f], i + 1);
    }
  }

  /** Seeking on from a block that ends nothing but itself leaks a block for every step. */
  lemma {:induction false} SeekLeaked(d: Disk, cs: Chains, f: nat, block: nat, cur: word)
    requires Linked(d, cs) && f < INODES && InData(d, block) && block in LeakedSet(d, cs) && Next(d[block]) == 0
    ensures var (e, found) := Seek(d, block, cur);
      && Spilled(d, e, cs, f) && SizeOf(e, f) == SizeOf(d, f)
      && match found
         case None => FreeSet(e) == {} && |FreeSet(d)| < cur / BLOCK_BYTES
         case Some(b) => (
           && InData(e, b) && b in LeakedSet(e, cs) && Next(e[b]) == 0
           && |LeakedSet(e, cs)| == |LeakedSet(d, cs)| + cur / BLOCK_BYTES)
    decreases cur
  {
    hide Linked, InodeOf, NameField, Size, ChainBytes, LeakedSet, FreeSet, Alloc, Next;
    if cur < BLOCK_BYTES {
      SpilledSelf(d, cs, f);
    } else {
      ClaimSpills(d, cs, f);
      var (claimed, nb) := Alloc(d);
      if nb == 0 {
        SpilledSelf(d, cs, f);
      } else {
        InodesApart(d, claimed);
        SeekLeaked(claimed, cs, f, nb, cur - BLOCK_BYTES);
        SpilledTrans(d, claimed, Seek(claimed, nb, cur - BLOCK_BYTES).0, cs, f);
      }
    }
  }

  /** Running past the end of a chain leaks one block for every step beyond it. */
  lemma {:induction false} SeekBeyond(d: Disk, cs: Chains, f: nat, i: nat, cur: word)
    requires Linked(d, cs) && f in cs && f < INODES && i < |cs[f]| <= i + cur / BLOCK_BYTES && InData(d, cs[f][i])
    ensures var (e, found) := Seek(d, cs[f][i], cur);
      && Spilled(d, e, cs, f) && SizeOf(e, f) == SizeOf(d, f)
      && match found
         case None => FreeSet(e) == {} && |FreeSet(d)| < i + cur / BLOCK_BYTES - |cs[f]| + 1
         case Some(b) => (
           && InData(e, b) && b in LeakedSet(e, cs)
           && |LeakedSet(e, cs)| == |LeakedSet(d, cs)| + i + cur / BLOCK_BYTES - |cs[f]| + 1)
    decreases cur
  {
    hide InodeOf, NameField, Size, ChainBytes, LeakedSet, FreeSet, Alloc, Next, Magic, Disjoint, Used, Start;
    assert PathAt(d, cs[f], i);
    if i + 1 < |cs[f]| {
      assert PathAt(d, cs[f], i + 1);
      SeekBeyond(d, cs, f, i + 1, cur - BLOCK_BYTES);
    } else {
      ClaimSpills(d, cs, f);
      var (claimed, nb) := Alloc(d);
      if nb == 0 {
        SpilledSelf(d, cs, f);
      } else {
        InodesApart(d, claimed);
        SeekLeaked(claimed, cs, f, nb, cur - BLOCK_BYTES);
        SpilledTrans(d, claimed, Seek(claimed, nb, cur - BLOCK_BYTES).0, cs, f);
      }
    }
  }

  // ---- pouring into a leaked block

  /** Refilling a leaked block disturbs no chain. */
  lemma RefilledSpills(d: Disk, cs: Chains, e: Disk, f: nat, size: word, block: nat, data: seq<byte>)
    requires Linked(d, cs) && f < INODES && |data| == BLOCK_BYTES && block in LeakedSet(d, cs)
    requires Refilled(d, e, f, size, block, data) && SizeOf(d, f) <= size
    ensures Spilled(d, e, cs, f) && LeakedSet(e, cs) == LeakedSet(d, cs)
  {
    hide InodeOf, Magic, Next, Data, Used, Start, NameField, Size, Linked;
    RefilledLinks(d, cs, e, f, size, block, data);
    forall g | g in cs
      ensures ChainBytes(e, cs, g) == ChainBytes(d, cs, g)
    {
      assert block !in cs[g];
      RefilledElsewhere(d, cs, e, f, size, block, data, g);
    }
  }

  lemma RefilledSize(d: Disk, e: Disk, f: nat, size: word, block: nat, data: seq<byte>)
    requires Formattable(d) && f < INODES && |data| == BLOCK_BYTES && Refilled(d, e, f, size, block, data)
    ensures |e| == |d| && SizeOf(e, f) == size
  {
  }

  lemma PourOnceSpills(d: Disk, cs: Chains, h: nat, block: nat, off: nat, chunk: seq<byte>)
    requires Linked(d, cs) && h < INODE_SECTORS && InData(d, block) && block in LeakedSet(d, cs)
    requires off + |chunk| <= BLOCK_BYTES && SizeOf(d, h * SLOTS) + |chunk| < 0x1_0000_0000
    ensures var (e, ok) := PourOnce(d, h, d[h], block, off, chunk);
      && ok && Spilled(d, e, cs, h * SLOTS) && SizeOf(e, h * SLOTS) == SizeOf(d, h * SLOTS) + |chunk|
      && LeakedSet(e, cs) == LeakedSet(d, cs) && e[h] == Resized(d[h], |chunk|)
  {
    hide InodeOf, Magic, Next, Used, Start, Inode, Disjoint, Path, Data, WithData, WithSize, Refilled, Deposit;
    hide LeakedSet, NameField, Size;
    SizeOfSlotZero(d, h);
    var size := SizeOf(d, h * SLOTS) + |chunk|;
    DepositRefills(d, h, size, block, off, chunk);
    var e := Deposit(d, h, WithSize(d[h], 0, size), block, WithData(d[block], off, chunk)).0;
    RefilledSize(d, e, h * SLOTS, size, block, Splice(Data(d[block]), off, chunk));
    RefilledSpills(d, cs, e, h * SLOTS, size, block, Splice(Data(d[block]), off, chunk));
  }

  /** Changing the link of a leaked block disturbs no chain and no block's mark. */
  lemma RelinkSpills(d: Disk, cs: Chains, f: nat, block: nat, next: word)
    requires Linked(d, cs) && f < INODES && InData(d, block) && block in LeakedSet(d, cs)
    ensures var e: Disk := d[block := WithNext(d[block], next)];
      Spilled(d, e, cs, f) && LeakedSet(e, cs) == LeakedSet(d, cs) && SizeOf(e, f) == SizeOf(d, f)
  {
    hide InodeOf, Magic, Next, Data, Used, Start, NameField, Size, Disjoint, WithNext;
    var e: Disk := d[block := WithNext(d[block], next)];
    InodesApart(d, e);
    forall g, i | g in cs && 0 <= i < |cs[g]|
      ensures InData(d, cs[g][i]) && cs[g][i] != block
    {
      assert PathAt(d, cs[g], i);
      assert cs[g][i] in cs[g];
    }
    LinkedFrame(d, e, cs);
    forall g | g in cs
      ensures ChainBytes(e, cs, g) == ChainBytes(d, cs, g)
    {
      ChainInData(d, cs, g);
      FlatFrame(d, e, cs[g]);
    }
    assert FreeSet(e) == FreeSet(d);
    assert LeakedSet(e, cs) == LeakedSet(d, cs);
  }

  /** Allocating behind a leaked block leaks one more, or finds nothing free. */
  lemma LeakNext(d: Disk, cs: Chains, f: nat, block: nat)
    requires Linked(d, cs) && f < INODES && InData(d, block) && block in LeakedSet(d, cs)
    ensures var (claimed, nb) := Alloc(d);
      var e: Disk := claimed[block := WithNext(d[block], nb)];
      && Spilled(d, e, cs, f) && SizeOf(e, f) == SizeOf(d, f)
      && (forall h | 0 <= h < INODE_SECTORS :: e[h] == d[h])
      && |LeakedSet(e, cs)| == |LeakedSet(d, cs)| + (if nb == 0 then 0 else 1)
      && (nb == 0 ==> |FreeSet(d)| == 0)
      && (nb != 0 ==> InData(e, nb) && nb in LeakedSet(e, cs))
  {
    hide Linked, FreeSet, LeakedSet, ChainBytes, NameField, InodeOf, Alloc, WithNext, Next, Size;
    ClaimSpills(d, cs, f);
    SpilledSelf(d, cs, f);
    var (claimed, nb) := Alloc(d);
    RelinkSpills(claimed, cs, f, block, nb);
    SpilledTrans(d, claimed, claimed[block := WithNext(claimed[block], nb)], cs, f);
  }

  /**
   The second loop over a leaked block leaks on: no chain and no chained byte changes. The size it
   records stays within what the chain and all leaked blocks could hold together, so it cannot wrap.
   */
  lemma {:induction false} PourLeaked(d: Disk, cs: Chains, h: nat, block: nat, off: nat, bytes: seq<byte>)
    requires Linked(d, cs) && h < INODE_SECTORS && h * SLOTS in cs && InData(d, block)
    requires block in LeakedSet(d, cs) && off < BLOCK_BYTES
    requires SizeOf(d, h * SLOTS) + BLOCK_BYTES - off
          <= BLOCK_BYTES * (|cs[h * SLOTS]| + |LeakedSet(d, cs)|)
    ensures var (e, ok) := Pour(d, h, d[h], block, off, bytes);
      Spilled(d, e, cs, h * SLOTS)
      && SizeOf(e, h * SLOTS) <= BLOCK_BYTES * (|cs[h * SLOTS]| + |LeakedSet(e, cs)|)
      && ok == (More(off, |bytes|) <= |FreeSet(d)|)
      && |LeakedSet(e, cs)| == |LeakedSet(d, cs)| + Min(More(off, |bytes|), |FreeSet(d)|)
      && SizeOf(e, h * SLOTS) == SizeOf(d, h * SLOTS)
           + if ok then |bytes| else BLOCK_BYTES - off + BLOCK_BYTES * |FreeSet(d)|
    decreases |bytes|
  {
    hide Linked, Pour, PourOnce, Resized, FreeSet, LeakedSet, ChainBytes, NameField, InodeOf, Alloc, WithNext, SizeOf;
    hide Next, More;
    var f := h * SLOTS;
    MoreStep(off, |bytes|);
    if bytes == [] {
      SpilledSelf(d, cs, f);
      PourNothing(d, h, d[h], block, off);
      return;
    }
    ChainBound(d, cs, f);
    var m := if |bytes| < BLOCK_BYTES - off then |bytes| else BLOCK_BYTES - off;
    PourOnceSpills(d, cs, h, block, off, bytes[..m]);
    var d2 := PourOnce(d, h, d[h], block, off, bytes[..m]).0;
    PourUnfolds(d, h, block, off, bytes, m, d2);
    if m < |bytes| {
      LeakNext(d2, cs, f, block);
      var (d3, nb) := Alloc(d2);
      var d4: Disk := d3[block := WithNext(d2[block], nb)];
      SpilledTrans(d, d2, d4, cs, f);
      if nb != 0 {
        PourLeaked(d4, cs, h, nb, 0, bytes[m..]);
        SpilledTrans(d, d4, Pour(d4, h, d4[h], nb, 0, bytes[m..]).0, cs, f);
      }
    }
  }
}
