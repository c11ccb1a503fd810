/** The two loops of NQFS_write_bytes followed over the chains of a well-formed disk. */
module NqfsAppend {
  import opened Bytes
  import opened RamDisk
  import opened NqfsLayout
  import opened NqfsSpec
  import opened NqfsInvariant
  import opened NqfsSteps

  lemma WithNextSame(s: Sector)
    ensures WithNext(s, Next(s)) == s
  {
    hide Word, WordByte;
    WordJoins(s, NEXT_AT);
  }

  /** The tail of a chain: marked, last, and inside the part of the disk that can be written. */
  lemma TailFacts(d: Disk, cs: Chains, f: nat)
    requires Linked(d, cs) && f in cs
    ensures var c := cs[f];
      |c| > 0 && InData(d, c[|c| - 1]) && Magic(d[c[|c| - 1]]) == MAGIC && Next(d[c[|c| - 1]]) == 0
      && f < INODES && BLOCK_BYTES * |c| < 0x1_0000_0000
  {
    hide InodeOf, Magic, Next, Used, Start, Disjoint;
    ChainBound(d, cs, f);
    assert Path(d, cs[f]);
    assert PathAt(d, cs[f], |cs[f]| - 1);
  }

  predicate IsTail(cs: Chains, f: nat, block: nat) {
    f in cs && cs[f] != [] && block == cs[f][|cs[f]| - 1]
  }

  lemma SizeOfSlotZero(d: Disk, h: nat)
    requires Formattable(d) && h < INODE_SECTORS
    ensures SizeOf(d, h * SLOTS) == Size(Inode(d[h], 0)) && InodeOf(d, h * SLOTS) == Inode(d[h], 0)
  {
  }

  /** One round of the second loop, up to the allocation. */
  lemma PourChunk(d: Disk, cs: Chains, h: nat, block: nat, off: nat, chunk: seq<byte>)
    requires Linked(d, cs) && h < INODE_SECTORS && IsTail(cs, h * SLOTS, block) && InData(d, block)
    requires off + |chunk| <= BLOCK_BYTES && SizeOf(d, h * SLOTS) == BLOCK_BYTES * (|cs[h * SLOTS]| - 1) + off
    ensures var (e, ok) := PourOnce(d, h, d[h], block, off, chunk);
      ok && Grown(d, cs, e, cs, h * SLOTS, chunk) && e[h] == Resized(d[h], |chunk|)
  {
    hide InodeOf, Inode, Size, Used, Start, NameField, Magic, Next, Linked, FreeSet, LeakedSet, ChainBytes, Contents;
    hide Data, WithData, WithSize, Splice, Grown, Refilled, Deposit;
    var f := h * SLOTS;
    TailFacts(d, cs, f);
    SizeOfSlotZero(d, h);
    var size := SizeOf(d, f) + |chunk|;
    DepositRefills(d, h, size, block, off, chunk);
    var filled := Deposit(d, h, WithSize(d[h], 0, size), block, WithData(d[block], off, chunk)).0;
    RefilledGrows(d, cs, filled, f, off, chunk);
  }

  /** A free block is not the tail of a chain. */
  lemma TailIsMarked(d: Disk, cs: Chains, f: nat, block: nat, nb: nat)
    requires Linked(d, cs) && IsTail(cs, f, block) && nb in FreeSet(d)
    ensures block != nb
  {
    TailFacts(d, cs, f);
  }

  /** One round of the second loop, from the allocation on: the chain gets its next block or ends. */
  lemma LinkNext(d: Disk, cs: Chains, f: nat, block: nat)
    requires Linked(d, cs) && IsTail(cs, f, block) && InData(d, block) && Fits(d, cs, f)
    ensures var (claimed, nb) := Alloc(d);
      var e: Disk := claimed[block := WithNext(d[block], nb)];
      if nb == 0 then FreeSet(d) == {} && e == d
      else (Grown(d, cs, e, cs[f := cs[f] + [nb]], f, []) && forall h | 0 <= h < INODE_SECTORS :: e[h] == d[h])
  {
    hide InodeOf, Magic, Next, Used, Start, Disjoint, Linked, Data, FreeSet, Alloc, Claimed, WithNext, Grown;
    TailFacts(d, cs, f);
    AllocTakes(d);
    var (claimed, nb) := Alloc(d);
    if nb == 0 {
      WithNextSame(d[block]);
      assert d[block := d[block]] == d;
    } else {
      ClaimAndLink(d, cs, f, nb);
      TailIsMarked(d, cs, f, block, nb);
    }
  }

  lemma PourNothing(d: Disk, handle: word, sector: Sector, block: word, off: nat)
    requires Formattable(d) && Readable(d, handle) && off < BLOCK_BYTES
    ensures Pour(d, handle, sector, block, off, []) == (d, true)
  {
  }

  /** The second loop, once around, where the device calls succeed. */
  lemma PourUnfolds(d: Disk, h: nat, block: nat, off: nat, bytes: seq<byte>, m: nat, e: Disk)
    requires Formattable(d) && h < INODE_SECTORS && InData(d, block) && off < BLOCK_BYTES && bytes != []
    requires m == if |bytes| < BLOCK_BYTES - off then |bytes| else BLOCK_BYTES - off
    requires PourOnce(d, h, d[h], block, off, bytes[..m]) == (e, true) && |e| == |d|
    ensures Formattable(e) && |Alloc(e).0| == |e|
    ensures var (claimed, nb) := Alloc(e);
      var linked: Disk := claimed[block := WithNext(e[block], nb)];
      Pour(d, h, d[h], block, off, bytes)
      == if m == |bytes| then (e, true)
         else if nb == 0 then (linked, false)
         else Pour(linked, h, Resized(d[h], m), nb, 0, bytes[m..])
  {
    hide PourOnce, Resized, Alloc, WithNext, Readable, Writable, Wraps, At, Stored;
    OnDisk(d, h);
    OnDisk(d, block);
    OnDisk(e, block);
    OnDisk(Alloc(e).0, block);
  }

  /** The second loop of a write through handle h: its disk, and whether all of the input was stored. */
  function Poured(d: Disk, h: nat, block: nat, off: nat, bytes: seq<byte>): (Disk, bool)
    requires Formattable(d) && h < INODE_SECTORS && InData(d, block) && off < BLOCK_BYTES
  {
    Pour(d, h, d[h], block, off, bytes)
  }

  /** The file grew by these bytes, and into its last block; if not all was stored, the disk is full. */
  ghost predicate Filled(d: Disk, cs: Chains, e: Disk, es: Chains, f: nat, added: seq<byte>, all: bool) {
    && Grown(d, cs, e, es, f, added) && f < INODES
    && BLOCK_BYTES * (|es[f]| - 1) < SizeOf(e, f)
    && (!all ==> FreeSet(e) == {} && SizeOf(e, f) == BLOCK_BYTES * |es[f]|)
  }

  /**
   The second loop over a file whose last block is at hand: the file grows by a prefix of the input,
   all of it unless the free blocks run out, and then up to a block boundary.
   */
  lemma {:induction false} PourTail(d: Disk, cs: Chains, h: nat, block: nat, off: nat, bytes: seq<byte>)
    returns (es: Chains, n: nat)
    requires Linked(d, cs) && h < INODE_SECTORS && IsTail(cs, h * SLOTS, block) && InData(d, block)
    requires off < BLOCK_BYTES && bytes != []
    requires SizeOf(d, h * SLOTS) == BLOCK_BYTES * (|cs[h * SLOTS]| - 1) + off
    ensures n <= |bytes| && Poured(d, h, block, off, bytes).1 == (n == |bytes|)
    ensures Filled(d, cs, Poured(d, h, block, off, bytes).0, es, h * SLOTS, bytes[..n], n == |bytes|)
    decreases |bytes|
  {
    hide Linked, Pour, PourOnce, Resized, FreeSet, LeakedSet, ChainBytes, NameField, InodeOf, Alloc, WithNext, SizeOf;
    hide Contents, SameFile;
    var f := h * SLOTS;
    TailFacts(d, cs, f);
    var m := if |bytes| < BLOCK_BYTES - off then |bytes| else BLOCK_BYTES - off;
    var chunk := bytes[..m];
    PourChunk(d, cs, h, block, off, chunk);
    var e1 := PourOnce(d, h, d[h], block, off, chunk).0;
    PourUnfolds(d, h, block, off, bytes, m, e1);
    es, n := cs, m;
    if m == |bytes| {
      assert bytes[..n] == bytes;
      return;
    }
    LinkNext(e1, cs, f, block);
    var (claimed, nb) := Alloc(e1);
    if nb != 0 {
      var d4: Disk, ds := claimed[block := WithNext(e1[block], nb)], cs[f := cs[f] + [nb]];
      var more;
      TailFacts(d4, ds, f);
      es, more := PourTail(d4, ds, h, nb, 0, bytes[m..]);
      n := m + more;
      GrownTrans(d, cs, e1, cs, d4, ds, f, chunk, []);
      GrownTrans(d, cs, d4, ds, Poured(d4, h, nb, 0, bytes[m..]).0, es, f, chunk + [], bytes[m..][..more]);
      assert chunk + [] + bytes[m..][..more] == bytes[..n];
    }
  }
}
