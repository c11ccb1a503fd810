/** What one step of an operation (claim a block, link it, fill it) does to the chains of a disk. */
module NqfsSteps {
  import opened Bytes
  import opened RamDisk
  import opened NqfsLayout
  import opened NqfsSpec
  import opened NqfsInvariant

  /** The allocator takes the first free block, and fails only when there is none. */
  lemma {:induction false} AllocFromTakes(d: Disk, i: nat)
    requires INODE_SECTORS <= i <= |d|
    requires forall b | INODE_SECTORS <= b < i :: b !in FreeSet(d)
    ensures var (e, nb) := AllocFrom(d, i);
      if FreeSet(d) == {} then nb == 0 && e == d
      else InData(d, nb) && nb in FreeSet(d) && (forall b | b in FreeSet(d) :: nb <= b) && e == d[nb := Claimed(d[nb])]
    decreases |d| - i
  {
    hide Claimed, Magic;
    if i < |d| && Magic(d[i]) == MAGIC {
      AllocFromTakes(d, i + 1);
    } else if i < |d| - 1 {
      assert i in FreeSet(d);
    }
  }

  lemma AllocTakes(d: Disk)
    requires Formattable(d)
    ensures var (e, nb) := Alloc(d);
      if FreeSet(d) == {} then nb == 0 && e == d
      else InData(d, nb) && nb in FreeSet(d) && (forall b | b in FreeSet(d) :: nb <= b) && e == d[nb := Claimed(d[nb])]
  {
    hide Claimed;
    AllocFromTakes(d, INODE_SECTORS);
  }

  /** Two disks that agree on every inode's use and start, and on the links of all chained blocks. */
  ghost predicate SameLinks(d: Disk, e: Disk, cs: Chains)
    requires Formattable(d)
  {
    && |e| == |d|
    && (forall f | 0 <= f < INODES ::
         Used(InodeOf(e, f)) == Used(InodeOf(d, f)) && Start(InodeOf(e, f)) == Start(InodeOf(d, f)))
    && (forall f, i | f in cs && 0 <= i < |cs[f]| && cs[f][i] < |d| ::
         Magic(e[cs[f][i]]) == Magic(d[cs[f][i]]) && Next(e[cs[f][i]]) == Next(d[cs[f][i]]))
  }

  lemma LinkedFrame(d: Disk, e: Disk, cs: Chains)
    requires Linked(d, cs) && SameLinks(d, e, cs)
    ensures Linked(e, cs)
  {
    hide InodeOf, Used, Start, Magic, Next, Disjoint;
    forall f | f in cs
      ensures Path(e, cs[f])
    {
      forall i | 0 <= i < |cs[f]|
        ensures PathAt(e, cs[f], i)
      {
        assert PathAt(d, cs[f], i);
      }
    }
  }

  /** Blocks of distinct chains differ, so a block that is free or leaked is on no chain. */
  lemma ClaimKeepsChains(d: Disk, cs: Chains, nb: nat)
    requires Linked(d, cs) && nb in FreeSet(d)
    ensures var e: Disk := d[nb := Claimed(d[nb])];
      && InData(d, nb) && Linked(e, cs)
      && FreeSet(e) == FreeSet(d) - {nb} && |FreeSet(e)| == |FreeSet(d)| - 1
      && LeakedSet(e, cs) == LeakedSet(d, cs) + {nb} && nb !in LeakedSet(d, cs)
      && (forall f | 0 <= f < INODES :: InodeOf(e, f) == InodeOf(d, f))
  {
    hide Claimed, Inode, Magic, Next, Used, Start, Disjoint;
    var e: Disk := d[nb := Claimed(d[nb])];
    assert !OnChain(cs, nb) by {
      forall f, i | f in cs && 0 <= i < |cs[f]|
        ensures cs[f][i] != nb
      {
        assert PathAt(d, cs[f], i);
      }
    }
    forall f, i | f in cs && 0 <= i < |cs[f]|
      ensures cs[f][i] != nb
    {
      assert cs[f][i] in cs[f];
    }
    LinkedFrame(d, e, cs);
  }

  // ---- a file growing at its tail

  ghost predicate SameFile(d: Disk, cs: Chains, e: Disk, es: Chains, g: nat)
    requires Linked(d, cs) && Linked(e, es) && g in cs && g in es
  {
    es[g] == cs[g] && InodeOf(e, g) == InodeOf(d, g) && ChainBytes(e, es, g) == ChainBytes(d, cs, g)
  }

  /** The chain of f has room for exactly its contents, give or take the last block. */
  ghost predicate Fits(d: Disk, cs: Chains, f: nat)
    requires Linked(d, cs) && f in cs
  {
    SizeOf(d, f) <= BLOCK_BYTES * |cs[f]|
  }

  /**
   From d to e, file f gained the bytes added at its end and whatever blocks that took; every other
   file, the leaked blocks and the total of chained and free blocks stayed as they were.
   */
  ghost predicate Grown(d: Disk, cs: Chains, e: Disk, es: Chains, f: nat, added: seq<byte>) {
    && Linked(d, cs) && Linked(e, es) && |e| == |d| && f in cs && es.Keys == cs.Keys
    && Fits(d, cs, f) && Fits(e, es, f)
    && SizeOf(e, f) == SizeOf(d, f) + |added|
    && Contents(e, es, f) == Contents(d, cs, f) + added
    && NameField(InodeOf(e, f)) == NameField(InodeOf(d, f))
    && (forall g | g in cs && g != f :: SameFile(d, cs, e, es, g))
    && LeakedSet(e, es) == LeakedSet(d, cs)
    && |FreeSet(e)| + |es[f]| == |FreeSet(d)| + |cs[f]|
  }

  lemma GrownTrans(d: Disk, cs: Chains, e: Disk, es: Chains, g: Disk, gs: Chains, f: nat, a: seq<byte>, b: seq<byte>)
    requires Grown(d, cs, e, es, f, a) && Grown(e, es, g, gs, f, b)
    ensures Grown(d, cs, g, gs, f, a + b)
  {
    hide Linked, SizeOf, InodeOf, NameField, LeakedSet, FreeSet, ChainBytes, Contents, Fits;
    forall x | x in cs && x != f
      ensures SameFile(d, cs, g, gs, x)
    {
      assert SameFile(d, cs, e, es, x) && SameFile(e, es, g, gs, x);
    }
  }

  /** Two disks that differ in the size of one inode and in the data of one block. */
  ghost predicate Refilled(d: Disk, e: Disk, f: nat, size: word, block: nat, data: seq<byte>)
    requires Formattable(d) && f < INODES && |data| == BLOCK_BYTES
  {
    && |e| == |d| && InData(d, block)
    && (forall g | 0 <= g < INODES && g != f :: InodeOf(e, g) == InodeOf(d, g))
    && Used(InodeOf(e, f)) == Used(InodeOf(d, f)) && Start(InodeOf(e, f)) == Start(InodeOf(d, f))
    && NameField(InodeOf(e, f)) == NameField(InodeOf(d, f)) && SizeOf(e, f) == size
    && (forall b: nat | InData(d, b) && b != block :: e[b] == d[b])
    && Magic(e[block]) == Magic(d[block]) && Next(e[block]) == Next(d[block]) && Data(e[block]) == data
  }

  /** What storing the resized inode and the refilled block amounts to. */
  lemma DepositRefills(d: Disk, h: nat, size: word, block: nat, off: nat, chunk: seq<byte>)
    requires Formattable(d) && h < INODE_SECTORS && InData(d, block) && off + |chunk| <= BLOCK_BYTES
    ensures var (e, ok) := Deposit(d, h, WithSize(d[h], 0, size), block, WithData(d[block], off, chunk));
      ok && Refilled(d, e, h * SLOTS, size, block, Splice(Data(d[block]), off, chunk))
      && e[h] == WithSize(d[h], 0, size) && e[block] == WithData(d[block], off, chunk)
  {
    hide Data, Magic, Next, WithData, WithSize, Inode, Splice, Used, Start, Size, NameField;
    var sized := WithSize(d[h], 0, size);
    var e: Disk := d[h := sized][block := WithData(d[block], off, chunk)];
    forall g | 0 <= g < INODES && g != h * SLOTS
      ensures InodeOf(e, g) == InodeOf(d, g)
    {
      if g / SLOTS == h {
        assert e[h] == sized;
        assert g % SLOTS != 0;
      }
    }
  }

  lemma RefilledLinks(d: Disk, cs: Chains, e: Disk, f: nat, size: word, block: nat, data: seq<byte>)
    requires Linked(d, cs) && f < INODES && |data| == BLOCK_BYTES && Refilled(d, e, f, size, block, data)
    ensures Linked(e, cs) && FreeSet(e) == FreeSet(d) && LeakedSet(e, cs) == LeakedSet(d, cs)
  {
    hide InodeOf, Magic, Next, Data, Used, Start, NameField, Size, Disjoint;
    forall g, i | g in cs && 0 <= i < |cs[g]|
      ensures InData(d, cs[g][i])
    {
      assert PathAt(d, cs[g], i);
    }
    LinkedFrame(d, e, cs);
    assert forall b: nat | InData(d, b) :: Magic(e[b]) == Magic(d[b]);
    assert FreeSet(e) == FreeSet(d);
    assert LeakedSet(e, cs) == LeakedSet(d, cs);
  }

  /** A block that is on no other chain can be refilled without touching the other chains' bytes. */
  lemma RefilledElsewhere(d: Disk, cs: Chains, e: Disk, f: nat, size: word, block: nat, data: seq<byte>, g: nat)
    requires Linked(d, cs) && Linked(e, cs) && f < INODES && |data| == BLOCK_BYTES
    requires Refilled(d, e, f, size, block, data) && g in cs && block !in cs[g]
    ensures ChainBytes(e, cs, g) == ChainBytes(d, cs, g)
  {
    ChainInData(d, cs, g);
    FlatFrame(d, e, cs[g]);
  }

  lemma LastBlock(d: Disk, cs: Chains, f: nat)
    requires Linked(d, cs) && f in cs
    ensures var c := cs[f];
      && |c| > 0 && InData(d, c[|c| - 1]) && c[|c| - 1] !in c[..|c| - 1]
      && (forall b | b in c[..|c| - 1] :: InData(d, b))
      && ChainBytes(d, cs, f) == Flat(d, c[..|c| - 1]) + Data(d[c[|c| - 1]])
  {
    hide InodeOf, Data, Magic, Next;
    var c := cs[f];
    assert Path(d, c);
    ChainInData(d, cs, f);
    forall i | 0 <= i < |c| - 1
      ensures c[i] != c[|c| - 1]
    {
      assert NoClash(cs, f, i, f, |c| - 1);
    }
    assert c == c[..|c| - 1] + [c[|c| - 1]];
    FlatAppend(d, c[..|c| - 1], c[|c| - 1]);
  }

  lemma SpliceTail(p: seq<byte>, data: seq<byte>, off: nat, chunk: seq<byte>)
    requires off + |chunk| <= |data|
    ensures (p + Splice(data, off, chunk))[..|p| + off + |chunk|] == (p + data)[..|p| + off] + chunk
  {
  }

  lemma OnOneChain(d: Disk, cs: Chains, f: nat, g: nat, i: nat)
    requires Linked(d, cs) && f in cs && g in cs && f != g && i < |cs[f]|
    ensures cs[f][i] !in cs[g] && g < INODES
  {
    forall j | 0 <= j < |cs[g]|
      ensures cs[f][i] != cs[g][j]
    {
      assert NoClash(cs, f, i, g, j);
    }
  }

  /** Filling the last block from the end of the file makes the file grow by what was filled in. */
  lemma RefilledGrows(d: Disk, cs: Chains, e: Disk, f: nat, off: nat, chunk: seq<byte>)
    requires Linked(d, cs) && f in cs && f < INODES && off + |chunk| <= BLOCK_BYTES
    requires SizeOf(d, f) == BLOCK_BYTES * (|cs[f]| - 1) + off && SizeOf(d, f) + |chunk| < 0x1_0000_0000
    requires var last := (LastBlock(d, cs, f); cs[f][|cs[f]| - 1]);
      InData(d, last) && Refilled(d, e, f, SizeOf(d, f) + |chunk|, last, Splice(Data(d[last]), off, chunk))
    ensures Grown(d, cs, e, cs, f, chunk)
  {
    hide InodeOf, Magic, Next, Used, Start, NameField, Size, SizeOf, Splice, Data, Linked, FreeSet, LeakedSet, Flat;
    var c := cs[f];
    LastBlock(d, cs, f);
    var last := c[|c| - 1];
    var data := Splice(Data(d[last]), off, chunk);
    RefilledLinks(d, cs, e, f, SizeOf(d, f) + |chunk|, last, data);
    forall g | g in cs && g != f
      ensures SameFile(d, cs, e, cs, g)
    {
      OnOneChain(d, cs, f, g, |c| - 1);
      RefilledElsewhere(d, cs, e, f, SizeOf(d, f) + |chunk|, last, data, g);
    }
    LastBlock(e, cs, f);
    FlatFrame(d, e, c[..|c| - 1]);
    SpliceTail(Flat(d, c[..|c| - 1]), Data(d[last]), off, chunk);
  }

  // ---- linking a claimed block

  lemma ExtendedDisjoint(cs: Chains, f: nat, nb: nat)
    requires Disjoint(cs) && f in cs && !OnChain(cs, nb)
    ensures Disjoint(cs[f := cs[f] + [nb]])
  {
    var es := cs[f := cs[f] + [nb]];
    forall x, i | x in es && 0 <= i < |es[x]|
      ensures if x == f && i == |cs[f]| then es[x][i] == nb else i < |cs[x]| && es[x][i] == cs[x][i] && es[x][i] != nb
    {
      if !(x == f && i == |cs[f]|) {
        assert cs[x][i] in cs[x];
      }
    }
    forall x: nat, i: nat, y: nat, j: nat
      ensures NoClash(es, x, i, y, j)
    {
      assert NoClash(cs, x, i, y, j);
    }
  }

  /** The disk with the last block of f pointing at nb. */
  ghost function LinkedOn(d: Disk, cs: Chains, f: nat, nb: nat): (e: Disk)
    requires Linked(d, cs) && f in cs && InData(d, nb)
    ensures |e| == |d|
  {
    LastBlock(d, cs, f);
    var last := cs[f][|cs[f]| - 1];
    d[last := WithNext(d[last], nb)]
  }

  lemma LinkTailOther(d: Disk, cs: Chains, f: nat, g: nat)
    requires Linked(d, cs) && f in cs && g in cs && f != g
    ensures cs[f] != [] && cs[f][|cs[f]| - 1] !in cs[g]
  {
    OnOneChain(d, cs, f, g, |cs[f]| - 1);
  }

  /** Inodes live below the data region. */
  lemma InodesApart(d: Disk, e: Disk)
    requires Formattable(d) && |e| == |d| && forall b | 0 <= b < INODE_SECTORS :: e[b] == d[b]
    ensures forall g | 0 <= g < INODES :: InodeOf(e, g) == InodeOf(d, g)
  {
  }

  lemma LinkTailPaths(d: Disk, cs: Chains, f: nat, nb: nat)
    requires Linked(d, cs) && f in cs && nb in LeakedSet(d, cs) && Next(d[nb]) == 0
    ensures var (e, es) := (LinkedOn(d, cs, f, nb), cs[f := cs[f] + [nb]]);
      && Linked(e, es)
      && (forall g | 0 <= g < INODES :: InodeOf(e, g) == InodeOf(d, g))
      && (forall b: nat | InData(d, b) :: Magic(e[b]) == Magic(d[b]) && Data(e[b]) == Data(d[b]))
  {
    hide InodeOf, Magic, Next, Data, Used, Start, Disjoint, WithNext;
    var c := cs[f];
    LastBlock(d, cs, f);
    var last := c[|c| - 1];
    var e, es := LinkedOn(d, cs, f, nb), cs[f := c + [nb]];
    ExtendedDisjoint(cs, f, nb);
    InodesApart(d, e);
    forall g | g in es
      ensures Path(e, es[g])
    {
      if g != f {
        LinkTailOther(d, cs, f, g);
      }
      forall i | 0 <= i < |es[g]|
        ensures PathAt(e, es[g], i)
      {
        if i < |cs[g]| {
          assert PathAt(d, cs[g], i);
          assert g == f && i < |c| - 1 ==> cs[f][i] in c[..|c| - 1];
          assert cs[g][i] in cs[g];
        }
      }
    }
  }

  lemma LinkTailSets(d: Disk, cs: Chains, f: nat, nb: nat)
    requires Linked(d, cs) && f in cs && nb in LeakedSet(d, cs) && Next(d[nb]) == 0
    ensures var (e, es) := (LinkedOn(d, cs, f, nb), cs[f := cs[f] + [nb]]);
      FreeSet(e) == FreeSet(d) && LeakedSet(e, es) == LeakedSet(d, cs) - {nb}
  {
    hide InodeOf, Magic, Next, Data, Linked;
    LinkTailPaths(d, cs, f, nb);
    var es := cs[f := cs[f] + [nb]];
    forall b: nat
      ensures OnChain(es, b) <==> OnChain(cs, b) || b == nb
    {
      if OnChain(cs, b) {
        var g :| g in cs && b in cs[g];
        assert g in es && b in es[g];
      }
      assert nb in es[f];
    }
  }

  lemma LinkTailBytes(d: Disk, cs: Chains, f: nat, nb: nat)
    requires Linked(d, cs) && f in cs && nb in LeakedSet(d, cs) && Next(d[nb]) == 0
    ensures var (e, es) := (LinkedOn(d, cs, f, nb), cs[f := cs[f] + [nb]]);
      && Linked(e, es)
      && ChainBytes(e, es, f) == ChainBytes(d, cs, f) + Data(d[nb])
      && forall g | g in cs && g != f :: ChainBytes(e, es, g) == ChainBytes(d, cs, g)
  {
    hide InodeOf, Magic, Next, Data, Linked;
    LinkTailPaths(d, cs, f, nb);
    var e, es := LinkedOn(d, cs, f, nb), cs[f := cs[f] + [nb]];
    forall g | g in cs
      ensures (forall b | b in cs[g] :: InData(d, b)) && Flat(e, cs[g]) == Flat(d, cs[g])
    {
      ChainInData(d, cs, g);
      FlatFrame(d, e, cs[g]);
    }
    FlatAppend(e, cs[f], nb);
  }

  /** Claiming a free block changes no chain's bytes. */
  lemma ClaimKeepsBytes(d: Disk, cs: Chains, nb: nat)
    requires Linked(d, cs) && nb in FreeSet(d)
    ensures var e: Disk := d[nb := Claimed(d[nb])];
      Linked(e, cs) && forall g | g in cs :: ChainBytes(e, cs, g) == ChainBytes(d, cs, g)
  {
    hide InodeOf, Magic, Next, Data, Claimed, Linked;
    var e: Disk := d[nb := Claimed(d[nb])];
    ClaimKeepsChains(d, cs, nb);
    forall g | g in cs
      ensures ChainBytes(e, cs, g) == ChainBytes(d, cs, g)
    {
      ChainInData(d, cs, g);
      FlatFrame(d, e, cs[g]);
    }
  }

  lemma ClaimedNext(s: Sector)
    ensures Next(Claimed(s)) == 0
  {
  }

  lemma KeysAreInodes(d: Disk, cs: Chains)
    requires Linked(d, cs)
    ensures forall f | f in cs :: f < INODES && cs[f] != []
  {
  }

  /** A free block claimed and linked to the end of a file whose blocks are full. */
  lemma ClaimAndLink(d: Disk, cs: Chains, f: nat, nb: nat)
    requires Linked(d, cs) && f in cs && f < INODES && InData(d, nb) && nb in FreeSet(d) && Fits(d, cs, f)
    ensures var claimed: Disk := d[nb := Claimed(d[nb])];
      Linked(claimed, cs)
      && Grown(d, cs, LinkedOn(claimed, cs, f, nb), cs[f := cs[f] + [nb]], f, [])
  {
    hide InodeOf, Magic, Next, Data, Claimed, Size, NameField, Linked, Flat, ChainBytes, FreeSet, LeakedSet, LinkedOn;
    var claimed: Disk := d[nb := Claimed(d[nb])];
    ClaimKeepsChains(d, cs, nb);
    ClaimKeepsBytes(d, cs, nb);
    ClaimedNext(d[nb]);
    LinkTailPaths(claimed, cs, f, nb);
    LinkTailSets(claimed, cs, f, nb);
    LinkTailBytes(claimed, cs, f, nb);
    KeysAreInodes(d, cs);
  }
}
