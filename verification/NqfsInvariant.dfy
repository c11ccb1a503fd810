/**
 When a disk holds a file system, and which bytes its files hold.

 Every inode in use starts a chain of marked blocks ending in a zero link; no block is on two chains
 or twice on one. A marked block that is on no chain is leaked. The code leaks blocks (see
 NqfsRefinement), so WellFormed allows for them; Sound is WellFormed with nothing leaked.
 */
module NqfsInvariant {
  import opened Bytes
  import opened RamDisk
  import opened NqfsLayout
  import opened NqfsSpec
  import opened Counting

  type Chains = map<nat, seq<nat>>

  /** The sectors the allocator can hand out. */
  predicate InData(d: Disk, b: nat) {
    INODE_SECTORS <= b < |d| - 1
  }

  /** The i-th block of a chain is marked and leads on to the next, or ends the chain. */
  ghost predicate PathAt(d: Disk, c: seq<nat>, i: nat)
    requires i < |c|
  {
    InData(d, c[i]) && Magic(d[c[i]]) == MAGIC && Next(d[c[i]]) == if i + 1 < |c| then c[i + 1] else 0
  }

  ghost predicate Path(d: Disk, c: seq<nat>) {
    c != [] && forall i | 0 <= i < |c| :: PathAt(d, c, i)
  }

  /** Two places on chains that hold the same block are the same place. */
  ghost predicate NoClash(cs: Chains, f: nat, i: nat, g: nat, j: nat) {
    f in cs && g in cs && i < |cs[f]| && j < |cs[g]| && cs[f][i] == cs[g][j] ==> f == g && i == j
  }

  /** No block on two chains, none twice on one. */
  ghost predicate Disjoint(cs: Chains) {
    forall f: nat, i: nat, g: nat, j: nat {:trigger NoClash(cs, f, i, g, j)} :: NoClash(cs, f, i, g, j)
  }

  /** The chains belong to exactly the inodes in use; an unused inode has no start block. */
  ghost predicate Indexed(d: Disk, cs: Chains)
    requires Formattable(d)
  {
    && (forall f | f in cs :: f < INODES && Used(InodeOf(d, f)) && cs[f] != [] && cs[f][0] == Start(InodeOf(d, f)))
    && (forall f | 0 <= f < INODES && f !in cs :: !Used(InodeOf(d, f)) && Start(InodeOf(d, f)) == 0)
  }

  ghost predicate Linked(d: Disk, cs: Chains) {
    Formattable(d) && Indexed(d, cs) && Disjoint(cs) && forall f | f in cs :: Path(d, cs[f])
  }

  ghost predicate OnChain(cs: Chains, b: nat) {
    exists f :: f in cs && b in cs[f]
  }

  ghost function FreeSet(d: Disk): set<nat> {
    set b: nat | 0 <= b < |d| && InData(d, b) && Magic(d[b]) != MAGIC
  }

  ghost function LeakedSet(d: Disk, cs: Chains): set<nat> {
    set b: nat | 0 <= b < |d| && InData(d, b) && Magic(d[b]) == MAGIC && !OnChain(cs, b)
  }

  // ---- the chains a disk determines

  function Walk(d: Disk, b: nat, fuel: nat): seq<nat>
    decreases fuel
  {
    if fuel == 0 || !InData(d, b) then []
    else [b] + if Next(d[b]) == 0 then [] else Walk(d, Next(d[b]), fuel - 1)
  }

  function ChainsOf(d: Disk): Chains
    requires Formattable(d)
  {
    map f: nat | 0 <= f < INODES && Used(InodeOf(d, f)) :: Walk(d, Start(InodeOf(d, f)), |d|)
  }

  lemma PathHas(d: Disk, c: seq<nat>, i: nat)
    requires Path(d, c) && i < |c|
    ensures PathAt(d, c, i)
  {
  }

  /** Walking from any block of a path yields the rest of the path. */
  lemma {:induction false} WalkPath(d: Disk, c: seq<nat>, i: nat, fuel: nat)
    requires Path(d, c) && i < |c| && |c| - i <= fuel
    ensures Walk(d, c[i], fuel) == c[i..]
    decreases |c| - i
  {
    hide Magic, Next, Path;
    PathHas(d, c, i);
    assert c[i..] == [c[i]] + c[i + 1..];
    if i + 1 < |c| {
      PathHas(d, c, i + 1);
      WalkPath(d, c, i + 1, fuel - 1);
    } else {
      assert c[i + 1..] == [];
    }
  }

  /** A chain and the leaked blocks together fit the data region. */
  lemma ChainBound(d: Disk, cs: Chains, f: nat)
    requires Linked(d, cs) && f in cs
    ensures |cs[f]| + |LeakedSet(d, cs)| <= |d| - 1 - INODE_SECTORS
  {
    var room := Range(INODE_SECTORS, |d| - 1);
    var leaked := LeakedSet(d, cs);
    forall i | 0 <= i < |cs[f]|
      ensures cs[f][i] in room - leaked
    {
      assert PathAt(d, cs[f], i) && cs[f][i] in cs[f];
    }
    forall i, j | 0 <= i < j < |cs[f]|
      ensures cs[f][i] != cs[f][j]
    {
      assert NoClash(cs, f, i, f, j);
    }
    DistinctBound(cs[f], room - leaked);
    assert leaked <= room;
  }

  /** The disk determines its chains. */
  lemma ChainsUnique(d: Disk, cs: Chains)
    requires Linked(d, cs)
    ensures cs == ChainsOf(d)
  {
    forall f | f in cs
      ensures ChainsOf(d)[f] == cs[f]
    {
      ChainBound(d, cs, f);
      assert Path(d, cs[f]);
      WalkPath(d, cs[f], 0, |d|);
      assert cs[f][0..] == cs[f];
    }
  }

  // ---- contents

  /** The data of a chain's blocks, one after another. */
  function Flat(d: Disk, c: seq<nat>): (bs: seq<byte>)
    requires forall b | b in c :: InData(d, b)
    ensures |bs| == BLOCK_BYTES * |c|
  {
    if c == [] then [] else (assert c[0] in c && InData(d, c[0]); Data(d[c[0]])) + Flat(d, c[1..])
  }

  lemma {:induction false} FlatAppend(d: Disk, c: seq<nat>, b: nat)
    requires (forall x | x in c :: InData(d, x)) && InData(d, b)
    ensures Flat(d, c + [b]) == Flat(d, c) + Data(d[b])
  {
    if c != [] {
      assert (c + [b])[1..] == c[1..] + [b];
      FlatAppend(d, c[1..], b);
    } else {
      assert c + [b] == [b];
      assert [b][1..] == c;
    }
  }

  lemma {:induction false} FlatFrame(d: Disk, e: Disk, c: seq<nat>)
    requires |d| == |e|
    requires forall b | b in c :: InData(d, b) && Data(d[b]) == Data(e[b])
    ensures Flat(d, c) == Flat(e, c)
  {
    if c != [] {
      FlatFrame(d, e, c[1..]);
    }
  }

  lemma ChainInData(d: Disk, cs: Chains, f: nat)
    requires Linked(d, cs) && f in cs
    ensures forall b | b in cs[f] :: InData(d, b) && Magic(d[b]) == MAGIC
  {
    forall i | 0 <= i < |cs[f]|
      ensures InData(d, cs[f][i]) && Magic(d[cs[f][i]]) == MAGIC
    {
      assert PathAt(d, cs[f], i);
    }
  }

  /** Everything stored in a file's blocks, past its end included. */
  ghost function ChainBytes(d: Disk, cs: Chains, f: nat): (bs: seq<byte>)
    requires Linked(d, cs) && f in cs
    ensures |bs| == BLOCK_BYTES * |cs[f]|
  {
    ChainInData(d, cs, f);
    Flat(d, cs[f])
  }

  function SizeOf(d: Disk, f: nat): word
    requires Formattable(d) && f < INODES
  {
    Size(InodeOf(d, f))
  }

  /** The bytes of a file that its chain can deliver: all of them, unless blocks were leaked. */
  ghost function Contents(d: Disk, cs: Chains, f: nat): (bs: seq<byte>)
    requires Linked(d, cs) && f in cs
  {
    ChainBytes(d, cs, f)[..if SizeOf(d, f) <= BLOCK_BYTES * |cs[f]| then SizeOf(d, f) else BLOCK_BYTES * |cs[f]|]
  }

  // ---- the invariants

  /** How many blocks a file of this size occupies; an empty file has one. */
  function Blocks(size: nat): (n: nat)
    ensures n >= 1
  {
    if size == 0 then 1 else (size + BLOCK_BYTES - 1) / BLOCK_BYTES
  }

  ghost predicate Sized(d: Disk, cs: Chains)
    requires Formattable(d)
  {
    forall f | f in cs && f < INODES ::
      |cs[f]| <= Blocks(SizeOf(d, f)) <= |cs[f]| + |LeakedSet(d, cs)|
  }

  ghost predicate WellFormed(d: Disk) {
    Formattable(d) && Linked(d, ChainsOf(d)) && Sized(d, ChainsOf(d))
  }

  ghost predicate Sound(d: Disk) {
    WellFormed(d) && LeakedSet(d, ChainsOf(d)) == {}
  }
}
