/** Creating a file, on every well-formed disk. */
module NqfsCreate {
  import opened Bytes
  import opened RamDisk
  import opened NqfsLayout
  import opened NqfsSpec
  import opened NqfsInvariant
  import opened NqfsSteps
  import opened NqfsLeaks
  import opened NqfsRefinement
  import V = NqfsVolume

  lemma FirstUnusedIs(files: map<nat, V.File>, from: nat, r: nat)
    requires from <= r <= INODES
    requires (forall g | from <= g < r :: g in files) && (r < INODES ==> r !in files)
    ensures V.FirstUnused(files, from) == r
  {
    var u := V.FirstUnused(files, from);
  }

  /** e is d with inode f turned into a fresh file whose only block is nb. */
  ghost predicate FileAdded(d: Disk, e: Disk, f: nat, nb: nat)
    requires Formattable(d) && f < INODES
  {
    && |e| == |d|
    && (forall b: nat | InData(d, b) :: e[b] == d[b])
    && (forall g | 0 <= g < INODES && g != f :: InodeOf(e, g) == InodeOf(d, g))
    && Used(InodeOf(e, f)) && Start(InodeOf(e, f)) == nb && SizeOf(e, f) == 0
  }

  lemma AddedDisjoint(cs: Chains, f: nat, nb: nat)
    requires Disjoint(cs) && f !in cs && !OnChain(cs, nb)
    ensures Disjoint(cs[f := [nb]])
  {
    var es := cs[f := [nb]];
    forall x, i | x in es && 0 <= i < |es[x]|
      ensures es[x][i] == nb <==> x == f
    {
      assert x != f ==> cs[x][i] in cs[x];
    }
    forall x: nat, i: nat, y: nat, j: nat
      ensures NoClash(es, x, i, y, j)
    {
      assert NoClash(cs, x, i, y, j);
    }
  }

  lemma FileAddedLinks(d: Disk, cs: Chains, e: Disk, f: nat, nb: nat)
    requires Linked(d, cs) && f < INODES && f !in cs && nb in LeakedSet(d, cs) && Next(d[nb]) == 0
    requires FileAdded(d, e, f, nb)
    ensures Linked(e, cs[f := [nb]])
  {
    hide InodeOf, Magic, Next, Used, Start, Size, Disjoint;
    var es := cs[f := [nb]];
    AddedDisjoint(cs, f, nb);
    forall g | g in es
      ensures Path(e, es[g])
    {
      forall i | 0 <= i < |es[g]|
        ensures PathAt(e, es[g], i)
      {
        assert g != f ==> PathAt(d, cs[g], i);
      }
    }
  }

  lemma FileAddedSets(d: Disk, cs: Chains, e: Disk, f: nat, nb: nat)
    requires Linked(d, cs) && f < INODES && f !in cs && nb in LeakedSet(d, cs) && Next(d[nb]) == 0
    requires FileAdded(d, e, f, nb)
    ensures FreeSet(e) == FreeSet(d) && LeakedSet(e, cs[f := [nb]]) == LeakedSet(d, cs) - {nb}
  {
    hide InodeOf, Magic, Next, Used, Start, Size, Linked;
    var es := cs[f := [nb]];
    forall b: nat
      ensures OnChain(es, b) <==> OnChain(cs, b) || b == nb
    {
      if OnChain(cs, b) {
        var g :| g in cs && b in cs[g];
        assert g in es && b in es[g];
      }
      assert nb in es[f];
    }
  }

  lemma FileAddedShown(d: Disk, cs: Chains, e: Disk, f: nat, nb: nat)
    requires Linked(d, cs) && f < INODES && f !in cs && nb in LeakedSet(d, cs) && Next(d[nb]) == 0
    requires FileAdded(d, e, f, nb)
    ensures var es := cs[f := [nb]];
      && Linked(e, es) && (forall g | g in cs :: FileAt(e, es, g) == FileAt(d, cs, g))
      && FileAt(e, es, f) == V.File(CString(NameField(InodeOf(e, f))), [])
  {
    hide InodeOf, Magic, Next, Used, Start, Size, Linked;
    FileAddedLinks(d, cs, e, f, nb);
    forall g | g in cs
      ensures FileAt(e, cs[f := [nb]], g) == FileAt(d, cs, g)
    {
      KeysAreInodes(d, cs);
      ChainInData(d, cs, g);
      FlatFrame(d, e, cs[g]);
    }
  }

  lemma FileAddedSized(d: Disk, cs: Chains, was: Disk, e: Disk, f: nat, nb: nat)
    requires Linked(d, cs) && f < INODES && f !in cs && nb in LeakedSet(d, cs) && Next(d[nb]) == 0
    requires FileAdded(d, e, f, nb)
    requires Linked(was, cs) && Sized(was, cs) && LeakedSet(d, cs) == LeakedSet(was, cs) + {nb}
    requires nb !in LeakedSet(was, cs)
    requires forall g | 0 <= g < INODES :: InodeOf(d, g) == InodeOf(was, g)
    ensures Sized(e, cs[f := [nb]]) && LeakedSet(e, cs[f := [nb]]) == LeakedSet(was, cs)
  {
    hide InodeOf, Magic, Next, Used, Start, Size, Indexed, Disjoint, Path, LeakedSet;
    FileAddedSets(d, cs, e, f, nb);
    assert LeakedSet(e, cs[f := [nb]]) == LeakedSet(was, cs);
  }

  /** The stores of Create, once a slot and a block are found. */
  lemma CreateAddsFile(d: Disk, claimed: Disk, f: nat, nb: word, name: seq<byte>)
    requires Formattable(d) && f < INODES && IsName(name) && InData(d, nb) && |claimed| == |d|
    requires forall b | 0 <= b < |d| && b != nb :: claimed[b] == d[b]
    ensures var sec := WithInode(d[f / SLOTS], f % SLOTS, Created(InodeOf(d, f), nb, name));
      var e: Disk := claimed[f / SLOTS := sec];
      FileAdded(claimed, e, f, nb) && CString(NameField(InodeOf(e, f))) == V.KeptName(name)
  {
    hide Inode, Used, Start, Size, NameField, NamedField, WithInode, Created;
    NameRoundTrip(NameField(InodeOf(d, f)), name);
    InodesApart(d, claimed);
    var sec := WithInode(d[f / SLOTS], f % SLOTS, Created(InodeOf(d, f), nb, name));
    var e: Disk := claimed[f / SLOTS := sec];
    forall g | 0 <= g < INODES && g != f
      ensures InodeOf(e, g) == InodeOf(claimed, g)
    {
      assert g / SLOTS == f / SLOTS ==> g % SLOTS != f % SLOTS;
    }
  }

  /** The slot the code takes is the first one without a file. */
  lemma FreeInodeIsUnused(d: Disk)
    requires WellFormed(d)
    ensures FreeInode(d, 0) == V.FirstUnused(VolumeOf(d).files, 0)
    ensures FreeInode(d, 0) !in ChainsOf(d)
  {
    hide InodeOf, Used, Walk, Linked, Sized, FileAt;
    FirstUnusedIs(VolumeOf(d).files, 0, FreeInode(d, 0));
  }

  lemma ClaimedShown(d: Disk, cs: Chains, nb: nat, g: nat)
    requires Linked(d, cs) && nb in FreeSet(d) && g in cs
    ensures var e: Disk := d[nb := Claimed(d[nb])];
      Linked(e, cs) && FileAt(e, cs, g) == FileAt(d, cs, g)
  {
    hide Indexed, Disjoint, Path, FreeSet, LeakedSet, InodeOf, Claimed, Size, NameField;
    ClaimKeepsChains(d, cs, nb);
    ClaimKeepsBytes(d, cs, nb);
    KeysAreInodes(d, cs);
  }

  lemma CreateStores(d: Disk, claimed: Disk, f: nat, nb: word, name: seq<byte>)
    requires WellFormed(d) && f < INODES && f !in ChainsOf(d) && IsName(name)
    requires InData(d, nb) && nb in FreeSet(d) && claimed == d[nb := Claimed(d[nb])]
    ensures var sec := WithInode(d[f / SLOTS], f % SLOTS, Created(InodeOf(d, f), nb, name));
      var e: Disk := claimed[f / SLOTS := sec];
      && WellFormed(e) && Leaks(e) == Leaks(d)
      && VolumeOf(e) == V.Volume(VolumeOf(d).files[f := V.File(V.KeptName(name), [])], VolumeOf(d).free - 1)
  {
    hide ChainsOf, Linked, Sized, FreeSet, LeakedSet, FileAt, InodeOf, Claimed, WithInode, Created, Next, FileAdded;
    var cs := ChainsOf(d);
    var sec := WithInode(d[f / SLOTS], f % SLOTS, Created(InodeOf(d, f), nb, name));
    var e: Disk := claimed[f / SLOTS := sec];
    ClaimKeepsChains(d, cs, nb);
    ClaimedNext(d[nb]);
    CreateAddsFile(d, claimed, f, nb, name);
    FileAddedLinks(claimed, cs, e, f, nb);
    FileAddedSets(claimed, cs, e, f, nb);
    FileAddedSized(claimed, cs, d, e, f, nb);
    FileAddedShown(claimed, cs, e, f, nb);
    IsWellFormed(e, cs[f := [nb]]);
    forall g | g in cs
      ensures FileAt(claimed, cs, g) == FileAt(d, cs, g)
    {
      ClaimedShown(d, cs, nb, g);
    }
  }

  /**
   Create refines its counterpart on volumes: the first inode without a file, in (sector, slot) order,
   becomes an empty file, all other files stay as they are, and without a free block or a free slot
   nothing on the disk changes.
   */
  lemma CreateRefines(d: Disk, name: seq<byte>)
    requires WellFormed(d) && IsName(name)
    ensures var out := Create(d, name);
      && WellFormed(out.disk) && Leaks(out.disk) == Leaks(d)
      && (VolumeOf(out.disk), out.ret as nat) == V.Create(VolumeOf(d), name)
      && (FreeSet(d) == {} ==> out.disk == d)
  {
    hide ChainsOf, Indexed, Disjoint, Path, FreeSet, LeakedSet, FileAt, InodeOf, Inode, Alloc, WithInode, Created,
      FreeInode, Magic, Next, Used, Start, Size, FileAdded, Sized;
    var cs, f, v := ChainsOf(d), FreeInode(d, 0), VolumeOf(d);
    FreeInodeIsUnused(d);
    if f == INODES {
      return;
    }
    ClaimSpills(d, cs, f);
    AllocTakes(d);
    var (claimed, nb) := Alloc(d);
    if nb == 0 {
      return;
    }
    CreateStores(d, claimed, f, nb, name);
  }

  /**
   Only one file in four gets a handle of its own: the handle Create returns names the file it made
   exactly when that file sits in slot 0, and otherwise a file that was there before.
   */
  lemma CreateHandleAliases(d: Disk, name: seq<byte>)
    requires WellFormed(d) && IsName(name) && FreeSet(d) != {} && FreeInode(d, 0) < INODES
    ensures var f := FreeInode(d, 0);
      var out := Create(d, name);
      && out.ret < INODE_SECTORS && WellFormed(out.disk)
      && VolumeOf(out.disk).files.Keys == VolumeOf(d).files.Keys + {f}
      && f !in VolumeOf(d).files
      && (V.FileOf(out.ret) == f <==> f % SLOTS == 0)
      && (f % SLOTS != 0 ==> V.FileOf(out.ret) in VolumeOf(d).files)
  {
    hide ChainsOf, Linked, Sized, FreeSet, LeakedSet, FileAt, Create;
    CreateRefines(d, name);
    FreeInodeIsUnused(d);
  }

  /**
   0 is also what a failed create returns. A result other than 0 means that a file was made, but a made
   file is reported that way only from the second sector on.
   */
  lemma CreateResult(d: Disk, name: seq<byte>)
    requires WellFormed(d) && IsName(name)
    ensures var out := Create(d, name);
      WellFormed(out.disk)
      && (out.ret != 0 <==> exists f :: f in VolumeOf(out.disk).files && f !in VolumeOf(d).files && f >= SLOTS)
  {
    hide ChainsOf, Linked, Sized, FreeSet, LeakedSet, FileAt, Create;
    CreateRefines(d, name);
    var v, e := VolumeOf(d), VolumeOf(Create(d, name).disk);
    var f := V.FirstUnused(v.files, 0);
    if f < INODES && v.free > 0 {
      assert f in e.files && f !in v.files;
    }
  }
}
