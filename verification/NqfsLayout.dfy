/**
 The packed records of kernel/drivers/fs/nqfs/nqfs.h as views of a 512-byte sector.

 A storage block is a magic number, 504 bytes of data and the number of the next block. An inode
 sector holds four 128-byte inodes: the allocation flag, a 64-byte name, the first block, the size.
 */
module NqfsLayout {
  import opened Bytes
  import opened RamDisk
  import Memory

  const BLOCK_BYTES := 504
  const MAGIC: word := 0xC001
  const INODE_SECTORS := 128
  const SLOTS := 4
  const INODES := 512
  const INODE_BYTES := 128
  const NAME_BYTES := 64

  const MAGIC_AT := 0
  const DATA_AT := 4
  const NEXT_AT := 508
  const NAME_AT := 1
  const START_AT := 65
  const SIZE_AT := 69

  // ---- storage blocks

  function Magic(s: Sector): word { Word(s, MAGIC_AT) }

  function Next(s: Sector): word { Word(s, NEXT_AT) }

  function Data(s: Sector): (bs: seq<byte>)
    ensures |bs| == BLOCK_BYTES
  {
    s[DATA_AT..NEXT_AT]
  }

  function WithNext(s: Sector, next: word): (r: Sector)
    ensures Magic(r) == Magic(s) && Data(r) == Data(s) && Next(r) == next
  {
    WithWord(s, NEXT_AT, next)
  }

  function WithData(s: Sector, off: nat, bs: seq<byte>): (r: Sector)
    requires off + |bs| <= BLOCK_BYTES
    ensures Magic(r) == Magic(s) && Next(r) == Next(s)
    ensures Data(r) == Splice(Data(s), off, bs)
  {
    Splice(s, DATA_AT + off, bs)
  }

  /** A block as the allocator leaves it: marked in use, last of its chain, old data in place. */
  function Claimed(s: Sector): (r: Sector)
    ensures Magic(r) == MAGIC && Data(r) == Data(s) && Next(r) == 0
  {
    WithWord(WithWord(s, MAGIC_AT, MAGIC), NEXT_AT, 0)
  }

  // ---- inodes

  /** The 128 bytes of one inode. */
  function Inode(s: Sector, slot: nat): (r: seq<byte>)
    requires slot < SLOTS
    ensures |r| == INODE_BYTES
  {
    s[slot * INODE_BYTES..(slot + 1) * INODE_BYTES]
  }

  function Used(inode: seq<byte>): bool
    requires |inode| == INODE_BYTES
  {
    inode[0] != 0
  }

  function NameField(inode: seq<byte>): (r: seq<byte>)
    requires |inode| == INODE_BYTES
    ensures |r| == NAME_BYTES
  {
    inode[NAME_AT..START_AT]
  }

  function Start(inode: seq<byte>): word
    requires |inode| == INODE_BYTES
  {
    Word(inode, START_AT)
  }

  function Size(inode: seq<byte>): word
    requires |inode| == INODE_BYTES
  {
    Word(inode, SIZE_AT)
  }

  /** The sector with the size field of one inode replaced: all else is untouched. */
  function WithSize(s: Sector, slot: nat, size: word): (r: Sector)
    requires slot < SLOTS
    ensures Size(Inode(r, slot)) == size
    ensures Used(Inode(r, slot)) == Used(Inode(s, slot)) && Start(Inode(r, slot)) == Start(Inode(s, slot))
    ensures NameField(Inode(r, slot)) == NameField(Inode(s, slot))
    ensures forall j | 0 <= j < SLOTS && j != slot :: Inode(r, j) == Inode(s, j)
  {
    var r: Sector := WithWord(s, slot * INODE_BYTES + SIZE_AT, size);
    assert forall i | 0 <= i < SIZE_AT :: Inode(r, slot)[i] == Inode(s, slot)[i];
    r
  }

  /** What the name field becomes: strncpy of the new name, then a terminator in the last byte. */
  function NamedField(field: seq<byte>, name: seq<byte>): (r: seq<byte>)
    requires |field| == NAME_BYTES && (0 in name || NAME_BYTES <= |name|)
    ensures |r| == NAME_BYTES
  {
    Splice(field, 0, name[..Memory.CopyLen(name, NAME_BYTES)])[NAME_BYTES - 1 := 0]
  }

  /** A fresh inode: in use, empty, one block, the name copied in; the padding keeps its bytes. */
  function Created(inode: seq<byte>, start: word, name: seq<byte>): (r: seq<byte>)
    requires |inode| == INODE_BYTES && (0 in name || NAME_BYTES <= |name|)
    ensures |r| == INODE_BYTES
    ensures Used(r) && Start(r) == start && Size(r) == 0
    ensures NameField(r) == NamedField(NameField(inode), name)
  {
    var named := Splice(inode, NAME_AT, NamedField(NameField(inode), name));
    var r := WithWord(WithWord(named[0 := 1], START_AT, start), SIZE_AT, 0);
    assert r[NAME_AT..START_AT] == NamedField(NameField(inode), name);
    r
  }

  function WithInode(s: Sector, slot: nat, inode: seq<byte>): (r: Sector)
    requires slot < SLOTS && |inode| == INODE_BYTES
    ensures Inode(r, slot) == inode
    ensures forall j | 0 <= j < SLOTS && j != slot :: Inode(r, j) == Inode(s, j)
  {
    Splice(s, slot * INODE_BYTES, inode)
  }

  // ---- where the fields are

  /** A storage block, byte by byte: four bytes of mark, 504 of data, four of link, low byte first. */
  lemma BlockBytes(s: Sector)
    ensures Magic(s) == s[0] as int + 0x100 * s[1] as int + 0x1_0000 * s[2] as int + 0x100_0000 * s[3] as int
    ensures Data(s) == s[4..508]
    ensures Next(s) == s[508] as int + 0x100 * s[509] as int + 0x1_0000 * s[510] as int + 0x100_0000 * s[511] as int
    ensures Claimed(s)[..4] == [0x01, 0xC0, 0, 0]
  {
    WordJoins(Claimed(s), 0);
  }

  /**
   An inode, byte by byte: the four in a sector take 128 bytes each, of which the first says whether it is
   in use, 64 are the name, four the first block and four the size, low byte first.
   */
  lemma InodeBytes(s: Sector, slot: nat)
    requires slot < 4
    ensures var (at, inode) := (128 * slot, Inode(s, slot));
      && Used(inode) == (s[at] != 0) && NameField(inode) == s[at + 1..at + 65]
      && Start(inode) == s[at + 65] as int + 0x100 * s[at + 66] as int + 0x1_0000 * s[at + 67] as int
                         + 0x100_0000 * s[at + 68] as int
      && Size(inode) == s[at + 69] as int + 0x100 * s[at + 70] as int + 0x1_0000 * s[at + 71] as int
                        + 0x100_0000 * s[at + 72] as int
  {
  }

  /** Neither a new inode nor a new size writes to the 55 bytes of padding. */
  lemma PaddingStays(s: Sector, slot: nat, size: word, start: word, name: seq<byte>, x: nat)
    requires slot < SLOTS && (0 in name || NAME_BYTES <= |name|) && 73 <= x < 128
    ensures Created(Inode(s, slot), start, name)[x] == Inode(s, slot)[x]
    ensures Inode(WithSize(s, slot, size), slot)[x] == Inode(s, slot)[x]
  {
    hide NamedField;
  }

  /** Names are cut to 63 bytes, and read back exactly so cut. */
  lemma NameRoundTrip(field: seq<byte>, name: seq<byte>)
    requires |field| == NAME_BYTES && (0 in name || NAME_BYTES <= |name|)
    ensures var full := CString(name);
      CString(NamedField(field, name)) == full[..if |full| < NAME_BYTES then |full| else NAME_BYTES - 1]
  {
    var full := CString(name);
    var n := if |full| < NAME_BYTES then |full| else NAME_BYTES - 1;
    var r := NamedField(field, name);
    assert r[..n] == full[..n];
    CStringUnique(r, n);
  }
}
