/**
 What each operation of kernel/drivers/fs/nqfs/nqfs.c does to a disk, for every disk, as functions.
 Nothing here assumes that the disk holds a sensible file system: failing device calls, stray block
 numbers and 32-bit wrap-around take the code's own branches.
 */
module NqfsSpec {
  import opened Bytes
  import opened Options
  import opened RamDisk
  import opened NqfsLayout

  /** A disk after an operation, and what the operation returned. */
  datatype Outcome = Outcome(disk: Disk, ret: word)

  predicate Formattable(d: Disk) {
    INODE_SECTORS < |d|
  }

  // ---- NQFS_get_next_free_block

  /** The scan takes the first block without the magic number; the last sector cannot be written. */
  function AllocFrom(d: Disk, i: nat): (r: (Disk, word))
    requires i <= |d|
    ensures |r.0| == |d|
    decreases |d| - i
  {
    if i == |d| then (d, 0)
    else if Magic(d[i]) == MAGIC then AllocFrom(d, i + 1)
    else if i + 1 == |d| then (d, 0)
    else (d[i := Claimed(d[i])], i)
  }

  function Alloc(d: Disk): (r: (Disk, word))
    requires Formattable(d)
    ensures |r.0| == |d|
  {
    AllocFrom(d, INODE_SECTORS)
  }

  // ---- NQFS_create_file

  /** Inodes are numbered 0..511 in (sector, slot) order. */
  function InodeOf(d: Disk, f: nat): (r: seq<byte>)
    requires Formattable(d) && f < INODES
    ensures |r| == INODE_BYTES
  {
    Inode(d[f / SLOTS], f % SLOTS)
  }

  /** The first inode from f on that is not in use; INODES when there is none. */
  function FreeInode(d: Disk, f: nat): (r: nat)
    requires Formattable(d) && f <= INODES
    ensures f <= r <= INODES
    ensures forall g :: f <= g < r ==> Used(InodeOf(d, g))
    ensures r < INODES ==> !Used(InodeOf(d, r))
    decreases INODES - f
  {
    if f == INODES || !Used(InodeOf(d, f)) then f else FreeInode(d, f + 1)
  }

  predicate IsName(name: seq<byte>) {
    0 in name || NAME_BYTES <= |name|
  }

  function Create(d: Disk, name: seq<byte>): (r: Outcome)
    requires Formattable(d) && IsName(name)
    ensures |r.disk| == |d|
  {
    var f := FreeInode(d, 0);
    if f == INODES then Outcome(d, 0)
    else
      var (claimed, block) := Alloc(d);
      if block == 0 then Outcome(claimed, 0)
      else
        var sec := WithInode(d[f / SLOTS], f % SLOTS, Created(InodeOf(d, f), block, name));
        Outcome(claimed[f / SLOTS := sec], f / SLOTS)
  }

  // ---- NQFS_read_bytes

  /** Follows the chain from a block; the bytes copied out and the count the loop stops at. */
  function ReadFrom(d: Disk, block: word, size: word): (r: (seq<byte>, word))
    ensures |r.0| <= size
    decreases size
  {
    if size == 0 then ([], 0)
    else if !Readable(d, block) then ([], 0)
    else
      var readable := if size < BLOCK_BYTES then size else BLOCK_BYTES;
      var bytes := Data(At(d, block))[..readable];
      var left := size - readable;
      if left == 0 then (bytes, 0)
      else if Next(At(d, block)) == 0 then (bytes, left)
      else
        var rest := ReadFrom(d, Next(At(d, block)), left);
        (bytes + rest.0, rest.1)
  }

  function Read(d: Disk, handle: word, size: word): (r: (seq<byte>, word))
    ensures |r.0| <= size
  {
    if !Readable(d, handle) then ([], 0)
    else
      var inode := Inode(At(d, handle), 0);
      if Start(inode) == 0 then ([], 0)
      else ReadFrom(d, Start(inode), if Size(inode) < size then Size(inode) else size)
  }

  // ---- NQFS_write_bytes

  /** The first loop: skip full blocks, taking a fresh one (linked only in memory) past the end. */
  function Seek(d: Disk, block: word, cur: word): (r: (Disk, Option<word>))
    requires Formattable(d)
    ensures |r.0| == |d|
    decreases cur
  {
    if cur < BLOCK_BYTES then (d, Some(block))
    else if !Readable(d, block) then (d, None)
    else
      var next := Next(At(d, block));
      if next != 0 then Seek(d, next, cur - BLOCK_BYTES)
      else
        var (claimed, taken) := Alloc(d);
        if taken == 0 then (claimed, None) else Seek(claimed, taken, cur - BLOCK_BYTES)
  }

  /** fp->size += n, modulo 2^32, for the inode in slot 0. */
  function Resized(sector: Sector, n: nat): Sector {
    WithSize(sector, 0, (Size(Inode(sector, 0)) + n) % 0x1_0000_0000)
  }

  /** The inode sector is stored first, then the block. */
  function Deposit(d: Disk, handle: word, sized: Sector, block: word, filled: Sector): (r: (Disk, bool))
    requires Readable(d, handle) && Readable(d, block)
    ensures |r.0| == |d|
    ensures r.1 == (Writable(d, handle) && Writable(d, block))
    ensures r.1 ==> At(r.0, block) == filled
  {
    if !Writable(d, handle) then (d, false)
    else
      var d1 := Stored(d, handle, sized);
      if !Writable(d, block) then (d1, false) else (Stored(d1, block, filled), true)
  }

  /** One chunk into one block, from offset off. */
  function PourOnce(d: Disk, handle: word, sector: Sector, block: word, off: nat, chunk: seq<byte>): (r: (Disk, bool))
    requires Readable(d, handle) && Readable(d, block) && off + |chunk| <= BLOCK_BYTES
    ensures |r.0| == |d|
    ensures r.1 == (Writable(d, handle) && Writable(d, block))
  {
    Deposit(d, handle, Resized(sector, |chunk|), block, WithData(At(d, block), off, chunk))
  }

  /**
   The second loop: fill the block from offset off, store the new size and then the block, and go on
   in a fresh block. The inode sector is the copy the call read at its start.
   */
  function Pour(d: Disk, handle: word, sector: Sector, block: word, off: nat, bytes: seq<byte>): (r: (Disk, bool))
    requires Formattable(d) && Readable(d, handle) && off < BLOCK_BYTES
    ensures |r.0| == |d|
    decreases |bytes|
  {
    hide Alloc, PourOnce, Resized, WithNext;
    if bytes == [] then (d, true)
    else if !Readable(d, block) then (d, false)
    else
      var n := if |bytes| < BLOCK_BYTES - off then |bytes| else BLOCK_BYTES - off;
      var (d2, ok) := PourOnce(d, handle, sector, block, off, bytes[..n]);
      if !ok || n == |bytes| then (d2, ok)
      else
        var (d3, next) := Alloc(d2);
        var d4 := Stored(d3, block, WithNext(At(d2, block), next));
        if next == 0 then (d4, false) else Pour(d4, handle, Resized(sector, n), next, 0, bytes[n..])
  }

  function Write(d: Disk, handle: word, bytes: seq<byte>): (r: Outcome)
    requires Formattable(d) && |bytes| < 0x1_0000_0000
    ensures |r.disk| == |d|
  {
    if !Readable(d, handle) then Outcome(d, 0)
    else
      var sector := At(d, handle);
      var inode := Inode(sector, 0);
      if Start(inode) == 0 then Outcome(d, 0)
      else
        var (sought, block) := Seek(d, Start(inode), Size(inode));
        if block.None? then Outcome(sought, 0)
        else
          var (poured, ok) := Pour(sought, handle, sector, block.value, Size(inode) % BLOCK_BYTES, bytes);
          Outcome(poured, if ok then |bytes| else 0)
  }
}
