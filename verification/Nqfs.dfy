/**
 The operations of kernel/drivers/fs/nqfs/nqfs.c, over sector buffers changed in place and written
 back. Each is proved to do exactly what its function in NqfsSpec says, on every disk.
 */
module Nqfs {
  import opened Bytes
  import opened RamDisk
  import opened NqfsLayout
  import opened NqfsSpec
  import Memory

  ghost predicate Mounted(device: Device) {
    device.Valid() && INODE_SECTORS < device.numSectors
  }

  /** Assignment through a packed 32-bit field. */
  method StoreWord(buf: array<byte>, off: nat, w: word)
    requires off + 4 <= buf.Length
    modifies buf
    ensures buf[..] == WithWord(old(buf[..]), off, w)
  {
    WordSplits(w);
    buf[off], buf[off + 1], buf[off + 2], buf[off + 3] :=
      WordByte(w, 0), WordByte(w, 1), WordByte(w, 2), WordByte(w, 3);
  }

  method LoadWord(buf: array<byte>, off: nat) returns (w: word)
    requires off + 4 <= buf.Length
    ensures w == Word(buf[..], off)
  {
    w := buf[off] as int + 0x100 * (buf[off + 1] as int) + 0x1_0000 * (buf[off + 2] as int)
         + 0x100_0000 * (buf[off + 3] as int);
  }

  /** Stamps a sector buffer as the last block of a chain. */
  method StampBlock(buf: array<byte>)
    requires buf.Length == SECTOR_SIZE
    modifies buf
    ensures buf[..] == Claimed(old(buf[..]))
  {
    StoreWord(buf, MAGIC_AT, MAGIC);
    StoreWord(buf, NEXT_AT, 0);
  }

  method LoadMagic(buf: array<byte>) returns (magic: word)
    requires buf.Length == SECTOR_SIZE
    ensures magic == Magic(buf[..])
  {
    magic := LoadWord(buf, MAGIC_AT);
  }

  method LoadNext(buf: array<byte>) returns (next: word)
    requires buf.Length == SECTOR_SIZE
    ensures next == Next(buf[..])
  {
    next := LoadWord(buf, NEXT_AT);
  }

  method GetNextFreeBlock(device: Device) returns (block: word)
    requires Mounted(device)
    modifies device.blocks
    ensures (device.Contents(), block) == Alloc(old(device.Contents()))
  {
    hide Claimed, Device.Contents, Magic;
    var sector := new byte[SECTOR_SIZE];
    var i := INODE_SECTORS;
    while i < device.numSectors
      invariant INODE_SECTORS <= i <= device.numSectors
      invariant device.Contents() == old(device.Contents())
      invariant Alloc(old(device.Contents())) == AllocFrom(device.Contents(), i)
    {
      var ok := device.ReadSector(i, sector);
      assert ok; // the code's early return on a failed read is dead: i is below the sector count
      var magic := LoadMagic(sector);
      if magic != MAGIC {
        StampBlock(sector);
        ok := device.WriteSector(i, sector);
        if !ok {
          return 0;
        }
        return i;
      }
      i := i + 1;
    }
    return 0;
  }

  lemma FilledInode(was: Sector, slot: nat, start: word, name: seq<byte>, now: Sector)
    requires slot < SLOTS && IsName(name)
    requires var at := slot * INODE_BYTES;
      now == Splice(WithWord(WithWord(was[at := 1], at + SIZE_AT, 0), at + START_AT, start),
                    at + NAME_AT, name[..Memory.CopyLen(name, NAME_BYTES)])[at + NAME_AT + NAME_BYTES - 1 := 0]
    ensures now == WithInode(was, slot, Created(Inode(was, slot), start, name))
  {
    hide Word, WordByte;
    var made := Created(Inode(was, slot), start, name);
    assert forall k | 0 <= k < INODE_BYTES :: now[slot * INODE_BYTES + k] == made[k];
  }

  /** The field assignments of NQFS_create_file, in the code's order, on a sector buffer. */
  method FillInode(sector: array<byte>, slot: nat, start: word, filename: array<byte>)
    requires sector.Length == SECTOR_SIZE && slot < SLOTS && filename != sector && IsName(filename[..])
    modifies sector
    ensures var was: Sector := old(sector[..]);
      sector[..] == WithInode(was, slot, Created(Inode(was, slot), start, filename[..]))
  {
    hide Created, WithInode, Inode;
    ghost var was: Sector := sector[..];
    var inode := slot * INODE_BYTES;
    sector[inode] := 1;
    StoreWord(sector, inode + SIZE_AT, 0);
    StoreWord(sector, inode + START_AT, start);
    Memory.Strncpy(filename, sector, inode + NAME_AT, NAME_BYTES);
    sector[inode + NAME_AT + NAME_BYTES - 1] := 0;
    FilledInode(was, slot, start, filename[..], sector[..]);
  }

  /** Where the nested loops of NQFS_create_file stand in the numbering of inodes. */
  lemma FreeInodeAt(d: Disk, i: nat, j: nat)
    requires Formattable(d) && i < INODE_SECTORS && j < SLOTS
    ensures var f := i * SLOTS + j;
      f / SLOTS == i && f % SLOTS == j
      && FreeInode(d, f) == if d[i][j * INODE_BYTES] == 0 then f else FreeInode(d, f + 1)
  {
  }

  /** The body of the search once a free slot is found. */
  method OccupySlot(device: Device, sector: array<byte>, i: nat, j: nat, filename: array<byte>)
    returns (handle: word)
    requires Mounted(device) && sector != device.blocks && filename != device.blocks && filename != sector
    requires IsName(filename[..]) && i < INODE_SECTORS && j < SLOTS
    requires sector.Length == SECTOR_SIZE && sector[..] == device.Contents()[i]
    requires FreeInode(device.Contents(), 0) == i * SLOTS + j
    modifies device.blocks, sector
    ensures Outcome(device.Contents(), handle) == Create(old(device.Contents()), filename[..])
  {
    hide Device.Contents, Alloc, Created, WithInode, Inode, IsName, FreeInode;
    ghost var was := device.Contents();
    var newSector := GetNextFreeBlock(device);
    FreeInodeAt(was, i, j);
    if newSector == 0 {
      return 0;
    }
    FillInode(sector, j, newSector, filename);
    var ok := device.WriteSector(i, sector);
    assert ok; // every inode sector lies before the last sector
    return i;
  }

  method CreateFile(device: Device, filename: array<byte>) returns (handle: word)
    requires Mounted(device) && filename != device.blocks && IsName(filename[..])
    modifies device.blocks
    ensures Outcome(device.Contents(), handle) == Create(old(device.Contents()), filename[..])
  {
    hide Device.Contents, FreeInode, Alloc, Created, WithInode, Inode, IsName;
    var sector := new byte[SECTOR_SIZE];
    var i := 0;
    while i < INODE_SECTORS
      invariant 0 <= i <= INODE_SECTORS
      invariant device.Contents() == old(device.Contents())
      invariant FreeInode(device.Contents(), 0) == FreeInode(device.Contents(), i * SLOTS)
    {
      var ok := device.ReadSector(i, sector);
      assert ok; // every inode sector is below the sector count
      var j := 0;
      while j < SLOTS
        invariant 0 <= j <= SLOTS
        invariant device.Contents() == old(device.Contents())
        invariant sector[..] == device.Contents()[i]
        invariant FreeInode(device.Contents(), 0) == FreeInode(device.Contents(), i * SLOTS + j)
      {
        FreeInodeAt(device.Contents(), i, j);
        if sector[j * INODE_BYTES] == 0 {
          handle := OccupySlot(device, sector, i, j, filename);
          return;
        }
        j := j + 1;
      }
      i := i + 1;
    }
    return 0;
  }

  /** Slot 0 sits at the start of its sector, so its fields are at their plain offsets. */
  lemma InodeZeroWords(s: Sector)
    ensures Start(Inode(s, 0)) == Word(s, START_AT) && Size(Inode(s, 0)) == Word(s, SIZE_AT)
  {
  }

  lemma SpliceNothing(s: seq<byte>)
    ensures Splice(s, 0, []) == s
  {
  }

  lemma SpliceMore(s: seq<byte>, done: seq<byte>, more: seq<byte>)
    requires |done| + |more| <= |s|
    ensures Splice(Splice(s, 0, done), |done|, more) == Splice(s, 0, done + more)
  {
  }

  method CopyOut(storage: array<byte>, out: array<byte>, at: nat, n: nat)
    requires storage != out && storage.Length == SECTOR_SIZE && n <= BLOCK_BYTES && at + n <= out.Length
    modifies out
    ensures out[..] == Splice(old(out[..]), at, Data(storage[..])[..n])
  {
    Memory.Memcpy(storage, DATA_AT, out, at, n);
    assert storage[DATA_AT..DATA_AT + n] == Data(storage[..])[..n];
  }

  /** One round of the loop, with what was copied before it. */
  lemma ReadFromStep(d: Disk, done: seq<byte>, block: word, size: word, readable: nat)
    requires size > 0 && Readable(d, block) && readable == if size < BLOCK_BYTES then size else BLOCK_BYTES
    ensures var s := At(d, block);
      var now := done + Data(s)[..readable];
      var left := size - readable;
      && (left > 0 && Next(s) != 0 ==>
           && done + ReadFrom(d, block, size).0 == now + ReadFrom(d, Next(s), left).0
           && ReadFrom(d, block, size).1 == ReadFrom(d, Next(s), left).1)
      && (left == 0 || Next(s) == 0 ==> (done + ReadFrom(d, block, size).0, ReadFrom(d, block, size).1) == (now, left))
  {
    hide Data, Next;
  }

  /** The copying loop of NQFS_read_bytes. */
  method CopyChain(device: Device, start: word, out: array<byte>, size0: word) returns (left: word)
    requires Mounted(device) && out != device.blocks
    requires |ReadFrom(device.Contents(), start, size0).0| <= out.Length
    modifies out
    ensures var (bytes, ret) := ReadFrom(device.Contents(), start, size0);
      out[..] == Splice(old(out[..]), 0, bytes) && left == ret
  {
    hide Device.Contents, Splice, Next, Data;
    ghost var d := device.Contents();
    ghost var all := ReadFrom(d, start, size0);
    var storage := new byte[SECTOR_SIZE];
    var block, size, at := start, size0, 0;
    SpliceNothing(out[..]);
    ghost var done: seq<byte> := [];
    assert done + all.0 == all.0;
    while size > 0
      invariant device.Contents() == d
      invariant 0 <= size && |done| == at <= out.Length && at + size == size0
      invariant out[..] == Splice(old(out[..]), 0, done)
      invariant all == (done + ReadFrom(d, block, size).0, ReadFrom(d, block, size).1)
      decreases size
    {
      var ok := device.ReadSector(block, storage);
      if !ok {
        return 0;
      }
      ghost var s: Sector := storage[..];
      var readable := if size < BLOCK_BYTES then size else BLOCK_BYTES;
      CopyOut(storage, out, at, readable);
      SpliceMore(old(out[..]), done, Data(s)[..readable]);
      ReadFromStep(d, done, block, size, readable);
      done := done + Data(s)[..readable];
      at := at + readable;
      size := size - readable;
      if size > 0 {
        block := LoadNext(storage);
        if block == 0 {
          return size;
        }
      }
      assert done + [] == done;
    }
    return size;
  }

  /** Returns the count of bytes it could not deliver, and 0 on every failure. */
  method ReadBytes(device: Device, inodeSector: word, out: array<byte>, maxSize: word) returns (left: word)
    requires Mounted(device) && out != device.blocks
    requires |Read(device.Contents(), inodeSector, maxSize).0| <= out.Length
    modifies out
    ensures var (bytes, ret) := Read(device.Contents(), inodeSector, maxSize);
      out[..] == Splice(old(out[..]), 0, bytes) && left == ret
  {
    hide Device.Contents, Splice, Inode, Next;
    ghost var d := device.Contents();
    var sector := new byte[SECTOR_SIZE];
    var ok := device.ReadSector(inodeSector, sector);
    SpliceNothing(out[..]);
    if !ok {
      return 0;
    }
    InodeZeroWords(sector[..]);
    var start := LoadWord(sector, START_AT);
    if start == 0 {
      return 0;
    }
    var size := maxSize;
    var fileSize := LoadWord(sector, SIZE_AT);
    if size > fileSize {
      size := fileSize;
    }
    left := CopyChain(device, start, out, size);
  }

  /** The first loop of NQFS_write_bytes: the block reached and the offset left over inside it. */
  method SeekTail(device: Device, start: word, size: word) returns (ok: bool, block: word, curSize: word)
    requires Mounted(device)
    modifies device.blocks
    ensures var (d, found) := Seek(old(device.Contents()), start, size);
      device.Contents() == d && ok == found.Some? && (ok ==> block == found.value)
    ensures ok ==> curSize == size % BLOCK_BYTES
  {
    hide Device.Contents, Alloc, Next;
    ghost var goal := Seek(device.Contents(), start, size);
    var storage := new byte[SECTOR_SIZE];
    curSize := size;
    block := start;
    while curSize >= BLOCK_BYTES
      invariant 0 <= curSize && curSize % BLOCK_BYTES == size % BLOCK_BYTES
      invariant goal == Seek(device.Contents(), block, curSize)
    {
      ok := device.ReadSector(block, storage);
      if !ok {
        return;
      }
      curSize := curSize - BLOCK_BYTES;
      block := LoadNext(storage);
      if block == 0 {
        // the new number goes into the buffer's next field, and that buffer is never written back
        block := GetNextFreeBlock(device);
        if block == 0 {
          ok := false;
          return;
        }
      }
    }
    ok := true;
  }

  /** Copies part of the input into the data area of a storage buffer. */
  method FillBlock(storage: array<byte>, off: nat, src: array<byte>, from: nat, n: nat)
    requires storage != src && storage.Length == SECTOR_SIZE && off + n <= BLOCK_BYTES && from + n <= src.Length
    modifies storage
    ensures storage[..] == WithData(old(storage[..]), off, src[from..from + n])
  {
    Memory.Memcpy(src, from, storage, DATA_AT + off, n);
  }

  method GrowInode(sector: array<byte>, n: nat)
    requires sector.Length == SECTOR_SIZE
    modifies sector
    ensures sector[..] == Resized(old(sector[..]), n)
  {
    InodeZeroWords(sector[..]);
    var size := LoadWord(sector, SIZE_AT);
    StoreWord(sector, SIZE_AT, (size + n) % 0x1_0000_0000);
  }

  method LinkBlock(storage: array<byte>, next: word)
    requires storage.Length == SECTOR_SIZE
    modifies storage
    ensures storage[..] == WithNext(old(storage[..]), next)
  {
    StoreWord(storage, NEXT_AT, next);
  }

  /** Fills the buffered block, and stores the inode sector and then the block. */
  method PourChunk(device: Device, inodeSector: word, sector: array<byte>, block: word, storage: array<byte>,
                   off: nat, src: array<byte>, from: nat, n: nat) returns (ok: bool)
    requires Mounted(device) && sector.Length == SECTOR_SIZE && sector != device.blocks
    requires storage.Length == SECTOR_SIZE && storage != device.blocks && storage != sector
    requires src != device.blocks && src != sector && src != storage && from + n <= src.Length
    requires off + n <= BLOCK_BYTES
    requires Readable(device.Contents(), inodeSector) && Readable(device.Contents(), block)
    requires storage[..] == At(device.Contents(), block)
    modifies device.blocks, sector, storage
    ensures sector[..] == Resized(old(sector[..]), n)
    ensures (device.Contents(), ok)
         == PourOnce(old(device.Contents()), inodeSector, old(sector[..]), block, off, src[from..from + n])
    ensures ok ==> storage[..] == At(device.Contents(), block)
  {
    hide Device.Contents, Resized, WithData;
    FillBlock(storage, off, src, from, n);
    GrowInode(sector, n);
    ok := device.WriteSector(inodeSector, sector);
    if ok {
      ok := device.WriteSector(block, storage);
    }
  }

  /** Claims a block and links it behind the buffered one, or ends the chain there. */
  method ExtendChain(device: Device, block: word, storage: array<byte>) returns (next: word)
    requires Mounted(device) && storage.Length == SECTOR_SIZE && storage != device.blocks
    requires Readable(device.Contents(), block) && Writable(device.Contents(), block)
    requires storage[..] == At(device.Contents(), block)
    modifies device.blocks, storage
    ensures var d := old(device.Contents());
      next == Alloc(d).1 && device.Contents() == Stored(Alloc(d).0, block, WithNext(At(d, block), next))
  {
    hide Device.Contents, Alloc, WithNext;
    next := GetNextFreeBlock(device);
    LinkBlock(storage, next);
    var ok := device.WriteSector(block, storage);
    assert ok; // allocating does not change what can be written
  }

  /** The second loop of NQFS_write_bytes, over the call's own copy of the inode sector. */
  method PourBytes(device: Device, inodeSector: word, sector: array<byte>, start: word, off0: nat,
                   src: array<byte>, size0: nat) returns (ok: bool)
    requires Mounted(device) && sector.Length == SECTOR_SIZE && sector != device.blocks
    requires src != device.blocks && src != sector && size0 <= src.Length
    requires Readable(device.Contents(), inodeSector) && off0 < BLOCK_BYTES
    modifies device.blocks, sector
    ensures (device.Contents(), ok)
         == Pour(old(device.Contents()), inodeSector, old(sector[..]), start, off0, src[..size0])
  {
    hide Device.Contents, Alloc, PourOnce, Resized, WithNext, Stored, At;
    ghost var bytes := src[..size0];
    ghost var goal := Pour(device.Contents(), inodeSector, sector[..], start, off0, bytes);
    var storage := new byte[SECTOR_SIZE];
    var block: word, off: nat, written: nat := start, off0, 0;
    assert bytes[0..] == bytes;
    while written < size0
      invariant written <= size0 && off < BLOCK_BYTES
      invariant src[..size0] == bytes
      invariant goal == Pour(device.Contents(), inodeSector, sector[..], block, off, bytes[written..])
      decreases size0 - written
    {
      ok := device.ReadSector(block, storage);
      if !ok {
        return;
      }
      var n := if size0 - written < BLOCK_BYTES - off then size0 - written else BLOCK_BYTES - off;
      assert src[..size0][written..][..n] == src[written..written + n];
      ok := PourChunk(device, inodeSector, sector, block, storage, off, src, written, n);
      if !ok {
        return;
      }
      off := 0;
      assert bytes[written..][n..] == bytes[written + n..];
      written := written + n;
      if written < size0 {
        block := ExtendChain(device, block, storage);
        if block == 0 {
          ok := false;
          return;
        }
      }
    }
    ok := true;
  }

  /** Returns size, or 0 where the code gives up, whatever it had stored by then. */
  method WriteBytes(device: Device, inodeSector: word, src: array<byte>, size: word) returns (written: word)
    requires Mounted(device) && src != device.blocks && size <= src.Length
    modifies device.blocks
    ensures Outcome(device.Contents(), written) == Write(old(device.Contents()), inodeSector, src[..size])
  {
    hide Device.Contents, Seek, Pour, Word, Inode;
    var sector := new byte[SECTOR_SIZE];
    var ok := device.ReadSector(inodeSector, sector);
    if !ok {
      return 0;
    }
    InodeZeroWords(sector[..]);
    var start := LoadWord(sector, START_AT);
    if start == 0 {
      return 0;
    }
    var curSize := LoadWord(sector, SIZE_AT);
    var block;
    ok, block, curSize := SeekTail(device, start, curSize);
    if !ok {
      return 0;
    }
    ok := PourBytes(device, inodeSector, sector, block, curSize, src, size);
    return if ok then size else 0;
  }
}
