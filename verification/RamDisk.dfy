/**
 The RAM block device of kernel/drivers/blk/ramblk/ramblk.c: one flat array of bytes, read and
 written a 512-byte sector at a time. Sector numbers are 32-bit words, and the byte offset of a
 sector is computed modulo 2^32, so sector s and sector s % 2^23 are the same place.
 */
module RamDisk {
  import opened Bytes
  import Memory

  const SECTOR_SIZE := 512
  const ADDRESSABLE := 0x80_0000 // 2^32 / SECTOR_SIZE

  function ZeroSector(): (s: seq<byte>)
    ensures |s| == SECTOR_SIZE
  {
    seq(SECTOR_SIZE, _ => 0)
  }

  type Sector = s: seq<byte> | |s| == SECTOR_SIZE witness ZeroSector()
  type Disk = d: seq<Sector> | |d| < ADDRESSABLE

  predicate Readable(d: Disk, s: word) {
    s % ADDRESSABLE < |d|
  }

  /** The device refuses to write the last sector as well as everything beyond it. */
  predicate Writable(d: Disk, s: word) {
    (s + 1) % ADDRESSABLE < |d|
  }

  /** The one sector number that passes the write check although it lies outside every disk. */
  predicate Wraps(s: word) {
    (s + 1) % ADDRESSABLE == 0
  }

  function At(d: Disk, s: word): Sector
    requires Readable(d, s)
  {
    d[s % ADDRESSABLE]
  }

  function Stored(d: Disk, s: word, sec: Sector): Disk
    requires Writable(d, s) && !Wraps(s)
  {
    d[s % ADDRESSABLE := sec]
  }

  /** Sector numbers on the disk mean what they say. */
  lemma OnDisk(d: Disk, s: nat)
    requires s < |d|
    ensures Readable(d, s) && At(d, s) == d[s]
    ensures s + 1 < |d| ==> Writable(d, s) && !Wraps(s) && forall sec: Sector :: Stored(d, s, sec) == d[s := sec]
  {
  }

  /** The sectors of a flat store of n * SECTOR_SIZE bytes. */
  function Split(store: seq<byte>, n: nat): (d: Disk)
    requires |store| == n * SECTOR_SIZE && n < ADDRESSABLE
    ensures |d| == n
    ensures forall i :: 0 <= i < n ==> d[i] == store[i * SECTOR_SIZE..(i + 1) * SECTOR_SIZE]
  {
    seq(n, i requires 0 <= i < n => store[i * SECTOR_SIZE..(i + 1) * SECTOR_SIZE])
  }

  /** Overwriting one sector-aligned window replaces that sector and no other. */
  lemma SpliceSector(store: seq<byte>, n: nat, k: nat, sec: Sector)
    requires |store| == n * SECTOR_SIZE && k < n < ADDRESSABLE
    ensures Split(Splice(store, k * SECTOR_SIZE, sec), n) == Split(store, n)[k := sec]
  {
    var after := Splice(store, k * SECTOR_SIZE, sec);
    forall i | 0 <= i < n
      ensures Split(after, n)[i] == Split(store, n)[k := sec][i]
    {
    }
  }

  /** Byte offsets are 32-bit, so sector numbers count modulo 2^23. */
  lemma OffsetWraps(sector: nat)
    ensures sector * SECTOR_SIZE % 0x1_0000_0000 == sector % ADDRESSABLE * SECTOR_SIZE
  {
    var q, r := sector / ADDRESSABLE, sector % ADDRESSABLE;
    assert sector * SECTOR_SIZE == 0x1_0000_0000 * q + r * SECTOR_SIZE;
  }

  class Device {
    const blocks: array<byte>
    const numSectors: nat

    ghost predicate Valid() {
      blocks.Length == numSectors * SECTOR_SIZE && numSectors < ADDRESSABLE
    }

    ghost function Contents(): (d: Disk)
      requires Valid()
      reads blocks
      ensures |d| == numSectors
    {
      Split(blocks[..], numSectors)
    }

    /** RAMBLK__init: every byte is zeroed. */
    constructor (numSectors: nat)
      requires numSectors < ADDRESSABLE
      ensures Valid() && fresh(blocks) && this.numSectors == numSectors
      ensures Contents() == seq(numSectors, _ => ZeroSector())
    {
      this.numSectors := numSectors;
      blocks := new byte[numSectors * SECTOR_SIZE];
      new;
      Memory.Memset(blocks, 0, blocks.Length);
      forall i | 0 <= i < numSectors
        ensures Contents()[i] == ZeroSector()
      {
      }
    }

    method ReadSector(sector: word, out: array<byte>) returns (ok: bool)
      requires Valid() && out != blocks && out.Length == SECTOR_SIZE
      modifies out
      ensures ok == Readable(Contents(), sector)
      ensures out[..] == if ok then At(Contents(), sector) else old(out[..])
    {
      var offset := sector * SECTOR_SIZE % 0x1_0000_0000;
      OffsetWraps(sector);
      if offset >= blocks.Length {
        return false;
      }
      Memory.Memcpy(blocks, offset, out, 0, SECTOR_SIZE);
      assert out[..] == blocks[offset..offset + SECTOR_SIZE];
      return true;
    }

    method WriteSector(sector: word, src: array<byte>) returns (ok: bool)
      requires Valid() && src != blocks && src.Length == SECTOR_SIZE
      requires !Wraps(sector)
      modifies blocks
      ensures ok == Writable(old(Contents()), sector)
      ensures Contents() == if ok then Stored(old(Contents()), sector, src[..]) else old(Contents())
    {
      var limit := (sector + 1) * SECTOR_SIZE % 0x1_0000_0000;
      OffsetWraps(sector + 1);
      if limit >= blocks.Length {
        return false;
      }
      var offset := sector * SECTOR_SIZE % 0x1_0000_0000;
      OffsetWraps(sector);
      SpliceSector(blocks[..], numSectors, sector % ADDRESSABLE, src[..]);
      Memory.Memcpy(src, 0, blocks, offset, SECTOR_SIZE);
      assert src[0..SECTOR_SIZE] == src[..];
      return true;
    }
  }
}
