/**
 The file system a user sees, independent of sectors and chains: a name and a byte string per file,
 and a budget of free blocks. NqfsRefinement proves that the code implements it.
 */
module NqfsVolume {
  import opened Bytes
  import opened NqfsLayout
  import NqfsInvariant

  datatype File = File(name: seq<byte>, bytes: seq<byte>)

  datatype Volume = Volume(files: map<nat, File>, free: nat)

  type Handle = h: nat | h < INODE_SECTORS

  /** A handle is an inode sector, and always stands for the first inode in it. */
  function FileOf(h: Handle): nat {
    h * SLOTS
  }

  /** How many more bytes fit behind a file. */
  function Room(v: Volume, f: nat): nat
    requires f in v.files
  {
    var size := |v.files[f].bytes|;
    BLOCK_BYTES * (NqfsInvariant.Blocks(size) + v.free) - size
  }

  /** How many of n bytes an append stores. */
  function Accepted(v: Volume, f: nat, n: nat): (r: nat)
    requires f in v.files
    ensures r <= n
  {
    if n <= Room(v, f) then n else Room(v, f)
  }

  /** Append: everything if it fits; otherwise as much as fits, reported as 0. */
  function Append(v: Volume, h: Handle, bytes: seq<byte>): (r: (Volume, nat)) {
    var f := FileOf(h);
    if f !in v.files then (v, 0)
    else
      var n := Accepted(v, f, |bytes|);
      var now := v.files[f].bytes + bytes[..n];
      var used := NqfsInvariant.Blocks(|now|) - NqfsInvariant.Blocks(|v.files[f].bytes|);
      (Volume(v.files[f := v.files[f].(bytes := now)], if used <= v.free then v.free - used else 0),
       if n == |bytes| then n else 0)
  }

  /** The appends the code gets wrong: the file ends on a block boundary and a block is still free. */
  predicate Leaky(v: Volume, h: Handle) {
    var f := FileOf(h);
    f in v.files && v.free > 0 && |v.files[f].bytes| > 0 && |v.files[f].bytes| % BLOCK_BYTES == 0
  }

  /** The first inode from f on that has no file. */
  function FirstUnused(files: map<nat, File>, f: nat): (r: nat)
    requires f <= INODES
    ensures f <= r <= INODES
    ensures forall g :: f <= g < r ==> g in files
    ensures r < INODES ==> r !in files
    decreases INODES - f
  {
    if f == INODES || f !in files then f else FirstUnused(files, f + 1)
  }

  /** A name as it is kept: cut at the first NUL, and to 63 bytes. */
  function KeptName(name: seq<byte>): seq<byte> {
    var full := CString(name);
    full[..if |full| < NAME_BYTES then |full| else NAME_BYTES - 1]
  }

  /** Create: an empty file in the first unused inode, at the price of a block. */
  function Create(v: Volume, name: seq<byte>): (r: (Volume, nat)) {
    var f := FirstUnused(v.files, 0);
    if f == INODES || v.free == 0 then (v, 0)
    else (Volume(v.files[f := File(KeptName(name), [])], v.free - 1), f / SLOTS)
  }
}
