/** Whole runs: any sequence of creates and appends, from a zeroed disk or any well-formed one. */
module NqfsRuns {
  import opened Bytes
  import opened RamDisk
  import opened NqfsLayout
  import opened NqfsSpec
  import opened NqfsInvariant
  import opened NqfsSteps
  import opened NqfsLeaks
  import opened NqfsRefinement
  import opened NqfsTheorems
  import opened NqfsCreate
  import opened NqfsReading
  import opened Counting
  import V = NqfsVolume

  type Name = s: seq<byte> | IsName(s) witness [0]
  type Payload = s: seq<byte> | |s| < 0x1_0000_0000

  datatype Op = CreateOp(name: Name) | AppendOp(handle: V.Handle, bytes: Payload)

  function Apply(d: Disk, op: Op): (r: Outcome)
    requires Formattable(d)
    ensures |r.disk| == |d|
  {
    match op
    case CreateOp(name) => Create(d, name)
    case AppendOp(h, bytes) => Write(d, h, bytes)
  }

  /** The disk after a run, and what each call returned. */
  function Run(d: Disk, ops: seq<Op>): (r: (Disk, seq<word>))
    requires Formattable(d)
    ensures |r.0| == |d| && |r.1| == |ops|
    decreases |ops|
  {
    if ops == [] then (d, [])
    else
      var first := Apply(d, ops[0]);
      var rest := Run(first.disk, ops[1..]);
      (rest.0, [first.ret] + rest.1)
  }

  function ApplyV(v: V.Volume, op: Op): (V.Volume, nat) {
    match op
    case CreateOp(name) => V.Create(v, name)
    case AppendOp(h, bytes) => V.Append(v, h, bytes)
  }

  function RunV(v: V.Volume, ops: seq<Op>): (V.Volume, seq<nat>)
    decreases |ops|
  {
    if ops == [] then (v, [])
    else
      var first := ApplyV(v, ops[0]);
      var rest := RunV(first.0, ops[1..]);
      (rest.0, [first.1] + rest.1)
  }

  /** No append of the run starts on a block boundary while a block is free. */
  predicate Careful(v: V.Volume, ops: seq<Op>)
    decreases |ops|
  {
    ops == []
    || ((ops[0].AppendOp? ==> !V.Leaky(v, ops[0].handle)) && Careful(ApplyV(v, ops[0]).0, ops[1..]))
  }

  // ---- any run at all

  /** Every file is still there under its name, with at least the bytes it had, in place. */
  ghost predicate Keeps(v: V.Volume, w: V.Volume) {
    forall f | f in v.files ::
      f in w.files && w.files[f].name == v.files[f].name && v.files[f].bytes <= w.files[f].bytes
  }

  lemma ApplyKeepsWellFormed(d: Disk, op: Op)
    requires WellFormed(d)
    ensures var e := Apply(d, op).disk;
      WellFormed(e) && Keeps(VolumeOf(d), VolumeOf(e)) && |Leaks(d)| <= |Leaks(e)|
  {
    hide ChainsOf, Linked, Sized, LeakedSet, FreeSet, FileAt, Write, NqfsSpec.Create;
    match op
    case CreateOp(name) =>
      CreateRefines(d, name);
    case AppendOp(h, bytes) =>
      AppendLeaks(d, h, bytes);
      if !V.Leaky(VolumeOf(d), h) {
        AppendRefines(d, h, bytes);
      }
  }

  lemma PrefixTrans(a: seq<byte>, b: seq<byte>, c: seq<byte>)
    requires a <= b <= c
    ensures a <= c
  {
    assert a == b[..|a|] == c[..|b|][..|a|];
  }

  lemma KeepsTrans(u: V.Volume, v: V.Volume, w: V.Volume)
    requires Keeps(u, v) && Keeps(v, w)
    ensures Keeps(u, w)
  {
    forall f | f in u.files
      ensures u.files[f].bytes <= w.files[f].bytes
    {
      PrefixTrans(u.files[f].bytes, v.files[f].bytes, w.files[f].bytes);
    }
  }

  /**
   Every run of creates and appends keeps a well-formed disk well formed, and loses or changes no byte
   that could be read at any point of it.
   */
  lemma {:induction false} RunKeepsWellFormed(d: Disk, ops: seq<Op>)
    requires WellFormed(d)
    ensures var e := Run(d, ops).0;
      WellFormed(e) && Keeps(VolumeOf(d), VolumeOf(e)) && |Leaks(d)| <= |Leaks(e)|
    decreases |ops|
  {
    hide Linked, Sized, ChainsOf, VolumeOf, Leaks, Apply;
    if ops != [] {
      var first := Apply(d, ops[0]).disk;
      ApplyKeepsWellFormed(d, ops[0]);
      RunKeepsWellFormed(first, ops[1..]);
      KeepsTrans(VolumeOf(d), VolumeOf(first), VolumeOf(Run(first, ops[1..]).0));
    }
  }

  // ---- careful runs

  /** A careful run on the disk is, result for result, the run on the volume. */
  lemma {:induction false} RunRefines(d: Disk, ops: seq<Op>)
    requires WellFormed(d) && Careful(VolumeOf(d), ops)
    ensures var r := Run(d, ops);
      && WellFormed(r.0) && Leaks(r.0) == Leaks(d)
      && VolumeOf(r.0) == RunV(VolumeOf(d), ops).0
      && r.1 == RunV(VolumeOf(d), ops).1
    decreases |ops|
  {
    hide Linked, Sized, ChainsOf, VolumeOf, Leaks, V.Append, V.Create, Write, NqfsSpec.Create, FreeSet;
    if ops != [] {
      match ops[0] {
        case CreateOp(name) => CreateRefines(d, name);
        case AppendOp(h, bytes) => AppendRefines(d, h, bytes);
      }
      RunRefines(Apply(d, ops[0]).disk, ops[1..]);
    }
  }

  /** A run leaves a sound disk sound exactly when it is careful. */
  lemma {:induction false} SoundIffCareful(d: Disk, ops: seq<Op>)
    requires Sound(d)
    ensures Sound(Run(d, ops).0) <==> Careful(VolumeOf(d), ops)
    decreases |ops|
  {
    hide Linked, Sized, VolumeOf, V.Append, V.Create, Write, NqfsSpec.Create, FreeSet, ChainsOf, LeakedSet, V.Leaky;
    if ops != [] {
      var first := Apply(d, ops[0]).disk;
      match ops[0] {
        case CreateOp(name) =>
          CreateRefines(d, name);
          SoundIffCareful(first, ops[1..]);
        case AppendOp(h, bytes) =>
          AppendLeaks(d, h, bytes);
          if V.Leaky(VolumeOf(d), h) {
            RunKeepsWellFormed(first, ops[1..]);
            assert |Leaks(first)| > 0;
          } else {
            AppendRefines(d, h, bytes);
            SoundIffCareful(first, ops[1..]);
          }
      }
    }
  }

  // ---- from a zeroed disk, and the round trip

  function Zeroed(n: nat): (d: Disk)
    requires n < ADDRESSABLE
    ensures |d| == n
  {
    seq(n, _ => ZeroSector())
  }

  lemma ZeroFields()
    ensures Magic(ZeroSector()) == 0
    ensures forall j | 0 <= j < SLOTS :: !Used(Inode(ZeroSector(), j)) && Start(Inode(ZeroSector(), j)) == 0
  {
  }

  /** A zeroed device is an empty file system with every block of the data region but the last free. */
  lemma ZeroedIsSound(n: nat)
    requires INODE_SECTORS < n < ADDRESSABLE
    ensures Sound(Zeroed(n))
    ensures VolumeOf(Zeroed(n)) == V.Volume(map[], n - 1 - INODE_SECTORS)
  {
    hide Magic, Inode, Used, Start, Walk;
    var d := Zeroed(n);
    ZeroFields();
    var none: Chains := map[];
    assert Linked(d, none);
    IsWellFormed(d, none);
    assert FreeSet(d) == Range(INODE_SECTORS, n - 1);
    assert LeakedSet(d, none) == {};
  }

  /** The bytes the appends of a run add to the file of a handle: what fits of each, in order. */
  function Log(v: V.Volume, ops: seq<Op>, h: V.Handle): seq<byte>
    decreases |ops|
  {
    if ops == [] then []
    else
      var now := if ops[0].AppendOp? && ops[0].handle == h && V.FileOf(h) in v.files
                 then ops[0].bytes[..V.Accepted(v, V.FileOf(h), |ops[0].bytes|)] else [];
      now + Log(ApplyV(v, ops[0]).0, ops[1..], h)
  }

  /** The bytes a file has after a run are those it had, and then the log. */
  lemma {:induction false} RunAppendsLog(v: V.Volume, ops: seq<Op>, h: V.Handle)
    ensures var (w, f) := (RunV(v, ops).0, V.FileOf(h));
      f in w.files ==> w.files[f].bytes == (if f in v.files then v.files[f].bytes else []) + Log(v, ops, h)
    decreases |ops|
  {
    hide V.Accepted, V.KeptName, V.FirstUnused;
    var f := V.FileOf(h);
    if ops == [] {
      assert f in v.files ==> v.files[f].bytes + [] == v.files[f].bytes;
    } else {
      var u := ApplyV(v, ops[0]).0;
      RunAppendsLog(u, ops[1..], h);
      var now := if ops[0].AppendOp? && ops[0].handle == h && f in v.files
                 then ops[0].bytes[..V.Accepted(v, f, |ops[0].bytes|)] else [];
      var before := if f in v.files then v.files[f].bytes else [];
      assert (if f in u.files then u.files[f].bytes else []) == before + now;
      assert before + now + Log(u, ops[1..], h) == before + (now + Log(u, ops[1..], h));
    }
  }

  /**
   The round trip. After any careful run from a zeroed disk, reading a file gives back the first bytes
   of everything appended to it, in order, and reports nothing left over.
   */
  lemma ReadAfterRun(n: nat, ops: seq<Op>, h: V.Handle, size: word)
    requires INODE_SECTORS < n < ADDRESSABLE
    requires var empty := V.Volume(map[], n - 1 - INODE_SECTORS);
      Careful(empty, ops) && V.FileOf(h) in RunV(empty, ops).0.files
    ensures var log := Log(V.Volume(map[], n - 1 - INODE_SECTORS), ops, h);
      Read(Run(Zeroed(n), ops).0, h, size) == (log[..Min(size, |log|)], 0)
  {
    hide Linked, Sized, ChainsOf, LeakedSet, FileAt, FreeSet, Careful, RunV, Run, Log, Read;
    ZeroedIsSound(n);
    var empty := V.Volume(map[], n - 1 - INODE_SECTORS);
    RunRefines(Zeroed(n), ops);
    RunAppendsLog(empty, ops, h);
    var log := Log(empty, ops, h);
    assert [] + log == log;
    ReadDelivers(Run(Zeroed(n), ops).0, h, size);
  }

  /** What a client of handle h sent, whether it fitted or not. */
  function Sent(ops: seq<Op>, h: V.Handle): seq<byte> {
    if ops == [] then []
    else (if ops[0].AppendOp? && ops[0].handle == h then ops[0].bytes else []) + Sent(ops[1..], h)
  }

  /** No append of the run was refused: each returned the number of bytes it was given. */
  predicate AllStored(ops: seq<Op>, results: seq<nat>)
    requires |results| == |ops|
  {
    forall i | 0 <= i < |ops| && ops[i].AppendOp? :: results[i] == |ops[i].bytes|
  }

  lemma {:induction false} RunLength(v: V.Volume, ops: seq<Op>)
    ensures |RunV(v, ops).1| == |ops|
    decreases |ops|
  {
    if ops != [] {
      RunLength(ApplyV(v, ops[0]).0, ops[1..]);
    }
  }

  /** When every append is reported as stored, the log is exactly what was sent. */
  lemma {:induction false} LogIsSent(v: V.Volume, ops: seq<Op>, h: V.Handle)
    requires (RunLength(v, ops); AllStored(ops, RunV(v, ops).1))
    ensures Log(v, ops, h) == Sent(ops, h)
    decreases |ops|
  {
    if ops != [] {
      var u := ApplyV(v, ops[0]).0;
      RunLength(v, ops);
      RunLength(u, ops[1..]);
      var results := RunV(v, ops).1;
      assert results == [ApplyV(v, ops[0]).1] + RunV(u, ops[1..]).1;
      assert AllStored(ops[1..], RunV(u, ops[1..]).1) by {
        forall i | 0 <= i < |ops| - 1 && ops[1..][i].AppendOp?
          ensures RunV(u, ops[1..]).1[i] == |ops[1..][i].bytes|
        {
          assert ops[i + 1].AppendOp? && results[i + 1] == |ops[i + 1].bytes|;
        }
      }
      assert ops[0].AppendOp? ==> results[0] == |ops[0].bytes|;
      LogIsSent(u, ops[1..], h);
      if ops[0].AppendOp? && ops[0].bytes == [] {
        assert forall n: nat | n <= 0 :: ops[0].bytes[..n] == [];
      } else if ops[0].AppendOp? {
        assert ops[0].bytes[..|ops[0].bytes|] == ops[0].bytes;
      }
    }
  }

  // ---- what handles cannot reach

  lemma ApplyElsewhere(d: Disk, op: Op, f: nat)
    requires WellFormed(d) && f % SLOTS != 0
    ensures var e := Apply(d, op).disk;
      WellFormed(e) && (f in VolumeOf(e).files ==>
        VolumeOf(e).files[f].bytes == if f in VolumeOf(d).files then VolumeOf(d).files[f].bytes else [])
  {
    hide ChainsOf, Linked, Sized, LeakedSet, FreeSet, FileAt, Write, NqfsSpec.Create, V.Leaky, V.FirstUnused;
    match op
    case CreateOp(name) =>
      CreateRefines(d, name);
    case AppendOp(h, bytes) =>
      AppendLeaks(d, h, bytes);
      if !V.Leaky(VolumeOf(d), h) {
        AppendRefines(d, h, bytes);
      }
  }

  /**
   No run, careful or not, writes a byte to a file outside slot 0 of its sector: such a file stays as it
   was, and a new one stays empty.
   */
  lemma {:induction false} OtherSlotsStay(d: Disk, ops: seq<Op>, f: nat)
    requires WellFormed(d) && f % SLOTS != 0
    ensures var e := Run(d, ops).0;
      WellFormed(e) && (f in VolumeOf(e).files ==>
        VolumeOf(e).files[f].bytes == if f in VolumeOf(d).files then VolumeOf(d).files[f].bytes else [])
    decreases |ops|
  {
    hide Linked, Sized, ChainsOf, VolumeOf, Leaks, Apply;
    if ops != [] {
      var first := Apply(d, ops[0]).disk;
      ApplyElsewhere(d, ops[0], f);
      ApplyKeepsWellFormed(d, ops[0]);
      RunKeepsWellFormed(first, ops[1..]);
      OtherSlotsStay(first, ops[1..], f);
    }
  }

  // ---- inputs

  /** A new file of exactly one block. */
  lemma OneBlockFile(free: nat, bytes: Payload)
    requires free >= 2 && |bytes| == BLOCK_BYTES
    ensures var (v, ops) := (V.Volume(map[], free), [CreateOp([65, 0]), AppendOp(0, bytes)]);
      var (w, results) := RunV(v, ops);
      && Careful(v, ops) && results == [0, BLOCK_BYTES] && w.free == free - 1
      && 0 in w.files && |w.files[0].bytes| == BLOCK_BYTES && V.Leaky(w, 0)
  {
    hide V.KeptName;
    var v, ops := V.Volume(map[], free), [CreateOp([65, 0]), AppendOp(0, bytes)];
    var v1 := ApplyV(v, ops[0]).0;
    assert v1.files[0].bytes == [] && v1.free == free - 1;
    var (v2, n) := ApplyV(v1, ops[1]);
    assert [] + bytes[..BLOCK_BYTES] == bytes;
    assert v2.files[0].bytes == bytes && v2.free == free - 1 && n == BLOCK_BYTES;
    assert RunV(v2, []) == (v2, []) && Careful(v2, []);
    var rest := ops[1..];
    assert rest[0] == ops[1] && rest[1..] == [] && !V.Leaky(v1, 0);
    assert RunV(v1, rest) == (v2, [n] + []);
    assert Careful(v1, rest);
    assert V.FirstUnused(v.files, 0) == 0 && ApplyV(v, ops[0]) == (v1, 0);
    assert [n] + [] == [n] && RunV(v, ops) == (v2, [0] + [n]);
  }

  lemma {:induction false} RunThen(d: Disk, ops: seq<Op>, last: Op)
    requires Formattable(d)
    ensures var (e, results) := Run(d, ops);
      Run(d, ops + [last]) == (Apply(e, last).disk, results + [Apply(e, last).ret])
    decreases |ops|
  {
    hide Apply;
    var all := ops + [last];
    if ops == [] {
      var end := Apply(d, last);
      assert all == [last] && all[1..] == [] && Run(end.disk, []) == (end.disk, []);
      assert [end.ret] + [] == [] + [end.ret];
    } else {
      var first := Apply(d, ops[0]);
      assert all[0] == ops[0] && all[1..] == ops[1..] + [last];
      RunThen(first.disk, ops[1..], last);
      var (e, results) := Run(first.disk, ops[1..]);
      var ret := Apply(e, last).ret;
      assert [first.ret] + (results + [ret]) == [first.ret] + results + [ret];
    }
  }

  lemma OneByteLeaks(d: Disk)
    requires Sound(d) && V.Leaky(VolumeOf(d), 0) && |VolumeOf(d).files[0].bytes| == BLOCK_BYTES
    ensures var out := Apply(d, AppendOp(0, [7]));
      && out.ret == 1 && WellFormed(out.disk) && !Sound(out.disk) && VolumeOf(out.disk).files == VolumeOf(d).files
  {
    hide Linked, Sized, ChainsOf, LeakedSet, FreeSet, FileAt, Write, SizeOf, Recorded;
    AppendLeaks(d, 0, [7]);
    KeysAreInodes(d, ChainsOf(d));
    SoundSizes(d, 0);
  }

  /**
   A file of exactly one block, and one more byte: all three calls report success, and yet a zeroed disk is
   left with a leak, and the file without its last byte.
   */
  lemma LeakExample(n: nat, bytes: Payload)
    requires INODE_SECTORS + 2 < n < ADDRESSABLE && |bytes| == BLOCK_BYTES
    ensures var (e, results) := Run(Zeroed(n), [CreateOp([65, 0]), AppendOp(0, bytes), AppendOp(0, [7])]);
      && results == [0, 504, 1] && WellFormed(e) && !Sound(e)
      && 0 in VolumeOf(e).files && |VolumeOf(e).files[0].bytes| == 504
  {
    hide Run, RunV, Careful, VolumeOf, Linked, Sized, ChainsOf, Apply, Log, LeakedSet;
    var two: seq<Op> := [CreateOp([65, 0]), AppendOp(0, bytes)];
    ZeroedIsSound(n);
    OneBlockFile(n - 1 - INODE_SECTORS, bytes);
    RunRefines(Zeroed(n), two);
    SoundIffCareful(Zeroed(n), two);
    RunThen(Zeroed(n), two, AppendOp(0, [7]));
    assert two + [AppendOp(0, [7])] == [CreateOp([65, 0]), AppendOp(0, bytes), AppendOp(0, [7])];
    OneByteLeaks(Run(Zeroed(n), two).0);
  }

  lemma TwoCreates(free: nat, a: Name, b: Name)
    requires free >= 2
    ensures var (v, ops) := (V.Volume(map[], free), [CreateOp(a), CreateOp(b)]);
      Careful(v, ops) && RunV(v, ops).0.files.Keys == {0, 1} && RunV(v, ops).1 == [0, 0]
  {
    hide V.KeptName;
    var v, ops := V.Volume(map[], free), [CreateOp(a), CreateOp(b)];
    var v1 := V.Create(v, a).0;
    assert V.FirstUnused(v.files, 0) == 0 && V.FirstUnused(v1.files, 0) == 1;
    var v2 := V.Create(v1, b).0;
    assert ops[1..] == [CreateOp(b)] && ops[1..][1..] == [];
    assert RunV(v2, []) == (v2, []) && Careful(v2, []);
    assert Careful(v1, ops[1..]) && RunV(v1, ops[1..]) == (v2, [0] + []);
  }

  /** Two files created on a zeroed disk get the same handle, which is the first one's. */
  lemma AliasExample(n: nat, a: Name, b: Name)
    requires INODE_SECTORS + 2 < n < ADDRESSABLE
    ensures var r := Run(Zeroed(n), [CreateOp(a), CreateOp(b)]);
      r.1 == [0, 0] && WellFormed(r.0) && VolumeOf(r.0).files.Keys == {0, 1} && V.FileOf(0) == 0
  {
    hide WellFormed, VolumeOf, Run, RunV, Careful;
    ZeroedIsSound(n);
    TwoCreates(n - 1 - INODE_SECTORS, a, b);
    RunRefines(Zeroed(n), [CreateOp(a), CreateOp(b)]);
  }
}
