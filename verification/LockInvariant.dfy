/** What every interleaving of the two programs keeps. */
module LockInvariant {
  import opened Bytes
  import opened Options
  import opened Registers
  import opened LockSpec
  import K = KernelSpec
  import I = KernelInvariant
  import Keyboard

  /** The lock's bit is set exactly when a process is between acquire and release, and then only one is. */
  ghost predicate Exclusive(pcs: seq<Pc>, l: Lock, bit: bool)
    requires |pcs| == N
  {
    && (forall p, q | 0 <= p < N && 0 <= q < N && Holds(pcs[p], l) && Holds(pcs[q], l) :: p == q)
    && (bit <==> exists p :: 0 <= p < N && Holds(pcs[p], l))
  }

  /** The programs stand where the kernel has processes; a blocked one is on its way out of getc. */
  predicate PlacedAt(task: K.Task, pc: Pc) {
    (task.state == K.Unused <==> pc == Absent) && (task.state == K.Blocked ==> pc == ShellAcquire)
  }

  predicate Placed(table: seq<K.Task>, pcs: seq<Pc>) {
    |table| == |pcs| == N && forall p | 0 <= p < N :: PlacedAt(table[p], pcs[p])
  }

  predicate FreshLoad(pc: Pc, counter: word) {
    pc.Store? ==> pc.loaded == counter
  }

  /** No increment is lost: who is about to store has loaded the value that is still there. */
  predicate Counted(pcs: seq<Pc>, m: Memory) {
    m.counter == m.increments % 0x1_0000_0000 && forall p | 0 <= p < |pcs| :: FreshLoad(pcs[p], m.counter)
  }

  /** What a process has put on the screen of the text it is printing. */
  function Shown(pc: Pc): seq<byte> {
    match pc
    case Printing(_, text, done) => if done <= |text| then text[..done] else []
    case PrintRelease(_, text) => text
    case _ => []
  }

  predicate Clean(pc: Pc, m: Memory) {
    (pc.Printing? ==> pc.done <= |pc.text|) && (Holds(pc, Print) ==> m.screen == Joined(m.printed) + Shown(pc))
  }

  /** The screen is whole texts, and what the holder of the lock has put there of its own. */
  predicate Untorn(pcs: seq<Pc>, m: Memory) {
    && (forall p | 0 <= p < |pcs| :: Clean(pcs[p], m))
    && (!m.printBit ==> m.screen == Joined(m.printed))
  }

  /** Both locks, the counter and the screen. */
  ghost predicate Guarded(pcs: seq<Pc>, m: Memory) {
    && |pcs| == N
    && Exclusive(pcs, Shared, m.sharedBit) && Exclusive(pcs, Print, m.printBit) && Counted(pcs, m) && Untorn(pcs, m)
  }

  ghost predicate Inv(s: System) {
    I.Inv(s.k) && Placed(s.k.table, s.pcs) && Guarded(s.pcs, s.m)
  }

  lemma BootInv(s: System)
    requires Booted(s)
    ensures Inv(s)
  {
    hide I.Matched;
    I.BootInv(s.k);
  }

  // ---- one instruction

  /** A process takes the lock that is free, leaves the lock that it holds, or does neither. */
  lemma ExclusiveStep(pcs: seq<Pc>, l: Lock, bit: bool, p: nat, pc: Pc, bit': bool)
    requires |pcs| == N && p < N && Exclusive(pcs, l, bit)
    requires if Holds(pc, l) == Holds(pcs[p], l) then bit' == bit
             else bit == Holds(pcs[p], l) && bit' == Holds(pc, l)
    ensures Exclusive(pcs[p := pc], l, bit')
  {
    hide Holds;
    var pcs' := pcs[p := pc];
    assert forall q | 0 <= q < N :: Holds(pcs'[q], l) == if q == p then Holds(pc, l) else Holds(pcs[q], l);
    if Holds(pc, l) {
      assert Holds(pcs'[p], l);
    } else if bit' {
      var q :| 0 <= q < N && Holds(pcs[q], l);
      assert Holds(pcs'[q], l);
    }
  }

  lemma HeldBit(pcs: seq<Pc>, l: Lock, bit: bool, p: nat)
    requires |pcs| == N && p < N && Exclusive(pcs, l, bit) && Holds(pcs[p], l)
    ensures bit && forall q | 0 <= q < N && q != p :: !Holds(pcs[q], l)
  {
  }

  lemma LockStep(pcs: seq<Pc>, p: nat, m: Memory, choice: Option<seq<byte>>, l: Lock)
    requires |pcs| == N && p < N && Exclusive(pcs, l, m.Bit(l))
    ensures var (pc, m') := Instruction(pcs[p], m, choice); Exclusive(pcs[p := pc], l, m'.Bit(l))
  {
    hide Exclusive;
    var (pc, m') := Instruction(pcs[p], m, choice);
    if Holds(pcs[p], l) {
      HeldBit(pcs, l, m.Bit(l), p);
    }
    ExclusiveStep(pcs, l, m.Bit(l), p, pc, m'.Bit(l));
  }

  lemma FreshLoadIs(pc: Pc, counter: word)
    ensures FreshLoad(pc, counter) <==> (pc.Store? ==> pc.loaded == counter)
    ensures !Holds(pc, Shared) ==> FreshLoad(pc, counter)
  {
  }

  /** Only the holder of lock2 touches the counter, and adds one to what is there or clears it. */
  lemma CountedInstruction(pc: Pc, m: Memory, choice: Option<seq<byte>>)
    requires m.counter == m.increments % 0x1_0000_0000 && FreshLoad(pc, m.counter)
    ensures var (pc', m') := Instruction(pc, m, choice);
      && m'.counter == m'.increments % 0x1_0000_0000 && FreshLoad(pc', m'.counter)
      && (Holds(pc, Shared) || m'.counter == m.counter)
  {
  }

  lemma CountedStep(pcs: seq<Pc>, p: nat, m: Memory, choice: Option<seq<byte>>)
    requires |pcs| == N && p < N && Exclusive(pcs, Shared, m.sharedBit) && Counted(pcs, m)
    ensures var (pc, m') := Instruction(pcs[p], m, choice); Counted(pcs[p := pc], m')
  {
    hide Exclusive, FreshLoad, Instruction, Holds;
    var (pc, m') := Instruction(pcs[p], m, choice);
    CountedInstruction(pcs[p], m, choice);
    if Holds(pcs[p], Shared) {
      HeldBit(pcs, Shared, m.sharedBit, p);
    }
    var all := pcs[p := pc];
    forall q | 0 <= q < N
      ensures FreshLoad(all[q], m'.counter)
    {
      FreshLoadIs(pcs[q], m'.counter);
      assert FreshLoad(pcs[q], m.counter);
    }
  }

  lemma JoinedOneMore(texts: seq<seq<byte>>, text: seq<byte>)
    ensures Joined(texts + [text]) == Joined(texts) + text
  {
    assert (texts + [text])[..|texts|] == texts;
  }

  /** Only the holder of the print lock writes to the screen. */
  lemma CleanInstruction(pc: Pc, m: Memory, choice: Option<seq<byte>>)
    requires Clean(pc, m) && (!m.printBit ==> m.screen == Joined(m.printed)) && (Holds(pc, Print) ==> m.printBit)
    ensures var (pc', m') := Instruction(pc, m, choice);
      && Clean(pc', m') && (!m'.printBit ==> m'.screen == Joined(m'.printed))
      && (Holds(pc, Print) || (m'.screen == m.screen && m'.printed == m.printed))
  {
    hide Joined;
    if pc.PrintRelease? {
      JoinedOneMore(m.printed, pc.text);
    }
  }

  lemma CleanOthers(pc: Pc, m: Memory, m': Memory)
    requires Clean(pc, m) && (!Holds(pc, Print) || (m'.screen == m.screen && m'.printed == m.printed))
    ensures Clean(pc, m')
  {
  }

  lemma UntornStep(pcs: seq<Pc>, p: nat, m: Memory, choice: Option<seq<byte>>)
    requires |pcs| == N && p < N && Exclusive(pcs, Print, m.printBit) && Untorn(pcs, m)
    ensures var (pc, m') := Instruction(pcs[p], m, choice); Untorn(pcs[p := pc], m')
  {
    hide Exclusive, Clean, Instruction, Holds, Joined;
    var (pc, m') := Instruction(pcs[p], m, choice);
    if Holds(pcs[p], Print) {
      HeldBit(pcs, Print, m.printBit, p);
    }
    CleanInstruction(pcs[p], m, choice);
    var all := pcs[p := pc];
    forall q | 0 <= q < N
      ensures Clean(all[q], m')
    {
      if q != p {
        CleanOthers(pcs[q], m, m');
      }
    }
  }

  lemma PlacedRunning(task: K.Task, pc: Pc, m: Memory, choice: Option<seq<byte>>)
    requires PlacedAt(task, pc) && task.state == K.Ready && Executes(pc)
    ensures PlacedAt(task, Instruction(pc, m, choice).0)
  {
  }

  lemma ExecuteInv(s: System, choice: Option<seq<byte>>)
    requires Inv(s) && s.k.current < N && Executes(s.pcs[s.k.current])
    ensures Inv(Execute(s, s.k.current, choice))
  {
    hide I.Matched, Counted, Untorn, Exclusive, PlacedAt, Instruction, Executes;
    var r := s.k.current;
    LockStep(s.pcs, r, s.m, choice, Shared);
    LockStep(s.pcs, r, s.m, choice, Print);
    CountedStep(s.pcs, r, s.m, choice);
    UntornStep(s.pcs, r, s.m, choice);
    PlacedRunning(s.k.table[r], s.pcs[r], s.m, choice);
  }

  // ---- the kernel's part

  /** An interrupt or a system call of the programs starts and ends no process, and blocks only in getc. */
  lemma TableAfter(k: K.Kernel, e: K.Event, p: nat)
    requires I.Inv(k) && K.Enabled(k, e) && p < N
    requires !e.Start? && !(e.Trap? && e.frame.eax == K.SYS_EXIT)
    ensures var was, now := k.table[p].state, K.Step(k, e).0.table[p].state;
      && (now == K.Unused <==> was == K.Unused)
      && (now == K.Blocked ==> was == K.Blocked || (p == k.current && e.Trap? && e.frame.eax == K.SYS_GETC))
  {
    hide I.Matched, K.NextPid, K.FreeWaiter, K.InUse, K.Deliver, Keyboard.Press;
    match e
    case Tick(_) =>
    case Trap(frame) =>
    case Key(code) =>
      var (keys, c) := Keyboard.Press(k.keys, code);
      I.KeysAside(k, keys);
      I.DeliverIs(k.(keys := keys), c);
    case Serial(c) =>
      I.DeliverIs(k, K.SerialChar(c));
  }

  /** A process that makes a call, or does nothing, keeps what holds of the memory. */
  lemma GuardedCall(pcs: seq<Pc>, p: nat, m: Memory, pc: Pc)
    requires p < |pcs| && Guarded(pcs, m) && !pc.Store? && !Holds(pc, Print) && !Holds(pcs[p], Print)
    requires Holds(pc, Shared) == Holds(pcs[p], Shared)
    ensures Guarded(pcs[p := pc], m)
  {
    hide Exclusive;
    ExclusiveStep(pcs, Shared, m.sharedBit, p, pc, m.sharedBit);
    ExclusiveStep(pcs, Print, m.printBit, p, pc, m.printBit);
  }

  lemma CallInv(s: System, frame: Regs)
    requires Inv(s) && Enabled(s, Call(frame))
    ensures Inv(Step(s, Call(frame)))
  {
    hide I.Matched, Guarded, K.Step, K.Enabled;
    var r := s.k.current;
    var e := K.Trap(frame);
    I.StepInv(s.k, e);
    GuardedCall(s.pcs, r, s.m, AfterCall(s.pcs[r]));
    var n := Step(s, Call(frame));
    forall p | 0 <= p < N
      ensures PlacedAt(n.k.table[p], n.pcs[p])
    {
      TableAfter(s.k, e, p);
      assert PlacedAt(s.k.table[p], s.pcs[p]);
    }
  }

  lemma InterruptInv(s: System, e: K.Event)
    requires Inv(s) && Enabled(s, Interrupt(e))
    ensures Inv(Step(s, Interrupt(e)))
  {
    hide I.Matched, Guarded, K.Step, K.Enabled;
    I.StepInv(s.k, e);
    var n := Step(s, Interrupt(e));
    forall p | 0 <= p < N
      ensures PlacedAt(n.k.table[p], n.pcs[p])
    {
      TableAfter(s.k, e, p);
      assert PlacedAt(s.k.table[p], s.pcs[p]);
    }
  }

  /** A new process is ready, in a slot that was unused; the other slots stay. */
  lemma SpawnTable(k: K.Kernel, entry: word)
    requires k.Shaped() && K.Enabled(k, K.Start(entry))
    ensures var p, k' := K.NextPid(k.table, 0, K.Unused), K.Step(k, K.Start(entry)).0;
      && k.table[p].state == K.Unused && k'.table[p].state == K.Ready
      && forall q | 0 <= q < N && q != p :: k'.table[q] == k.table[q]
  {
    hide K.NextPid, Initial;
    I.NearestIs(k, 0, K.Unused);
  }

  lemma LaunchInv(s: System, entry: word, program: Program)
    requires Inv(s) && Enabled(s, Launch(entry, program))
    ensures Inv(Step(s, Launch(entry, program)))
  {
    hide I.Matched, Guarded, K.NextPid, K.Step;
    I.StepInv(s.k, K.Start(entry));
    SpawnTable(s.k, entry);
    var p := K.NextPid(s.k.table, 0, K.Unused);
    assert PlacedAt(s.k.table[p], s.pcs[p]);
    GuardedCall(s.pcs, p, s.m, First(program));
    var n := Step(s, Launch(entry, program));
    forall q | 0 <= q < N
      ensures PlacedAt(n.k.table[q], n.pcs[q])
    {
      assert PlacedAt(s.k.table[q], s.pcs[q]);
    }
  }

  /** Every action keeps the invariant. */
  lemma StepInv(s: System, a: Action)
    requires Inv(s) && Enabled(s, a)
    ensures Inv(Step(s, a))
  {
    hide Inv, K.Step;
    match a
    case Run(choice) => ExecuteInv(s, choice);
    case Call(frame) => CallInv(s, frame);
    case Interrupt(e) => InterruptInv(s, e);
    case Launch(entry, program) => LaunchInv(s, entry, program);
  }

  /** So does every interleaving. */
  lemma {:induction false} RunInv(s: System, actions: seq<Action>)
    requires Inv(s) && Runs(s, actions)
    ensures Inv(After(s, actions))
    decreases |actions|
  {
    hide Exclusive, Counted, Untorn, PlacedAt, I.Matched, Step, Enabled;
    if actions != [] {
      StepInv(s, actions[0]);
      RunInv(Step(s, actions[0]), actions[1..]);
    }
  }
}
