/** How processes enter and leave the table, what memory they are given, and how they are listed. */
module KernelProcesses {
  import opened Bytes
  import opened Options
  import opened Registers
  import opened KernelSpec
  import opened KernelInvariant
  import opened KernelRuns
  import opened Counting

  /** The slots that hold a process. */
  function Used(table: seq<Task>): set<nat> {
    set p: nat | p < |table| && table[p].state != Unused
  }

  // ---- exit

  /**
   exit, call 2, takes its caller out of the table and off the processor: its slot is unused, every other
   slot stays, and the next ready process is picked.
   */
  lemma ExitLeaves(k: Kernel, frame: Regs)
    requires Inv(k) && k.current < MAX_PROCESSES && frame.eax == 2 && Enabled(k, Trap(frame))
    ensures var k1 := Step(k, Trap(frame)).0;
      && k1.table[k.current] == k.table[k.current].(state := Unused)
      && (forall p | 0 <= p < MAX_PROCESSES && p != k.current :: k1.table[p] == k.table[p])
      && Used(k1.table) == Used(k.table) - {k.current} && k.current in Used(k.table)
      && InTurn(k1.table, k.current, k1.current) && k1.current != k.current
      && k1.waiters == k.waiters
  {
    hide Matched, InTurn, NextPid;
    SwitchSaves(k, Trap(frame));
    NearestIs(Exit(k), (k.current + 1) % MAX_PROCESSES, Ready);
  }

  // ---- start

  /** A process has its slot's number and the million addresses that go with it, the first 16 for its name. */
  predicate Placed(t: Task, p: nat) {
    t.pid == p && t.addressBase == t.processName == 1000000 * (p + 6) && t.allocdAddr == t.addressBase + 16
  }

  /** Every process in the table is placed. */
  ghost predicate AllPlaced(k: Kernel)
    requires k.Shaped()
  {
    forall p | 0 <= p < MAX_PROCESSES && k.table[p].state != Unused :: Placed(k.table[p], p)
  }

  /**
   A new process gets the first slot that is free. It is ready, begins at its entry point with clear
   general registers, and its stack starts at the last byte of its own range; no other slot changes.
   */
  lemma StartEnters(k: Kernel, entry: word)
    requires Inv(k) && k.Has(Unused)
    ensures var k1 := Step(k, Start(entry)).0;
      exists p: nat :: p < MAX_PROCESSES && p !in Used(k.table) && (forall q: nat | q < p :: q in Used(k.table))
        && k1.table[p].state == Ready && Placed(k1.table[p], p)
        && ContextOf(k1.regs[p])
             == Context(0, 0, 0, 0, 0, 0, entry, 0x200, 1000000 * (p + 7) - 1, 1000000 * (p + 7) - 1)
        && k1.table == k.table[p := k1.table[p]] && k1.regs == k.regs[p := k1.regs[p]]
        && k1.current == k.current && k1.waiters == k.waiters
  {
    hide Matched, Distance;
    NearestIs(k, 0, Unused);
    var p := Distance(k.table, 0, 0, Unused);
    forall q: nat | q <= p
      ensures Around(0, q) == q
    {
    }
    forall q: nat | q < p
      ensures q in Used(k.table)
    {
      assert k.table[Around(0, q)].state != Unused;
    }
    assert p !in Used(k.table);
  }

  lemma StepPlaced(k: Kernel, e: Event)
    requires Inv(k) && Enabled(k, e) && AllPlaced(k)
    ensures AllPlaced(Step(k, e).0)
  {
    hide Matched, NextPid, FreeWaiter, Keyboard.Press, InUse, Initial, Deliver, Loaded, Saved;
    match e {
      case Key(code) =>
        var (keys, c) := Keyboard.Press(k.keys, code);
        KeysAside(k, keys);
        DeliverIs(k.(keys := keys), c);
      case Serial(c) =>
        DeliverIs(k, SerialChar(c));
      case Start(entry) =>
        StartEnters(k, entry);
      case _ =>
    }
  }

  lemma {:induction false} RunPlaced(k: Kernel, events: seq<Event>)
    requires Inv(k) && Runs(k, events) && AllPlaced(k)
    ensures AllPlaced(After(k, events))
    decreases |events|
  {
    hide Matched, Step, Enabled, AllPlaced;
    if events != [] {
      StepInv(k, events[0]);
      StepPlaced(k, events[0]);
      RunPlaced(Step(k, events[0]).0, events[1..]);
    }
  }

  lemma BootPlaced(k: Kernel)
    requires Booted(k)
    ensures AllPlaced(k)
  {
  }

  /**
   After every run from boot, every process in the table has a range of its own: it begins with the
   process's name, lies in the 32-bit address space, and shares no address with another process's.
   */
  lemma RangesApart(k: Kernel, events: seq<Event>, p: nat, q: nat)
    requires Booted(k) && Runs(k, events) && p < MAX_PROCESSES && q < MAX_PROCESSES
    requires p in Used(After(k, events).table) && q in Used(After(k, events).table)
    ensures var (t, u) := (After(k, events).table[p], After(k, events).table[q]);
      && t.pid == p && t.processName == t.addressBase && t.allocdAddr == t.addressBase + 16
      && t.addressBase + 1000000 <= 0x1_0000_0000
      && (p < q ==> t.addressBase + 1000000 <= u.addressBase)
  {
    hide Runs, After, Booted;
    BootInv(k);
    BootPlaced(k);
    RunPlaced(k, events);
  }

  // ---- the calls that list

  lemma {:induction false} ShiftedCount(s: set<nat>, t: set<nat>)
    requires forall p: nat | p in s :: p + 1 in t
    requires forall p: nat | p in t :: p > 0 && p - 1 in s
    ensures |s| == |t|
    decreases |s|
  {
    if s == {} {
      assert t == {};
    } else {
      var p :| p in s;
      ShiftedCount(s - {p}, t - {p + 1});
      assert |t| == |t - {p + 1}| + 1;
    }
  }

  lemma UsedOfRest(table: seq<Task>)
    requires table != []
    ensures |Used(table)| == (if table[0].state == Unused then 0 else 1) + |Used(table[1..])|
  {
    var (rest, shifted) := (Used(table[1..]), Used(table) - {0});
    assert forall p: nat | p in shifted :: p > 0 && p - 1 in rest;
    assert forall p: nat | p in rest :: p + 1 in shifted;
    ShiftedCount(rest, shifted);
  }

  /** lsproc lists as many slots as there are processes. */
  lemma {:induction false} InUseCount(table: seq<Task>, regs: seq<Regs>)
    requires |table| == |regs|
    ensures |InUse(table, regs)| == |Used(table)|
    decreases |table|
  {
    if table == [] {
      assert Used(table) == {};
    } else {
      UsedOfRest(table);
      InUseCount(table[1..], regs[1..]);
    }
  }

  /** A process is listed behind those in the slots before its own, with its saved registers. */
  lemma {:induction false} InUseAt(table: seq<Task>, regs: seq<Regs>, p: nat)
    requires |table| == |regs| && p in Used(table)
    ensures var i := |Used(table[..p])|;
      i < |InUse(table, regs)| && InUse(table, regs)[i] == Slot(table[p], regs[p])
    decreases |table|
  {
    if p == 0 {
      assert Used(table[..0]) == {};
    } else {
      UsedOfRest(table[..p]);
      assert table[..p][1..] == table[1..][..p - 1];
      InUseAt(table[1..], regs[1..], p - 1);
    }
  }

  /**
   The calls that are answered at once: lspci with the number of devices, lsproc with the number of
   processes, each at most ecx; any other number with nothing. Nothing else changes.
   */
  lemma AnsweredAtOnce(k: Kernel, frame: Regs)
    requires k.Shaped() && k.current < MAX_PROCESSES && frame.eax > 2
    ensures Enabled(k, Trap(frame))
    ensures Step(k, Trap(frame))
         == (k, Some(frame.(eax := if frame.eax == 3 then Min(frame.ecx, k.pciCount)
                                   else if frame.eax == 4 then Min(frame.ecx, |Used(k.table)|)
                                   else frame.eax)))
  {
    InUseCount(k.table, k.regs);
  }
}
