/**
 The handlers themselves, over the global tables they change in place. Each is proved to take the
 kernel's state where the corresponding function of KernelSpec takes it.
 */
module KernelCode {
  import opened Bytes
  import opened Registers
  import opened KernelSpec
  import opened Counting
  import opened KernelInvariant
  import KernelProcesses
  import Keyboard
  import Memory

  const NAME_BYTES := 16

  /** struct pci_device. */
  datatype PciDevice = PciDevice(deviceId: word, vendorId: word, deviceName: seq<byte>, vendorName: seq<byte>,
                                 bar: seq<word>, classCode: byte, subclassCode: byte)

  /** One slot of the table, seen by the filter. */
  lemma InUseStep(t: seq<Task>, rs: seq<Regs>, j: nat, done: seq<Slot>)
    requires j < |t| == |rs|
    ensures done + InUse(t[j..], rs[j..])
         == (if t[j].state == Unused then done else done + [Slot(t[j], rs[j])]) + InUse(t[j + 1..], rs[j + 1..])
    ensures t[j].state != Unused ==> |InUse(t[j..], rs[j..])| > 0
  {
    assert t[j..][0] == t[j] && t[j..][1..] == t[j + 1..];
    assert rs[j..][0] == rs[j] && rs[j..][1..] == rs[j + 1..];
    var rest := InUse(t[j + 1..], rs[j + 1..]);
    if t[j].state == Unused {
      assert InUse(t[j..], rs[j..]) == rest;
    } else {
      assert done + ([Slot(t[j], rs[j])] + rest) == done + [Slot(t[j], rs[j])] + rest;
    }
  }

  lemma InUseEnd()
    ensures InUse([], []) == []
  {
  }

  /** The list is as long as it can be, or everything is listed. */
  lemma ListedEnough(done: seq<Slot>, rest: seq<Slot>, len: nat)
    requires |done| <= len && (|done| < len ==> rest == [])
    ensures |done| == Min(len, |done + rest|) && (done + rest)[..|done|] == done
  {
  }

  /** What is stored in front is in front, and what is behind stays. */
  lemma Listed(was: seq<Slot>, now: seq<Slot>, i: nat)
    requires i <= |was| == |now| && forall x | i <= x < |was| :: now[x] == was[x]
    ensures now == now[..i] + was[i..]
  {
  }

  lemma AroundNext(start: nat, n: nat)
    ensures Around(start, 0) == start % MAX_PROCESSES
    ensures (Around(start, n) + 1) % MAX_PROCESSES == Around(start, n + 1)
  {
  }

  lemma DeliverNothing(k: Kernel)
    requires k.Shaped()
    ensures Deliver(k, 0) == k
  {
  }

  class KernelState {
    const table: array<Task>
    const registers: array<Regs>
    const waiters: array<Waiter>
    const pciDevices: array<PciDevice>
    var currentPid: word
    var keys: Keyboard.Keys
    var pciCount: word

    ghost predicate Valid()
      reads this, table, registers, waiters
    {
      && table.Length == registers.Length == waiters.Length == MAX_PROCESSES && pciCount <= pciDevices.Length
      && forall i | 0 <= i < MAX_PROCESSES && waiters[i].alloc :: waiters[i].pid < MAX_PROCESSES
    }

    ghost function State(): (k: Kernel)
      requires Valid()
      reads this, table, registers, waiters
      ensures k.Shaped()
    {
      Kernel(table[..], registers[..], waiters[..], currentPid, keys, pciCount)
    }

    /** The globals as they are before kernel_main runs; its arrays start out zeroed. */
    constructor (table: array<Task>, registers: array<Regs>, waiters: array<Waiter>, pciDevices: array<PciDevice>)
      requires table.Length == registers.Length == waiters.Length == MAX_PROCESSES
      requires forall i | 0 <= i < MAX_PROCESSES :: !waiters[i].alloc
      ensures Valid() && this.table == table && this.registers == registers && this.waiters == waiters
      ensures this.pciDevices == pciDevices && keys == Keyboard.Keys(false, false, false)
    {
      this.table, this.registers, this.waiters, this.pciDevices := table, registers, waiters, pciDevices;
      currentPid, pciCount := 0, 0;
      keys := Keyboard.Keys(false, false, false);
    }

    method InitProcessTable()
      requires Valid()
      modifies table, `currentPid
      ensures Valid() && currentPid == NO_PID
      ensures forall p | 0 <= p < MAX_PROCESSES :: table[p] == old(table[p]).(state := Unused)
    {
      var i := 0;
      while i < MAX_PROCESSES
        invariant 0 <= i <= MAX_PROCESSES
        invariant forall p | 0 <= p < i :: table[p] == old(table[p]).(state := Unused)
        invariant forall p | i <= p < MAX_PROCESSES :: table[p] == old(table[p])
      {
        table[i] := table[i].(state := Unused);
        i := i + 1;
      }
      currentPid := NO_PID;
    }

    method InitPs2()
      requires Valid()
      modifies waiters
      ensures Valid() && forall i | 0 <= i < MAX_PROCESSES :: !waiters[i].alloc
    {
      var i := 0;
      while i < MAX_PROCESSES
        invariant 0 <= i <= MAX_PROCESSES
        invariant forall j | 0 <= j < i :: !waiters[j].alloc
        invariant forall j | i <= j < MAX_PROCESSES :: waiters[j] == old(waiters[j])
      {
        waiters[i] := waiters[i].(alloc := false);
        i := i + 1;
      }
    }

    /** The cyclic search; it ends because some slot is in the wanted state. */
    method GetNextPid(start: word, state: TaskState) returns (p: word)
      requires Valid() && State().Has(state)
      ensures p == NextPid(table[..], start, state) && table[p].state == state
    {
      var i := start % MAX_PROCESSES;
      ghost var n := 0;
      ghost var goal := Distance(table[..], start, 0, state);
      NearestIs(State(), start, state);
      AroundNext(start, 0);
      hide Around;
      while table[i].state != state
        invariant 0 <= n <= goal && i == Around(start, n)
        decreases goal - n
      {
        AroundNext(start, n);
        i := (i + 1) % MAX_PROCESSES;
        n := n + 1;
      }
      assert n == goal;
      return i;
    }

    /** The name goes to the first bytes of the process's own address range. */
    method StartProcess(name: array<byte>, entry: word, memory: array<byte>)
      requires Valid() && State().Has(Unused)
      requires name != memory && (0 in name[..] || NAME_BYTES <= name.Length)
      requires ADDRESS_SPACE_SIZE * (MAX_PROCESSES + 6) <= memory.Length
      modifies table, registers, memory
      ensures Valid() && State() == Spawn(old(State()), entry)
      ensures var p := NextPid(old(table[..]), 0, Unused);
        memory[..] == Splice(old(memory[..]), table[p].processName,
                                    name[..Memory.CopyLen(name[..], NAME_BYTES)])
    {
      hide NextPid, Initial, Splice, Memory.CopyLen;
      var pid := GetNextPid(0, Unused);
      var base: word := ADDRESS_SPACE_SIZE * (pid + 6);
      table[pid] := table[pid].(addressBase := base);
      table[pid] := table[pid].(allocdAddr := base);
      table[pid] := table[pid].(state := Ready);
      table[pid] := table[pid].(processName := table[pid].allocdAddr, allocdAddr := table[pid].allocdAddr + 16);
      table[pid] := table[pid].(pid := pid);
      Memory.Strncpy(name, memory, table[pid].processName, NAME_BYTES);
      assert table[..] == old(table[..])[pid := Task(pid, Ready, base, base + 16, base)];
      InitializeRegisters(registers, pid, entry, base, ADDRESS_SPACE_SIZE);
    }

    method DoSchedule(r: Frame)
      requires Valid() && State().Has(Ready)
      modifies registers, `currentPid, r
      ensures Valid() && (State(), r.regs) == Schedule(old(State()), old(r.regs))
    {
      if currentPid < MAX_PROCESSES {
        StoreRegisters(r, registers, currentPid);
      }
      currentPid := GetNextPid((currentPid + 1) % MAX_PROCESSES, Ready);
      SwitchContext(r, registers, currentPid);
    }

    /** The getc case up to its call of the scheduler: the loop stops at the first free waiter. */
    method BlockCurrent()
      requires Valid() && currentPid < MAX_PROCESSES
      modifies table, waiters
      ensures Valid() && State() == Block(old(State()))
    {
      table[currentPid] := table[currentPid].(state := Blocked);
      var i := 0;
      while i < MAX_PROCESSES
        invariant 0 <= i <= MAX_PROCESSES
        invariant waiters[..] == old(waiters[..])
        invariant FreeWaiter(waiters[..], 0) == FreeWaiter(waiters[..], i)
        invariant table[..] == WithState(old(table[..]), currentPid, Blocked)
      {
        if !waiters[i].alloc {
          waiters[i] := waiters[i].(alloc := true);
          waiters[i] := waiters[i].(pid := currentPid);
          return;
        }
        i := i + 1;
      }
    }

    /** The running process leaves the table. */
    method ExitCurrent()
      requires Valid() && currentPid < MAX_PROCESSES
      modifies table
      ensures Valid() && State() == Exit(old(State()))
    {
      table[currentPid] := table[currentPid].(state := Unused);
    }

    /** The nested index loops of lsproc fill the caller's array with a filtered copy of the table. */
    method ListProcesses(len: word, proclist: array<Slot>) returns (count: word)
      requires Valid() && Min(len, |InUse(table[..], registers[..])|) <= proclist.Length
      modifies proclist
      ensures count == Min(len, |InUse(table[..], registers[..])|)
      ensures proclist[..] == InUse(table[..], registers[..])[..count] + old(proclist[..])[count..]
    {
      hide InUse;
      ghost var t, rs := table[..], registers[..];
      ghost var all := InUse(t, rs);
      ghost var done: seq<Slot> := [];
      var i, j := 0, 0;
      assert t[0..] == t && rs[0..] == rs && done + all == all;
      while i < len
        invariant 0 <= i <= len && 0 <= j <= MAX_PROCESSES && table[..] == t && registers[..] == rs
        invariant |done| == i && all == done + InUse(t[j..], rs[j..])
        invariant i <= proclist.Length && proclist[..i] == done
        invariant forall x | i <= x < proclist.Length :: proclist[x] == old(proclist[x])
        decreases len - i
      {
        while j < MAX_PROCESSES && table[j].state == Unused
          invariant 0 <= j <= MAX_PROCESSES
          invariant all == done + InUse(t[j..], rs[j..])
          modifies {}
        {
          InUseStep(t, rs, j, done);
          j := j + 1;
        }
        if j == MAX_PROCESSES {
          break;
        }
        InUseStep(t, rs, j, done);
        proclist[i] := Slot(table[j], registers[j]);
        assert proclist[..i + 1] == done + [Slot(t[j], rs[j])];
        done := done + [Slot(t[j], rs[j])];
        i, j := i + 1, j + 1;
      }
      ghost var rest := InUse(t[j..], rs[j..]);
      assert i < len ==> rest == [] by {
        if i < len {
          assert t[j..] == [] && rs[j..] == [];
          InUseEnd();
        }
      }
      ListedEnough(done, rest, len);
      Listed(old(proclist[..]), proclist[..], i);
      return i;
    }

    /** The copying loop of lspci. */
    method ListDevices(len: word, devlist: array<PciDevice>) returns (count: word)
      requires Valid() && devlist != pciDevices && Min(len, pciCount) <= devlist.Length
      modifies devlist
      ensures count == Min(len, pciCount)
      ensures devlist[..] == pciDevices[..count] + old(devlist[..])[count..]
    {
      count := if len < pciCount then len else pciCount;
      var i := 0;
      while i < count
        invariant 0 <= i <= count
        invariant forall k | 0 <= k < i :: devlist[k] == pciDevices[k]
        invariant forall k | i <= k < devlist.Length :: devlist[k] == old(devlist[k])
      {
        devlist[i] := pciDevices[i];
        i := i + 1;
      }
      assert devlist[..count] == pciDevices[..count] && devlist[count..] == old(devlist[..])[count..];
      assert devlist[..] == devlist[..count] + devlist[count..];
    }

    /** The dispatch of int 0x80; the caller's arrays receive what lspci and lsproc list. */
    method DoSyscall(r: Frame, devlist: array<PciDevice>, proclist: array<Slot>)
      requires Valid() && currentPid < MAX_PROCESSES && devlist != pciDevices
      requires r.regs.eax == SYS_LSPCI ==> Min(r.regs.ecx, pciCount) <= devlist.Length
      requires r.regs.eax == SYS_LSPROC ==> Min(r.regs.ecx, |InUse(table[..], registers[..])|) <= proclist.Length
      requires Enabled(State(), Trap(r.regs))
      modifies table, registers, waiters, `currentPid, r, devlist, proclist
      ensures Valid() && (State(), r.regs) == Syscall(old(State()), old(r.regs))
      ensures old(r.regs.eax) == SYS_LSPCI ==> r.regs == old(r.regs).(eax := Min(old(r.regs.ecx), pciCount))
      ensures old(r.regs.eax) == SYS_LSPROC ==>
        r.regs == old(r.regs).(eax := Min(old(r.regs.ecx), |KernelProcesses.Used(old(table[..]))|))
      ensures old(r.regs.eax) == SYS_LSPROC ==>
        proclist[..] == InUse(old(table[..]), old(registers[..]))[..r.regs.eax] + old(proclist[..])[r.regs.eax..]
      ensures old(r.regs.eax) != SYS_LSPROC ==> proclist[..] == old(proclist[..])
      ensures old(r.regs.eax) == SYS_LSPCI ==>
        devlist[..] == pciDevices[..r.regs.eax] + old(devlist[..])[r.regs.eax..]
      ensures old(r.regs.eax) != SYS_LSPCI ==> devlist[..] == old(devlist[..])
    {
      hide Block, Exit, Schedule, InUse, KernelProcesses.Used;
      KernelProcesses.InUseCount(table[..], registers[..]);
      if r.regs.eax == SYS_YIELD {
        DoSchedule(r);
      } else if r.regs.eax == SYS_GETC {
        BlockCurrent();
        DoSchedule(r);
      } else if r.regs.eax == SYS_EXIT {
        ExitCurrent();
        DoSchedule(r);
      } else if r.regs.eax == SYS_LSPCI {
        var count := ListDevices(r.regs.ecx, devlist);
        r.regs := r.regs.(eax := count);
      } else if r.regs.eax == SYS_LSPROC {
        var count := ListProcesses(r.regs.ecx, proclist);
        r.regs := r.regs.(eax := count);
      }
    }

    method HandleKeypressChar(c: byte)
      requires Valid()
      modifies table, registers, waiters
      ensures Valid() && State() == Deliver(old(State()), c)
    {
      // A char is signed: it is stored in eax with its sign.
      var value: word := if c < 0x80 then c else 0xFFFF_FF00 + c;
      assert value == Extended(c);
      hide Extended;
      if c != 0 {
        ghost var goal := Wake(State(), 0, c);
        var i := 0;
        while i < MAX_PROCESSES
          invariant 0 <= i <= MAX_PROCESSES && Valid()
          invariant Wake(State(), i, c) == goal
        {
          if waiters[i].alloc {
            ghost var was := State();
            var p := waiters[i].pid;
            registers[p] := registers[p].(eax := value);
            waiters[i] := waiters[i].(alloc := false);
            table[waiters[i].pid] := table[waiters[i].pid].(state := Ready);
            assert State() == was.(regs := was.regs[p := was.regs[p].(eax := Extended(c))],
                                   waiters := was.waiters[i := was.waiters[i].(alloc := false)],
                                   table := WithState(was.table, p, Ready));
          }
          i := i + 1;
        }
      }
    }

    method HandleKeypress(code: byte)
      requires Valid()
      modifies table, registers, waiters, `keys
      ensures Valid() && State() == KeyPress(old(State()), code)
    {
      hide Keyboard.CharOf, Deliver;
      var key, down := code, true;
      if 0x80 <= code < 0xC0 {
        key, down := code - 0x80, false;
      }
      if key == Keyboard.L_SHIFT {
        keys := keys.(lShift := down);
      } else if key == Keyboard.R_SHIFT {
        keys := keys.(rShift := down);
      } else if key == Keyboard.CAPS_LOCK {
        if down {
          keys := keys.(caps := !keys.caps);
        }
      } else if down {
        var c := Keyboard.CharOf(keys, key);
        HandleKeypressChar(c);
        return;
      }
      DeliverNothing(State());
    }
  }

  /** What kernel_main does to the globals before it starts a process. */
  method Boot(table: array<Task>, registers: array<Regs>, waiters: array<Waiter>, pciDevices: array<PciDevice>)
    returns (k: KernelState)
    requires table.Length == registers.Length == waiters.Length == MAX_PROCESSES
    requires forall i | 0 <= i < MAX_PROCESSES :: !waiters[i].alloc
    modifies table, waiters
    ensures k.Valid() && fresh(k) && k.table == table && k.registers == registers && k.waiters == waiters
    ensures Booted(k.State())
  {
    k := new KernelState(table, registers, waiters, pciDevices);
    k.InitProcessTable();
    k.InitPs2();
  }
}
