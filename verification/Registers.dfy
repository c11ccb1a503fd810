/** The trap frame and its transfer to and from a process, as in arch/i386/scheduler/scheduler.c. */
module Registers {
  import opened Bytes

  /** struct regs: what the interrupt stub pushes. */
  datatype Regs = Regs(
    gs: word, fs: word, es: word, ds: word,
    edi: word, esi: word, ebp: word, esp: word, ebx: word, edx: word, ecx: word, eax: word,
    intNo: word, errCode: word,
    eip: word, cs: word, eflags: word, useresp: word, ss: word)

  /** The ten registers that belong to the interrupted program. */
  datatype Context = Context(
    edi: word, esi: word, ebx: word, edx: word, ecx: word, eax: word,
    eip: word, eflags: word, useresp: word, ebp: word)

  function ContextOf(r: Regs): Context {
    Context(r.edi, r.esi, r.ebx, r.edx, r.ecx, r.eax, r.eip, r.eflags, r.useresp, r.ebp)
  }

  const EFLAG_INTERRUPT: word := 0x0200
  const USER_DATA: word := 35
  const USER_CODE: word := 27

  class Frame {
    var regs: Regs

    constructor (regs: Regs)
      ensures this.regs == regs
    {
      this.regs := regs;
    }
  }

  /** Saving copies the context and leaves the other saved fields alone. */
  function Saved(machine: Regs, old_: Regs): (r: Regs)
    ensures ContextOf(r) == ContextOf(machine)
    ensures r.gs == old_.gs && r.fs == old_.fs && r.es == old_.es && r.ds == old_.ds
    ensures r.cs == old_.cs && r.ss == old_.ss
    ensures r.esp == old_.esp && r.intNo == old_.intNo && r.errCode == old_.errCode
  {
    old_.(edi := machine.edi, esi := machine.esi, ebx := machine.ebx, edx := machine.edx, ecx := machine.ecx,
          eax := machine.eax, eip := machine.eip, eflags := machine.eflags, useresp := machine.useresp,
          ebp := machine.ebp)
  }

  /** Switching loads the context and forces the user-mode selectors. */
  function Loaded(machine: Regs, saved: Regs): (r: Regs)
    ensures ContextOf(r) == ContextOf(saved)
    ensures r.esp == machine.esp && r.intNo == machine.intNo && r.errCode == machine.errCode
    ensures r.cs == USER_CODE && r.ds == r.es == r.fs == r.gs == r.ss == USER_DATA
  {
    machine.(edi := saved.edi, esi := saved.esi, ebx := saved.ebx, edx := saved.edx, ecx := saved.ecx,
             eax := saved.eax, eip := saved.eip, eflags := saved.eflags, useresp := saved.useresp, ebp := saved.ebp,
             ds := USER_DATA, es := USER_DATA, fs := USER_DATA, gs := USER_DATA, ss := USER_DATA, cs := USER_CODE)
  }

  /** The last byte of an address range, in 32 bits. */
  function StackTop(base: word, size: word): word {
    (base + size - 1) % 0x1_0000_0000
  }

  /** A process begins at its entry point with clear registers and a stack at the top of its space. */
  function Initial(old_: Regs, entry: word, base: word, size: word): (r: Regs)
    ensures var top := StackTop(base, size); ContextOf(r) == Context(0, 0, 0, 0, 0, 0, entry, EFLAG_INTERRUPT, top, top)
    ensures r.ds == r.es == r.fs == r.gs == USER_DATA && r.ss == USER_CODE
    ensures r.cs == old_.cs && r.esp == old_.esp && r.intNo == old_.intNo && r.errCode == old_.errCode
  {
    old_.(eip := entry, edi := 0, esi := 0, ebx := 0, edx := 0, ecx := 0, eax := 0, eflags := EFLAG_INTERRUPT,
          useresp := StackTop(base, size), ebp := StackTop(base, size),
          ds := USER_DATA, es := USER_DATA, fs := USER_DATA, gs := USER_DATA, ss := USER_CODE)
  }

  /** The registers member of one process-table slot, assigned field by field. */
  method InitializeRegisters(table: array<Regs>, p: nat, entry: word, base: word, size: word)
    requires p < table.Length
    modifies table
    ensures table[..] == old(table[..])[p := Initial(old(table[p]), entry, base, size)]
  {
    table[p] := table[p].(eip := entry);
    table[p] := table[p].(edi := 0);
    table[p] := table[p].(esi := 0);
    table[p] := table[p].(ebx := 0);
    table[p] := table[p].(edx := 0);
    table[p] := table[p].(ecx := 0);
    table[p] := table[p].(eax := 0);
    table[p] := table[p].(eflags := EFLAG_INTERRUPT);
    table[p] := table[p].(useresp := (base + size - 1) % 0x1_0000_0000);
    table[p] := table[p].(ebp := table[p].useresp);
    table[p] := table[p].(ds := USER_DATA);
    table[p] := table[p].(es := USER_DATA);
    table[p] := table[p].(fs := USER_DATA);
    table[p] := table[p].(gs := USER_DATA);
    table[p] := table[p].(ss := USER_CODE);
  }

  method StoreRegisters(machine: Frame, table: array<Regs>, p: nat)
    requires p < table.Length
    modifies table
    ensures table[..] == old(table[..])[p := Saved(machine.regs, old(table[p]))]
  {
    table[p] := table[p].(edi := machine.regs.edi);
    table[p] := table[p].(esi := machine.regs.esi);
    table[p] := table[p].(ebx := machine.regs.ebx);
    table[p] := table[p].(edx := machine.regs.edx);
    table[p] := table[p].(ecx := machine.regs.ecx);
    table[p] := table[p].(eax := machine.regs.eax);
    table[p] := table[p].(eip := machine.regs.eip);
    table[p] := table[p].(eflags := machine.regs.eflags);
    table[p] := table[p].(useresp := machine.regs.useresp);
    table[p] := table[p].(ebp := machine.regs.ebp);
  }

  method SwitchContext(machine: Frame, table: array<Regs>, p: nat)
    requires p < table.Length
    modifies machine
    ensures machine.regs == Loaded(old(machine.regs), table[p])
  {
    machine.regs := machine.regs.(edi := table[p].edi);
    machine.regs := machine.regs.(esi := table[p].esi);
    machine.regs := machine.regs.(ebx := table[p].ebx);
    machine.regs := machine.regs.(edx := table[p].edx);
    machine.regs := machine.regs.(ecx := table[p].ecx);
    machine.regs := machine.regs.(eax := table[p].eax);
    machine.regs := machine.regs.(eip := table[p].eip);
    machine.regs := machine.regs.(eflags := table[p].eflags);
    machine.regs := machine.regs.(esp := machine.regs.esp);
    machine.regs := machine.regs.(useresp := table[p].useresp);
    machine.regs := machine.regs.(ebp := table[p].ebp);
    machine.regs := machine.regs.(ds := USER_DATA);
    machine.regs := machine.regs.(es := USER_DATA);
    machine.regs := machine.regs.(fs := USER_DATA);
    machine.regs := machine.regs.(gs := USER_DATA);
    machine.regs := machine.regs.(ss := USER_DATA);
    machine.regs := machine.regs.(cs := USER_CODE);
  }
}
