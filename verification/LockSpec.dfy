/**
 The two test programs of supp/test_processes.c, run by any number of processes on top of the kernel of
 KernelSpec: which instruction each process is at, the two spin locks, and what the locks protect.
 */
module LockSpec {
  import opened Bytes
  import opened Options
  import opened Registers
  import K = KernelSpec

  const N := K.MAX_PROCESSES

  /** lock2, which the programs share, and the lock inside printf. */
  datatype Lock = Shared | Print

  /** The next instruction of a process. A printf is nested when the shell holds lock2 around it. */
  datatype Pc =
    | Absent
    | ResetAcquire | Reset | ResetRelease
    | CountAcquire | Load | Store(loaded: word) | CountRelease | CountYield
    | Getc | ShellAcquire | Shell | ShellRelease | ShellYield
    | PrintAcquire(nested: bool, text: seq<byte>)
    | Printing(nested: bool, text: seq<byte>, done: nat)
    | PrintRelease(nested: bool, text: seq<byte>)

  predicate InPrintf(pc: Pc) {
    pc.PrintAcquire? || pc.Printing? || pc.PrintRelease?
  }

  /** Between the acquire and the release of the lock. */
  predicate Holds(pc: Pc, l: Lock) {
    match l
    case Shared =>
      pc == Reset || pc == ResetRelease || pc == Load || pc.Store? || pc == CountRelease
      || pc == Shell || pc == ShellRelease || (InPrintf(pc) && pc.nested)
    case Print => pc.Printing? || pc.PrintRelease?
  }

  predicate Wants(pc: Pc, l: Lock) {
    match l
    case Shared => pc == ResetAcquire || pc == CountAcquire || pc == ShellAcquire
    case Print => pc.PrintAcquire?
  }

  /**
   The locks, and what the programs share. Two fields record history: the texts whose printf has finished,
   and the increments of counter since it was last reset.
   */
  datatype Memory = Memory(sharedBit: bool, printBit: bool, counter: word, screen: seq<byte>,
                           printed: seq<seq<byte>>, increments: nat)
  {
    predicate Bit(l: Lock) {
      if l == Shared then sharedBit else printBit
    }

    function WithBit(l: Lock, bit: bool): Memory {
      if l == Shared then this.(sharedBit := bit) else this.(printBit := bit)
    }
  }

  datatype System = System(k: K.Kernel, pcs: seq<Pc>, m: Memory)

  /** One attempt of __sl_acquire: set the bit; where it was set already, try again. */
  function Acquire(m: Memory, l: Lock, retry: Pc, next: Pc): (Pc, Memory) {
    if m.Bit(l) then (retry, m) else (next, m.WithBit(l, true))
  }

  /** One instruction; choice is what the shell prints next, or that its command is done. */
  function Instruction(pc: Pc, m: Memory, choice: Option<seq<byte>>): (Pc, Memory) {
    match pc
    case ResetAcquire => Acquire(m, Shared, pc, Reset)
    case Reset => (ResetRelease, m.(counter := 0, increments := 0))
    case ResetRelease => (CountAcquire, m.WithBit(Shared, false))
    case CountAcquire => Acquire(m, Shared, pc, Load)
    case Load => (Store(m.counter), m)
    case Store(loaded) =>
      (CountRelease, m.(counter := (loaded + 1) % 0x1_0000_0000, increments := m.increments + 1))
    case CountRelease => (CountYield, m.WithBit(Shared, false))
    case ShellAcquire => Acquire(m, Shared, pc, Shell)
    case Shell => (match choice case None => ShellRelease case Some(text) => PrintAcquire(true, text), m)
    case ShellRelease => (ShellYield, m.WithBit(Shared, false))
    case PrintAcquire(nested, text) => Acquire(m, Print, pc, Printing(nested, text, 0))
    case Printing(nested, text, done) =>
      if done < |text| then (Printing(nested, text, done + 1), m.(screen := m.screen + [text[done]]))
      else (PrintRelease(nested, text), m)
    case PrintRelease(nested, text) =>
      (if nested then Shell else Getc, m.(printed := m.printed + [text]).WithBit(Print, false))
    case _ => (pc, m)
  }

  function Execute(s: System, p: nat, choice: Option<seq<byte>>): System
    requires p < |s.pcs|
  {
    var (pc, m) := Instruction(s.pcs[p], s.m, choice);
    s.(pcs := s.pcs[p := pc], m := m)
  }

  /** The system call a process is about to make; the shell's commands may list devices or processes. */
  predicate Calls(pc: Pc, number: word) {
    match pc
    case Getc => number == K.SYS_GETC
    case CountYield => number == K.SYS_YIELD
    case ShellYield => number == K.SYS_YIELD
    case Shell => number == K.SYS_LSPCI || number == K.SYS_LSPROC || number == K.SYS_POWERCTL
    case _ => false
  }

  /** Does this instruction run without the kernel? */
  predicate Executes(pc: Pc) {
    !(pc == Absent || pc == Getc || pc == CountYield || pc == ShellYield)
  }

  function AfterCall(pc: Pc): Pc {
    match pc
    case Getc => ShellAcquire
    case CountYield => CountAcquire
    case ShellYield => Getc
    case _ => pc
  }

  datatype Program = Razzle | Dazzle

  /** The shell's prompt, "you@razzle ~$ ". */
  const PROMPT: seq<byte> := [121, 111, 117, 64, 114, 97, 122, 122, 108, 101, 32, 126, 36, 32]

  function First(program: Program): Pc {
    if program == Razzle then ResetAcquire else PrintAcquire(false, PROMPT)
  }

  /** What happens next: the running process executes or makes a system call, a device interrupts, a process starts. */
  datatype Action =
    | Run(choice: Option<seq<byte>>)
    | Call(frame: Regs)
    | Interrupt(e: K.Event)
    | Launch(entry: word, program: Program)

  /** The kernel's part in an action. */
  function KernelPart(a: Action): seq<K.Event> {
    match a
    case Run(_) => []
    case Call(frame) => [K.Trap(frame)]
    case Interrupt(e) => [e]
    case Launch(entry, _) => [K.Start(entry)]
  }

  predicate Enabled(s: System, a: Action)
    requires s.k.Shaped() && |s.pcs| == N
  {
    match a
    case Run(_) => s.k.current < N && Executes(s.pcs[s.k.current])
    case Call(frame) => s.k.current < N && Calls(s.pcs[s.k.current], frame.eax) && K.Enabled(s.k, K.Trap(frame))
    case Interrupt(e) => (e.Tick? || e.Key? || e.Serial?) && K.Enabled(s.k, e)
    case Launch(entry, _) => K.Enabled(s.k, K.Start(entry))
  }

  function Step(s: System, a: Action): (r: System)
    requires s.k.Shaped() && |s.pcs| == N && Enabled(s, a)
    ensures r.k.Shaped() && |r.pcs| == N
  {
    match a
    case Run(choice) => Execute(s, s.k.current, choice)
    case Call(frame) =>
      var r := s.k.current;
      s.(k := K.Step(s.k, K.Trap(frame)).0, pcs := s.pcs[r := AfterCall(s.pcs[r])])
    case Interrupt(e) => s.(k := K.Step(s.k, e).0)
    case Launch(entry, program) =>
      var p := K.NextPid(s.k.table, 0, K.Unused);
      s.(k := K.Step(s.k, K.Start(entry)).0, pcs := s.pcs[p := First(program)])
  }

  predicate Booted(s: System) {
    && K.Booted(s.k) && |s.pcs| == N && (forall p | 0 <= p < N :: s.pcs[p] == Absent)
    && s.m == Memory(false, false, 0, [], [], 0)
  }

  // ---- interleavings

  predicate Runs(s: System, actions: seq<Action>)
    requires s.k.Shaped() && |s.pcs| == N
    decreases |actions|
  {
    actions == [] || (Enabled(s, actions[0]) && Runs(Step(s, actions[0]), actions[1..]))
  }

  function After(s: System, actions: seq<Action>): (r: System)
    requires s.k.Shaped() && |s.pcs| == N && Runs(s, actions)
    ensures r.k.Shaped() && |r.pcs| == N
    decreases |actions|
  {
    if actions == [] then s else After(Step(s, actions[0]), actions[1..])
  }

  function Events(actions: seq<Action>): seq<K.Event> {
    if actions == [] then [] else KernelPart(actions[0]) + Events(actions[1..])
  }
}
