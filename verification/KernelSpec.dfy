/**
 The process table, the round-robin scheduler, the blocking system calls and the keyboard waiters, as
 one state and one function per interrupt. Sources: kernel/scheduler/scheduler.c,
 kernel/syscall/syscall.c, kernel/drivers/ps2/ps2.c and the dispatch in arch/i386/irq.c.
 */
module KernelSpec {
  import opened Bytes
  import opened Options
  import opened Registers
  import opened Counting
  import Keyboard

  const MAX_PROCESSES := 128
  const NO_PID: word := 129
  const ADDRESS_SPACE_SIZE: word := 1000000

  datatype TaskState = Unused | Ready | Blocked

  /** One slot of the process table; its saved registers are kept beside it, in Kernel.regs. */
  datatype Task = Task(pid: word, state: TaskState, addressBase: word, allocdAddr: word, processName: word)

  datatype Waiter = Waiter(alloc: bool, pid: word)

  datatype Kernel = Kernel(
    table: seq<Task>, regs: seq<Regs>, waiters: seq<Waiter>, current: word, keys: Keyboard.Keys, pciCount: word)
  {
    predicate Shaped() {
      && |table| == |regs| == |waiters| == MAX_PROCESSES
      && forall i | 0 <= i < MAX_PROCESSES && waiters[i].alloc :: waiters[i].pid < MAX_PROCESSES
    }

    predicate Has(state: TaskState) {
      exists p :: 0 <= p < |table| && table[p].state == state
    }
  }

  // ---- get_next_pid

  function Around(start: nat, k: nat): (p: nat)
    ensures p < MAX_PROCESSES
  {
    (start + k) % MAX_PROCESSES
  }

  /** The distance, going round, of the first slot in a state; MAX_PROCESSES when there is none. */
  function Distance(table: seq<Task>, start: nat, k: nat, state: TaskState): (r: nat)
    requires |table| == MAX_PROCESSES && k <= MAX_PROCESSES
    ensures k <= r <= MAX_PROCESSES
    ensures r < MAX_PROCESSES ==> table[Around(start, r)].state == state
    ensures forall j :: k <= j < r ==> table[Around(start, j)].state != state
    decreases MAX_PROCESSES - k
  {
    if k == MAX_PROCESSES || table[Around(start, k)].state == state then k
    else Distance(table, start, k + 1, state)
  }

  function NextPid(table: seq<Task>, start: nat, state: TaskState): (p: nat)
    requires |table| == MAX_PROCESSES
    ensures p < MAX_PROCESSES
  {
    Around(start, Distance(table, start, 0, state))
  }

  // ---- schedule

  /** Save the running process, pick the next ready one after it, load that. */
  function Schedule(k: Kernel, frame: Regs): (r: (Kernel, Regs))
    requires k.Shaped()
    ensures r.0.Shaped()
  {
    var saved := if k.current < MAX_PROCESSES then k.regs[k.current := Saved(frame, k.regs[k.current])] else k.regs;
    var next := NextPid(k.table, (k.current + 1) % MAX_PROCESSES, Ready);
    (k.(regs := saved, current := next), Loaded(frame, saved[next]))
  }

  // ---- system calls

  const SYS_YIELD := 0
  const SYS_GETC := 1
  const SYS_EXIT := 2
  const SYS_LSPCI := 3
  const SYS_LSPROC := 4
  const SYS_POWERCTL := 5

  function WithState(table: seq<Task>, p: nat, state: TaskState): seq<Task>
    requires p < |table|
  {
    table[p := table[p].(state := state)]
  }

  /** The first free waiter; the count of waiters when all are taken. */
  function FreeWaiter(waiters: seq<Waiter>, i: nat): (r: nat)
    requires i <= |waiters|
    ensures i <= r <= |waiters|
    ensures r < |waiters| ==> !waiters[r].alloc
    ensures forall j :: i <= j < r ==> waiters[j].alloc
    decreases |waiters| - i
  {
    if i == |waiters| || !waiters[i].alloc then i else FreeWaiter(waiters, i + 1)
  }

  /** The running process is blocked and, where a waiter is free, queued for a character. */
  function Block(k: Kernel): (r: Kernel)
    requires k.Shaped() && k.current < MAX_PROCESSES
    ensures r.Shaped()
  {
    var w := FreeWaiter(k.waiters, 0);
    k.(table := WithState(k.table, k.current, Blocked),
       waiters := if w < MAX_PROCESSES then k.waiters[w := Waiter(true, k.current)] else k.waiters)
  }

  function Exit(k: Kernel): (r: Kernel)
    requires k.Shaped() && k.current < MAX_PROCESSES
    ensures r.Shaped()
  {
    k.(table := WithState(k.table, k.current, Unused))
  }

  /** A copy of one slot, its saved registers included. */
  datatype Slot = Slot(task: Task, regs: Regs)

  /** The slots in use, in table order. */
  function InUse(table: seq<Task>, regs: seq<Regs>): seq<Slot>
    requires |table| == |regs|
  {
    if table == [] then []
    else (if table[0].state == Unused then [] else [Slot(table[0], regs[0])]) + InUse(table[1..], regs[1..])
  }

  function Syscall(k: Kernel, frame: Regs): (r: (Kernel, Regs))
    requires k.Shaped() && k.current < MAX_PROCESSES
    ensures r.0.Shaped()
  {
    if frame.eax == SYS_YIELD then Schedule(k, frame)
    else if frame.eax == SYS_GETC then Schedule(Block(k), frame)
    else if frame.eax == SYS_EXIT then Schedule(Exit(k), frame)
    else if frame.eax == SYS_LSPCI then (k, frame.(eax := Min(frame.ecx, k.pciCount)))
    else if frame.eax == SYS_LSPROC then (k, frame.(eax := Min(frame.ecx, |InUse(k.table, k.regs)|)))
    else (k, frame)
  }

  // ---- characters

  /** A C char, which is signed, as it lands in a 32-bit register. */
  function Extended(c: byte): word {
    if c < 0x80 then c else c + 0xFFFF_FF00
  }

  /** The loop of handle_keypress_char from waiter i on. */
  function Wake(k: Kernel, i: nat, c: byte): (r: Kernel)
    requires k.Shaped() && i <= MAX_PROCESSES
    ensures r.Shaped()
    decreases MAX_PROCESSES - i
  {
    if i == MAX_PROCESSES then k
    else if !k.waiters[i].alloc then Wake(k, i + 1, c)
    else
      var p := k.waiters[i].pid;
      Wake(k.(regs := k.regs[p := k.regs[p].(eax := Extended(c))],
              waiters := k.waiters[i := k.waiters[i].(alloc := false)],
              table := WithState(k.table, p, Ready)), i + 1, c)
  }

  function Deliver(k: Kernel, c: byte): (r: Kernel)
    requires k.Shaped()
    ensures r.Shaped()
  {
    if c == 0 then k else Wake(k, 0, c)
  }

  function KeyPress(k: Kernel, code: byte): (r: Kernel)
    requires k.Shaped()
    ensures r.Shaped()
  {
    var (keys, c) := Keyboard.Press(k.keys, code);
    Deliver(k.(keys := keys), c)
  }

  /** The serial port's carriage return and delete become newline and backspace. */
  function SerialChar(c: byte): byte {
    if c == 13 then 10 else if c == 127 then 8 else c
  }

  // ---- start_process

  function Spawn(k: Kernel, entry: word): (r: Kernel)
    requires k.Shaped()
    ensures r.Shaped()
  {
    var p := NextPid(k.table, 0, Unused);
    var base := ADDRESS_SPACE_SIZE * (p + 6);
    k.(table := k.table[p := Task(p, Ready, base, base + 16, base)],
       regs := k.regs[p := Initial(k.regs[p], entry, base, ADDRESS_SPACE_SIZE)])
  }

  /** init_process_table and init_ps2, over whatever the tables held. */
  predicate Booted(k: Kernel) {
    && k.Shaped() && k.current == NO_PID && k.keys == Keyboard.Keys(false, false, false)
    && (forall p | 0 <= p < MAX_PROCESSES :: k.table[p].state == Unused)
    && (forall i | 0 <= i < MAX_PROCESSES :: !k.waiters[i].alloc)
  }

  // ---- interrupts

  /** An interrupt, with the frame the stub pushed where the handler uses it. */
  datatype Event = Tick(frame: Regs) | Trap(frame: Regs) | Key(code: byte) | Serial(c: byte) | Start(entry: word)

  /**
   When the code handles an event without running off: a search of the process table must have
   something to find, and only a running process can make a system call.
   */
  predicate Enabled(k: Kernel, e: Event)
    requires k.Shaped()
  {
    match e
    case Tick(_) => k.Has(Ready)
    case Trap(frame) =>
      k.current < MAX_PROCESSES
      && (if frame.eax == SYS_GETC then Block(k).Has(Ready)
          else if frame.eax == SYS_EXIT then Exit(k).Has(Ready)
          else frame.eax == SYS_YIELD ==> k.Has(Ready))
    case Start(_) => k.Has(Unused)
    case _ => true
  }

  /** The kernel after an event, and the frame the stub then restores. */
  function Step(k: Kernel, e: Event): (r: (Kernel, Option<Regs>))
    requires k.Shaped() && Enabled(k, e)
    ensures r.0.Shaped()
  {
    match e
    case Tick(frame) => var (k', f) := Schedule(k, frame); (k', Some(f))
    case Trap(frame) => var (k', f) := Syscall(k, frame); (k', Some(f))
    case Key(code) => (KeyPress(k, code), None)
    case Serial(c) => (Deliver(k, SerialChar(c)), None)
    case Start(entry) => (Spawn(k, entry), None)
  }

  /** Does this event end in a call of the scheduler? */
  predicate Schedules(e: Event) {
    e.Tick? || (e.Trap? && (e.frame.eax == SYS_YIELD || e.frame.eax == SYS_GETC || e.frame.eax == SYS_EXIT))
  }

  // ---- runs

  predicate Runs(k: Kernel, events: seq<Event>)
    requires k.Shaped()
    decreases |events|
  {
    events == [] || (Enabled(k, events[0]) && Runs(Step(k, events[0]).0, events[1..]))
  }

  function After(k: Kernel, events: seq<Event>): (r: Kernel)
    requires k.Shaped() && Runs(k, events)
    ensures r.Shaped()
    decreases |events|
  {
    if events == [] then k else After(Step(k, events[0]).0, events[1..])
  }

  /** The processes the scheduler picked, in order. */
  function Picks(k: Kernel, events: seq<Event>): seq<word>
    requires k.Shaped() && Runs(k, events)
    decreases |events|
  {
    if events == [] then []
    else
      var next := Step(k, events[0]).0;
      (if Schedules(events[0]) then [next.current] else []) + Picks(next, events[1..])
  }

  /** The character an event hands to the waiters; NUL stands for none. */
  function CharFrom(k: Kernel, e: Event): byte {
    match e
    case Key(code) => Keyboard.Press(k.keys, code).1
    case Serial(c) => SerialChar(c)
    case _ => 0
  }

  /** The first character delivered during a run; NUL when none was. */
  function FirstChar(k: Kernel, events: seq<Event>): byte
    requires k.Shaped() && Runs(k, events)
    decreases |events|
  {
    if events == [] then 0
    else if CharFrom(k, events[0]) != 0 then CharFrom(k, events[0])
    else FirstChar(Step(k, events[0]).0, events[1..])
  }
}
