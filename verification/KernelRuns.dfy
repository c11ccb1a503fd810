/** Whole runs of the kernel: isolation of saved contexts, delivery of characters, fairness. */
module KernelRuns {
  import opened Bytes
  import opened Options
  import opened Registers
  import opened KernelSpec
  import opened KernelInvariant
  import Keyboard

  // ---- one step, seen by a process that is not running

  /** What is left of a waiting process's slot once character c (NUL: none) has been delivered. */
  ghost predicate Waited(k: Kernel, k': Kernel, p: nat, c: byte)
    requires k.Shaped() && k'.Shaped() && p < MAX_PROCESSES
  {
    && k'.table[p] == (if c != 0 then Woken(k.table[p]) else k.table[p])
    && k'.regs[p] == (if c != 0 then WokenRegs(k.table[p], k.regs[p], c) else k.regs[p])
  }

  /** Scheduling touches no slot but the running process's. */
  lemma ScheduleWaited(k: Kernel, b: Kernel, frame: Regs, p: nat)
    requires k.Shaped() && b.Shaped() && p < MAX_PROCESSES && p != k.current && b.current == k.current
    requires b.table[p] == k.table[p] && b.regs[p] == k.regs[p] && b.Has(Ready)
    ensures var (k', f) := Schedule(b, frame);
      Waited(k, k', p, 0) && (k'.current == p ==> k.table[p].state == Ready && f == Loaded(frame, k.regs[p]))
  {
    NearestIs(b, (b.current + 1) % MAX_PROCESSES, Ready);
  }

  lemma WaitedSelf(k: Kernel, p: nat)
    requires k.Shaped() && p < MAX_PROCESSES
    ensures Waited(k, k, p, 0)
  {
  }

  lemma DeliverWaited(k: Kernel, p: nat, c: byte)
    requires Inv(k) && p < MAX_PROCESSES
    ensures Waited(k, Deliver(k, c), p, c) && Deliver(k, c).current == k.current
  {
    DeliverIs(k, c);
  }

  lemma WaitedKeys(k: Kernel, keys: Keyboard.Keys, k': Kernel, p: nat, c: byte)
    requires k.Shaped() && k'.Shaped() && p < MAX_PROCESSES && Waited(k.(keys := keys), k', p, c)
    ensures Waited(k, k', p, c)
  {
  }

  lemma SpawnWaited(k: Kernel, entry: word, p: nat)
    requires k.Shaped() && k.Has(Unused) && p < MAX_PROCESSES && k.table[p].state != Unused
    ensures Waited(k, Spawn(k, entry), p, 0) && Spawn(k, entry).current == k.current
  {
    NearestIs(k, 0, Unused);
  }

  /**
   Whatever happens in one interrupt, a process that is not running keeps its slot and its saved
   registers, but for the character it may have been waiting for; and if the interrupt picks it, it was
   ready and the frame restored is its own.
   */
  lemma StepWaited(k: Kernel, e: Event, p: nat)
    requires Inv(k) && Enabled(k, e) && p < MAX_PROCESSES && p != k.current && k.table[p].state != Unused
    ensures var (k', f) := Step(k, e);
      && Waited(k, k', p, CharFrom(k, e))
      && (k'.current == p ==>
           Schedules(e) && k.table[p].state == Ready && f == Some(Loaded(e.frame, k.regs[p])) && CharFrom(k, e) == 0)
      && (!Schedules(e) ==> k'.current == k.current)
  {
    hide Matched, Schedule, Deliver, NextPid, Waited, InUse, Keyboard.Press, FreeWaiter, Initial;
    WaitedSelf(k, p);
    match e
    case Tick(frame) =>
      ScheduleWaited(k, k, frame, p);
    case Trap(frame) =>
      if frame.eax == SYS_YIELD {
        ScheduleWaited(k, k, frame, p);
      } else if frame.eax == SYS_GETC {
        ScheduleWaited(k, Block(k), frame, p);
      } else if frame.eax == SYS_EXIT {
        ScheduleWaited(k, Exit(k), frame, p);
      }
    case Key(code) =>
      var (keys, c) := Keyboard.Press(k.keys, code);
      KeysAside(k, keys);
      DeliverWaited(k.(keys := keys), p, c);
      WaitedKeys(k, keys, Deliver(k.(keys := keys), c), p, c);
    case Serial(c) =>
      DeliverWaited(k, p, SerialChar(c));
    case Start(entry) =>
      NearestIs(k, 0, Unused);
      SpawnWaited(k, entry, p);
  }

  // ---- one call of the scheduler

  /** The slot d steps on: after the last one comes slot 0. */
  function Onward(at: nat, d: nat): (p: nat)
    ensures p < MAX_PROCESSES
  {
    if d == 0 then at % MAX_PROCESSES
    else if Onward(at, d - 1) == MAX_PROCESSES - 1 then 0
    else Onward(at, d - 1) + 1
  }

  /** Slot q is d steps on from slot at, going round, ready, and no slot passed on the way is ready. */
  ghost predicate StepsAway(table: seq<Task>, at: nat, d: nat, q: nat)
    requires |table| == MAX_PROCESSES
  {
    && 1 <= d <= MAX_PROCESSES && q == Onward(at, d) && table[q].state == Ready
    && forall j | 1 <= j < d :: table[Onward(at, j)].state != Ready
  }

  ghost predicate InTurn(table: seq<Task>, at: nat, q: nat)
    requires |table| == MAX_PROCESSES
  {
    exists d: nat :: StepsAway(table, at, d, q)
  }

  /** The frame's context goes to the running process's slot; the frame comes from the picked one's. */
  ghost predicate SavedAndLoaded(b: Kernel, frame: Regs, k': Kernel, f: Regs)
    requires b.Shaped() && k'.Shaped()
  {
    && k'.current < MAX_PROCESSES && k'.table == b.table
    && (forall p | 0 <= p < MAX_PROCESSES ::
         ContextOf(k'.regs[p]) == ContextOf(if p == b.current then frame else b.regs[p]))
    && ContextOf(f) == ContextOf(k'.regs[k'.current])
  }

  // ---- whole runs, seen by a process that is not running

  lemma PicksFirst(k: Kernel, events: seq<Event>)
    requires k.Shaped() && Runs(k, events) && events != []
    ensures var n := Step(k, events[0]).0;
      && Picks(k, events) == (if Schedules(events[0]) then [n.current] else []) + Picks(n, events[1..])
      && (Schedules(events[0]) ==> n.current in Picks(k, events))
      && (forall p | p in Picks(n, events[1..]) :: p in Picks(k, events))
  {
  }

  /** The same over any run in which the process is not picked: only the first character counts. */
  lemma {:induction false} RunWaited(k: Kernel, events: seq<Event>, p: nat)
    requires Inv(k) && Runs(k, events) && p < MAX_PROCESSES && p != k.current && k.table[p].state != Unused
    requires p !in Picks(k, events)
    ensures var k' := After(k, events);
      Waited(k, k', p, FirstChar(k, events)) && k'.current != p && k'.table[p].state != Unused
    decreases |events|
  {
    hide Matched, Step, Enabled, Schedules, CharFrom;
    if events != [] {
      var e := events[0];
      var n := Step(k, e).0;
      StepInv(k, e);
      StepWaited(k, e, p);
      PicksFirst(k, events);
      RunWaited(n, events[1..], p);
    }
  }

  lemma PreemptionSchedules(e: Event)
    requires e.Tick? || (e.Trap? && e.frame.eax == SYS_YIELD)
    ensures Schedules(e)
  {
  }

  lemma PreemptedStaysReady(k: Kernel, e: Event)
    requires Inv(k) && Enabled(k, e) && k.current < MAX_PROCESSES
    requires e.Tick? || (e.Trap? && e.frame.eax == SYS_YIELD)
    ensures Step(k, e).0.table[k.current].state == Ready
  {
    hide Matched, NextPid;
  }

  lemma {:induction false} OnwardFromNext(at: nat, j: nat)
    ensures Around((at + 1) % MAX_PROCESSES, j) == Onward(at, j + 1)
    decreases j
  {
    if j > 0 {
      OnwardFromNext(at, j - 1);
    } else {
      assert Onward(at, 0) == at % MAX_PROCESSES;
    }
  }

  /** The search of schedule is the one from the slot after the running process's. */
  lemma NextAround(b: Kernel, frame: Regs)
    requires b.Shaped() && b.Has(Ready)
    ensures var (k', f) := Schedule(b, frame);
      InTurn(b.table, b.current, k'.current) && SavedAndLoaded(b, frame, k', f)
  {
    hide Distance, Around, Onward;
    var start := (b.current + 1) % MAX_PROCESSES;
    var d := Distance(b.table, start, 0, Ready);
    NearestIs(b, start, Ready);
    OnwardFromNext(b.current, d);
    forall j | 1 <= j < d + 1
      ensures b.table[Onward(b.current, j)].state != Ready
    {
      OnwardFromNext(b.current, j - 1);
    }
    assert StepsAway(b.table, b.current, d + 1, Schedule(b, frame).0.current);
  }

  /**
   Every call of the scheduler saves the interrupted context in the running process's slot, and in no
   other, picks the next ready process going round, and restores what that process's slot then holds: the
   process that is picked again at once goes on with the registers it was interrupted with.
   */
  lemma SwitchSaves(k: Kernel, e: Event)
    requires k.Shaped() && Enabled(k, e) && Schedules(e)
    ensures var (k1, f) := Step(k, e);
      && InTurn(k1.table, k.current, k1.current)
      && (forall p | 0 <= p < MAX_PROCESSES ::
           ContextOf(k1.regs[p]) == ContextOf(if p == k.current then e.frame else k.regs[p]))
      && f.Some? && ContextOf(f.value) == ContextOf(k1.regs[k1.current])
  {
    hide Schedule, InTurn, NextPid, FreeWaiter;
    match e
    case Tick(frame) =>
      NextAround(k, frame);
    case Trap(frame) =>
      if frame.eax == SYS_YIELD {
        NextAround(k, frame);
      } else if frame.eax == SYS_GETC {
        NextAround(Block(k), frame);
      } else {
        NextAround(Exit(k), frame);
      }
  }

  /**
   Context isolation. A process that was preempted, or yielded, gets back the ten registers it had: at
   once, where the search comes back to it, and otherwise when it is next picked, whatever every other
   process and every device did in between.
   */
  lemma ContextIsolated(k: Kernel, first: Event, events: seq<Event>, last: Event)
    requires Inv(k) && k.current < MAX_PROCESSES
    requires first.Tick? || (first.Trap? && first.frame.eax == SYS_YIELD)
    requires Enabled(k, first)
    requires var k1 := Step(k, first).0;
      k1.current != k.current ==>
        Runs(k1, events) && k.current !in Picks(k1, events)
        && var end := After(k1, events); Enabled(end, last) && Step(end, last).0.current == k.current
    ensures var (k1, atOnce) := Step(k, first);
      var restored := if k1.current == k.current then atOnce else Step(After(k1, events), last).1;
      restored.Some? && ContextOf(restored.value) == ContextOf(first.frame)
  {
    hide Matched, Step, Enabled, Schedules, CharFrom, Picks, Runs, After, InTurn;
    var p := k.current;
    var k1 := Step(k, first).0;
    StepInv(k, first);
    assert Schedules(first) by { PreemptionSchedules(first); }
    SwitchSaves(k, first);
    if k1.current != p {
      PreemptedStaysReady(k, first);
      RunWaited(k1, events, p);
      RunInv(k1, events);
      StepWaited(After(k1, events), last, p);
    }
  }

  /** getc, call 1, takes the caller off the processor, blocked, with its registers saved as it trapped. */
  lemma GetcBlocks(k: Kernel, frame: Regs)
    requires Inv(k) && k.current < MAX_PROCESSES && frame.eax == 1 && Enabled(k, Trap(frame))
    ensures var (p, k1) := (k.current, Step(k, Trap(frame)).0);
      Inv(k1) && k1.current != p && k1.table[p].state == Blocked && k1.regs[p] == Saved(frame, k.regs[p])
  {
    hide Matched, NextPid, FreeWaiter;
    StepInv(k, Trap(frame));
    NearestIs(Block(k), (k.current + 1) % MAX_PROCESSES, Ready);
  }

  /** Until a character arrives, the caller of getc is not picked. */
  lemma {:induction false} BlockedIsNotPicked(k: Kernel, events: seq<Event>, p: nat)
    requires Inv(k) && Runs(k, events) && p < MAX_PROCESSES && k.table[p].state == Blocked
    requires FirstChar(k, events) == 0
    ensures p !in Picks(k, events)
    decreases |events|
  {
    hide Matched, Step, Enabled, Schedules, CharFrom;
    if events != [] {
      StepInv(k, events[0]);
      StepWaited(k, events[0], p);
      BlockedIsNotPicked(Step(k, events[0]).0, events[1..], p);
    }
  }

  /**
   Delivery. When the caller of getc is next picked, a character has arrived; eax holds the first one
   that did, whatever came after it, and the other nine registers are those it trapped with.
   */
  lemma GetcDelivers(k: Kernel, frame: Regs, events: seq<Event>, last: Event)
    requires Inv(k) && k.current < MAX_PROCESSES && frame.eax == SYS_GETC && Enabled(k, Trap(frame))
    requires Runs(Step(k, Trap(frame)).0, events) && k.current !in Picks(Step(k, Trap(frame)).0, events)
    requires var end := After(Step(k, Trap(frame)).0, events);
      Enabled(end, last) && Step(end, last).0.current == k.current
    ensures var k1 := Step(k, Trap(frame)).0;
      var c := FirstChar(k1, events);
      var (_, restored) := Step(After(k1, events), last);
      && c != 0 && restored.Some? && ContextOf(restored.value) == ContextOf(frame).(eax := restored.value.eax)
      && restored.value.eax % 0x100 == c
      && restored.value.eax - c == (if c < 0x80 then 0 else 0xFFFF_FF00)
  {
    hide Matched, Step, Enabled, Schedules, CharFrom, Picks, Runs, After, FirstChar;
    var p := k.current;
    var k1 := Step(k, Trap(frame)).0;
    GetcBlocks(k, frame);
    RunWaited(k1, events, p);
    RunInv(k1, events);
    StepWaited(After(k1, events), last, p);
  }

  /** A character that is not NUL leaves nothing blocked and no waiter queued. */
  lemma CharacterWakesAll(k: Kernel, e: Event)
    requires Inv(k) && Enabled(k, e) && CharFrom(k, e) != 0
    ensures var k' := Step(k, e).0;
      && (forall p | 0 <= p < MAX_PROCESSES :: k'.table[p].state != Blocked)
      && (forall i | 0 <= i < MAX_PROCESSES :: !k'.waiters[i].alloc)
  {
    hide Matched, Keyboard.Press, Deliver;
    match e {
      case Key(code) =>
        var (keys, c) := Keyboard.Press(k.keys, code);
        KeysAside(k, keys);
        DeliverIs(k.(keys := keys), c);
      case Serial(c) =>
        DeliverIs(k, SerialChar(c));
      case _ =>
    }
  }
}
