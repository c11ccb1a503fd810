/** What every interrupt keeps: the queued waiters are, one to one, the blocked processes. */
module KernelInvariant {
  import opened Bytes
  import opened Registers
  import opened KernelSpec
  import opened Counting
  import Keyboard

  ghost predicate Queued(k: Kernel, i: nat, p: nat)
    requires k.Shaped()
  {
    i < MAX_PROCESSES && k.waiters[i].alloc && k.waiters[i].pid == p
  }

  /** The process the processor runs, if any yet, is ready. */
  predicate RunningReady(k: Kernel)
    requires k.Shaped()
  {
    k.current == NO_PID || (k.current < MAX_PROCESSES && k.table[k.current].state == Ready)
  }

  /** A queued waiter stands for a blocked process, and for no other waiter's; each blocked process is queued. */
  ghost predicate Matched(k: Kernel)
    requires k.Shaped()
  {
    && (forall i: nat, p: nat | Queued(k, i, p) :: p < MAX_PROCESSES && k.table[p].state == Blocked)
    && (forall i: nat, j: nat, p: nat | Queued(k, i, p) && Queued(k, j, p) :: i == j)
    && (forall p | 0 <= p < MAX_PROCESSES && k.table[p].state == Blocked :: exists i: nat :: Queued(k, i, p))
  }

  ghost predicate Inv(k: Kernel) {
    k.Shaped() && RunningReady(k) && Matched(k)
  }

  lemma BootInv(k: Kernel)
    requires Booted(k)
    ensures Inv(k)
  {
  }

  lemma QueuedPid(k: Kernel, i: nat)
    requires Inv(k) && i < MAX_PROCESSES && k.waiters[i].alloc
    ensures k.waiters[i].pid < MAX_PROCESSES && k.waiters[i].pid != k.current
  {
    assert Queued(k, i, k.waiters[i].pid);
  }

  lemma QueuedApart(k: Kernel, i: nat, j: nat)
    requires Inv(k) && i < j < MAX_PROCESSES && k.waiters[i].alloc && k.waiters[j].alloc
    ensures k.waiters[i].pid != k.waiters[j].pid
  {
    assert Queued(k, i, k.waiters[i].pid) && Queued(k, j, k.waiters[j].pid);
  }

  /** Queued waiters are fewer than the processes: none of them runs. */
  lemma QueuedAreFew(k: Kernel, n: nat)
    requires Inv(k) && k.current < MAX_PROCESSES && n <= MAX_PROCESSES
    requires forall i | 0 <= i < n :: k.waiters[i].alloc
    ensures n < MAX_PROCESSES
  {
    hide Matched, RunningReady, Range;
    var pids: seq<nat> := seq(n, i requires 0 <= i < n => k.waiters[i].pid);
    var others := Range(0, MAX_PROCESSES) - {k.current as nat};
    forall i | 0 <= i < n
      ensures pids[i] in others
    {
      QueuedPid(k, i);
    }
    forall i, j | 0 <= i < j < n
      ensures pids[i] != pids[j]
    {
      QueuedApart(k, i, j);
    }
    DistinctBound(pids, others);
    assert k.current as nat in Range(0, MAX_PROCESSES);
  }

  /** While a process runs, some waiter is free: 128 queued waiters would need 128 blocked processes. */
  lemma WaiterIsFree(k: Kernel)
    requires Inv(k) && k.current < MAX_PROCESSES
    ensures FreeWaiter(k.waiters, 0) < MAX_PROCESSES
  {
    hide Matched;
    QueuedAreFew(k, FreeWaiter(k.waiters, 0));
  }

  // ---- steps

  lemma NearestIs(k: Kernel, start: nat, state: TaskState)
    requires k.Shaped() && k.Has(state)
    ensures k.table[NextPid(k.table, start, state)].state == state
    ensures Distance(k.table, start, 0, state) < MAX_PROCESSES
  {
    var p :| 0 <= p < MAX_PROCESSES && k.table[p].state == state;
    var j := (p - start) % MAX_PROCESSES;
    assert Around(start, j) == p;
  }

  lemma ScheduleInv(k: Kernel, frame: Regs)
    requires k.Shaped() && k.Has(Ready) && Inv(k.(current := NO_PID))
    ensures Inv(Schedule(k, frame).0)
    ensures var k' := Schedule(k, frame).0; k'.current < MAX_PROCESSES && k'.table == k.table
  {
    var k' := Schedule(k, frame).0;
    NearestIs(k, (k.current + 1) % MAX_PROCESSES, Ready);
    forall i: nat, p: nat
      ensures Queued(k', i, p) <==> Queued(k.(current := NO_PID), i, p)
    {
    }
    forall p | 0 <= p < MAX_PROCESSES && k'.table[p].state == Blocked
      ensures exists i: nat :: Queued(k', i, p)
    {
      var i: nat :| Queued(k.(current := NO_PID), i, p);
      assert Queued(k', i, p);
    }
  }

  lemma BlockInv(k: Kernel)
    requires Inv(k) && k.current < MAX_PROCESSES
    ensures Inv(Block(k).(current := NO_PID))
    ensures exists i: nat :: Queued(Block(k), i, k.current)
  {
    WaiterIsFree(k);
    var w := FreeWaiter(k.waiters, 0);
    var b := Block(k).(current := NO_PID);
    forall i: nat, p: nat
      ensures Queued(b, i, p) <==> Queued(k, i, p) || (i == w && p == k.current)
    {
    }
    assert Queued(Block(k), w, k.current);
    forall p | 0 <= p < MAX_PROCESSES && b.table[p].state == Blocked
      ensures exists i: nat :: Queued(b, i, p)
    {
      if p == k.current {
        assert Queued(b, w, p);
      } else {
        var i: nat :| Queued(k, i, p);
        assert Queued(b, i, p);
      }
    }
  }

  lemma ExitInv(k: Kernel)
    requires Inv(k) && k.current < MAX_PROCESSES
    ensures Inv(Exit(k).(current := NO_PID))
  {
    var b := Exit(k).(current := NO_PID);
    forall i: nat, p: nat
      ensures Queued(b, i, p) <==> Queued(k, i, p)
    {
    }
    forall p | 0 <= p < MAX_PROCESSES && b.table[p].state == Blocked
      ensures exists i: nat :: Queued(b, i, p)
    {
      var i: nat :| Queued(k, i, p);
      assert Queued(b, i, p);
    }
  }

  /** Forgetting who runs cannot break anything. */
  lemma StopInv(k: Kernel)
    requires Inv(k)
    ensures Inv(k.(current := NO_PID))
  {
    var b := k.(current := NO_PID);
    forall i: nat, p: nat
      ensures Queued(b, i, p) <==> Queued(k, i, p)
    {
    }
    forall p | 0 <= p < MAX_PROCESSES && b.table[p].state == Blocked
      ensures exists i: nat :: Queued(b, i, p)
    {
      var i: nat :| Queued(k, i, p);
      assert Queued(b, i, p);
    }
  }

  lemma SpawnInv(k: Kernel, entry: word)
    requires Inv(k) && k.Has(Unused)
    ensures Inv(Spawn(k, entry))
  {
    NearestIs(k, 0, Unused);
    var b := Spawn(k, entry);
    forall i: nat, p: nat
      ensures Queued(b, i, p) <==> Queued(k, i, p)
    {
    }
    forall p | 0 <= p < MAX_PROCESSES && b.table[p].state == Blocked
      ensures exists i: nat :: Queued(b, i, p)
    {
      var i: nat :| Queued(k, i, p);
      assert Queued(b, i, p);
    }
  }

  // ---- waking

  /** A task and its registers after a character arrived for whoever waits. */
  function Woken(t: Task): Task {
    if t.state == Blocked then t.(state := Ready) else t
  }

  function WokenRegs(t: Task, r: Regs, c: byte): Regs {
    if t.state == Blocked then r.(eax := Extended(c)) else r
  }

  /**
   The loop over the waiters, part way: the waiters before i are done. It touches exactly the processes
   still queued, each once.
   */
  lemma {:induction false} WakeIs(k: Kernel, i: nat, c: byte)
    requires k.Shaped() && i <= MAX_PROCESSES
    requires forall j | 0 <= j < i :: !k.waiters[j].alloc
    requires forall j: nat, p: nat | Queued(k, j, p) :: p < MAX_PROCESSES && k.table[p].state == Blocked
    requires forall j: nat, x: nat, p: nat | Queued(k, j, p) && Queued(k, x, p) :: j == x
    requires forall p | 0 <= p < MAX_PROCESSES && k.table[p].state == Blocked :: exists j: nat :: Queued(k, j, p)
    ensures var w := Wake(k, i, c);
      && w.current == k.current && w.keys == k.keys && w.pciCount == k.pciCount
      && (forall j | 0 <= j < MAX_PROCESSES :: w.waiters[j] == k.waiters[j].(alloc := false))
      && (forall p | 0 <= p < MAX_PROCESSES ::
           w.table[p] == Woken(k.table[p]) && w.regs[p] == WokenRegs(k.table[p], k.regs[p], c))
    decreases MAX_PROCESSES - i
  {
    if i == MAX_PROCESSES {
      forall p | 0 <= p < MAX_PROCESSES
        ensures k.table[p].state != Blocked
      {
      }
    } else if !k.waiters[i].alloc {
      WakeIs(k, i + 1, c);
    } else {
      var q := k.waiters[i].pid;
      assert Queued(k, i, q);
      var n := k.(regs := k.regs[q := k.regs[q].(eax := Extended(c))],
                  waiters := k.waiters[i := k.waiters[i].(alloc := false)],
                  table := WithState(k.table, q, Ready));
      forall j: nat, p: nat
        ensures Queued(n, j, p) <==> Queued(k, j, p) && j != i
        ensures Queued(n, j, p) ==> p != q
      {
      }
      forall p | 0 <= p < MAX_PROCESSES && n.table[p].state == Blocked
        ensures exists j: nat :: Queued(n, j, p)
      {
        var j: nat :| Queued(k, j, p);
        assert Queued(n, j, p);
      }
      WakeIs(n, i + 1, c);
    }
  }

  /** A character wakes every blocked process with that character, and nobody else notices. */
  lemma DeliverIs(k: Kernel, c: byte)
    requires Inv(k)
    ensures var w := Deliver(k, c);
      && w.current == k.current && w.keys == k.keys
      && (forall p | 0 <= p < MAX_PROCESSES ::
           w.table[p] == (if c == 0 then k.table[p] else Woken(k.table[p]))
           && w.regs[p] == (if c == 0 then k.regs[p] else WokenRegs(k.table[p], k.regs[p], c)))
      && (c != 0 ==> forall j | 0 <= j < MAX_PROCESSES :: !w.waiters[j].alloc)
      && Inv(w)
  {
    if c != 0 {
      WakeIs(k, 0, c);
      var w := Deliver(k, c);
      assert forall i: nat, p: nat :: !Queued(w, i, p);
    }
  }

  lemma KeysAside(k: Kernel, keys: Keyboard.Keys)
    requires Inv(k)
    ensures Inv(k.(keys := keys))
  {
    var b := k.(keys := keys);
    forall i: nat, p: nat
      ensures Queued(b, i, p) <==> Queued(k, i, p)
    {
    }
    forall p | 0 <= p < MAX_PROCESSES && b.table[p].state == Blocked
      ensures exists i: nat :: Queued(b, i, p)
    {
      var i: nat :| Queued(k, i, p);
      assert Queued(b, i, p);
    }
  }

  /** Every interrupt keeps the invariant. */
  lemma StepInv(k: Kernel, e: Event)
    requires Inv(k) && Enabled(k, e)
    ensures Inv(Step(k, e).0)
  {
    hide Matched, Schedule, Block, Exit, Spawn, Deliver, InUse;
    match e
    case Tick(frame) =>
      StopInv(k);
      ScheduleInv(k, frame);
    case Trap(frame) =>
      if frame.eax == SYS_YIELD {
        StopInv(k);
        ScheduleInv(k, frame);
      } else if frame.eax == SYS_GETC {
        BlockInv(k);
        ScheduleInv(Block(k), frame);
      } else if frame.eax == SYS_EXIT {
        ExitInv(k);
        ScheduleInv(Exit(k), frame);
      }
    case Key(code) =>
      KeysAside(k, Keyboard.Press(k.keys, code).0);
      DeliverIs(k.(keys := Keyboard.Press(k.keys, code).0), Keyboard.Press(k.keys, code).1);
    case Serial(c) =>
      DeliverIs(k, SerialChar(c));
    case Start(entry) =>
      SpawnInv(k, entry);
  }

  /** In every state a run reaches, waiters and blocked processes match, and the running one is ready. */
  lemma {:induction false} RunInv(k: Kernel, events: seq<Event>)
    requires Inv(k) && Runs(k, events)
    ensures Inv(After(k, events))
    decreases |events|
  {
    hide Matched, Step, Enabled;
    if events != [] {
      StepInv(k, events[0]);
      RunInv(Step(k, events[0]).0, events[1..]);
    }
  }
}
