/** What the invariant means for the two programs: exclusion, whole output, exact counting, progress. */
module LockProgress {
  import opened Bytes
  import opened Options
  import opened Registers
  import opened LockSpec
  import opened LockInvariant
  import K = KernelSpec
  import I = KernelInvariant
  import R = KernelRuns
  import F = KernelFairness

  function Holders(pcs: seq<Pc>, l: Lock): set<nat> {
    set p | 0 <= p < |pcs| && Holds(pcs[p], l)
  }

  lemma OneHolder(pcs: seq<Pc>, l: Lock, bit: bool)
    requires |pcs| == N && Exclusive(pcs, l, bit)
    ensures |Holders(pcs, l)| == if bit then 1 else 0
  {
    var hs := Holders(pcs, l);
    if bit {
      var p: nat :| p < N && Holds(pcs[p], l);
      assert hs == {p};
    } else {
      assert hs == {};
    }
  }

  /** The increments stored after the last reset, where n were before these actions: told by what was executed. */
  function Tally(s: System, actions: seq<Action>, n: nat): nat
    requires s.k.Shaped() && |s.pcs| == N && Runs(s, actions)
    decreases |actions|
  {
    if actions == [] then n
    else
      var now := if !actions[0].Run? then n
                 else match s.pcs[s.k.current]
                      case Reset => 0
                      case Store(_) => n + 1
                      case _ => n;
      Tally(Step(s, actions[0]), actions[1..], now)
  }

  /** The history field counts what was executed. */
  lemma {:induction false} IncrementsAreTallied(s: System, actions: seq<Action>)
    requires s.k.Shaped() && |s.pcs| == N && Runs(s, actions)
    ensures After(s, actions).m.increments == Tally(s, actions, s.m.increments)
    decreases |actions|
  {
    hide K.Step, K.Enabled, K.NextPid;
    if actions != [] {
      IncrementsAreTallied(Step(s, actions[0]), actions[1..]);
    }
  }

  /**
   In every interleaving from boot: a lock's bit is set exactly while one process, and only one, is
   between its acquire and its release; no blocked process holds a lock; the counter is the number of
   increments executed since its last reset; and the screen is whole texts, followed by the part that the holder
   of the print lock has written of its own.
   */
  lemma EveryInterleaving(s: System, actions: seq<Action>)
    requires Booted(s) && Runs(s, actions)
    ensures var e := After(s, actions);
      && |Holders(e.pcs, Shared)| == (if e.m.sharedBit then 1 else 0)
      && |Holders(e.pcs, Print)| == (if e.m.printBit then 1 else 0)
      && (forall p, l | 0 <= p < N && Holds(e.pcs[p], l) :: e.k.table[p].state == K.Ready)
      && e.m.counter == Tally(s, actions, 0) % 0x1_0000_0000
      && (!e.m.printBit ==> e.m.screen == Joined(e.m.printed))
      && (forall p | 0 <= p < N && Holds(e.pcs[p], Print) :: e.m.screen == Joined(e.m.printed) + Shown(e.pcs[p]))
  {
    hide Runs, After, I.Matched, K.Booted, Tally;
    LockInvariant.BootInv(s);
    LockInvariant.RunInv(s, actions);
    IncrementsAreTallied(s, actions);
    var e := After(s, actions);
    OneHolder(e.pcs, Shared, e.m.sharedBit);
    OneHolder(e.pcs, Print, e.m.printBit);
    forall p, l | 0 <= p < N && Holds(e.pcs[p], l)
      ensures e.k.table[p].state == K.Ready
    {
      assert PlacedAt(e.k.table[p], e.pcs[p]);
    }
    forall p | 0 <= p < N && Holds(e.pcs[p], Print)
      ensures e.m.screen == Joined(e.m.printed) + Shown(e.pcs[p])
    {
      assert Clean(e.pcs[p], e.m);
    }
  }

  // ---- every increment is followed by a yield

  predicate StoresNow(s: System, a: Action, p: nat)
    requires p < |s.pcs|
  {
    a.Run? && s.k.current == p && s.pcs[p].Store?
  }

  /** The increments that p stores in an interleaving. */
  function Stores(s: System, actions: seq<Action>, p: nat): nat
    requires s.k.Shaped() && |s.pcs| == N && Runs(s, actions) && p < N
    decreases |actions|
  {
    if actions == [] then 0
    else (if StoresNow(s, actions[0], p) then 1 else 0) + Stores(Step(s, actions[0]), actions[1..], p)
  }

  predicate YieldsNow(s: System, a: Action, p: nat)
    requires p < |s.pcs|
  {
    a.Call? && s.k.current == p && s.pcs[p].CountYield?
  }

  /** The calls of yield that p makes from the first program. */
  function Yields(s: System, actions: seq<Action>, p: nat): nat
    requires s.k.Shaped() && |s.pcs| == N && Runs(s, actions) && p < N
    decreases |actions|
  {
    if actions == [] then 0
    else (if YieldsNow(s, actions[0], p) then 1 else 0) + Yields(Step(s, actions[0]), actions[1..], p)
  }

  /** Is p between its increment and the yield after it? */
  function Owed(pc: Pc): nat {
    if pc.CountRelease? || pc.CountYield? then 1 else 0
  }

  lemma StepOwes(s: System, a: Action, p: nat)
    requires Inv(s) && Enabled(s, a) && p < N
    ensures Owed(Step(s, a).pcs[p]) + (if YieldsNow(s, a, p) then 1 else 0)
         == Owed(s.pcs[p]) + if StoresNow(s, a, p) then 1 else 0
  {
    hide I.Matched, Guarded, K.Step, K.Enabled, K.NextPid;
    if a.Launch? {
      SpawnTable(s.k, a.entry);
      var q := K.NextPid(s.k.table, 0, K.Unused);
      assert PlacedAt(s.k.table[q], s.pcs[q]);
    }
  }

  lemma {:induction false} YieldsFollow(s: System, actions: seq<Action>, p: nat)
    requires Inv(s) && Runs(s, actions) && p < N
    ensures Owed(After(s, actions).pcs[p]) + Yields(s, actions, p) == Owed(s.pcs[p]) + Stores(s, actions, p)
    decreases |actions|
  {
    hide Exclusive, Counted, Untorn, PlacedAt, I.Matched, Step, Enabled, Owed, StoresNow, YieldsNow;
    if actions != [] {
      StepInv(s, actions[0]);
      StepOwes(s, actions[0], p);
      YieldsFollow(Step(s, actions[0]), actions[1..], p);
    }
  }

  /**
   In every interleaving from boot, a process has yielded after each of its increments, but for the one after
   which it is still about to release the lock or to yield.
   */
  lemma IncrementsAndYields(s: System, actions: seq<Action>, p: nat)
    requires Booted(s) && Runs(s, actions) && p < N
    ensures var pc := After(s, actions).pcs[p];
      Stores(s, actions, p) == Yields(s, actions, p) + if pc.CountRelease? || pc.CountYield? then 1 else 0
  {
    hide I.Matched, K.Booted, Runs, After, Stores, Yields;
    LockInvariant.BootInv(s);
    YieldsFollow(s, actions, p);
  }

  // ---- nobody waits in a circle

  /** Is this process at an acquire that would have to be tried again? */
  predicate Stuck(pc: Pc, m: Memory) {
    exists l :: Wants(pc, l) && m.Bit(l)
  }

  /** The locks are taken in one order: lock2 before the lock of printf. */
  lemma LockOrder(pc: Pc)
    ensures Wants(pc, Shared) ==> !Holds(pc, Shared) && !Holds(pc, Print)
    ensures Wants(pc, Print) ==> !Holds(pc, Print)
  {
  }

  /** An instruction that is not a failing acquire takes the process on. */
  lemma NotStuckMoves(pc: Pc, m: Memory, choice: Option<seq<byte>>)
    requires Executes(pc)
    ensures Instruction(pc, m, choice).0 == pc <==> Stuck(pc, m)
  {
    if pc.Shell? && choice.Some? {
      assert Instruction(pc, m, choice).0 == PrintAcquire(true, choice.value);
    }
  }

  /** The holder of the lock that was taken last: of printf's lock if it is taken, else of lock2. */
  predicate Innermost(s: System, p: nat) {
    p < |s.pcs| && Holds(s.pcs[p], if s.m.printBit then Print else Shared)
  }

  /** Whenever a lock is taken, one process holds the innermost, is ready, and does not wait for a lock. */
  lemma InnermostMoves(s: System) returns (p: nat)
    requires Inv(s) && (s.m.sharedBit || s.m.printBit)
    ensures Innermost(s, p) && p < |s.k.table| && s.k.table[p].state == K.Ready && !Stuck(s.pcs[p], s.m)
    ensures forall q: nat | Innermost(s, q) :: q == p
  {
    hide I.Matched, Counted, Untorn;
    var l := if s.m.printBit then Print else Shared;
    p :| p < N && Holds(s.pcs[p], l);
    assert PlacedAt(s.k.table[p], s.pcs[p]);
    LockOrder(s.pcs[p]);
  }

  /** No deadlock: while any process is ready, one of the ready processes is not waiting for a lock. */
  lemma SomeoneMoves(s: System, p: nat)
    requires Inv(s) && p < N && s.k.table[p].state == K.Ready
    ensures exists q: nat :: q < N && s.k.table[q].state == K.Ready && !Stuck(s.pcs[q], s.m)
  {
    hide I.Matched, Exclusive, Counted, Untorn, PlacedAt;
    if Stuck(s.pcs[p], s.m) {
      var q := InnermostMoves(s);
    }
  }

  // ---- and the scheduler gets to the holder

  /** The kernel sees an interleaving as one of its own runs. */
  lemma {:induction false} KernelRun(s: System, actions: seq<Action>)
    requires s.k.Shaped() && |s.pcs| == N && Runs(s, actions)
    ensures K.Runs(s.k, Events(actions)) && K.After(s.k, Events(actions)) == After(s, actions).k
    decreases |actions|
  {
    hide K.Step, K.Enabled;
    if actions != [] {
      var a := actions[0];
      KernelRun(Step(s, a), actions[1..]);
      var rest := Events(actions[1..]);
      if a.Run? {
        assert Events(actions) == rest;
      } else {
        assert Events(actions) == [KernelPart(a)[0]] + rest;
        assert Events(actions)[1..] == rest;
      }
    }
  }

  /** The scheduler's picks in an interleaving. */
  function Picks(s: System, actions: seq<Action>): seq<word>
    requires s.k.Shaped() && |s.pcs| == N && Runs(s, actions)
  {
    KernelRun(s, actions);
    K.Picks(s.k, Events(actions))
  }

  /** Does this action end in a call of the scheduler? */
  predicate Schedules(a: Action) {
    KernelPart(a) != [] && K.Schedules(KernelPart(a)[0])
  }

  lemma PicksFirst(s: System, actions: seq<Action>)
    requires s.k.Shaped() && |s.pcs| == N && Runs(s, actions) && actions != []
    ensures var n := Step(s, actions[0]);
      forall p: word :: p in Picks(s, actions)
        <==> (Schedules(actions[0]) && p == n.k.current) || p in Picks(n, actions[1..])
  {
    hide K.Step, K.Enabled, K.Schedules;
    var a := actions[0];
    var rest := Events(actions[1..]);
    KernelRun(s, actions);
    if a.Run? {
      assert Events(actions) == rest;
    } else {
      assert Events(actions) == [KernelPart(a)[0]] + rest;
      assert Events(actions)[0] == KernelPart(a)[0] && Events(actions)[1..] == rest;
      R.PicksFirst(s.k, Events(actions));
    }
  }

  /** A new process gets a slot that was not in use. */
  lemma LaunchSlot(s: System, entry: word, p: nat)
    requires s.k.Shaped() && K.Enabled(s.k, K.Start(entry)) && p < N && s.k.table[p].state != K.Unused
    ensures K.NextPid(s.k.table, 0, K.Unused) != p
  {
    I.NearestIs(s.k, 0, K.Unused);
  }

  /** An action moves no process but the running one, and only the scheduler changes which that is. */
  lemma StaysPutOnce(s: System, a: Action, p: nat)
    requires Inv(s) && Enabled(s, a) && p < N && p != s.k.current && s.pcs[p] != Absent
    ensures Step(s, a).pcs[p] == s.pcs[p] && (Step(s, a).k.current == p ==> Schedules(a))
  {
    hide Guarded, I.Matched, K.Step, K.Enabled, Instruction;
    assert PlacedAt(s.k.table[p], s.pcs[p]);
    if !a.Run? {
      R.StepWaited(s.k, KernelPart(a)[0], p);
    }
    if a.Launch? {
      LaunchSlot(s, a.entry, p);
    }
  }

  /** Until it is picked, a process that is not running stays where it is, and so does what it holds. */
  lemma {:induction false} StaysPut(s: System, actions: seq<Action>, p: nat)
    requires Inv(s) && Runs(s, actions) && p < N && p != s.k.current && s.pcs[p] != Absent
    requires p !in Picks(s, actions)
    ensures After(s, actions).pcs[p] == s.pcs[p] && After(s, actions).k.current != p
    decreases |actions|
  {
    hide Exclusive, Counted, Untorn, PlacedAt, I.Matched, Enabled, K.Step, K.Enabled, K.Schedules, Instruction;
    if actions != [] {
      var a := actions[0];
      var n := Step(s, a);
      LockInvariant.StepInv(s, a);
      StaysPutOnce(s, a, p);
      PicksFirst(s, actions);
      StaysPut(n, actions[1..], p);
    }
  }

  /** The action at j picks p, and until then p has not moved. */
  ghost predicate PickedAt(s: System, actions: seq<Action>, j: nat, p: nat)
    requires s.k.Shaped() && |s.pcs| == N && p < N && j < |actions|
  {
    && Runs(s, actions[..j]) && Runs(s, actions[..j + 1])
    && After(s, actions[..j]).pcs[p] == s.pcs[p] && After(s, actions[..j]).k.current != p
    && After(s, actions[..j + 1]).pcs[p] == s.pcs[p] && After(s, actions[..j + 1]).k.current == p
  }

  lemma PrefixRun(s: System, actions: seq<Action>, j: nat)
    requires s.k.Shaped() && |s.pcs| == N && j < |actions| && Enabled(s, actions[0])
    ensures Runs(s, actions[..j + 1]) <==> Runs(Step(s, actions[0]), actions[1..][..j])
    ensures Runs(s, actions[..j + 1]) ==> After(s, actions[..j + 1]) == After(Step(s, actions[0]), actions[1..][..j])
  {
    hide Enabled, Step;
    assert actions[..j + 1][0] == actions[0] && actions[..j + 1][1..] == actions[1..][..j];
  }

  lemma PickedNow(s: System, actions: seq<Action>, p: nat)
    requires s.k.Shaped() && |s.pcs| == N && p < N && p != s.k.current && actions != [] && Enabled(s, actions[0])
    requires Step(s, actions[0]).pcs[p] == s.pcs[p] && Step(s, actions[0]).k.current == p
    ensures PickedAt(s, actions, 0, p)
  {
    hide Enabled, Step;
    PrefixRun(s, actions, 0);
    assert actions[1..][..0] == [] && actions[..0] == [];
  }

  lemma PickedLater(s: System, actions: seq<Action>, i: nat, p: nat)
    requires s.k.Shaped() && |s.pcs| == N && p < N && i + 1 < |actions| && Enabled(s, actions[0])
    requires Step(s, actions[0]).pcs[p] == s.pcs[p] && PickedAt(Step(s, actions[0]), actions[1..], i, p)
    ensures PickedAt(s, actions, i + 1, p)
  {
    hide Enabled, Step, Runs, After;
    PrefixRun(s, actions, i);
    PrefixRun(s, actions, i + 1);
  }

  lemma NoPicks(s: System)
    requires s.k.Shaped() && |s.pcs| == N
    ensures Runs(s, []) && Picks(s, []) == []
  {
  }

  lemma {:induction false} FirstPick(s: System, actions: seq<Action>, p: nat) returns (j: nat)
    requires Inv(s) && Runs(s, actions) && p < N && p != s.k.current && s.pcs[p] != Absent
    requires p in Picks(s, actions)
    ensures j < |actions| && PickedAt(s, actions, j, p)
    decreases |actions|
  {
    hide Exclusive, Counted, Untorn, PlacedAt, I.Matched, Enabled, Step, Picks, PickedAt;
    if actions == [] {
      NoPicks(s);
      assert false;
    }
    LockInvariant.StepInv(s, actions[0]);
    StaysPutOnce(s, actions[0], p);
    PicksFirst(s, actions);
    if Step(s, actions[0]).k.current == p {
      j := 0;
      PickedNow(s, actions, p);
    } else {
      var i := FirstPick(Step(s, actions[0]), actions[1..], p);
      j := i + 1;
      PickedLater(s, actions, i, p);
    }
  }

  /**
   The innermost holder is picked within 128 calls of the scheduler, if it is not running already; and
   when it is first picked, it is still where it was.
   */
  lemma HolderIsPicked(s: System, actions: seq<Action>, p: nat)
    requires Inv(s) && Runs(s, actions) && Innermost(s, p) && (s.m.sharedBit || s.m.printBit)
    requires |Picks(s, actions)| >= N
    ensures p == s.k.current || exists j: nat :: j < |actions| && PickedAt(s, actions, j, p)
  {
    hide Exclusive, Counted, Untorn, I.Matched, Runs, K.Runs, K.Picks, PickedAt;
    var q := InnermostMoves(s);
    KernelRun(s, actions);
    if p != s.k.current {
      F.EveryReadyProcessRuns(s.k, Events(actions), p);
      assert PlacedAt(s.k.table[p], s.pcs[p]);
      var j := FirstPick(s, actions, p);
    }
  }

  // ---- the kernel never runs off

  predicate IsRazzle(pc: Pc) {
    pc == ResetAcquire || pc == Reset || pc == ResetRelease
    || pc == CountAcquire || pc == Load || pc.Store? || pc == CountRelease || pc == CountYield
  }

  ghost predicate HasRazzle(s: System) {
    exists p :: 0 <= p < |s.pcs| && IsRazzle(s.pcs[p])
  }

  predicate LaunchesRazzle(actions: seq<Action>) {
    actions != [] && ((actions[0].Launch? && actions[0].program == Razzle) || LaunchesRazzle(actions[1..]))
  }

  lemma RazzleInstruction(pc: Pc, m: Memory, choice: Option<seq<byte>>)
    requires IsRazzle(pc)
    ensures IsRazzle(Instruction(pc, m, choice).0) && IsRazzle(AfterCall(pc))
  {
  }

  lemma FirstIsRazzle()
    ensures IsRazzle(First(Razzle))
  {
  }

  lemma LaunchElsewhere(s: System, entry: word, p: nat)
    requires Inv(s) && K.Enabled(s.k, K.Start(entry)) && p < N && IsRazzle(s.pcs[p])
    ensures K.NextPid(s.k.table, 0, K.Unused) != p
  {
    hide Guarded, I.Matched, K.NextPid;
    assert PlacedAt(s.k.table[p], s.pcs[p]);
    LaunchSlot(s, entry, p);
  }

  lemma RazzleStep(s: System, a: Action)
    requires Inv(s) && Enabled(s, a) && (HasRazzle(s) || (a.Launch? && a.program == Razzle))
    ensures HasRazzle(Step(s, a))
  {
    hide Guarded, I.Matched, K.Step, K.Enabled, K.NextPid, Instruction, AfterCall, IsRazzle, PlacedAt;
    var n := Step(s, a);
    if a.Launch? && a.program == Razzle {
      var p := K.NextPid(s.k.table, 0, K.Unused);
      FirstIsRazzle();
      assert IsRazzle(n.pcs[p]);
      return;
    }
    var p: nat :| p < N && IsRazzle(s.pcs[p]);
    match a {
      case Run(choice) => RazzleInstruction(s.pcs[p], s.m, choice);
      case Call(frame) => RazzleInstruction(s.pcs[p], s.m, None);
      case Interrupt(e) =>
      case Launch(entry, program) => LaunchElsewhere(s, entry, p);
    }
    assert IsRazzle(n.pcs[p]);
  }

  lemma {:induction false} RazzleRun(s: System, actions: seq<Action>)
    requires Inv(s) && Runs(s, actions) && (HasRazzle(s) || LaunchesRazzle(actions))
    ensures HasRazzle(After(s, actions))
    decreases |actions|
  {
    hide Exclusive, Counted, Untorn, PlacedAt, I.Matched, Enabled, Step, HasRazzle;
    if actions != [] {
      LockInvariant.StepInv(s, actions[0]);
      if HasRazzle(s) || (actions[0].Launch? && actions[0].program == Razzle) {
        RazzleStep(s, actions[0]);
      }
      RazzleRun(Step(s, actions[0]), actions[1..]);
    }
  }

  lemma RazzleIsReady(task: K.Task, pc: Pc)
    requires PlacedAt(task, pc) && IsRazzle(pc)
    ensures task.state == K.Ready
  {
  }

  /**
   In every interleaving that has started a process of the first program, the scheduler always has
   something to find: any timer interrupt, and any call the programs make, can be handled.
   */
  lemma KernelNeverRunsOff(s: System, actions: seq<Action>)
    requires Booted(s) && Runs(s, actions) && LaunchesRazzle(actions)
    ensures var e := After(s, actions);
      && (forall frame: Regs :: K.Enabled(e.k, K.Tick(frame)))
      && (forall frame: Regs | e.k.current < N && Calls(e.pcs[e.k.current], frame.eax) :: K.Enabled(e.k, K.Trap(frame)))
  {
    hide Exclusive, Counted, Untorn, PlacedAt, I.Matched, Runs, After, Booted, LaunchesRazzle, K.FreeWaiter;
    LockInvariant.BootInv(s);
    LockInvariant.RunInv(s, actions);
    RazzleRun(s, actions);
    var e := After(s, actions);
    var p: nat :| p < N && IsRazzle(e.pcs[p]);
    RazzleIsReady(e.k.table[p], e.pcs[p]);
    forall frame: Regs | e.k.current < N && Calls(e.pcs[e.k.current], frame.eax)
      ensures K.Enabled(e.k, K.Trap(frame))
    {
      if frame.eax == K.SYS_GETC {
        assert p != e.k.current;
        assert K.Block(e.k).table[p].state == K.Ready;
      }
    }
  }
}
