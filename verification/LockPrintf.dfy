/** A printf under preemption: whoever runs in between, its text comes out whole and its lock is released. */
module LockPrintf {
  import opened Bytes
  import opened Options
  import opened LockSpec
  import opened LockInvariant
  import opened LockProgress
  import K = KernelSpec
  import I = KernelInvariant

  /** Instructions that the holder of printf's lock still has to execute; it waits for nothing meanwhile. */
  function Left(pc: Pc): nat {
    match pc
    case Printing(_, text, done) => if done <= |text| then |text| - done + 2 else 2
    case PrintRelease(_, _) => 1
    case _ => 0
  }

  function AfterPrintf(pc: Pc): Pc
    requires Holds(pc, Print)
  {
    if pc.nested then Shell else Getc
  }

  /** One instruction of the holder: it goes on printing the same text, or lets go of the lock. */
  lemma PrintingEnds(pc: Pc, m: Memory, choice: Option<seq<byte>>)
    requires Holds(pc, Print)
    ensures var (pc', m') := Instruction(pc, m, choice);
      && !Stuck(pc, m) && Left(pc') < Left(pc)
      && (if Left(pc) > 1
          then Holds(pc', Print) && pc'.text == pc.text && pc'.nested == pc.nested && m'.printed == m.printed
          else pc' == AfterPrintf(pc) && !m'.printBit && m'.printed == m.printed + [pc.text])
  {
  }

  lemma OnlyHolderPrints(pc: Pc, m: Memory, choice: Option<seq<byte>>)
    requires !Holds(pc, Print)
    ensures Instruction(pc, m, choice).1.printed == m.printed
  {
  }

  /** The instructions that p executes in an interleaving. */
  function Turns(s: System, actions: seq<Action>, p: nat): nat
    requires s.k.Shaped() && |s.pcs| == N && Runs(s, actions)
    decreases |actions|
  {
    if actions == [] then 0
    else (if actions[0].Run? && s.k.current == p then 1 else 0) + Turns(Step(s, actions[0]), actions[1..], p)
  }

  /** Every other action leaves the holder where it is, and prints nothing. */
  lemma OthersWait(s: System, a: Action, p: nat)
    requires Inv(s) && Enabled(s, a) && p < N && Holds(s.pcs[p], Print) && !(a.Run? && s.k.current == p)
    ensures Step(s, a).pcs[p] == s.pcs[p] && Step(s, a).m.printed == s.m.printed
  {
    hide Exclusive, Counted, Untorn, I.Matched, K.Step, K.Enabled, K.NextPid, Instruction;
    assert PlacedAt(s.k.table[p], s.pcs[p]);
    match a {
      case Run(choice) =>
        HeldBit(s.pcs, Print, s.m.printBit, p);
        OnlyHolderPrints(s.pcs[s.k.current], s.m, choice);
      case Call(frame) =>
      case Interrupt(e) =>
      case Launch(entry, program) =>
        LaunchSlot(s, entry, p);
    }
  }

  /** After j actions p's printf is done: its text is whole on the screen, the last one there, and the lock is free. */
  ghost predicate DoneAt(s: System, actions: seq<Action>, j: nat, p: nat)
    requires s.k.Shaped() && |s.pcs| == N && p < N && Holds(s.pcs[p], Print) && j <= |actions|
  {
    Runs(s, actions[..j])
    && (var e := After(s, actions[..j]);
        && e.pcs[p] == AfterPrintf(s.pcs[p]) && !e.m.printBit
        && e.m.printed == s.m.printed + [s.pcs[p].text] && e.m.screen == Joined(e.m.printed))
  }

  lemma FreeScreen(s: System)
    requires Inv(s) && !s.m.printBit
    ensures s.m.screen == Joined(s.m.printed)
  {
  }

  lemma DoneNow(s: System, actions: seq<Action>, p: nat)
    requires Inv(s) && actions != [] && Enabled(s, actions[0]) && actions[0].Run? && s.k.current == p < N
    requires Holds(s.pcs[p], Print) && Left(s.pcs[p]) == 1
    ensures DoneAt(s, actions, 1, p)
  {
    hide Exclusive, Counted, Untorn, I.Matched, Placed, Enabled, Instruction, Left, AfterPrintf;
    PrefixRun(s, actions, 0);
    assert actions[1..][..0] == [];
    PrintingEnds(s.pcs[p], s.m, actions[0].choice);
    LockInvariant.StepInv(s, actions[0]);
    FreeScreen(Step(s, actions[0]));
  }

  lemma DoneLater(s: System, actions: seq<Action>, i: nat, p: nat)
    requires s.k.Shaped() && |s.pcs| == N && p < N && actions != [] && Enabled(s, actions[0]) && i < |actions|
    requires Holds(s.pcs[p], Print) && Holds(Step(s, actions[0]).pcs[p], Print)
    requires var (pc, pc') := (s.pcs[p], Step(s, actions[0]).pcs[p]); pc'.text == pc.text && pc'.nested == pc.nested
    requires Step(s, actions[0]).m.printed == s.m.printed
    requires DoneAt(Step(s, actions[0]), actions[1..], i, p)
    ensures DoneAt(s, actions, i + 1, p)
  {
    hide Enabled, Step, Runs, After;
    PrefixRun(s, actions, i);
  }

  lemma HasLeft(pc: Pc)
    requires Holds(pc, Print)
    ensures Left(pc) >= 1
  {
  }

  lemma OwnTurn(s: System, a: Action, p: nat)
    requires |s.pcs| == N && s.k.Shaped() && Enabled(s, a) && a.Run? && s.k.current == p < N && Holds(s.pcs[p], Print)
    ensures var n := Step(s, a);
      Left(s.pcs[p]) > 1 ==> (
        && Holds(n.pcs[p], Print) && n.pcs[p].text == s.pcs[p].text && n.pcs[p].nested == s.pcs[p].nested
        && Left(n.pcs[p]) < Left(s.pcs[p]) && n.m.printed == s.m.printed)
  {
    hide Instruction, Left;
    PrintingEnds(s.pcs[p], s.m, a.choice);
  }

  /**
   In every interleaving, by the time the holder of printf's lock has executed as many instructions as its
   text asks for, there was a moment at which its text was whole on the screen, behind the texts printed
   before, and the lock free.
   */
  lemma {:induction false} PrintfWhole(s: System, actions: seq<Action>, p: nat) returns (j: nat)
    requires Inv(s) && Runs(s, actions) && p < N && Holds(s.pcs[p], Print)
    requires Turns(s, actions, p) >= Left(s.pcs[p])
    ensures j <= |actions| && DoneAt(s, actions, j, p)
    decreases |actions|
  {
    hide Exclusive, Counted, Untorn, I.Matched, Placed, Enabled, Step, Left, DoneAt;
    HasLeft(s.pcs[p]);
    var a, n := actions[0], Step(s, actions[0]);
    LockInvariant.StepInv(s, a);
    if a.Run? && s.k.current == p {
      OwnTurn(s, a, p);
      if Left(s.pcs[p]) == 1 {
        DoneNow(s, actions, p);
        return 1;
      }
    } else {
      OthersWait(s, a, p);
    }
    var i := PrintfWhole(n, actions[1..], p);
    DoneLater(s, actions, i, p);
    j := i + 1;
  }
}
