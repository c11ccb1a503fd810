/** Round-robin fairness of the scheduler over whole runs. */
module KernelFairness {
  import opened Bytes
  import opened KernelSpec
  import opened KernelInvariant
  import opened KernelRuns

  /** How far p is ahead of s, going round the table. */
  function Ahead(s: nat, p: nat): (r: nat)
    requires s < MAX_PROCESSES && p < MAX_PROCESSES
    ensures r < MAX_PROCESSES
  {
    if s <= p then p - s else p + MAX_PROCESSES - s
  }

  /** The slot the next search begins at. */
  function Head(k: Kernel): (s: nat)
    ensures s < MAX_PROCESSES
  {
    (k.current + 1) % MAX_PROCESSES
  }

  /** Going round from s past q, whatever was ahead of q by now is nearer by the way to q and one. */
  lemma AheadPast(s: nat, q: nat, p: nat)
    requires s < MAX_PROCESSES && q < MAX_PROCESSES && p < MAX_PROCESSES
    ensures Ahead(s, q) < Ahead(s, p) ==> Ahead((q + 1) % MAX_PROCESSES, p) == Ahead(s, p) - Ahead(s, q) - 1
    ensures Ahead((q + 1) % MAX_PROCESSES, p) + Ahead(s, q) + 1 < MAX_PROCESSES ==>
              Ahead(s, p) == Ahead((q + 1) % MAX_PROCESSES, p) + Ahead(s, q) + 1
  {
  }

  lemma AheadAround(s: nat, r: nat)
    requires s < MAX_PROCESSES && r < MAX_PROCESSES
    ensures Ahead(s, Around(s, r)) == r
    ensures forall p: nat :: p < MAX_PROCESSES ==> Around(s, Ahead(s, p)) == p
  {
  }

  /** A search that finds something other than the ready process p finds it before it gets to p. */
  lemma SearchStopsBefore(b: Kernel, s: nat, p: nat)
    requires b.Shaped() && s < MAX_PROCESSES && p < MAX_PROCESSES && b.table[p].state == Ready
    ensures var q := NextPid(b.table, s, Ready); q != p ==> Ahead(s, q) < Ahead(s, p)
  {
    hide Ahead, Around;
    var r := Distance(b.table, s, 0, Ready);
    AheadAround(s, Ahead(s, p));
    if r < MAX_PROCESSES {
      AheadAround(s, r);
    }
  }

  /** One call of the scheduler that passes a ready process over brings its turn nearer. */
  lemma PassedOver(k: Kernel, e: Event, p: nat)
    requires Inv(k) && Enabled(k, e) && Schedules(e)
    requires p < MAX_PROCESSES && p != k.current && k.table[p].state == Ready
    ensures var q := Step(k, e).0.current;
      q < MAX_PROCESSES && (q != p ==> Ahead(Head(k), q) < Ahead(Head(k), p))
  {
    hide Matched, Ahead, NextPid, Distance, Around, FreeWaiter, InUse;
    SearchStopsBefore(k, Head(k), p);
    if e.Trap? && e.frame.eax == SYS_GETC {
      SearchStopsBefore(Block(k), Head(k), p);
    } else if e.Trap? && e.frame.eax == SYS_EXIT {
      SearchStopsBefore(Exit(k), Head(k), p);
    }
  }

  /** The picks of a run come in going-round order from s, all of them before p. */
  ghost predicate InOrder(s: nat, picks: seq<word>, p: nat)
    requires s < MAX_PROCESSES && p < MAX_PROCESSES
  {
    && (forall i | 0 <= i < |picks| :: picks[i] < MAX_PROCESSES && i <= Ahead(s, picks[i]) < Ahead(s, p))
    && (forall i, j | 0 <= i < j < |picks| :: Ahead(s, picks[i]) < Ahead(s, picks[j]))
  }

  lemma InOrderNil(s: nat, p: nat)
    requires s < MAX_PROCESSES && p < MAX_PROCESSES
    ensures InOrder(s, [], p)
  {
  }

  lemma InOrderCons(s: nat, q: word, rest: seq<word>, p: nat)
    requires s < MAX_PROCESSES && q < MAX_PROCESSES && p < MAX_PROCESSES && Ahead(s, q) < Ahead(s, p)
    requires InOrder((q + 1) % MAX_PROCESSES, rest, p)
    ensures InOrder(s, [q] + rest, p)
  {
    hide Ahead;
    AheadPast(s, q, p);
    forall i | 0 <= i < |rest|
      ensures Ahead(s, rest[i]) == Ahead((q + 1) % MAX_PROCESSES, rest[i]) + Ahead(s, q) + 1
    {
      AheadPast(s, q, rest[i]);
    }
  }

  lemma HeadAfter(n: Kernel)
    ensures Head(n) == (n.current + 1) % MAX_PROCESSES
  {
  }

  lemma SameHead(k: Kernel, n: Kernel)
    requires n.current == k.current
    ensures Head(n) == Head(k)
  {
  }

  lemma {:induction false} PicksInOrder(k: Kernel, events: seq<Event>, p: nat)
    requires Inv(k) && Runs(k, events) && p < MAX_PROCESSES && p != k.current && k.table[p].state == Ready
    requires p !in Picks(k, events)
    ensures InOrder(Head(k), Picks(k, events), p)
    decreases |events|
  {
    hide Matched, Step, Enabled, Schedules, CharFrom, Ahead, InOrder, Head;
    InOrderNil(Head(k), p);
    if events != [] {
      var e := events[0];
      var n := Step(k, e).0;
      StepInv(k, e);
      StepWaited(k, e, p);
      PicksFirst(k, events);
      PicksInOrder(n, events[1..], p);
      if Schedules(e) {
        PassedOver(k, e, p);
        HeadAfter(n);
        InOrderCons(Head(k), n.current, Picks(n, events[1..]), p);
      } else {
        assert [] + Picks(n, events[1..]) == Picks(n, events[1..]);
        SameHead(k, n);
      }
    }
  }

  /**
   Fairness. As long as a ready process that is not running is not picked, no process is picked twice,
   and the scheduler has been called at most 127 times, whatever the others do meanwhile.
   */
  lemma ReadyIsPicked(k: Kernel, events: seq<Event>, p: nat)
    requires Inv(k) && Runs(k, events) && p < MAX_PROCESSES && p != k.current && k.table[p].state == Ready
    requires p !in Picks(k, events)
    ensures var picks := Picks(k, events);
      |picks| <= Ahead(Head(k), p) < MAX_PROCESSES && forall i, j | 0 <= i < j < |picks| :: picks[i] != picks[j]
  {
    hide Matched, Step, Enabled, Schedules, Ahead, Runs, Picks, Head;
    PicksInOrder(k, events, p);
    var picks := Picks(k, events);
    assert forall i | 0 <= i < |picks| :: picks[i] < MAX_PROCESSES;
    if picks != [] {
      assert |picks| - 1 <= Ahead(Head(k), picks[|picks| - 1]);
    }
  }

  /** So 128 calls of the scheduler pick every process that was ready and waiting at their start. */
  lemma EveryReadyProcessRuns(k: Kernel, events: seq<Event>, p: nat)
    requires Inv(k) && Runs(k, events) && p < MAX_PROCESSES && p != k.current && k.table[p].state == Ready
    requires |Picks(k, events)| >= MAX_PROCESSES
    ensures p in Picks(k, events)
  {
    hide Matched, Picks, Runs, Ahead, Head;
    if p !in Picks(k, events) {
      ReadyIsPicked(k, events, p);
    }
  }

  lemma NotLast(q: nat, p: nat)
    requires q < MAX_PROCESSES && p < MAX_PROCESSES && q != p
    ensures Ahead((q + 1) % MAX_PROCESSES, p) < MAX_PROCESSES - 1
  {
  }

  /** A process that is preempted, or yields, is picked again within the next 127 calls. */
  lemma PreemptedRunsAgain(k: Kernel, first: Event, events: seq<Event>)
    requires Inv(k) && k.current < MAX_PROCESSES && Enabled(k, first)
    requires first.Tick? || (first.Trap? && first.frame.eax == SYS_YIELD)
    requires Runs(Step(k, first).0, events) && |Picks(Step(k, first).0, events)| >= MAX_PROCESSES - 1
    ensures Step(k, first).0.current == k.current || k.current in Picks(Step(k, first).0, events)
  {
    hide Matched, Picks, Runs, NextPid;
    var k1 := Step(k, first).0;
    StepInv(k, first);
    if k1.current != k.current && k.current !in Picks(k1, events) {
      ReadyIsPicked(k1, events, k.current);
      NotLast(k1.current, k.current);
    }
  }

  /**
   A character and fairness together: whoever waits for a character has it in eax right after it is
   delivered, all else as it was, and is picked within the next 128 calls of the scheduler.
   */
  lemma WaiterRuns(k: Kernel, e: Event, events: seq<Event>, p: nat)
    requires Inv(k) && Enabled(k, e) && CharFrom(k, e) != 0 && p < MAX_PROCESSES && k.table[p].state == Blocked
    requires Runs(Step(k, e).0, events) && |Picks(Step(k, e).0, events)| >= MAX_PROCESSES
    ensures var (c, eax) := (CharFrom(k, e), Step(k, e).0.regs[p].eax);
      eax % 0x100 == c && eax - c == (if c < 0x80 then 0 else 0xFFFF_FF00)
    ensures Step(k, e).0.regs[p] == k.regs[p].(eax := Step(k, e).0.regs[p].eax)
    ensures p in Picks(Step(k, e).0, events)
  {
    hide Matched, Step, Enabled, CharFrom, Picks, Runs, Schedules;
    StepInv(k, e);
    StepWaited(k, e, p);
    EveryReadyProcessRuns(Step(k, e).0, events, p);
  }
}
