/** What the keyboard driver delivers, in terms of the scan codes of the whole run. */
module KernelKeys {
  import opened Bytes
  import opened Registers
  import opened KernelSpec
  import opened KernelInvariant
  import opened Keyboard

  /** The scan codes of a run, in order. */
  function Codes(events: seq<KernelSpec.Event>): seq<byte> {
    if events == [] then []
    else (match events[0] case Key(code) => [code] case _ => []) + Codes(events[1..])
  }

  /** The flags as the history has them: shifts held down, caps lock pressed an odd number of times. */
  function History(codes: seq<byte>): Keys {
    Keys(HeldDown(codes, L_SHIFT), HeldDown(codes, R_SHIFT), Presses(codes, CAPS_LOCK) % 2 == 1)
  }

  lemma {:induction false} KeysAfterFirst(k: Keys, code: byte, codes: seq<byte>)
    ensures KeysAfter(k, [code] + codes) == KeysAfter(Press(k, code).0, codes)
    decreases |codes|
  {
    hide Press;
    var all := [code] + codes;
    if codes == [] {
      assert all[..0] == [];
    } else {
      KeysAfterFirst(k, code, codes[..|codes| - 1]);
      assert all[..|all| - 1] == [code] + codes[..|codes| - 1];
    }
  }

  /** Only scan codes change the flags. */
  lemma StepKeys(k: Kernel, e: KernelSpec.Event)
    requires Inv(k) && Enabled(k, e)
    ensures Step(k, e).0.keys == (match e case Key(code) => Press(k.keys, code).0 case _ => k.keys)
  {
    hide Matched, Press, Deliver, NextPid, InUse, FreeWaiter, Initial;
    match e {
      case Key(code) =>
        var (keys, c) := Press(k.keys, code);
        KeysAside(k, keys);
        DeliverIs(k.(keys := keys), c);
      case Serial(c) =>
        DeliverIs(k, SerialChar(c));
      case _ =>
    }
  }

  lemma {:induction false} RunKeys(k: Kernel, events: seq<KernelSpec.Event>)
    requires Inv(k) && Runs(k, events)
    ensures After(k, events).keys == KeysAfter(k.keys, Codes(events))
    decreases |events|
  {
    hide Matched, RunningReady, Step, Enabled, Press;
    if events != [] {
      StepInv(k, events[0]);
      StepKeys(k, events[0]);
      RunKeys(Step(k, events[0]).0, events[1..]);
      match events[0] {
        case Key(code) => KeysAfterFirst(k.keys, code, Codes(events[1..]));
        case _ => assert [] + Codes(events[1..]) == Codes(events[1..]);
      }
    }
  }

  lemma BootKeys(k: Kernel)
    requires Booted(k)
    ensures k.keys == Keys(false, false, false)
  {
  }

  lemma ModifiersHaveNoChar(k: Keys)
    ensures CharOf(k, L_SHIFT) == CharOf(k, R_SHIFT) == CharOf(k, CAPS_LOCK) == 0
  {
  }

  /**
   After any run from boot, a scan code delivers a character exactly when it presses a key that stands for
   one, and the character is the one that key has under the flags of the run's history.
   */
  lemma KeyDelivers(k: Kernel, events: seq<KernelSpec.Event>, code: byte)
    requires Booted(k) && Runs(k, events)
    ensures After(k, events).keys == History(Codes(events))
    ensures var key := Decode(code).key;
      CharFrom(After(k, events), Key(code)) == if Decode(code).down then CharOf(History(Codes(events)), key) else 0
  {
    hide Runs, After, Booted, CharOf, HeldDown;
    BootInv(k);
    RunKeys(k, events);
    KeysAreHistory(Codes(events));
    assert k.keys == Keys(false, false, false) by { BootKeys(k); }
    ModifiersHaveNoChar(After(k, events).keys);
  }

  /** The serial port's return and delete keys arrive as newline and backspace, every other byte as it is. */
  lemma SerialDelivers(k: Kernel, c: byte)
    ensures CharFrom(k, Serial(c)) == if c == 13 then 10 else if c == 127 then 8 else c
  {
  }

  lemma {:induction false} KeysRun(k: Kernel, events: seq<KernelSpec.Event>)
    requires k.Shaped() && forall e | e in events :: e.Key?
    ensures Runs(k, events)
    decreases |events|
  {
    hide Step;
    if events != [] {
      assert events[0] in events;
      KeysRun(Step(k, events[0]).0, events[1..]);
    }
  }

  lemma KeyCodes()
    ensures Codes([Key(42)]) == [42] && Codes([Key(42), Key(30), Key(170)]) == [42, 30, 170]
  {
    var events := [Key(42), Key(30), Key(170)];
    assert [Key(42)][1..] == [] && events[1..] == [Key(30), Key(170)] && [Key(30), Key(170)][1..] == [Key(170)];
    assert Codes([Key(170)]) == [170] + [];
    assert Codes([Key(30), Key(170)]) == [30] + [170];
    assert Codes([Key(42)]) == [42] + [];
  }

  lemma ShiftHeldAndReleased()
    ensures var none := Keys(false, false, false);
      Press(KeysAfter(none, [42]), 30).1 == 65 && Press(KeysAfter(none, [42, 30, 170]), 30).1 == 97
  {
    var none := Keys(false, false, false);
    assert [42][..0] == [] && [42, 30][..1] == [42] && [42, 30, 170][..2] == [42, 30];
    assert KeysAfter(none, [42]) == Keys(true, false, false) == KeysAfter(none, [42, 30]);
    assert KeysAfter(none, [42, 30, 170]) == none;
    CharOfKey(none, 30);
  }

  /** Left shift down, the a key, left shift up, the a key again: 'A' and then 'a'. */
  lemma ShiftedLetter(k: Kernel)
    requires Booted(k)
    ensures var pressed := [Key(42)];
      var released := [Key(42), Key(30), Key(170)];
      && Runs(k, pressed) && CharFrom(After(k, pressed), Key(30)) == 65
      && Runs(k, released) && CharFrom(After(k, released), Key(30)) == 97
  {
    hide Deliver, After, Booted, Press, Runs, Inv;
    var pressed, released := [Key(42)], [Key(42), Key(30), Key(170)];
    BootInv(k);
    BootKeys(k);
    KeysRun(k, pressed);
    KeysRun(k, released);
    RunKeys(k, pressed);
    RunKeys(k, released);
    KeyCodes();
    ShiftHeldAndReleased();
  }
}
