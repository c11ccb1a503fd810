/** Scan codes to characters, as in kernel/drivers/ps2/ps2.c. */
module Keyboard {
  import opened Bytes
  import opened Options

  /** The modifier flags the driver keeps; the control-key flags are never set or read. */
  datatype Keys = Keys(lShift: bool, rShift: bool, caps: bool)

  const L_SHIFT := 42
  const R_SHIFT := 54
  const CAPS_LOCK := 58

  predicate Shifted(k: Keys) {
    k.caps || k.rShift || k.lShift
  }

  /** A key event: codes of the form 10xxxxxx release key xxxxxx, all others press the key they name. */
  datatype Event = Event(key: byte, down: bool)

  function Decode(code: byte): Event {
    if 0x80 <= code < 0xC0 then Event(code - 0x80, false) else Event(code, true)
  }

  /** The two characters of a key that has one bare and another shifted. */
  function Paired(key: byte): Option<(char, char)> {
    match key
    case 30 => Some(('a', 'A'))
    case 48 => Some(('b', 'B'))
    case 46 => Some(('c', 'C'))
    case 32 => Some(('d', 'D'))
    case 18 => Some(('e', 'E'))
    case 33 => Some(('f', 'F'))
    case 34 => Some(('g', 'G'))
    case 35 => Some(('h', 'H'))
    case 23 => Some(('i', 'I'))
    case 36 => Some(('j', 'J'))
    case 37 => Some(('k', 'K'))
    case 38 => Some(('l', 'L'))
    case 50 => Some(('m', 'M'))
    case 49 => Some(('n', 'N'))
    case 24 => Some(('o', 'O'))
    case 25 => Some(('p', 'P'))
    case 16 => Some(('q', 'Q'))
    case 19 => Some(('r', 'R'))
    case 31 => Some(('s', 'S'))
    case 20 => Some(('t', 'T'))
    case 22 => Some(('u', 'U'))
    case 47 => Some(('v', 'V'))
    case 17 => Some(('w', 'W'))
    case 45 => Some(('x', 'X'))
    case 21 => Some(('y', 'Y'))
    case 44 => Some(('z', 'Z'))
    case 51 => Some((',', '<'))
    case 52 => Some(('.', '>'))
    case 1 => Some(('`', '~'))
    case 2 => Some(('1', '!'))
    case 3 => Some(('2', '@'))
    case 4 => Some(('3', '#'))
    case 5 => Some(('4', '$'))
    case 6 => Some(('5', '%'))
    case 7 => Some(('6', '^'))
    case 8 => Some(('7', '&'))
    case 9 => Some(('8', '*'))
    case 10 => Some(('9', '('))
    case 11 => Some(('0', ')'))
    case 12 => Some(('-', '_'))
    case 13 => Some(('=', '+'))
    case 26 => Some(('[', '{'))
    case 27 => Some((']', '}'))
    case 39 => Some((';', ':'))
    case 40 => Some(('\'', '"'))
    case 43 => Some(('\\', '|'))
    case 53 => Some(('/', '?'))
    case _ => None
  }

  const SPACE := 57
  const ENTER := 28
  const BACKSPACE := 14
  const TAB := 15

  function Ascii(c: char): byte {
    if c as int < 0x80 then c as int else 0
  }

  /** keycode_to_char: NUL for every key that stands for no character. */
  function CharOf(k: Keys, key: byte): byte {
    if Paired(key).Some? then Ascii(if Shifted(k) then Paired(key).value.1 else Paired(key).value.0)
    else if key == SPACE then 32
    else if key == ENTER then 10
    else if key == BACKSPACE then 8
    else if key == TAB then 9
    else 0
  }

  /** The character of a key in one of the four rows of a US keyboard, whose keys have consecutive codes. */
  function InRow(key: byte, first: byte, bare: string, shifted: string): Option<(char, char)>
    requires |bare| == |shifted|
  {
    if first <= key < first + |bare| then Some((bare[key - first], shifted[key - first])) else None
  }

  /** The switch is the layout of a US keyboard: every key of its rows, bare and shifted, and no other key. */
  lemma PairedIsLayout(key: byte)
    ensures Paired(key) == if key < 14 then InRow(key, 1, "`1234567890-=", "~!@#$%^&*()_+")
                           else if key < 28 then InRow(key, 16, "qwertyuiop[]", "QWERTYUIOP{}")
                           else if key < 43 then InRow(key, 30, "asdfghjkl;'", "ASDFGHJKL:\"")
                           else InRow(key, 43, "\\zxcvbnm,./", "|ZXCVBNM<>?")
  {
  }

  /**
   Space, newline, backspace and tab whatever the shift; of the other keys the upper character while a shift
   is held or caps lock is on, for digits and signs too, and NUL where the layout has none.
   */
  lemma CharOfKey(k: Keys, key: byte)
    ensures CharOf(k, 57) == 32 && CharOf(k, 28) == 10 && CharOf(k, 14) == 8 && CharOf(k, 15) == 9
    ensures key !in {57, 28, 14, 15} ==>
      CharOf(k, key) == match Paired(key)
                        case None => 0
                        case Some((bare, upper)) => (if k.lShift || k.rShift || k.caps then upper else bare) as int
  {
  }

  /** Below 64 every code presses its key, and the code 128 above releases it; no other code releases one. */
  lemma PressAndRelease(code: byte)
    ensures code < 64 ==> Decode(code) == Event(code, true) && Decode(code + 128) == Event(code, false)
    ensures !Decode(code).down ==> 128 <= code < 192
  {
  }

  /** The flags after a scan code, and the character to deliver (NUL for none). */
  function Press(k: Keys, code: byte): (Keys, byte) {
    var e := Decode(code);
    if e.key == L_SHIFT then (k.(lShift := e.down), 0)
    else if e.key == R_SHIFT then (k.(rShift := e.down), 0)
    else if e.key == CAPS_LOCK then (if e.down then k.(caps := !k.caps) else k, 0)
    else (k, if e.down then CharOf(k, e.key) else 0)
  }

  // ---- the flags are what the history of scan codes says

  function KeysAfter(k: Keys, codes: seq<byte>): Keys {
    if codes == [] then k else Press(KeysAfter(k, codes[..|codes| - 1]), codes[|codes| - 1]).0
  }

  /** The last event of this key, if it had any, was a press. */
  predicate HeldDown(codes: seq<byte>, key: byte) {
    exists i :: 0 <= i < |codes| && Decode(codes[i]) == Event(key, true)
      && forall j | i < j < |codes| :: Decode(codes[j]).key != key
  }

  function Presses(codes: seq<byte>, key: byte): nat {
    if codes == [] then 0
    else Presses(codes[..|codes| - 1], key) + if Decode(codes[|codes| - 1]) == Event(key, true) then 1 else 0
  }

  lemma HeldDownStep(codes: seq<byte>, code: byte, key: byte)
    ensures HeldDown(codes + [code], key)
       <==> (if Decode(code).key == key then Decode(code).down else HeldDown(codes, key))
  {
    var all := codes + [code];
    if Decode(code).key == key {
      assert Decode(all[|codes|]) == Decode(code);
      if HeldDown(all, key) {
        var i :| 0 <= i < |all| && Decode(all[i]) == Event(key, true)
          && forall j | i < j < |all| :: Decode(all[j]).key != key;
        assert i == |codes|;
      }
    } else {
      if HeldDown(codes, key) {
        var i :| 0 <= i < |codes| && Decode(codes[i]) == Event(key, true)
          && forall j | i < j < |codes| :: Decode(codes[j]).key != key;
        assert Decode(all[i]) == Event(key, true);
        assert forall j | i < j < |all| :: Decode(all[j]).key != key;
      }
      if HeldDown(all, key) {
        var i :| 0 <= i < |all| && Decode(all[i]) == Event(key, true)
          && forall j | i < j < |all| :: Decode(all[j]).key != key;
        assert i < |codes| && Decode(codes[i]) == Event(key, true);
        assert forall j | i < j < |codes| :: Decode(codes[j]).key == Decode(all[j]).key;
      }
    }
  }

  lemma NothingHeld()
    ensures !HeldDown([], L_SHIFT) && !HeldDown([], R_SHIFT)
  {
  }

  /**
   From a boot with all flags clear: a shift flag says whether that key's last event was a press, and
   caps is the parity of the presses of caps lock, over every sequence of scan codes.
   */
  lemma {:induction false} KeysAreHistory(codes: seq<byte>)
    ensures var k := KeysAfter(Keys(false, false, false), codes);
      k == Keys(HeldDown(codes, L_SHIFT), HeldDown(codes, R_SHIFT), Presses(codes, CAPS_LOCK) % 2 == 1)
  {
    hide CharOf, HeldDown;
    if codes == [] {
      NothingHeld();
    } else {
      var (init, code) := (codes[..|codes| - 1], codes[|codes| - 1]);
      assert codes == init + [code];
      KeysAreHistory(init);
      HeldDownStep(init, code, L_SHIFT);
      HeldDownStep(init, code, R_SHIFT);
    }
  }
}
