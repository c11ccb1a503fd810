/**
 The id-table scanner of kernel/pci/pci.c, one character at a time. The outcome Overrun stands for the
 stores past the end of a name buffer that the scanner does not guard against.
 */
module PciIds {
  import opened Bytes

  type id = x: int | 0 <= x < 0x1_0000

  const TAB: byte := 9
  const NEWLINE: byte := 10
  const SPACE: byte := 32
  const HASH: byte := 35
  const NAME_SIZE := 128
  const NO_DIGIT: word := 0xFFFF_FFFF

  /** What the scanner expects next: a digit of the id, the gap, the name, a new line, a tab. */
  datatype Mode = Num1 | Num2 | Num3 | Num4 | Gap | Name | NextLine | Tab

  /** device: the vendor's line has been found. name: what the name buffer in use holds so far. */
  datatype State = State(mode: Mode, device: bool, name: seq<byte>, vendor: seq<byte>)

  datatype Outcome = Found(vendor: seq<byte>, device: seq<byte>) | Missing | Overrun

  function HexValue(c: byte): word {
    if 48 <= c <= 57 then c - 48
    else if 65 <= c <= 70 then 10 + (c - 65)
    else if 97 <= c <= 102 then 10 + (c - 97)
    else NO_DIGIT
  }

  /** The hexadecimal digit of an id that the scanner compares with next. */
  function Digit(i: id, e: Mode): word {
    match e
    case Num1 => i / 0x1000
    case Num2 => i / 0x100 % 0x10
    case Num3 => i / 0x10 % 0x10
    case _ => i % 0x10
  }

  function Following(e: Mode): Mode {
    match e
    case Num1 => Num2
    case Num2 => Num3
    case Num3 => Num4
    case _ => Gap
  }

  /** The state after a character that is not a newline; look is the character after it. */
  function Next(st: State, c: byte, look: byte, i: id): State {
    if st.mode == NextLine then st
    else if c == TAB then st.(mode := if st.device && st.mode == Tab then Num1 else NextLine)
    else if c == HASH && st.mode == Num1 then st.(mode := NextLine)
    else
      match st.mode
      case Gap => st.(mode := if look == SPACE then Gap else Name)
      case Name => st.(name := st.name + [c])
      case Tab => st
      case _ => st.(mode := if Digit(i, st.mode) == HexValue(c) then Following(st.mode) else NextLine)
  }

  function LineStart(device: bool): Mode {
    if device then Tab else Num1
  }

  /** The scanner looks one character ahead, so the table must end with a newline. */
  predicate EndsLine(s: seq<byte>) {
    s == [] || s[|s| - 1] == NEWLINE
  }

  predicate Stores(st: State, c: byte) {
    st.mode == Name && c != TAB
  }

  /** The rest of the scan, from a state and the characters left. */
  function Run(s: seq<byte>, v: id, d: id, st: State): Outcome
    requires EndsLine(s)
    decreases |s|
  {
    if s == [] then Missing
    else if Stores(st, s[0]) && |st.name| >= NAME_SIZE then Overrun
    else if s[0] != NEWLINE then Run(s[1..], v, d, Next(st, s[0], s[1], if st.device then d else v))
    else if st.mode != Name then Run(s[1..], v, d, st.(mode := LineStart(st.device)))
    else if st.device then Found(st.vendor, st.name)
    else Run(s[1..], v, d, State(Tab, true, [], st.name))
  }

  function Scan(s: seq<byte>, v: id, d: id): Outcome
    requires EndsLine(s)
  {
    Run(s, v, d, State(Num1, false, [], []))
  }

  /** A name buffer holds this string. */
  ghost predicate Holds(buf: array<byte>, s: seq<byte>)
    reads buf
  {
    |s| < buf.Length && buf[..|s|] == s && buf[|s|] == 0
  }

  ghost function Current(vendorName: array<byte>, deviceName: array<byte>, device: bool, j: nat): seq<byte>
    requires j <= vendorName.Length && j <= deviceName.Length
    reads vendorName, deviceName
  {
    if device then deviceName[..j] else vendorName[..j]
  }

  /** One character of the scan. */
  lemma RunChar(text: seq<byte>, i: nat, v: id, d: id, st: State)
    requires EndsLine(text) && i < |text| && Run(text[i..], v, d, st) != Overrun
    ensures Stores(st, text[i]) ==> |st.name| < NAME_SIZE
    ensures EndsLine(text[i + 1..])
    ensures text[i] != NEWLINE ==>
      i + 1 < |text| && Run(text[i..], v, d, st)
                     == Run(text[i + 1..], v, d, Next(st, text[i], text[i + 1], if st.device then d else v))
    ensures text[i] == NEWLINE && st.mode != Name ==>
      Run(text[i..], v, d, st) == Run(text[i + 1..], v, d, st.(mode := LineStart(st.device)))
    ensures text[i] == NEWLINE && st.mode == Name ==>
      Run(text[i..], v, d, st) == if st.device then Found(st.vendor, st.name)
                                  else Run(text[i + 1..], v, d, State(Tab, true, [], st.name))
  {
    hide Next;
    var s := text[i..];
    assert s[0] == text[i] && s[1..] == text[i + 1..];
    if i + 1 < |text| {
      assert s[1] == text[i + 1];
    }
  }

  lemma RunEnd(v: id, d: id, st: State)
    ensures Run([], v, d, st) == Missing
  {
  }

  /** pci_get_vendor_dev_name. */
  method GetVendorDevName(table: array<byte>, v: id, d: id, vendorName: array<byte>, deviceName: array<byte>)
    requires EndsLine(table[..]) && Scan(table[..], v, d) != Overrun
    requires vendorName.Length == deviceName.Length == NAME_SIZE
    requires vendorName != deviceName && table != vendorName && table != deviceName
    modifies vendorName, deviceName
    ensures match Scan(table[..], v, d)
            case Found(vn, dn) => Holds(vendorName, vn) && Holds(deviceName, dn)
            case _ => Holds(vendorName, []) && Holds(deviceName, [])
  {
    hide Run, HexValue, Digit;
    var mode, device := Num1, false;
    var j := 0;
    ghost var text := table[..];
    ghost var vendor: seq<byte> := [];
    assert text[0..] == text;
    for i := 0 to table.Length
      invariant 0 <= j <= NAME_SIZE && table[..] == text
      invariant device ==> Holds(vendorName, vendor)
      invariant EndsLine(text[i..])
      invariant Run(text[i..], v, d, State(mode, device, Current(vendorName, deviceName, device, j), vendor))
             == Scan(text, v, d)
    {
      ghost var st := State(mode, device, Current(vendorName, deviceName, device, j), vendor);
      RunChar(text, i, v, d, st);
      if table[i] == NEWLINE {
        if mode == Name && !device {
          device, mode := true, Tab;
          vendorName[j] := 0;
          vendor := st.name;
          j := 0;
          assert Current(vendorName, deviceName, device, j) == [];
        }
        if mode == Name && device {
          deviceName[j] := 0;
          return;
        }
        mode := if device then Tab else Num1;
        continue;
      }
      if mode == NextLine {
        continue;
      }
      if table[i] == TAB {
        mode := if device && mode == Tab then Num1 else NextLine;
        continue;
      }
      if table[i] == HASH && mode == Num1 {
        mode := NextLine;
        continue;
      }
      match mode {
        case Gap =>
          mode := if table[i + 1] == SPACE then Gap else Name;
        case Name =>
          if device {
            deviceName[j] := table[i];
          } else {
            vendorName[j] := table[i];
          }
          j := j + 1;
          assert Current(vendorName, deviceName, device, j) == st.name + [text[i]];
        case Tab =>
        case NextLine =>
        case _ =>
          var value := HexValue(table[i]);
          mode := if Digit(if device then d else v, mode) == value then Following(mode) else NextLine;
      }
    }
    RunEnd(v, d, State(mode, device, Current(vendorName, deviceName, device, j), vendor));
    deviceName[0], vendorName[0] := 0, 0;
  }
}
