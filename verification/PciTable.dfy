/**
 The id table as lines, and the lookup that the scanner of PciIds performs on every table printed in the
 layout of the PCI ID list.
 */
module PciTable {
  import opened Bytes
  import opened PciIds

  /** Other: comments, subsystems, device classes, blank lines. */
  datatype Entry = Vendor(digits: seq<byte>, name: seq<byte>) | Device(digits: seq<byte>, name: seq<byte>)
                 | Other(text: seq<byte>)

  /** The first n characters are hexadecimal digits. */
  predicate Hex(s: seq<byte>, n: nat) {
    |s| >= n && forall i | 0 <= i < n :: HexValue(s[i]) < 16
  }

  function IdOf(digits: seq<byte>): id
    requires |digits| == 4 && Hex(digits, 4)
  {
    0x1000 * HexValue(digits[0]) + 0x100 * HexValue(digits[1]) + 0x10 * HexValue(digits[2]) + HexValue(digits[3])
  }

  predicate IsName(s: seq<byte>) {
    |s| < NAME_SIZE && TAB !in s && NEWLINE !in s && (s == [] || s[0] != SPACE)
  }

  function AfterTab(s: seq<byte>): seq<byte> {
    if s == [] then [] else if s[0] == TAB then s[1..] else AfterTab(s[1..])
  }

  function AfterSpaces(s: seq<byte>): seq<byte> {
    if s != [] && s[0] == SPACE then AfterSpaces(s[1..]) else s
  }

  function BeforeTab(s: seq<byte>): seq<byte> {
    if s == [] || s[0] == TAB then [] else [s[0]] + BeforeTab(s[1..])
  }

  /**
   The scanner reads an id and a name here: four digits, a character that is no tab, any spaces, and then
   no tab.
   */
  predicate Taken(s: seq<byte>) {
    Hex(s, 4) && |s| > 4 && s[4] != TAB && (AfterSpaces(s[5..]) == [] || AfterSpaces(s[5..])[0] != TAB)
  }

  /** No other line is taken for a vendor's, nor for a device's from its first tab on. */
  predicate Printable(e: Entry) {
    match e
    case Other(text) => NEWLINE !in text && !Taken(text) && !Taken(AfterTab(text))
    case _ => |e.digits| == 4 && Hex(e.digits, 4) && IsName(e.name)
  }

  function Line(e: Entry): (r: seq<byte>)
    ensures |r| > 0 && r[|r| - 1] == NEWLINE
  {
    match e
    case Vendor(digits, name) => digits + [SPACE, SPACE] + name + [NEWLINE]
    case Device(digits, name) => [TAB] + digits + [SPACE, SPACE] + name + [NEWLINE]
    case Other(text) => text + [NEWLINE]
  }

  function Print(es: seq<Entry>): (r: seq<byte>)
    ensures EndsLine(r)
  {
    if es == [] then [] else Line(es[0]) + Print(es[1..])
  }

  // ---- the lookup

  predicate IsVendor(e: Entry, v: id) {
    Printable(e) && e.Vendor? && IdOf(e.digits) == v
  }

  predicate IsDevice(e: Entry, d: id) {
    Printable(e) && e.Device? && IdOf(e.digits) == d
  }

  function FirstVendor(es: seq<Entry>, v: id): (i: nat)
    ensures i <= |es| && (i < |es| ==> IsVendor(es[i], v)) && forall j | 0 <= j < i :: !IsVendor(es[j], v)
  {
    if es == [] || IsVendor(es[0], v) then 0 else 1 + FirstVendor(es[1..], v)
  }

  function FirstDevice(es: seq<Entry>, d: id): (i: nat)
    ensures i <= |es| && (i < |es| ==> IsDevice(es[i], d)) && forall j | 0 <= j < i :: !IsDevice(es[j], d)
  {
    if es == [] || IsDevice(es[0], d) then 0 else 1 + FirstDevice(es[1..], d)
  }

  /** The first vendor line with the id, and the first device line with the id anywhere after it. */
  function Lookup(es: seq<Entry>, v: id, d: id): Outcome {
    var a := FirstVendor(es, v);
    if a == |es| then Missing
    else
      var b := FirstDevice(es[a + 1..], d);
      if a + 1 + b == |es| then Missing else Found(es[a].name, es[a + 1 + b].name)
  }

  // ---- the scanner on pieces of a line

  const SEEKING := State(Num1, false, [], [])

  function Among(vendor: seq<byte>): State {
    State(Tab, true, [], vendor)
  }

  /** A character that is neither a newline nor one too many for the name buffer. */
  lemma Char(c: byte, t: seq<byte>, v: id, d: id, st: State)
    requires c != NEWLINE && t != [] && EndsLine(t) && (Stores(st, c) ==> |st.name| < NAME_SIZE)
    ensures EndsLine([c] + t)
    ensures Run([c] + t, v, d, st) == Run(t, v, d, Next(st, c, t[0], if st.device then d else v))
  {
    hide Next, Stores;
    assert ([c] + t)[1..] == t;
  }

  lemma LineEnd(t: seq<byte>, v: id, d: id, st: State)
    requires EndsLine(t)
    ensures EndsLine([NEWLINE] + t)
    ensures Run([NEWLINE] + t, v, d, st)
         == if st.mode != Name then Run(t, v, d, st.(mode := LineStart(st.device)))
            else if |st.name| >= NAME_SIZE then Overrun
            else if st.device then Found(st.vendor, st.name)
            else Run(t, v, d, Among(st.name))
  {
    assert ([NEWLINE] + t)[1..] == t;
  }

  /** Text that the scanner ignores: the rest of a line it gave up, or a line with no tab among devices. */
  lemma {:induction false} Ignored(text: seq<byte>, t: seq<byte>, v: id, d: id, st: State)
    requires NEWLINE !in text && EndsLine(t) && t != []
    requires st.mode == NextLine || (st.mode == Tab && TAB !in text)
    ensures EndsLine(text + t) && Run(text + t, v, d, st) == Run(t, v, d, st)
  {
    if text == [] {
      assert text + t == t;
    } else {
      Ignored(text[1..], t, v, d, st);
      Char(text[0], text[1..] + t, v, d, st);
      assert text + t == [text[0]] + (text[1..] + t);
    }
  }

  lemma SkipRest(text: seq<byte>, t: seq<byte>, v: id, d: id, st: State)
    requires NEWLINE !in text && EndsLine(t)
    ensures EndsLine(text + ([NEWLINE] + t))
    ensures Run(text + ([NEWLINE] + t), v, d, st.(mode := NextLine)) == Run(t, v, d, st.(mode := LineStart(st.device)))
  {
    hide Run;
    Ignored(text, [NEWLINE] + t, v, d, st.(mode := NextLine));
    LineEnd(t, v, d, st.(mode := NextLine));
  }

  /** What comes of a name and what is left of its line: a tab cuts the name, and only then is it kept for later. */
  function Named(u: seq<byte>, t: seq<byte>, v: id, d: id, st: State): Outcome
    requires EndsLine(t)
  {
    var name := st.name + BeforeTab(u);
    if TAB in u then
      if |name| > NAME_SIZE then Overrun else Run(t, v, d, st.(mode := LineStart(st.device), name := name))
    else if |name| >= NAME_SIZE then Overrun
    else if st.device then Found(st.vendor, name)
    else Run(t, v, d, Among(name))
  }

  lemma Overruns(c: byte, t: seq<byte>, v: id, d: id, st: State)
    requires c != TAB && t != [] && EndsLine(t) && st.mode == Name && |st.name| >= NAME_SIZE
    ensures EndsLine([c] + t) && Run([c] + t, v, d, st) == Overrun
  {
  }

  lemma NamedMore(u: seq<byte>, t: seq<byte>, v: id, d: id, st: State)
    requires EndsLine(t) && u != [] && u[0] != TAB
    ensures Named(u, t, v, d, st) == Named(u[1..], t, v, d, st.(name := st.name + [u[0]]))
  {
    hide Run;
    assert st.name + [u[0]] + BeforeTab(u[1..]) == st.name + BeforeTab(u);
  }

  /** Where the name ends, and where it would be one character too long. */
  lemma NamedEnds(u: seq<byte>, t: seq<byte>, v: id, d: id, st: State)
    requires EndsLine(t) && st.mode == Name && |st.name| <= NAME_SIZE
    ensures u == [] ==> Named(u, t, v, d, st) == Run([NEWLINE] + t, v, d, st)
    ensures u != [] && u[0] == TAB ==> Named(u, t, v, d, st) == Run(t, v, d, st.(mode := LineStart(st.device)))
    ensures u != [] && u[0] != TAB && |st.name| == NAME_SIZE ==> Named(u, t, v, d, st) == Overrun
  {
    hide Run;
    LineEnd(t, v, d, st);
    assert st.name + [] == st.name;
  }

  lemma {:induction false} Naming(u: seq<byte>, t: seq<byte>, v: id, d: id, st: State)
    requires NEWLINE !in u && EndsLine(t) && st.mode == Name && |st.name| <= NAME_SIZE
    ensures EndsLine(u + ([NEWLINE] + t))
    ensures Run(u + ([NEWLINE] + t), v, d, st) == Named(u, t, v, d, st)
    decreases |u|
  {
    hide Run, Named, BeforeTab;
    var line := [NEWLINE] + t;
    NamedEnds(u, t, v, d, st);
    if u == [] {
      assert u + line == line;
      return;
    }
    assert u + line == [u[0]] + (u[1..] + line);
    SkipRest(u[1..], t, v, d, st);
    if u[0] == TAB {
      Char(TAB, u[1..] + line, v, d, st);
    } else if |st.name| == NAME_SIZE {
      Overruns(u[0], u[1..] + line, v, d, st);
    } else {
      Naming(u[1..], t, v, d, st.(name := st.name + [u[0]]));
      Char(u[0], u[1..] + line, v, d, st);
      NamedMore(u, t, v, d, st);
    }
  }

  /** The gap ends at the first character that no space follows. */
  lemma {:induction false} GapEnds(c: byte, s: seq<byte>, t: seq<byte>, v: id, d: id, st: State)
    requires c != TAB && c != NEWLINE && NEWLINE !in s && EndsLine(t) && st.mode == Gap
    ensures NEWLINE !in AfterSpaces(s) && EndsLine([c] + (s + ([NEWLINE] + t)))
    ensures EndsLine(AfterSpaces(s) + ([NEWLINE] + t))
    ensures Run([c] + (s + ([NEWLINE] + t)), v, d, st)
         == Run(AfterSpaces(s) + ([NEWLINE] + t), v, d, st.(mode := Name))
    decreases |s|
  {
    hide Run;
    var line := [NEWLINE] + t;
    Char(c, s + line, v, d, st);
    if s != [] && s[0] == SPACE {
      GapEnds(SPACE, s[1..], t, v, d, st);
      assert s + line == [SPACE] + (s[1..] + line);
    }
  }

  /** The mode with n digits of an id to go. */
  function ToGo(n: nat): Mode {
    if n == 4 then Num1 else if n == 3 then Num2 else if n == 2 then Num3 else if n == 1 then Num4 else Gap
  }

  lemma DigitsJoin(i: id)
    ensures i == 0x1000 * Digit(i, Num1) + 0x100 * Digit(i, Num2) + 0x10 * Digit(i, Num3) + Digit(i, Num4)
    ensures Digit(i, Num1) < 16 && Digit(i, Num2) < 16 && Digit(i, Num3) < 16 && Digit(i, Num4) < 16
  {
    assert i / 0x10 / 0x10 == i / 0x100 && i / 0x100 / 0x10 == i / 0x1000;
  }

  lemma DigitsUnique(a: nat, b: nat, c: nat, e: nat, a': nat, b': nat, c': nat, e': nat)
    requires b < 16 && c < 16 && e < 16 && b' < 16 && c' < 16 && e' < 16
    requires 0x1000 * a + 0x100 * b + 0x10 * c + e == 0x1000 * a' + 0x100 * b' + 0x10 * c' + e'
    ensures a == a' && b == b' && c == c' && e == e'
  {
  }

  /** Two ids are equal just when their four digits are. */
  lemma SameDigits(ds: seq<byte>, i: id)
    requires |ds| == 4 && Hex(ds, 4)
    ensures IdOf(ds) == i <==> (Digit(i, Num1) == HexValue(ds[0]) && Digit(i, Num2) == HexValue(ds[1])
                                && Digit(i, Num3) == HexValue(ds[2]) && Digit(i, Num4) == HexValue(ds[3]))
  {
    hide HexValue, Digit;
    DigitsJoin(i);
    if IdOf(ds) == i {
      DigitsUnique(HexValue(ds[0]), HexValue(ds[1]), HexValue(ds[2]), HexValue(ds[3]),
                   Digit(i, Num1), Digit(i, Num2), Digit(i, Num3), Digit(i, Num4));
    }
  }

  lemma Digits(ds: seq<byte>, t: seq<byte>, v: id, d: id, st: State)
    requires |ds| == 4 && Hex(ds, 4) && EndsLine(t) && t != [] && st.mode == Num1
    ensures EndsLine(ds + t)
    ensures Run(ds + t, v, d, st)
         == Run(t, v, d, st.(mode := if IdOf(ds) == (if st.device then d else v) then Gap else NextLine))
  {
    hide Run, IdOf, Digit;
    var i := if st.device then d else v;
    var t3, t2, t1 := [ds[3]] + t, [ds[2]] + ([ds[3]] + t), [ds[1]] + ([ds[2]] + ([ds[3]] + t));
    var st1 := Next(st, ds[0], ds[1], i);
    var st2 := Next(st1, ds[1], ds[2], i);
    var st3 := Next(st2, ds[2], ds[3], i);
    Char(ds[3], t, v, d, st3);
    Char(ds[2], t3, v, d, st2);
    Char(ds[1], t2, v, d, st1);
    Char(ds[0], t1, v, d, st);
    assert ds + t == [ds[0]] + t1;
    SameDigits(ds, i);
  }

  /** A line that has no four digits where an id is expected is given up. */
  lemma {:induction false} NotAnId(text: seq<byte>, n: nat, t: seq<byte>, v: id, d: id, st: State)
    requires NEWLINE !in text && 1 <= n <= 4 && !Hex(text, n) && EndsLine(t) && st.mode == ToGo(n)
    ensures EndsLine(text + ([NEWLINE] + t))
    ensures Run(text + ([NEWLINE] + t), v, d, st) == Run(t, v, d, st.(mode := LineStart(st.device)))
    decreases n
  {
    hide Run;
    var line := [NEWLINE] + t;
    if text == [] {
      assert text + line == line;
      LineEnd(t, v, d, st);
    } else {
      var rest := text[1..];
      var st' := Next(st, text[0], (rest + line)[0], if st.device then d else v);
      Char(text[0], rest + line, v, d, st);
      assert text + line == [text[0]] + (rest + line);
      if st'.mode == NextLine {
        Ignored(rest, line, v, d, st');
        LineEnd(t, v, d, st');
      } else {
        NotAnId(rest, n - 1, t, v, d, st');
      }
    }
  }

  /** A tab among the devices makes the scanner expect an id. */
  lemma {:induction false} UpToTab(text: seq<byte>, t: seq<byte>, v: id, d: id, st: State)
    requires NEWLINE !in text && EndsLine(t) && t != [] && st.mode == Tab && st.device
    ensures EndsLine(text + t)
    ensures Run(text + t, v, d, st)
         == if TAB in text then Run(AfterTab(text) + t, v, d, st.(mode := Num1)) else Run(t, v, d, st)
    ensures NEWLINE !in AfterTab(text) && EndsLine(AfterTab(text) + t)
  {
    hide Run;
    if text == [] {
      assert text + t == t && AfterTab(text) + t == t;
    } else {
      Char(text[0], text[1..] + t, v, d, st);
      assert text + t == [text[0]] + (text[1..] + t);
      if text[0] != TAB {
        UpToTab(text[1..], t, v, d, st);
      }
    }
  }

  // ---- the scanner on whole lines

  lemma NoNewline(digits: seq<byte>)
    requires |digits| == 4 && Hex(digits, 4)
    ensures NEWLINE !in digits && TAB !in digits
  {
  }

  lemma AfterDigits(rest: seq<byte>, t: seq<byte>, v: id, d: id, st: State)
    requires NEWLINE !in rest && EndsLine(t) && st.mode == Gap && |st.name| <= NAME_SIZE
    ensures EndsLine(rest + ([NEWLINE] + t))
    ensures Run(rest + ([NEWLINE] + t), v, d, st)
         == if rest != [] && rest[0] != TAB && (AfterSpaces(rest[1..]) == [] || AfterSpaces(rest[1..])[0] != TAB)
            then Named(AfterSpaces(rest[1..]), t, v, d, st.(mode := Name))
            else Run(t, v, d, st.(mode := LineStart(st.device)))
  {
    hide Run, Named, AfterSpaces;
    var line := [NEWLINE] + t;
    if rest == [] {
      assert rest + line == line;
      LineEnd(t, v, d, st);
      return;
    }
    assert rest + line == [rest[0]] + (rest[1..] + line);
    SkipRest(rest[1..], t, v, d, st);
    if rest[0] == TAB {
      Char(TAB, rest[1..] + line, v, d, st);
      return;
    }
    GapEnds(rest[0], rest[1..], t, v, d, st);
    var u := AfterSpaces(rest[1..]);
    if u != [] && u[0] == TAB {
      assert u + line == [TAB] + (u[1..] + line);
      SkipRest(u[1..], t, v, d, st);
      Char(TAB, u[1..] + line, v, d, st.(mode := Name));
    } else {
      Naming(u, t, v, d, st.(mode := Name));
    }
  }

  /** A line from the place on where an id is expected. */
  lemma FromId(text: seq<byte>, t: seq<byte>, v: id, d: id, st: State)
    requires NEWLINE !in text && EndsLine(t) && st.mode == Num1 && |st.name| <= NAME_SIZE
    ensures EndsLine(text + ([NEWLINE] + t))
    ensures Run(text + ([NEWLINE] + t), v, d, st)
         == if Taken(text) && IdOf(text[..4]) == (if st.device then d else v)
            then Named(AfterSpaces(text[5..]), t, v, d, st.(mode := Name))
            else Run(t, v, d, st.(mode := LineStart(st.device)))
  {
    hide Run, IdOf, Named, AfterSpaces;
    var line := [NEWLINE] + t;
    if !Hex(text, 4) {
      NotAnId(text, 4, t, v, d, st);
      return;
    }
    var ds, rest := text[..4], text[4..];
    assert text + line == ds + (rest + line);
    Digits(ds, rest + line, v, d, st);
    if IdOf(ds) == (if st.device then d else v) {
      AfterDigits(rest, t, v, d, st.(mode := Gap));
      assert |rest| > 0 ==> rest[0] == text[4] && rest[1..] == text[5..];
    } else {
      SkipRest(rest, t, v, d, st);
    }
  }

  lemma {:induction false} WholeName(name: seq<byte>)
    requires TAB !in name
    ensures BeforeTab(name) == name
  {
    if name != [] {
      WholeName(name[1..]);
    }
  }

  /** A printed id and name are read as they are. */
  lemma IdAndName(digits: seq<byte>, name: seq<byte>, t: seq<byte>, v: id, d: id, st: State)
    requires |digits| == 4 && Hex(digits, 4) && IsName(name) && EndsLine(t) && st.mode == Num1
    requires |st.name| <= NAME_SIZE
    ensures EndsLine(digits + [SPACE, SPACE] + name + [NEWLINE] + t)
    ensures Run(digits + [SPACE, SPACE] + name + [NEWLINE] + t, v, d, st)
         == if IdOf(digits) != (if st.device then d else v) then Run(t, v, d, st.(mode := LineStart(st.device)))
            else if |st.name| + |name| >= NAME_SIZE then Overrun
            else if st.device then Found(st.vendor, st.name + name)
            else Run(t, v, d, Among(st.name + name))
  {
    hide Run, IdOf, HexValue;
    var text := digits + [SPACE, SPACE] + name;
    NoNewline(digits);
    FromId(text, t, v, d, st);
    assert text + ([NEWLINE] + t) == digits + [SPACE, SPACE] + name + [NEWLINE] + t;
    assert text[..4] == digits && text[5..] == [SPACE] + name;
    assert ([SPACE] + name)[1..] == name && AfterSpaces(name) == name;
    WholeName(name);
  }

  lemma VendorSought(digits: seq<byte>, name: seq<byte>, t: seq<byte>, v: id, d: id)
    requires |digits| == 4 && Hex(digits, 4) && IsName(name) && EndsLine(t)
    ensures EndsLine(Line(Vendor(digits, name)) + t)
    ensures Run(Line(Vendor(digits, name)) + t, v, d, SEEKING)
         == Run(t, v, d, if IdOf(digits) == v then Among(name) else SEEKING)
  {
    hide Run, IdOf, Hex;
    IdAndName(digits, name, t, v, d, SEEKING);
    assert [] + name == name;
    assert Line(Vendor(digits, name)) + t == digits + [SPACE, SPACE] + name + [NEWLINE] + t;
  }

  lemma DeviceSkipped(digits: seq<byte>, name: seq<byte>, t: seq<byte>, v: id, d: id)
    requires |digits| == 4 && Hex(digits, 4) && IsName(name) && EndsLine(t)
    ensures EndsLine(Line(Device(digits, name)) + t)
    ensures Run(Line(Device(digits, name)) + t, v, d, SEEKING) == Run(t, v, d, SEEKING)
  {
    hide Run, Hex;
    var rest := digits + [SPACE, SPACE] + name;
    assert Line(Device(digits, name)) + t == [TAB] + (rest + ([NEWLINE] + t));
    NoNewline(digits);
    Char(TAB, rest + ([NEWLINE] + t), v, d, SEEKING);
    SkipRest(rest, t, v, d, SEEKING);
  }

  /** Before the vendor is found, only its line changes anything. */
  lemma SeekLine(e: Entry, t: seq<byte>, v: id, d: id)
    requires Printable(e) && EndsLine(t)
    ensures EndsLine(Line(e) + t)
    ensures Run(Line(e) + t, v, d, SEEKING) == Run(t, v, d, if IsVendor(e, v) then Among(e.name) else SEEKING)
  {
    hide Run, IdOf, Hex, Taken, AfterTab, IsName, Among;
    match e
    case Vendor(digits, name) => VendorSought(digits, name, t, v, d);
    case Device(digits, name) => DeviceSkipped(digits, name, t, v, d);
    case Other(text) =>
      assert Line(e) + t == text + ([NEWLINE] + t);
      FromId(text, t, v, d, SEEKING);
  }

  lemma VendorAmong(digits: seq<byte>, name: seq<byte>, t: seq<byte>, v: id, d: id, vendor: seq<byte>)
    requires |digits| == 4 && Hex(digits, 4) && IsName(name) && EndsLine(t)
    ensures EndsLine(Line(Vendor(digits, name)) + t)
    ensures Run(Line(Vendor(digits, name)) + t, v, d, Among(vendor)) == Run(t, v, d, Among(vendor))
  {
    hide Run, Hex;
    var rest := digits + [SPACE, SPACE] + name;
    assert Line(Vendor(digits, name)) + t == rest + ([NEWLINE] + t);
    NoNewline(digits);
    Ignored(rest, [NEWLINE] + t, v, d, Among(vendor));
    LineEnd(t, v, d, Among(vendor));
  }

  lemma {:induction false} NoTab(text: seq<byte>)
    requires TAB !in text
    ensures AfterTab(text) == []
  {
    if text != [] {
      NoTab(text[1..]);
    }
  }

  lemma OtherAmong(text: seq<byte>, t: seq<byte>, v: id, d: id, vendor: seq<byte>)
    requires NEWLINE !in text && EndsLine(t)
    ensures EndsLine(Line(Other(text)) + t)
    ensures var s := AfterTab(text);
      Run(Line(Other(text)) + t, v, d, Among(vendor))
      == if Taken(s) && IdOf(s[..4]) == d then Named(AfterSpaces(s[5..]), t, v, d, State(Name, true, [], vendor))
         else Run(t, v, d, Among(vendor))
  {
    hide Run, AfterTab, IdOf, Named;
    assert Line(Other(text)) + t == text + ([NEWLINE] + t);
    UpToTab(text, [NEWLINE] + t, v, d, Among(vendor));
    if TAB in text {
      FromId(AfterTab(text), t, v, d, Among(vendor).(mode := Num1));
    } else {
      NoTab(text);
      LineEnd(t, v, d, Among(vendor));
    }
  }

  lemma DeviceAmong(digits: seq<byte>, name: seq<byte>, t: seq<byte>, v: id, d: id, vendor: seq<byte>)
    requires |digits| == 4 && Hex(digits, 4) && IsName(name) && EndsLine(t)
    ensures EndsLine(Line(Device(digits, name)) + t)
    ensures Run(Line(Device(digits, name)) + t, v, d, Among(vendor))
         == if IdOf(digits) == d then Found(vendor, name) else Run(t, v, d, Among(vendor))
  {
    hide Run, HexValue, IdOf, EndsLine;
    IdAndName(digits, name, t, v, d, State(Num1, true, [], vendor));
    var tail := digits + [SPACE, SPACE] + name + [NEWLINE] + t;
    assert [] + name == name && Line(Device(digits, name)) + t == [TAB] + tail;
    Char(TAB, tail, v, d, Among(vendor));
  }

  /** Once the vendor is found, only the device's line changes anything. */
  lemma DeviceLine(e: Entry, t: seq<byte>, v: id, d: id, vendor: seq<byte>)
    requires Printable(e) && EndsLine(t)
    ensures EndsLine(Line(e) + t)
    ensures Run(Line(e) + t, v, d, Among(vendor)) == if IsDevice(e, d) then Found(vendor, e.name)
                                                      else Run(t, v, d, Among(vendor))
  {
    hide Run, IdOf, Hex, Taken, Line, AfterTab, IsName, Among;
    match e
    case Vendor(digits, name) => VendorAmong(digits, name, t, v, d, vendor);
    case Device(digits, name) => DeviceAmong(digits, name, t, v, d, vendor);
    case Other(text) => OtherAmong(text, t, v, d, vendor);
  }

  // ---- the scanner on whole tables

  lemma {:induction false} DeviceSearch(es: seq<Entry>, v: id, d: id, vendor: seq<byte>)
    requires forall e | e in es :: Printable(e)
    ensures var b := FirstDevice(es, d);
      Run(Print(es), v, d, Among(vendor)) == if b == |es| then Missing else Found(vendor, es[b].name)
  {
    hide Line, IsDevice, Printable, Among;
    if es != [] {
      DeviceLine(es[0], Print(es[1..]), v, d, vendor);
      if !IsDevice(es[0], d) {
        DeviceSearch(es[1..], v, d, vendor);
      }
    }
  }

  /** On every printed table the scanner is the lookup. */
  lemma {:induction false} ScanIsLookup(es: seq<Entry>, v: id, d: id)
    requires forall e | e in es :: Printable(e)
    ensures Scan(Print(es), v, d) == Lookup(es, v, d)
  {
    hide Line, IsDevice, IdOf, Hex, Among;
    if es != [] {
      SeekLine(es[0], Print(es[1..]), v, d);
      if IsVendor(es[0], v) {
        DeviceSearch(es[1..], v, d, es[0].name);
      } else {
        ScanIsLookup(es[1..], v, d);
      }
    }
  }

  // ---- whose device it is

  /** The vendor's own entries: from its line, at a, up to the next vendor's. */
  predicate InBlock(es: seq<Entry>, a: nat, i: nat)
    requires a < |es|
  {
    a < i < |es| && forall j | a < j <= i :: !es[j].Vendor?
  }

  predicate OwnDevice(es: seq<Entry>, a: nat, i: nat, d: id)
    requires a < |es|
  {
    InBlock(es, a, i) && IsDevice(es[i], d)
  }

  /** The first device line with the id after the line at a. */
  function DeviceAfter(es: seq<Entry>, a: nat, d: id): (b: nat)
    requires a < |es|
    ensures a < b <= |es| && (b < |es| ==> IsDevice(es[b], d)) && forall i | a < i < b :: !IsDevice(es[i], d)
  {
    var rest := es[a + 1..];
    assert forall i | a < i < |es| :: es[i] == rest[i - a - 1];
    a + 1 + FirstDevice(rest, d)
  }

  /**
   With the vendor's line at a, what is found is the vendor's own device exactly when its block has one
   with the id; otherwise it is the first such device of a later vendor, if there is any.
   */
  lemma FoundInBlock(es: seq<Entry>, v: id, d: id)
    requires forall e | e in es :: Printable(e)
    requires FirstVendor(es, v) < |es|
    ensures var a := FirstVendor(es, v);
      var b := DeviceAfter(es, a, d);
      && Scan(Print(es), v, d) == (if b == |es| then Missing else Found(es[a].name, es[b].name))
      && (OwnDevice(es, a, b, d) <==> exists i: nat :: OwnDevice(es, a, i, d))
  {
    hide Line, Printable, IdOf, Scan;
    ScanIsLookup(es, v, d);
    var a := FirstVendor(es, v);
    var b := DeviceAfter(es, a, d);
    if i: nat :| OwnDevice(es, a, i, d) {
      assert b <= i;
    }
  }

  /** Vendor 0001 has no device 0003, and its neighbour 0002 has: the neighbour's device is reported for it. */
  lemma NeighboursDevice()
    ensures var es := [Vendor([48, 48, 48, 49], [65]), Vendor([48, 48, 48, 50], [66]), Device([48, 48, 48, 51], [67])];
      && (forall e | e in es :: Printable(e))
      && Scan(Print(es), 1, 3) == Found([65], [67]) && !(exists i: nat :: OwnDevice(es, 0, i, 3))
  {
    var es := [Vendor([48, 48, 48, 49], [65]), Vendor([48, 48, 48, 50], [66]), Device([48, 48, 48, 51], [67])];
    assert IsVendor(es[0], 1) && IsDevice(es[2], 3) && es[1].Vendor?;
    ScanIsLookup(es, 1, 3);
    assert FirstVendor(es, 1) == 0;
    assert es[1..][1] == es[2];
    assert FirstDevice(es[1..], 3) == 1;
  }

  // ---- printed ids

  const LOWER := "0123456789abcdef"
  const UPPER := "0123456789ABCDEF"

  /** A character is a digit exactly when it is one of these, and its value is its place there. */
  lemma HexDigits(c: byte, value: nat)
    ensures HexValue(c) == value && value < 16
       <==> value < 16 && (c == LOWER[value] as int || c == UPPER[value] as int)
  {
  }

  /** The four digits of an id, as the table prints them. */
  function Printed(i: id): (r: seq<byte>)
    ensures |r| == 4
  {
    var digits := [i / 0x1000, i / 0x100 % 0x10, i / 0x10 % 0x10, i % 0x10];
    seq(4, k requires 0 <= k < 4 => LOWER[digits[k]] as int)
  }

  /** Reading the printed digits of an id gives back the id. */
  lemma PrintedId(i: id)
    ensures Hex(Printed(i), 4) && IdOf(Printed(i)) == i
  {
    hide HexValue;
    var r := Printed(i);
    HexDigits(r[0], i / 0x1000);
    HexDigits(r[1], i / 0x100 % 0x10);
    HexDigits(r[2], i / 0x10 % 0x10);
    HexDigits(r[3], i % 0x10);
    DigitsJoin(i);
  }

  lemma TwoLines(e: Entry, f: Entry)
    ensures Print([e, f]) == Line(e) + Line(f)
  {
    hide Line;
    assert [e, f][1..] == [f];
    assert Print([f]) == Line(f) + Print([f][1..]) == Line(f);
  }

  lemma PairIsFound(v: seq<byte>, d: seq<byte>, vendor: seq<byte>, device: seq<byte>)
    requires |v| == |d| == 4 && Hex(v, 4) && Hex(d, 4) && IsName(vendor) && IsName(device)
    ensures Scan(Print([Vendor(v, vendor), Device(d, device)]), IdOf(v), IdOf(d)) == Found(vendor, device)
  {
    hide Line, Hex, IdOf, Scan, IsName;
    var es := [Vendor(v, vendor), Device(d, device)];
    ScanIsLookup(es, IdOf(v), IdOf(d));
    assert FirstVendor(es, IdOf(v)) == 0;
    assert es[1..][0] == es[1];
    assert FirstDevice(es[1..], IdOf(d)) == 0;
  }

  /** A table that prints one vendor and one device of it: whatever their ids and names, the scan finds them. */
  lemma PrintedIsFound(v: id, d: id, vendor: seq<byte>, device: seq<byte>)
    requires IsName(vendor) && IsName(device)
    ensures Scan(Print([Vendor(Printed(v), vendor), Device(Printed(d), device)]), v, d) == Found(vendor, device)
  {
    hide Hex, IdOf, Printed, Scan, IsName;
    PrintedId(v);
    PrintedId(d);
    PairIsFound(Printed(v), Printed(d), vendor, device);
  }

  lemma ReadDigits()
    ensures var v: seq<byte>, d: seq<byte> := [49, 48, 100, 101], [48, 97, 50, 102];
      Hex(v, 4) && IdOf(v) == 0x10DE && Hex(d, 4) && IdOf(d) == 0x0A2F
  {
  }

  lemma PrintedLines()
    ensures var v: seq<byte>, d: seq<byte> := [49, 48, 100, 101], [48, 97, 50, 102];
      Line(Vendor(v, [78])) + Line(Device(d, [65]))
        == [49, 48, 100, 101, 32, 32, 78, 10, 9, 48, 97, 50, 102, 32, 32, 65, 10]
  {
  }

  /** Vendor 10de named N and its device 0a2f named A, character by character. */
  lemma LettersInIds()
    ensures Scan([49, 48, 100, 101, 32, 32, 78, 10, 9, 48, 97, 50, 102, 32, 32, 65, 10], 0x10DE, 0x0A2F)
         == Found([78], [65])
  {
    hide Scan, Print, Line, Hex, IdOf;
    var v: seq<byte>, d: seq<byte> := [49, 48, 100, 101], [48, 97, 50, 102];
    ReadDigits();
    PrintedLines();
    PairIsFound(v, d, [78], [65]);
    TwoLines(Vendor(v, [78]), Device(d, [65]));
  }
}
