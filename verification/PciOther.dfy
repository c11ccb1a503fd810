/** Exactly which other lines the scanner passes over, and what it makes of the rest. */
module PciOther {
  import opened Bytes
  import opened PciIds
  import opened PciTable

  const LETTER: byte := 65

  // ---- among the devices of a vendor

  ghost predicate SkippedAmong(text: seq<byte>, t: seq<byte>, v: id, d: id, vendor: seq<byte>)
    requires EndsLine(t)
  {
    EndsLine(Line(Other(text)) + t) && Run(Line(Other(text)) + t, v, d, Among(vendor)) == Run(t, v, d, Among(vendor))
  }

  /** A device's line where the name buffer was left with something in it. */
  lemma NextDevice(digits: seq<byte>, kept: seq<byte>, v: id, vendor: seq<byte>)
    requires |digits| == 4 && Hex(digits, 4) && |kept| <= NAME_SIZE
    ensures Run(Line(Device(digits, [LETTER])), v, IdOf(digits), State(Tab, true, kept, vendor))
         == if |kept| + 1 >= NAME_SIZE then Overrun else Found(vendor, kept + [LETTER])
  {
    hide Run, IdOf, HexValue;
    var tail := digits + [SPACE, SPACE] + [LETTER] + [NEWLINE];
    assert tail + [] == tail && Line(Device(digits, [LETTER])) == [TAB] + tail;
    IdAndName(digits, [LETTER], [], v, IdOf(digits), State(Num1, true, kept, vendor));
    Char(TAB, tail, v, IdOf(digits), State(Tab, true, kept, vendor));
  }

  lemma BeforeTabStarts(u: seq<byte>)
    requires u != [] && u[0] != TAB
    ensures BeforeTab(u) != []
  {
  }

  /** A line that is taken changes the outcome of some scan. */
  lemma TakenAmong(text: seq<byte>) returns (t: seq<byte>, d: id)
    requires NEWLINE !in text && Taken(AfterTab(text))
    ensures EndsLine(t) && !SkippedAmong(text, t, 0, d, [])
  {
    hide IdOf, AfterSpaces, AfterTab, HexValue;
    var s := AfterTab(text);
    d := IdOf(s[..4]);
    var u := AfterSpaces(s[5..]);
    if TAB in u {
      BeforeTabStarts(u);
      t := Line(Device(s[..4], [LETTER]));
      assert [] + BeforeTab(u) == BeforeTab(u) && [] + [LETTER] == [LETTER];
      if |BeforeTab(u)| <= NAME_SIZE {
        NextDevice(s[..4], BeforeTab(u), 0, []);
      }
      NextDevice(s[..4], [], 0, []);
    } else {
      t := [];
    }
    OtherAmong(text, t, 0, d, []);
  }

  /** Among devices a line is passed over in every scan exactly when no id and name can be read after its first tab. */
  lemma SkippedAmongExactly(text: seq<byte>)
    requires NEWLINE !in text
    ensures !Taken(AfterTab(text)) <==>
      forall t, v, d, vendor | EndsLine(t) :: SkippedAmong(text, t, v, d, vendor)
  {
    hide Run, Taken, AfterTab, Line, IdOf, Named;
    if Taken(AfterTab(text)) {
      var t, d := TakenAmong(text);
    } else {
      forall t, v, d, vendor | EndsLine(t)
        ensures SkippedAmong(text, t, v, d, vendor)
      {
        OtherAmong(text, t, v, d, vendor);
      }
    }
  }

  // ---- before the vendor

  ghost predicate SkippedSeeking(text: seq<byte>, t: seq<byte>, v: id, d: id)
    requires EndsLine(t)
  {
    EndsLine(Line(Other(text)) + t) && Run(Line(Other(text)) + t, v, d, SEEKING) == Run(t, v, d, SEEKING)
  }

  /** A vendor's line and a device's, where the name buffer was left with something in it. */
  lemma NextVendor(digits: seq<byte>, kept: seq<byte>, t: seq<byte>)
    requires |digits| == 4 && Hex(digits, 4) && |kept| <= NAME_SIZE
    requires t == Line(Vendor(digits, [LETTER])) + Line(Device(digits, [LETTER]))
    ensures EndsLine(t)
    ensures Run(t, IdOf(digits), IdOf(digits), SEEKING.(name := kept))
         == if |kept| + 1 >= NAME_SIZE then Overrun else Found(kept + [LETTER], [LETTER])
  {
    hide Run, IdOf, HexValue;
    var device := Line(Device(digits, [LETTER]));
    assert t == digits + [SPACE, SPACE] + [LETTER] + [NEWLINE] + device;
    IdAndName(digits, [LETTER], device, IdOf(digits), IdOf(digits), SEEKING.(name := kept));
    if |kept| + 1 < NAME_SIZE {
      NextDevice(digits, [], IdOf(digits), kept + [LETTER]);
      assert [] + [LETTER] == [LETTER];
    }
  }

  lemma OtherIsText(text: seq<byte>, t: seq<byte>)
    ensures Line(Other(text)) + t == text + ([NEWLINE] + t)
  {
  }

  /** A name before a tab stays in the buffer, and the next vendor's name comes after it. */
  lemma CutSeeking(text: seq<byte>, t: seq<byte>)
    requires NEWLINE !in text && Taken(text) && TAB in AfterSpaces(text[5..])
    requires t == Line(Vendor(text[..4], [LETTER])) + Line(Device(text[..4], [LETTER]))
    ensures EndsLine(t) && !SkippedSeeking(text, t, IdOf(text[..4]), IdOf(text[..4]))
  {
    hide IdOf, AfterSpaces, HexValue, Run, Line;
    var digits, u := text[..4], AfterSpaces(text[5..]);
    var i := IdOf(digits);
    assert [] + BeforeTab(u) == BeforeTab(u) && [] + [LETTER] == [LETTER];
    BeforeTabStarts(u);
    NextVendor(digits, [], t);
    if |BeforeTab(u)| <= NAME_SIZE {
      NextVendor(digits, BeforeTab(u), t);
    }
    FromId(text, t, i, i, SEEKING);
    OtherIsText(text, t);
  }

  lemma NothingLeft(v: id, d: id)
    ensures Run([], v, d, SEEKING) == Missing
  {
  }

  /** A whole name ends the search for the vendor, and the next device is found. */
  lemma NamedSeeking(text: seq<byte>, t: seq<byte>)
    requires NEWLINE !in text && Taken(text) && TAB !in AfterSpaces(text[5..])
    requires t == Line(Device(text[..4], [LETTER]))
    ensures EndsLine(t) && !SkippedSeeking(text, t, IdOf(text[..4]), IdOf(text[..4]))
  {
    hide IdOf, AfterSpaces, HexValue, Run, Line;
    var digits, u := text[..4], AfterSpaces(text[5..]);
    var i := IdOf(digits);
    assert [] + BeforeTab(u) == BeforeTab(u) && t + [] == t;
    NextDevice(digits, [], i, BeforeTab(u));
    DeviceSkipped(digits, [LETTER], [], i, i);
    NothingLeft(i, i);
    FromId(text, t, i, i, SEEKING);
    OtherIsText(text, t);
  }

  /** Before the vendor a line is passed over in every scan exactly when no id and name can be read from its start. */
  lemma SkippedSeekingExactly(text: seq<byte>)
    requires NEWLINE !in text
    ensures !Taken(text) <==> forall t, v, d | EndsLine(t) :: SkippedSeeking(text, t, v, d)
  {
    hide Run, Line, IdOf, Named, AfterSpaces;
    if Taken(text) {
      if TAB in AfterSpaces(text[5..]) {
        CutSeeking(text, Line(Vendor(text[..4], [LETTER])) + Line(Device(text[..4], [LETTER])));
      } else {
        NamedSeeking(text, Line(Device(text[..4], [LETTER])));
      }
    } else {
      forall t, v, d | EndsLine(t)
        ensures SkippedSeeking(text, t, v, d)
      {
        FromId(text, t, v, d, SEEKING);
        OtherIsText(text, t);
      }
    }
  }

  // ---- comments under a vendor

  lemma CommentName(text: seq<byte>)
    requires Taken(AfterTab(text))
    ensures |AfterTab(text)| >= 5
    ensures var u := AfterSpaces(AfterTab(text)[5..]);
      [] + BeforeTab(u) == BeforeTab(u) && (TAB !in u ==> BeforeTab(u) == u)
  {
    var u := AfterSpaces(AfterTab(text)[5..]);
    if TAB !in u {
      WholeName(u);
    }
  }

  /**
   A comment under the vendor, scanned for the id it has after its first tab: it is reported as a device
   exactly when it is taken, and its name has no tab and fits.
   */
  lemma CommentTakenForDevice(vendor: Entry, text: seq<byte>)
    requires Printable(vendor) && vendor.Vendor? && NEWLINE !in text && Hex(AfterTab(text), 4)
    ensures var s := AfterTab(text);
      Scan(Print([vendor, Other(text)]), IdOf(vendor.digits), IdOf(s[..4]))
      == if !Taken(s) then Missing
         else
           var u := AfterSpaces(s[5..]);
           if TAB in u then (if |BeforeTab(u)| > NAME_SIZE then Overrun else Missing)
           else if |u| >= NAME_SIZE then Overrun
           else Found(vendor.name, u)
  {
    hide IdOf, Taken, HexValue, AfterTab, AfterSpaces, Line;
    var (v, d) := (IdOf(vendor.digits), IdOf(AfterTab(text)[..4]));
    SeekLine(vendor, Line(Other(text)), v, d);
    OtherAmong(text, [], v, d, vendor.name);
    assert Line(Other(text)) + [] == Line(Other(text));
    TwoLines(vendor, Other(text));
    if Taken(AfterTab(text)) {
      CommentName(text);
    }
  }
}
