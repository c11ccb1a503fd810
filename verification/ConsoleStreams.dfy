/**
 The console over every stream of characters: which streams leave it showing its log whatever is written
 next, and which do not.
 */
module ConsoleStreams {
  import opened Bytes
  import opened Options
  import opened ConsoleSpec
  import opened ConsoleRows
  import opened ConsoleLog
  import opened ConsoleDisplay
  import opened ConsoleCode

  /** Powered on: a cleared buffer, all counters zero. */
  function PowerOn(): (s: Screen) {
    Screen(seq(BUF_BYTES, _ => 0), 0, 0, 0, 0)
  }

  /** What is on the display before anything is written: zeroed cells. */
  function BlankLog(): Log {
    Fresh(PowerOn().buf)
  }

  /** The screen after a stream of characters; none once a character is stored outside the buffer. */
  function Screens(s: Screen, cs: seq<byte>): Option<Screen>
    decreases |cs|
  {
    if cs == [] then Some(s)
    else
      match Screens(s, cs[..|cs| - 1])
      case None => None
      case Some(m) => if m.Takes(cs[|cs| - 1]) then Some(Putc(m, cs[|cs| - 1])) else None
  }

  function Logs(log: Log, cs: seq<byte>): Log
    decreases |cs|
  {
    if cs == [] then log else Put(Logs(log, cs[..|cs| - 1]), cs[|cs| - 1])
  }

  /** Every backspace that sends the cursor up finds the ring scrolled, and the cursor below its first row. */
  predicate Careful(s: Screen, cs: seq<byte>)
    decreases |cs|
  {
    cs == []
    || (Careful(s, cs[..|cs| - 1])
        && match Screens(s, cs[..|cs| - 1])
           case None => false
           case Some(m) => m.OnGrid() && Safe(m, cs[|cs| - 1]))
  }

  /** After the stream the cursor is on the grid and a flush displays the log. */
  ghost predicate Faithful(s: Screen, log: Log, cs: seq<byte>)
  {
    match Screens(s, cs)
    case None => false
    case Some(m) => m.OnGrid() && Displays(Flushed(m), Logs(log, cs))
  }

  // ---- streams put together

  lemma {:induction false} ScreensJoin(s: Screen, cs: seq<byte>, ds: seq<byte>)
    requires Screens(s, cs).Some?
    ensures Screens(s, cs + ds) == Screens(Screens(s, cs).value, ds)
    decreases |ds|
  {
    hide Putc;
    if ds == [] {
      assert cs + ds == cs;
    } else {
      ScreensJoin(s, cs, ds[..|ds| - 1]);
      assert (cs + ds)[..|cs + ds| - 1] == cs + ds[..|ds| - 1];
    }
  }

  lemma {:induction false} LogsJoin(log: Log, cs: seq<byte>, ds: seq<byte>)
    ensures Logs(log, cs + ds) == Logs(Logs(log, cs), ds)
    decreases |ds|
  {
    hide Put;
    if ds == [] {
      assert cs + ds == cs;
    } else {
      LogsJoin(log, cs, ds[..|ds| - 1]);
      assert (cs + ds)[..|cs + ds| - 1] == cs + ds[..|ds| - 1];
    }
  }

  lemma OneCharacter(s: Screen, log: Log, c: byte)
    requires s.Takes(c)
    ensures Screens(s, [c]) == Some(Putc(s, c)) && Logs(log, [c]) == Put(log, c)
  {
    hide Putc, Put;
    assert [c][..0] == [];
  }

  // ---- careful streams

  /** Over every careful stream the ring holds the log. */
  lemma {:induction false} StreamRing(s: Screen, log: Log, cs: seq<byte>)
    requires Ring(s, log) && Careful(s, cs)
    ensures Screens(s, cs).Some? && Ring(Screens(s, cs).value, Logs(log, cs))
    decreases |cs|
  {
    hide Ring, Putc, Put, Safe;
    if cs != [] {
      StreamRing(s, log, cs[..|cs| - 1]);
      PutcRing(Screens(s, cs[..|cs| - 1]).value, Logs(log, cs[..|cs| - 1]), cs[|cs| - 1]);
    }
  }

  lemma {:induction false} CarefulPrefix(s: Screen, cs: seq<byte>, k: nat)
    requires Careful(s, cs) && k <= |cs|
    ensures Careful(s, cs[..k])
    decreases |cs|
  {
    hide Screens, Safe;
    if k < |cs| {
      CarefulPrefix(s, cs[..|cs| - 1], k);
      assert cs[..|cs| - 1][..k] == cs[..k];
    } else {
      assert cs[..k] == cs;
    }
  }

  /** Without backspaces nothing can go wrong any more. */
  lemma {:induction false} CarefulExtends(s: Screen, log: Log, cs: seq<byte>, ds: seq<byte>)
    requires Ring(s, log) && Careful(s, cs) && BACKSPACE !in ds
    ensures Careful(s, cs + ds)
    decreases |ds|
  {
    hide Ring, Screens, Wrapped;
    if ds == [] {
      assert cs + ds == cs;
    } else {
      var before := ds[..|ds| - 1];
      assert BACKSPACE !in before;
      CarefulExtends(s, log, cs, before);
      StreamRing(s, log, cs + before);
      RingCounters(Screens(s, cs + before).value, Logs(log, cs + before));
      assert (cs + ds)[..|cs + ds| - 1] == cs + before;
    }
  }

  lemma CarefulIsFaithful(s: Screen, log: Log, cs: seq<byte>)
    requires Ring(s, log) && Careful(s, cs)
    ensures Faithful(s, log, cs)
  {
    hide Ring, Screens, Logs, Displays, Flushed;
    StreamRing(s, log, cs);
    FlushShows(Screens(s, cs).value, Logs(log, cs));
  }

  lemma PowerOnFields()
    ensures var s := PowerOn(); s.OnGrid() && s.row == s.col == s.start == s.move == 0
  {
  }

  lemma PowerOnRing()
    ensures Ring(PowerOn(), BlankLog())
  {
    hide PowerOn, Ring, Fresh;
    PowerOnFields();
    FreshRing(PowerOn());
  }

  /** From power-on, every careful stream is displayed as its log, and the start row follows the cursor. */
  lemma StreamDisplayed(cs: seq<byte>)
    requires Careful(PowerOn(), cs)
    ensures Faithful(PowerOn(), BlankLog(), cs)
    ensures var (s, log) := (Screens(PowerOn(), cs).value, Logs(BlankLog(), cs));
      && s.move == s.start - log.Reopened() && (s.start == 0 || s.start == s.row + log.Reopened() + 1)
      && (s.start > 0 ==> log.Scrolled())
  {
    hide Screens, Logs, Displays, Flushed, Faithful, Ring, PowerOn, Careful, BlankLog;
    PowerOnRing();
    CarefulIsFaithful(PowerOn(), BlankLog(), cs);
    StreamRing(PowerOn(), BlankLog(), cs);
    RingCounters(Screens(PowerOn(), cs).value, Logs(BlankLog(), cs));
  }

  // ---- the other streams

  function Newlines(n: nat): seq<byte> {
    seq(n, _ => NEWLINE)
  }

  /** A newline on an unscrolled ring; from its last row the cursor goes to row 0, and only a move row of 0 scrolls. */
  lemma NewlineUnscrolled(s: Screen)
    requires s.OnGrid() && s.start == 0 && s.col < WIDTH && (s.row < HEIGHT - 1 || s.move != 0)
    ensures var r := Putc(s, NEWLINE);
      r.OnGrid() && r.start == 0 && r.col == 0 && r.row == (s.row + 1) % HEIGHT
      && (s.row < HEIGHT - 1 ==> r.move == s.move)
  {
    hide Blanked;
  }

  lemma NewlineLogged(log: Log)
    requires |log.cur| < WIDTH
    ensures var r := Put(log, NEWLINE); |r.done| == |log.done| + 1 && r.cur == []
  {
  }

  /** On an unscrolled ring newlines take the cursor down, and change neither start row nor move row. */
  lemma {:induction false} GoesDown(t: Screen, log: Log, j: nat)
    requires t.OnGrid() && t.start == 0 && t.col < WIDTH && t.row + j < HEIGHT && |log.cur| < WIDTH
    ensures Screens(t, Newlines(j)).Some?
    ensures var m := Screens(t, Newlines(j)).value;
      m.OnGrid() && m.start == 0 && m.move == t.move && m.col < WIDTH && m.row == t.row + j
    ensures |Logs(log, Newlines(j)).done| == |log.done| + j && |Logs(log, Newlines(j)).cur| < WIDTH
  {
    hide Putc, Put;
    if j > 0 {
      GoesDown(t, log, j - 1);
      assert Newlines(j)[..j - 1] == Newlines(j - 1);
      NewlineUnscrolled(Screens(t, Newlines(j - 1)).value);
      NewlineLogged(Logs(log, Newlines(j - 1)));
    }
  }

  const LETTER: byte := 120

  /** A letter at the top of an unscrolled ring is not what a log that has scrolled shows there. */
  lemma LetterOnTop(s: Screen, log: Log)
    requires s.OnGrid() && s.start == 0 && s.row == 0 && s.col == 0 && |log.done| >= HEIGHT && log.cur == []
    ensures var r := Putc(s, LETTER); r.OnGrid() && !Displays(Flushed(r), Put(log, LETTER))
  {
    hide Cells, BlankRow, Flushed;
    var r, next := Putc(s, LETTER), Put(log, LETTER);
    assert r.buf[0] == LETTER;
    FlushedByte(r, 0, 0);
    assert next.Scrolled();
    BlankRowAt(0);
    assert RowAt(Flushed(r), 0)[0] == LETTER && WindowRow(next, 0)[0] == SPACE;
  }

  /** Where the move row is off the start row 0, the ring goes round without scrolling. */
  lemma MissesScroll(t: Screen, log: Log)
    requires t.OnGrid() && t.start == 0 && t.move != 0 && t.col < WIDTH && |log.cur| < WIDTH
    requires t.row <= |log.done|
    ensures !Faithful(t, log, Newlines(HEIGHT - t.row) + [LETTER])
  {
    hide Putc, Put, Displays, Flushed;
    var j := HEIGHT - t.row;
    GoesDown(t, log, j - 1);
    var m, l := Screens(t, Newlines(j - 1)).value, Logs(log, Newlines(j - 1));
    assert Newlines(j)[..j - 1] == Newlines(j - 1);
    NewlineUnscrolled(m);
    NewlineLogged(l);
    LetterOnTop(Putc(m, NEWLINE), Put(l, NEWLINE));
    assert Screens(t, Newlines(j)) == Some(Putc(m, NEWLINE)) && Logs(log, Newlines(j)) == Put(l, NEWLINE);
    var ds := Newlines(j) + [LETTER];
    assert ds[..j] == Newlines(j);
    assert Screens(t, ds) == Some(Putc(Putc(m, NEWLINE), LETTER));
    assert Logs(log, ds) == Put(Put(l, NEWLINE), LETTER);
  }

  /** Going up, by the code and in the log. */
  lemma GoesUpBy(s: Screen, log: Log)
    requires s.OnGrid() && s.col == 0 && log.cur == []
    ensures Putc(s, BACKSPACE) == s.(col := WIDTH - 1, row := (s.row - 1) % 0x100, move := (s.move - 1) % 0x100)
    ensures log.done != [] ==>
      |Put(log, BACKSPACE).done| == |log.done| - 1 && |Put(log, BACKSPACE).cur| == WIDTH - 1
  {
  }

  lemma RingRow(s: Screen, log: Log)
    requires Ring(s, log)
    ensures s.row <= |log.done|
  {
  }

  lemma OffGrid(s: Screen, log: Log)
    requires !s.OnGrid()
    ensures !Faithful(s, log, [])
  {
    hide Displays;
  }

  /** After an unsafe backspace, the cursor is off the grid at once or the next turn of the ring does not scroll. */
  lemma SlipShows(s: Screen, log: Log) returns (ds: seq<byte>)
    requires Ring(s, log) && s.OnGrid() && !Safe(s, BACKSPACE)
    ensures ds == [] || exists j :: 0 < j <= HEIGHT && ds == Newlines(j) + [LETTER]
    ensures BACKSPACE !in ds && !Faithful(Putc(s, BACKSPACE), Put(log, BACKSPACE), ds)
  {
    hide Ring, Displays, Putc, Put, Settled, Wrapped, Faithful, Page.Shaped, Page.Top;
    SettledRing(s, log);
    PutcSettles(s, log, BACKSPACE);
    var w, l, t := Wrapped(s), Settled(log), Putc(s, BACKSPACE);
    RingCursor(w, l);
    RingCounters(w, l);
    RingRow(w, l);
    GoesUpBy(w, l);
    if w.row == 0 {
      ds := [];
      OffGrid(t, Put(log, BACKSPACE));
    } else {
      ds := Newlines(HEIGHT - t.row) + [LETTER];
      MissesScroll(t, Put(log, BACKSPACE));
    }
  }

  lemma {:induction false} FirstSlip(s: Screen, log: Log, cs: seq<byte>) returns (k: nat)
    requires Ring(s, log) && !Careful(s, cs)
    ensures k < |cs| && Careful(s, cs[..k]) && Screens(s, cs[..k]).Some? && Screens(s, cs[..k]).value.OnGrid()
    ensures !Safe(Screens(s, cs[..k]).value, cs[k])
    decreases |cs|
  {
    hide Ring, Screens, Safe, Put, Logs, Putc, Page.Shaped;
    var before := cs[..|cs| - 1];
    if !Careful(s, before) {
      k := FirstSlip(s, log, before);
      assert before[..k] == cs[..k];
    } else {
      k := |cs| - 1;
      StreamRing(s, log, before);
      RingCounters(Screens(s, before).value, Logs(log, before));
    }
  }

  lemma StreamSlips(s: Screen, log: Log, cs: seq<byte>) returns (k: nat, ds: seq<byte>)
    requires Ring(s, log) && !Careful(s, cs)
    ensures ds == [] || exists j :: 0 < j <= HEIGHT && ds == Newlines(j) + [LETTER]
    ensures k <= |cs| && BACKSPACE !in ds && !Faithful(s, log, cs[..k] + ds)
  {
    hide Ring, Displays, Putc, Put, Screens, Logs, Flushed, Page.Shaped;
    var j := FirstSlip(s, log, cs);
    StreamRing(s, log, cs[..j]);
    var m, l := Screens(s, cs[..j]).value, Logs(log, cs[..j]);
    ds := SlipShows(m, l);
    k := j + 1;
    OneCharacter(m, l, BACKSPACE);
    assert cs[..k] == cs[..j] + [BACKSPACE];
    ScreensJoin(s, cs[..j], [BACKSPACE]);
    LogsJoin(log, cs[..j], [BACKSPACE]);
    ScreensJoin(s, cs[..k], ds);
    LogsJoin(log, cs[..k], ds);
  }

  /** Whatever is written without backspaces after the stream, the display shows the log. */
  ghost predicate KeepsUp(s: Screen, log: Log, cs: seq<byte>)
  {
    forall ds | BACKSPACE !in ds :: Faithful(s, log, cs + ds)
  }

  /**
   Exactly the careful streams are displayed as their logs at every point, and so that anything may follow.
   The others lose the cursor off the grid, or show the wrong lines after at most 25 newlines more and a
   letter (StreamSlips).
   */
  lemma StreamKeepsUp(s: Screen, log: Log, cs: seq<byte>)
    requires Ring(s, log)
    ensures Careful(s, cs) <==> forall k | 0 <= k <= |cs| :: KeepsUp(s, log, cs[..k])
  {
    hide Ring, Screens, Logs, Careful, Faithful;
    if Careful(s, cs) {
      forall k, ds | 0 <= k <= |cs| && BACKSPACE !in ds
        ensures Faithful(s, log, cs[..k] + ds)
      {
        CarefulPrefix(s, cs, k);
        CarefulExtends(s, log, cs[..k], ds);
        CarefulIsFaithful(s, log, cs[..k] + ds);
      }
    } else {
      var k, ds := StreamSlips(s, log, cs);
      assert !KeepsUp(s, log, cs[..k]);
    }
  }

  /** A backspace typed before anything else takes the cursor off the grid: no other character can be put. */
  lemma BackspaceAtPowerOn(c: byte)
    requires c != BACKSPACE
    ensures !Putc(PowerOn(), BACKSPACE).OnGrid() && Screens(PowerOn(), [BACKSPACE, c]) == None
  {
    assert [BACKSPACE, c][..1] == [BACKSPACE];
    OneCharacter(PowerOn(), BlankLog(), BACKSPACE);
  }

  /** A newline and a backspace, right after power-on, are not careful: the next turn of the ring does not scroll. */
  lemma BackspaceUnscrolled()
    ensures !Careful(PowerOn(), [NEWLINE, BACKSPACE])
  {
    var s := PowerOn();
    var m := Putc(s, NEWLINE);
    assert [NEWLINE, BACKSPACE][..1] == [NEWLINE];
    OneCharacter(s, BlankLog(), NEWLINE);
    assert m.start == 0 && m.col == 0;
  }

  // ---- clearing the screen

  /** Clearing restarts the log exactly when the start row is 0; otherwise the next turn does not scroll. */
  lemma ClearedKeepsUp(s: Screen, log: Log)
    requires Ring(s, log) && s.Sized()
    ensures s.start == 0 ==> Ring(Cleared(s), Fresh(Cleared(s).buf))
    ensures s.start == 0 <==> KeepsUp(Cleared(s), Fresh(Cleared(s).buf), [])
  {
    hide Displays, Faithful, Screens, Logs, Rows, Cells, RowAt;
    var t, log1 := Cleared(s), Fresh(Cleared(s).buf);
    RingCounters(s, log);
    if s.start == 0 {
      FreshRing(t);
      forall ds | BACKSPACE !in ds
        ensures Faithful(t, log1, [] + ds)
      {
        CarefulExtends(t, log1, [], ds);
        CarefulIsFaithful(t, log1, [] + ds);
      }
    } else {
      MissesScroll(t, log1);
      var ds := Newlines(HEIGHT) + [LETTER];
      assert [] + ds == ds;
    }
  }

  lemma ScrollsFirst(s: Screen)
    requires s.OnGrid() && s.start == 0 && s.move == 0 && s.row == HEIGHT - 1 && s.col < WIDTH
    ensures Putc(s, NEWLINE).start == 1
  {
    hide Blanked;
  }

  lemma NewlinesCareful(n: nat)
    ensures Careful(PowerOn(), Newlines(n))
  {
    hide Ring, PowerOn;
    PowerOnRing();
    CarefulExtends(PowerOn(), BlankLog(), [], Newlines(n));
    assert [] + Newlines(n) == Newlines(n);
  }

  /** After 25 newlines the start row is 1: a screen cleared then misses its next scroll. */
  lemma ClearedAfterScroll()
    ensures var o := Screens(PowerOn(), Newlines(HEIGHT));
      o.Some? && o.value.start == 1 && o.value.Sized() && !KeepsUp(Cleared(o.value), Fresh(Cleared(o.value).buf), [])
  {
    hide Displays, Faithful, Ring, PowerOn, Careful;
    PowerOnRing();
    PowerOnFields();
    GoesDown(PowerOn(), BlankLog(), HEIGHT - 1);
    var m := Screens(PowerOn(), Newlines(HEIGHT - 1)).value;
    assert Newlines(HEIGHT)[..HEIGHT - 1] == Newlines(HEIGHT - 1);
    ScrollsFirst(m);
    NewlinesCareful(HEIGHT);
    StreamRing(PowerOn(), BlankLog(), Newlines(HEIGHT));
    ClearedKeepsUp(Screens(PowerOn(), Newlines(HEIGHT)).value, Logs(BlankLog(), Newlines(HEIGHT)));
  }

  // ---- what the bottom row starts out with

  lemma CellsAre(a: seq<byte>, b: seq<byte>)
    requires |a| == |b| && Cells(a) == Cells(b)
    ensures a == b
  {
    forall c | 0 <= c < |a|
      ensures a[c] == b[c]
    {
      assert Cells(a)[2 * c] == a[c] && Cells(b)[2 * c] == b[c];
    }
  }

  /** A line that the window scrolls to starts out blank, unless it is the first such line and the very first is not. */
  lemma BottomRow(log: Log, line: Line)
    requires log.under == []
    ensures Finished(log, line).ahead == BlankRow() <==>
      log.Scrolled() || (log.done + [line])[0] == Spaces(WIDTH)
  {
    hide Cells;
    var first := (log.done + [line])[0];
    if Cells(first) == Cells(Spaces(WIDTH)) {
      CellsAre(first, Spaces(WIDTH));
    }
  }

  lemma NoStream(s: Screen)
    ensures Careful(s, [])
  {
  }

  lemma NewlineFinishes(log: Log)
    requires |log.cur| < WIDTH
    ensures Put(log, NEWLINE) == Finished(log, Padded(log.cur))
  {
    hide Cells, BlankRow;
  }

  lemma LetterFirst()
    ensures var log := Put(BlankLog(), LETTER); log.done == [] && log.cur == [LETTER] && log.Top() == HEIGHT - 1
  {
    hide Cells, BlankRow, PowerOn;
  }

  lemma {:induction false} FirstLine(n: nat)
    requires n <= HEIGHT
    ensures var log := Logs(BlankLog(), [LETTER] + Newlines(n));
      && |log.done| == n && log.Top() == (if n < HEIGHT then HEIGHT - 1 else HEIGHT)
      && (if n == 0 then log.cur == [LETTER] else log.cur == [] && log.done[0] == Padded([LETTER]))
      && (n == HEIGHT ==> log.ahead == Cells(Padded([LETTER])))
  {
    hide Cells, BlankRow, Padded, PowerOn, Put;
    var cs := [LETTER] + Newlines(n);
    if n == 0 {
      assert cs == [LETTER];
      assert Logs(BlankLog(), cs[..0]) == BlankLog();
      LetterFirst();
    } else {
      FirstLine(n - 1);
      NewlineFinishes(Logs(BlankLog(), [LETTER] + Newlines(n - 1)));
      assert cs[..|cs| - 1] == [LETTER] + Newlines(n - 1);
    }
  }

  /** A letter and 25 newlines: the display then shows the letter at the start of its last row. */
  lemma FirstScroll()
    ensures var o := Screens(PowerOn(), [LETTER] + Newlines(HEIGHT));
      o.Some? && o.value.OnGrid() && RowAt(Flushed(o.value), HEIGHT - 1) == Cells(Padded([LETTER]))
  {
    hide Ring, PowerOn, Cells, RowAt, Flushed, Screens, Careful, Padded;
    PowerOnRing();
    var cs := [LETTER] + Newlines(HEIGHT);
    NoStream(PowerOn());
    CarefulExtends(PowerOn(), BlankLog(), [], cs);
    assert [] + cs == cs;
    StreamRing(PowerOn(), BlankLog(), cs);
    var s, log := Screens(PowerOn(), cs).value, Logs(BlankLog(), cs);
    RingCounters(s, log);
    FlushShows(s, log);
    FirstLine(HEIGHT);
    NoCells();
    assert Cells([]) + log.ahead == log.ahead;
    assert RowAt(Flushed(s), HEIGHT - 1) == WindowRow(log, HEIGHT - 1);
  }

  // ---- the log itself

  lemma PlainCharacter(log: Log, c: byte)
    requires c != NEWLINE && c != BACKSPACE
    ensures var r := Put(log, c); Joined(r.done) + r.cur == Joined(log.done) + log.cur + [c]
  {
    hide Cells, BlankRow;
    var r := Put(log, c);
    if |log.cur| == WIDTH {
      assert r.done[..|r.done| - 1] == log.done;
      assert Joined(r.done) == Joined(log.done) + log.cur;
    } else {
      assert Joined(r.done) + (log.cur + [c]) == Joined(log.done) + log.cur + [c];
    }
  }

  /** Text without newlines and backspaces is only broken into lines: no character is lost, added or moved. */
  lemma {:induction false} PlainText(log: Log, cs: seq<byte>)
    requires NEWLINE !in cs && BACKSPACE !in cs
    ensures var r := Logs(log, cs); Joined(r.done) + r.cur == Joined(log.done) + log.cur + cs
    decreases |cs|
  {
    hide Put;
    if cs == [] {
      assert log.cur + cs == log.cur;
    } else {
      var before, c := cs[..|cs| - 1], cs[|cs| - 1];
      assert NEWLINE !in before && BACKSPACE !in before;
      PlainText(log, before);
      PlainCharacter(Logs(log, before), c);
      assert cs == before + [c];
    }
  }

  // ---- printing a text

  lemma NoCharacter(s: Screen, cs: seq<byte>)
    requires cs == []
    ensures Screens(s, cs) == Some(s)
  {
  }

  lemma StreamStep(s: Screen, log: Log, cs: seq<byte>, i: nat)
    requires i < |cs| && Ring(s, log) && Careful(s, cs)
    ensures Screens(s, cs[..i]).Some? && Screens(s, cs[..i]).value.OnGrid()
    ensures Screens(s, cs[..i + 1]) == Some(Putc(Screens(s, cs[..i]).value, cs[i]))
  {
    hide Ring, Putc, Logs, Careful;
    CarefulPrefix(s, cs, i);
    StreamRing(s, log, cs[..i]);
    RingCounters(Screens(s, cs[..i]).value, Logs(log, cs[..i]));
    assert cs[..i + 1][..i] == cs[..i];
  }

  /** Every character of a text is put, and the display flushed once at the end. */
  method Print(console: Console, str: seq<byte>, ghost log: Log)
    requires console.Valid() && Ring(console.State(), log) && Careful(console.State(), str)
    modifies console.buf, console.vram, console`row, console`col, console`startRow, console`moveRow
    ensures Screens(old(console.State()), str) == Some(console.State())
    ensures Ring(console.State(), Logs(log, str)) && Displays(console.vram[..], Logs(log, str))
  {
    hide Ring, Putc, Logs, Displays, Flushed, Screens, Careful;
    ghost var was := console.State();
    assert Screens(was, str[..0]) == Some(was) by {
      NoCharacter(was, str[..0]);
    }
    for i := 0 to |str|
      invariant Screens(was, str[..i]) == Some(console.State())
    {
      StreamStep(was, log, str, i);
      console.Put(str[i]);
    }
    assert str[..|str|] == str;
    StreamRing(was, log, str);
    RingCounters(console.State(), Logs(log, str));
    FlushShows(console.State(), Logs(log, str));
    console.Flush();
  }
}
