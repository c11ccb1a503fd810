/**
 The ring as a terminal: an unbounded log of finished lines, the line being written, and what stands right
 of the cursor and below it. The ring holds the end of the log, byte for byte.
 */
module ConsoleLog {
  import opened Bytes
  import opened ConsoleSpec
  import opened ConsoleRows

  type Line = l: seq<byte> | |l| == WIDTH witness Spaces(WIDTH)

  /**
   ahead: the cells from the cursor to the end of its row. under: the rows below the cursor's, as far down
   as the window reaches.
   */
  datatype Page = Page(done: seq<Line>, cur: seq<byte>, ahead: seq<byte>, under: seq<Row>) {
    /** The number of the window's last line; 24 until the window first scrolls. */
    function Top(): nat {
      |done| + |under|
    }

    predicate Scrolled() {
      Top() >= HEIGHT
    }

    predicate Shaped() {
      |cur| <= WIDTH && |ahead| == ROW_BYTES - 2 * |cur| && Top() >= HEIGHT - 1
    }

    /** The lines that the window reaches below the cursor because they were reopened. */
    function Reopened(): nat {
      if Scrolled() then |under| else 0
    }

    /** The cells of line i, whether finished, being written, or below. */
    function LineAt(i: nat): Row
      requires Shaped() && i <= Top()
    {
      if i < |done| then Cells(done[i])
      else if i == |done| then Cells(cur) + ahead
      else under[i - |done| - 1]
    }

    /** The first line that the window still holds: the very first until it scrolls, then the 23rd above the last. */
    function Oldest(): nat {
      if Scrolled() then Top() - (HEIGHT - 2) else 0
    }
  }

  function Unwritten(): (p: Page)
    ensures p.Shaped()
  {
    Page([], [], BlankRow(), seq(HEIGHT - 1, _ => BlankRow()))
  }

  type Log = p: Page | p.Shaped() witness Unwritten()

  function Padded(cur: seq<byte>): (l: Line)
    requires |cur| <= WIDTH
  {
    cur + Spaces(WIDTH - |cur|)
  }

  /**
   The log goes on below this line. Where the window scrolls, the next line is blank; but when it scrolls
   for the first time, the next line starts out with what the very first line holds.
   */
  function Finished(log: Log, line: Line): (r: Log)
    ensures r.done == log.done + [line] && r.cur == []
  {
    var done := log.done + [line];
    if log.under != [] then Page(done, [], log.under[0], log.under[1..])
    else Page(done, [], if log.Scrolled() then BlankRow() else Cells(done[0]), [])
  }

  /** A full line is finished by the next character, whatever that is. */
  function Settled(log: Log): (r: Log)
    ensures |r.cur| < WIDTH
  {
    if |log.cur| == WIDTH then Finished(log, log.cur) else log
  }

  /**
   A character goes over the first cell ahead. A newline blanks what is ahead. A backspace takes the cursor
   back over a cell and leaves it standing, or else reopens the line above at its last cell.
   */
  function Put(log: Log, c: byte): Log {
    var l := Settled(log);
    if c == NEWLINE then Finished(l, Padded(l.cur))
    else if c != BACKSPACE then Page(l.done, l.cur + [c], l.ahead[2..], l.under)
    else if l.cur != [] then
      var n := |l.cur| - 1;
      Page(l.done, l.cur[..n], Cells(l.cur[n..]) + l.ahead, l.under)
    else if l.done != [] then
      var last := l.done[|l.done| - 1];
      Page(l.done[..|l.done| - 1], last[..WIDTH - 1], Cells(last[WIDTH - 1..]), [l.ahead] + l.under)
    else l
  }

  /**
   In a line with room: a newline, 10, finishes it, filled up with spaces; a backspace, 8, takes its last
   character off; any other character goes to its end.
   */
  lemma PutCharacters(log: Log, c: byte)
    requires |log.cur| < 80
    ensures c == 10 ==>
      var (r, n) := (Put(log, c), |log.done|);
      && |r.done| == n + 1 && r.done[..n] == log.done && r.cur == []
      && forall i | 0 <= i < 80 :: r.done[n][i] == if i < |log.cur| then log.cur[i] else 32
    ensures c == 8 && log.cur != [] ==>
      Put(log, c).done == log.done && Put(log, c).cur + [log.cur[|log.cur| - 1]] == log.cur
    ensures c != 10 && c != 8 ==> Put(log, c).done == log.done && Put(log, c).cur == log.cur + [c]
  {
    hide Cells, BlankRow;
  }

  // ---- the refinement relation

  /** The counters are where the log puts them; the reopened rows are those between cursor and start row. */
  predicate Counters(s: Screen, log: Log) {
    && |s.buf| == BUF_BYTES
    && s.row == |log.done| % HEIGHT && s.col == |log.cur| && s.start == (log.Top() + 1) % HEIGHT
    && (log.Reopened() == 0 || log.Reopened() < s.start) && s.move == s.start - log.Reopened()
  }

  /** Every row of the ring is a line of the log, or the blank row above the window's first. */
  ghost predicate Rows(buf: seq<byte>, log: Log)
    requires |buf| == BUF_BYTES
  {
    && (forall i | log.Oldest() <= i <= log.Top() :: RowAt(buf, i % HEIGHT) == log.LineAt(i))
    && (log.Scrolled() ==> RowAt(buf, (log.Top() + 1) % HEIGHT) == BlankRow())
  }

  ghost predicate Ring(s: Screen, log: Log) {
    Counters(s, log) && Rows(s.buf, log)
  }

  /** Two lines less than a turn of the ring apart lie in different rows. */
  lemma RowsApart(i: nat, j: nat)
    requires i < j < i + HEIGHT || j < i < j + HEIGHT
    ensures i % HEIGHT != j % HEIGHT
  {
  }

  /** A log that starts out on whatever the buffer holds. */
  function Fresh(buf: seq<byte>): (log: Log)
    requires |buf| == BUF_BYTES
    ensures log.done == [] && log.cur == [] && !log.Scrolled()
  {
    Page([], [], RowAt(buf, 0), seq(HEIGHT - 1, j requires 0 <= j < HEIGHT - 1 => RowAt(buf, j + 1)))
  }

  lemma NoCells()
    ensures Cells([]) == []
  {
  }

  lemma FreshRing(s: Screen)
    requires |s.buf| == BUF_BYTES && s.row == s.col == s.start == s.move == 0
    ensures Ring(s, Fresh(s.buf))
  {
    hide RowAt, Cells;
    var log := Fresh(s.buf);
    forall i | 0 <= i < HEIGHT
      ensures RowAt(s.buf, i % HEIGHT) == log.LineAt(i)
    {
      assert i % HEIGHT == i;
      NoCells();
    }
  }

  // ---- one character

  lemma NextRow(n: nat)
    ensures (n % HEIGHT + 1) % HEIGHT == (n + 1) % HEIGHT
    ensures (n + 1) % HEIGHT == if n % HEIGHT == HEIGHT - 1 then 0 else n % HEIGHT + 1
  {
    var q, r := n / HEIGHT, n % HEIGHT;
    if r == HEIGHT - 1 {
      assert n + 1 == HEIGHT * (q + 1);
    } else {
      assert n + 1 == HEIGHT * q + (r + 1);
    }
  }

  /** Going back fewer rows than there are above does not go round. */
  lemma RowsBack(n: nat, b: nat)
    requires b <= n && b <= n % HEIGHT
    ensures (n - b) % HEIGHT == n % HEIGHT - b
  {
    assert n - b == HEIGHT * (n / HEIGHT) + (n % HEIGHT - b);
  }

  /** Cursor and start row are on the grid, and above the start row the cursor is by the reopened lines and one. */
  lemma RingCounters(s: Screen, log: Log)
    requires Ring(s, log)
    ensures s.OnGrid() && s.col == |log.cur|
    ensures s.start == 0 || s.row + log.Reopened() + 1 == s.start
    ensures s.move == s.start - log.Reopened() && (s.start == 0 ==> log.Reopened() == 0)
    ensures s.start > 0 ==> log.Scrolled()
    ensures s.row <= |log.done|
  {
    hide Rows;
    if s.start > 0 {
      NextRow(log.Top());
      RowsBack(log.Top(), log.Reopened());
    }
  }

  /** A change of the cursor's row only. */
  lemma EditRow(s: Screen, log: Log, buf: seq<byte>, cur: seq<byte>, ahead: seq<byte>)
    requires Ring(s, log) && |buf| == BUF_BYTES && |cur| <= WIDTH && |ahead| == ROW_BYTES - 2 * |cur|
    requires RowAt(buf, s.row) == Cells(cur) + ahead
    requires forall r | 0 <= r < HEIGHT && r != s.row :: RowAt(buf, r) == RowAt(s.buf, r)
    ensures Ring(s.(buf := buf, col := |cur|), Page(log.done, cur, ahead, log.under))
  {
    hide RowAt, Cells, BlankRow;
    var n, top := |log.done|, log.Top();
    var next: Log := Page(log.done, cur, ahead, log.under);
    forall i | log.Oldest() <= i <= top
      ensures RowAt(buf, i % HEIGHT) == next.LineAt(i)
    {
      if i != n {
        RowsApart(i, n);
        assert next.LineAt(i) == log.LineAt(i);
      }
    }
    if log.Scrolled() {
      RowsApart(n, top + 1);
    }
  }

  /** Going down: the counters, and the one row that is blanked, exactly when the window has scrolled or scrolls now. */
  lemma AdvanceCounters(s: Screen, log: Log)
    requires Counters(s, log) && |log.cur| == WIDTH
    ensures var r, next := Advance(s), Finished(log, log.cur);
      && Counters(r, next)
      && r.buf == if next.Scrolled() then Blanked(s.buf, r.start, 0) else s.buf
  {
    hide Blanked, Cells, BlankRow;
    NextRow(|log.done|);
    NextRow(log.Top() + 1);
  }

  lemma AdvanceLine(log: Log, i: nat)
    requires |log.cur| == WIDTH && i <= log.Top()
    ensures Finished(log, log.cur).LineAt(i) == log.LineAt(i)
  {
    hide Cells, BlankRow;
    assert log.ahead == [];
    assert Cells(log.cur) + [] == Cells(log.cur);
    NoCells();
    assert [] + Finished(log, log.cur).ahead == Finished(log, log.cur).ahead;
  }

  lemma BlankWhole(buf: seq<byte>, row: nat)
    requires |buf| == BUF_BYTES && row < HEIGHT
    ensures RowAt(buf, row)[..2 * 0] + Cells(Spaces(WIDTH - 0)) == BlankRow()
  {
  }

  lemma FinishedLast(log: Log)
    requires |log.cur| == WIDTH && log.under == []
    ensures var next := Finished(log, log.cur);
      next.Top() == log.Top() + 1
      && next.LineAt(next.Top()) == if log.Scrolled() then BlankRow() else log.LineAt(0)
  {
    hide Cells, BlankRow;
    var next := Finished(log, log.cur);
    NoCells();
    assert Cells([]) + next.ahead == next.ahead;
    if !log.Scrolled() {
      assert next.done[0] == log.done[0];
    }
  }

  /** The line that the window scrolls to: its row was blanked before, but for the first time. */
  lemma ScrolledLine(buf: seq<byte>, log: Log)
    requires |buf| == BUF_BYTES && Rows(buf, log) && |log.cur| == WIDTH && log.under == []
    ensures var next := Finished(log, log.cur);
      next.Top() == log.Top() + 1 && RowAt(buf, next.Top() % HEIGHT) == next.LineAt(next.Top())
  {
    hide RowAt, Cells, BlankRow, Finished;
    FinishedLast(log);
    if !log.Scrolled() {
      assert RowAt(buf, 0 % HEIGHT) == log.LineAt(0);
      assert (log.Top() + 1) % HEIGHT == 0;
    }
  }

  /** Before the blanking, every line of the longer window is where the ring has its row. */
  lemma AdvancedLine(buf: seq<byte>, log: Log, i: nat)
    requires |buf| == BUF_BYTES && Rows(buf, log) && |log.cur| == WIDTH
    requires Finished(log, log.cur).Oldest() <= i <= Finished(log, log.cur).Top()
    ensures RowAt(buf, i % HEIGHT) == Finished(log, log.cur).LineAt(i)
  {
    hide RowAt, Cells, BlankRow;
    if i <= log.Top() {
      AdvanceLine(log, i);
    } else {
      ScrolledLine(buf, log);
    }
  }

  /** Finishing a full line moves the ring on by one line. */
  lemma AdvanceRing(s: Screen, log: Log)
    requires Ring(s, log) && |log.cur| == WIDTH
    ensures Ring(Advance(s), Finished(log, log.cur))
  {
    hide Advance, Blanked, RowAt, Cells, BlankRow, Finished;
    AdvanceCounters(s, log);
    var r, next := Advance(s), Finished(log, log.cur);
    if next.Scrolled() {
      BlankedRow(s.buf, r.start, 0);
      BlankWhole(s.buf, r.start);
    }
    forall i | next.Oldest() <= i <= next.Top()
      ensures RowAt(r.buf, i % HEIGHT) == next.LineAt(i)
    {
      AdvancedLine(s.buf, log, i);
      if next.Scrolled() {
        RowsApart(i, next.Top() + 1);
      }
    }
  }

  /** A backspace at the start of a row, the pending wrap included: the cursor is to go up. */
  predicate GoesUp(s: Screen, c: byte)
    requires s.Sized()
  {
    c == BACKSPACE && Wrapped(s).col == 0
  }

  /** The code can send the cursor up only in a scrolled ring, and not from the ring's first row. */
  predicate Safe(s: Screen, c: byte)
    requires s.Sized()
  {
    GoesUp(s, c) ==> Wrapped(s).start > 0 && Wrapped(s).row > 0
  }

  lemma ReopenLine(log: Log, i: nat)
    requires log.cur == [] && log.done != [] && i <= log.Top()
    ensures var next := Put(log, BACKSPACE); next.Top() == log.Top() && next.LineAt(i) == log.LineAt(i)
  {
    hide Cells;
    var n := |log.done| - 1;
    var last := log.done[n];
    NoCells();
    assert Cells([]) + log.ahead == log.ahead;
    if i == n {
      CellsAppend(last[..WIDTH - 1], last[WIDTH - 1..]);
      assert last[..WIDTH - 1] + last[WIDTH - 1..] == last;
    }
  }

  lemma ReopenCounters(s: Screen, log: Log)
    requires Counters(s, log) && log.cur == [] && s.start > 0 && s.row > 0
    requires log.Scrolled() && s.row + log.Reopened() + 1 == s.start && s.row <= |log.done|
    ensures Counters(Putc(s, BACKSPACE), Put(log, BACKSPACE))
    ensures Put(log, BACKSPACE).Top() == log.Top() && Putc(s, BACKSPACE).buf == s.buf
  {
    hide Cells;
    RowsBack(|log.done|, 1);
  }

  /** Going up reopens the last finished line. */
  lemma ReopenRing(s: Screen, log: Log)
    requires Ring(s, log) && log.cur == [] && s.start > 0 && s.row > 0
    ensures Ring(Putc(s, BACKSPACE), Put(log, BACKSPACE))
  {
    hide RowAt, Cells, BlankRow, Advance, Put;
    RingCounters(s, log);
    var next, r := Put(log, BACKSPACE), Putc(s, BACKSPACE);
    ReopenCounters(s, log);
    forall i | next.Oldest() <= i <= next.Top()
      ensures RowAt(r.buf, i % HEIGHT) == next.LineAt(i)
    {
      ReopenLine(log, i);
    }
  }

  lemma RingCursor(s: Screen, log: Log)
    requires Ring(s, log)
    ensures s.col == |log.cur| && s.OnGrid() && RowAt(s.buf, s.row) == Cells(log.cur) + log.ahead
  {
    assert RowAt(s.buf, |log.done| % HEIGHT) == log.LineAt(|log.done|);
  }

  lemma PaddedCells(log: Log)
    ensures (Cells(log.cur) + log.ahead)[..2 * |log.cur|] + Cells(Spaces(WIDTH - |log.cur|))
         == Cells(Padded(log.cur)) + []
  {
    hide Cells;
    CellsAppend(log.cur, Spaces(WIDTH - |log.cur|));
    assert (Cells(log.cur) + log.ahead)[..2 * |log.cur|] == Cells(log.cur);
  }

  lemma AdvanceAnyColumn(s: Screen, col: byte)
    requires s.OnGrid() && col <= WIDTH
    ensures Advance(s.(col := col)) == Advance(s)
  {
  }

  lemma NewlineRing(s: Screen, log: Log)
    requires Ring(s, log) && s.OnGrid() && |log.cur| < WIDTH
    ensures Ring(Putc(s, NEWLINE), Put(log, NEWLINE))
  {
    hide Ring, Advance, RowAt, Cells, BlankRow, Blanked, Padded;
    RingCursor(s, log);
    var buf, line := Blanked(s.buf, s.row, s.col), Padded(log.cur);
    BlankedRow(s.buf, s.row, s.col);
    PaddedCells(log);
    EditRow(s, log, buf, line, []);
    var full := s.(buf := buf, col := WIDTH);
    AdvanceRing(full, Page(log.done, line, [], log.under));
    AdvanceAnyColumn(full, s.col);
    assert Putc(s, NEWLINE) == Advance(full.(col := s.col));
  }

  lemma GlyphRing(s: Screen, log: Log, c: byte)
    requires Ring(s, log) && s.OnGrid() && |log.cur| < WIDTH && c != NEWLINE && c != BACKSPACE
    ensures Ring(Putc(s, c), Put(log, c))
  {
    hide Ring, Advance, RowAt, Cells, BlankRow;
    RingCursor(s, log);
    var buf, n := WithCell(s.buf, s.row, s.col, c), 2 * |log.cur|;
    WithCellRow(s.buf, s.row, s.col, c);
    CellsAppend(log.cur, [c]);
    var row := Cells(log.cur) + log.ahead;
    assert row[..n] == Cells(log.cur) && row[n + 2..] == log.ahead[2..];
    EditRow(s, log, buf, log.cur + [c], log.ahead[2..]);
    assert Putc(s, c) == s.(buf := buf, col := |log.cur| + 1);
  }

  lemma TakeBackRing(s: Screen, log: Log)
    requires Ring(s, log) && s.OnGrid() && 0 < |log.cur| < WIDTH
    ensures Ring(Putc(s, BACKSPACE), Put(log, BACKSPACE))
  {
    hide Ring, Advance, RowAt, Cells, BlankRow;
    RingCursor(s, log);
    var n := |log.cur| - 1;
    CellsAppend(log.cur[..n], log.cur[n..]);
    assert log.cur[..n] + log.cur[n..] == log.cur;
    EditRow(s, log, s.buf, log.cur[..n], Cells(log.cur[n..]) + log.ahead);
    assert Putc(s, BACKSPACE) == s.(buf := s.buf, col := n);
  }

  lemma SettledRing(s: Screen, log: Log)
    requires Ring(s, log) && s.OnGrid()
    ensures Ring(Wrapped(s), Settled(log))
  {
    hide Rows, Advance, Cells;
    if |log.cur| == WIDTH {
      AdvanceRing(s, log);
    }
  }

  /** Screen and log both settle before they take a character. */
  lemma PutcSettles(s: Screen, log: Log, c: byte)
    requires s.OnGrid()
    ensures Putc(Wrapped(s), c) == Putc(s, c) && Put(Settled(log), c) == Put(log, c)
  {
    hide Advance, Blanked, WithCell, Cells, Finished;
  }

  /** Every safe character takes a ring that holds a log to the ring that holds the log with the character. */
  lemma PutcRing(s: Screen, log: Log, c: byte)
    requires Ring(s, log) && s.OnGrid() && Safe(s, c)
    ensures Ring(Putc(s, c), Put(log, c))
  {
    hide Ring, Advance, RowAt, Cells, Put, Putc;
    RingCursor(s, log);
    SettledRing(s, log);
    var w, l := Wrapped(s), Settled(log);
    RingCursor(w, l);
    PutcSettles(s, log, c);
    if c == NEWLINE {
      NewlineRing(w, l);
    } else if c != BACKSPACE {
      GlyphRing(w, l, c);
    } else if l.cur != [] {
      TakeBackRing(w, l);
    } else {
      ReopenRing(w, l);
    }
  }

  /** Whatever the log: a stored character changes the two bytes of its cell, a backspace none. */
  lemma PutcStores(s: Screen, c: byte, x: nat)
    requires s.Takes(c) && c != NEWLINE && x < BUF_BYTES
    ensures var w, r := Wrapped(s), Putc(s, c);
      r.buf[x] == if c == BACKSPACE || x / 2 != WIDTH * w.row + w.col then w.buf[x] else if x % 2 == 0 then c else COLOR
  {
    hide Advance;
    var w := Wrapped(s);
    assert Idx(w.row, w.col) == 2 * (WIDTH * w.row + w.col);
  }
}
