/** What the display shows after a flush, byte for byte, and after clearing the screen. */
module ConsoleDisplay {
  import opened Bytes
  import opened ConsoleSpec
  import opened ConsoleRows
  import opened ConsoleLog

  /** The window's rows from the top: a blank one once it has scrolled, and then its lines in order. */
  function WindowRow(log: Log, k: nat): Row
    requires k < HEIGHT
  {
    if k == 0 && log.Scrolled() then BlankRow() else log.LineAt(log.Top() - (HEIGHT - 1) + k)
  }

  /** All 25 rows: the finished lines, the line being written with what stands ahead of it, the rows below. */
  ghost predicate Displays(vram: seq<byte>, log: Log) {
    |vram| == BUF_BYTES && forall k | 0 <= k < HEIGHT :: RowAt(vram, k) == WindowRow(log, k)
  }

  /** Byte x of display row k is byte x of ring row start + k. */
  lemma FlushedByte(s: Screen, k: nat, x: nat)
    requires s.Sized() && k < HEIGHT && x < ROW_BYTES
    ensures Idx((s.start + k) % HEIGHT, 0) + x < BUF_BYTES
    ensures Flushed(s)[Idx(k, 0) + x] == s.buf[Idx((s.start + k) % HEIGHT, 0) + x]
  {
    if s.start + k >= HEIGHT {
      assert (s.start + k) % HEIGHT == s.start + k - HEIGHT;
    }
  }

  /** Display row k is the ring's row start + k. */
  lemma FlushedRow(s: Screen, k: nat)
    requires s.Sized() && k < HEIGHT
    ensures RowAt(Flushed(s), k) == RowAt(s.buf, (s.start + k) % HEIGHT)
  {
    hide Flushed;
    var r := (s.start + k) % HEIGHT;
    forall x | 0 <= x < ROW_BYTES
      ensures RowAt(Flushed(s), k)[x] == RowAt(s.buf, r)[x]
    {
      FlushedByte(s, k, x);
    }
  }

  lemma TurnsVanish(x: nat, q: nat)
    ensures (x + HEIGHT * q) % HEIGHT == x % HEIGHT
  {
  }

  /** From the start row on, ring rows are display rows. */
  lemma RingToDisplay(top: nat, k: nat)
    requires top >= HEIGHT - 1 && k < HEIGHT
    ensures ((top + 1) % HEIGHT + k) % HEIGHT == (top - (HEIGHT - 1) + k) % HEIGHT
  {
    var q, r := (top + 1) / HEIGHT, (top + 1) % HEIGHT;
    assert top + 1 == HEIGHT * q + r;
    TurnsVanish(r + k, q - 1);
    assert top - (HEIGHT - 1) + k == (r + k) + HEIGHT * (q - 1);
  }

  /** A ring that holds a log is flushed to a display of that log. */
  lemma FlushShows(s: Screen, log: Log)
    requires Ring(s, log)
    ensures s.OnGrid() && Displays(Flushed(s), log)
  {
    hide RowAt, Idx, Flushed, Cells, BlankRow;
    RingCounters(s, log);
    forall k | 0 <= k < HEIGHT
      ensures RowAt(Flushed(s), k) == WindowRow(log, k)
    {
      FlushedRow(s, k);
      RingToDisplay(log.Top(), k);
    }
  }

  lemma BlankRowAt(x: nat)
    requires x < ROW_BYTES
    ensures BlankRow()[x] == BlankByte(x)
  {
    BlankCell(WIDTH, x);
  }

  /** Clearing blanks all display rows but the last, which keeps what ring row 24 held. */
  lemma ClearedDisplay(s: Screen, k: nat)
    requires |s.buf| == BUF_BYTES && k < HEIGHT
    ensures RowAt(Flushed(Cleared(s)), k) == if k < HEIGHT - 1 then BlankRow() else RowAt(s.buf, k)
  {
    hide Cells, BlankRow, Flushed;
    var t := Cleared(s);
    FlushedRow(t, k);
    assert (t.start + k) % HEIGHT == k;
    forall x | 0 <= x < ROW_BYTES
      ensures RowAt(t.buf, k)[x] == if k < HEIGHT - 1 then BlankRow()[x] else RowAt(s.buf, k)[x]
    {
      BlankByteAt(k, x);
      BlankRowAt(x);
    }
  }

  lemma LineCell(log: Log, i: nat, c: nat)
    requires i <= |log.done| && c < if i < |log.done| then 80 else |log.cur|
    ensures log.LineAt(i)[2 * c] == (if i < |log.done| then log.done[i] else log.cur)[c]
    ensures log.LineAt(i)[2 * c + 1] == 10
  {
  }

  /** The display row of line i. */
  function RowOf(log: Log, i: nat): nat
    requires log.Oldest() <= i <= log.Top()
  {
    HEIGHT - 1 - (log.Top() - i)
  }

  lemma DisplayedRow(vram: seq<byte>, log: Log, i: nat)
    requires Displays(vram, log) && log.Oldest() <= i <= log.Top()
    ensures |vram| == BUF_BYTES && RowOf(log, i) < HEIGHT && RowAt(vram, RowOf(log, i)) == log.LineAt(i)
  {
    hide Cells, BlankRow, RowAt;
    assert RowAt(vram, RowOf(log, i)) == WindowRow(log, RowOf(log, i));
  }

  lemma RowByte(vram: seq<byte>, k: nat, x: nat)
    requires |vram| == BUF_BYTES && k < HEIGHT && x < ROW_BYTES
    ensures 160 * k + x < BUF_BYTES && vram[160 * k + x] == RowAt(vram, k)[x]
  {
  }

  /** In numbers: where the character at column c of line i stands on the display. */
  lemma DisplayedAt(vram: seq<byte>, log: Log, i: nat, c: nat)
    requires Displays(vram, log) && log.Oldest() <= i <= |log.done| && c < if i < |log.done| then 80 else |log.cur|
    ensures var at := 160 * (24 - (log.Top() - i)) + 2 * c;
      0 <= at < |vram| - 1 && vram[at] == (if i < |log.done| then log.done[i] else log.cur)[c] && vram[at + 1] == 10
  {
    hide Displays, Page.LineAt, RowAt;
    DisplayedRow(vram, log, i);
    LineCell(log, i, c);
    RowByte(vram, RowOf(log, i), 2 * c);
    RowByte(vram, RowOf(log, i), 2 * c + 1);
  }
}
