/**
 The text console of kernel/drivers/vga/vga.c: a ring of 25 rows of 80 two-byte cells, a cursor, the
 row shown at the top of the screen, and the row counter that is meant to follow it.
 */
module ConsoleSpec {
  import opened Bytes

  const WIDTH := 80
  const HEIGHT := 25
  const ROW_BYTES := 160
  const BUF_BYTES := 4000
  const COLOR: byte := 10
  const SPACE: byte := 32
  const NEWLINE: byte := 10
  const BACKSPACE: byte := 8

  /** The four counters are unsigned bytes. */
  datatype Screen = Screen(buf: seq<byte>, row: byte, col: byte, start: byte, move: byte) {
    predicate Sized() {
      |buf| == BUF_BYTES && col <= WIDTH && start < HEIGHT
    }

    /** The cursor is on the grid, or just past the end of its row. */
    predicate OnGrid() {
      Sized() && row < HEIGHT
    }

    /** Putting this character stores nothing outside the buffer. */
    predicate Takes(c: byte) {
      Sized() && (row < HEIGHT || col == WIDTH || c == BACKSPACE)
    }
  }

  function Idx(row: nat, col: nat): nat {
    row * ROW_BYTES + col * 2
  }

  function WithCell(buf: seq<byte>, row: nat, col: nat, c: byte): (r: seq<byte>)
    requires |buf| == BUF_BYTES && row < HEIGHT && col < WIDTH
    ensures |r| == BUF_BYTES
  {
    buf[Idx(row, col) := c][Idx(row, col) + 1 := COLOR]
  }

  /** A blank cell is a space, in the console's colour. */
  function BlankByte(x: nat): byte {
    if x % 2 == 0 then SPACE else COLOR
  }

  /** The cells of a row from a column on, blanked. */
  function Blanked(buf: seq<byte>, row: nat, from: nat): (r: seq<byte>)
    requires |buf| == BUF_BYTES && row < HEIGHT && from <= WIDTH
    ensures |r| == BUF_BYTES
    ensures forall x | 0 <= x < BUF_BYTES ::
      r[x] == if Idx(row, from) <= x < Idx(row, WIDTH) then BlankByte(x) else buf[x]
  {
    seq(BUF_BYTES, x requires 0 <= x < BUF_BYTES =>
      if Idx(row, from) <= x < Idx(row, WIDTH) then BlankByte(x) else buf[x])
  }

  /** The cursor goes to the next row; past the bottom of the ring, the screen scrolls. */
  function Advance(s: Screen): (r: Screen)
    requires s.Sized()
    ensures r.OnGrid() && r.col == 0
  {
    var row := (s.row + 1) % HEIGHT;
    if s.start > 0 || row == 0 then
      var start := if s.move == s.start then (s.start + 1) % HEIGHT else s.start;
      var move := if s.move == s.start then start else (s.move + 1) % 0x100;
      Screen(Blanked(s.buf, start, 0), row, 0, start, move)
    else
      s.(row := row, col := 0)
  }

  /** A full row is left only when the next character comes. */
  function Wrapped(s: Screen): (r: Screen)
    requires s.Sized()
    ensures r.Sized() && r.col < WIDTH && (s.row < HEIGHT || s.col == WIDTH ==> r.row < HEIGHT)
  {
    if s.col == WIDTH then Advance(s) else s
  }

  function Putc(s: Screen, c: byte): (r: Screen)
    requires s.Takes(c)
    ensures r.Sized()
  {
    var w := Wrapped(s);
    if c == NEWLINE then Advance(w.(buf := Blanked(w.buf, w.row, w.col)))
    else if c == BACKSPACE then
      if w.col == 0 then w.(col := WIDTH - 1, row := (w.row - 1) % 0x100, move := (w.move - 1) % 0x100)
      else w.(col := w.col - 1)
    else w.(buf := WithCell(w.buf, w.row, w.col, c), col := w.col + 1)
  }

  /** The rows above this one, blanked. */
  function BlankedAbove(buf: seq<byte>, row: nat): (r: seq<byte>)
    requires |buf| == BUF_BYTES && row <= HEIGHT
    ensures |r| == BUF_BYTES
    ensures forall x | 0 <= x < BUF_BYTES :: r[x] == if x < Idx(row, 0) then BlankByte(x) else buf[x]
  {
    seq(BUF_BYTES, x requires 0 <= x < BUF_BYTES => if x < Idx(row, 0) then BlankByte(x) else buf[x])
  }

  lemma BlankNext(buf: seq<byte>, row: nat)
    requires |buf| == BUF_BYTES && row < HEIGHT
    ensures Blanked(BlankedAbove(buf, row), row, 0) == BlankedAbove(buf, row + 1)
  {
  }

  /** VGA_clear_screen blanks all rows but the last, and does not reset move. */
  function Cleared(s: Screen): (r: Screen)
    requires |s.buf| == BUF_BYTES
  {
    Screen(BlankedAbove(s.buf, HEIGHT - 1), 0, 0, 0, s.move)
  }

  /** What the display memory holds after a flush: the ring, unrolled from the start row. */
  function Flushed(s: Screen): (vram: seq<byte>)
    requires |s.buf| == BUF_BYTES && s.start < HEIGHT
    ensures |vram| == BUF_BYTES
  {
    s.buf[Idx(s.start, 0)..] + s.buf[..Idx(s.start, 0)]
  }
}
