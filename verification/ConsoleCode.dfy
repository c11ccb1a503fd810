/** The console driver over its buffer and counters, changed in place. */
module ConsoleCode {
  import opened Bytes
  import opened ConsoleSpec
  import Memory

  class Console {
    const buf: array<byte>
    const vram: array<byte>
    var col: byte
    var row: byte
    var startRow: byte
    var moveRow: byte

    ghost predicate Valid() {
      buf.Length == vram.Length == BUF_BYTES && buf != vram
    }

    ghost function State(): (s: Screen)
      reads this, buf
      requires Valid()
      ensures |s.buf| == BUF_BYTES
    {
      Screen(buf[..], row, col, startRow, moveRow)
    }

    constructor (vram: array<byte>)
      requires vram.Length == BUF_BYTES
      ensures Valid() && this.vram == vram && fresh(buf)
      ensures col == row == startRow == moveRow == 0
    {
      this.vram := vram;
      buf := new byte[BUF_BYTES](_ => 0);
      col, row, startRow, moveRow := 0, 0, 0, 0;
    }

    method Set(row: byte, col: byte, c: byte)
      requires Valid() && row < HEIGHT && col < WIDTH
      modifies buf
      ensures buf[..] == WithCell(old(buf[..]), row, col, c)
    {
      buf[Idx(row, col)] := c;
      buf[Idx(row, col) + 1] := COLOR;
    }

    /** The blank-filling loop that clears a row, or the rest of one. */
    method BlankRow(row: byte, from: byte)
      requires Valid() && row < HEIGHT && from <= WIDTH
      modifies buf
      ensures buf[..] == Blanked(old(buf[..]), row, from)
    {
      var i := from;
      while i < WIDTH
        invariant from <= i <= WIDTH
        invariant forall x | 0 <= x < BUF_BYTES ::
          buf[x] == if Idx(row, from) <= x < Idx(row, i) then BlankByte(x) else old(buf[x])
      {
        Set(row, i, SPACE);
        i := i + 1;
      }
    }

    /** The lines that the wrap and the newline share: next row, and scrolling once the ring is full. */
    method NextRow()
      requires Valid() && State().Sized()
      modifies buf, `row, `col, `startRow, `moveRow
      ensures State() == Advance(old(State()))
    {
      row := (row + 1) % HEIGHT;
      col := 0;
      if startRow > 0 || row == 0 {
        if moveRow == startRow {
          startRow := (startRow + 1) % HEIGHT;
          moveRow := startRow;
        } else {
          moveRow := (moveRow + 1) % 0x100;
        }
        BlankRow(startRow, 0);
      }
    }

    method Put(c: byte)
      requires Valid() && State().Takes(c)
      modifies buf, `row, `col, `startRow, `moveRow
      ensures State() == Putc(old(State()), c)
    {
      hide Advance, Blanked;
      if col == WIDTH {
        NextRow();
      }
      if c == NEWLINE {
        BlankRow(row, col);
        NextRow();
        return;
      }
      if c == BACKSPACE {
        if col == 0 {
          col := WIDTH - 1;
          row := (row - 1) % 0x100;
          moveRow := (moveRow - 1) % 0x100;
        } else {
          col := col - 1;
        }
        return;
      }
      Set(row, col, c);
      col := col + 1;
    }

    method Flush()
      requires Valid() && startRow < HEIGHT
      modifies vram
      ensures vram[..] == Flushed(State())
    {
      var topwrite := (HEIGHT - startRow) * ROW_BYTES;
      Memory.Memcpy(buf, startRow * ROW_BYTES, vram, 0, topwrite);
      Memory.Memcpy(buf, 0, vram, topwrite, startRow * ROW_BYTES);
    }

    method ClearScreen()
      requires Valid()
      modifies buf, vram, `row, `col, `startRow
      ensures State() == Cleared(old(State())) && vram[..] == Flushed(State())
    {
      var r := 0;
      assert BlankedAbove(buf[..], 0) == buf[..];
      while r < HEIGHT - 1
        invariant 0 <= r <= HEIGHT - 1
        invariant buf[..] == BlankedAbove(old(buf[..]), r)
      {
        BlankRow(r, 0);
        BlankNext(old(buf[..]), r);
        r := r + 1;
      }
      startRow, col, row := 0, 0, 0;
      Flush();
    }
  }
}
