/** The rows of the console's buffer: what their bytes are, and what each store does to them. */
module ConsoleRows {
  import opened Bytes
  import opened ConsoleSpec

  /** The cells that show a text: each character, and the console's colour. */
  function Cells(text: seq<byte>): (r: seq<byte>)
    ensures |r| == 2 * |text|
    ensures forall c | 0 <= c < |text| :: r[2 * c] == text[c] && r[2 * c + 1] == COLOR
  {
    seq(2 * |text|, x requires 0 <= x < 2 * |text| => if x % 2 == 0 then text[x / 2] else COLOR)
  }

  lemma CellAt(text: seq<byte>, x: nat)
    requires x < 2 * |text|
    ensures Cells(text)[x] == if x % 2 == 0 then text[x / 2] else COLOR
  {
  }

  lemma HalfLess(x: nat, n: nat)
    requires 2 * n <= x
    ensures (x - 2 * n) % 2 == x % 2 && (x - 2 * n) / 2 == x / 2 - n
  {
  }

  lemma CellsAppend(a: seq<byte>, b: seq<byte>)
    ensures Cells(a + b) == Cells(a) + Cells(b)
  {
    hide Cells;
    forall x | 0 <= x < 2 * |a + b|
      ensures Cells(a + b)[x] == (Cells(a) + Cells(b))[x]
    {
      CellAt(a + b, x);
      if x < 2 * |a| {
        CellAt(a, x);
      } else {
        HalfLess(x, |a|);
        CellAt(b, x - 2 * |a|);
      }
    }
  }

  lemma CellsOne(c: byte)
    ensures Cells([c]) == [c, COLOR]
  {
    assert Cells([c])[2 * 0] == c && Cells([c])[2 * 0 + 1] == COLOR;
  }

  function Spaces(n: nat): (s: seq<byte>)
    ensures |s| == n && forall c | 0 <= c < n :: s[c] == SPACE
  {
    seq(n, _ => SPACE)
  }

  function BlankRow(): (r: seq<byte>)
    ensures |r| == ROW_BYTES
  {
    Cells(Spaces(WIDTH))
  }

  type Row = r: seq<byte> | |r| == ROW_BYTES witness BlankRow()

  function RowAt(buf: seq<byte>, row: nat): (r: Row)
    requires |buf| == BUF_BYTES && row < HEIGHT
    ensures forall x | 0 <= x < ROW_BYTES :: r[x] == buf[Idx(row, 0) + x]
  {
    buf[Idx(row, 0)..Idx(row + 1, 0)]
  }

  /** A store of one cell changes two bytes of its row, and no other row. */
  lemma WithCellRow(buf: seq<byte>, row: nat, col: nat, c: byte)
    requires |buf| == BUF_BYTES && row < HEIGHT && col < WIDTH
    ensures RowAt(WithCell(buf, row, col, c), row)
         == RowAt(buf, row)[..2 * col] + Cells([c]) + RowAt(buf, row)[2 * col + 2..]
    ensures forall other | 0 <= other < HEIGHT && other != row ::
      RowAt(WithCell(buf, row, col, c), other) == RowAt(buf, other)
  {
    hide Cells;
    CellsOne(c);
    var b := WithCell(buf, row, col, c);
    forall other, x | 0 <= other < HEIGHT && other != row && 0 <= x < ROW_BYTES
      ensures RowAt(b, other)[x] == RowAt(buf, other)[x]
    {
      assert Idx(other, 0) + x < Idx(row, 0) || Idx(row, 0) + ROW_BYTES <= Idx(other, 0) + x;
    }
    forall other | 0 <= other < HEIGHT && other != row
      ensures RowAt(b, other) == RowAt(buf, other)
    {
      assert forall x | 0 <= x < ROW_BYTES :: RowAt(b, other)[x] == RowAt(buf, other)[x];
    }
  }

  lemma BlankCell(n: nat, x: nat)
    requires x < 2 * n
    ensures Cells(Spaces(n))[x] == BlankByte(x)
  {
    hide Cells, Spaces;
    CellAt(Spaces(n), x);
  }

  lemma Parity(q: nat, b: nat)
    requires b < 2
    ensures (2 * q + b) % 2 == b
  {
  }

  lemma BlankByteAt(row: nat, x: nat)
    ensures BlankByte(Idx(row, 0) + x) == BlankByte(x)
  {
    Parity(80 * row + x / 2, x % 2);
    assert Idx(row, 0) + x == 2 * (80 * row + x / 2) + x % 2;
  }

  lemma BlankByteFrom(x: nat, n: nat)
    requires 2 * n <= x
    ensures BlankByte(x - 2 * n) == BlankByte(x)
  {
    HalfLess(x, n);
  }

  /** Blanking from a column on keeps the row up to it, and every other row. */
  lemma BlankedRow(buf: seq<byte>, row: nat, from: nat)
    requires |buf| == BUF_BYTES && row < HEIGHT && from <= WIDTH
    ensures RowAt(Blanked(buf, row, from), row) == RowAt(buf, row)[..2 * from] + Cells(Spaces(WIDTH - from))
    ensures forall other | 0 <= other < HEIGHT && other != row ::
      RowAt(Blanked(buf, row, from), other) == RowAt(buf, other)
  {
    hide Cells, Spaces, BlankByte, Blanked, RowAt;
    var b := Blanked(buf, row, from);
    var blank := Cells(Spaces(WIDTH - from));
    forall x | 0 <= x < ROW_BYTES
      ensures RowAt(b, row)[x] == (RowAt(buf, row)[..2 * from] + blank)[x]
    {
      if x >= 2 * from {
        BlankCell(WIDTH - from, x - 2 * from);
        BlankByteFrom(x, from);
        BlankByteAt(row, x);
      }
    }
    forall other | 0 <= other < HEIGHT && other != row
      ensures RowAt(b, other) == RowAt(buf, other)
    {
      assert forall x | 0 <= x < ROW_BYTES :: RowAt(b, other)[x] == RowAt(buf, other)[x];
    }
  }

  /** A buffer is its rows. */
  lemma SameRows(a: seq<byte>, b: seq<byte>)
    requires |a| == |b| == BUF_BYTES
    requires forall r | 0 <= r < HEIGHT :: RowAt(a, r) == RowAt(b, r)
    ensures a == b
  {
    forall x | 0 <= x < BUF_BYTES
      ensures a[x] == b[x]
    {
      var r, y := x / ROW_BYTES, x % ROW_BYTES;
      assert RowAt(a, r)[y] == RowAt(b, r)[y];
    }
  }
}
