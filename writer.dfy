/** The 80x25 hardware character grid and the text-mode writer that drives it:
    cell writes that wrap at the right edge, a line feed that scrolls the grid
    up on the bottom row, painting a window of scrollback lines, and the
    hardware cursor offset. The grid is first described as a value (`Grid`,
    `Screen`) with the writer's operations as functions on it; the class
    `TextMode` then updates a two-dimensional array in place and is proved to
    follow those functions. */
module Writer {
  import opened Colors
  import Textbuffer

  type Grid = seq<seq<ScreenChar>>

  /** A grid of exactly BUFFER_HEIGHT rows of BUFFER_WIDTH cells. */
  predicate IsGrid(g: Grid)
  {
    |g| == BUFFER_HEIGHT && forall i | 0 <= i < |g| :: |g[i]| == BUFFER_WIDTH
  }

  /** A row of blank cells in the given colour, as `clear_row` leaves it. */
  function BlankRow(code: ColorCode): (r: seq<ScreenChar>)
    ensures |r| == BUFFER_WIDTH
    ensures forall j | 0 <= j < |r| :: r[j] == Blank(code)
  {
    seq(BUFFER_WIDTH, _ => Blank(code))
  }

  /** The grid after the bottom-row line feed: every row moves up one, the top
      row is lost and the bottom row is blank in `code`. */
  function ScrollUp(g: Grid, code: ColorCode): (r: Grid)
    requires IsGrid(g)
    ensures IsGrid(r)
    ensures forall i | 0 <= i < BUFFER_HEIGHT - 1 :: r[i] == g[i + 1]
    ensures r[BUFFER_HEIGHT - 1] == BlankRow(code)
  {
    g[1..] + [BlankRow(code)]
  }

  /** The grid with one cell replaced. */
  function PutCell(g: Grid, row: nat, col: nat, ch: ScreenChar): (r: Grid)
    requires IsGrid(g) && row < BUFFER_HEIGHT && col < BUFFER_WIDTH
    ensures IsGrid(r)
    ensures r[row][col] == ch
    ensures forall i, j | 0 <= i < BUFFER_HEIGHT && 0 <= j < BUFFER_WIDTH && (i != row || j != col) ::
              r[i][j] == g[i][j]
  {
    g[row := g[row][col := ch]]
  }

  /** Everything the writer holds: the grid, its cursor and its colour. */
  datatype Screen = Screen(grid: Grid, row: nat, col: nat, colorCode: ColorCode)

  /** `new_line`: on the bottom row the grid scrolls up; elsewhere the cursor
      moves down one row. The column returns to 0 in both cases. */
  function NewLineSpec(s: Screen): (t: Screen)
    requires IsGrid(s.grid)
    ensures IsGrid(t.grid) && t.colorCode == s.colorCode && t.col == 0
    ensures s.row < BUFFER_HEIGHT ==> t.row < BUFFER_HEIGHT
  {
    if s.row == BUFFER_HEIGHT - 1 then
      s.(grid := ScrollUp(s.grid, s.colorCode), col := 0)
    else
      s.(row := s.row + 1, col := 0)
  }

  /** When `write_screen_char` can run without indexing outside the grid: a
      line feed always can, any other character needs the cursor on screen. */
  predicate CanWrite(s: Screen, ch: ScreenChar)
  {
    IsGrid(s.grid) && (ch.asciiCharacter != NEWLINE ==> s.row < BUFFER_HEIGHT)
  }

  /** `write_screen_char`: a line feed starts a new line; any other character
      first wraps when the column is past the right edge, then fills the cell
      under the cursor and advances the column. */
  function WriteCharSpec(s: Screen, ch: ScreenChar): (t: Screen)
    requires CanWrite(s, ch)
    ensures IsGrid(t.grid) && t.colorCode == s.colorCode
    ensures s.row < BUFFER_HEIGHT ==> t.row < BUFFER_HEIGHT
  {
    if ch.asciiCharacter == NEWLINE then NewLineSpec(s)
    else
      var w := if s.col >= BUFFER_WIDTH then NewLineSpec(s) else s;
      w.(grid := PutCell(w.grid, w.row, w.col, ch), col := w.col + 1)
  }

  /** The cell `write_byte` builds: the byte in the default colour. */
  function ByteCell(b: Byte): ScreenChar
  {
    ScreenChar(b, DefaultColorCode())
  }

  /** The screen after `write_byte` of every byte of `bytes`, in order. */
  function WriteBytesSpec(s: Screen, bytes: seq<Byte>): (t: Screen)
    requires IsGrid(s.grid) && s.row < BUFFER_HEIGHT
    ensures IsGrid(t.grid) && t.row < BUFFER_HEIGHT && t.colorCode == s.colorCode
    decreases |bytes|
  {
    if bytes == [] then s
    else WriteCharSpec(WriteBytesSpec(s, bytes[..|bytes| - 1]), ByteCell(bytes[|bytes| - 1]))
  }

  /** The bytes `write_string` sends: `c as u8` of every character. */
  function StringBytes(s: string): (bytes: seq<Byte>)
    ensures |bytes| == |s|
    ensures forall i | 0 <= i < |s| :: bytes[i] == CharToByte(s[i])
  {
    if s == [] then [] else StringBytes(s[..|s| - 1]) + [CharToByte(s[|s| - 1])]
  }

  /** The byte `print_textbuffer` shows at row `r`, column `c` of a window. */
  function PaintedByte(buf: seq<Textbuffer.BufferLine>, r: nat, c: nat): Byte
  {
    if r < |buf| && c < |buf[r].chars| then CharToByte(buf[r].chars[c].character) else SPACE
  }

  /** The grid `print_textbuffer(buf)` leaves: the window's characters where
      it has them, blanks elsewhere, all in the default colour. */
  function PaintedGrid(buf: seq<Textbuffer.BufferLine>): (g: Grid)
    ensures IsGrid(g)
    ensures forall i, j | 0 <= i < BUFFER_HEIGHT && 0 <= j < BUFFER_WIDTH ::
              g[i][j] == ScreenChar(PaintedByte(buf, i, j), DefaultColorCode())
  {
    seq(BUFFER_HEIGHT, i requires 0 <= i < BUFFER_HEIGHT =>
      seq(BUFFER_WIDTH, j requires 0 <= j < BUFFER_WIDTH => ScreenChar(PaintedByte(buf, i, j), DefaultColorCode())))
  }

  /** `row * BUFFER_WIDTH + col`: the linear cell index the hardware cursor register takes. */
  function CursorOffset(row: nat, col: nat): nat
  {
    row * BUFFER_WIDTH + col
  }

  /** `update_cursor` converts the offset to `u16` with `try_into().unwrap()`,
      which panics above 0xFFFF. For such a `u16`, `pos & 0xff` and
      `(pos >> 8) & 0xff` are `pos % 256` and `pos / 256`. */
  predicate CursorFits(row: nat, col: nat)
  {
    CursorOffset(row, col) < 0x1_0000
  }

  /** The two data-port bytes `update_cursor` emits: the low byte of the
      offset, then the high byte. */
  function CursorBytes(row: nat, col: nat): (bytes: seq<Byte>)
    requires CursorFits(row, col)
    ensures |bytes| == 2
    ensures bytes[0] as int + 256 * bytes[1] as int == CursorOffset(row, col)
  {
    var pos := CursorOffset(row, col);
    [pos % 256, pos / 256]
  }

  /** Distinct on-screen cursor positions emit distinct register bytes. */
  lemma CursorBytesInjective(r1: nat, c1: nat, r2: nat, c2: nat)
    requires r1 < BUFFER_HEIGHT && c1 < BUFFER_WIDTH && r2 < BUFFER_HEIGHT && c2 < BUFFER_WIDTH
    requires CursorBytes(r1, c1) == CursorBytes(r2, c2)
    ensures r1 == r2 && c1 == c2
  {
    assert CursorOffset(r1, c1) == CursorOffset(r2, c2);
  }

  /** `new_line` runs `update_cursor` at column 0 of the next row, unless it scrolls. */
  predicate NewLineFits(row: nat)
  {
    row == BUFFER_HEIGHT - 1 || CursorFits(row + 1, 0)
  }

  /** A non-line-feed character on an in-range cursor fills exactly that cell
      and advances the column; nothing else changes. */
  lemma WriteFillsCursorCell(s: Screen, ch: ScreenChar)
    requires IsGrid(s.grid) && s.row < BUFFER_HEIGHT && s.col < BUFFER_WIDTH
    requires ch.asciiCharacter != NEWLINE
    ensures var t := WriteCharSpec(s, ch);
      t.row == s.row && t.col == s.col + 1 && t.grid[s.row][s.col] == ch &&
      forall i, j | 0 <= i < BUFFER_HEIGHT && 0 <= j < BUFFER_WIDTH && (i != s.row || j != s.col) ::
        t.grid[i][j] == s.grid[i][j]
  {
  }

  /** A character written past the right edge lands in column 0 of the next
      row, or of the bottom row after the grid has scrolled. */
  lemma WriteWrapsFirst(s: Screen, ch: ScreenChar)
    requires IsGrid(s.grid) && s.row < BUFFER_HEIGHT && s.col >= BUFFER_WIDTH
    requires ch.asciiCharacter != NEWLINE
    ensures var t := WriteCharSpec(s, ch);
      t.col == 1 &&
      t.row == (if s.row == BUFFER_HEIGHT - 1 then s.row else s.row + 1) &&
      t.grid[t.row][0] == ch &&
      (s.row == BUFFER_HEIGHT - 1 ==>
        forall i | 0 <= i < BUFFER_HEIGHT - 1 :: t.grid[i] == s.grid[i + 1])
  {
  }

  /** Writing a run of non-line-feed bytes that fits on the current row puts
      them side by side from the cursor and changes no other cell. */
  lemma {:induction false} WriteRunOnRow(s: Screen, text: seq<Byte>)
    requires IsGrid(s.grid) && s.row < BUFFER_HEIGHT && s.col + |text| <= BUFFER_WIDTH
    requires forall i | 0 <= i < |text| :: text[i] != NEWLINE
    ensures var t := WriteBytesSpec(s, text);
      t.row == s.row && t.col == s.col + |text| &&
      (forall i | 0 <= i < |text| :: t.grid[s.row][s.col + i] == ByteCell(text[i])) &&
      (forall i, j | 0 <= i < BUFFER_HEIGHT && 0 <= j < BUFFER_WIDTH &&
         (i != s.row || j < s.col || s.col + |text| <= j) :: t.grid[i][j] == s.grid[i][j])
    decreases |text|
  {
    if text != [] {
      var init := text[..|text| - 1];
      WriteRunOnRow(s, init);
      var m := WriteBytesSpec(s, init);
      WriteFillsCursorCell(m, ByteCell(text[|text| - 1]));
    }
  }

  /** Writing `a + b` is writing `a`, then `b`. */
  lemma {:induction false} WriteBytesConcat(s: Screen, a: seq<Byte>, b: seq<Byte>)
    requires IsGrid(s.grid) && s.row < BUFFER_HEIGHT
    ensures WriteBytesSpec(s, a + b) == WriteBytesSpec(WriteBytesSpec(s, a), b)
    decreases |b|
  {
    if b == [] {
      assert a + b == a;
    } else {
      var init := b[..|b| - 1];
      assert (a + b)[..|a + b| - 1] == a + init;
      assert (a + b)[|a + b| - 1] == b[|b| - 1];
      WriteBytesConcat(s, a, init);
    }
  }

  /** With the cursor on one of the two bottom rows, `writeln!("\n{}", s)` for
      a line-feed-free `s` shorter than a row leaves `s` at the start of the
      row above the bottom one. */
  lemma WritelnLandsAboveBottom(s: Screen, text: seq<Byte>)
    requires IsGrid(s.grid) && BUFFER_HEIGHT - 2 <= s.row < BUFFER_HEIGHT
    requires |text| < BUFFER_WIDTH
    requires forall i | 0 <= i < |text| :: text[i] != NEWLINE
    ensures var t := WriteBytesSpec(s, [NEWLINE] + text + [NEWLINE]);
      t.row == BUFFER_HEIGHT - 1 && t.col == 0 &&
      forall i | 0 <= i < |text| :: t.grid[BUFFER_HEIGHT - 2][i].asciiCharacter == text[i]
  {
    var nl: seq<Byte> := [NEWLINE];
    WriteBytesConcat(s, nl, text);
    WriteBytesConcat(s, nl + text, nl);
    var s1 := WriteBytesSpec(s, nl);
    LineFeedFromBottom(s);
    var s2 := WriteBytesSpec(s1, text);
    RunFromColumnZero(s1, text);
    LineFeedFromBottom(s2);
  }

  /** From either of the two bottom rows a line feed ends on the bottom row
      at column 0; from the bottom row itself the rows move up by one. */
  lemma LineFeedFromBottom(s: Screen)
    requires IsGrid(s.grid) && BUFFER_HEIGHT - 2 <= s.row < BUFFER_HEIGHT
    ensures var t := WriteBytesSpec(s, [NEWLINE]);
      t.row == BUFFER_HEIGHT - 1 && t.col == 0 &&
      (s.row == BUFFER_HEIGHT - 1 ==> t.grid[BUFFER_HEIGHT - 2] == s.grid[BUFFER_HEIGHT - 1])
  {
    var nl: seq<Byte> := [NEWLINE];
    assert nl[..0] == [];
  }

  /** A run written from column 0 of a row shows its bytes at the start of
      that row. */
  lemma RunFromColumnZero(s: Screen, text: seq<Byte>)
    requires IsGrid(s.grid) && s.row < BUFFER_HEIGHT && s.col == 0 && |text| <= BUFFER_WIDTH
    requires forall i | 0 <= i < |text| :: text[i] != NEWLINE
    ensures var t := WriteBytesSpec(s, text);
      t.row == s.row &&
      forall i | 0 <= i < |text| :: t.grid[s.row][i].asciiCharacter == text[i]
  {
    WriteRunOnRow(s, text);
  }

  /** Painting an empty window blanks the whole grid in the default colour. */
  lemma PaintedEmptyIsBlank()
    ensures forall i | 0 <= i < BUFFER_HEIGHT :: PaintedGrid([])[i] == BlankRow(DefaultColorCode())
  {
    forall i | 0 <= i < BUFFER_HEIGHT
      ensures PaintedGrid([])[i] == BlankRow(DefaultColorCode())
    {
      assert forall j | 0 <= j < BUFFER_WIDTH :: PaintedGrid([])[i][j] == BlankRow(DefaultColorCode())[j];
    }
  }

  /** Lines past the 25th and characters past the 80th are never shown: the
      painted grid depends only on the top-left 25x80 corner of the window. */
  lemma PaintedIgnoresOverflow(buf: seq<Textbuffer.BufferLine>, more: seq<Textbuffer.BufferLine>)
    requires |buf| >= BUFFER_HEIGHT
    ensures PaintedGrid(buf + more) == PaintedGrid(buf)
  {
    var g1, g2 := PaintedGrid(buf + more), PaintedGrid(buf);
    forall i | 0 <= i < BUFFER_HEIGHT
      ensures g1[i] == g2[i]
    {
      assert (buf + more)[i] == buf[i];
      assert forall j | 0 <= j < BUFFER_WIDTH :: g1[i][j] == g2[i][j];
    }
  }

  /** The text-mode writer: the cursor, the colour `clear_row` uses, and the
      memory-mapped grid it writes in place. */
  class TextMode {
    var col: nat
    var row: nat
    var colorCode: ColorCode
    const buffer: array2<ScreenChar>

    ghost predicate Valid()
    {
      buffer.Length0 == BUFFER_HEIGHT && buffer.Length1 == BUFFER_WIDTH
    }

    /** The grid's current contents as a value. */
    ghost function Cells(): (g: Grid)
      requires Valid()
      reads buffer
      ensures IsGrid(g)
      ensures forall i, j | 0 <= i < BUFFER_HEIGHT && 0 <= j < BUFFER_WIDTH :: g[i][j] == buffer[i, j]
    {
      seq(BUFFER_HEIGHT, i requires 0 <= i < BUFFER_HEIGHT reads buffer =>
        seq(BUFFER_WIDTH, j requires 0 <= j < BUFFER_WIDTH reads buffer => buffer[i, j]))
    }

    /** The whole writer state as a value. */
    ghost function Snapshot(): Screen
      requires Valid()
      reads this, buffer
    {
      Screen(Cells(), row, col, colorCode)
    }

    /** Two grids that agree on every cell are equal. */
    static lemma GridsEqual(a: Grid, b: Grid)
      requires IsGrid(a) && IsGrid(b)
      requires forall i, j | 0 <= i < BUFFER_HEIGHT && 0 <= j < BUFFER_WIDTH :: a[i][j] == b[i][j]
      ensures a == b
    {
      forall i | 0 <= i < BUFFER_HEIGHT
        ensures a[i] == b[i]
      {
        assert forall j | 0 <= j < BUFFER_WIDTH :: a[i][j] == b[i][j];
      }
    }

    /** The static `WRITER`: cursor at the origin, default colour, over the
        given memory-mapped grid. */
    constructor (screen: array2<ScreenChar>)
      requires screen.Length0 == BUFFER_HEIGHT && screen.Length1 == BUFFER_WIDTH
      ensures Valid() && buffer == screen
      ensures row == 0 && col == 0 && colorCode == DefaultColorCode()
    {
      buffer := screen;
      row, col := 0, 0;
      colorCode := DefaultColorCode();
    }

    /** `clear_row`: every cell of row `r` becomes a blank in the writer's colour. */
    method ClearRow(r: nat)
      requires Valid() && r < BUFFER_HEIGHT
      modifies buffer
      ensures Cells() == old(Cells())[r := BlankRow(colorCode)]
    {
      for c := 0 to BUFFER_WIDTH
        invariant forall i, j | 0 <= i < BUFFER_HEIGHT && 0 <= j < BUFFER_WIDTH ::
                    buffer[i, j] == if i == r && j < c then Blank(colorCode) else old(buffer[i, j])
      {
        buffer[r, c] := Blank(colorCode);
      }
      GridsEqual(Cells(), old(Cells())[r := BlankRow(colorCode)]);
    }

    /** `update_cursor`: the bytes written to the cursor data port. */
    method UpdateCursor() returns (emitted: seq<Byte>)
      requires CursorFits(row, col)
      ensures emitted == CursorBytes(row, col)
    {
      var pos := row * BUFFER_WIDTH + col;
      emitted := [pos % 256];
      emitted := emitted + [pos / 256];
    }

    /** `move_cursor(x, y)`: column `x`, row `y`, with no range check. */
    method MoveCursor(x: nat, y: nat)
      requires Valid() && CursorFits(y, x)
      modifies this
      ensures Valid() && Snapshot() == old(Snapshot()).(row := y, col := x)
    {
      row := y;
      col := x;
      var _ := UpdateCursor();
    }

    /** `new_line`, with its row-shifting loops. */
    method NewLine()
      requires Valid() && NewLineFits(row)
      modifies this, buffer
      ensures Valid() && Snapshot() == NewLineSpec(old(Snapshot()))
      ensures row == (if old(row) == BUFFER_HEIGHT - 1 then old(row) else old(row) + 1) && col == 0
    {
      if row == BUFFER_HEIGHT - 1 {
        for r := 1 to BUFFER_HEIGHT
          modifies buffer
          invariant forall i, j | 0 <= i < BUFFER_HEIGHT && 0 <= j < BUFFER_WIDTH ::
                      buffer[i, j] == if i < r - 1 then old(buffer[i + 1, j]) else old(buffer[i, j])
        {
          for c := 0 to BUFFER_WIDTH
            modifies buffer
            invariant forall i, j | 0 <= i < BUFFER_HEIGHT && 0 <= j < BUFFER_WIDTH ::
                        buffer[i, j] == if i < r - 1 || (i == r - 1 && j < c) then old(buffer[i + 1, j]) else old(buffer[i, j])
          {
            buffer[r - 1, c] := buffer[r, c];
          }
        }
        ghost var shifted := Cells();
        assert forall i, j | 0 <= i < BUFFER_HEIGHT - 1 && 0 <= j < BUFFER_WIDTH :: shifted[i][j] == old(Cells())[i + 1][j];
        ClearRow(BUFFER_HEIGHT - 1);
        assert Cells() == shifted[BUFFER_HEIGHT - 1 := BlankRow(colorCode)];
        GridsEqual(Cells(), ScrollUp(old(Cells()), colorCode));
        col := 0;
        assert CursorOffset(row, col) == 1920;
      } else {
        row := row + 1;
        col := 0;
      }
      var _ := UpdateCursor();
    }

    /** `write_screen_char`. */
    method WriteScreenChar(ch: ScreenChar)
      requires Valid()
      requires if ch.asciiCharacter == NEWLINE then NewLineFits(row) else row < BUFFER_HEIGHT
      modifies this, buffer
      ensures Valid() && Snapshot() == WriteCharSpec(old(Snapshot()), ch)
    {
      if ch.asciiCharacter == NEWLINE {
        NewLine();
      } else {
        if col >= BUFFER_WIDTH {
          NewLine();
        }
        ghost var before := Snapshot();
        buffer[row, col] := ch;
        col := col + 1;
        GridsEqual(Cells(), PutCell(before.grid, row, col - 1, ch));
        var _ := UpdateCursor();
      }
    }

    /** `write_byte`: the byte in the default colour. */
    method WriteByte(b: Byte)
      requires Valid()
      requires if b == NEWLINE then NewLineFits(row) else row < BUFFER_HEIGHT
      modifies this, buffer
      ensures Valid() && Snapshot() == WriteCharSpec(old(Snapshot()), ByteCell(b))
    {
      WriteScreenChar(ScreenChar(b, DefaultColorCode()));
    }

    /** `write_string`: `write_byte(c as u8)` for every character, in order. */
    method WriteString(s: string)
      requires Valid() && row < BUFFER_HEIGHT
      modifies this, buffer
      ensures Valid() && Snapshot() == WriteBytesSpec(old(Snapshot()), StringBytes(s))
    {
      var bytes := StringBytes(s);
      for i := 0 to |s|
        invariant Valid() && row < BUFFER_HEIGHT
        invariant Snapshot() == WriteBytesSpec(old(Snapshot()), bytes[..i])
      {
        assert bytes[..i + 1][..i] == bytes[..i];
        WriteByte(CharToByte(s[i]));
      }
      assert bytes[..|s|] == bytes;
    }

    /** `print_textbuffer`: paint a window of lines over the whole grid. The
        cursor is left where it was. */
    method PrintTextbuffer(buf: seq<Textbuffer.BufferLine>)
      requires Valid()
      modifies buffer
      ensures Cells() == PaintedGrid(buf)
    {
      for r := 0 to BUFFER_HEIGHT
        invariant forall i, j | 0 <= i < BUFFER_HEIGHT && 0 <= j < BUFFER_WIDTH ::
                    buffer[i, j] == if i < r then ScreenChar(PaintedByte(buf, i, j), DefaultColorCode()) else old(buffer[i, j])
      {
        if r < |buf| {
          for c := 0 to BUFFER_WIDTH
            invariant forall i, j | 0 <= i < BUFFER_HEIGHT && 0 <= j < BUFFER_WIDTH ::
                        buffer[i, j] == if i < r || (i == r && j < c) then ScreenChar(PaintedByte(buf, i, j), DefaultColorCode()) else old(buffer[i, j])
          {
            var character := SPACE;
            if c < |buf[r].chars| {
              character := CharToByte(buf[r].chars[c].character);
            }
            buffer[r, c] := ScreenChar(character, DefaultColorCode());
          }
        } else {
          for c := 0 to BUFFER_WIDTH
            invariant forall i, j | 0 <= i < BUFFER_HEIGHT && 0 <= j < BUFFER_WIDTH ::
                        buffer[i, j] == if i < r || (i == r && j < c) then ScreenChar(PaintedByte(buf, i, j), DefaultColorCode()) else old(buffer[i, j])
          {
            buffer[r, c] := ScreenChar(SPACE, DefaultColorCode());
          }
        }
      }
      GridsEqual(Cells(), PaintedGrid(buf));
    }
  }
}
