/** The earliest text-mode writers behind a common `Writer` interface whose
    `write_string` replaces every byte outside printable ASCII and the line
    feed with 0xfe. `PlainVGA` always writes on the bottom row and scrolls
    the whole grid up on every line feed; `ScrollbackVGA` keeps every line
    it has written and shows a window of them. */
module VgaBuffer {
  import opened Colors
  import opened Wrappers
  import Writer

  type Grid = Writer.Grid

  /** The byte written in place of anything `write_string` cannot show. */
  const REPLACEMENT: Byte := 0xfe

  /** A byte `write_string` passes through unchanged. */
  predicate Showable(b: Byte)
  {
    (0x20 <= b <= 0x7e) || b == NEWLINE
  }

  /** `write_string`'s mapping of one byte. */
  function FilterByte(b: Byte): (r: Byte)
    ensures Showable(b) ==> r == b
    ensures !Showable(b) ==> r == REPLACEMENT
  {
    if (0x20 <= b <= 0x7e) || b == NEWLINE then b else REPLACEMENT
  }

  /** `write_string`'s bytes: one output byte per input byte, in order. */
  function FilterBytes(bs: seq<Byte>): (r: seq<Byte>)
    ensures |r| == |bs|
    ensures forall i | 0 <= i < |bs| :: r[i] == FilterByte(bs[i])
  {
    if bs == [] then [] else FilterBytes(bs[..|bs| - 1]) + [FilterByte(bs[|bs| - 1])]
  }

  /** Filtering is idempotent, every byte it emits is showable or the
      replacement, and it leaves an all-showable string alone. */
  lemma FilterBytesProperties(bs: seq<Byte>)
    ensures FilterBytes(FilterBytes(bs)) == FilterBytes(bs)
    ensures forall i | 0 <= i < |bs| :: Showable(FilterBytes(bs)[i]) || FilterBytes(bs)[i] == REPLACEMENT
    ensures (forall i | 0 <= i < |bs| :: Showable(bs[i])) ==> FilterBytes(bs) == bs
  {
    var f := FilterBytes(bs);
    var ff := FilterBytes(f);
    forall i | 0 <= i < |bs|
      ensures ff[i] == f[i]
    {
      assert ff[i] == FilterByte(f[i]);
    }
    assert ff == f;
    if forall i | 0 <= i < |bs| :: Showable(bs[i]) {
      assert forall i | 0 <= i < |bs| :: f[i] == bs[i];
      assert f == bs;
    }
  }

  // ---------------------------------------------------------------- PlainVGA

  /** PlainVGA's state: the grid, its column on the bottom row and its colour. */
  datatype Plain = Plain(grid: Grid, col: nat, colorCode: ColorCode)

  /** `PlainVGA::new_line`: the grid scrolls up, the bottom row becomes blank
      in the writer's colour, the column returns to 0. */
  function PlainNewLineSpec(s: Plain): (t: Plain)
    requires Writer.IsGrid(s.grid)
    ensures Writer.IsGrid(t.grid) && t.colorCode == s.colorCode && t.col == 0
  {
    s.(grid := Writer.ScrollUp(s.grid, s.colorCode), col := 0)
  }

  /** `PlainVGA::write_byte`: a line feed is a new line; any other byte wraps
      when the column is past the edge, then fills the bottom-row cell at
      the column in the writer's colour and advances the column. */
  function PlainWriteByteSpec(s: Plain, b: Byte): (t: Plain)
    requires Writer.IsGrid(s.grid)
    ensures Writer.IsGrid(t.grid) && t.colorCode == s.colorCode
  {
    if b == NEWLINE then PlainNewLineSpec(s)
    else
      var w := if s.col >= BUFFER_WIDTH then PlainNewLineSpec(s) else s;
      w.(grid := Writer.PutCell(w.grid, BUFFER_HEIGHT - 1, w.col, ScreenChar(b, w.colorCode)), col := w.col + 1)
  }

  /** `write_byte` of every byte, in order. */
  function PlainWriteBytesSpec(s: Plain, bs: seq<Byte>): (t: Plain)
    requires Writer.IsGrid(s.grid)
    ensures Writer.IsGrid(t.grid) && t.colorCode == s.colorCode
    decreases |bs|
  {
    if bs == [] then s else PlainWriteByteSpec(PlainWriteBytesSpec(s, bs[..|bs| - 1]), bs[|bs| - 1])
  }

  /** A byte other than a line feed always lands on the bottom row, at the
      column or at column 0 after a wrap; without a wrap no other cell
      changes, and with one the rows above are the old rows moved up. */
  lemma PlainPrintableOnBottomRow(s: Plain, b: Byte)
    requires Writer.IsGrid(s.grid) && b != NEWLINE
    ensures var t := PlainWriteByteSpec(s, b);
      var c := if s.col >= BUFFER_WIDTH then 0 else s.col;
      t.col == c + 1 && t.grid[BUFFER_HEIGHT - 1][c] == ScreenChar(b, s.colorCode) &&
      (s.col < BUFFER_WIDTH ==>
        forall i, j | 0 <= i < BUFFER_HEIGHT && 0 <= j < BUFFER_WIDTH && (i != BUFFER_HEIGHT - 1 || j != c) ::
          t.grid[i][j] == s.grid[i][j]) &&
      (s.col >= BUFFER_WIDTH ==>
        forall i | 0 <= i < BUFFER_HEIGHT - 1 :: t.grid[i] == s.grid[i + 1])
  {
  }

  /** Text without line feeds written from column 0 that fits the row ends
      up, cell for cell, at the start of the bottom row, with the column
      after its last character and the rows above untouched. */
  lemma {:induction false} PlainLineOnBottomRow(s: Plain, text: seq<Byte>)
    requires Writer.IsGrid(s.grid) && s.col == 0 && |text| <= BUFFER_WIDTH
    requires forall i | 0 <= i < |text| :: text[i] != NEWLINE
    ensures var t := PlainWriteBytesSpec(s, text);
      t.col == |text| &&
      (forall j | 0 <= j < BUFFER_WIDTH ::
        t.grid[BUFFER_HEIGHT - 1][j] == if j < |text| then ScreenChar(text[j], s.colorCode) else s.grid[BUFFER_HEIGHT - 1][j]) &&
      (forall i | 0 <= i < BUFFER_HEIGHT - 1 :: t.grid[i] == s.grid[i])
    decreases |text|
  {
    if text != [] {
      var init := text[..|text| - 1];
      var t := PlainWriteBytesSpec(s, text);
      assert forall i | 0 <= i < |init| :: init[i] == text[i];
      PlainLineOnBottomRow(s, init);
      var m := PlainWriteBytesSpec(s, init);
      assert m.col == |init|;
      assert forall j {:trigger m.grid[BUFFER_HEIGHT - 1][j]} | 0 <= j < BUFFER_WIDTH ::
        m.grid[BUFFER_HEIGHT - 1][j] == if j < |init| then ScreenChar(init[j], s.colorCode) else s.grid[BUFFER_HEIGHT - 1][j];
      assert t == PlainWriteByteSpec(m, text[|text| - 1]);
      PlainPrintableOnBottomRow(m, text[|text| - 1]);
      forall i | 0 <= i < BUFFER_HEIGHT - 1
        ensures t.grid[i] == s.grid[i]
      {
        assert forall j | 0 <= j < BUFFER_WIDTH :: t.grid[i][j] == m.grid[i][j];
      }
      forall j | 0 <= j < BUFFER_WIDTH
        ensures t.grid[BUFFER_HEIGHT - 1][j] ==
                if j < |text| then ScreenChar(text[j], s.colorCode) else s.grid[BUFFER_HEIGHT - 1][j]
      {
        if j < |init| {
          assert text[j] == init[j];
          assert t.grid[BUFFER_HEIGHT - 1][j] == m.grid[BUFFER_HEIGHT - 1][j];
          assert m.grid[BUFFER_HEIGHT - 1][j] == ScreenChar(init[j], s.colorCode);
        } else if j == |init| {
          assert t.grid[BUFFER_HEIGHT - 1][j] == ScreenChar(text[j], m.colorCode);
        } else {
          assert t.grid[BUFFER_HEIGHT - 1][j] == m.grid[BUFFER_HEIGHT - 1][j];
          assert m.grid[BUFFER_HEIGHT - 1][j] == s.grid[BUFFER_HEIGHT - 1][j];
        }
      }
    }
  }

  /** `write_string` on PlainVGA is `write_byte` of the filtered bytes. */
  function PlainWriteStringSpec(s: Plain, bs: seq<Byte>): (t: Plain)
    requires Writer.IsGrid(s.grid)
    ensures Writer.IsGrid(t.grid) && t.colorCode == s.colorCode
    ensures (forall i | 0 <= i < |bs| :: Showable(bs[i])) ==> t == PlainWriteBytesSpec(s, bs)
  {
    FilterBytesProperties(bs);
    PlainWriteBytesSpec(s, FilterBytes(bs))
  }

  // ----------------------------------------------------------- ScrollbackVGA

  /** ScrollbackVGA's state: every line written so far, the first shown
      line, the cursor (column, line) into the lines, the colour and the grid. */
  datatype Sbv = Sbv(
    scrollback: seq<seq<ScreenChar>>,
    scrollRow: nat,
    col: nat,
    rowPos: nat,
    colorCode: ColorCode,
    grid: Grid)

  /** What the writer keeps true: the cursor line is the last line, the
      column is that line's length, and the column never passes the edge. */
  predicate Tracks(s: Sbv)
  {
    Writer.IsGrid(s.grid) &&
    |s.scrollback| == s.rowPos + 1 && |s.scrollback[s.rowPos]| == s.col && s.col <= BUFFER_WIDTH
  }

  /** `init_scrollback`: a single empty line, everything at 0, light grey on black. */
  function InitScrollback(screen: Grid): (s: Sbv)
    requires Writer.IsGrid(screen)
    ensures Tracks(s) && s.scrollRow == 0 && s.rowPos == 0 && s.col == 0
    ensures |s.scrollback| == 1 && s.scrollback[0] == []
  {
    Sbv([[]], 0, 0, 0, NewColorCode(LightGray, Black), screen)
  }

  /** `update_screen` AS WRITTEN: rows 0..24 of the lines, whatever the first
      shown line is; None when a row or a cell it reads does not exist. */
  function UpdateScreenAsWritten(lines: seq<seq<ScreenChar>>): (g: Option<Grid>)
    ensures g.Some? <==> |lines| >= BUFFER_HEIGHT && forall r | 0 <= r < BUFFER_HEIGHT :: |lines[r]| >= BUFFER_WIDTH
    ensures g.Some? ==> Writer.IsGrid(g.value)
  {
    if |lines| >= BUFFER_HEIGHT && forall r | 0 <= r < BUFFER_HEIGHT :: |lines[r]| >= BUFFER_WIDTH then
      Some(seq(BUFFER_HEIGHT, r requires 0 <= r < BUFFER_HEIGHT =>
        seq(BUFFER_WIDTH, c requires 0 <= c < BUFFER_WIDTH => lines[r][c])))
    else None
  }

  /** The as-written repaint in `new_line` panics whenever fewer than 25
      lines existed before it, in particular on the first line feed after
      `init_scrollback`. */
  lemma NewLineRepaintAsWrittenPanics(s: Sbv)
    requires Tracks(s) && s.rowPos + 1 < BUFFER_HEIGHT
    ensures UpdateScreenAsWritten(s.scrollback + [[]]).None?
  {
    var lines := s.scrollback + [[]];
    assert |lines[s.rowPos + 1]| == 0;
  }

  /** The cell a window starting at `scrollRow` shows at `(r, c)`: the stored
      cell where it exists, a blank in `code` elsewhere. */
  function WindowCell(lines: seq<seq<ScreenChar>>, scrollRow: nat, r: nat, c: nat, code: ColorCode): ScreenChar
  {
    if scrollRow + r < |lines| && c < |lines[scrollRow + r]| then lines[scrollRow + r][c] else Blank(code)
  }

  /** The repaint as evidently intended: the 25 lines from `scrollRow`, padded
      with blanks, without panicking. */
  function WindowGrid(lines: seq<seq<ScreenChar>>, scrollRow: nat, code: ColorCode): (g: Grid)
    ensures Writer.IsGrid(g)
    ensures forall r, c | 0 <= r < BUFFER_HEIGHT && 0 <= c < BUFFER_WIDTH :: g[r][c] == WindowCell(lines, scrollRow, r, c, code)
  {
    seq(BUFFER_HEIGHT, r requires 0 <= r < BUFFER_HEIGHT =>
      seq(BUFFER_WIDTH, c requires 0 <= c < BUFFER_WIDTH => WindowCell(lines, scrollRow, r, c, code)))
  }

  /** Where the as-written repaint does not panic it is the window from line
      0: it ignores the first shown line. */
  lemma UpdateScreenAsWrittenIgnoresScroll(lines: seq<seq<ScreenChar>>, code: ColorCode)
    requires UpdateScreenAsWritten(lines).Some?
    ensures UpdateScreenAsWritten(lines).value == WindowGrid(lines, 0, code)
  {
    var a := UpdateScreenAsWritten(lines).value;
    var b := WindowGrid(lines, 0, code);
    forall r | 0 <= r < BUFFER_HEIGHT
      ensures a[r] == b[r]
    {
      assert forall c | 0 <= c < BUFFER_WIDTH :: a[r][c] == b[r][c];
    }
  }

  /** `scroll_down`: the window moves down and the grid is repainted. */
  function ScrollDownSpec(s: Sbv, lines: nat): (t: Sbv)
    ensures Writer.IsGrid(t.grid)
    ensures t.scrollRow == s.scrollRow + lines
    ensures t.scrollback == s.scrollback && t.rowPos == s.rowPos && t.col == s.col && t.colorCode == s.colorCode
  {
    s.(scrollRow := s.scrollRow + lines, grid := WindowGrid(s.scrollback, s.scrollRow + lines, s.colorCode))
  }

  /** `scroll_up`: the window moves up and the grid is repainted; the
      unsigned subtraction needs `lines <= scroll_row`. */
  function ScrollUpSpec(s: Sbv, lines: nat): (t: Sbv)
    requires lines <= s.scrollRow
    ensures Writer.IsGrid(t.grid)
    ensures t.scrollRow + lines == s.scrollRow
    ensures t.scrollback == s.scrollback && t.rowPos == s.rowPos && t.col == s.col && t.colorCode == s.colorCode
  {
    s.(scrollRow := s.scrollRow - lines, grid := WindowGrid(s.scrollback, s.scrollRow - lines, s.colorCode))
  }

  /** `ScrollbackVGA::new_line`: a new empty line becomes the cursor line at
      column 0, and the window scrolls down one line. */
  function SbvNewLineSpec(s: Sbv): (t: Sbv)
    requires Tracks(s)
    ensures Tracks(t)
  {
    ScrollDownSpec(s.(scrollback := s.scrollback + [[]], rowPos := s.rowPos + 1, col := 0), 1)
  }

  /** The screen-write guard AS WRITTEN: `row <= BUFFER_HEIGHT`. */
  function GuardAsWritten(row: nat): (ok: bool)
    ensures Guard(row) ==> ok
    ensures ok && !Guard(row) ==> row == BUFFER_HEIGHT
  {
    row <= BUFFER_HEIGHT
  }

  /** The guard as evidently intended: the row is a row of the grid. */
  function Guard(row: nat): (ok: bool)
    ensures ok ==> forall g | Writer.IsGrid(g) :: row < |g|
    ensures !ok ==> forall g | Writer.IsGrid(g) :: |g| <= row
  {
    row < BUFFER_HEIGHT
  }

  /** Scrolling up 25 lines with the cursor on the first shown line puts the
      cursor line at screen row 25, which the as-written guard lets through
      although the grid has rows 0..24 only. */
  lemma GuardAsWrittenAdmitsRow25(s: Sbv)
    requires Tracks(s) && s.scrollRow == s.rowPos && BUFFER_HEIGHT <= s.scrollRow
    ensures var t := ScrollUpSpec(s, BUFFER_HEIGHT);
      t.rowPos - t.scrollRow == BUFFER_HEIGHT &&
      GuardAsWritten(t.rowPos - t.scrollRow) && !Guard(t.rowPos - t.scrollRow) &&
      t.rowPos - t.scrollRow >= |t.grid|
  {
  }

  /** `ScrollbackVGA::write_byte` with the corrected guard. A line feed is a
      new line; any other byte wraps when the column is past the edge,
      appends one cell to the cursor line, advances the column and, when the
      cursor line is on screen, writes the same cell to the grid. The
      unsigned `row_position - scroll_row` needs the cursor line not above
      the window. */
  function SbvWriteByteSpec(s: Sbv, b: Byte): (t: Sbv)
    requires Tracks(s) && s.scrollRow <= s.rowPos
    ensures Tracks(t) && t.scrollRow <= t.rowPos
    ensures t.rowPos - t.scrollRow == s.rowPos - s.scrollRow
  {
    if b == NEWLINE then SbvNewLineSpec(s)
    else
      var w := if s.col >= BUFFER_WIDTH then SbvNewLineSpec(s) else s;
      var row := w.rowPos - w.scrollRow;
      var cell := ScreenChar(b, w.colorCode);
      var t := w.(scrollback := w.scrollback[w.rowPos := w.scrollback[w.rowPos] + [cell]], col := w.col + 1);
      if Guard(row) then t.(grid := Writer.PutCell(t.grid, row, w.col, cell)) else t
  }

  /** `write_string` on ScrollbackVGA: `write_byte` of each filtered byte. */
  function SbvWriteBytesSpec(s: Sbv, bs: seq<Byte>): (t: Sbv)
    requires Tracks(s) && s.scrollRow <= s.rowPos
    ensures Tracks(t) && t.scrollRow <= t.rowPos
    decreases |bs|
  {
    if bs == [] then s else SbvWriteByteSpec(SbvWriteBytesSpec(s, bs[..|bs| - 1]), bs[|bs| - 1])
  }

  /** A line feed appends exactly one empty line, moves the cursor onto it at
      column 0, keeps every earlier line, and shows the window one line
      further down. */
  lemma SbvLineFeed(s: Sbv)
    requires Tracks(s) && s.scrollRow <= s.rowPos
    ensures var t := SbvWriteByteSpec(s, NEWLINE);
      t.scrollback == s.scrollback + [[]] && t.rowPos == s.rowPos + 1 && t.col == 0 &&
      t.scrollRow == s.scrollRow + 1 &&
      t.grid == WindowGrid(t.scrollback, t.scrollRow, s.colorCode)
  {
  }

  /** Any other byte appends exactly one cell, in the writer's colour, to the
      cursor line (a fresh one after a wrap) and leaves every other stored
      line alone; the screen shows it at the cursor's screen row. */
  lemma SbvPrintableAppends(s: Sbv, b: Byte)
    requires Tracks(s) && s.scrollRow <= s.rowPos && b != NEWLINE
    ensures var t := SbvWriteByteSpec(s, b);
      var wrapped := s.col >= BUFFER_WIDTH;
      var cell := ScreenChar(b, s.colorCode);
      t.rowPos == (if wrapped then s.rowPos + 1 else s.rowPos) &&
      t.scrollback[..t.rowPos] == s.scrollback[..t.rowPos] &&
      |t.scrollback| == t.rowPos + 1 &&
      t.scrollback[t.rowPos] == (if wrapped then [] else s.scrollback[s.rowPos]) + [cell] &&
      (Guard(t.rowPos - t.scrollRow) ==> t.grid[t.rowPos - t.scrollRow][t.col - 1] == cell)
  {
    if s.col >= BUFFER_WIDTH {
      var w := SbvNewLineSpec(s);
      assert w.scrollback[..w.rowPos] == s.scrollback;
    }
  }

  /** One `write_byte` only appends: the lines before the cursor line are
      kept and the cursor line does not move up. */
  lemma SbvWriteByteExtends(s: Sbv, b: Byte)
    requires Tracks(s) && s.scrollRow <= s.rowPos
    ensures var t := SbvWriteByteSpec(s, b);
      t.rowPos >= s.rowPos && t.scrollback[..s.rowPos] == s.scrollback[..s.rowPos]
  {
    if b != NEWLINE {
      SbvPrintableAppends(s, b);
      var t := SbvWriteByteSpec(s, b);
      assert t.scrollback[..s.rowPos] == t.scrollback[..t.rowPos][..s.rowPos];
      assert s.scrollback[..s.rowPos] == s.scrollback[..t.rowPos][..s.rowPos];
    }
  }

  /** A run of `write_byte`s keeps the cursor line's distance to the window
      (only the explicit scroll calls change it), never moves the cursor
      line up, and keeps every line stored before the run started. */
  lemma {:induction false} SbvWriteKeepsOffset(s: Sbv, bs: seq<Byte>)
    requires Tracks(s) && s.scrollRow <= s.rowPos
    ensures var t := SbvWriteBytesSpec(s, bs);
      t.rowPos - t.scrollRow == s.rowPos - s.scrollRow && t.rowPos >= s.rowPos &&
      t.scrollback[..|s.scrollback| - 1] == s.scrollback[..|s.scrollback| - 1]
    decreases |bs|
  {
    if bs != [] {
      var init := bs[..|bs| - 1];
      SbvWriteKeepsOffset(s, init);
      var m := SbvWriteBytesSpec(s, init);
      var t := SbvWriteBytesSpec(s, bs);
      var k := |s.scrollback| - 1;
      assert t == SbvWriteByteSpec(m, bs[|bs| - 1]);
      SbvWriteByteExtends(m, bs[|bs| - 1]);
      assert t.scrollback[..k] == t.scrollback[..m.rowPos][..k];
      assert m.scrollback[..k] == m.scrollback[..m.rowPos][..k];
    }
  }

  /** PlainVGA: the grid, a column on the bottom row and the colour. */
  class PlainVGA {
    var columnPosition: nat
    var colorCode: ColorCode
    const buffer: array2<ScreenChar>

    ghost predicate Valid()
    {
      buffer.Length0 == BUFFER_HEIGHT && buffer.Length1 == BUFFER_WIDTH
    }

    ghost function Cells(): (g: Grid)
      requires Valid()
      reads buffer
      ensures Writer.IsGrid(g)
      ensures forall i, j | 0 <= i < BUFFER_HEIGHT && 0 <= j < BUFFER_WIDTH :: g[i][j] == buffer[i, j]
    {
      seq(BUFFER_HEIGHT, i requires 0 <= i < BUFFER_HEIGHT reads buffer =>
        seq(BUFFER_WIDTH, j requires 0 <= j < BUFFER_WIDTH reads buffer => buffer[i, j]))
    }

    ghost function Snapshot(): Plain
      requires Valid()
      reads this, buffer
    {
      Plain(Cells(), columnPosition, colorCode)
    }

    /** The static `PLAINVGA`: column 0, light grey on black, over the given grid. */
    constructor (screen: array2<ScreenChar>)
      requires screen.Length0 == BUFFER_HEIGHT && screen.Length1 == BUFFER_WIDTH
      ensures Valid() && buffer == screen
      ensures columnPosition == 0 && colorCode == NewColorCode(LightGray, Black)
    {
      buffer := screen;
      columnPosition := 0;
      colorCode := NewColorCode(LightGray, Black);
    }

    /** `PlainVGA::move_cursor`: the bytes written to the cursor data port; the
        `try_into().unwrap()` needs the offset to fit in 16 bits. */
    static method MoveCursor(x: nat, y: nat) returns (emitted: seq<Byte>)
      requires Writer.CursorFits(y, x)
      ensures emitted == Writer.CursorBytes(y, x)
    {
      var pos := y * BUFFER_WIDTH + x;
      emitted := [pos % 256, (pos / 256) % 256];
    }

    /** `clear_row`. */
    method ClearRow(row: nat)
      requires Valid() && row < BUFFER_HEIGHT
      modifies buffer
      ensures Cells() == old(Cells())[row := Writer.BlankRow(colorCode)]
    {
      for col := 0 to BUFFER_WIDTH
        invariant forall i, j | 0 <= i < BUFFER_HEIGHT && 0 <= j < BUFFER_WIDTH ::
                    buffer[i, j] == if i == row && j < col then Blank(colorCode) else old(buffer[i, j])
      {
        buffer[row, col] := Blank(colorCode);
      }
      Writer.TextMode.GridsEqual(Cells(), old(Cells())[row := Writer.BlankRow(colorCode)]);
    }

    /** `PlainVGA::new_line`, with its row-shifting loops. */
    method NewLine()
      requires Valid()
      modifies this, buffer
      ensures Valid() && Snapshot() == PlainNewLineSpec(old(Snapshot()))
    {
      for row := 1 to BUFFER_HEIGHT
        modifies buffer
        invariant forall i, j | 0 <= i < BUFFER_HEIGHT && 0 <= j < BUFFER_WIDTH ::
                    buffer[i, j] == if i < row - 1 then old(buffer[i + 1, j]) else old(buffer[i, j])
      {
        for col := 0 to BUFFER_WIDTH
          modifies buffer
          invariant forall i, j | 0 <= i < BUFFER_HEIGHT && 0 <= j < BUFFER_WIDTH ::
                      buffer[i, j] == if i < row - 1 || (i == row - 1 && j < col) then old(buffer[i + 1, j]) else old(buffer[i, j])
        {
          buffer[row - 1, col] := buffer[row, col];
        }
      }
      ghost var shifted := Cells();
      assert forall i, j | 0 <= i < BUFFER_HEIGHT - 1 && 0 <= j < BUFFER_WIDTH :: shifted[i][j] == old(Cells())[i + 1][j];
      ClearRow(BUFFER_HEIGHT - 1);
      assert Cells() == shifted[BUFFER_HEIGHT - 1 := Writer.BlankRow(colorCode)];
      Writer.TextMode.GridsEqual(Cells(), Writer.ScrollUp(old(Cells()), colorCode));
      columnPosition := 0;
      var _ := MoveCursor(0, BUFFER_HEIGHT - 1);
    }

    /** `PlainVGA::write_byte`. */
    method WriteByte(b: Byte)
      requires Valid()
      modifies this, buffer
      ensures Valid() && Snapshot() == PlainWriteByteSpec(old(Snapshot()), b)
    {
      if b == NEWLINE {
        NewLine();
      } else {
        if columnPosition >= BUFFER_WIDTH {
          NewLine();
        }
        var row := BUFFER_HEIGHT - 1;
        var col := columnPosition;
        ghost var before := Snapshot();
        buffer[row, col] := ScreenChar(b, colorCode);
        columnPosition := columnPosition + 1;
        Writer.TextMode.GridsEqual(Cells(), Writer.PutCell(before.grid, row, col, ScreenChar(b, colorCode)));
        var _ := MoveCursor(columnPosition, BUFFER_HEIGHT - 1);
      }
    }

    /** `Writer::write_string` on PlainVGA: `write_byte` of each filtered byte. */
    method WriteString(bs: seq<Byte>)
      requires Valid()
      modifies this, buffer
      ensures Valid() && Snapshot() == PlainWriteStringSpec(old(Snapshot()), bs)
    {
      ghost var filtered := FilterBytes(bs);
      for i := 0 to |bs|
        invariant Valid()
        invariant Snapshot() == PlainWriteBytesSpec(old(Snapshot()), filtered[..i])
      {
        assert filtered[..i + 1][..i] == filtered[..i];
        var b := bs[i];
        if (0x20 <= b <= 0x7e) || b == NEWLINE {
          WriteByte(b);
        } else {
          WriteByte(REPLACEMENT);
        }
      }
      assert filtered[..|bs|] == filtered;
    }

    /** The interface's default `scroll_up`: nothing happens. */
    method ScrollUp(lines: nat)
      requires Valid()
      modifies this
      ensures Snapshot() == old(Snapshot())
    {
    }

    /** The interface's default `scroll_down`: nothing happens. */
    method ScrollDown(lines: nat)
      requires Valid()
      modifies this
      ensures Snapshot() == old(Snapshot())
    {
    }
  }

  /** ScrollbackVGA: every written line, the window, the cursor, the colour
      and the grid. */
  class ScrollbackVGA {
    var scrollback: seq<seq<ScreenChar>>
    var scrollRow: nat
    var columnPosition: nat
    var rowPosition: nat
    var colorCode: ColorCode
    const buffer: array2<ScreenChar>

    ghost predicate Shaped()
    {
      buffer.Length0 == BUFFER_HEIGHT && buffer.Length1 == BUFFER_WIDTH
    }

    ghost function Cells(): (g: Grid)
      requires Shaped()
      reads buffer
      ensures Writer.IsGrid(g)
      ensures forall i, j | 0 <= i < BUFFER_HEIGHT && 0 <= j < BUFFER_WIDTH :: g[i][j] == buffer[i, j]
    {
      seq(BUFFER_HEIGHT, i requires 0 <= i < BUFFER_HEIGHT reads buffer =>
        seq(BUFFER_WIDTH, j requires 0 <= j < BUFFER_WIDTH reads buffer => buffer[i, j]))
    }

    ghost function Snapshot(): Sbv
      requires Shaped()
      reads this, buffer
    {
      Sbv(scrollback, scrollRow, columnPosition, rowPosition, colorCode, Cells())
    }

    ghost predicate Valid()
      reads this, buffer
    {
      Shaped() && Tracks(Snapshot())
    }

    /** `init_scrollback`, over the given grid. */
    constructor (screen: array2<ScreenChar>)
      requires screen.Length0 == BUFFER_HEIGHT && screen.Length1 == BUFFER_WIDTH
      ensures Valid() && buffer == screen
      ensures Snapshot() == InitScrollback(Cells())
    {
      buffer := screen;
      columnPosition, rowPosition, scrollRow := 0, 0, 0;
      colorCode := NewColorCode(LightGray, Black);
      scrollback := [];
      scrollback := scrollback + [[]];
    }

    /** `update_screen` as evidently intended: the 25 lines from the first
        shown line, padded with blanks. */
    method UpdateScreen()
      requires Shaped()
      modifies buffer
      ensures Cells() == WindowGrid(scrollback, scrollRow, colorCode)
    {
      for row := 0 to BUFFER_HEIGHT
        invariant forall i, j | 0 <= i < BUFFER_HEIGHT && 0 <= j < BUFFER_WIDTH ::
                    buffer[i, j] == if i < row then WindowCell(scrollback, scrollRow, i, j, colorCode) else old(buffer[i, j])
      {
        for col := 0 to BUFFER_WIDTH
          invariant forall i, j | 0 <= i < BUFFER_HEIGHT && 0 <= j < BUFFER_WIDTH ::
                      buffer[i, j] == if i < row || (i == row && j < col) then WindowCell(scrollback, scrollRow, i, j, colorCode) else old(buffer[i, j])
        {
          var character := Blank(colorCode);
          if scrollRow + row < |scrollback| && col < |scrollback[scrollRow + row]| {
            character := scrollback[scrollRow + row][col];
          }
          buffer[row, col] := character;
        }
      }
      Writer.TextMode.GridsEqual(Cells(), WindowGrid(scrollback, scrollRow, colorCode));
    }

    /** `scroll_down`. */
    method ScrollDown(lines: nat)
      requires Shaped()
      modifies this, buffer
      ensures Shaped() && Snapshot() == ScrollDownSpec(old(Snapshot()), lines)
    {
      scrollRow := scrollRow + lines;
      UpdateScreen();
    }

    /** `scroll_up`; the unsigned subtraction needs `lines <= scroll_row`. */
    method ScrollUp(lines: nat)
      requires Shaped() && lines <= scrollRow
      modifies this, buffer
      ensures Shaped() && Snapshot() == ScrollUpSpec(old(Snapshot()), lines)
    {
      scrollRow := scrollRow - lines;
      UpdateScreen();
    }

    /** `ScrollbackVGA::new_line`. */
    method NewLine()
      requires Valid()
      modifies this, buffer
      ensures Valid() && Snapshot() == SbvNewLineSpec(old(Snapshot()))
    {
      scrollback := scrollback + [[]];
      rowPosition := rowPosition + 1;
      columnPosition := 0;
      ScrollDown(1);
    }

    /** `ScrollbackVGA::write_byte`, with the guard corrected to `row < 25`. */
    method WriteByte(b: Byte)
      requires Valid() && scrollRow <= rowPosition
      modifies this, buffer
      ensures Valid() && Snapshot() == SbvWriteByteSpec(old(Snapshot()), b)
    {
      if b == NEWLINE {
        NewLine();
      } else {
        if columnPosition >= BUFFER_WIDTH {
          NewLine();
        }
        var row := rowPosition - scrollRow;
        var col := columnPosition;
        var cell := ScreenChar(b, colorCode);
        scrollback := scrollback[rowPosition := scrollback[rowPosition] + [cell]];
        columnPosition := columnPosition + 1;
        if row < BUFFER_HEIGHT {
          ghost var before := Cells();
          buffer[row, col] := cell;
          Writer.TextMode.GridsEqual(Cells(), Writer.PutCell(before, row, col, cell));
          var _ := PlainVGA.MoveCursor(col + 1, row);
        }
      }
    }

    /** `Writer::write_string` on ScrollbackVGA: `write_byte` of each filtered byte. */
    method WriteString(bs: seq<Byte>)
      requires Valid() && scrollRow <= rowPosition
      modifies this, buffer
      ensures Valid() && Snapshot() == SbvWriteBytesSpec(old(Snapshot()), FilterBytes(bs))
    {
      ghost var filtered := FilterBytes(bs);
      for i := 0 to |bs|
        invariant Valid() && scrollRow <= rowPosition
        invariant Snapshot() == SbvWriteBytesSpec(old(Snapshot()), filtered[..i])
      {
        assert filtered[..i + 1][..i] == filtered[..i];
        var b := bs[i];
        if (0x20 <= b <= 0x7e) || b == NEWLINE {
          WriteByte(b);
        } else {
          WriteByte(REPLACEMENT);
        }
      }
      assert filtered[..|bs|] == filtered;
    }
  }
}
