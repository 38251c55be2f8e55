/** The fixed-size scrollback console: 1000 stored rows of 80 cells, a
    cursor `(row, col)` into them and a viewport starting at `scroll_row`.
    Every change is mirrored on the hardware writer; the model returns the
    calls made on the writer, in order, instead of performing them. */
module Screenbuffer {
  import opened Colors
  import opened Wrappers

  /** Number of stored rows. */
  const SCROLLBACK_ROWS: nat := 1000

  /** The last first-row for which a whole screen of stored rows exists. */
  const MAX_SCROLL_ROW: nat := SCROLLBACK_ROWS - BUFFER_HEIGHT

  /** The two scroll escapes this console understands. */
  datatype EscapeChar = ScrollUp | ScrollDown

  /** The in-band byte of an escape (`EscapeChar as u8`): 1 or 2, never a
      line feed. */
  function EscapeCode(e: EscapeChar): (c: Byte)
    ensures 1 <= c <= 2
  {
    match e
    case ScrollUp => 1
    case ScrollDown => 2
  }

  /** One call made on the hardware writer. */
  datatype WriterCall =
    | NewLine
    | MoveCursor(x: nat, y: nat)
    | WriteScreenChar(ch: ScreenChar)
    | WriteByte(b: Byte)

  /** The stored rows as a value. */
  type Scrollback = seq<seq<ScreenChar>>

  predicate IsScrollback(g: Scrollback)
  {
    |g| == SCROLLBACK_ROWS && forall r | 0 <= r < |g| :: |g[r]| == BUFFER_WIDTH
  }

  /** The whole console state as a value. */
  datatype SbState = SbState(scrollback: Scrollback, col: nat, row: nat, scrollRow: nat)

  /** The state every operation keeps: 1000 rows of 80 cells and a viewport
      that lies inside them. */
  predicate Consistent(s: SbState)
  {
    IsScrollback(s.scrollback) && s.scrollRow <= MAX_SCROLL_ROW
  }

  /** `Screenbuffer::new`: every cell a blank in the default colour, everything at 0. */
  function InitialState(): (s: SbState)
    ensures Consistent(s)
    ensures s.col == 0 && s.row == 0 && s.scrollRow == 0
    ensures forall r, c | 0 <= r < SCROLLBACK_ROWS && 0 <= c < BUFFER_WIDTH ::
              s.scrollback[r][c] == Blank(DefaultColorCode())
  {
    SbState(seq(SCROLLBACK_ROWS, _ => seq(BUFFER_WIDTH, _ => Blank(DefaultColorCode()))), 0, 0, 0)
  }

  /** The clamp AS WRITTEN in `scroll`: at most 1000. */
  function ClampAsWritten(scrollRow: nat, lines: nat): (r: nat)
    ensures r <= SCROLLBACK_ROWS
  {
    if scrollRow + lines > SCROLLBACK_ROWS then SCROLLBACK_ROWS else scrollRow + lines
  }

  /** The repaint slice `scrollback[scroll_row .. scroll_row + 25]` is in bounds. */
  predicate RepaintInBounds(scrollRow: nat)
  {
    scrollRow + BUFFER_HEIGHT <= SCROLLBACK_ROWS
  }

  /** The as-written clamp lets the first row go past 975, where the repaint
      slice runs off the end of the stored rows: from the last valid first
      row one more scroll-down already panics. */
  lemma ClampAsWrittenOverruns()
    ensures RepaintInBounds(MAX_SCROLL_ROW)
    ensures ClampAsWritten(MAX_SCROLL_ROW, 1) == MAX_SCROLL_ROW + 1
    ensures !RepaintInBounds(ClampAsWritten(MAX_SCROLL_ROW, 1))
  {
  }

  /** The clamp as evidently intended: scroll down by `lines`, but never past
      the last row that still has a whole screen below it. */
  function ClampScrollRow(scrollRow: nat, lines: nat): (r: nat)
    ensures RepaintInBounds(r)
    ensures r <= scrollRow + lines
    ensures r == scrollRow + lines || r == MAX_SCROLL_ROW
  {
    if scrollRow + lines > MAX_SCROLL_ROW then MAX_SCROLL_ROW else scrollRow + lines
  }

  /** Wherever the as-written clamp does not overrun, the two clamps agree. */
  lemma ClampAgreesInBounds(scrollRow: nat, lines: nat)
    requires RepaintInBounds(ClampAsWritten(scrollRow, lines))
    ensures ClampScrollRow(scrollRow, lines) == ClampAsWritten(scrollRow, lines)
  {
  }

  /** `scroll`'s new first row: the clamped scroll down, or a scroll up that
      stops at 0. */
  function ScrolledRow(scrollRow: nat, lines: nat, down: bool): (r: nat)
    ensures down || RepaintInBounds(scrollRow) ==> RepaintInBounds(r)
    ensures !down ==> r <= scrollRow && scrollRow <= r + lines && (r == 0 || r + lines == scrollRow)
  {
    if down then ClampScrollRow(scrollRow, lines)
    else if scrollRow >= lines then scrollRow - lines
    else 0
  }

  /** The writer calls that repaint one stored row. */
  function LineCalls(line: seq<ScreenChar>): (calls: seq<WriterCall>)
    ensures |calls| == |line|
    ensures forall c | 0 <= c < |line| :: calls[c] == WriteScreenChar(line[c])
  {
    seq(|line|, c requires 0 <= c < |line| => WriteScreenChar(line[c]))
  }

  /** Position of cell `(r, c)` in a row-major run over full-width rows. */
  function CellIndex(r: nat, c: nat): nat
  {
    r * BUFFER_WIDTH + c
  }

  /** The writer calls that repaint stored rows `from .. from + n`, in order. */
  function RowsCalls(g: Scrollback, from: nat, n: nat): (calls: seq<WriterCall>)
    requires IsScrollback(g) && from + n <= |g|
    ensures |calls| == n * BUFFER_WIDTH
    decreases n
  {
    if n == 0 then [] else RowsCalls(g, from, n - 1) + LineCalls(g[from + n - 1])
  }

  /** The repaint writes, cell by cell in row-major order, exactly the stored
      rows from `from` on. */
  lemma {:induction false} RowsCallsCells(g: Scrollback, from: nat, n: nat)
    requires IsScrollback(g) && from + n <= |g|
    ensures forall k | 0 <= k < |RowsCalls(g, from, n)| :: RowsCalls(g, from, n)[k].WriteScreenChar?
    ensures forall r, c | 0 <= r < n && 0 <= c < BUFFER_WIDTH ::
              RowsCalls(g, from, n)[CellIndex(r, c)] == WriteScreenChar(g[from + r][c])
    decreases n
  {
    if n > 0 {
      RowsCallsCells(g, from, n - 1);
      var prefix := RowsCalls(g, from, n - 1);
      var calls := RowsCalls(g, from, n);
      assert calls == prefix + LineCalls(g[from + n - 1]);
      forall r, c | 0 <= r < n && 0 <= c < BUFFER_WIDTH
        ensures calls[CellIndex(r, c)] == WriteScreenChar(g[from + r][c])
      {
        if r < n - 1 {
          assert CellIndex(r, c) < (n - 1) * BUFFER_WIDTH;
          assert calls[CellIndex(r, c)] == prefix[CellIndex(r, c)];
        } else {
          assert CellIndex(r, c) == |prefix| + c;
        }
      }
    }
  }

  /** The repaint of the viewport at `scrollRow`. */
  function Repaint(g: Scrollback, scrollRow: nat): (calls: seq<WriterCall>)
    requires IsScrollback(g) && RepaintInBounds(scrollRow)
    ensures |calls| == BUFFER_HEIGHT * BUFFER_WIDTH
    ensures forall r, c | 0 <= r < BUFFER_HEIGHT && 0 <= c < BUFFER_WIDTH ::
              calls[CellIndex(r, c)] == WriteScreenChar(g[scrollRow + r][c])
  {
    RowsCallsCells(g, scrollRow, BUFFER_HEIGHT);
    RowsCalls(g, scrollRow, BUFFER_HEIGHT)
  }

  /** The writer calls `scroll` makes once the first row is `sr`: scrolling
      down also moves the writer a line; the grid is then repainted from
      `sr`, and the cursor is restored when its row is not above the
      viewport. */
  function ScrollCalls(g: Scrollback, row: nat, col: nat, sr: nat, down: bool): (calls: seq<WriterCall>)
    requires IsScrollback(g) && RepaintInBounds(sr)
    ensures |calls| == (if down then 1 else 0) + 1 + BUFFER_HEIGHT * BUFFER_WIDTH + (if row >= sr then 1 else 0)
  {
    (if down then [NewLine] else []) + [MoveCursor(0, 0)] + Repaint(g, sr) +
    (if row >= sr then [MoveCursor(col, row - sr)] else [])
  }

  /** `scroll(lines, down)`: the new state and the writer calls. */
  function ScrollSpec(s: SbState, lines: nat, down: bool): (result: (SbState, seq<WriterCall>))
    requires Consistent(s)
    ensures Consistent(result.0)
  {
    var sr := ScrolledRow(s.scrollRow, lines, down);
    (s.(scrollRow := sr), ScrollCalls(s.scrollback, s.row, s.col, sr, down))
  }

  /** `new_line`: next row, column 0; scroll down one line when the new row
      falls below the viewport, otherwise just move the writer a line. */
  function NewLineSpec(s: SbState): (result: (SbState, seq<WriterCall>))
    requires Consistent(s)
    ensures Consistent(result.0)
  {
    var moved := s.(row := s.row + 1, col := 0);
    if moved.row >= moved.scrollRow + BUFFER_HEIGHT then ScrollSpec(moved, 1, true)
    else (moved, [NewLine])
  }

  /** The row a printable byte is stored on: the next one when the column is
      past the right edge. */
  function StoreRow(s: SbState): nat
  {
    if s.col >= BUFFER_WIDTH then s.row + 1 else s.row
  }

  /** A byte that is a line feed or one of the two escapes. */
  predicate IsControl(b: Byte)
  {
    b == NEWLINE || b == EscapeCode(ScrollDown) || b == EscapeCode(ScrollUp)
  }

  /** A printable byte: wrap to the next row when the column is past the
      edge, store the byte in the default colour at the cursor, advance the
      column, and echo the byte to the writer when its row is on screen.
      None when the row is past the stored rows. */
  function PutByteSpec(s: SbState, b: Byte): (result: Option<(SbState, seq<WriterCall>)>)
    requires Consistent(s)
    ensures result.Some? <==> StoreRow(s) < SCROLLBACK_ROWS
    ensures result.Some? ==> Consistent(result.value.0) && result.value.0.row == StoreRow(s)
  {
    var (w, calls) := if s.col >= BUFFER_WIDTH then NewLineSpec(s) else (s, []);
    if w.row >= SCROLLBACK_ROWS then None
    else
      var stored := w.scrollback[w.row := w.scrollback[w.row][w.col := ScreenChar(b, DefaultColorCode())]];
      var echo := if w.scrollRow <= w.row < w.scrollRow + BUFFER_HEIGHT then [WriteByte(b)] else [];
      Some((w.(scrollback := stored, col := w.col + 1), calls + echo))
  }

  /** `write_byte`: None when storing would index past the 1000 stored rows. */
  function WriteByteSpec(s: SbState, b: Byte): (result: Option<(SbState, seq<WriterCall>)>)
    requires Consistent(s)
    ensures result.Some? <==> IsControl(b) || StoreRow(s) < SCROLLBACK_ROWS
    ensures result.Some? ==> Consistent(result.value.0) && result.value.0.row <= s.row + 1
  {
    if b == NEWLINE then Some(NewLineSpec(s))
    else if b == EscapeCode(ScrollDown) then Some(ScrollSpec(s, 1, true))
    else if b == EscapeCode(ScrollUp) then Some(ScrollSpec(s, 1, false))
    else PutByteSpec(s, b)
  }

  /** `write_string`: `write_byte(c as u8)` for each character, stopping at
      the first byte that would panic. */
  function WriteStringSpec(s: SbState, str: string): (result: Option<(SbState, seq<WriterCall>)>)
    requires Consistent(s)
    ensures result.Some? ==> Consistent(result.value.0)
    decreases |str|
  {
    if str == [] then Some((s, []))
    else match WriteStringSpec(s, str[..|str| - 1])
      case None => None
      case Some((m, calls)) =>
        match WriteByteSpec(m, CharToByte(str[|str| - 1]))
        case None => None
        case Some((t, more)) => Some((t, calls + more))
  }

  /** A scroll never touches the stored rows or the cursor; the writer
      receives exactly the stored rows of the new viewport, and the cursor
      is restored (the last call is a cursor move) exactly when its row is
      not above the viewport. */
  lemma ScrollRepaintsViewport(s: SbState, lines: nat, down: bool)
    requires Consistent(s)
    ensures var (t, calls) := ScrollSpec(s, lines, down);
      var first := if down then 1 else 0;
      t.scrollback == s.scrollback && t.row == s.row && t.col == s.col &&
      (down <==> calls[0] == NewLine) &&
      calls[first] == MoveCursor(0, 0) &&
      (forall r, c | 0 <= r < BUFFER_HEIGHT && 0 <= c < BUFFER_WIDTH ::
         calls[first + 1 + CellIndex(r, c)] == WriteScreenChar(s.scrollback[t.scrollRow + r][c])) &&
      (calls[|calls| - 1].MoveCursor? <==> s.row >= t.scrollRow) &&
      (s.row >= t.scrollRow ==> calls[|calls| - 1] == MoveCursor(s.col, s.row - t.scrollRow))
  {
    var sr := ScrolledRow(s.scrollRow, lines, down);
    ScrollCallsShape(s.scrollback, s.row, s.col, sr, down);
  }

  /** The layout of the calls `scroll` makes, for any scroll row that stays
      in bounds. */
  lemma ScrollCallsShape(g: Scrollback, row: nat, col: nat, sr: nat, down: bool)
    requires IsScrollback(g) && RepaintInBounds(sr)
    ensures var calls := ScrollCalls(g, row, col, sr, down);
      var first := if down then 1 else 0;
      (down <==> calls[0] == NewLine) &&
      calls[first] == MoveCursor(0, 0) &&
      (forall r, c | 0 <= r < BUFFER_HEIGHT && 0 <= c < BUFFER_WIDTH ::
         calls[first + 1 + CellIndex(r, c)] == WriteScreenChar(g[sr + r][c])) &&
      (calls[|calls| - 1].MoveCursor? <==> row >= sr) &&
      (row >= sr ==> calls[|calls| - 1] == MoveCursor(col, row - sr))
  {
    var calls := ScrollCalls(g, row, col, sr, down);
    var first := if down then 1 else 0;
    var pre := if down then [NewLine] else [];
    var paint := Repaint(g, sr);
    RowsCallsCells(g, sr, BUFFER_HEIGHT);
    var restore := if row >= sr then [MoveCursor(col, row - sr)] else [];
    var head := pre + [MoveCursor(0, 0)] + paint;
    assert calls == head + restore;
    assert |pre| == first && |head| == first + 1 + |paint|;
    assert head[first] == MoveCursor(0, 0);
    forall r, c | 0 <= r < BUFFER_HEIGHT && 0 <= c < BUFFER_WIDTH
      ensures calls[first + 1 + CellIndex(r, c)] == WriteScreenChar(g[sr + r][c])
    {
      var k := CellIndex(r, c);
      assert head[first + 1 + k] == paint[k];
    }
    if row < sr {
      assert calls == head;
      assert calls[|calls| - 1] == paint[|paint| - 1];
    }
  }

  /** A line feed moves to column 0 of the next row without touching the
      stored rows, always moves the writer a line first, and scrolls (with
      the clamp) exactly when the new row reaches the bottom of the viewport. */
  lemma LineFeedMovesDown(s: SbState)
    requires Consistent(s)
    ensures WriteByteSpec(s, NEWLINE).Some?
    ensures var (t, calls) := WriteByteSpec(s, NEWLINE).value;
      t.row == s.row + 1 && t.col == 0 && t.scrollback == s.scrollback &&
      calls[0] == NewLine &&
      t.scrollRow == if s.row + 1 >= s.scrollRow + BUFFER_HEIGHT then ClampScrollRow(s.scrollRow, 1) else s.scrollRow
  {
    if s.row + 1 >= s.scrollRow + BUFFER_HEIGHT {
      ScrollRepaintsViewport(s.(row := s.row + 1, col := 0), 1, true);
    }
  }

  /** Byte 2 scrolls down one line, clamped so the viewport stays inside the
      stored rows; byte 1 scrolls up one line, stopping at 0. */
  lemma ScrollEscapes(s: SbState)
    requires Consistent(s)
    ensures WriteByteSpec(s, EscapeCode(ScrollDown)).Some? && WriteByteSpec(s, EscapeCode(ScrollUp)).Some?
    ensures WriteByteSpec(s, EscapeCode(ScrollDown)).value.0 ==
            s.(scrollRow := if s.scrollRow < MAX_SCROLL_ROW then s.scrollRow + 1 else MAX_SCROLL_ROW)
    ensures WriteByteSpec(s, EscapeCode(ScrollUp)).value.0 ==
            s.(scrollRow := if s.scrollRow == 0 then 0 else s.scrollRow - 1)
  {
  }

  /** A printable byte is stored at the cursor (after wrapping to column 0
      of the next row when the column is past the edge), no other stored cell
      changes, the column advances, and the byte is echoed to the writer
      exactly when its row is inside the viewport. */
  lemma PrintableStoresOneCell(s: SbState, b: Byte)
    requires Consistent(s) && !IsControl(b) && StoreRow(s) < SCROLLBACK_ROWS
    ensures var (t, calls) := WriteByteSpec(s, b).value;
      var wrapped := s.col >= BUFFER_WIDTH;
      var c := if wrapped then 0 else s.col;
      t.row == StoreRow(s) && t.col == c + 1 && c < BUFFER_WIDTH &&
      t.scrollback == s.scrollback[t.row := s.scrollback[t.row][c := ScreenChar(b, DefaultColorCode())]] &&
      (WriteByte(b) in calls <==> t.scrollRow <= t.row < t.scrollRow + BUFFER_HEIGHT)
  {
    var (t, calls) := WriteByteSpec(s, b).value;
    if s.col >= BUFFER_WIDTH {
      var moved := s.(row := s.row + 1, col := 0);
      var (w, nl) := NewLineSpec(s);
      if moved.row >= moved.scrollRow + BUFFER_HEIGHT {
        ScrollRepaintsViewport(moved, 1, true);
        RowsCallsCells(moved.scrollback, w.scrollRow, BUFFER_HEIGHT);
        var paint := Repaint(moved.scrollback, w.scrollRow);
        var restore := if moved.row >= w.scrollRow then [MoveCursor(moved.col, moved.row - w.scrollRow)] else [];
        assert nl == [NewLine] + [MoveCursor(0, 0)] + paint + restore;
        assert WriteByte(b) !in paint;
      }
      assert WriteByte(b) !in nl;
    }
  }

  /** Each byte moves the cursor at most one row down, so a string with fewer
      characters than the rows left below the cursor never panics. */
  lemma {:induction false} WriteStringFits(s: SbState, str: string)
    requires Consistent(s) && s.row + |str| < SCROLLBACK_ROWS
    ensures WriteStringSpec(s, str).Some?
    ensures WriteStringSpec(s, str).value.0.row <= s.row + |str|
    decreases |str|
  {
    if str != [] {
      WriteStringFits(s, str[..|str| - 1]);
    }
  }

  /** The stored rows and the cursor fields, updated in place. */
  class Screenbuffer {
    const scrollback: array2<ScreenChar>
    var col: nat
    var row: nat
    var scrollRow: nat

    ghost predicate Shaped()
    {
      scrollback.Length0 == SCROLLBACK_ROWS && scrollback.Length1 == BUFFER_WIDTH
    }

    /** The stored rows as a value. */
    ghost function Rows(): (g: Scrollback)
      requires Shaped()
      reads scrollback
      ensures IsScrollback(g)
      ensures forall r, c | 0 <= r < SCROLLBACK_ROWS && 0 <= c < BUFFER_WIDTH :: g[r][c] == scrollback[r, c]
    {
      seq(SCROLLBACK_ROWS, r requires 0 <= r < SCROLLBACK_ROWS reads scrollback =>
        seq(BUFFER_WIDTH, c requires 0 <= c < BUFFER_WIDTH reads scrollback => scrollback[r, c]))
    }

    /** The whole console as a value. */
    ghost function State(): (s: SbState)
      requires Shaped()
      reads this, scrollback
      ensures Valid() ==> Consistent(s)
    {
      SbState(Rows(), col, row, scrollRow)
    }

    /** The array has the stored rows' shape and the viewport lies inside them. */
    ghost predicate Valid()
      reads this
    {
      Shaped() && scrollRow <= MAX_SCROLL_ROW
    }

    /** Two row sets that agree on every cell are equal. */
    static lemma RowsEqual(a: Scrollback, b: Scrollback)
      requires IsScrollback(a) && IsScrollback(b)
      requires forall r, c | 0 <= r < SCROLLBACK_ROWS && 0 <= c < BUFFER_WIDTH :: a[r][c] == b[r][c]
      ensures a == b
    {
      forall r | 0 <= r < SCROLLBACK_ROWS
        ensures a[r] == b[r]
      {
        assert forall c | 0 <= c < BUFFER_WIDTH :: a[r][c] == b[r][c];
      }
    }

    /** `Screenbuffer::new`. */
    constructor ()
      ensures Valid() && fresh(scrollback)
      ensures State() == InitialState()
    {
      scrollback := new ScreenChar[SCROLLBACK_ROWS, BUFFER_WIDTH]((_, _) => Blank(DefaultColorCode()));
      col, row, scrollRow := 0, 0, 0;
      new;
      RowsEqual(Rows(), InitialState().scrollback);
    }

    /** The repaint loop of `scroll`: every cell of the 25 stored rows from
        `sr` on, row by row, as writer calls. */
    method RepaintCalls(sr: nat) returns (calls: seq<WriterCall>)
      requires Shaped() && RepaintInBounds(sr)
      ensures calls == Repaint(Rows(), sr)
    {
      calls := [];
      for r := 0 to BUFFER_HEIGHT
        invariant calls == RowsCalls(Rows(), sr, r)
      {
        ghost var line := LineCalls(Rows()[sr + r]);
        for c := 0 to BUFFER_WIDTH
          invariant calls == RowsCalls(Rows(), sr, r) + line[..c]
        {
          assert line[..c + 1] == line[..c] + [WriteScreenChar(scrollback[sr + r, c])];
          calls := calls + [WriteScreenChar(scrollback[sr + r, c])];
        }
        assert line[..BUFFER_WIDTH] == line;
      }
    }

    /** `scroll`, returning the writer calls it makes. */
    method Scroll(lines: nat, down: bool) returns (calls: seq<WriterCall>)
      requires Valid()
      modifies this
      ensures Valid()
      ensures row == old(row) && col == old(col) && scrollRow == ScrolledRow(old(scrollRow), lines, down)
      ensures calls == ScrollCalls(Rows(), row, col, scrollRow, down)
    {
      var pre := [];
      if down {
        scrollRow := scrollRow + lines;
        if scrollRow > MAX_SCROLL_ROW {
          scrollRow := MAX_SCROLL_ROW;
        }
        pre := [WriterCall.NewLine];
      } else {
        if scrollRow >= lines {
          scrollRow := scrollRow - lines;
        } else {
          scrollRow := 0;
        }
      }
      var paint := RepaintCalls(scrollRow);
      var restore := [];
      if row >= scrollRow {
        restore := [MoveCursor(col, row - scrollRow)];
      }
      calls := pre + [MoveCursor(0, 0)] + paint + restore;
    }

    /** `new_line`, returning the writer calls it makes. */
    method NewLine() returns (calls: seq<WriterCall>)
      requires Valid()
      modifies this
      ensures Valid()
      ensures State() == NewLineSpec(old(State())).0
      ensures calls == NewLineSpec(old(State())).1
    {
      row := row + 1;
      col := 0;
      if row >= scrollRow + BUFFER_HEIGHT {
        calls := Scroll(1, true);
      } else {
        calls := [WriterCall.NewLine];
      }
    }

    /** `write_byte`, returning the writer calls it makes; the caller must not
        drive the cursor past the last stored row. */
    method WriteByte(b: Byte) returns (calls: seq<WriterCall>)
      requires Valid() && WriteByteSpec(State(), b).Some?
      modifies this, scrollback
      ensures Valid()
      ensures State() == WriteByteSpec(old(State()), b).value.0
      ensures calls == WriteByteSpec(old(State()), b).value.1
    {
      if b == NEWLINE {
        calls := NewLine();
      } else if b == EscapeCode(ScrollDown) {
        calls := Scroll(1, true);
      } else if b == EscapeCode(ScrollUp) {
        calls := Scroll(1, false);
      } else {
        calls := [];
        if col >= BUFFER_WIDTH {
          calls := NewLine();
        }
        ghost var before := Rows();
        scrollback[row, col] := ScreenChar(b, DefaultColorCode());
        RowsEqual(Rows(), before[row := before[row][col := ScreenChar(b, DefaultColorCode())]]);
        col := col + 1;
        if scrollRow <= row && row < scrollRow + BUFFER_HEIGHT {
          calls := calls + [WriterCall.WriteByte(b)];
        }
      }
    }

    /** `write_string`, returning the writer calls it makes. */
    method WriteString(s: string) returns (calls: seq<WriterCall>)
      requires Valid() && WriteStringSpec(State(), s).Some?
      modifies this, scrollback
      ensures Valid()
      ensures State() == WriteStringSpec(old(State()), s).value.0
      ensures calls == WriteStringSpec(old(State()), s).value.1
    {
      calls := [];
      for i := 0 to |s|
        invariant Valid()
        invariant WriteStringSpec(old(State()), s[..i]) == Some((State(), calls))
      {
        assert s[..i + 1][..i] == s[..i];
        PrefixFits(old(State()), s, i + 1);
        var more := WriteByte(CharToByte(s[i]));
        calls := calls + more;
      }
      assert s[..|s|] == s;
    }
  }

  /** When a whole string can be written, so can each of its prefixes. */
  lemma {:induction false} PrefixFits(s: SbState, str: string, n: nat)
    requires Consistent(s) && n <= |str| && WriteStringSpec(s, str).Some?
    ensures WriteStringSpec(s, str[..n]).Some?
    decreases |str|
  {
    if n < |str| {
      assert str[..|str| - 1][..n] == str[..n];
      PrefixFits(s, str[..|str| - 1], n);
    } else {
      assert str[..n] == str;
    }
  }
}
