/** The virtual-terminal multiplexer. It keeps which terminal is shown, an
    absolute cursor `(row, col)` into that terminal's content, and the first
    visible line `scroll_row`. Control bytes travel in the same byte stream
    as text: 1-4 scroll, 0xF0/0xF1 switch terminal, a line feed starts a new
    line, and anything else is text for the Console. The Console's content is
    a Textbuffer owned by the multiplexer; the KernelLog's buffer belongs to
    the logging subsystem and is passed in where it is read. */
module Term {
  import opened Colors
  import Textbuffer
  import Writer
  import opened Wrappers

  /** The terminals the multiplexer can show. */
  datatype VirtualTerminal = KernelLog | Console

  /** The in-band byte that switches to a terminal (`VirtualTerminals as u8`);
      it is never a scroll escape or a line feed. */
  function TerminalCode(t: VirtualTerminal): (c: Byte)
    ensures c >= 0xF0
  {
    match t
    case KernelLog => 0xF0
    case Console => 0xF1
  }

  /** The scroll escapes. */
  datatype EscapeChar = ScrollUp | ScrollDown | ScrollHome | ScrollEnd

  /** The in-band byte of an escape (`EscapeChar as u8`); the escapes are
      the bytes 1 to 4, none of them a line feed or a terminal switch. */
  function EscapeCode(e: EscapeChar): (c: Byte)
    ensures 1 <= c <= 4
  {
    match e
    case ScrollUp => 1
    case ScrollDown => 2
    case ScrollHome => 3
    case ScrollEnd => 4
  }

  /** The arm of `write_byte`'s match that a byte selects. */
  datatype Action = Focus(target: VirtualTerminal) | Escape(escape: EscapeChar) | LineFeed | Text(byte: Byte)

  /** The byte that selects a control action. */
  function ActionByte(a: Action): Byte
  {
    match a
    case Focus(t) => TerminalCode(t)
    case Escape(e) => EscapeCode(e)
    case LineFeed => NEWLINE
    case Text(b) => b
  }

  /** `write_byte`'s dispatch, in the order of its match arms. */
  function Decode(b: Byte): (a: Action)
    ensures ActionByte(a) == b
  {
    if b == TerminalCode(KernelLog) then Focus(KernelLog)
    else if b == TerminalCode(Console) then Focus(Console)
    else if b == EscapeCode(ScrollDown) then Escape(ScrollDown)
    else if b == EscapeCode(ScrollUp) then Escape(ScrollUp)
    else if b == EscapeCode(ScrollHome) then Escape(ScrollHome)
    else if b == EscapeCode(ScrollEnd) then Escape(ScrollEnd)
    else if b == NEWLINE then LineFeed
    else Text(b)
  }

  /** Every control action is recognised from its byte before any text
      handling, and a byte is text exactly when it is none of the seven
      reserved values. */
  lemma DecodeRecognisesControl(a: Action)
    ensures !a.Text? ==> Decode(ActionByte(a)) == a
    ensures a.Text? ==> (Decode(ActionByte(a)) == a <==>
      a.byte !in {1, 2, 3, 4, NEWLINE as int, 0xF0, 0xF1})
  {
    match a
    case Focus(t) =>
    case Escape(e) =>
    case LineFeed =>
    case Text(b) =>
  }

  /** A terminal's end-of-content coordinate `(row, col)`: `end_coord()` of its
      buffer, which the model takes from the caller. */
  datatype Coord = Coord(row: nat, col: nat)

  /** `end_coord()` of the Console buffer as a function of its lines, so that
      each switch to the Console reads it from the Console as it is then. */
  type EndCoord = seq<Textbuffer.BufferLine> -> Coord

  /** Everything the multiplexer holds, with the Console buffer's lines. */
  datatype TermState = TermState(
    active: VirtualTerminal,
    lines: seq<Textbuffer.BufferLine>,
    row: nat,
    col: nat,
    scrollRow: nat)

  /** The Console buffer's own invariant: it always has a line. */
  predicate HasLine(s: TermState)
  {
    |s.lines| >= 1
  }

  /** `Term::new`: the Console, a fresh buffer, everything at 0. */
  function InitialState(): (s: TermState)
    ensures s.active == Console && s.row == 0 && s.col == 0 && s.scrollRow == 0
    ensures |s.lines| == 1 && s.lines[0].chars == []
  {
    TermState(Console, Textbuffer.EmptyLines(), 0, 0, 0)
  }

  /** The row a cursor that is not visible is parked on. */
  const OFFSCREEN_ROW: nat := BUFFER_HEIGHT + 1

  /** The cursor lies inside the viewport. */
  predicate CursorVisible(s: TermState)
  {
    s.scrollRow <= s.row < s.scrollRow + BUFFER_HEIGHT
  }

  /** `get_cursor`: the hardware cursor position `(x, y)` for the viewport.
      The source's middle branch (`row > scroll_row + 25` after `row <
      scroll_row`) can never be taken, so here a cursor above the viewport is
      always parked off-screen; GetCursor keeps that branch. */
  function GetCursorSpec(s: TermState): (pos: (nat, nat))
    ensures pos.0 == s.col
    ensures pos.1 == if s.row >= s.scrollRow then s.row - s.scrollRow else OFFSCREEN_ROW
    ensures pos.1 < BUFFER_HEIGHT <==> CursorVisible(s)
  {
    if s.row >= s.scrollRow then (s.col, s.row - s.scrollRow)
    else (s.col, OFFSCREEN_ROW)
  }

  /** `scroll`'s new first row: `lines` further down, or `lines` further up
      stopping at 0. */
  function ScrolledRow(scrollRow: nat, lines: nat, down: bool): (r: nat)
    ensures down ==> r == scrollRow + lines
    ensures !down ==> r <= scrollRow && scrollRow <= r + lines && (r == 0 || r + lines == scrollRow)
  {
    if down then scrollRow + lines
    else if scrollRow >= lines then scrollRow - lines
    else 0
  }

  /** `focus_cursor`'s first row: the least one that still shows `row`; it
      puts the cursor on the bottom line whenever it scrolls at all. */
  function FocusRow(row: nat): (r: nat)
    ensures r <= row < r + BUFFER_HEIGHT
    ensures r == 0 || row == r + BUFFER_HEIGHT - 1
  {
    if row > BUFFER_HEIGHT - 1 then row - BUFFER_HEIGHT + 1 else 0
  }

  /** `scroll`: only the first visible row changes. */
  function ScrollSpec(s: TermState, lines: nat, down: bool): (t: TermState)
    ensures t == s.(scrollRow := t.scrollRow)
    ensures down ==> t.scrollRow == s.scrollRow + lines
    ensures !down ==> t.scrollRow <= s.scrollRow
  {
    s.(scrollRow := ScrolledRow(s.scrollRow, lines, down))
  }

  function FocusCursorSpec(s: TermState): (t: TermState)
    ensures CursorVisible(t)
  {
    s.(scrollRow := FocusRow(s.row))
  }

  /** `Term::new_line`: next row, column 0, scroll down one line when the new
      row falls below the viewport, and on the Console one more buffer line. */
  function NewLineSpec(s: TermState): (t: TermState)
    ensures t.active == s.active && t.row == s.row + 1 && t.col == 0
    ensures t.lines == if s.active == Console then s.lines + [Textbuffer.BufferLine([])] else s.lines
    ensures t.scrollRow == s.scrollRow || t.scrollRow == s.scrollRow + 1
    ensures CursorVisible(s) ==> CursorVisible(t)
  {
    var moved := s.(row := s.row + 1, col := 0);
    var scrolled := if moved.row >= moved.scrollRow + BUFFER_HEIGHT then ScrollSpec(moved, 1, true) else moved;
    if s.active == Console then scrolled.(lines := scrolled.lines + [Textbuffer.BufferLine([])])
    else scrolled
  }

  /** `change_focus`: show `target`, put the cursor at its end coordinate and
      bring the cursor into view. */
  function ChangeFocusSpec(s: TermState, target: VirtualTerminal, end: Coord): (t: TermState)
    ensures t.active == target && t.row == end.row && t.col == end.col && t.lines == s.lines
    ensures CursorVisible(t)
  {
    FocusCursorSpec(s.(active := target, row := end.row, col := end.col))
  }

  /** A printable byte on the Console: wrap when the column is past the
      right edge, snap the viewport when the cursor is outside it, append the
      character to the current line and advance the column. */
  function PutCharSpec(s: TermState, b: Byte): (t: TermState)
    requires HasLine(s)
    ensures HasLine(t) && |t.lines| >= |s.lines| && t.active == s.active
    ensures CursorVisible(t) && 1 <= t.col <= BUFFER_WIDTH
  {
    var w := if s.col >= BUFFER_WIDTH then NewLineSpec(s) else s;
    var f := if w.row >= w.scrollRow + BUFFER_HEIGHT || w.row < w.scrollRow then FocusCursorSpec(w) else w;
    f.(col := f.col + 1,
       lines := Textbuffer.PushCell(f.lines, |f.lines| - 1, Textbuffer.BufferCharacter(b as char, Textbuffer.DefaultColor())))
  }

  /** `write_byte`. Control bytes behave the same on both terminals; line
      feeds and text only reach the Console. */
  function WriteByteSpec(s: TermState, b: Byte, logEnd: Coord, consoleEnd: EndCoord): (t: TermState)
    requires HasLine(s)
    ensures HasLine(t)
  {
    match Decode(b)
    case Focus(target) => ChangeFocusSpec(s, target, if target == KernelLog then logEnd else consoleEnd(s.lines))
    case Escape(ScrollDown) => ScrollSpec(s, 1, true)
    case Escape(ScrollUp) => ScrollSpec(s, 1, false)
    case Escape(ScrollHome) => s.(scrollRow := 0)
    case Escape(ScrollEnd) => FocusCursorSpec(s)
    case LineFeed => if s.active == Console then NewLineSpec(s) else s
    case Text(c) => if s.active == Console then PutCharSpec(s, c) else s
  }

  /** `write_string`: `write_byte(c as u8)` for every character, in order. */
  function WriteStringSpec(s: TermState, str: string, logEnd: Coord, consoleEnd: EndCoord): (t: TermState)
    requires HasLine(s)
    ensures HasLine(t)
    decreases |str|
  {
    if str == [] then s
    else WriteByteSpec(WriteStringSpec(s, str[..|str| - 1], logEnd, consoleEnd), CharToByte(str[|str| - 1]), logEnd, consoleEnd)
  }

  /** Scrolling up saturates at the top line, and ScrollHome goes there. */
  lemma ScrollEscapes(s: TermState, logEnd: Coord, consoleEnd: EndCoord)
    requires HasLine(s)
    ensures WriteByteSpec(s, EscapeCode(ScrollDown), logEnd, consoleEnd) == s.(scrollRow := s.scrollRow + 1)
    ensures WriteByteSpec(s, EscapeCode(ScrollUp), logEnd, consoleEnd) ==
            s.(scrollRow := if s.scrollRow == 0 then 0 else s.scrollRow - 1)
    ensures WriteByteSpec(s, EscapeCode(ScrollHome), logEnd, consoleEnd) == s.(scrollRow := 0)
    ensures WriteByteSpec(s, EscapeCode(ScrollEnd), logEnd, consoleEnd) == s.(scrollRow := FocusRow(s.row))
    ensures CursorVisible(WriteByteSpec(s, EscapeCode(ScrollEnd), logEnd, consoleEnd))
  {
    assert Decode(EscapeCode(ScrollDown)) == Escape(ScrollDown);
    assert Decode(EscapeCode(ScrollUp)) == Escape(ScrollUp);
    assert Decode(EscapeCode(ScrollHome)) == Escape(ScrollHome);
    assert Decode(EscapeCode(ScrollEnd)) == Escape(ScrollEnd);
  }

  /** Switching terminal shows the target with the cursor at its end
      coordinate, the Console's read from the Console lines as they are when
      the byte arrives, and leaves the Console buffer alone. */
  lemma FocusMovesToEnd(s: TermState, target: VirtualTerminal, logEnd: Coord, consoleEnd: EndCoord)
    requires HasLine(s)
    ensures var t := WriteByteSpec(s, TerminalCode(target), logEnd, consoleEnd);
      var end := if target == KernelLog then logEnd else consoleEnd(s.lines);
      t.active == target && t.row == end.row && t.col == end.col && t.lines == s.lines &&
      t.scrollRow == FocusRow(end.row)
  {
    assert Decode(TerminalCode(target)) == Focus(target);
  }

  /** On the Console a line feed moves to column 0 of the next row, adds
      exactly one empty buffer line, and scrolls down by exactly one line
      exactly when the new row reaches the bottom of the viewport. */
  lemma ConsoleLineFeed(s: TermState, logEnd: Coord, consoleEnd: EndCoord)
    requires HasLine(s) && s.active == Console
    ensures var t := WriteByteSpec(s, NEWLINE, logEnd, consoleEnd);
      t.active == Console && t.row == s.row + 1 && t.col == 0 &&
      t.lines == s.lines + [Textbuffer.BufferLine([])] &&
      t.scrollRow == if s.row + 1 >= s.scrollRow + BUFFER_HEIGHT then s.scrollRow + 1 else s.scrollRow
  {
    assert Decode(NEWLINE) == LineFeed;
  }

  /** After a printable byte on the Console the column is in 1..80, the
      cursor is inside the viewport, and exactly one character has been
      appended to the buffer's last line (after at most one new line). */
  lemma ConsolePrintable(s: TermState, b: Byte, logEnd: Coord, consoleEnd: EndCoord)
    requires HasLine(s) && s.active == Console && Decode(b).Text?
    ensures var t := WriteByteSpec(s, b, logEnd, consoleEnd);
      var wrapped := s.col >= BUFFER_WIDTH;
      t.active == Console &&
      1 <= t.col <= BUFFER_WIDTH && CursorVisible(t) &&
      t.row == (if wrapped then s.row + 1 else s.row) &&
      |t.lines| == |s.lines| + (if wrapped then 1 else 0) &&
      t.lines[..|t.lines| - 1] == (if wrapped then s.lines else s.lines[..|s.lines| - 1]) &&
      t.lines[|t.lines| - 1].chars ==
        (if wrapped then [] else s.lines[|s.lines| - 1].chars) +
        [Textbuffer.BufferCharacter(b as char, Textbuffer.DefaultColor())]
  {
    var w := if s.col >= BUFFER_WIDTH then NewLineSpec(s) else s;
    assert |w.lines| == |s.lines| + (if s.col >= BUFFER_WIDTH then 1 else 0);
    var f := if w.row >= w.scrollRow + BUFFER_HEIGHT || w.row < w.scrollRow then FocusCursorSpec(w) else w;
    var t := WriteByteSpec(s, b, logEnd, consoleEnd);
    assert t == PutCharSpec(s, b);
    assert t.lines[..|t.lines| - 1] == f.lines[..|f.lines| - 1];
  }

  /** On the KernelLog, line feeds and text change nothing at all. */
  lemma KernelLogIgnoresText(s: TermState, b: Byte, logEnd: Coord, consoleEnd: EndCoord)
    requires HasLine(s) && s.active == KernelLog && (Decode(b).LineFeed? || Decode(b).Text?)
    ensures WriteByteSpec(s, b, logEnd, consoleEnd) == s
  {
  }

  /** Every byte except the three viewport-moving escapes (up, down, home)
      leaves a visible cursor visible, and a terminal switch or ScrollEnd
      makes it visible whatever it was. */
  lemma {:induction false} CursorStaysVisible(s: TermState, b: Byte, logEnd: Coord, consoleEnd: EndCoord)
    requires HasLine(s)
    requires b != EscapeCode(ScrollUp) && b != EscapeCode(ScrollDown) && b != EscapeCode(ScrollHome)
    requires CursorVisible(s) || Decode(b).Focus? || b == EscapeCode(ScrollEnd)
    ensures CursorVisible(WriteByteSpec(s, b, logEnd, consoleEnd))
  {
    match Decode(b)
    case Focus(target) =>
    case Escape(e) =>
    case LineFeed =>
    case Text(c) =>
      if s.active == Console {
        ConsolePrintable(s, b, logEnd, consoleEnd);
      }
  }

  /** Writing `k` line feeds to the Console adds exactly `k` buffer lines and
      moves the cursor `k` rows down, to column 0 when `k > 0`. */
  lemma {:induction false} LineFeedsGrowConsole(s: TermState, k: nat, logEnd: Coord, consoleEnd: EndCoord)
    requires HasLine(s) && s.active == Console
    ensures var t := WriteStringSpec(s, seq(k, _ => '\n'), logEnd, consoleEnd);
      t.active == Console && |t.lines| == |s.lines| + k && t.lines[..|s.lines|] == s.lines &&
      t.row == s.row + k && (k > 0 ==> t.col == 0)
  {
    var str := seq(k, _ => '\n');
    if k > 0 {
      var init := seq(k - 1, _ => '\n');
      assert str[..k - 1] == init;
      LineFeedsGrowConsole(s, k - 1, logEnd, consoleEnd);
      var m := WriteStringSpec(s, init, logEnd, consoleEnd);
      assert CharToByte(str[k - 1]) == NEWLINE;
      ConsoleLineFeed(m, logEnd, consoleEnd);
      var t := WriteStringSpec(s, str, logEnd, consoleEnd);
      assert t.lines == m.lines + [Textbuffer.BufferLine([])];
      assert t.lines[..|s.lines|] == m.lines[..|s.lines|];
    } else {
      assert str == [];
    }
  }

  /** Whatever is written, the Console buffer never loses a line. */
  lemma {:induction false} ConsoleNeverShrinks(s: TermState, str: string, logEnd: Coord, consoleEnd: EndCoord)
    requires HasLine(s)
    ensures |WriteStringSpec(s, str, logEnd, consoleEnd).lines| >= |s.lines|
    decreases |str|
  {
    if str != [] {
      ConsoleNeverShrinks(s, str[..|str| - 1], logEnd, consoleEnd);
    }
  }

  /** While the KernelLog is shown and no byte switches to the Console, the
      Console buffer is untouched. */
  lemma {:induction false} KernelLogIsolation(s: TermState, str: string, logEnd: Coord, consoleEnd: EndCoord)
    requires HasLine(s) && s.active == KernelLog
    requires forall i | 0 <= i < |str| :: CharToByte(str[i]) != TerminalCode(Console)
    ensures var t := WriteStringSpec(s, str, logEnd, consoleEnd);
      t.active == KernelLog && t.lines == s.lines
    decreases |str|
  {
    if str != [] {
      var init := str[..|str| - 1];
      KernelLogIsolation(s, init, logEnd, consoleEnd);
      var m := WriteStringSpec(s, init, logEnd, consoleEnd);
      var b := CharToByte(str[|str| - 1]);
      assert Decode(b) != Focus(Console);
    }
  }

  /** The repaint AS WRITTEN: `get_lines(scroll_row, BUFFER_HEIGHT)` is the raw
      slice `lines[scroll_row..25]`, which panics unless
      `scroll_row <= 25 <= |lines|`, and is shorter than a screen whenever
      `scroll_row > 0`. */
  function RepaintSliceAsWritten(lines: seq<Textbuffer.BufferLine>, scrollRow: nat): (w: Option<seq<Textbuffer.BufferLine>>)
    ensures w.Some? <==> scrollRow <= BUFFER_HEIGHT <= |lines|
    ensures w.Some? ==> |w.value| == BUFFER_HEIGHT - scrollRow
  {
    if scrollRow <= BUFFER_HEIGHT <= |lines| then Some(lines[scrollRow..BUFFER_HEIGHT]) else None
  }

  /** The first repaint of a fresh Term (one Console line) panics, and once
      the viewport has scrolled the as-written slice shows fewer rows than
      the screen has although the buffer holds more. */
  lemma RepaintAsWrittenFails(lines: seq<Textbuffer.BufferLine>)
    requires |lines| == 2 * BUFFER_HEIGHT
    ensures RepaintSliceAsWritten(InitialState().lines, InitialState().scrollRow).None?
    ensures |RepaintSliceAsWritten(lines, 1).value| == BUFFER_HEIGHT - 1
    ensures RepaintSliceAsWritten(lines, BUFFER_HEIGHT + 1).None?
  {
  }

  /** The repaint window as evidently intended: up to 25 lines starting at
      `scroll_row`, clipped at the end of the buffer instead of panicking. */
  function VisibleWindow(lines: seq<Textbuffer.BufferLine>, scrollRow: nat): (w: seq<Textbuffer.BufferLine>)
    ensures |w| <= BUFFER_HEIGHT
    ensures |w| == if scrollRow >= |lines| then 0
                   else if |lines| - scrollRow < BUFFER_HEIGHT then |lines| - scrollRow
                   else BUFFER_HEIGHT
    ensures forall i | 0 <= i < |w| :: w[i] == lines[scrollRow + i]
  {
    var from := if scrollRow <= |lines| then scrollRow else |lines|;
    var to := if scrollRow + BUFFER_HEIGHT <= |lines| then scrollRow + BUFFER_HEIGHT else |lines|;
    lines[from..to]
  }

  /** Where the as-written slice is defined and the viewport is at the top,
      it is the clipped window. */
  lemma VisibleWindowAgreesAtTop(lines: seq<Textbuffer.BufferLine>)
    requires |lines| >= BUFFER_HEIGHT
    ensures RepaintSliceAsWritten(lines, 0) == Some(VisibleWindow(lines, 0))
  {
    assert RepaintSliceAsWritten(lines, 0).value == VisibleWindow(lines, 0);
  }

  /** The multiplexer object: the shown terminal, the cursor, the viewport and
      the Console buffer it owns. */
  class Term {
    var activeTerm: VirtualTerminal
    const console: Textbuffer.Textbuffer
    var col: nat
    var row: nat
    var scrollRow: nat

    ghost predicate Valid()
      reads this, console
    {
      console.Valid()
    }

    ghost function State(): (s: TermState)
      reads this, console
      ensures Valid() ==> HasLine(s)
    {
      TermState(activeTerm, console.lines, row, col, scrollRow)
    }

    /** `Term::new`. */
    constructor ()
      ensures Valid() && fresh(console)
      ensures State() == InitialState()
    {
      activeTerm := Console;
      console := new Textbuffer.Textbuffer();
      col, row, scrollRow := 0, 0, 0;
    }

    /** `get_cursor`. */
    method GetCursor() returns (x: nat, y: nat)
      ensures x == col
      ensures y == if row >= scrollRow then row - scrollRow else OFFSCREEN_ROW
      ensures y < BUFFER_HEIGHT <==> CursorVisible(State())
    {
      if row >= scrollRow {
        y := row - scrollRow;
      } else if scrollRow + BUFFER_HEIGHT < row {
        y := row;
      } else {
        y := OFFSCREEN_ROW;
      }
      x := col;
    }

    /** `scroll_to`, without its repaint. */
    method ScrollTo(r: nat)
      modifies this
      ensures State() == old(State()).(scrollRow := r)
    {
      scrollRow := r;
    }

    /** `scroll`. */
    method Scroll(lines: nat, down: bool)
      modifies this
      ensures State() == ScrollSpec(old(State()), lines, down)
    {
      var newScrollRow := scrollRow;
      if down {
        newScrollRow := newScrollRow + lines;
      } else {
        if newScrollRow >= lines {
          newScrollRow := newScrollRow - lines;
        } else {
          newScrollRow := 0;
        }
      }
      ScrollTo(newScrollRow);
    }

    /** `focus_cursor`. */
    method FocusCursor()
      modifies this
      ensures State() == FocusCursorSpec(old(State()))
    {
      var newScrollRow := 0;
      if row > BUFFER_HEIGHT - 1 {
        newScrollRow := row - BUFFER_HEIGHT + 1;
      }
      ScrollTo(newScrollRow);
    }

    /** `new_line`, without its hardware cursor move. */
    method NewLine()
      requires Valid()
      modifies this, console
      ensures Valid() && State() == NewLineSpec(old(State()))
    {
      row := row + 1;
      col := 0;
      if row >= scrollRow + BUFFER_HEIGHT {
        Scroll(1, true);
      }
      if activeTerm == Console {
        console.NewLine();
      }
    }

    /** `change_focus`, given the end coordinate of the target's buffer. */
    method ChangeFocus(target: VirtualTerminal, end: Coord)
      modifies this
      ensures State() == ChangeFocusSpec(old(State()), target, end)
    {
      activeTerm := target;
      row := end.row;
      col := end.col;
      FocusCursor();
    }

    /** `write_byte`; `logEnd` is the KernelLog buffer's end coordinate and
        `consoleEnd` gives the Console buffer's, both read when a byte
        switches terminal. */
    method WriteByte(b: Byte, logEnd: Coord, consoleEnd: EndCoord)
      requires Valid()
      modifies this, console
      ensures Valid() && State() == WriteByteSpec(old(State()), b, logEnd, consoleEnd)
    {
      if b == TerminalCode(KernelLog) {
        ChangeFocus(KernelLog, logEnd);
      } else if b == TerminalCode(Console) {
        ChangeFocus(Console, consoleEnd(console.lines));
      } else if b == EscapeCode(ScrollDown) {
        Scroll(1, true);
      } else if b == EscapeCode(ScrollUp) {
        Scroll(1, false);
      } else if b == EscapeCode(ScrollHome) {
        ScrollTo(0);
      } else if b == EscapeCode(ScrollEnd) {
        FocusCursor();
      } else if activeTerm == Console {
        if b == NEWLINE {
          NewLine();
        } else {
          if col >= BUFFER_WIDTH {
            NewLine();
          }
          if row >= scrollRow + BUFFER_HEIGHT || row < scrollRow {
            FocusCursor();
          }
          col := col + 1;
          console.WriteChar(b as char);
        }
      }
    }

    /** `write_string`. */
    method WriteString(s: string, logEnd: Coord, consoleEnd: EndCoord)
      requires Valid()
      modifies this, console
      ensures Valid() && State() == WriteStringSpec(old(State()), s, logEnd, consoleEnd)
    {
      for i := 0 to |s|
        invariant Valid()
        invariant State() == WriteStringSpec(old(State()), s[..i], logEnd, consoleEnd)
      {
        assert s[..i + 1][..i] == s[..i];
        WriteByte(CharToByte(s[i]), logEnd, consoleEnd);
      }
      assert s[..|s|] == s;
    }

    /** `update_screen` with the clipped window: paint the shown terminal's
        lines from `scroll_row` and move the hardware cursor to `get_cursor`.
        `logLines` is the KernelLog buffer's content. */
    method UpdateScreen(writer: Writer.TextMode, logLines: seq<Textbuffer.BufferLine>)
      requires Valid() && writer.Valid()
      requires Writer.CursorFits(GetCursorSpec(State()).1, GetCursorSpec(State()).0)
      modifies writer, writer.buffer
      ensures writer.Valid()
      ensures writer.Cells() ==
        Writer.PaintedGrid(VisibleWindow(if activeTerm == Console then console.lines else logLines, scrollRow))
      ensures (writer.col, writer.row) == GetCursorSpec(State())
    {
      var window;
      if activeTerm == Console {
        var lines := console.lines;
        var from := if scrollRow <= |lines| then scrollRow else |lines|;
        var to := if scrollRow + BUFFER_HEIGHT <= |lines| then scrollRow + BUFFER_HEIGHT else |lines|;
        window := console.GetLines(from, to);
        assert window == VisibleWindow(console.lines, scrollRow);
      } else {
        window := VisibleWindow(logLines, scrollRow);
      }
      writer.PrintTextbuffer(window);
      var x, y := GetCursor();
      writer.MoveCursor(x, y);
    }
  }
}
