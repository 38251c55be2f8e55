# Text-mode display stack of a hobby x86 kernel, in Dafny

This project models how the kernel puts text on the 80×25 VGA text screen, and proves properties of that model. The kernel went through several generations of this code, and each one is modelled:

- **Colors** (`colors.dfy`): the shared vocabulary.
  - The sixteen colours.
  - The packed attribute byte (`ColorCode::new`, `ColorCode::default`).
  - A screen cell.
  - The 80×25 geometry.
- **Textbuffer** (`textbuffer.dfy`): the growable scrollback behind a virtual terminal. It is a list of lines of coloured characters, with a `row` cursor that is always the last line. It is a class whose `lines` and `row` fields are updated in place.
- **Writer** (`writer.dfy`): the hardware writer `TextMode`.
  - On value grids: cell writes that wrap at column 80, a line feed that scrolls the grid up on the bottom row, painting a window of Textbuffer lines with blank padding, and the two cursor-register bytes.
  - The class `TextMode` writes a two-dimensional array in place. Each of its methods is proved to follow the matching value function.
  - `src/vga.rs` holds an older copy of the same code, and the same members stand for it.
- **Term** (`term.dfy`): the virtual-terminal multiplexer.
  - State: the shown terminal (Console or KernelLog), an absolute cursor and the first visible line `scroll_row`.
  - Control bytes come in band:
    - 1–4 scroll;
    - 0xF0 and 0xF1 switch terminal;
    - a line feed starts a new line;
    - anything else is Console text.
  - The class `Term` owns its Console `Textbuffer`.
- **Screenbuffer** (`screenbuffer.dfy`): an older console with a fixed 1000×80 array of stored rows, a clamped scroll down and a saturating scroll up. Everything it does to the hardware writer is returned as the sequence of writer calls it makes.
- **VgaBuffer** (`vga_buffer.dfy`): the earliest writers.
  - The `Writer` interface's byte filter.
  - `PlainVGA`, which always writes on the bottom row.
  - `ScrollbackVGA`, which keeps every line it has written and shows a window of them.
- **Wrappers** (`wrappers.dfy`): an `Option` type for operations that can fail.

Each stateful entity is modelled twice:
- as a value, a datatype with functions for its operations, with lemmas stating what the source promises;
- as a class that updates its fields and arrays in place, whose methods are proved to produce exactly the new state the value functions give.

Where an operation can panic (an index out of range, an unsigned subtraction below zero, a `try_into().unwrap()` that fails), one of three things happens:
- the model returns `None`;
- or the method requires the condition under which the source does not panic, as its caller must ensure;
- or, where the panic is one of the source defects listed under "## Findings", the operation uses the corrected definition and so does not fail where the source panics. "## Left out" names each such member and the panic it replaces.

Two points of the Term model follow directly from the code:
- **`get_lines`** (`src/textbuffer.rs:48-50`) is the raw slice `lines[from..to]`, and `update_screen` passes a count of lines as its end index (finding 1).
- **Cursor visibility**: the scroll escapes 1–3 can move the viewport away from the cursor, and `get_cursor` then parks it off the screen (`src/vga/term.rs:73`). So `Term.CursorStaysVisible` excludes them. Every other byte keeps a visible cursor visible, and a terminal switch or ScrollEnd makes it visible.

## Model

| member | source | states |
|---|---|---|
| Colors.ColorValue | src/vga.rs:8-25 | a colour's hardware number is below 16 |
| Colors.ColorOf | src/vga.rs:8-25 | the colour with a given 4-bit number; its number is that number |
| Colors.ColorOfValue | src/vga.rs:8-25 | number-to-colour undoes colour-to-number for all sixteen colours |
| Colors.NewColorCode | src/vga.rs:32-34 | the packed byte holds the foreground number in the low nibble and the background number in the high nibble (`src/vga_buffer.rs:35-39` packs it the same way) |
| Colors.ColorCodeRoundTrip | src/vga.rs:32-34 | unpacking a packed colour code gives back both colours |
| Colors.NewColorCodeInjective | src/vga.rs:32-34 | two colour pairs pack to the same byte only if they are the same pair |
| Colors.DefaultColorCode | src/vga.rs:35-37 | the default code is 0x07, light grey on black |
| Colors.CharToByte | src/vga/writer.rs:72-76 | `c as u8` keeps the character's code exactly when it is below 256 |
| Textbuffer.DefaultColor | src/textbuffer.rs:12-14 | the buffer's default colour is light grey on black |
| Textbuffer.EmptyLines | src/textbuffer.rs:29-38 | a fresh buffer holds exactly one line, and it is empty |
| Textbuffer.PushCell | src/textbuffer.rs:52-58 | one cell is appended to the end of line `row`; the line count and every other line are unchanged |
| Textbuffer.DefaultCells | src/textbuffer.rs:60-62 | one default-coloured cell per character, in order |
| Textbuffer.PushChars | src/textbuffer.rs:71-75 | writing a string one character at a time keeps the number of lines |
| Textbuffer.PushCharsAppends | src/textbuffer.rs:71-75 | writing a string character by character appends exactly its default-coloured cells to line `row` and changes no other line |
| Textbuffer.Textbuffer.constructor | src/textbuffer.rs:29-38 | one empty line with `row == 0`, and `row` is the last line |
| Textbuffer.Textbuffer.Flush | src/textbuffer.rs:40-46 | whatever the buffer held, it returns to the state `new` gives (so flushing twice is flushing once) |
| Textbuffer.Textbuffer.GetLines | src/textbuffer.rs:48-50 | needs `from <= to` and `to` at most the line count; the result has `to - from` lines, and they are `lines[from..to]` |
| Textbuffer.Textbuffer.WriteCharColor | src/textbuffer.rs:52-58 | appends the coloured cell to the current line; `row` stays the last line |
| Textbuffer.Textbuffer.WriteChar | src/textbuffer.rs:60-62 | as WriteCharColor in the default colour |
| Textbuffer.Textbuffer.NewLine | src/textbuffer.rs:64-69 | exactly one empty line is appended, `row` moves onto it, and earlier lines are kept |
| Textbuffer.Textbuffer.WriteString | src/textbuffer.rs:71-75 | the loop appends the string's default-coloured cells to the current line |
| Writer.BlankRow | src/vga/writer.rs:17-25 | 80 blanks in the given colour |
| Writer.ScrollUp | src/vga/writer.rs:78-85 | every row moves up one and the bottom row is blank in the writer's colour |
| Writer.PutCell | src/vga/writer.rs:59 | exactly one cell changes |
| Writer.NewLineSpec | src/vga/writer.rs:77-91 | column 0; a row on screen stays on screen |
| Writer.WriteCharSpec | src/vga/writer.rs:50-65 | the colour is kept, and a row on screen stays on screen |
| Writer.WriteBytesSpec | src/vga/writer.rs:66-76 | writing keeps the cursor row on screen |
| Writer.StringBytes | src/vga/writer.rs:72-76 | one byte per character, each `c as u8` |
| Writer.PaintedGrid | src/vga/writer.rs:93-116 | cell (r, c) is the window's character where line r and column c exist, a space elsewhere, all in the default colour |
| Writer.CursorBytes | src/vga/writer.rs:34-40 | two bytes, low byte first, that recombine to `row * 80 + col` |
| Writer.CursorBytesInjective | src/vga/writer.rs:34-40 | distinct on-screen cursor positions emit distinct register bytes |
| Writer.WriteFillsCursorCell | src/vga/writer.rs:50-65 | with the cursor on screen, a non-line-feed character fills exactly the cursor cell and advances the column; no other cell changes |
| Writer.WriteWrapsFirst | src/vga/writer.rs:54-56 | past the right edge, the character lands in column 0 of the next row, or of the bottom row after the grid has moved up |
| Writer.WriteRunOnRow | src/vga/writer.rs:66-76 | a run of non-line-feed bytes that fits the row lands side by side from the cursor, and nothing else changes |
| Writer.WriteBytesConcat | src/vga/writer.rs:72-76 | writing `a + b` is writing `a` then `b` |
| Writer.WritelnLandsAboveBottom | src/vga/writer.rs:178-196 | from either bottom row, "\n" + s + "\n" with a short line-feed-free `s` leaves `s` at the start of row 23 and the cursor at column 0 of row 24 (the same test is in `src/vga.rs:176-194`) |
| Writer.LineFeedFromBottom | src/vga/writer.rs:77-91 | from row 23 or 24 a line feed ends at column 0 of row 24; from row 24 the rows move up |
| Writer.RunFromColumnZero | src/vga/writer.rs:66-76 | a run written from column 0 shows its bytes at the start of the row |
| Writer.PaintedEmptyIsBlank | src/vga/writer.rs:107-114 | painting an empty window blanks the whole grid in the default colour |
| Writer.PaintedIgnoresOverflow | src/vga/writer.rs:94-100 | lines past the 25th never reach the screen |
| Writer.TextMode.Cells | src/vga/writer.rs:4-7 | the grid array read as a value, cell for cell |
| Writer.TextMode.GridsEqual | src/vga/writer.rs:4-7 | two grids that agree on every cell are equal |
| Writer.TextMode.constructor | src/vga/writer.rs:126-133 | cursor at the origin, default colour |
| Writer.TextMode.ClearRow | src/vga/writer.rs:17-25 | the loop blanks exactly row `r` in the writer's colour (also the older copy, `src/vga.rs:67-75`) |
| Writer.TextMode.UpdateCursor | src/vga/writer.rs:27-42 | emits exactly CursorBytes(row, col); needs the offset to fit in 16 bits |
| Writer.TextMode.MoveCursor | src/vga/writer.rs:44-49 | sets row and column with no range check and changes nothing else (also `src/vga.rs:94-99`) |
| Writer.TextMode.NewLine | src/vga/writer.rs:77-91 | the shifting loops and clear_row produce exactly NewLineSpec: rows move up at the bottom, otherwise the row advances; column 0 (also `src/vga.rs:120-134`) |
| Writer.TextMode.WriteScreenChar | src/vga/writer.rs:50-65 | the new state is exactly WriteCharSpec of the old one (also `src/vga.rs:100-113`) |
| Writer.TextMode.WriteByte | src/vga/writer.rs:66-71 | the byte in the default colour, through write_screen_char (also `src/vga.rs:114-119`) |
| Writer.TextMode.WriteString | src/vga/writer.rs:72-76 | the loop writes `c as u8` of every character, in order |
| Writer.TextMode.PrintTextbuffer | src/vga/writer.rs:93-116 | the nested loops leave exactly PaintedGrid(buf), and only the grid is written |
| Term.TerminalCode | src/vga/term.rs:24-29 | a terminal-switch byte is 0xF0 or above, so it is never a scroll escape or a line feed |
| Term.EscapeCode | src/vga/term.rs:15-22 | the scroll escapes are the bytes 1 to 4 |
| Term.Decode | src/vga/term.rs:140-150 | the dispatch of a byte, in the order of the match arms; the chosen arm's byte is the input |
| Term.DecodeRecognisesControl | src/vga/term.rs:15-29 | each control action is recognised from its byte, and a byte is text exactly when it is none of 1–4, 10, 0xF0, 0xF1 |
| Term.InitialState | src/vga/term.rs:40-48 | Console shown, cursor and viewport at 0, one empty Console line |
| Term.GetCursorSpec | src/vga/term.rs:66-76 | `x` is the column; `y` is `row - scroll_row` when that is not negative, else the off-screen row 26; `y < 25` exactly when the cursor is inside the viewport |
| Term.ScrolledRow | src/vga/term.rs:83-93 | down adds `lines`; up subtracts `lines`, stopping at 0 |
| Term.FocusRow | src/vga/term.rs:95-102 | the new first row shows the cursor, and when it is not 0 the cursor is on the bottom line |
| Term.ScrollSpec | src/vga/term.rs:83-93 | only the first visible row changes: down by exactly `lines`, up never past where it was |
| Term.FocusCursorSpec | src/vga/term.rs:95-102 | afterwards the cursor is inside the viewport |
| Term.NewLineSpec | src/vga/term.rs:104-120 | the row advances by one to column 0; on the Console exactly one empty line is appended and on the KernelLog the Console lines are kept; the first row moves down at most one line, and a visible cursor stays visible |
| Term.ChangeFocusSpec | src/vga/term.rs:122-138 | the target is shown, the cursor is at the given end coordinate and inside the viewport, and the Console lines are kept |
| Term.PutCharSpec | src/vga/term.rs:151-162 | the Console keeps all its lines, the cursor is in view, and the column ends in 1..80 |
| Term.WriteByteSpec | src/vga/term.rs:140-177 | the Console buffer always keeps a line; a switch to the Console reads its end coordinate from the Console lines as they are at that byte |
| Term.WriteStringSpec | src/vga/term.rs:179-183 | the Console buffer always keeps a line |
| Term.ScrollEscapes | src/vga/term.rs:146-149 | byte 2 scrolls down one line; byte 1 scrolls up one, stopping at 0; byte 3 goes to the top; byte 4 brings the cursor into view; nothing else changes |
| Term.FocusMovesToEnd | src/vga/term.rs:122-138 | a terminal-switch byte shows the target with the cursor at its end coordinate, the Console's taken from the Console lines at that moment, brings the cursor into view and keeps the Console lines |
| Term.ConsoleLineFeed | src/vga/term.rs:104-120 | on the Console a line feed gives row + 1 and column 0, adds exactly one empty line, and scrolls down one line exactly when the new row reaches the bottom of the viewport |
| Term.ConsolePrintable | src/vga/term.rs:151-162 | a Console text byte wraps first when the column is past 80, leaves the column in 1..80 with the cursor in view, and appends exactly one default-coloured character to the last line |
| Term.KernelLogIgnoresText | src/vga/term.rs:165-174 | on the KernelLog, line feeds and text change nothing |
| Term.CursorStaysVisible | src/vga/term.rs:140-177 | every byte but the three viewport escapes keeps a visible cursor visible, and a terminal switch or ScrollEnd makes it visible |
| Term.LineFeedsGrowConsole | src/vga/term.rs:104-120 | k line feeds on the Console add exactly k lines, keep the old ones, and move the cursor k rows down |
| Term.ConsoleNeverShrinks | src/vga/term.rs:179-183 | no string makes the Console buffer lose a line |
| Term.KernelLogIsolation | src/vga/term.rs:165-174 | while the KernelLog is shown and no byte switches back, the Console buffer is untouched |
| Term.RepaintSliceAsWritten | src/vga/term.rs:54 | the as-written slice exists exactly when `scroll_row <= 25` and the buffer holds at least 25 lines, and it then has `25 - scroll_row` lines |
| Term.RepaintAsWrittenFails | src/vga/term.rs:54 | the first repaint of a fresh Term panics; after one scroll the as-written slice is one line short; past row 25 it panics |
| Term.VisibleWindow | src/vga/term.rs:54 | up to 25 lines from `scroll_row`, clipped at the end of the buffer, in order |
| Term.VisibleWindowAgreesAtTop | src/vga/term.rs:54 | with the viewport at the top, the as-written slice is the clipped window |
| Term.Term.constructor | src/vga/term.rs:40-48 | the state is InitialState |
| Term.Term.GetCursor | src/vga/term.rs:66-76 | keeps all three branches of the source, and yields the cursor of GetCursorSpec (the middle branch is unreachable) |
| Term.Term.ScrollTo | src/vga/term.rs:78-81 | only the first visible row changes |
| Term.Term.Scroll | src/vga/term.rs:83-93 | the state after is ScrolledRow's |
| Term.Term.FocusCursor | src/vga/term.rs:95-102 | the state after is FocusCursorSpec's |
| Term.Term.NewLine | src/vga/term.rs:104-120 | the state after is NewLineSpec's, with the console buffer updated in place |
| Term.Term.ChangeFocus | src/vga/term.rs:122-138 | the target becomes active, the cursor moves to the target's end coordinate, and the cursor is brought into view |
| Term.Term.WriteByte | src/vga/term.rs:140-177 | both terminals' dispatch give exactly WriteByteSpec |
| Term.Term.WriteString | src/vga/term.rs:179-183 | the loop gives exactly WriteStringSpec |
| Term.Term.UpdateScreen | src/vga/term.rs:50-64 | the grid shows the clipped window of the shown terminal's lines, and the hardware cursor is at GetCursorSpec |
| Screenbuffer.EscapeCode | src/screenbuffer.rs:12-17 | the two escapes are the bytes 1 and 2, neither a line feed |
| Screenbuffer.InitialState | src/screenbuffer.rs:27-39 | 1000×80 blanks in the default colour, everything at 0 |
| Screenbuffer.ClampAsWritten | src/screenbuffer.rs:44-47 | the as-written clamp only bounds the first row by 1000 |
| Screenbuffer.ClampAsWrittenOverruns | src/screenbuffer.rs:56 | from first row 975 one more scroll down reaches 976, where the 25-row repaint slice runs past row 1000 |
| Screenbuffer.ClampScrollRow | src/screenbuffer.rs:44-47 | the corrected clamp always leaves a whole screen of rows below the first row |
| Screenbuffer.ClampAgreesInBounds | src/screenbuffer.rs:44-47 | wherever the as-written clamp does not overrun, the two clamps agree |
| Screenbuffer.ScrolledRow | src/screenbuffer.rs:41-53 | down keeps the repaint in bounds; up subtracts, stopping at 0 |
| Screenbuffer.LineCalls | src/screenbuffer.rs:57-59 | one write_screen_char per cell of a row, in order |
| Screenbuffer.RowsCalls | src/screenbuffer.rs:56-60 | 80 calls per repainted row |
| Screenbuffer.RowsCallsCells | src/screenbuffer.rs:56-60 | the repaint writes, in row-major order, exactly the stored cells of the rows shown |
| Screenbuffer.Repaint | src/screenbuffer.rs:56-60 | 25 × 80 calls, call `r * 80 + c` writing stored cell (first row + r, c) |
| Screenbuffer.ScrollCalls | src/screenbuffer.rs:48-63 | an optional line feed, one cursor move, the 2000 repaint calls and an optional cursor restore, the last present exactly when the cursor row is not above the viewport |
| Screenbuffer.ScrollSpec | src/screenbuffer.rs:41-64 | a scroll keeps the state consistent |
| Screenbuffer.NewLineSpec | src/screenbuffer.rs:66-75 | a line feed keeps the state consistent |
| Screenbuffer.PutByteSpec | src/screenbuffer.rs:82-98 | a printable byte panics exactly when its row (after the wrap) is past the 1000 stored rows |
| Screenbuffer.WriteByteSpec | src/screenbuffer.rs:77-100 | with the corrected clamp of finding 2, a printable byte fails exactly when its row is past the last stored row, and a line feed or escape never fails; otherwise the state stays consistent and moves at most one row down (the source also panics on a line feed or byte 2 that scrolls down from first row 975) |
| Screenbuffer.WriteStringSpec | src/screenbuffer.rs:102-106 | stops at the first printable byte stored past the last row; with the corrected clamp it goes on past a scroll from first row 975, where the source panics; keeps the state consistent |
| Screenbuffer.ScrollRepaintsViewport | src/screenbuffer.rs:41-64 | a scroll keeps the rows and cursor; the writer gets a line feed exactly when scrolling down, then a move to (0, 0), then every cell of the new viewport, then a cursor move back exactly when the cursor row is not above the viewport |
| Screenbuffer.ScrollCallsShape | src/screenbuffer.rs:55-63 | the layout of that call sequence, for any in-bounds first row |
| Screenbuffer.LineFeedMovesDown | src/screenbuffer.rs:66-75 | a line feed gives row + 1 and column 0, keeps the rows, and scrolls down by one (within the clamp) exactly when the new row reaches the bottom of the viewport; either way the first writer call is a line feed |
| Screenbuffer.ScrollEscapes | src/screenbuffer.rs:80-81 | byte 2 scrolls down one clamped row; byte 1 scrolls up one, stopping at 0 |
| Screenbuffer.PrintableStoresOneCell | src/screenbuffer.rs:82-98 | a printable byte is stored at the cursor (after the wrap), leaves every other stored cell alone, advances the column, and is echoed to the writer exactly when its row is in the viewport |
| Screenbuffer.WriteStringFits | src/screenbuffer.rs:102-106 | a string shorter than the rows left below the cursor never panics, and moves the cursor at most one row per character |
| Screenbuffer.PrefixFits | src/screenbuffer.rs:102-106 | if a whole string can be written, so can each prefix |
| Screenbuffer.Screenbuffer.Rows | src/screenbuffer.rs:19-24 | the row array read as a value, cell for cell |
| Screenbuffer.Screenbuffer.State | src/screenbuffer.rs:19-24 | a valid object's state is consistent |
| Screenbuffer.Screenbuffer.RowsEqual | src/screenbuffer.rs:19-24 | two row sets that agree on every cell are equal |
| Screenbuffer.Screenbuffer.constructor | src/screenbuffer.rs:27-39 | the state is InitialState |
| Screenbuffer.Screenbuffer.RepaintCalls | src/screenbuffer.rs:56-60 | the nested loops produce exactly the repaint of the 25 rows from `sr` |
| Screenbuffer.Screenbuffer.Scroll | src/screenbuffer.rs:41-64 | the rows and cursor are kept, the first row is ScrolledRow's, and the calls are ScrollCalls |
| Screenbuffer.Screenbuffer.NewLine | src/screenbuffer.rs:66-75 | state and calls are exactly NewLineSpec's |
| Screenbuffer.Screenbuffer.WriteByte | src/screenbuffer.rs:77-100 | state and calls are exactly WriteByteSpec's |
| Screenbuffer.Screenbuffer.WriteString | src/screenbuffer.rs:102-106 | state and calls are exactly WriteStringSpec's |
| VgaBuffer.FilterByte | src/vga_buffer.rs:65-69 | printable ASCII and the line feed pass through; every other byte becomes 0xfe |
| VgaBuffer.FilterBytes | src/vga_buffer.rs:63-72 | one output byte per input byte, in order, each filtered |
| VgaBuffer.FilterBytesProperties | src/vga_buffer.rs:63-72 | filtering is idempotent, emits only showable bytes or 0xfe, and leaves all-showable input unchanged |
| VgaBuffer.PlainNewLineSpec | src/vga_buffer.rs:134-144 | column 0, the colour is kept |
| VgaBuffer.PlainWriteByteSpec | src/vga_buffer.rs:112-132 | the colour is kept |
| VgaBuffer.PlainWriteBytesSpec | src/vga_buffer.rs:63-72 | the colour is kept |
| VgaBuffer.PlainWriteStringSpec | src/vga_buffer.rs:63-72 | the colour is kept, and a string of showable bytes is written exactly as it is |
| VgaBuffer.PlainPrintableOnBottomRow | src/vga_buffer.rs:112-132 | a non-line-feed byte always lands on row 24, at the column or at column 0 after a wrap; without a wrap no other cell changes, and with one the rows above are the old rows moved up |
| VgaBuffer.PlainLineOnBottomRow | src/vga_buffer.rs:112-132 | a line-feed-free run that fits the row, written from column 0, appears cell for cell at the start of row 24; the rows above are untouched |
| VgaBuffer.InitScrollback | src/vga_buffer.rs:245-254 | one empty line, everything at 0 |
| VgaBuffer.UpdateScreenAsWritten | src/vga_buffer.rs:164-172 | the as-written repaint succeeds exactly when the first 25 lines exist and each holds at least 80 cells |
| VgaBuffer.NewLineRepaintAsWrittenPanics | src/vga_buffer.rs:218-223 | with fewer than 25 lines, including the first line feed after init_scrollback, the as-written repaint in new_line panics |
| VgaBuffer.UpdateScreenAsWrittenIgnoresScroll | src/vga_buffer.rs:164-172 | where it does not panic, the as-written repaint is the window from line 0, whatever the first shown line is |
| VgaBuffer.WindowGrid | src/vga_buffer.rs:164-172 | the corrected repaint: the 25 lines from the first shown line, padded with blanks |
| VgaBuffer.ScrollDownSpec | src/vga_buffer.rs:174-177 | the first shown line moves down by exactly `lines`; the stored lines, cursor and colour are kept, and the grid stays a grid |
| VgaBuffer.ScrollUpSpec | src/vga_buffer.rs:179-185 | needs `lines <= scroll_row` (unsigned subtraction); the first shown line moves up by exactly `lines`; the stored lines, cursor and colour are kept, and the grid stays a grid |
| VgaBuffer.SbvNewLineSpec | src/vga_buffer.rs:218-223 | the writer's invariant is kept |
| VgaBuffer.GuardAsWritten | src/vga_buffer.rs:207 | the as-written guard admits every row the intended one does, and exactly one more, row 25 |
| VgaBuffer.Guard | src/vga_buffer.rs:207 | the intended guard holds exactly for the rows that index a 25-row grid |
| VgaBuffer.GuardAsWrittenAdmitsRow25 | src/vga_buffer.rs:207 | scrolling up 25 lines with the cursor on the first shown line puts it on screen row 25, which the as-written guard admits though the grid has rows 0..24 |
| VgaBuffer.SbvWriteByteSpec | src/vga_buffer.rs:189-216 | the writer's invariant is kept, and so is the cursor line's distance to the window |
| VgaBuffer.SbvWriteBytesSpec | src/vga_buffer.rs:63-72 | the writer's invariant is kept |
| VgaBuffer.SbvLineFeed | src/vga_buffer.rs:218-223 | a line feed appends exactly one empty line, moves the cursor onto it at column 0, scrolls the window one line down and repaints it |
| VgaBuffer.SbvPrintableAppends | src/vga_buffer.rs:197-212 | any other byte appends exactly one cell to the cursor line (a fresh one after a wrap), keeps every other line, and with the corrected guard shows the cell at the cursor's screen row |
| VgaBuffer.SbvWriteByteExtends | src/vga_buffer.rs:189-216 | one write_byte keeps every line before the cursor line and never moves the cursor line up |
| VgaBuffer.SbvWriteKeepsOffset | src/vga_buffer.rs:63-72 | a run of writes keeps the cursor line's distance to the window and every line stored before it |
| VgaBuffer.PlainVGA.Cells | src/vga_buffer.rs:55-58 | the grid array read as a value, cell for cell |
| VgaBuffer.PlainVGA.constructor | src/vga_buffer.rs:233-239 | column 0, light grey on black |
| VgaBuffer.PlainVGA.MoveCursor | src/vga_buffer.rs:84-99 | emits exactly the two cursor bytes of `y * 80 + x`; needs the offset to fit in 16 bits |
| VgaBuffer.PlainVGA.ClearRow | src/vga_buffer.rs:100-108 | the loop blanks exactly the given row in the writer's colour |
| VgaBuffer.PlainVGA.NewLine | src/vga_buffer.rs:134-144 | the loops produce exactly PlainNewLineSpec |
| VgaBuffer.PlainVGA.WriteByte | src/vga_buffer.rs:112-132 | the new state is exactly PlainWriteByteSpec |
| VgaBuffer.PlainVGA.WriteString | src/vga_buffer.rs:63-72 | the loop writes the filtered bytes in order |
| VgaBuffer.PlainVGA.ScrollUp | src/vga_buffer.rs:73 | the interface default changes nothing |
| VgaBuffer.PlainVGA.ScrollDown | src/vga_buffer.rs:74 | the interface default changes nothing |
| VgaBuffer.ScrollbackVGA.Cells | src/vga_buffer.rs:154-161 | the grid array read as a value, cell for cell |
| VgaBuffer.ScrollbackVGA.constructor | src/vga_buffer.rs:245-254 | the state is InitScrollback |
| VgaBuffer.ScrollbackVGA.UpdateScreen | src/vga_buffer.rs:164-172 | the corrected repaint loops leave exactly WindowGrid |
| VgaBuffer.ScrollbackVGA.ScrollDown | src/vga_buffer.rs:174-177 | the new state is exactly ScrollDownSpec |
| VgaBuffer.ScrollbackVGA.ScrollUp | src/vga_buffer.rs:179-185 | the new state is exactly ScrollUpSpec; needs `lines <= scroll_row` |
| VgaBuffer.ScrollbackVGA.NewLine | src/vga_buffer.rs:218-223 | the new state is exactly SbvNewLineSpec |
| VgaBuffer.ScrollbackVGA.WriteByte | src/vga_buffer.rs:189-216 | the new state is exactly SbvWriteByteSpec, with the corrected guard |
| VgaBuffer.ScrollbackVGA.WriteString | src/vga_buffer.rs:63-72 | the loop gives exactly SbvWriteBytesSpec of the filtered bytes |

## Left out

- Port I/O to 0x3d4/0x3d5, the volatile memory-mapped grid at 0xb8000, the `spin::Mutex` locks and `without_interrupts`:
  - the grid is an array;
  - the cursor register writes are the bytes the writer would send (`UpdateCursor`, `PlainVGA.MoveCursor`);
  - locking and interrupt masking have no counterpart.
- The global statics `WRITER`, `PLAINVGA`, `TERM_BUFFER`, `USE_SCREENBUFFER` and `VGABUFFER`: the constructors take the grid array, and the objects are passed explicitly. The `VGABUFFER` assignments in `src/vga_buffer.rs` at lines 242 and 256-257 do not compile, and only the initial state they set up is modelled.
- `fmt::Write`, `_print` and the `print!`/`println!` macros: formatting is outside this model, and `write_string` is modelled directly.
- `Term`'s calls into `WRITER`:
  - The repaint that `scroll_to` and the printable path run after each change is kept apart, as `Term.Term.UpdateScreen`.
  - The hardware cursor move in `new_line` is left out.
  - So the Term methods model the multiplexer's own state and its Console buffer, not the screen.
- Term.WriteByteSpec: does not fail where the source's repaint panics. Every path through `scroll_to` (`src/vga/term.rs:80`) and the printable arm (`src/vga/term.rs:161`) runs `update_screen`, whose `get_lines(scroll_row, 25)` (line 54) is the raw slice `lines[scroll_row..25]` of finding 1. It panics whenever the shown buffer holds fewer than 25 lines or `scroll_row > 25`. So on a fresh Term every byte other than a line feed panics: text and 1, 3, 4 and 0xF1 slice `0..25` of one line, and 2 slices `1..25`. 0xF0 panics too while the KernelLog buffer holds fewer than 25 lines. The 50th line feed from a fresh Term panics as well, since it sets `scroll_row` to 26. The model returns the new state in all of these cases. The lemmas about it (Term.LineFeedsGrowConsole, Term.ConsoleNeverShrinks, Term.CursorStaysVisible, Term.KernelLogIsolation and the others) therefore also cover inputs the source cannot get through.
- Term.WriteStringSpec: inherits the repaint panic that Term.WriteByteSpec does not model.
- Term.ScrollSpec: `scroll` ends in `scroll_to`, whose repaint panic is not modelled.
- Term.FocusCursorSpec: `focus_cursor` ends in `scroll_to`, whose repaint panic is not modelled; on a Console under 25 lines it always panics.
- Term.NewLineSpec: a line feed that scrolls past `scroll_row` 25 panics in `scroll_to`'s repaint, and the model does not capture that panic.
- Term.ChangeFocusSpec: ends in `focus_cursor`, whose repaint panic is not modelled; 0xF1 on a Console under 25 lines panics in the source.
- Term.PutCharSpec: the printable arm's `update_screen` (line 161) panics on any shown buffer under 25 lines, and the model does not capture that panic.
- Term.Term.ScrollTo: its `update_screen` call, and that call's panic, are not modelled; the repaint is Term.Term.UpdateScreen.
- Term.Term.Scroll: inherits the repaint panic that Term.Term.ScrollTo leaves out.
- Term.Term.FocusCursor: inherits the repaint panic that Term.Term.ScrollTo leaves out.
- Term.Term.NewLine: inherits the repaint panic that Term.NewLineSpec leaves out.
- Term.Term.ChangeFocus: inherits the repaint panic that Term.Term.FocusCursor leaves out.
- Term.Term.WriteByte: the printable arm's `update_screen` panic, and the repaint panic of each `scroll_to` path, are not modelled, as for Term.WriteByteSpec.
- Term.Term.WriteString: inherits the repaint panic that Term.Term.WriteByte leaves out.
- Term.Term.UpdateScreen: paints the corrected window of finding 1 instead of panicking on the as-written slice. Its requires `Writer.CursorFits` stands for `update_cursor`'s `try_into().unwrap()` (`src/vga/writer.rs:34`). That unwrap panics once `y * 80 + x` exceeds 65535, for example after byte 3 with the cursor at row 820 or later, and the model does not capture that panic.
- `end_coord()` and `klog::LOG_BUFFER` are not part of this model. `change_focus` takes the target buffer's end coordinate as a parameter. `write_byte` and `write_string` take the KernelLog's end coordinate as a fixed value, since Term never writes that buffer. They take the Console's end coordinate as a function of the Console lines, applied to the lines as they are at each 0xF1. `UpdateScreen` takes the KernelLog's lines as a parameter.
- `Screenbuffer`'s calls into `WRITER` are returned as a sequence of writer calls rather than performed. What the writer then does with them is not modelled. In particular, the cursor restore at `src/screenbuffer.rs:62` moves to screen row `row - scroll_row`, which can be far below the screen. `update_cursor` (`src/vga/writer.rs:34`) panics there once `(row - scroll_row) * 80 + col` exceeds 65535, that is from row offset 820 on (819 with a column above 15). The model records the call and does not capture that panic.
- Screenbuffer.ScrolledRow: clamps a scroll down at 975, the corrected clamp of finding 2. The source clamps at 1000 (`src/screenbuffer.rs:45-46`) and then panics at the slice on line 56 whenever the first row goes past 975. Screenbuffer.ScrollSpec, Screenbuffer.NewLineSpec and Screenbuffer.Screenbuffer.Scroll inherit this.
- Screenbuffer.WriteByteSpec: never fails for a line feed or a scroll escape. In the source, byte 2 (line 80) with first row 975 sets 976 and panics at line 56. A line feed that reaches the viewport bottom (lines 70-71) does the same. The model stays at 975 instead. Screenbuffer.WriteStringSpec, Screenbuffer.Screenbuffer.WriteByte and Screenbuffer.Screenbuffer.WriteString inherit this.
- VgaBuffer.SbvNewLineSpec: repaints with the corrected window of finding 4 (VgaBuffer.WindowGrid). In the source, `update_screen` (`src/vga_buffer.rs:164-172`) panics on the first line feed after `init_scrollback`. VgaBuffer.ScrollDownSpec, VgaBuffer.ScrollUpSpec, VgaBuffer.SbvWriteBytesSpec and the VgaBuffer.ScrollbackVGA methods inherit this.
- VgaBuffer.SbvWriteByteSpec: uses the corrected guard of finding 3 (VgaBuffer.Guard). With the as-written guard, a printable byte on screen row 25 panics at `buffer.chars[25]` (`src/vga_buffer.rs:207-208`). The model skips the screen write there.
- Writer.TextMode.WriteString: requires the cursor row on screen. A `move_cursor` to a row past 24 followed by a write panics in the source, and this model does not capture it.
- Writer.TextMode.MoveCursor: requires the offset to fit in 16 bits, which is where `update_cursor`'s `try_into().unwrap()` would panic. The panic itself is not modelled.
- Writer.TextMode.WriteScreenChar: requires the cursor row on screen for a printable character, and a cursor that fits after a line feed. Those are exactly the conditions under which the source does not panic.
- Screenbuffer.Screenbuffer.WriteByte: requires that the byte does not panic. The panicking case is modelled at the value level, where `Screenbuffer.WriteByteSpec` is `None`.
- VgaBuffer.ScrollbackVGA.WriteByte: requires `scroll_row <= row_position`, because the source's unsigned `row_position - scroll_row` would underflow otherwise.
- VgaBuffer.ScrollbackVGA.ScrollUp: requires `lines <= scroll_row`, because the source's clamp is commented out and the unsigned subtraction would underflow.
- The strings in these files are handled as follows:
  - `write_string` in `src/vga/writer.rs`, `src/vga/term.rs` and `src/screenbuffer.rs` iterates over characters and writes `c as u8`; the model does the same (`CharToByte`).
  - `src/vga_buffer.rs` iterates over the UTF-8 bytes of the string, so its `WriteString` takes the byte sequence itself; UTF-8 encoding is not modelled.
- The keyboard and mouse tasks, peripherals, the GUI, the canvas game, the logger and the tick counter are outside the display stack and are not modelled.

## Findings

| source | as written | input that shows it | evidently intended | confidence | as-written member | corrected member |
|---|---|---|---|---|---|---|
| src/vga/term.rs:54 | `get_lines(self.scroll_row, BUFFER_HEIGHT)` passes 25 as the END index of the raw slice `lines[from..to]` | a fresh Term, whose Console has one line, repaints the slice `0..25` of one line and panics; with 50 lines and `scroll_row == 1` only 24 lines are painted; with `scroll_row == 26` it panics | paint the up to 25 lines from `scroll_row`, clipped at the end of the buffer | not executed | Term.RepaintSliceAsWritten, Term.RepaintAsWrittenFails | Term.VisibleWindow, used by Term.Term.UpdateScreen |
| src/screenbuffer.rs:45-46 | scroll down clamps `scroll_row` at 1000, but the repaint at line 56 slices `scroll_row .. scroll_row + 25` of 1000 rows | `scroll_row == 975` and byte 2: the first row becomes 976 and the slice `976..1001` panics | clamp at 975, the last first row with a whole screen below it | not executed | Screenbuffer.ClampAsWritten, Screenbuffer.ClampAsWrittenOverruns | Screenbuffer.ClampScrollRow, used by Screenbuffer.ScrolledRow |
| src/vga_buffer.rs:207 | the screen write is guarded by `row <= BUFFER_HEIGHT` | cursor line on the first shown line, `scroll_up(25)`, then a printable byte: the screen row is 25, the guard admits it, and `buffer.chars[25]` is out of bounds | `row < BUFFER_HEIGHT`. The defect is latent: the input needs `scroll_row >= 25`, which takes 25 line feeds, and each of them already panics in `update_screen` (finding 4). It also needs a direct call of the inherent `scroll_up` (line 179), which nothing in the source calls; the interface default at line 73 is a different method. So it is reached only once finding 4 is corrected | not executed | VgaBuffer.GuardAsWritten, VgaBuffer.GuardAsWrittenAdmitsRow25 | VgaBuffer.Guard, used by VgaBuffer.SbvWriteByteSpec; its effect is proved in VgaBuffer.SbvPrintableAppends |
| src/vga_buffer.rs:164-172 | `update_screen` paints the lines 0..24, each indexed at columns 0..79, whatever `scroll_row` is and however many lines or cells exist | the first line feed after `init_scrollback` leaves two lines, the first of them empty, and `line.index(0)` panics | paint the 25 lines from `scroll_row`, padded with blanks in the writer's colour | not executed | VgaBuffer.UpdateScreenAsWritten, VgaBuffer.NewLineRepaintAsWrittenPanics, VgaBuffer.UpdateScreenAsWrittenIgnoresScroll | VgaBuffer.WindowGrid, used by VgaBuffer.ScrollDownSpec and VgaBuffer.ScrollbackVGA.UpdateScreen |
