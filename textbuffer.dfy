/** The growable scrollback behind a virtual terminal: a list of lines, each a
    list of coloured characters, with a cursor `row` that is always the last
    line. Lines are only ever appended; nothing is evicted. */
module Textbuffer {
  import opened Colors

  /** One stored character and its colour. */
  datatype BufferCharacter = BufferCharacter(character: char, color: ColorCode)

  /** One line of the scrollback; it grows without bound as characters arrive. */
  datatype BufferLine = BufferLine(chars: seq<BufferCharacter>)

  /** `BufferCharacter::default_color`: light grey on black. */
  function DefaultColor(): (c: ColorCode)
    ensures Foreground(c) == LightGray && Background(c) == Black
  {
    DefaultColorCode()
  }

  /** What `new` and `flush` leave behind: exactly one empty line. */
  function EmptyLines(): (lines: seq<BufferLine>)
    ensures |lines| == 1 && lines[0].chars == []
  {
    [BufferLine([])]
  }

  /** The buffer's invariant: there is a line, and `row` is the last one. */
  predicate RowIsLast(lines: seq<BufferLine>, row: nat)
  {
    |lines| >= 1 && row == |lines| - 1
  }

  /** The lines after pushing `c` onto the end of line `row`. */
  function PushCell(lines: seq<BufferLine>, row: nat, c: BufferCharacter): (r: seq<BufferLine>)
    requires row < |lines|
    ensures |r| == |lines|
    ensures r[row].chars == lines[row].chars + [c]
    ensures forall i | 0 <= i < |lines| && i != row :: r[i] == lines[i]
  {
    lines[row := BufferLine(lines[row].chars + [c])]
  }

  /** The cells `write_string` produces for `s`: each character in the default colour. */
  function DefaultCells(s: string): (cells: seq<BufferCharacter>)
    ensures |cells| == |s|
    ensures forall i | 0 <= i < |s| :: cells[i] == BufferCharacter(s[i], DefaultColor())
  {
    if s == [] then [] else DefaultCells(s[..|s| - 1]) + [BufferCharacter(s[|s| - 1], DefaultColor())]
  }

  /** The lines after `write_char` has been applied to each character of `s`, in order. */
  function PushChars(lines: seq<BufferLine>, row: nat, s: string): (r: seq<BufferLine>)
    requires row < |lines|
    ensures |r| == |lines|
    decreases |s|
  {
    if s == [] then lines
    else PushCell(PushChars(lines, row, s[..|s| - 1]), row, BufferCharacter(s[|s| - 1], DefaultColor()))
  }

  /** Writing a string character by character appends exactly its default-coloured
      cells to line `row` and leaves every other line alone. */
  lemma {:induction false} PushCharsAppends(lines: seq<BufferLine>, row: nat, s: string)
    requires row < |lines|
    ensures PushChars(lines, row, s) == lines[row := BufferLine(lines[row].chars + DefaultCells(s))]
    decreases |s|
  {
    if s == [] {
      assert lines[row].chars + [] == lines[row].chars;
    } else {
      var init := s[..|s| - 1];
      var c := BufferCharacter(s[|s| - 1], DefaultColor());
      PushCharsAppends(lines, row, init);
      assert DefaultCells(s) == DefaultCells(init) + [c];
      assert lines[row].chars + DefaultCells(init) + [c] == lines[row].chars + DefaultCells(s);
    }
  }

  /** The scrollback object itself: `lines` and the `row` cursor are updated in place. */
  class Textbuffer {
    var lines: seq<BufferLine>
    var row: nat

    ghost predicate Valid()
      reads this
    {
      RowIsLast(lines, row)
    }

    /** `Textbuffer::new`: one empty line, cursor on it. */
    constructor ()
      ensures Valid()
      ensures lines == EmptyLines() && row == 0
    {
      lines := [BufferLine([])];
      row := 0;
    }

    /** `flush`: back to the state `new` gives, whatever was held before. */
    method Flush()
      modifies this
      ensures Valid()
      ensures lines == EmptyLines() && row == 0
    {
      lines := [];
      lines := lines + [BufferLine([])];
      row := 0;
    }

    /** `get_lines`: the raw slice `lines[from..to]`; the second argument is an
        end index, and the slice is not clipped. */
    method GetLines(from: nat, to: nat) returns (window: seq<BufferLine>)
      requires from <= to <= |lines|
      ensures |window| == to - from
      ensures forall i | 0 <= i < |window| :: window[i] == lines[from + i]
    {
      window := lines[from..to];
    }

    /** `write_char_color`: one cell onto the end of the current line. */
    method WriteCharColor(character: char, color: ColorCode)
      requires Valid()
      modifies this
      ensures Valid() && row == old(row)
      ensures lines == PushCell(old(lines), row, BufferCharacter(character, color))
    {
      lines := lines[row := BufferLine(lines[row].chars + [BufferCharacter(character, color)])];
    }

    /** `write_char`: as `write_char_color` in the default colour. */
    method WriteChar(character: char)
      requires Valid()
      modifies this
      ensures Valid() && row == old(row)
      ensures lines == PushCell(old(lines), row, BufferCharacter(character, DefaultColor()))
    {
      WriteCharColor(character, DefaultColor());
    }

    /** `new_line`: one more, empty, line and the cursor moves onto it. */
    method NewLine()
      requires Valid()
      modifies this
      ensures Valid() && row == old(row) + 1
      ensures lines == old(lines) + [BufferLine([])]
    {
      row := row + 1;
      lines := lines + [BufferLine([])];
    }

    /** `write_string`: `write_char` for each character of `s`, in order. */
    method WriteString(s: string)
      requires Valid()
      modifies this
      ensures Valid() && row == old(row)
      ensures lines == PushChars(old(lines), row, s)
      ensures lines == old(lines)[row := BufferLine(old(lines)[row].chars + DefaultCells(s))]
    {
      for i := 0 to |s|
        invariant Valid() && row == old(row)
        invariant lines == PushChars(old(lines), row, s[..i])
      {
        assert s[..i + 1][..i] == s[..i];
        WriteChar(s[i]);
      }
      assert s[..|s|] == s;
      PushCharsAppends(old(lines), row, s);
    }
  }
}
