/** The VGA text-mode vocabulary shared by every display module: the sixteen
    colours, the packed colour byte, one screen cell, and the 80x25 geometry. */
module Colors {

  /** Width and height of the hardware character grid. */
  const BUFFER_WIDTH: nat := 80
  const BUFFER_HEIGHT: nat := 25

  /** An unsigned 8-bit value (the source's `u8`). */
  type Byte = b: int | 0 <= b < 256

  const NEWLINE: Byte := 10
  const SPACE: Byte := 32

  /** The sixteen text-mode colours, in the order of their hardware numbers. */
  datatype Color =
    | Black | Blue | Green | Cyan | Red | Magenta | Brown | LightGray
    | DarkGray | LightBlue | LightGreen | LightCyan | LightRed | Pink | Yellow | White

  /** The hardware number of a colour (its `repr(u8)` discriminant). */
  function ColorValue(c: Color): (v: bv8)
    ensures v < 16
  {
    match c
    case Black => 0
    case Blue => 1
    case Green => 2
    case Cyan => 3
    case Red => 4
    case Magenta => 5
    case Brown => 6
    case LightGray => 7
    case DarkGray => 8
    case LightBlue => 9
    case LightGreen => 10
    case LightCyan => 11
    case LightRed => 12
    case Pink => 13
    case Yellow => 14
    case White => 15
  }

  /** The colour with a given 4-bit hardware number; the inverse of ColorValue. */
  function ColorOf(v: bv8): (c: Color)
    requires v < 16
    ensures ColorValue(c) == v
  {
    if v == 0 then Black
    else if v == 1 then Blue
    else if v == 2 then Green
    else if v == 3 then Cyan
    else if v == 4 then Red
    else if v == 5 then Magenta
    else if v == 6 then Brown
    else if v == 7 then LightGray
    else if v == 8 then DarkGray
    else if v == 9 then LightBlue
    else if v == 10 then LightGreen
    else if v == 11 then LightCyan
    else if v == 12 then LightRed
    else if v == 13 then Pink
    else if v == 14 then Yellow
    else White
  }

  /** Decoding a colour's number gives the colour back. */
  lemma ColorOfValue(c: Color)
    ensures ColorOf(ColorValue(c)) == c
  {
    match c
    case Black =>
    case Blue =>
    case Green =>
    case Cyan =>
    case Red =>
    case Magenta =>
    case Brown =>
    case LightGray =>
    case DarkGray =>
    case LightBlue =>
    case LightGreen =>
    case LightCyan =>
    case LightRed =>
    case Pink =>
    case Yellow =>
    case White =>
  }

  /** The attribute byte of a cell: background in the high nibble, foreground in the low one. */
  datatype ColorCode = ColorCode(bits: bv8)

  /** `ColorCode::new`: pack a foreground and a background colour. */
  function NewColorCode(foreground: Color, background: Color): (code: ColorCode)
    ensures code.bits & 0xF == ColorValue(foreground)
    ensures code.bits >> 4 == ColorValue(background)
  {
    ColorCode((ColorValue(background) << 4) | ColorValue(foreground))
  }

  /** The colour in the low nibble. */
  function Foreground(code: ColorCode): Color
  {
    ColorOf(code.bits & 0xF)
  }

  /** The colour in the high nibble. */
  function Background(code: ColorCode): Color
  {
    ColorOf(code.bits >> 4)
  }

  /** Unpacking a packed colour code recovers both colours. */
  lemma ColorCodeRoundTrip(foreground: Color, background: Color)
    ensures Foreground(NewColorCode(foreground, background)) == foreground
    ensures Background(NewColorCode(foreground, background)) == background
  {
    ColorOfValue(foreground);
    ColorOfValue(background);
  }

  /** Two colour pairs pack to the same byte only if they are the same pair. */
  lemma NewColorCodeInjective(f1: Color, b1: Color, f2: Color, b2: Color)
    requires NewColorCode(f1, b1) == NewColorCode(f2, b2)
    ensures f1 == f2 && b1 == b2
  {
    ColorCodeRoundTrip(f1, b1);
    ColorCodeRoundTrip(f2, b2);
  }

  /** `ColorCode::default`: light grey on black. */
  function DefaultColorCode(): (code: ColorCode)
    ensures code.bits == 0x07
    ensures Foreground(code) == LightGray && Background(code) == Black
  {
    ColorCodeRoundTrip(LightGray, Black);
    NewColorCode(LightGray, Black)
  }

  /** One cell of the hardware grid: a code-page byte and its attribute. */
  datatype ScreenChar = ScreenChar(asciiCharacter: Byte, colorCode: ColorCode)

  /** The blank cell `clear_row` writes. */
  function Blank(code: ColorCode): ScreenChar
  {
    ScreenChar(SPACE, code)
  }

  /** `c as u8` on a Rust `char`: keep the low eight bits of the code point. */
  function CharToByte(c: char): (b: Byte)
    ensures (c as int) < 256 ==> b == c as int
  {
    (c as int) % 256
  }
}
