/** Terminal styles as tags (internal/layer/style.go): a style is dim, bold
    and a foreground colour; tcell's default style has none of them. */
module Styles {

  /** The tcell colours the aquarium names, and tcell's "no colour". */
  datatype Color =
    | ColorDefault
    | Orchid | PaleGoldenrod | PaleGreen | PaleTurquoise | PaleVioletRed
    | PapayaWhip | PeachPuff | LightCoral | LightGoldenrodYellow | LightGray
    | LightGreen | LightPink | LightSalmon | LightSlateGray | LightYellow
    | LightSeaGreen | LimeGreen
    | LightCyan | LightBlue | LightSkyBlue | LightSteelBlue

  datatype Style = Style(dim: bool, bold: bool, fg: Color)

  /** tcell.StyleDefault. */
  const StyleDefault := Style(false, false, ColorDefault)

  /** tcell.StyleDefault.Dim(true).Bold(true), the base of every palette entry. */
  const DimBold := Style(true, true, ColorDefault)

  /** The base style with a foreground colour. */
  function Tinted(c: Color): (s: Style)
    ensures s.dim && s.bold && s.fg == c
  {
    DimBold.(fg := c)
  }

  /** A palette entry: dim, bold and a real foreground colour. */
  predicate IsPaletteStyle(s: Style)
  {
    s.dim && s.bold && s.fg != ColorDefault
  }

  /** The palette with the base style tinted by each colour, in order. A
      palette over real colours holds only palette entries. */
  function Palette(cs: seq<Color>): (p: seq<Style>)
    ensures |p| == |cs|
    ensures forall i :: 0 <= i < |p| ==> p[i] == Tinted(cs[i])
    ensures (forall i :: 0 <= i < |cs| ==> cs[i] != ColorDefault) ==>
      forall i :: 0 <= i < |p| ==> IsPaletteStyle(p[i])
  {
    seq(|cs|, i requires 0 <= i < |cs| => Tinted(cs[i]))
  }

  const BlueNames: seq<Color> := [LightCyan, LightBlue, LightSkyBlue, LightSteelBlue]

  const ColorNames: seq<Color> :=
    [ Orchid, PaleGoldenrod, PaleGreen, PaleTurquoise, PaleVioletRed, PapayaWhip,
      PeachPuff, LightCoral, LightGoldenrodYellow, LightGray, LightGreen, LightPink,
      LightSalmon, LightSlateGray, LightYellow, LightSeaGreen, LimeGreen ]

  /** The bubble palette `Blues`. */
  function Blues(): (p: seq<Style>)
    ensures |p| == 4
    ensures forall i :: 0 <= i < |p| ==> IsPaletteStyle(p[i])
  {
    Palette(BlueNames)
  }

  /** The fish and banner palette `Colors`: seventeen named colours followed by
      all of `Blues`. */
  function Colors(): (p: seq<Style>)
    ensures |p| == 21 && p[17..] == Blues()
    ensures forall i :: 0 <= i < |p| ==> IsPaletteStyle(p[i])
  {
    var p := Palette(ColorNames + BlueNames);
    assert forall i :: 0 <= i < 4 ==> p[17..][i] == Tinted(BlueNames[i]);
    p
  }

  /** unicode.IsSpace: the ASCII and Latin-1 white space and the Unicode
      White_Space characters above them. */
  predicate IsSpace(ch: char)
  {
    var c := ch as int;
    c == 0x20 || 0x09 <= c <= 0x0D || c == 0x85 || c == 0xA0 || c == 0x1680
    || 0x2000 <= c <= 0x200A || c == 0x2028 || c == 0x2029 || c == 0x202F
    || c == 0x205F || c == 0x3000
  }

  /** The glyph classes of bodypartColorMask. */
  const Structural: string := "\\/#~-_<()"
  const Accent: string := "C@o"
  const Punctuation: string := ",\"';:="

  /** bodypartColorMask: the colour class of a fish glyph. A structural glyph
      takes one of two colours at random; `second` is that draw. */
  function BodypartColorMask(ch: char, second: bool): (s: Style)
    ensures s.dim && s.bold
    ensures ch in Structural ==> s.fg == (if second then LightGreen else LightYellow)
    ensures ch in Accent ==> s.fg == PaleVioletRed
    ensures ch in Punctuation ==> s.fg == LightCoral
    ensures ch !in Structural && ch !in Accent && ch !in Punctuation ==> s == DimBold
  {
    if ch in Structural then Tinted(if second then LightGreen else LightYellow)
    else if ch in Accent then Tinted(PaleVioletRed)
    else if ch in Punctuation then Tinted(LightCoral)
    else DimBold
  }

  /** No glyph belongs to two classes, so the order of the cases does not matter. */
  lemma GlyphClassesDisjoint(ch: char)
    ensures !(ch in Structural && ch in Accent)
    ensures !(ch in Structural && ch in Punctuation)
    ensures !(ch in Accent && ch in Punctuation)
  {
  }

  /** Only the unclassified glyphs get no foreground colour. */
  lemma MaskColoursClassifiedGlyphs(ch: char, second: bool)
    ensures BodypartColorMask(ch, second).fg != ColorDefault
        <==> ch in Structural || ch in Accent || ch in Punctuation
  {
  }
}
