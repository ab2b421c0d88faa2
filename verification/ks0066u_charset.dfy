/**
 The character set of the KS0066U display controller (HD44780-compatible,
 Japanese ROM) as the LCD 20x4 helper uses it: how one Unicode code point
 becomes one display character code, before the context rule for the
 combining macron is applied.
 */
module Ks0066uCharset {

  /** COMBINING MACRON, the only code point whose display code depends on context. */
  const Macron := 0x0304
  /** Display code the macron maps to: the ROM glyph x-bar. */
  const XBar := 0xF8
  /** Display code for BLACK SQUARE, used for everything the display cannot show. */
  const BlackSquare := 0xFF
  /** LATIN SMALL LETTER X, both as code point and as display code. */
  const SmallX := 0x78

  const Backslash := 0x5C
  const Tilde := 0x7E
  /** Display code standing in for the backslash: IDEOGRAPHIC COMMA. */
  const IdeographicComma := 0xA4
  /** Display code standing in for the tilde: HYPHEN-MINUS. */
  const HyphenMinus := 0x2D

  /** Distance between a half-width katakana code point and its display code. */
  const KatakanaOffset := 0xFEC0

  /** The ASCII subset of JIS X 0201 that the display shows directly. */
  predicate InAsciiBand(cp: int) {
    0x20 <= cp <= 0x7E
  }

  /** The half-width katakana subset of JIS X 0201. */
  predicate InKatakanaBand(cp: int) {
    0xFF61 <= cp <= 0xFF9F
  }

  /**
   Code points outside both bands that have a glyph of their own (or a close
   look-alike) in the ROM. BLACK SQUARE is listed although it maps to the same
   code as every unlisted code point.
   */
  const SpecialChars: map<int, int> := map[
    0x00A5 := 0x5C,  // YEN SIGN
    0x2192 := 0x7E,  // RIGHTWARDS ARROW
    0x2190 := 0x7F,  // LEFTWARDS ARROW
    0x00B0 := 0xDF,  // DEGREE SIGN, shown as the semi-voiced sound mark
    0x03B1 := 0xE0,  // GREEK SMALL LETTER ALPHA
    0x00C4 := 0xE1,  // LATIN CAPITAL LETTER A WITH DIAERESIS
    0x00E4 := 0xE1,  // LATIN SMALL LETTER A WITH DIAERESIS
    0x00DF := 0xE2,  // LATIN SMALL LETTER SHARP S
    0x03B5 := 0xE3,  // GREEK SMALL LETTER EPSILON
    0x00B5 := 0xE4,  // MICRO SIGN
    0x03BC := 0xE4,  // GREEK SMALL LETTER MU
    0x03C2 := 0xE5,  // GREEK SMALL LETTER FINAL SIGMA
    0x03C1 := 0xE6,  // GREEK SMALL LETTER RHO
    0x221A := 0xE8,  // SQUARE ROOT
    0x00B9 := 0xE9,  // SUPERSCRIPT ONE, shown as superscript minus one
    0x00A4 := 0xEB,  // CURRENCY SIGN
    0x00A2 := 0xEC,  // CENT SIGN
    0x2C60 := 0xED,  // LATIN CAPITAL LETTER L WITH DOUBLE BAR
    0x00F1 := 0xEE,  // LATIN SMALL LETTER N WITH TILDE
    0x00D6 := 0xEF,  // LATIN CAPITAL LETTER O WITH DIAERESIS
    0x00F6 := 0xEF,  // LATIN SMALL LETTER O WITH DIAERESIS
    0x03F4 := 0xF2,  // GREEK CAPITAL THETA SYMBOL
    0x221E := 0xF3,  // INFINITY
    0x03A9 := 0xF4,  // GREEK CAPITAL LETTER OMEGA
    0x00DC := 0xF5,  // LATIN CAPITAL LETTER U WITH DIAERESIS
    0x00FC := 0xF5,  // LATIN SMALL LETTER U WITH DIAERESIS
    0x03A3 := 0xF6,  // GREEK CAPITAL LETTER SIGMA
    0x03C0 := 0xF7,  // GREEK SMALL LETTER PI
    0x0304 := 0xF8,  // COMBINING MACRON
    0x00F7 := 0xFD,  // DIVISION SIGN
    0x25A0 := 0xFF   // BLACK SQUARE
  ]

  /**
   The display code for one code point, ignoring the macron's context rule:
   the ASCII band with its two substitutions, the katakana band by offset,
   the special table, and BLACK SQUARE for everything else.
   */
  function MapCodePoint(cp: int): (c: int)
    ensures 0x20 <= c <= 0xFF
    ensures c == XBar <==> cp == Macron
    ensures c == SmallX <==> cp == SmallX
    ensures InAsciiBand(cp) ==>
      c == (if cp == Backslash then IdeographicComma else if cp == Tilde then HyphenMinus else cp)
    ensures InKatakanaBand(cp) ==> c == cp - KatakanaOffset && 0xA1 <= c <= 0xDF
    ensures cp in SpecialChars ==> c == SpecialChars[cp]
    ensures cp < 0x20 || 0x7F <= cp <= 0xA1 || 0xD800 <= cp <= 0xDFFF || cp > 0xFFFF ==> c == BlackSquare
  {
    if InAsciiBand(cp) then
      if cp == Backslash then IdeographicComma
      else if cp == Tilde then HyphenMinus
      else cp
    else if InKatakanaBand(cp) then
      cp - KatakanaOffset
    else if cp in SpecialChars then
      SpecialChars[cp]
    else
      BlackSquare
  }

  /**
   BLACK SQUARE comes out exactly for the code points that are in neither band
   and have no entry of their own in the table (and for BLACK SQUARE itself).
   */
  lemma BlackSquareExactly(cp: int)
    ensures MapCodePoint(cp) == BlackSquare <==>
      !InAsciiBand(cp) && !InKatakanaBand(cp) && (cp !in SpecialChars || cp == 0x25A0)
  {
  }
}
