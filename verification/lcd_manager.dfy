/**
 The text helpers of `LCD20x4Manager`: `write`, `clearPatch` and `clearLine`.
 Each one issues at most one `writeLine(line, position, text)` call to the
 display; here that call is returned as a command value instead of being sent
 to the device, and a missing display (a null reference) issues nothing.
 */
module Lcd20x4Manager {
  import opened Utf16
  import opened Ks0066uEncoder
  import opened Ks0066uEncoderProperties

  /** A Java `short`. */
  type Short = x: int | -0x8000 <= x < 0x8000

  /** Character cells per line of the 20x4 display. */
  const Columns := 20

  const Space := 0x20

  /** The display reference a helper is handed; `Null` stands for Java's `null`. */
  datatype LcdRef = Null | Lcd(uid: string)

  /** One `writeLine` call on the display: `text` is shown from column `position` of `line`. */
  datatype Command = WriteLine(line: Short, position: Short, text: seq<int>)

  /** The Java `String` a helper is handed; `NullText` stands for a `null` string. */
  datatype JavaString = NullText | Text(units: seq<CodeUnit>)

  /** Exceptions a helper raises by itself (not those of the display library). */
  datatype Exception = NegativeArraySize(size: int) | NullPointer

  /** What a helper does: return normally after issuing some commands, or throw. */
  datatype Outcome = Returned(issued: seq<Command>) | Thrown(error: Exception)

  /** True when `cmd` writes into column `col` of its line. */
  predicate Covers(cmd: Command, col: int)
  {
    cmd.position <= col < cmd.position + |cmd.text|
  }

  /** `n` blanks, as the `char[]` filled with `' '` that `clearPatch` builds. */
  function Spaces(n: nat): (r: seq<CodeUnit>)
    ensures |r| == n
    ensures forall k :: 0 <= k < n ==> r[k] == Space
  {
    seq(n, _ => Space)
  }

  /**
   `write`: nothing for a null display; a null text on a present display
   throws when the transcoder asks for its length; otherwise one `writeLine`
   carrying the transcoded text, which is never longer than the given one and
   holds only showable codes.
   */
  function Write(lcd: LcdRef, line: Short, position: Short, text: JavaString): (o: Outcome)
    ensures lcd.Null? ==> o == Returned([])
    ensures lcd.Lcd? && text.NullText? ==> o == Thrown(NullPointer)
    ensures lcd.Lcd? && text.Text? ==>
      && o.Returned? && |o.issued| == 1
      && o.issued[0] == WriteLine(line, position, Encode(text.units))
      && |o.issued[0].text| <= |text.units| && DisplayCodes(o.issued[0].text)
  {
    if lcd.Null? then
      Returned([])
    else if text.NullText? then
      Thrown(NullPointer)
    else
      Returned([WriteLine(line, position, Encode(text.units))])
  }

  /**
   `clearPatch`: blanks columns `start` up to, not including, `end` of `line`
   with `end - start` spaces. The documented demand `start < end` is not
   checked; `end < start` throws when the blank buffer is allocated, and
   `end == start` writes an empty text. A null display is checked first.
   */
  function ClearPatch(lcd: LcdRef, line: Short, start: Short, end: Short): (o: Outcome)
    ensures lcd.Null? ==> o == Returned([])
    ensures lcd.Lcd? && end < start ==> o == Thrown(NegativeArraySize(end - start))
    ensures lcd.Lcd? && start <= end ==>
      && o.Returned? && |o.issued| == 1
      && o.issued[0].line == line && o.issued[0].position == start
      && (forall col :: Covers(o.issued[0], col) <==> start <= col < end)
      && (forall k :: 0 <= k < |o.issued[0].text| ==> o.issued[0].text[k] == Space)
  {
    if lcd.Null? then
      Returned([])
    else if end - start < 0 then
      Thrown(NegativeArraySize(end - start))
    else
      Returned([WriteLine(line, start, Spaces(end - start))])
  }

  /**
   `clearPatch` sends its blanks untranscoded, and blanks transcode to
   themselves, so clearing a patch is writing that many spaces there.
   */
  lemma ClearPatchIsWriteOfSpaces(lcd: LcdRef, line: Short, start: Short, end: Short)
    requires start <= end
    ensures ClearPatch(lcd, line, start, end) == Write(lcd, line, start, Text(Spaces(end - start)))
  {
    PlainAsciiUnchanged(Spaces(end - start));
  }

  /**
   `clearLine`: `clearPatch(line, 0, 19)`. It writes 19 blanks from column 0,
   so the last of the 20 columns keeps whatever it showed.
   */
  function ClearLine(lcd: LcdRef, line: Short): (o: Outcome)
    ensures lcd.Null? ==> o == Returned([])
    ensures lcd.Lcd? ==> o == Returned([WriteLine(line, 0, Spaces(19))])
    ensures lcd.Lcd? ==> forall col :: Covers(o.issued[0], col) <==> 0 <= col < Columns - 1
  {
    if lcd.Null? then Returned([]) else ClearPatch(lcd, line, 0, 19)
  }

  /** The column the helper named for clearing a complete line leaves untouched. */
  lemma ClearLineMissesLastColumn(line: Short)
    ensures var o := ClearLine(Lcd("lcd"), line);
      o.Returned? && |o.issued| == 1 && !Covers(o.issued[0], Columns - 1)
  {
  }

  /** Clearing a complete line as documented: blanks over every one of the 20 columns. */
  function ClearFullLine(lcd: LcdRef, line: Short): (o: Outcome)
    ensures lcd.Null? ==> o == Returned([])
    ensures lcd.Lcd? ==> o == Returned([WriteLine(line, 0, Spaces(Columns))])
    ensures lcd.Lcd? ==> forall col :: Covers(o.issued[0], col) <==> 0 <= col < Columns
    ensures lcd.Lcd? ==> forall k :: 0 <= k < |o.issued[0].text| ==> o.issued[0].text[k] == Space
  {
    if lcd.Null? then Returned([]) else ClearPatch(lcd, line, 0, Columns)
  }
}
