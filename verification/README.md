# LCD 20x4 text helpers: the KS0066U transcoder

This project models the text side of `LCD20x4Manager`, the convenience wrapper around the
Tinkerforge LCD 20x4 bricklet. The model has two parts.

- `utf16ToKS0066U` turns a Java (UTF-16) string into the single-byte character set of the
  display's KS0066U controller. This controller is HD44780-compatible and has the Japanese ROM.
  The transcoder walks the string one code unit at a time and reads each code point the way
  `String.codePointAt` does. After a high surrogate it always skips the next unit. It maps each
  code point as follows:
  - the printable ASCII band maps to itself, except that `\` becomes 0xA4 and `~` becomes 0x2D;
  - half-width katakana maps to its code point minus 0xFEC0;
  - the code points in a fixed table of special characters map to their table entry;
  - everything else maps to BLACK SQUARE (0xFF).

  COMBINING MACRON depends on context. It replaces the character emitted just before it: an `x`
  becomes x-bar (0xF8), and any other character becomes BLACK SQUARE.
- `write`, `clearPatch` and `clearLine` each issue at most one `writeLine(line, position, text)`
  to the display. Here that call is a returned `Command` value. A null display issues nothing. `write` with a null text on a present display throws, and so does `clearPatch` with `end < start`.

The files:

- `utf16.dfy` (module `Utf16`) holds Java's `char`, the surrogate tests, `codePointAt`, and the
  walk the loop makes over a string (`Walk`, `Stop`, `Aligned`).
- `ks0066u_charset.dfy` (module `Ks0066uCharset`) holds the mapping of one code point. The
  special characters are a `map` constant.
- `ks0066u_encoder.dfy` (module `Ks0066uEncoder`) holds the recursive specification. `Emit` is one
  step of the loop, `EmitAll` folds `Emit` over the code points, and `Encode` transcodes a whole
  string. The method `Utf16ToKS0066U` is the loop of `utf16ToKS0066U`, proved equal to `Encode`.
- `encoder_lemmas.dfy` (module `Ks0066uEncoderProperties`) holds the properties: one class of
  input at a time, appending to an input, and the exact output length.
- `lcd_manager.dfy` (module `Lcd20x4Manager`) holds the command builders `Write`, `ClearPatch`,
  `ClearLine` and the corrected `ClearFullLine`.

Input strings are `seq<CodeUnit>`, with values 0..0xFFFF. Output strings are `seq<int>`. The
model proves that every output value lies in 0x20..0xFF.

## Model

| member | source | states |
|---|---|---|
| `Utf16.CodePointAt` | ch.quantasy.tinkerforge.tinker/ch.quantasy.tinkerforge.tinker/src/ch/quantasy/tinkerforge/tinker/util/implementation/LCD20x4Manager.java:169 | The code point read at `i` is supplementary (0x10000..0x10FFFF) exactly when a high surrogate is followed by a low one. Otherwise it is the unit itself, which may be an unpaired surrogate. |
| `Utf16.ToCodePoint` | ch.quantasy.tinkerforge.tinker/ch.quantasy.tinkerforge.tinker/src/ch/quantasy/tinkerforge/tinker/util/implementation/LCD20x4Manager.java:169 | A surrogate pair combines to a supplementary code point. Dividing its offset from 0x10000 by 0x400 gives back the high surrogate's payload, and the remainder gives back the low one's. |
| `Utf16.Walk` | ch.quantasy.tinkerforge.tinker/ch.quantasy.tinkerforge.tinker/src/ch/quantasy/tinkerforge/tinker/util/implementation/LCD20x4Manager.java:168-174 | The loop visits at most as many code points as there are units left. It visits at least one when a unit is left, and each code point it visits is a valid one. |
| `Utf16.Stop` | ch.quantasy.tinkerforge.tinker/ch.quantasy.tinkerforge.tinker/src/ch/quantasy/tinkerforge/tinker/util/implementation/LCD20x4Manager.java:168-174 | The loop index leaves the string at `length` or at `length + 1`. It leaves at `length + 1` only when the last unit is a high surrogate. The converse does not hold: in `[H, H]` the walk skips the final unit. |
| `Utf16.WalkShift` | ch.quantasy.tinkerforge.tinker/ch.quantasy.tinkerforge.tinker/src/ch/quantasy/tinkerforge/tinker/util/implementation/LCD20x4Manager.java:168-174 | The walk over the part of a string that follows a prefix does not depend on the prefix. |
| `Utf16.WalkAppend` | ch.quantasy.tinkerforge.tinker/ch.quantasy.tinkerforge.tinker/src/ch/quantasy/tinkerforge/tinker/util/implementation/LCD20x4Manager.java:168-174 | Suppose the walk from `i` ends exactly at the end of `p`. Then on `p + q` it visits the same code points and continues with the walk of `q`. |
| `Utf16.CodePointsAppend` | ch.quantasy.tinkerforge.tinker/ch.quantasy.tinkerforge.tinker/src/ch/quantasy/tinkerforge/tinker/util/implementation/LCD20x4Manager.java:168-174 | After an aligned prefix, the code points of a concatenation are the code points of the prefix followed by those of the rest. |
| `Utf16.WalkNoHighSurrogates` | ch.quantasy.tinkerforge.tinker/ch.quantasy.tinkerforge.tinker/src/ch/quantasy/tinkerforge/tinker/util/implementation/LCD20x4Manager.java:168-174 | Without high surrogates, the walk from `i` visits exactly the units from `i` on and ends at the end. |
| `Utf16.NoHighSurrogatesCodePoints` | ch.quantasy.tinkerforge.tinker/ch.quantasy.tinkerforge.tinker/src/ch/quantasy/tinkerforge/tinker/util/implementation/LCD20x4Manager.java:168-174 | Without high surrogates, every unit is its own code point and the string is aligned. |
| `Ks0066uCharset.MapCodePoint` | ch.quantasy.tinkerforge.tinker/ch.quantasy.tinkerforge.tinker/src/ch/quantasy/tinkerforge/tinker/util/implementation/LCD20x4Manager.java:176-296 | Every display code lies in 0x20..0xFF, and x-bar comes from COMBINING MACRON alone. `x` comes from `x` alone. Printable ASCII maps to itself except `\` to 0xA4 and `~` to 0x2D. Katakana maps to `cp - 0xFEC0` in 0xA1..0xDF. Each code point in the special-character table maps to its entry, for example U+00A5 to 0x5C, U+00B0 to 0xDF and U+03C0 to 0xF7. Control characters, 0x7F..0xA1, surrogates and supplementary code points map to BLACK SQUARE. |
| `Ks0066uCharset.BlackSquareExactly` | ch.quantasy.tinkerforge.tinker/ch.quantasy.tinkerforge.tinker/src/ch/quantasy/tinkerforge/tinker/util/implementation/LCD20x4Manager.java:196-295 | BLACK SQUARE comes out exactly for the code points that are in neither band and have no table entry, plus U+25A0 itself. |
| `Ks0066uEncoder.Emit` | ch.quantasy.tinkerforge.tinker/ch.quantasy.tinkerforge.tinker/src/ch/quantasy/tinkerforge/tinker/util/implementation/LCD20x4Manager.java:298-309 | A code point other than the macron appends its display code. A macron replaces the last output character by x-bar if it was `x` and by BLACK SQUARE otherwise. On empty output a macron appends BLACK SQUARE. Output stays non-empty and showable. |
| `Ks0066uEncoder.EmitAll` | ch.quantasy.tinkerforge.tinker/ch.quantasy.tinkerforge.tinker/src/ch/quantasy/tinkerforge/tinker/util/implementation/LCD20x4Manager.java:168-310 | Emitting a run of code points adds at most one character per code point. It keeps the output showable, and the output is non-empty once anything has been emitted. |
| `Ks0066uEncoder.Encode` | ch.quantasy.tinkerforge.tinker/ch.quantasy.tinkerforge.tinker/src/ch/quantasy/tinkerforge/tinker/util/implementation/LCD20x4Manager.java:164-313 | The transcoded string is no longer than the input and is non-empty for non-empty input. Every character in it lies in 0x20..0xFF. |
| `Ks0066uEncoder.Utf16ToKS0066U` | ch.quantasy.tinkerforge.tinker/ch.quantasy.tinkerforge.tinker/src/ch/quantasy/tinkerforge/tinker/util/implementation/LCD20x4Manager.java:164-313 | The index-based loop, with its extra skip after a high surrogate and the in-place macron rewrite, computes exactly the recursive specification `Encode`. |
| `Ks0066uEncoderProperties.EmitAllConcat` | ch.quantasy.tinkerforge.tinker/ch.quantasy.tinkerforge.tinker/src/ch/quantasy/tinkerforge/tinker/util/implementation/LCD20x4Manager.java:168-310 | Emitting `a + b` is emitting `a` and then `b` onto the result. |
| `Ks0066uEncoderProperties.EncodeAppend` | ch.quantasy.tinkerforge.tinker/ch.quantasy.tinkerforge.tinker/src/ch/quantasy/tinkerforge/tinker/util/implementation/LCD20x4Manager.java:164-313 | After an aligned prefix, transcoding `p + q` continues from the transcoding of `p`. |
| `Ks0066uEncoderProperties.AppendCodeUnit` | ch.quantasy.tinkerforge.tinker/ch.quantasy.tinkerforge.tinker/src/ch/quantasy/tinkerforge/tinker/util/implementation/LCD20x4Manager.java:176-296 | Appending a unit that is neither a high surrogate nor the macron appends exactly its display code. |
| `Ks0066uEncoderProperties.AppendMacron` | ch.quantasy.tinkerforge.tinker/ch.quantasy.tinkerforge.tinker/src/ch/quantasy/tinkerforge/tinker/util/implementation/LCD20x4Manager.java:298-309 | Appending COMBINING MACRON turns a trailing `x` into x-bar and any other trailing character into BLACK SQUARE, keeping the length. On empty output it gives a single BLACK SQUARE. |
| `Ks0066uEncoderProperties.AppendHighSurrogate` | ch.quantasy.tinkerforge.tinker/ch.quantasy.tinkerforge.tinker/src/ch/quantasy/tinkerforge/tinker/util/implementation/LCD20x4Manager.java:168-174 | A high surrogate plus any following unit, low surrogate or not, appends exactly one BLACK SQUARE. So does a lone high surrogate at the end. |
| `Ks0066uEncoderProperties.HighSurrogateSkipsNext` | ch.quantasy.tinkerforge.tinker/ch.quantasy.tinkerforge.tinker/src/ch/quantasy/tinkerforge/tinker/util/implementation/LCD20x4Manager.java:168-174 | Wherever the loop meets a high surrogate, it emits one BLACK SQUARE and resumes two units later. |
| `Ks0066uEncoderProperties.EmitAllWithoutMacron` | ch.quantasy.tinkerforge.tinker/ch.quantasy.tinkerforge.tinker/src/ch/quantasy/tinkerforge/tinker/util/implementation/LCD20x4Manager.java:298-309 | Without macrons, the earlier output is kept and each code point contributes its display code at its own position. |
| `Ks0066uEncoderProperties.CodeUnitWise` | ch.quantasy.tinkerforge.tinker/ch.quantasy.tinkerforge.tinker/src/ch/quantasy/tinkerforge/tinker/util/implementation/LCD20x4Manager.java:164-313 | A string with no high surrogates and no macrons transcodes position by position, one display code per unit. |
| `Ks0066uEncoderProperties.PrintableAscii` | ch.quantasy.tinkerforge.tinker/ch.quantasy.tinkerforge.tinker/src/ch/quantasy/tinkerforge/tinker/util/implementation/LCD20x4Manager.java:177-190 | Printable ASCII keeps its length and each character, except that `\` becomes 0xA4 and `~` becomes 0x2D. |
| `Ks0066uEncoderProperties.PlainAsciiUnchanged` | ch.quantasy.tinkerforge.tinker/ch.quantasy.tinkerforge.tinker/src/ch/quantasy/tinkerforge/tinker/util/implementation/LCD20x4Manager.java:177-190 | A printable ASCII string with neither `\` nor `~` comes out unchanged. |
| `Ks0066uEncoderProperties.HalfWidthKatakana` | ch.quantasy.tinkerforge.tinker/ch.quantasy.tinkerforge.tinker/src/ch/quantasy/tinkerforge/tinker/util/implementation/LCD20x4Manager.java:192-195 | Half-width katakana transcodes unit by unit to `cp - 0xFEC0`, all within 0xA1..0xDF. |
| `Ks0066uEncoderProperties.EmitAllLength` | ch.quantasy.tinkerforge.tinker/ch.quantasy.tinkerforge.tinker/src/ch/quantasy/tinkerforge/tinker/util/implementation/LCD20x4Manager.java:298-309 | On non-empty output, each code point adds one character and each macron adds none. |
| `Ks0066uEncoderProperties.EncodeLength` | ch.quantasy.tinkerforge.tinker/ch.quantasy.tinkerforge.tinker/src/ch/quantasy/tinkerforge/tinker/util/implementation/LCD20x4Manager.java:164-313 | Output length is the number of visited code points minus the number of macrons. Add one when the first code point is a macron. |
| `Lcd20x4Manager.Write` | ch.quantasy.tinkerforge.tinker/ch.quantasy.tinkerforge.tinker/src/ch/quantasy/tinkerforge/tinker/util/implementation/LCD20x4Manager.java:153-160 | Nothing is issued for a null display. A null text on a present display throws a null-pointer error, raised when the transcoder asks for the length. Otherwise exactly one `writeLine(line, position, utf16ToKS0066U(text))` is issued, and its text is no longer than the input and is showable. |
| `Lcd20x4Manager.ClearPatch` | ch.quantasy.tinkerforge.tinker/ch.quantasy.tinkerforge.tinker/src/ch/quantasy/tinkerforge/tinker/util/implementation/LCD20x4Manager.java:122-142 | Nothing happens for a null display. When `end < start` the call throws a negative-array-size error. Otherwise one `writeLine` at column `start` writes only spaces and covers exactly columns `start` to `end - 1`. |
| `Lcd20x4Manager.ClearPatchIsWriteOfSpaces` | ch.quantasy.tinkerforge.tinker/ch.quantasy.tinkerforge.tinker/src/ch/quantasy/tinkerforge/tinker/util/implementation/LCD20x4Manager.java:138-140 | Clearing a patch has the same outcome as `write` of `end - start` spaces at `start`, because spaces transcode to themselves. |
| `Lcd20x4Manager.ClearLine` | ch.quantasy.tinkerforge.tinker/ch.quantasy.tinkerforge.tinker/src/ch/quantasy/tinkerforge/tinker/util/implementation/LCD20x4Manager.java:104-120 | Nothing happens for a null display. Otherwise 19 spaces are written at column 0, covering columns 0..18. |
| `Lcd20x4Manager.ClearLineMissesLastColumn` | ch.quantasy.tinkerforge.tinker/ch.quantasy.tinkerforge.tinker/src/ch/quantasy/tinkerforge/tinker/util/implementation/LCD20x4Manager.java:104-118 | The command `clearLine` issues does not reach column 19, the last column of the 20-column line. |
| `Lcd20x4Manager.ClearFullLine` | ch.quantasy.tinkerforge.tinker/ch.quantasy.tinkerforge.tinker/src/ch/quantasy/tinkerforge/tinker/util/implementation/LCD20x4Manager.java:104-118 | Clearing a complete line, as documented, issues one command that writes 20 spaces from column 0. It covers every one of the 20 columns with blanks. A null display issues nothing. |

## Left out

- `visualAlert`, `hello` and `goodBye` are left out. They start a thread, sleep for fixed times, toggle the backlight and swallow exceptions. Their point is timed hardware side effects, not a result that can be stated.
- The `synchronized (lcd)` blocks in `clearLine` and `clearPatch` are left out. The model issues commands as values, so there is no shared device to lock.
- The display library's own calls (`writeLine`, `clearDisplay`, `backlightOn`, ...) and the `TimeoutException` / `NotConnectedException` they can throw are left out. They are foreign code reached over the network. A call is modelled only as the `Command` it would send.
- The line and column ranges documented for the helpers (lines 0..3, columns 0..19) are not modelled as preconditions, because the helpers do not check them. What the display does with out-of-range arguments belongs to the library.
- The device-stack agency, device registry and event bus are not part of this model. Their code is not among the files modelled. `BusFactory.java` only declares factories of an external bus library.
- `AltitudeProfileView.java`, `ExampleEnumerate.java`, `ExampleButtonCallback.java`, `RemoteSwitchEncoder.java` and `ApplicationManagement.java` are not part of this model. They are UI, vendor demo and transport-wrapper code around calls this model does not see.

## Findings

| source | as written | input that shows it | evidently intended | confidence | as-written member | corrected member |
|---|---|---|---|---|---|---|
| ch.quantasy.tinkerforge.tinker/ch.quantasy.tinkerforge.tinker/src/ch/quantasy/tinkerforge/tinker/util/implementation/LCD20x4Manager.java:118 | `clearLine` calls `clearPatch(lcd, line, 0, 19)`, which writes 19 spaces at columns 0..18 | any line showing a character in column 19: after `clearLine` that character is still shown | clear the complete 20-column line, as its documentation says: `clearPatch(lcd, line, 0, 20)`. `clearPatch`'s own documentation gives `end` as 1-19, which suggests a second reading: `end` was meant to be inclusive, and the off-by-one is in the `end - start` buffer size. Under either reading, columns 0 to 19 are blanked. | medium; not executed | `Lcd20x4Manager.ClearLine`, `Lcd20x4Manager.ClearLineMissesLastColumn` | `Lcd20x4Manager.ClearFullLine` |
