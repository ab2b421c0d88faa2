/**
 The UTF-16 to KS0066U transcoder of the LCD 20x4 helper
 (`LCD20x4Manager.utf16ToKS0066U`): a recursive specification, one code point
 at a time, and the loop of `utf16ToKS0066U` proved equal to it.
 */
module Ks0066uEncoder {
  import opened Utf16
  import opened Ks0066uCharset

  /** Every element is a code the display can show (the printable range 0x20..0xFF). */
  predicate DisplayCodes(out: seq<int>) {
    forall k :: 0 <= k < |out| ==> 0x20 <= out[k] <= 0xFF
  }

  /**
   One step of the transcoder: the display code of `cp` is appended to `out`,
   except that COMBINING MACRON replaces the last character emitted so far
   (x-bar when that character is `x`, BLACK SQUARE otherwise) and, on empty
   output, appends BLACK SQUARE.
   */
  function Emit(out: seq<int>, cp: int): (r: seq<int>)
    ensures cp != Macron ==> r == out + [MapCodePoint(cp)]
    ensures cp == Macron && |out| == 0 ==> r == [BlackSquare]
    ensures cp == Macron && |out| > 0 ==>
      r == out[..|out| - 1] + [if out[|out| - 1] == SmallX then XBar else BlackSquare]
    ensures |r| > 0
    ensures DisplayCodes(out) ==> DisplayCodes(r)
  {
    var c := MapCodePoint(cp);
    if c == XBar then
      var c' := if |out| > 0 && out[|out| - 1] == SmallX then c else BlackSquare;
      (if |out| > 0 then out[..|out| - 1] else []) + [c']
    else
      out + [c]
  }

  /** Emits the given code points one after the other. */
  function EmitAll(out: seq<int>, cps: seq<int>): (r: seq<int>)
    ensures |r| <= |out| + |cps|
    ensures |out| + |cps| > 0 ==> |r| > 0
    ensures DisplayCodes(out) ==> DisplayCodes(r)
    decreases |cps|
  {
    if |cps| == 0 then out else EmitAll(Emit(out, cps[0]), cps[1..])
  }

  /**
   The display string for a UTF-16 string: never longer than the input, never
   empty for non-empty input, and made only of showable codes.
   */
  function Encode(s: seq<CodeUnit>): (r: seq<int>)
    ensures |r| <= |s|
    ensures |s| > 0 ==> |r| > 0
    ensures DisplayCodes(r)
  {
    EmitAll([], CodePoints(s))
  }

  /**
   The loop of `utf16ToKS0066U` as written: read the code point at `i`, skip
   one more unit after a high surrogate, map, apply the macron rule against
   the output built so far, append.
   */
  method Utf16ToKS0066U(utf16: seq<CodeUnit>) returns (ks0066u: seq<int>)
    ensures ks0066u == Encode(utf16)
    ensures |ks0066u| <= |utf16|
    ensures DisplayCodes(ks0066u)
  {
    ks0066u := [];
    var i := 0;
    while i < |utf16|
      invariant 0 <= i <= |utf16| + 1
      invariant EmitAll(ks0066u, Walk(utf16, i)) == Encode(utf16)
      decreases |utf16| + 1 - i
    {
      var codePoint := CodePointAt(utf16, i);
      ghost var before := ks0066u;
      ghost var next := i + Width(utf16, i);
      if IsHighSurrogate(utf16[i]) {
        i := i + 1;
      }
      var c := MapCodePoint(codePoint);
      if c == XBar {
        if !(|ks0066u| > 0 && ks0066u[|ks0066u| - 1] == SmallX) {
          c := BlackSquare;
        }
        if |ks0066u| > 0 {
          ks0066u := ks0066u[..|ks0066u| - 1];
        }
      }
      ks0066u := ks0066u + [c];
      i := i + 1;
      assert ks0066u == Emit(before, codePoint);
      assert i == next;
    }
  }
}
