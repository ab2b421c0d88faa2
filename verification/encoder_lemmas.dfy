/**
 Properties of the KS0066U transcoder: how it behaves on each class of input,
 how output grows as input is appended, and its exact output length.
 */
module Ks0066uEncoderProperties {
  import opened Utf16
  import opened Ks0066uCharset
  import opened Ks0066uEncoder

  /** Emitting two runs of code points is emitting their concatenation. */
  lemma {:induction false} EmitAllConcat(out: seq<int>, a: seq<int>, b: seq<int>)
    ensures EmitAll(out, a + b) == EmitAll(EmitAll(out, a), b)
    decreases |a|
  {
    if |a| > 0 {
      assert (a + b)[0] == a[0];
      assert (a + b)[1..] == a[1..] + b;
      EmitAllConcat(Emit(out, a[0]), a[1..], b);
    } else {
      assert a + b == b;
    }
  }

  /**
   Transcoding is incremental: after a prefix the loop walks to its exact end,
   the rest of the input only continues the prefix's output.
   */
  lemma EncodeAppend(p: seq<CodeUnit>, q: seq<CodeUnit>)
    requires Aligned(p)
    ensures Encode(p + q) == EmitAll(Encode(p), CodePoints(q))
  {
    CodePointsAppend(p, q);
    EmitAllConcat([], CodePoints(p), CodePoints(q));
  }

  /** An ordinary code unit (no high surrogate, no macron) appends exactly its own display code. */
  lemma AppendCodeUnit(p: seq<CodeUnit>, u: CodeUnit)
    requires Aligned(p) && !IsHighSurrogate(u) && u != Macron
    ensures Encode(p + [u]) == Encode(p) + [MapCodePoint(u)]
  {
    EncodeAppend(p, [u]);
    assert CodePoints([u]) == [u];
  }

  /**
   COMBINING MACRON rewrites the previous output character: an `x` becomes
   x-bar, any other character becomes BLACK SQUARE, and on empty output a
   BLACK SQUARE is appended.
   */
  lemma AppendMacron(p: seq<CodeUnit>)
    requires Aligned(p)
    ensures var e := Encode(p);
      var r := Encode(p + [Macron as CodeUnit]);
      && (|e| == 0 ==> r == [BlackSquare])
      && (|e| > 0 && e[|e| - 1] == SmallX ==> r == e[..|e| - 1] + [XBar])
      && (|e| > 0 && e[|e| - 1] != SmallX ==> r == e[..|e| - 1] + [BlackSquare])
      && (|e| > 0 ==> |r| == |e|)
  {
    EncodeAppend(p, [Macron as CodeUnit]);
    assert CodePoints([Macron as CodeUnit]) == [Macron];
  }

  /**
   A high surrogate and the unit after it, whatever that unit is, yield
   exactly one BLACK SQUARE; so does a high surrogate at the very end.
   */
  lemma AppendHighSurrogate(p: seq<CodeUnit>, h: CodeUnit, u: CodeUnit)
    requires Aligned(p) && IsHighSurrogate(h)
    ensures Encode(p + [h, u]) == Encode(p) + [BlackSquare]
    ensures Encode(p + [h]) == Encode(p) + [BlackSquare]
  {
    EncodeAppend(p, [h, u]);
    assert CodePoints([h, u]) == [CodePointAt([h, u], 0)];
    EncodeAppend(p, [h]);
    assert CodePoints([h]) == [h];
  }

  /**
   At any position holding a high surrogate the loop emits one BLACK SQUARE
   and resumes two units further on, skipping the next unit unconditionally.
   */
  lemma HighSurrogateSkipsNext(s: seq<CodeUnit>, i: nat, out: seq<int>)
    requires i < |s| && IsHighSurrogate(s[i])
    ensures EmitAll(out, Walk(s, i)) == EmitAll(out + [BlackSquare], Walk(s, i + 2))
  {
  }

  /** Without macrons each code point contributes exactly its own display code, in order. */
  lemma {:induction false} EmitAllWithoutMacron(out: seq<int>, cps: seq<int>)
    requires forall k :: 0 <= k < |cps| ==> cps[k] != Macron
    ensures var r := EmitAll(out, cps);
      && |r| == |out| + |cps|
      && r[..|out|] == out
      && forall k :: 0 <= k < |cps| ==> r[|out| + k] == MapCodePoint(cps[k])
    decreases |cps|
  {
    if |cps| > 0 {
      var out' := out + [MapCodePoint(cps[0])];
      EmitAllWithoutMacron(out', cps[1..]);
      var r := EmitAll(out, cps);
      assert r == EmitAll(out', cps[1..]);
      assert r[..|out'|] == out';
      assert r[..|out|] == out'[..|out|];
      forall k | 0 <= k < |cps|
        ensures r[|out| + k] == MapCodePoint(cps[k])
      {
        if k == 0 {
          assert r[|out|] == r[..|out'|][|out|];
        } else {
          assert r[|out'| + (k - 1)] == MapCodePoint(cps[1..][k - 1]);
        }
      }
    }
  }

  /**
   A string without high surrogates and without macrons is transcoded one
   code unit to one display code, position by position.
   */
  lemma CodeUnitWise(s: seq<CodeUnit>)
    requires NoHighSurrogates(s)
    requires forall k :: 0 <= k < |s| ==> s[k] != Macron
    ensures |Encode(s)| == |s|
    ensures forall k :: 0 <= k < |s| ==> Encode(s)[k] == MapCodePoint(s[k])
  {
    NoHighSurrogatesCodePoints(s);
    EmitAllWithoutMacron([], s);
  }

  /**
   Printable ASCII maps to itself, except that the backslash becomes the
   ideographic comma and the tilde becomes the hyphen-minus.
   */
  lemma PrintableAscii(s: seq<CodeUnit>)
    requires forall k :: 0 <= k < |s| ==> InAsciiBand(s[k])
    ensures |Encode(s)| == |s|
    ensures forall k :: 0 <= k < |s| ==>
      Encode(s)[k] == (if s[k] == Backslash then IdeographicComma
                       else if s[k] == Tilde then HyphenMinus
                       else s[k])
  {
    CodeUnitWise(s);
  }

  /** A printable ASCII string with neither backslash nor tilde is shown unchanged. */
  lemma PlainAsciiUnchanged(s: seq<CodeUnit>)
    requires forall k :: 0 <= k < |s| ==> InAsciiBand(s[k]) && s[k] != Backslash && s[k] != Tilde
    ensures Encode(s) == s
  {
    PrintableAscii(s);
  }

  /** Half-width katakana lands, unit by unit, in the display's katakana block 0xA1..0xDF. */
  lemma HalfWidthKatakana(s: seq<CodeUnit>)
    requires forall k :: 0 <= k < |s| ==> InKatakanaBand(s[k])
    ensures |Encode(s)| == |s|
    ensures forall k :: 0 <= k < |s| ==>
      Encode(s)[k] == s[k] - KatakanaOffset && 0xA1 <= Encode(s)[k] <= 0xDF
  {
    CodeUnitWise(s);
  }

  /** Number of macrons among the code points. */
  function MacronCount(cps: seq<int>): nat
  {
    multiset(cps)[Macron]
  }

  /** On non-empty output every code point adds one character, except a macron, which adds none. */
  lemma {:induction false} EmitAllLength(out: seq<int>, cps: seq<int>)
    requires |out| > 0
    ensures |EmitAll(out, cps)| == |out| + |cps| - MacronCount(cps)
    decreases |cps|
  {
    if |cps| > 0 {
      assert cps == [cps[0]] + cps[1..];
      assert multiset(cps) == multiset([cps[0]]) + multiset(cps[1..]);
      EmitAllLength(Emit(out, cps[0]), cps[1..]);
    }
  }

  /**
   Exact output length: one character per visited code point, minus one per
   macron, plus one when the very first code point is a macron (it meets an
   empty output and appends BLACK SQUARE).
   */
  lemma EncodeLength(s: seq<CodeUnit>)
    ensures var cps := CodePoints(s);
      |Encode(s)| == |cps| - MacronCount(cps) + (if |cps| > 0 && cps[0] == Macron then 1 else 0)
  {
    var cps := CodePoints(s);
    if |cps| > 0 {
      assert cps == [cps[0]] + cps[1..];
      assert multiset(cps) == multiset([cps[0]]) + multiset(cps[1..]);
      EmitAllLength(Emit([], cps[0]), cps[1..]);
    }
  }
}
