/**
 The part of Java's `String` and `Character` that the LCD transcoder relies on:
 UTF-16 code units, surrogate classification, `codePointAt`, and the walk the
 transcoder's loop makes over a string (one code point per step, two code
 units whenever the current unit is a high surrogate).
 */
module Utf16 {

  /** A Java `char`: one unsigned 16-bit UTF-16 code unit. */
  type CodeUnit = x: int | 0 <= x < 0x1_0000

  const MinSupplementary := 0x1_0000
  const MaxCodePoint := 0x10_FFFF

  predicate IsHighSurrogate(u: int) {
    0xD800 <= u <= 0xDBFF
  }

  predicate IsLowSurrogate(u: int) {
    0xDC00 <= u <= 0xDFFF
  }

  /** `Character.toCodePoint`: the supplementary code point a surrogate pair encodes. */
  function ToCodePoint(high: int, low: int): (cp: int)
    requires IsHighSurrogate(high) && IsLowSurrogate(low)
    ensures MinSupplementary <= cp <= MaxCodePoint
    ensures (cp - MinSupplementary) / 0x400 == high - 0xD800
    ensures (cp - MinSupplementary) % 0x400 == low - 0xDC00
  {
    (high - 0xD800) * 0x400 + (low - 0xDC00) + MinSupplementary
  }

  /** True when the units at `i` and `i + 1` form a well-formed surrogate pair. */
  predicate PairAt(s: seq<CodeUnit>, i: nat)
  {
    i + 1 < |s| && IsHighSurrogate(s[i]) && IsLowSurrogate(s[i + 1])
  }

  /**
   `String.codePointAt(i)`: the supplementary code point when a high surrogate
   is followed by a low one, otherwise the unit at `i` itself (which may be an
   unpaired surrogate).
   */
  function CodePointAt(s: seq<CodeUnit>, i: nat): (cp: int)
    requires i < |s|
    ensures 0 <= cp <= MaxCodePoint
    ensures cp >= MinSupplementary <==> PairAt(s, i)
    ensures cp < MinSupplementary ==> cp == s[i]
  {
    if PairAt(s, i) then ToCodePoint(s[i], s[i + 1]) else s[i]
  }

  /**
   The number of code units one step of the transcoder's loop consumes at `i`:
   a high surrogate always skips the unit after it, whatever that unit is.
   */
  function Width(s: seq<CodeUnit>, i: nat): nat
    requires i < |s|
  {
    if IsHighSurrogate(s[i]) then 2 else 1
  }

  /** The code points the loop visits, in order, when it starts at index `i`. */
  function Walk(s: seq<CodeUnit>, i: nat): (cps: seq<int>)
    ensures i <= |s| ==> |cps| <= |s| - i
    ensures i < |s| ==> |cps| > 0
    ensures forall k :: 0 <= k < |cps| ==> 0 <= cps[k] <= MaxCodePoint
    decreases |s| - i
  {
    if i >= |s| then [] else [CodePointAt(s, i)] + Walk(s, i + Width(s, i))
  }

  /** The code points the transcoder visits in the whole string. */
  function CodePoints(s: seq<CodeUnit>): seq<int>
  {
    Walk(s, 0)
  }

  /**
   The index at which the loop's counter leaves the string when it starts at `i`:
   `|s|`, or `|s| + 1`, which happens only when the last unit is a high
   surrogate (and then only when the walk visits it).
   */
  function Stop(s: seq<CodeUnit>, i: nat): (j: nat)
    ensures i <= |s| ==> j == |s| || j == |s| + 1
    ensures i > |s| ==> j == i
    ensures i < |s| && j == |s| + 1 ==> IsHighSurrogate(s[|s| - 1])
    decreases |s| - i
  {
    if i >= |s| then i else Stop(s, i + Width(s, i))
  }

  /**
   A string the loop walks to its exact end: it does not finish with a lone
   high surrogate that would swallow the first unit of whatever follows it.
   */
  predicate Aligned(s: seq<CodeUnit>)
  {
    Stop(s, 0) == |s|
  }

  predicate NoHighSurrogates(s: seq<CodeUnit>)
  {
    forall k :: 0 <= k < |s| ==> !IsHighSurrogate(s[k])
  }

  /** Walking from any index of a string lying after a prefix is walking the string alone. */
  lemma {:induction false} WalkShift(p: seq<CodeUnit>, q: seq<CodeUnit>, j: nat)
    ensures Walk(p + q, |p| + j) == Walk(q, j)
    ensures Stop(p + q, |p| + j) == |p| + Stop(q, j)
    decreases |q| - j
  {
    if j < |q| {
      assert (p + q)[|p| + j] == q[j];
      assert CodePointAt(p + q, |p| + j) == CodePointAt(q, j) by {
        if j + 1 < |q| {
          assert (p + q)[|p| + j + 1] == q[j + 1];
        }
      }
      assert Width(p + q, |p| + j) == Width(q, j);
      WalkShift(p, q, j + Width(q, j));
    }
  }

  /** A step of the walk inside `p` that stays inside `p` reads the same code point in `p + q`. */
  lemma StepInPrefix(p: seq<CodeUnit>, q: seq<CodeUnit>, i: nat)
    requires i < |p| && i + Width(p, i) <= |p|
    ensures CodePointAt(p + q, i) == CodePointAt(p, i)
    ensures Width(p + q, i) == Width(p, i)
  {
  }

  /** A walk that ends exactly at the end of `p` continues seamlessly into `q`. */
  lemma {:induction false} WalkAppend(p: seq<CodeUnit>, q: seq<CodeUnit>, i: nat)
    requires i <= |p| && Stop(p, i) == |p|
    ensures Walk(p + q, i) == Walk(p, i) + Walk(q, 0)
    ensures Stop(p + q, i) == |p| + Stop(q, 0)
    decreases |p| - i
  {
    if i == |p| {
      WalkShift(p, q, 0);
    } else {
      var w := Width(p, i);
      assert Stop(p, i) == Stop(p, i + w);
      assert i + w <= |p|;
      StepInPrefix(p, q, i);
      WalkAppend(p, q, i + w);
      var c := CodePointAt(p, i);
      assert Stop(p + q, i) == Stop(p + q, i + w);
      calc {
        Walk(p + q, i);
        [c] + Walk(p + q, i + w);
        [c] + (Walk(p, i + w) + Walk(q, 0));
        ([c] + Walk(p, i + w)) + Walk(q, 0);
        Walk(p, i) + Walk(q, 0);
      }
    }
  }

  /** Concatenation after an aligned prefix splits the code points at the seam. */
  lemma CodePointsAppend(p: seq<CodeUnit>, q: seq<CodeUnit>)
    requires Aligned(p)
    ensures CodePoints(p + q) == CodePoints(p) + CodePoints(q)
    ensures Aligned(q) ==> Aligned(p + q)
  {
    WalkAppend(p, q, 0);
  }

  /** Without high surrogates every unit is its own code point. */
  lemma {:induction false} WalkNoHighSurrogates(s: seq<CodeUnit>, i: nat)
    requires NoHighSurrogates(s) && i <= |s|
    ensures Walk(s, i) == s[i..]
    ensures Stop(s, i) == |s|
    decreases |s| - i
  {
    if i < |s| {
      WalkNoHighSurrogates(s, i + 1);
      assert s[i..] == [s[i]] + s[i + 1..];
    }
  }

  lemma NoHighSurrogatesCodePoints(s: seq<CodeUnit>)
    requires NoHighSurrogates(s)
    ensures CodePoints(s) == s
    ensures Aligned(s)
  {
    WalkNoHighSurrogates(s, 0);
    assert s[0..] == s;
  }
}
