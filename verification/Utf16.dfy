/** Surrogate-safe slicing of `src/utils.ts`, against the decoding of section 2.2 of RFC 2781. */
module Utf16 {
  import opened Results

  type Unit = u: int | 0 <= u < 0x1_0000

  predicate IsHighSurrogate(unit: Unit) {
    0xD800 <= unit <= 0xDBFF
  }

  predicate IsLowSurrogate(unit: Unit) {
    0xDC00 <= unit <= 0xDFFF
  }

  // ----- code points -----

  type Code = c: int | 0 <= c < 0x11_0000

  /** The text starts with a surrogate pair. */
  predicate PairFirst(text: seq<Unit>) {
    |text| > 1 && IsHighSurrogate(text[0]) && IsLowSurrogate(text[1])
  }

  /** The code points of a text; a surrogate without its partner stands for itself. */
  function Decode(text: seq<Unit>): seq<Code> {
    if text == [] then []
    else if PairFirst(text) then
      [(text[0] - 0xD800) * 0x400 + (text[1] - 0xDC00) + 0x1_0000] + Decode(text[2..])
    else [text[0]] + Decode(text[1..])
  }

  function EncodeOne(code: Code): (units: seq<Unit>)
    ensures |units| == if code < 0x1_0000 then 1 else 2
  {
    if code < 0x1_0000 then [code]
    else [0xD800 + (code - 0x1_0000) / 0x400, 0xDC00 + (code - 0x1_0000) % 0x400]
  }

  function Encode(codes: seq<Code>): seq<Unit> {
    if codes == [] then [] else EncodeOne(codes[0]) + Encode(codes[1..])
  }

  /** Every surrogate is half of a pair. */
  predicate WellFormed(text: seq<Unit>) {
    forall c | c in Decode(text) :: !(0xD800 <= c <= 0xDFFF)
  }

  /** Decoding loses nothing, whatever the text. */
  lemma {:induction false} EncodeDecoded(text: seq<Unit>)
    ensures Encode(Decode(text)) == text
  {
    if PairFirst(text) {
      EncodeDecoded(text[2..]);
      PairRoundTrip(text[0], text[1]);
      assert text == [text[0], text[1]] + text[2..];
      assert Decode(text)[1..] == Decode(text[2..]);
    } else if text != [] {
      EncodeDecoded(text[1..]);
      assert text == [text[0]] + text[1..];
      assert Decode(text)[1..] == Decode(text[1..]);
    }
  }

  lemma PairRoundTrip(high: Unit, low: Unit)
    requires IsHighSurrogate(high) && IsLowSurrogate(low)
    ensures EncodeOne((high - 0xD800) * 0x400 + (low - 0xDC00) + 0x1_0000) == [high, low]
  {
    var offset := (high - 0xD800) * 0x400 + (low - 0xDC00);
    assert offset / 0x400 == high - 0xD800 && offset % 0x400 == low - 0xDC00;
  }

  lemma {:induction false} EncodeConcat(a: seq<Code>, b: seq<Code>)
    ensures Encode(a + b) == Encode(a) + Encode(b)
  {
    if a == [] {
      assert a + b == b;
    } else {
      assert (a + b)[1..] == a[1..] + b;
      EncodeConcat(a[1..], b);
    }
  }

  // ----- cuts -----

  /** A cut at `i` falls inside a surrogate pair. */
  predicate SplitsPair(text: seq<Unit>, i: int) {
    0 < i < |text| && IsHighSurrogate(text[i-1]) && IsLowSurrogate(text[i])
  }

  /** The first code point of a text, and how many units it takes. */
  function FirstCode(text: seq<Unit>): (Code, nat)
    requires text != []
  {
    if PairFirst(text) then
      var high: int, low: int := text[0], text[1];
      ((high - 0xD800) * 0x400 + (low - 0xDC00) + 0x1_0000, 2)
    else (text[0], 1)
  }

  lemma DecodeFirst(text: seq<Unit>)
    requires text != []
    ensures FirstCode(text).1 <= |text|
    ensures Decode(text) == [FirstCode(text).0] + Decode(text[FirstCode(text).1..])
  {
  }

  /** Decoding commutes with every cut that splits no pair. */
  lemma {:induction false} DecodeCut(text: seq<Unit>, i: nat)
    requires i <= |text| && !SplitsPair(text, i)
    ensures Decode(text) == Decode(text[..i]) + Decode(text[i..])
  {
    if i == 0 {
      assert text[..0] == [] && text[0..] == text;
      assert [] + Decode(text) == Decode(text);
    } else {
      var (code, n) := FirstCode(text);
      CutFurther(text, i);
      DecodeCut(text[n..], i - n);
      DecodeFirst(text);
      DecodeFirst(text[..i]);
      hide *;
      Associate([code], Decode(text[..i][n..]), Decode(text[i..]));
    }
  }

  lemma Associate<T>(a: seq<T>, b: seq<T>, c: seq<T>)
    ensures a + (b + c) == a + b + c
  {
  }

  /** A cut seen from behind the first code point. */
  lemma CutFurther(text: seq<Unit>, i: nat)
    requires 0 < i <= |text| && !SplitsPair(text, i)
    ensures FirstCode(text[..i]) == FirstCode(text) && 0 < FirstCode(text).1 <= i
    ensures var n := FirstCode(text).1;
      && text[n..][..i-n] == text[..i][n..] && text[n..][i-n..] == text[i..]
      && !SplitsPair(text[n..], i - n)
  {
  }

  // ----- slicing -----

  /** Where a bound points to: negative bounds count from the end, and all are clamped. */
  function Clamp(bound: int, length: nat): (r: nat)
    ensures r <= length
  {
    if bound < 0 then (if length + bound < 0 then 0 else length + bound)
    else if bound < length then bound else length
  }

  function LowerBound(text: seq<Unit>, start: int, end: Option<int>): (r: nat)
    ensures r <= |text|
  {
    var from, to := Clamp(start, |text|), if end.None? then |text| else Clamp(end.value, |text|);
    if to < from then to else from
  }

  function UpperBound(text: seq<Unit>, start: int, end: Option<int>): (r: nat)
    ensures LowerBound(text, start, end) <= r <= |text|
  {
    var from, to := Clamp(start, |text|), if end.None? then |text| else Clamp(end.value, |text|);
    if to < from then from else to
  }

  /** `[f, t)` is the longest stretch of `[low, high)` that splits no pair at either end. */
  ghost predicate LargestWhole(text: seq<Unit>, low: nat, high: nat, f: nat, t: nat) {
    && low <= f <= t <= high <= |text|
    && !SplitsPair(text, f) && !SplitsPair(text, t)
    && (forall i | low <= i <= high && !SplitsPair(text, i) :: f <= i <= t)
  }

  lemma MovedIsLargest(text: seq<Unit>, low: nat, high: nat)
    requires low < high <= |text|
    ensures LargestWhole(text, low, high, if SplitsPair(text, low) then low + 1 else low,
                         if SplitsPair(text, high) then high - 1 else high)
  {
  }

  /** The result for bounds already in order: nothing between equal bounds, else the longest whole stretch. */
  ghost predicate Sliced(text: seq<Unit>, low: nat, high: nat, r: seq<Unit>) {
    if low == high then r == []
    else exists f: nat, t: nat :: LargestWhole(text, low, high, f, t) && r == text[f..t]
  }

  method SliceUtf16Safe(input: seq<Unit>, start: int, end: Option<int>) returns (r: seq<Unit>)
    ensures Sliced(input, LowerBound(input, start, end), UpperBound(input, start, end), r)
  {
    var len := |input|;
    var from := if start < 0 then Max(len + start, 0) else Min(start, len);
    var to := if end.None? then len else if end.value < 0 then Max(len + end.value, 0) else Min(end.value, len);
    if to < from {
      from, to := to, from;
    }
    ghost var low, high := from, to;
    assert low == LowerBound(input, start, end) && high == UpperBound(input, start, end);
    if 0 < from < len {
      if IsLowSurrogate(input[from]) && IsHighSurrogate(input[from-1]) {
        from := from + 1;
      }
    }
    if 0 < to < len {
      if IsHighSurrogate(input[to-1]) && IsLowSurrogate(input[to]) {
        to := to - 1;
      }
    }
    assert from == if SplitsPair(input, low) then low + 1 else low;
    assert to == if SplitsPair(input, high) then high - 1 else high;
    hide SplitsPair, LargestWhole, LowerBound, UpperBound;
    if low < high {
      MovedIsLargest(input, low, high);
    }
    r := if from <= to then input[from..to] else [];
  }

  function Min(a: int, b: int): int { if a < b then a else b }

  function Max(a: int, b: int): int { if a < b then b else a }

  /** A whole stretch decodes to a stretch of the code points of the text. */
  lemma WholeSlice(text: seq<Unit>, f: nat, t: nat)
    requires f <= t <= |text| && !SplitsPair(text, f) && !SplitsPair(text, t)
    ensures Decode(text) == Decode(text[..f]) + Decode(text[f..t]) + Decode(text[t..])
  {
    hide Decode;
    DecodeCut(text, f);
    var rest := text[f..];
    assert !SplitsPair(rest, t - f);
    assert rest[..t-f] == text[f..t] && rest[t-f..] == text[t..];
    DecodeCut(rest, t - f);
    var a, b, c := Decode(text[..f]), Decode(text[f..t]), Decode(text[t..]);
    assert a + (b + c) == a + b + c;
  }

  lemma WellFormedPart(text: seq<Unit>, part: seq<Unit>, before: seq<Code>, after: seq<Code>)
    requires WellFormed(text) && Decode(text) == before + Decode(part) + after
    ensures WellFormed(part)
  {
    hide Decode;
    forall x | x in Decode(part) ensures x in Decode(text) {
      var k :| 0 <= k < |Decode(part)| && Decode(part)[k] == x;
      assert Decode(text)[|before| + k] == x;
    }
  }

  lemma SliceDecodes(text: seq<Unit>, low: nat, high: nat, r: seq<Unit>)
    requires low <= high <= |text| && Sliced(text, low, high, r)
    ensures exists before: seq<Code>, after: seq<Code> :: Decode(text) == before + Decode(r) + after
    ensures WellFormed(text) ==> WellFormed(r)
  {
    var before, after := Decode(text), [];
    if low == high {
      assert before + Decode([]) + after == Decode(text);
    } else {
      var f: nat, t: nat :| LargestWhole(text, low, high, f, t) && r == text[f..t];
      WholeSlice(text, f, t);
      before, after := Decode(text[..f]), Decode(text[t..]);
    }
    hide Decode, WellFormed, Sliced;
    if WellFormed(text) { WellFormedPart(text, r, before, after); }
  }

  /** The safe slice is the plain one exactly when the bounds split no pair, or are equal. */
  lemma SliceIsPlainIff(text: seq<Unit>, low: nat, high: nat, r: seq<Unit>)
    requires low <= high <= |text| && Sliced(text, low, high, r)
    ensures r == text[low..high] <==> low == high || (!SplitsPair(text, low) && !SplitsPair(text, high))
  {
    if low < high {
      var f: nat, t: nat :| LargestWhole(text, low, high, f, t) && r == text[f..t];
      if |r| == high - low { assert f == low && t == high; }
    }
  }

  // ----- truncating -----

  method TruncateUtf16Safe(input: seq<Unit>, maxLen: real) returns (r: seq<Unit>)
    ensures r == Truncated(input, Max(0, maxLen.Floor))
  {
    var limit := Max(0, maxLen.Floor);
    if |input| <= limit { return input; }
    r := SliceUtf16Safe(input, 0, Some(limit));
    SliceFromStart(input, limit, r);
  }

  function Truncated(text: seq<Unit>, limit: nat): seq<Unit> {
    if |text| <= limit then text
    else if SplitsPair(text, limit) then text[..limit-1]
    else text[..limit]
  }

  lemma SliceFromStart(text: seq<Unit>, limit: nat, r: seq<Unit>)
    requires limit < |text| && Sliced(text, 0, limit, r)
    ensures r == Truncated(text, limit)
  {
    if limit > 0 {
      var f: nat, t: nat :| LargestWhole(text, 0, limit, f, t) && r == text[f..t];
      assert !SplitsPair(text, 0);
      if SplitsPair(text, limit) {
        assert !SplitsPair(text, limit - 1);
      }
    }
  }

  /** Truncating yields a prefix of the code points; it drops some only when full, or one unit short of full. */
  lemma TruncatedIsPrefix(text: seq<Unit>, limit: nat)
    ensures Decode(Truncated(text, limit)) <= Decode(text) && |Truncated(text, limit)| <= limit
    ensures Truncated(text, limit) != text ==> |Truncated(text, limit)| >= limit - 1
    ensures WellFormed(text) ==> WellFormed(Truncated(text, limit))
  {
    var r := Truncated(text, limit);
    if |text| > limit {
      DecodeCut(text, |r|);
      assert r == text[..|r|];
      hide Decode, WellFormed;
      var after := Decode(text[|r|..]);
      assert [] + Decode(r) + after == Decode(r) + after;
      if WellFormed(text) { WellFormedPart(text, r, [], after); }
    }
  }

  /** No longer prefix of the code points would fit. */
  lemma TruncatedIsLongest(text: seq<Unit>, limit: nat, n: nat)
    requires |Decode(Truncated(text, limit))| < n <= |Decode(text)|
    ensures |Encode(Decode(text)[..n])| > limit
  {
    var r := Truncated(text, limit);
    var tail := text[|r|..];
    DecodeCut(text, |r|);
    assert r == text[..|r|];
    FirstWidth(tail, n - |Decode(r)|);
    EncodeDecoded(r);
    assert SplitsPair(text, limit) ==> PairFirst(tail);
    hide Decode, Encode;
    var kept, rest := Decode(r), Decode(tail)[..n - |Decode(r)|];
    assert Decode(text)[..n] == kept + rest;
    EncodeConcat(kept, rest);
  }

  lemma FirstWidth(text: seq<Unit>, n: nat)
    requires 0 < n <= |Decode(text)|
    ensures |Encode(Decode(text)[..n])| >= if PairFirst(text) then 2 else 1
  {
    assert Decode(text)[..n][0] == Decode(text)[0];
  }

  // ----- bounds and pairs in numbers -----

  /** In range a bound is itself, a negative one counts from the end, and the rest are cut to the text. */
  lemma ClampExact(length: nat, n: nat)
    ensures n <= length ==> Clamp(n, length) == n && Clamp(n - length, length) == if n == length then 0 else n
    ensures n >= length ==> Clamp(n, length) == length && Clamp(0 - n, length) == 0
  {
  }

  /** The bounds of a slice, in either order; without an end it goes to the end of the text. */
  lemma BoundsExact(text: seq<Unit>, a: nat, b: nat)
    requires a <= b <= |text|
    ensures LowerBound(text, a, Some(b)) == a && UpperBound(text, a, Some(b)) == b
    ensures LowerBound(text, b, Some(a)) == a && UpperBound(text, b, Some(a)) == b
    ensures LowerBound(text, a, None) == a && UpperBound(text, a, None) == |text|
    ensures a < b ==> LowerBound(text, a - |text|, Some(b)) == a && UpperBound(text, a - |text|, Some(b)) == b
  {
  }

  /** A fractional limit is rounded down, a negative one is 0. */
  lemma LimitExact(maxLen: real)
    ensures var limit := Max(0, maxLen.Floor);
      if maxLen < 0.0 then limit == 0 else limit as real <= maxLen < limit as real + 1.0
  {
  }

  lemma DecodeTwo(a: Unit, b: Unit)
    ensures Decode([a, b]) == if IsHighSurrogate(a) && IsLowSurrogate(b)
                              then [(a - 0xD800) * 0x400 + (b - 0xDC00) + 0x1_0000] else [a, b]
  {
    assert [a, b][2..] == [] && [a, b][1..] == [b] && [b][1..] == [];
    assert Decode([b]) == [b];
  }

  /** The pairs are those of U+10000 to U+10FFFF in order: 0x400 for each first half. */
  lemma PairsInOrder(a: Unit, b: Unit)
    ensures |Decode([a, b])| == 1 <==> 0xD800 <= a < 0xDC00 <= b < 0xE000
    ensures Decode([0xD800, 0xDC00]) == [0x1_0000] && Decode([0xDBFF, 0xDFFF]) == [0x10_FFFF]
    ensures 0xD800 <= a < 0xDC00 <= b < 0xDFFF ==> Decode([a, b + 1])[0] == Decode([a, b])[0] + 1
    ensures 0xD800 <= a < 0xDBFF ==> Decode([a + 1, 0xDC00])[0] == Decode([a, 0xDFFF])[0] + 1
  {
    DecodeTwo(a, b);
    DecodeTwo(0xD800, 0xDC00);
    DecodeTwo(0xDBFF, 0xDFFF);
    if b < 0xFFFF { DecodeTwo(a, b + 1); }
    if a < 0xFFFF { DecodeTwo(a + 1, 0xDC00); }
    DecodeTwo(a, 0xDFFF);
    hide Decode;
  }
}
