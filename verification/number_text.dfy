/**
 * Reading a number out of a completion text, as `generateRandomNumber` in
 * `src/lib/openrouter.ts` does: trim the text, take the first maximal run of
 * ASCII digits (`/\d+/`), read it in base 10, and fall back to a random value
 * in 1..100 when there is no run or its value is out of range.
 */
module NumberText {
  import opened Wrappers
  import opened Decimal
  import Histogram

  /**
   * The characters `String.prototype.trim` removes: the ECMAScript WhiteSpace
   * and LineTerminator code points.
   */
  predicate IsSpace(c: char) {
    || c == '\t' || c == '\n' || c == '\U{000B}' || c == '\U{000C}' || c == '\r' || c == ' '
    || c == '\U{00A0}' || c == '\U{1680}' || ('\U{2000}' <= c <= '\U{200A}')
    || c == '\U{2028}' || c == '\U{2029}' || c == '\U{202F}' || c == '\U{205F}'
    || c == '\U{3000}' || c == '\U{FEFF}'
  }

  predicate AllSpaceIn(s: string, lo: int, hi: int)
    requires 0 <= lo <= hi <= |s|
  {
    forall k :: lo <= k < hi ==> IsSpace(s[k])
  }

  predicate AllSpace(s: string) {
    AllSpaceIn(s, 0, |s|)
  }

  predicate NoDigitIn(s: string, lo: int, hi: int)
    requires 0 <= lo <= hi <= |s|
  {
    forall k :: lo <= k < hi ==> !IsDigit(s[k])
  }

  predicate NoDigit(s: string) {
    NoDigitIn(s, 0, |s|)
  }

  // ---------------------------------------------------------------------
  // Trimming

  /** Index of the first character of `s` at or after `lo` that is not white space, or |s|. */
  function SkipSpaces(s: string, lo: nat): (i: nat)
    requires lo <= |s|
    ensures lo <= i <= |s|
    ensures AllSpaceIn(s, lo, i)
    ensures i < |s| ==> !IsSpace(s[i])
    decreases |s| - lo
  {
    if lo < |s| && IsSpace(s[lo]) then SkipSpaces(s, lo + 1) else lo
  }

  /** Index just past the last character of `s[lo..hi]` that is not white space, or `lo`. */
  function DropTrailingSpaces(s: string, lo: nat, hi: nat): (j: nat)
    requires lo <= hi <= |s|
    ensures lo <= j <= hi
    ensures AllSpaceIn(s, j, hi)
    ensures j > lo ==> !IsSpace(s[j - 1])
    decreases hi - lo
  {
    if lo < hi && IsSpace(s[hi - 1]) then DropTrailingSpaces(s, lo, hi - 1) else hi
  }

  /** Where the trimmed text starts and ends in `s`. */
  function TrimBounds(s: string): (b: (nat, nat))
    ensures b.0 <= b.1 <= |s|
    ensures AllSpaceIn(s, 0, b.0) && AllSpaceIn(s, b.1, |s|)
    ensures b.0 < b.1 ==> !IsSpace(s[b.0]) && !IsSpace(s[b.1 - 1])
    ensures b.0 == b.1 <==> AllSpace(s)
  {
    var i := SkipSpaces(s, 0);
    (i, DropTrailingSpaces(s, i, |s|))
  }

  /**
   * `s` without leading and trailing white space: the middle part of `s`
   * that begins and ends with a character that is not white space.
   */
  function Trim(s: string): (t: string)
    ensures t == s[TrimBounds(s).0..TrimBounds(s).1]
    ensures |t| > 0 ==> !IsSpace(t[0]) && !IsSpace(t[|t| - 1])
    ensures t == "" <==> AllSpace(s)
  {
    var (i, j) := TrimBounds(s);
    s[i..j]
  }

  // ---------------------------------------------------------------------
  // The first maximal digit run

  /** Index of the first digit of `s` at or after `lo`, or |s| when there is none. */
  function FirstDigit(s: string, lo: nat): (i: nat)
    requires lo <= |s|
    ensures lo <= i <= |s|
    ensures NoDigitIn(s, lo, i)
    ensures i < |s| ==> IsDigit(s[i])
    decreases |s| - lo
  {
    if lo == |s| || IsDigit(s[lo]) then lo else FirstDigit(s, lo + 1)
  }

  /** `s[i..j]` is the first maximal, non-empty run of digits in `s`. */
  predicate IsFirstRun(s: string, i: int, j: int) {
    && 0 <= i < j <= |s|
    && NoDigitIn(s, 0, i)
    && AllDigitsIn(s, i, j)
    && (j == |s| || !IsDigit(s[j]))
  }

  /** Bounds of the first maximal digit run of `s`, if any. */
  function FirstRun(s: string): (r: Option<(nat, nat)>)
    ensures r.None? <==> NoDigit(s)
    ensures r.Some? ==> IsFirstRun(s, r.value.0, r.value.1)
  {
    var i := FirstDigit(s, 0);
    if i == |s| then None else Some((i, RunEnd(s, i)))
  }

  /** What `s.match(/\d+/)` finds: the first maximal run of digits, if any. */
  function MatchDigits(s: string): (m: Option<string>)
    ensures m.None? <==> NoDigit(s)
    ensures m.Some? ==> |m.value| > 0 && AllDigits(m.value)
  {
    match FirstRun(s)
    case None => None
    case Some((i, j)) => Some(s[i..j])
  }

  /** There is at most one first maximal run. */
  lemma FirstRunUnique(s: string, i: int, j: int, i': int, j': int)
    requires IsFirstRun(s, i, j) && IsFirstRun(s, i', j')
    ensures i == i' && j == j'
  {
    assert IsDigit(s[i]) && IsDigit(s[i']);
    if j < |s| { assert !IsDigit(s[j]); }
    if j' < |s| { assert !IsDigit(s[j']); }
  }

  /** `MatchDigits` returns the first maximal digit run whenever `s` has one. */
  lemma MatchDigitsFindsFirstRun(s: string, i: int, j: int)
    requires IsFirstRun(s, i, j)
    ensures FirstRun(s) == Some((i, j))
    ensures MatchDigits(s) == Some(s[i..j])
  {
    assert IsDigit(s[i]);
    var r := FirstRun(s);
    FirstRunUnique(s, i, j, r.value.0, r.value.1);
  }

  /** A run that starts after a digit-free prefix of `s` is found at the same place in `s[i..j]`. */
  lemma FirstRunInfix(s: string, i: int, j: int, a: int, b: int)
    requires 0 <= i <= a && b <= j <= |s|
    requires IsFirstRun(s, a, b)
    ensures IsFirstRun(s[i..j], a - i, b - i)
  {
    var t := s[i..j];
    forall k | 0 <= k < a - i ensures !IsDigit(t[k]) {
      assert t[k] == s[i + k];
    }
    forall k | a - i <= k < b - i ensures IsDigit(t[k]) {
      assert t[k] == s[i + k];
    }
    if b - i < |t| {
      assert t[b - i] == s[b];
    }
  }

  /** A first run keeps its place, shifted, behind a prefix without digits. */
  lemma FirstRunAfterPrefix(p: string, s: string, a: int, b: int)
    requires NoDigit(p) && IsFirstRun(s, a, b)
    ensures IsFirstRun(p + s, |p| + a, |p| + b)
    ensures (p + s)[|p| + a..|p| + b] == s[a..b]
  {
    var t := p + s;
    assert forall k :: 0 <= k < |p| ==> t[k] == p[k];
    assert forall k :: 0 <= k < |s| ==> t[|p| + k] == s[k];
  }

  /** A sign in front of the digits is not part of the match. */
  lemma MinusNotMatched(s: string)
    ensures MatchDigits("-" + s) == MatchDigits(s)
  {
    match FirstRun(s)
    case Some((a, b)) =>
      FirstRunAfterPrefix("-", s, a, b);
      MatchDigitsFindsFirstRun("-" + s, a + 1, b + 1);
    case None =>
      var t := "-" + s;
      assert forall k :: 0 <= k < |s| ==> t[k + 1] == s[k];
      assert NoDigit(t);
  }

  lemma SliceOfSlice(s: string, i: int, j: int, a: int, b: int)
    requires 0 <= i <= a <= b <= j <= |s|
    ensures s[i..j][a - i..b - i] == s[a..b]
  {
    var u, v := s[i..j][a - i..b - i], s[a..b];
    assert |u| == |v|;
    forall k | 0 <= k < |u| ensures u[k] == v[k] {
      assert u[k] == s[i..j][a - i + k] == s[a + k];
    }
  }

  /** Digits are never white space, so a digit run lies inside the trimmed part. */
  lemma RunInsideTrim(s: string, a: int, b: int)
    requires IsFirstRun(s, a, b)
    ensures TrimBounds(s).0 <= a && b <= TrimBounds(s).1
  {
    assert IsDigit(s[a]) && IsDigit(s[b - 1]);
  }

  /** The first run of `s` is also the first run of the trimmed text. */
  lemma TrimKeepsRun(s: string, a: int, b: int)
    requires IsFirstRun(s, a, b)
    ensures MatchDigits(Trim(s)) == Some(s[a..b])
  {
    var i, j := TrimBounds(s).0, TrimBounds(s).1;
    RunInsideTrim(s, a, b);
    FirstRunInfix(s, i, j, a, b);
    MatchDigitsFindsFirstRun(s[i..j], a - i, b - i);
    SliceOfSlice(s, i, j, a, b);
  }

  /** Trimming never changes which digits are found. */
  lemma MatchIgnoresTrim(s: string)
    ensures MatchDigits(Trim(s)) == MatchDigits(s)
  {
    match FirstRun(s)
    case Some((a, b)) =>
      TrimKeepsRun(s, a, b);
    case None =>
      var t, i := Trim(s), TrimBounds(s).0;
      assert forall k :: 0 <= k < |t| ==> t[k] == s[i + k];
      assert NoDigit(t);
  }

  // ---------------------------------------------------------------------
  // The number an answer stands for

  /**
   * A random draw: `Math.floor(Math.random() * 100)`, an integer in 0..99.
   * The fallback value is one more than the draw.
   */
  type Sample = x: int | 0 <= x < 100

  /**
   * The value returned for a non-empty trimmed answer `t`: the first digit
   * run read in base 10 when it lies in 1..100, otherwise the fallback
   * `sample + 1`.
   */
  function ValueOf(t: string, sample: Sample): (v: int)
    ensures Histogram.InRange(v)
    ensures MatchDigits(t).None? ==> v == sample + 1
    ensures MatchDigits(t).Some? && Histogram.InRange(DigitsValue(MatchDigits(t).value))
      ==> v == DigitsValue(MatchDigits(t).value)
    ensures MatchDigits(t).Some? && !Histogram.InRange(DigitsValue(MatchDigits(t).value))
      ==> v == sample + 1
  {
    match MatchDigits(t)
    case None => sample + 1
    case Some(d) =>
      var n := DigitsValue(d);
      if n < 1 || n > 100 then sample + 1 else n
  }

  /** The value read from an answer does not depend on the white space around it. */
  lemma ValueOfIgnoresTrim(c: string, sample: Sample)
    ensures ValueOf(Trim(c), sample) == ValueOf(c, sample)
  {
    MatchIgnoresTrim(c);
  }

  /**
   * An answer that states an in-range number, with no digit before it and a
   * non-digit (or the end) after it, yields exactly that number.
   */
  lemma ValueOfStatedNumber(before: string, n: nat, after: string, sample: Sample)
    requires Histogram.InRange(n)
    requires NoDigit(before)
    requires |after| > 0 ==> !IsDigit(after[0])
    ensures ValueOf(before + NatStr(n) + after, sample) == n
  {
    var d := NatStr(n);
    var s := before + d + after;
    var i, j := |before|, |before| + |d|;
    assert s[i..j] == d;
    assert forall k :: 0 <= k < i ==> s[k] == before[k];
    assert forall k :: i <= k < j ==> s[k] == d[k - i];
    if j < |s| { assert s[j] == after[0]; }
    assert IsFirstRun(s, i, j);
    MatchDigitsFindsFirstRun(s, i, j);
    NatStrValue(n);
  }

  /** Leading zeros are dropped: "007" reads as 7. */
  lemma ValueOfLeadingZeros(sample: Sample)
    ensures ValueOf("007", sample) == 7
  {
    var s := "007";
    assert IsFirstRun(s, 0, 3);
    MatchDigitsFindsFirstRun(s, 0, 3);
    assert s[0..3] == s && s[..2] == "00" && "00"[..1] == "0";
    assert DigitsValue("0") == 0;
    assert DigitsValue("00") == 0;
  }

  /** A negative answer reads as its magnitude: "-5" is 5. */
  lemma ValueOfNegative(sample: Sample)
    ensures ValueOf("-5", sample) == 5
  {
    MinusNotMatched("5");
    assert IsFirstRun("5", 0, 1);
    MatchDigitsFindsFirstRun("5", 0, 1);
  }

  /** "0" and "150" are out of range and give the fallback. */
  lemma ValueOfOutOfRange(sample: Sample)
    ensures ValueOf("0", sample) == sample + 1
    ensures ValueOf("150", sample) == sample + 1
  {
    assert IsFirstRun("0", 0, 1);
    MatchDigitsFindsFirstRun("0", 0, 1);
    var s := "150";
    assert IsFirstRun(s, 0, 3);
    MatchDigitsFindsFirstRun(s, 0, 3);
    assert s[0..3] == s && s[..2] == "15" && "15"[..1] == "1";
  }

  /** A refusal without digits gives the fallback, not an error. */
  lemma ValueOfNoDigits(sample: Sample)
    ensures ValueOf("I cannot comply", sample) == sample + 1
  {
    assert NoDigit("I cannot comply");
  }
}
