/**
 * The character classes and string operations of JavaScript that the worker
 * relies on: the `\s` / `trim()` whitespace set, `\d`, ASCII letters,
 * `toLowerCase()` (on ASCII letters) and decimal digit strings.
 */
module Text {

  /** The characters JavaScript's `\s` matches and `String.prototype.trim` removes
      (WhiteSpace and LineTerminator of ECMAScript). */
  predicate IsJsSpace(c: char)
  {
    c == '\t' || c == '\n' || c == '\U{000B}' || c == '\U{000C}' || c == '\r' || c == ' '
    || c == '\U{00A0}' || c == '\U{1680}' || ('\U{2000}' <= c <= '\U{200A}')
    || c == '\U{2028}' || c == '\U{2029}' || c == '\U{202F}' || c == '\U{205F}'
    || c == '\U{3000}' || c == '\U{FEFF}'
  }

  /** JavaScript's `\d`: ASCII digits only. */
  predicate IsDigit(c: char)
  {
    '0' <= c <= '9'
  }

  predicate IsAsciiLetter(c: char)
  {
    'a' <= c <= 'z' || 'A' <= c <= 'Z'
  }

  predicate AllSpaces(s: string)
  {
    forall k :: 0 <= k < |s| ==> IsJsSpace(s[k])
  }

  /** Drops the leading whitespace: the result is the longest suffix that does not start with whitespace. */
  function TrimStart(s: string): (r: string)
    ensures |r| <= |s| && r == s[|s| - |r|..]
    ensures forall k :: 0 <= k < |s| - |r| ==> IsJsSpace(s[k])
    ensures r != [] ==> !IsJsSpace(r[0])
  {
    if s != [] && IsJsSpace(s[0]) then
      var r := TrimStart(s[1..]);
      assert s[1..][|s| - 1 - |r|..] == s[|s| - |r|..];
      assert forall k :: 1 <= k < |s| ==> s[k] == s[1..][k - 1];
      r
    else s
  }

  /** Drops the trailing whitespace: the result is the longest prefix that does not end with whitespace. */
  function TrimEnd(s: string): (r: string)
    ensures |r| <= |s| && r == s[..|r|]
    ensures forall k :: |r| <= k < |s| ==> IsJsSpace(s[k])
    ensures r != [] ==> !IsJsSpace(r[|r| - 1])
  {
    if s != [] && IsJsSpace(s[|s| - 1]) then
      var r := TrimEnd(s[..|s| - 1]);
      assert s[..|s| - 1][..|r|] == s[..|r|];
      r
    else s
  }

  /** `String.prototype.trim`. */
  function Trim(s: string): (r: string)
    ensures |r| <= |s|
    ensures forall k :: 0 <= k < |s| && !IsJsSpace(s[k]) ==> s[k] in r
  {
    TrimStepsHold(s);
    PartsKeepContent(s, TrimStart(s), TrimEnd(TrimStart(s)));
    TrimEnd(TrimStart(s))
  }

  /**
   * What the two trimming steps promise about `s`, the string `t` left after
   * dropping its leading whitespace and the string `r` left after dropping the
   * trailing whitespace of `t`.
   */
  predicate TrimSteps(s: string, t: string, r: string)
  {
    && |t| <= |s| && t == s[|s| - |t|..]
    && (forall k :: 0 <= k < |s| - |t| ==> IsJsSpace(s[k]))
    && (t != [] ==> !IsJsSpace(t[0]))
    && |r| <= |t| && r == t[..|r|]
    && (forall k :: |r| <= k < |t| ==> IsJsSpace(t[k]))
    && (r != [] ==> !IsJsSpace(r[|r| - 1]))
  }

  lemma TrimStepsHold(s: string)
    ensures TrimSteps(s, TrimStart(s), TrimEnd(TrimStart(s)))
  {
  }

  /** Trimming leaves nothing exactly when the string is all whitespace. */
  lemma TrimEmptyIff(s: string)
    ensures Trim(s) == [] <==> AllSpaces(s)
  {
    TrimStepsHold(s);
    PartsEmptyIff(s, TrimStart(s), Trim(s));
  }

  /** A trimmed string neither starts nor ends with whitespace. */
  lemma TrimEndsWithContent(s: string)
    ensures Trim(s) != [] ==> !IsJsSpace(Trim(s)[0]) && !IsJsSpace(Trim(s)[|Trim(s)| - 1])
  {
    TrimStepsHold(s);
    PartsEnds(s, TrimStart(s), Trim(s));
  }

  /** Trimming adds no character: every character of the result occurs in the input. */
  lemma TrimAddsNothing(s: string)
    ensures forall j :: 0 <= j < |Trim(s)| ==> Trim(s)[j] in s
  {
    TrimStepsHold(s);
    PartsAddNothing(s, TrimStart(s), Trim(s));
  }

  /**
   * `s` split around its trimmed string `r`: whitespace, then `r`, then
   * whitespace, where `r` is empty or starts and ends with non-whitespace.
   */
  predicate TrimmedSplit(s: string, i: nat, r: string)
  {
    && i + |r| <= |s| && r == s[i..i + |r|]
    && (forall k :: 0 <= k < i ==> IsJsSpace(s[k]))
    && (forall k :: i + |r| <= k < |s| ==> IsJsSpace(s[k]))
    && (r != [] ==> !IsJsSpace(r[0]) && !IsJsSpace(r[|r| - 1]))
  }

  /** The trimmed string is the infix of `s` left after its leading and its trailing whitespace. */
  lemma TrimIsInfix(s: string)
    ensures TrimmedSplit(s, |s| - |TrimStart(s)|, Trim(s))
  {
    TrimStepsHold(s);
    PartsInfix(s, TrimStart(s), Trim(s));
  }

  /** Only one infix splits `s` that way, so the contract of TrimIsInfix determines `trim()`. */
  lemma {:induction false} TrimmedSplitUnique(s: string, i: nat, r: string)
    requires TrimmedSplit(s, i, r)
    ensures r == Trim(s)
  {
    TrimIsInfix(s);
    var j, t := |s| - |TrimStart(s)|, Trim(s);
    SplitEmptyIff(s, i, r);
    SplitEmptyIff(s, j, t);
    if r != [] {
      NonEmptySplitsAgree(s, i, r, j, t);
    }
  }

  lemma NonEmptySplitsAgree(s: string, i: nat, r: string, j: nat, t: string)
    requires TrimmedSplit(s, i, r) && TrimmedSplit(s, j, t) && r != [] && t != []
    ensures r == t
  {
    assert r[0] == s[i] && t[0] == s[j];
    assert i == j;
    assert r[|r| - 1] == s[i + |r| - 1] && t[|t| - 1] == s[j + |t| - 1];
    assert |r| == |t|;
  }

  lemma SplitEmptyIff(s: string, i: nat, r: string)
    requires TrimmedSplit(s, i, r)
    ensures r == [] <==> AllSpaces(s)
  {
    if r != [] {
      assert r[0] == s[i];
    }
  }

  lemma PartsInfix(s: string, t: string, r: string)
    requires TrimSteps(s, t, r)
    ensures TrimmedSplit(s, |s| - |t|, r)
  {
    var d := |s| - |t|;
    assert forall k :: d <= k < |s| ==> s[k] == t[k - d];
    assert r == s[d..d + |r|];
    PartsEnds(s, t, r);
  }

  lemma PartsEmptyIff(s: string, t: string, r: string)
    requires TrimSteps(s, t, r)
    ensures r == [] <==> AllSpaces(s)
  {
    var d := |s| - |t|;
    assert forall k :: d <= k < |s| ==> s[k] == t[k - d];
  }

  lemma PartsEnds(s: string, t: string, r: string)
    requires TrimSteps(s, t, r)
    ensures r != [] ==> !IsJsSpace(r[0]) && !IsJsSpace(r[|r| - 1])
  {
    if r != [] {
      assert r[0] == t[0];
    }
  }

  lemma PartsAddNothing(s: string, t: string, r: string)
    requires TrimSteps(s, t, r)
    ensures forall j :: 0 <= j < |r| ==> r[j] in s
  {
    forall j | 0 <= j < |r| ensures r[j] in s {
      assert r[j] == t[j] == s[|s| - |t| + j];
    }
  }

  lemma PartsKeepContent(s: string, t: string, r: string)
    requires TrimSteps(s, t, r)
    ensures forall k :: 0 <= k < |s| && !IsJsSpace(s[k]) ==> s[k] in r
  {
    forall k | 0 <= k < |s| && !IsJsSpace(s[k]) ensures s[k] in r {
      var j := k - (|s| - |t|);
      assert t[j] == s[k];
      assert r[j] == s[k];
    }
  }

  /** `toLowerCase()` on one character, for the ASCII range. */
  function LowerChar(c: char): char
  {
    if 'A' <= c <= 'Z' then (c as int + 32) as char else c
  }

  /** `toLowerCase()` restricted to ASCII letters: every other character is kept. */
  function ToLowerAscii(s: string): (r: string)
    ensures |r| == |s|
    ensures forall k :: 0 <= k < |s| ==> r[k] == LowerChar(s[k])
  {
    if s == [] then [] else [LowerChar(s[0])] + ToLowerAscii(s[1..])
  }

  lemma {:induction false} LowerIsIdempotent(s: string)
    ensures ToLowerAscii(ToLowerAscii(s)) == ToLowerAscii(s)
    ensures forall k :: 0 <= k < |s| ==> !('A' <= ToLowerAscii(s)[k] <= 'Z')
  {
    var l := ToLowerAscii(s);
    var ll := ToLowerAscii(l);
    assert forall k :: 0 <= k < |s| ==> ll[k] == l[k];
  }

  predicate AllDigits(s: string)
  {
    forall k :: 0 <= k < |s| ==> IsDigit(s[k])
  }

  function DigitValue(c: char): (d: nat)
    requires IsDigit(c)
    ensures d < 10
  {
    c as int - '0' as int
  }

  function DigitChar(d: nat): (c: char)
    requires d < 10
    ensures IsDigit(c) && DigitValue(c) == d
  {
    ('0' as int + d) as char
  }

  function Pow10(n: nat): (p: nat)
    ensures p >= 1
  {
    if n == 0 then 1 else 10 * Pow10(n - 1)
  }

  /** The value of a decimal digit string, most significant digit first; `""` is 0. */
  function DigitsValue(s: string): nat
    requires AllDigits(s)
  {
    if s == [] then 0 else DigitsValue(s[..|s| - 1]) * 10 + DigitValue(s[|s| - 1])
  }

  lemma {:induction false} DigitsValueBound(s: string)
    requires AllDigits(s)
    ensures DigitsValue(s) < Pow10(|s|)
  {
    if s != [] {
      DigitsValueBound(s[..|s| - 1]);
    }
  }

  /** The shortest decimal writing of `n`, the inverse of DigitsValue. */
  function NatToDigits(n: nat): (r: string)
    ensures r != [] && AllDigits(r)
    ensures DigitsValue(r) == n
    ensures |r| > 1 ==> r[0] != '0'
  {
    if n < 10 then [DigitChar(n)]
    else
      var front := NatToDigits(n / 10);
      var r := front + [DigitChar(n % 10)];
      assert r[..|r| - 1] == front;
      r
  }
}
