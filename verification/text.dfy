/**
  The string operations the forms use: JavaScript's `trim`, the regular
  expression classes `\s`, `[A-Z]`, `[a-z]`, `\d`, `toLowerCase` on ASCII
  letters, and first/last occurrence of a character.
  Strings are sequences of Unicode scalar values; the length of a string is
  the number of scalar values.
 */
module Text {
  import opened Optional

  /**
    ECMAScript's WhiteSpace and LineTerminator code points: the set both
    `String.prototype.trim` and the regular-expression class `\s` use.
   */
  predicate IsSpace(c: char) {
    || c == '\t' || c == '\n' || c == '\U{000B}' || c == '\U{000C}' || c == '\r'
    || c == ' ' || c == '\U{00A0}' || c == '\U{1680}'
    || ('\U{2000}' <= c <= '\U{200A}')
    || c == '\U{2028}' || c == '\U{2029}' || c == '\U{202F}' || c == '\U{205F}'
    || c == '\U{3000}' || c == '\U{FEFF}'
  }

  predicate IsAsciiUpper(c: char) { 'A' <= c <= 'Z' }
  predicate IsAsciiLower(c: char) { 'a' <= c <= 'z' }
  predicate IsAsciiLetter(c: char) { IsAsciiUpper(c) || IsAsciiLower(c) }
  predicate IsAsciiDigit(c: char) { '0' <= c <= '9' }

  /** Every character of `s` is in the class `p` (a regex `^[...]*$`). */
  predicate AllChars(s: string, p: char -> bool) {
    forall i :: 0 <= i < |s| ==> p(s[i])
  }

  /** Some character of `s` is in the class `p` (a regex `[...]` tested anywhere). */
  function AnyChar(s: string, p: char -> bool): (b: bool)
    ensures b <==> exists i :: 0 <= i < |s| && p(s[i])
    decreases |s|
  {
    if |s| == 0 then false
    else p(s[0]) || (assert forall i :: 0 <= i < |s| - 1 ==> s[1..][i] == s[i + 1]; AnyChar(s[1..], p))
  }

  /** The first position at or after `from` that is not whitespace, or `|s|`. */
  function SkipSpaces(s: string, from: nat): (i: nat)
    requires from <= |s|
    ensures from <= i <= |s|
    ensures forall k :: from <= k < i ==> IsSpace(s[k])
    ensures i < |s| ==> !IsSpace(s[i])
    decreases |s| - from
  {
    if from == |s| || !IsSpace(s[from]) then from else SkipSpaces(s, from + 1)
  }

  /** The end of `s[lo..end]` once its trailing whitespace is dropped. */
  function BackOverSpaces(s: string, lo: nat, end: nat): (j: nat)
    requires lo <= end <= |s|
    ensures lo <= j <= end
    ensures forall k :: j <= k < end ==> IsSpace(s[k])
    ensures j > lo ==> !IsSpace(s[j - 1])
    decreases end
  {
    if end == lo || !IsSpace(s[end - 1]) then end else BackOverSpaces(s, lo, end - 1)
  }

  /** A string with no whitespace at either end. */
  predicate IsTrimmed(s: string) {
    |s| == 0 || (!IsSpace(s[0]) && !IsSpace(s[|s| - 1]))
  }

  /**
    `r` is the slice of `s` starting at `lo`, and everything of `s` outside
    that slice is whitespace.
   */
  ghost predicate SliceAmidSpace(s: string, r: string, lo: nat) {
    && lo + |r| <= |s|
    && r == s[lo..lo + |r|]
    && (forall i :: 0 <= i < lo ==> IsSpace(s[i]))
    && (forall i :: lo + |r| <= i < |s| ==> IsSpace(s[i]))
  }

  /**
    `String.prototype.trim`: the one slice of `s` that has no whitespace at
    either end and leaves only whitespace outside it.
   */
  function Trim(s: string): (r: string)
    ensures IsTrimmed(r)
    ensures exists lo :: SliceAmidSpace(s, r, lo)
    ensures |r| == 0 <==> AllChars(s, IsSpace)
  {
    var lo := SkipSpaces(s, 0);
    var hi := BackOverSpaces(s, lo, |s|);
    assert SliceAmidSpace(s, s[lo..hi], lo);
    assert hi == lo ==> lo == |s|;
    s[lo..hi]
  }

  /** Trimming a string that is already trimmed changes nothing. */
  lemma TrimOfTrimmed(s: string)
    requires IsTrimmed(s)
    ensures Trim(s) == s
  {
    assert SkipSpaces(s, 0) == 0;
    assert s[0..|s|] == s;
  }

  /** `trim` is idempotent. */
  lemma TrimIdempotent(s: string)
    ensures Trim(Trim(s)) == Trim(s)
  {
    TrimOfTrimmed(Trim(s));
  }

  /** `toLowerCase` on one character, for the ASCII letters. */
  function LowerChar(c: char): (d: char)
    ensures !IsAsciiUpper(d)
    ensures !IsAsciiUpper(c) ==> d == c
    ensures IsAsciiUpper(c) ==> IsAsciiLower(d) && d as int - c as int == 'a' as int - 'A' as int
  {
    if IsAsciiUpper(c) then (c as int - 'A' as int + 'a' as int) as char else c
  }

  /** `toLowerCase`, folding only the ASCII upper-case letters. */
  function ToLower(s: string): (r: string)
    ensures |r| == |s|
    ensures forall i :: 0 <= i < |s| ==> r[i] == LowerChar(s[i])
    ensures !AnyChar(r, IsAsciiUpper)
  {
    seq(|s|, i requires 0 <= i < |s| => LowerChar(s[i]))
  }

  /** Lower-casing never creates or removes whitespace at the ends. */
  lemma ToLowerKeepsTrimmed(s: string)
    requires IsTrimmed(s)
    ensures IsTrimmed(ToLower(s))
  {
  }

  /** Lower-casing twice is lower-casing once. */
  lemma ToLowerIdempotent(s: string)
    ensures ToLower(ToLower(s)) == ToLower(s)
  {
  }

  /** The first position of `c` in `s` (`indexOf`), or None (`-1`). */
  function IndexOf(s: string, c: char): (r: Option<nat>)
    ensures r.Some? ==> r.value < |s| && s[r.value] == c
                        && forall i :: 0 <= i < r.value ==> s[i] != c
    ensures r.None? ==> forall i :: 0 <= i < |s| ==> s[i] != c
    decreases |s|
  {
    if |s| == 0 then None
    else if s[0] == c then Some(0)
    else match IndexOf(s[1..], c)
      case Some(i) => Some(i + 1)
      case None => None
  }

  /** The last position of `c` in `s` (`lastIndexOf`), or None (`-1`). */
  function LastIndexOf(s: string, c: char): (r: Option<nat>)
    ensures r.Some? ==> r.value < |s| && s[r.value] == c
                        && forall i :: r.value < i < |s| ==> s[i] != c
    ensures r.None? ==> forall i :: 0 <= i < |s| ==> s[i] != c
    decreases |s|
  {
    if |s| == 0 then None
    else if s[|s| - 1] == c then Some(|s| - 1)
    else LastIndexOf(s[..|s| - 1], c)
  }
}
