/**
 * The white-space trimming the client applies to an outgoing message,
 * as `String.prototype.trim` of ECMAScript defines it (section 22.1.3.32 of
 * ECMA-262): strip WhiteSpace and LineTerminator code points from both ends.
 */
module JsString {

  /** ECMAScript WhiteSpace (including category Zs) and LineTerminator code points. */
  predicate IsSpace(c: char) {
    || c == '\t' || c == '\n' || c == '\U{000B}' || c == '\U{000C}' || c == '\r' || c == ' '
    || c == '\U{00A0}' || c == '\U{1680}' || ('\U{2000}' <= c <= '\U{200A}')
    || c == '\U{2028}' || c == '\U{2029}' || c == '\U{202F}' || c == '\U{205F}'
    || c == '\U{3000}' || c == '\U{FEFF}'
  }

  predicate AllSpace(s: string) {
    forall i :: 0 <= i < |s| ==> IsSpace(s[i])
  }

  /** Number of white-space characters at the start of `s`. */
  function LeadingSpaces(s: string): (k: nat)
    ensures k <= |s|
    ensures forall j :: 0 <= j < k ==> IsSpace(s[j])
    ensures k < |s| ==> !IsSpace(s[k])
  {
    if |s| == 0 || !IsSpace(s[0]) then 0 else 1 + LeadingSpaces(s[1..])
  }

  /** Number of white-space characters at the end of `s`. */
  function TrailingSpaces(s: string): (k: nat)
    ensures k <= |s|
    ensures forall j :: |s| - k <= j < |s| ==> IsSpace(s[j])
    ensures k < |s| ==> !IsSpace(s[|s| - 1 - k])
  {
    if |s| == 0 || !IsSpace(s[|s| - 1]) then 0 else 1 + TrailingSpaces(s[..|s| - 1])
  }

  /** Neither end of `r` is white space. */
  predicate IsTrimmed(r: string) {
    |r| == 0 || (!IsSpace(r[0]) && !IsSpace(r[|r| - 1]))
  }

  /** `r` occurs in `s` at index `i` with only white space before and after it. */
  predicate StripsAt(s: string, r: string, i: nat) {
    && i + |r| <= |s|
    && s[i..i + |r|] == r
    && AllSpace(s[..i])
    && AllSpace(s[i + |r|..])
  }

  /** `r` is `s` with some white space removed from its two ends. */
  predicate StripsEnds(s: string, r: string) {
    exists i | 0 <= i <= |s| :: StripsAt(s, r, i)
  }

  /** `s.trim()`: the result has no white space at either end and only white space was removed. */
  function Trim(s: string): (r: string)
    ensures IsTrimmed(r)
    ensures StripsEnds(s, r)
  {
    var a := LeadingSpaces(s);
    var t := s[a..];
    var b := TrailingSpaces(t);
    assert StripsAt(s, s[a..|s| - b], a);
    s[a..|s| - b]
  }

  /** The leading white space ends exactly at the first non-space character. */
  lemma LeadingSpacesAt(s: string, i: nat)
    requires i <= |s|
    requires forall j :: 0 <= j < i ==> IsSpace(s[j])
    requires i < |s| ==> !IsSpace(s[i])
    ensures LeadingSpaces(s) == i
  {
  }

  /** The trailing white space starts exactly after the last non-space character. */
  lemma TrailingSpacesAt(t: string, j: nat)
    requires j <= |t|
    requires forall k :: j <= k < |t| ==> IsSpace(t[k])
    requires 0 < j ==> !IsSpace(t[j - 1])
    ensures TrailingSpaces(t) == |t| - j
  {
  }

  /** Trimming is determined by its contract: any trimmed strip of `s` is `Trim(s)`. */
  lemma TrimUnique(s: string, r: string)
    requires StripsEnds(s, r)
    requires IsTrimmed(r)
    ensures r == Trim(s)
  {
    var i :| 0 <= i <= |s| && StripsAt(s, r, i);
    if |r| == 0 {
      TrimUniqueEmpty(s, i);
    } else {
      TrimUniqueNonEmpty(s, r, i);
    }
  }

  lemma TrimUniqueEmpty(s: string, i: nat)
    requires StripsAt(s, "", i)
    ensures Trim(s) == ""
  {
    assert forall j :: 0 <= j < i ==> s[..i][j] == s[j];
    assert forall j :: i <= j < |s| ==> s[i..][j - i] == s[j];
    LeadingSpacesAt(s, |s|);
  }

  lemma TrimUniqueNonEmpty(s: string, r: string, i: nat)
    requires StripsAt(s, r, i)
    requires 0 < |r| && IsTrimmed(r)
    ensures Trim(s) == r
  {
    assert forall j :: 0 <= j < i ==> s[..i][j] == s[j];
    assert s[i] == r[0];
    LeadingSpacesAt(s, i);
    var t := s[i..];
    assert t[|r| - 1] == r[|r| - 1];
    assert forall k :: |r| <= k < |t| ==> t[k] == s[i + |r|..][k - |r|];
    TrailingSpacesAt(t, |r|);
  }

  /** Trimming twice is trimming once. */
  lemma TrimIdempotent(s: string)
    ensures Trim(Trim(s)) == Trim(s)
  {
    var r := Trim(s);
    assert StripsAt(r, r, 0);
    TrimUnique(r, r);
  }

  /** `s.trim()` is empty, so falsy, exactly when `s` is all white space. */
  lemma TrimEmptyIff(s: string)
    ensures Trim(s) == "" <==> AllSpace(s)
  {
    if AllSpace(s) {
      assert StripsAt(s, "", 0);
      TrimUnique(s, "");
    }
    if Trim(s) == "" {
      var i :| 0 <= i <= |s| && StripsAt(s, "", i);
      assert s == s[..i] + s[i..];
    }
  }
}
