/**
  The string operations the handlers apply to request input:
  `slice(0, n)`, `trim()` and JavaScript truthiness of an optional string.
  Strings are sequences of characters; JavaScript's UTF-16 code units are
  not distinguished from Unicode scalar values here.
 */
module Strings {
  import opened Wrappers

  /** `s.slice(0, n)`: the first n characters, or all of s when it is shorter. */
  function Slice(s: string, n: nat): (r: string)
    ensures |r| == if |s| < n then |s| else n
    ensures r <= s
  {
    if |s| <= n then s else s[..n]
  }

  /**
    The characters `String.prototype.trim` removes: WhiteSpace (ECMA-262
    section 12.2: TAB, VT, FF, ZWNBSP and every Unicode "Space_Separator")
    and LineTerminator (section 12.3: LF, CR, LS, PS).
   */
  predicate IsSpace(c: char)
  {
    || c == '\t' || c == '\U{000B}' || c == '\U{000C}' || c == '\U{FEFF}'
    || c == ' ' || c == '\U{00A0}' || c == '\U{1680}' || ('\U{2000}' <= c <= '\U{200A}')
    || c == '\U{202F}' || c == '\U{205F}' || c == '\U{3000}'
    || c == '\n' || c == '\r' || c == '\U{2028}' || c == '\U{2029}'
  }

  /** The index of the first non-space character at or after i, or |s| when there is none. */
  function SkipSpace(s: string, i: nat): (j: nat)
    requires i <= |s|
    ensures i <= j <= |s|
    ensures forall k :: i <= k < j ==> IsSpace(s[k])
    ensures j < |s| ==> !IsSpace(s[j])
    decreases |s| - i
  {
    if i < |s| && IsSpace(s[i]) then SkipSpace(s, i + 1) else i
  }

  /** The end of s[lo..hi] once its trailing space characters are dropped. */
  function BackSpace(s: string, lo: nat, hi: nat): (j: nat)
    requires lo <= hi <= |s|
    ensures lo <= j <= hi
    ensures forall k :: j <= k < hi ==> IsSpace(s[k])
    ensures j > lo ==> !IsSpace(s[j - 1])
    decreases hi
  {
    if hi > lo && IsSpace(s[hi - 1]) then BackSpace(s, lo, hi - 1) else hi
  }

  /** How many leading space characters `trim` removes. */
  function Lead(s: string): (k: nat)
    ensures k <= |s|
  {
    SkipSpace(s, 0)
  }

  /**
    `s.trim()`: the infix of s left after removing every leading and every
    trailing space character; it neither starts nor ends with one.
   */
  function Trim(s: string): (r: string)
    ensures Lead(s) + |r| <= |s| && r == s[Lead(s)..Lead(s) + |r|]
    ensures forall i :: 0 <= i < Lead(s) ==> IsSpace(s[i])
    ensures forall i :: Lead(s) + |r| <= i < |s| ==> IsSpace(s[i])
    ensures |r| > 0 ==> !IsSpace(r[0]) && !IsSpace(r[|r| - 1])
  {
    s[Lead(s)..BackSpace(s, Lead(s), |s|)]
  }

  /** A string made only of space characters trims to the empty string. */
  lemma TrimAllSpace(s: string)
    requires forall i :: 0 <= i < |s| ==> IsSpace(s[i])
    ensures Trim(s) == ""
  {
  }

  /** A string with no space character at either end is left unchanged by trim. */
  lemma TrimUntouched(s: string)
    requires |s| > 0 ==> !IsSpace(s[0]) && !IsSpace(s[|s| - 1])
    ensures Trim(s) == s
  {
  }

  /** JavaScript truthiness of an optional string: present and non-empty. */
  predicate Truthy(x: Option<string>)
  {
    x.Some? && |x.value| > 0
  }
}
