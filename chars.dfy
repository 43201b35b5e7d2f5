/**
 * The pieces of java.lang.String and java.lang.Character the commands rely on:
 * the regex class \p{Alnum}, lower-casing, and String.trim. Case mapping is
 * modelled for ASCII letters only.
 */
module Chars {

  predicate IsAsciiLetter(c: char) {
    ('a' <= c <= 'z') || ('A' <= c <= 'Z')
  }

  predicate IsAsciiDigit(c: char) {
    '0' <= c <= '9'
  }

  /** The POSIX class \p{Alnum} of java.util.regex: an ASCII letter or digit. */
  predicate IsAlnum(c: char) {
    IsAsciiLetter(c) || IsAsciiDigit(c)
  }

  /** Lower-cases an ASCII upper-case letter and keeps every other character. */
  function ToLowerChar(c: char): (r: char)
    ensures 'A' <= c <= 'Z' ==> 'a' <= r <= 'z' && r as int == c as int + 32
    ensures !('A' <= c <= 'Z') ==> r == c
  {
    if 'A' <= c <= 'Z' then (c as int + 32) as char else c
  }

  /** String.toLowerCase, character by character. */
  function ToLower(s: string): (r: string)
    ensures |r| == |s|
    ensures forall i :: 0 <= i < |s| ==> r[i] == ToLowerChar(s[i])
  {
    if s == [] then [] else [ToLowerChar(s[0])] + ToLower(s[1..])
  }

  /** String.trim treats every character at or below U+0020 as white space. */
  predicate IsTrimmable(c: char) {
    c <= ' '
  }

  /** The first index at or after i that holds a character trim keeps, or |s|. */
  function TrimStart(s: string, i: nat): (k: nat)
    requires i <= |s|
    ensures i <= k <= |s|
    ensures forall j :: i <= j < k ==> IsTrimmable(s[j])
    ensures k < |s| ==> !IsTrimmable(s[k])
    decreases |s| - i
  {
    if i < |s| && IsTrimmable(s[i]) then TrimStart(s, i + 1) else i
  }

  /** The end of s[k..e] once its trailing trimmable characters are dropped. */
  function TrimEnd(s: string, k: nat, e: nat): (e': nat)
    requires k <= e <= |s|
    ensures k <= e' <= e
    ensures forall j :: e' <= j < e ==> IsTrimmable(s[j])
    ensures e' > k ==> !IsTrimmable(s[e' - 1])
  {
    if e > k && IsTrimmable(s[e - 1]) then TrimEnd(s, k, e - 1) else e
  }

  /**
   * String.trim: the infix of s left once the leading and trailing trimmable
   * characters are gone; it is empty exactly when every character of s is
   * trimmable, and otherwise starts and ends with a character trim keeps.
   */
  function Trim(s: string): (r: string)
    ensures |r| <= |s|
    ensures r == [] <==> forall i :: 0 <= i < |s| ==> IsTrimmable(s[i])
    ensures r != [] ==> !IsTrimmable(r[0]) && !IsTrimmable(r[|r| - 1])
  {
    var k := TrimStart(s, 0);
    s[k..TrimEnd(s, k, |s|)]
  }
}
