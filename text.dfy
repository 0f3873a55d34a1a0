/**
 * The string primitives the source relies on: `toLowerCase`, `includes`,
 * `slice(0, -1)` and the `\s` class of JavaScript regular expressions.
 */
module Text {

  predicate IsUpper(c: char) { 'A' <= c <= 'Z' }

  /** `toLowerCase` on one character, restricted to ASCII letters. */
  function LowerChar(c: char): (r: char)
    ensures !IsUpper(r)
    ensures IsUpper(c) ==> r as int == c as int + 32
    ensures !IsUpper(c) ==> r == c
  {
    if IsUpper(c) then (c as int + 32) as char else c
  }

  /** `String.prototype.toLowerCase` over ASCII letters. */
  function Lower(s: string): (r: string)
    ensures |r| == |s|
    ensures forall i :: 0 <= i < |s| ==> r[i] == LowerChar(s[i])
  {
    seq(|s|, i requires 0 <= i < |s| => LowerChar(s[i]))
  }

  /** `s.slice(0, -1)`: everything but the last character; the empty string stays empty. */
  function DropLast(s: string): (r: string)
    ensures |s| > 0 ==> |r| == |s| - 1 && r + [s[|s| - 1]] == s
    ensures |s| == 0 ==> r == ""
  {
    if |s| == 0 then "" else s[..|s| - 1]
  }

  /** `String.prototype.includes`: n occurs in h as a contiguous block starting at some position. */
  predicate Contains(h: string, n: string) {
    exists i :: 0 <= i <= |h| && n <= h[i..]
  }

  /** A block occurs where the string is written out as the block with text around it. */
  lemma ContainsAt(h: string, n: string, i: nat)
    requires i + |n| <= |h| && forall k :: 0 <= k < |n| ==> h[i + k] == n[k]
    ensures Contains(h, n)
  {
    assert n <= h[i..];
  }

  /** Occurrence is transitive: a block of a block of t is a block of t. */
  lemma ContainsTransitive(t: string, a: string, b: string)
    requires Contains(t, a) && Contains(a, b)
    ensures Contains(t, b)
  {
    var i :| 0 <= i <= |t| && a <= t[i..];
    var j :| 0 <= j <= |a| && b <= a[j..];
    assert a[j..] <= t[i + j..];
  }

  /** A string lacking one of n's characters does not contain n. */
  lemma AbsentCharNotContained(h: string, n: string, i: nat)
    requires i < |n| && n[i] !in h
    ensures !Contains(h, n)
  {
  }

  /** A block occurring in a lower-cased string has no upper-case letter. */
  lemma LowerContainsNoUpper(s: string, n: string, j: nat)
    requires Contains(Lower(s), n) && j < |n|
    ensures !IsUpper(n[j])
  {
    var i :| 0 <= i <= |Lower(s)| && n <= Lower(s)[i..];
    assert n[j] == Lower(s)[i + j];
  }

  /**
   * The `\s` class of JavaScript regular expressions: the Unicode white-space
   * and line-terminator code points.
   */
  predicate IsSpace(c: char) {
    var n := c as int;
    (0x09 <= n <= 0x0D) || n == 0x20 || n == 0xA0 || n == 0x1680 ||
    (0x2000 <= n <= 0x200A) || n == 0x2028 || n == 0x2029 || n == 0x202F ||
    n == 0x205F || n == 0x3000 || n == 0xFEFF
  }
}
