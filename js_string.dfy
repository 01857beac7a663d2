/**
 * The part of JavaScript's string semantics the application relies on:
 * `String.prototype.trim`, which removes leading and trailing code points of
 * the ECMAScript WhiteSpace and LineTerminator productions (ECMA-262,
 * sections 12.2 and 12.3), and the truthiness test `if (s.trim())`, which
 * holds exactly when the trimmed string is non-empty.
 */
module JsString {

  /** WhiteSpace or LineTerminator: TAB, LF, VT, FF, CR, the Unicode space
      separators (category Zs), LINE SEPARATOR, PARAGRAPH SEPARATOR and the
      byte order mark. */
  predicate IsWhitespace(c: char) {
    var n := c as int;
    (0x09 <= n <= 0x0D) || n == 0x20 || n == 0xA0 || n == 0x1680
    || (0x2000 <= n <= 0x200A) || n == 0x2028 || n == 0x2029
    || n == 0x202F || n == 0x205F || n == 0x3000 || n == 0xFEFF
  }

  /** Every character of `s` is whitespace (the empty string included). */
  predicate Blank(s: string) {
    forall i :: 0 <= i < |s| ==> IsWhitespace(s[i])
  }

  /** Neither the first nor the last character is whitespace. */
  predicate IsTrimmed(s: string) {
    s == [] || (!IsWhitespace(s[0]) && !IsWhitespace(s[|s| - 1]))
  }

  /** The number of whitespace characters `s` starts with. */
  function LeadingBlank(s: string): (k: nat)
    ensures k <= |s|
    ensures forall i :: 0 <= i < k ==> IsWhitespace(s[i])
    ensures k < |s| ==> !IsWhitespace(s[k])
    decreases |s|
  {
    if |s| > 0 && IsWhitespace(s[0]) then
      var k := LeadingBlank(s[1..]);
      assert forall i :: 1 <= i < 1 + k ==> s[i] == s[1..][i - 1];
      1 + k
    else 0
  }

  /** The number of whitespace characters `s` ends with. */
  function TrailingBlank(s: string): (k: nat)
    ensures k <= |s|
    ensures forall i :: |s| - k <= i < |s| ==> IsWhitespace(s[i])
    ensures k < |s| ==> !IsWhitespace(s[|s| - 1 - k])
    decreases |s|
  {
    if |s| > 0 && IsWhitespace(s[|s| - 1]) then
      var k := TrailingBlank(s[..|s| - 1]);
      assert forall i :: |s| - 1 - k <= i < |s| - 1 ==> s[i] == s[..|s| - 1][i];
      1 + k
    else 0
  }

  /** `s.trim()`: the slice of `s` left once the whitespace at both ends is
      gone. It is empty exactly when `s` is blank, and otherwise starts and
      ends with a non-whitespace character of `s`. */
  function Trim(s: string): (r: string)
    ensures IsTrimmed(r)
    ensures r == [] <==> Blank(s)
    ensures forall c :: c in r ==> c in s
  {
    var a := LeadingBlank(s);
    if a == |s| then []
    else
      var b := TrailingBlank(s);
      assert !IsWhitespace(s[a]);
      var r := s[a..|s| - b];
      assert forall c :: c in r ==> c in s by {
        forall c | c in r ensures c in s {
          var k :| 0 <= k < |r| && r[k] == c;
          assert s[a + k] == c;
        }
      }
      r
  }

  /** Trimming a trimmed, non-empty string padded with whitespace on both
      sides gives back the string. */
  lemma TrimPadded(before: string, s: string, after: string)
    requires Blank(before) && Blank(after)
    requires s != [] && IsTrimmed(s)
    ensures Trim(before + s + after) == s
  {
    var t := before + s + after;
    var a, b := LeadingBlank(t), TrailingBlank(t);
    var lo, hi := |before|, |before| + |s|;
    assert t[lo] == s[0] && t[hi - 1] == s[|s| - 1];
    assert forall i :: 0 <= i < lo ==> t[i] == before[i];
    assert forall i :: hi <= i < |t| ==> t[i] == after[i - hi];
    // Both counts are pinned down by their contracts.
    assert !IsWhitespace(t[lo]) && !IsWhitespace(t[hi - 1]);
    assert forall i :: 0 <= i < lo ==> IsWhitespace(t[i]);
    assert forall i :: hi <= i < |t| ==> IsWhitespace(t[i]);
    assert a == lo && |t| - b == hi;
    assert t[lo..hi] == s;
  }
}
