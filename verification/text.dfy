/** The few JavaScript string operations the application relies on:
    `String.prototype.trim`, ASCII `toLowerCase`/`toUpperCase` and `includes`. */
module Text {

  /** The code points `trim` removes: ECMAScript WhiteSpace (tab, vertical tab,
      form feed, ZWNBSP and every space separator) and LineTerminator. */
  predicate IsTrimmable(c: char) {
    || c == '\t' || c == '\n' || c == '\U{B}' || c == '\U{C}' || c == '\r'
    || c == ' ' || c == '\U{A0}' || c == '\U{1680}'
    || ('\U{2000}' <= c <= '\U{200A}')
    || c == '\U{2028}' || c == '\U{2029}' || c == '\U{202F}' || c == '\U{205F}'
    || c == '\U{3000}' || c == '\U{FEFF}'
  }

  /** Number of trimmable characters at the front of `s`. */
  function Leading(s: string): (n: nat)
    ensures n <= |s|
    ensures forall k :: 0 <= k < n ==> IsTrimmable(s[k])
    ensures n < |s| ==> !IsTrimmable(s[n])
  {
    if |s| > 0 && IsTrimmable(s[0]) then 1 + Leading(s[1..]) else 0
  }

  /** Number of trimmable characters at the back of `s`. */
  function Trailing(s: string): (n: nat)
    ensures n <= |s|
    ensures forall k :: |s| - n <= k < |s| ==> IsTrimmable(s[k])
    ensures n < |s| ==> !IsTrimmable(s[|s| - n - 1])
  {
    if |s| > 0 && IsTrimmable(s[|s| - 1]) then 1 + Trailing(s[..|s| - 1]) else 0
  }

  /** `s.trim()`: the longest slice of `s` that neither starts nor ends with a
      trimmable character, everything cut off being trimmable. */
  function Trim(s: string): (r: string)
    ensures exists i, j :: IsTrimSlice(s, i, j) && r == s[i..j]
    ensures |r| > 0 ==> !IsTrimmable(r[0]) && !IsTrimmable(r[|r| - 1])
  {
    var i := Leading(s);
    if i == |s| then
      assert IsTrimSlice(s, i, i);
      []
    else
      var j := |s| - Trailing(s);
      assert IsTrimmable(s[j - 1]) ==> j - 1 < i;
      assert IsTrimSlice(s, i, j);
      s[i..j]
  }

  /** `s[i..j]` is what remains after cutting only trimmable characters off both ends. */
  ghost predicate IsTrimSlice(s: string, i: int, j: int) {
    && 0 <= i <= j <= |s|
    && (forall k :: 0 <= k < i ==> IsTrimmable(s[k]))
    && (forall k :: j <= k < |s| ==> IsTrimmable(s[k]))
  }

  /** The trimmed text is empty exactly when every character of `s` is trimmable:
      the program's "empty input" test. */
  lemma TrimEmptyIff(s: string)
    ensures |Trim(s)| == 0 <==> forall k :: 0 <= k < |s| ==> IsTrimmable(s[k])
  {
    var i := Leading(s);
    if i < |s| {
      assert !IsTrimmable(s[i]);
      assert |Trim(s)| > 0;
    }
  }

  function LowerChar(c: char): char {
    if 'A' <= c <= 'Z' then (c as int + 32) as char else c
  }

  function UpperChar(c: char): char {
    if 'a' <= c <= 'z' then (c as int - 32) as char else c
  }

  /** `s.toLowerCase()` restricted to the ASCII letters. */
  function Lower(s: string): (r: string)
    ensures |r| == |s|
    ensures forall k :: 0 <= k < |s| ==> r[k] == LowerChar(s[k])
  {
    seq(|s|, k requires 0 <= k < |s| => LowerChar(s[k]))
  }

  /** Lower-casing twice is lower-casing once, so comparing lowered strings is an
      equivalence that ignores ASCII case. */
  lemma LowerIdempotent(s: string)
    ensures Lower(Lower(s)) == Lower(s)
  {
  }

  /** `t` occurs in `s` starting at position `i`. */
  ghost predicate OccursAt(s: string, t: string, i: int) {
    0 <= i && i + |t| <= |s| && s[i..i + |t|] == t
  }

  /** `s.includes(t)`: some position of `s` starts an occurrence of `t`. */
  function Includes(s: string, t: string): (b: bool)
    ensures b <==> exists i :: OccursAt(s, t, i)
  {
    if |t| <= |s| && s[..|t|] == t then
      assert OccursAt(s, t, 0);
      true
    else if |s| == 0 then
      assert forall i :: !OccursAt(s, t, i);
      false
    else
      var rest := Includes(s[1..], t);
      assert forall i :: OccursAt(s[1..], t, i) ==> OccursAt(s, t, i + 1);
      assert forall i :: OccursAt(s, t, i) && i > 0 ==> OccursAt(s[1..], t, i - 1);
      assert !OccursAt(s, t, 0);
      rest
  }
}
