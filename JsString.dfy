/**
 * The JavaScript string primitives the scraper applies to DOM text:
 * the character classes of ECMAScript regular expressions, `String.prototype.trim`,
 * a non-global `replace` of the first whitespace run, and the `x || ''` fallback.
 *
 * Characters are Unicode scalar values. JavaScript strings are UTF-16 code units, but
 * every white-space and line-terminator character lies in the Basic Multilingual Plane,
 * so both views put the same boundaries in the same places.
 */
module JsString {
  import opened Wrappers

  /** LineTerminator (ECMA-262 section 12.3): the characters `.` does not match. */
  predicate IsLineTerminator(c: char) {
    c == '\n' || c == '\r' || c == '\U{2028}' || c == '\U{2029}'
  }

  /** WhiteSpace (ECMA-262 section 12.2): TAB, VT, FF, ZWNBSP and every space separator (Zs). */
  predicate IsWhiteSpace(c: char) {
    || c == '\t' || c == '\U{000B}' || c == '\U{000C}' || c == '\U{FEFF}'
    || c == ' ' || c == '\U{00A0}' || c == '\U{1680}'
    || ('\U{2000}' <= c <= '\U{200A}')
    || c == '\U{202F}' || c == '\U{205F}' || c == '\U{3000}'
  }

  /**
   * The regular-expression class `\s` (ECMA-262 section 22.2.2.9), which is also the set
   * `trim` strips: WhiteSpace and LineTerminator. `[\n\s]` is the same class.
   */
  predicate IsSpace(c: char) {
    IsWhiteSpace(c) || IsLineTerminator(c)
  }

  predicate IsNotSpace(c: char) {
    !IsSpace(c)
  }

  predicate AllSpace(s: string) {
    forall k :: 0 <= k < |s| ==> IsSpace(s[k])
  }

  predicate NoSpace(s: string) {
    forall k :: 0 <= k < |s| ==> !IsSpace(s[k])
  }

  /** No leading and no trailing `\s` character. */
  predicate Trimmed(s: string) {
    s == [] || (!IsSpace(s[0]) && !IsSpace(s[|s| - 1]))
  }

  /** The first index at or after `i` whose character satisfies `stop`, or |s| when there is none. */
  function FirstFrom(s: string, i: nat, stop: char -> bool): (j: nat)
    requires i <= |s|
    ensures i <= j <= |s|
    ensures forall k :: i <= k < j ==> !stop(s[k])
    ensures j < |s| ==> stop(s[j])
    decreases |s| - i
  {
    if i == |s| || stop(s[i]) then i else FirstFrom(s, i + 1, stop)
  }

  /** `FirstFrom` is the first stop: any j with no stop before it and a stop at it is the answer. */
  lemma {:induction false} FirstFromIs(s: string, i: nat, stop: char -> bool, j: nat)
    requires i <= j <= |s|
    requires forall k :: i <= k < j ==> !stop(s[k])
    requires j < |s| ==> stop(s[j])
    ensures FirstFrom(s, i, stop) == j
    decreases j - i
  {
    if i < j {
      FirstFromIs(s, i + 1, stop, j);
    }
  }

  /**
   * The scan back from j: the smallest b <= j such that no character of s[b..j] satisfies `stop`.
   * Either b is 0 or s[b - 1] satisfies `stop`.
   */
  function LastTo(s: string, j: nat, stop: char -> bool): (b: nat)
    requires j <= |s|
    ensures b <= j
    ensures forall k :: b <= k < j ==> !stop(s[k])
    ensures b > 0 ==> stop(s[b - 1])
  {
    if j == 0 || stop(s[j - 1]) then j else LastTo(s, j - 1, stop)
  }

  /** `r` is the infix of `s` that starts at `a`, and everything of `s` around it is white space. */
  predicate InfixAmidSpace(s: string, a: nat, r: string) {
    a + |r| <= |s| && r == s[a..a + |r|]
    && (forall k :: 0 <= k < a ==> IsSpace(s[k]))
    && (forall k :: a + |r| <= k < |s| ==> IsSpace(s[k]))
  }

  /**
   * `s.trim()`: `s` with its leading and trailing `\s` characters removed. The result is an
   * infix of `s` whose surroundings are all white space, and it is empty
   * exactly when `s` is all white space.
   */
  function Trim(s: string): (r: string)
    ensures Trimmed(r)
    ensures r == [] <==> AllSpace(s)
    ensures exists a: nat :: InfixAmidSpace(s, a, r)
  {
    var a := FirstFrom(s, 0, IsNotSpace);
    if a == |s| then
      assert InfixAmidSpace(s, a, []);
      []
    else
      var b := LastTo(s, |s|, IsNotSpace);
      assert a < b;
      var r := s[a..b];
      assert r[0] == s[a] && r[|r| - 1] == s[b - 1];
      assert InfixAmidSpace(s, a, r);
      r
  }

  /** Trimming a string that has no leading or trailing white space leaves it as it is. */
  lemma TrimOfTrimmed(s: string)
    requires Trimmed(s)
    ensures Trim(s) == s
  {
    var r := Trim(s);
    var a: nat :| InfixAmidSpace(s, a, r);
  }

  /** `trim` is idempotent. */
  lemma TrimIdempotent(s: string)
    ensures Trim(Trim(s)) == Trim(s)
  {
    TrimOfTrimmed(Trim(s));
  }

  /**
   * `t.replace(/[\n\s]+/, ' ')`: without the `g` flag only the leftmost match is replaced, and
   * the greedy `+` makes that match the whole first run of `\s` characters. The result is
   * t[..i] + " " + t[j..] where t[..i] holds no white space and t[i..j] is a maximal non-empty
   * run of it; later runs are left as they are. A `t` with no white space is returned unchanged.
   */
  function ReplaceFirstSpaceRun(t: string): (r: string)
    ensures NoSpace(t) ==> r == t
    ensures !NoSpace(t) ==>
      exists i, j :: 0 <= i < j <= |t| && NoSpace(t[..i]) && AllSpace(t[i..j])
        && (j == |t| || !IsSpace(t[j])) && r == t[..i] + " " + t[j..]
  {
    var i := FirstFrom(t, 0, IsSpace);
    if i == |t| then
      t
    else
      var j := FirstFrom(t, i, IsNotSpace);
      assert NoSpace(t[..i]) && AllSpace(t[i..j]);
      t[..i] + " " + t[j..]
  }

  /** With "<head><gap><rest>", `head` free of white space and `gap` a whole run, the gap becomes one space. */
  lemma ReplaceRunBefore(head: string, gap: string, rest: string)
    requires NoSpace(head) && gap != "" && AllSpace(gap)
    requires rest == "" || !IsSpace(rest[0])
    ensures ReplaceFirstSpaceRun(head + gap + rest) == head + " " + rest
  {
    var t := head + gap + rest;
    var i, j := |head|, |head| + |gap|;
    assert t[..i] == head;
    assert t[j..] == rest;
    assert forall k :: i <= k < j ==> t[k] == gap[k - i];
    FirstFromIs(t, 0, IsSpace, i);
    FirstFromIs(t, i, IsNotSpace, j);
  }

  /** JavaScript's `x || ''` on a string or null: the value when it is a non-empty string, else "". */
  function OrEmpty(x: Option<string>): (r: string)
    ensures r == x.GetOr("")
  {
    if x.Some? && x.value != "" then x.value else ""
  }
}
