/**
 * The date parse of the result extractor: `text.match(/written by .+ at (.+?)(?:\s*\(|$)/)?.[1] || ''`.
 *
 * The pattern has no flags, so it follows the backtracking semantics of ECMA-262 section 22.2:
 * the match starts at the leftmost position where one exists; at that start the greedy `.+`
 * takes the longest stretch that still lets the rest match (so the LAST feasible " at " wins);
 * then the lazy `(.+?)` takes the shortest non-empty group followed by `\s*\(` or by the end
 * of the input (`$` without the `m` flag). `.` matches anything but a line terminator; `\s`
 * includes line terminators.
 *
 * `MatchAt` and `IsFirstMatch` state this declaratively; `MatchFrom`, `BacktrackDots` and
 * `LazyGroup` perform the search the regular-expression engine performs, and are proved to
 * find exactly the match `IsFirstMatch` describes.
 */
module WrittenByPattern {
  import opened Wrappers
  import opened JsString

  const Lead: string := "written by "
  const Sep: string := " at "

  /** A match: it starts at `start`, `.+` spans s[start + |Lead|..dotsEnd], group 1 spans s[dotsEnd + |Sep|..groupEnd]. */
  datatype Span = Span(start: nat, dotsEnd: nat, groupEnd: nat)

  /** `.` can consume every character of s[i..j]. */
  predicate DotsIn(s: string, i: nat, j: nat)
    requires i <= j <= |s|
  {
    forall k :: i <= k < j ==> !IsLineTerminator(s[k])
  }

  predicate LeadAt(s: string, p: nat) {
    p + |Lead| <= |s| && s[p..p + |Lead|] == Lead
  }

  predicate SepAt(s: string, q: nat) {
    q + |Sep| <= |s| && s[q..q + |Sep|] == Sep
  }

  /** `\s*\(` matches at `i`: zero or more `\s` characters, then an opening parenthesis. */
  predicate ParenAhead(s: string, i: nat)
    requires i <= |s|
    decreases |s| - i
  {
    i < |s| && (s[i] == '(' || (IsSpace(s[i]) && ParenAhead(s, i + 1)))
  }

  /** `(?:\s*\(|$)` matches at `e`. */
  predicate TailAt(s: string, e: nat)
    requires e <= |s|
  {
    ParenAhead(s, e) || e == |s|
  }

  /** `(.+?)(?:\s*\(|$)` matches with the group spanning s[c..e]. */
  predicate GroupAt(s: string, c: nat, e: nat) {
    c < e <= |s| && DotsIn(s, c, e) && TailAt(s, e)
  }

  /** The whole pattern matches `s` with the parts laid out as a `Span(p, q, e)` describes. */
  predicate MatchAt(s: string, p: nat, q: nat, e: nat) {
    && LeadAt(s, p)
    && p + |Lead| < q
    && SepAt(s, q)
    && DotsIn(s, p + |Lead|, q)
    && GroupAt(s, q + |Sep|, e)
  }

  /** `m` is the match the engine reports: leftmost start, then longest `.+`, then shortest group. */
  ghost predicate IsFirstMatch(s: string, m: Span) {
    && MatchAt(s, m.start, m.dotsEnd, m.groupEnd)
    && (forall p: nat, q: nat, e: nat :: p < m.start ==> !MatchAt(s, p, q, e))
    && (forall q: nat, e: nat :: q > m.dotsEnd ==> !MatchAt(s, m.start, q, e))
    && (forall e: nat :: e < m.groupEnd ==> !MatchAt(s, m.start, m.dotsEnd, e))
  }

  ghost predicate NoMatch(s: string) {
    forall p: nat, q: nat, e: nat :: !MatchAt(s, p, q, e)
  }

  /** The index of the first line terminator at or after `i`, or |s|: where a greedy `.+` stops. */
  function LineEnd(s: string, i: nat): (j: nat)
    requires i <= |s|
    ensures i <= j <= |s| && DotsIn(s, i, j)
    ensures forall q: nat :: j < q <= |s| ==> !DotsIn(s, i, q)
  {
    var j := FirstFrom(s, i, IsLineTerminator);
    assert forall q: nat :: j < q <= |s| ==> !DotsIn(s, i, q) by {
      forall q | j < q <= |s| ensures !DotsIn(s, i, q) {
        assert IsLineTerminator(s[j]);
      }
    }
    j
  }

  /**
   * The lazy group: having consumed s[c..e - 1], try to end the group at e, then e + 1, and so on,
   * until the tail matches or `.` meets a line terminator or the end of the input.
   */
  function LazyGroup(s: string, c: nat, e: nat): (r: Option<nat>)
    requires c < e <= |s| + 1
    requires DotsIn(s, c, e - 1)
    ensures r.Some? ==> e <= r.value && GroupAt(s, c, r.value)
    ensures r.Some? ==> forall e': nat :: e <= e' < r.value ==> !GroupAt(s, c, e')
    ensures r.None? ==> forall e': nat :: e <= e' ==> !GroupAt(s, c, e')
    decreases |s| + 1 - e
  {
    if e > |s| then
      None
    else if IsLineTerminator(s[e - 1]) then
      assert forall e': nat :: e <= e' <= |s| ==> !DotsIn(s, c, e') by {
        forall e' | e <= e' <= |s| ensures !DotsIn(s, c, e') {
          assert IsLineTerminator(s[e - 1]);
        }
      }
      None
    else if TailAt(s, e) then
      Some(e)
    else
      LazyGroup(s, c, e + 1)
  }

  /**
   * The greedy `.+` backtracking: with `.+` ending at q, look for " at " and a lazy group after it;
   * failing that, give back one character and try q - 1, down to a single character.
   */
  function BacktrackDots(s: string, p: nat, q: nat): (r: Option<Span>)
    requires LeadAt(s, p)
    requires p + |Lead| <= q <= |s| && DotsIn(s, p + |Lead|, q)
    ensures r.Some? ==> r.value.start == p && r.value.dotsEnd <= q
    ensures r.Some? ==> MatchAt(s, p, r.value.dotsEnd, r.value.groupEnd)
    ensures r.Some? ==> forall q': nat, e: nat :: r.value.dotsEnd < q' <= q ==> !MatchAt(s, p, q', e)
    ensures r.Some? ==> forall e: nat :: e < r.value.groupEnd ==> !MatchAt(s, p, r.value.dotsEnd, e)
    ensures r.None? ==> forall q': nat, e: nat :: q' <= q ==> !MatchAt(s, p, q', e)
    decreases q
  {
    if q == p + |Lead| then
      None
    else if SepAt(s, q) then
      match LazyGroup(s, q + |Sep|, q + |Sep| + 1)
      case Some(e) => Some(Span(p, q, e))
      case None => BacktrackDots(s, p, q - 1)
    else
      BacktrackDots(s, p, q - 1)
  }

  /** The attempt at start p: "written by ", then `.+` as far as the line goes, then backtracking. */
  function MatchHere(s: string, p: nat): (r: Option<Span>)
    ensures r.Some? ==> r.value.start == p && MatchAt(s, p, r.value.dotsEnd, r.value.groupEnd)
    ensures r.Some? ==> forall q: nat, e: nat :: q > r.value.dotsEnd ==> !MatchAt(s, p, q, e)
    ensures r.Some? ==> forall e: nat :: e < r.value.groupEnd ==> !MatchAt(s, p, r.value.dotsEnd, e)
    ensures r.None? ==> forall q: nat, e: nat :: !MatchAt(s, p, q, e)
  {
    if LeadAt(s, p) then
      var q := LineEnd(s, p + |Lead|);
      BacktrackDots(s, p, q)
    else
      None
  }

  /** The scan over start positions p, p + 1, ..., |s| that `RegExp.prototype.exec` performs. */
  function MatchFrom(s: string, p: nat): (r: Option<Span>)
    requires p <= |s|
    ensures r.Some? ==> p <= r.value.start && MatchAt(s, r.value.start, r.value.dotsEnd, r.value.groupEnd)
    ensures r.Some? ==> forall p': nat, q: nat, e: nat :: p <= p' < r.value.start ==> !MatchAt(s, p', q, e)
    ensures r.Some? ==> forall q: nat, e: nat :: q > r.value.dotsEnd ==> !MatchAt(s, r.value.start, q, e)
    ensures r.Some? ==> forall e: nat :: e < r.value.groupEnd ==> !MatchAt(s, r.value.start, r.value.dotsEnd, e)
    ensures r.None? ==> forall p': nat, q: nat, e: nat :: p <= p' ==> !MatchAt(s, p', q, e)
    decreases |s| - p
  {
    var here := MatchHere(s, p);
    if here.Some? then
      here
    else if p == |s| then
      None
    else
      MatchFrom(s, p + 1)
  }

  /** `s.match(pattern)`: the engine's match, or none when the pattern matches nowhere. */
  function Exec(s: string): (r: Option<Span>)
    ensures r.Some? ==> IsFirstMatch(s, r.value)
    ensures r.None? ==> NoMatch(s)
  {
    MatchFrom(s, 0)
  }

  /** `s.match(pattern)?.[1] || ''`: the text of group 1, or "" when there is no match. */
  function ParseCreatedAt(s: string): (r: string)
    ensures r == "" <==> NoMatch(s)
    ensures r != "" ==> exists m :: IsFirstMatch(s, m) && r == s[m.dotsEnd + |Sep|..m.groupEnd]
  {
    var group := match Exec(s)
      case Some(m) => Some(s[m.dotsEnd + |Sep|..m.groupEnd])
      case None => None;
    OrEmpty(group)
  }

  /** The engine's match is determined: two spans that both satisfy `IsFirstMatch` are equal. */
  lemma FirstMatchUnique(s: string, m1: Span, m2: Span)
    requires IsFirstMatch(s, m1) && IsFirstMatch(s, m2)
    ensures m1 == m2
  {
  }

  /** Whenever a span is the engine's match, `createdAt` is the text of its group. */
  lemma ParseOfFirstMatch(s: string, m: Span)
    requires IsFirstMatch(s, m)
    ensures ParseCreatedAt(s) == s[m.dotsEnd + |Sep|..m.groupEnd]
  {
    assert Exec(s).Some?;
    FirstMatchUnique(s, Exec(s).value, m);
  }

  /**
   * `r` is the text s[c..e] right after a " at ", non-empty, holding no line terminator, and
   * followed by the end of `s` or by white space and then "(".
   */
  predicate GroupTextAt(s: string, r: string, c: nat, e: nat) {
    && |Lead| + 1 + |Sep| <= c < e <= |s|
    && r == s[c..e]
    && s[c - |Sep|..c] == Sep
    && (forall k :: 0 <= k < |r| ==> !IsLineTerminator(r[k]))
    && TailAt(s, e)
  }

  /** What a non-empty `createdAt` looks like in the text it came from. */
  lemma CreatedAtShape(s: string)
    requires ParseCreatedAt(s) != ""
    ensures exists c: nat, e: nat :: GroupTextAt(s, ParseCreatedAt(s), c, e)
  {
    var r := ParseCreatedAt(s);
    var m: Span :| IsFirstMatch(s, m) && r == s[m.dotsEnd + |Sep|..m.groupEnd];
    var c: nat := m.dotsEnd + |Sep|;
    assert forall k :: 0 <= k < |r| ==> r[k] == s[c + k];
    assert GroupTextAt(s, r, c, m.groupEnd);
  }

  /** `\s*\(` cannot match at i when no "(" lies ahead. */
  lemma {:induction false} NoParenNoParenAhead(s: string, i: nat)
    requires i <= |s|
    requires forall k :: i <= k < |s| ==> s[k] != '('
    ensures !ParenAhead(s, i)
    decreases |s| - i
  {
    if i < |s| {
      NoParenNoParenAhead(s, i + 1);
    }
  }

  /** `\s*\(` matches at i when s[i..] starts with white space and then "(". */
  lemma {:induction false} ParenAfterSpaces(s: string, i: nat, k: nat)
    requires i <= k < |s| && s[k] == '('
    requires forall j :: i <= j < k ==> IsSpace(s[j])
    ensures ParenAhead(s, i)
    decreases k - i
  {
    if i < k {
      ParenAfterSpaces(s, i + 1, k);
    }
  }

  /** `\s*\(` does not match at i when a character that is neither white space nor "(" comes first. */
  lemma {:induction false} NoParenAhead(s: string, i: nat, k: nat)
    requires i <= k < |s| && !IsSpace(s[k]) && s[k] != '('
    requires forall j :: i <= j < k ==> s[j] != '('
    ensures !ParenAhead(s, i)
    decreases k - i
  {
    if i < k {
      NoParenAhead(s, i + 1, k);
    }
  }

  /** Every " at " holds an "a": past a " at " at q0 and with no "a" after it, no later " at " exists. */
  lemma NoLaterSep(s: string, q0: nat)
    requires SepAt(s, q0)
    requires forall k :: q0 + |Sep| <= k < |s| ==> s[k] != 'a'
    ensures forall q: nat :: q > q0 ==> !SepAt(s, q)
  {
    forall q: nat | q > q0 ensures !SepAt(s, q) {
      if q + |Sep| <= |s| {
        if q + 1 < q0 + |Sep| {
          assert s[q + 1] == s[q0..q0 + |Sep|][q + 1 - q0] == Sep[q + 1 - q0];
        }
        assert s[q..q + |Sep|][1] == s[q + 1] != 'a';
      }
    }
  }

  /**
   * The engine's match when the text is laid out as the site renders it: "written by " at the
   * start, `.+` up to the last " at ", at q0, and the group ending at e0, the first place
   * after it where the tail matches.
   */
  lemma ParseOfLayout(s: string, q0: nat, e0: nat)
    requires LeadAt(s, 0) && |Lead| < q0 && SepAt(s, q0) && DotsIn(s, |Lead|, q0)
    requires forall q: nat :: q > q0 ==> !SepAt(s, q)
    requires GroupAt(s, q0 + |Sep|, e0)
    requires forall e: nat :: q0 + |Sep| < e < e0 ==> !TailAt(s, e)
    ensures ParseCreatedAt(s) == s[q0 + |Sep|..e0]
  {
    ParseOfFirstMatch(s, Span(0, q0, e0));
  }

  /**
   * The layout the target site renders: "written by <author> at <date>". The author may hold
   * anything but a line terminator (even " at "); a date with no line terminator, no "(" and
   * no "a" (so no " at " inside it) is returned whole.
   */
  lemma ParseWrittenByAt(author: string, date: string)
    requires author != "" && forall k :: 0 <= k < |author| ==> !IsLineTerminator(author[k])
    requires date != "" && forall k :: 0 <= k < |date| ==> !IsLineTerminator(date[k])
    requires 'a' !in date && '(' !in date
    ensures ParseCreatedAt(Lead + author + Sep + date) == date
  {
    var s := Lead + author + Sep + date;
    var q0 := |Lead| + |author|;
    var c := q0 + |Sep|;
    assert s[..|Lead|] == Lead;
    assert s[q0..c] == Sep;
    assert s[c..] == date;
    assert forall k :: |Lead| <= k < q0 ==> s[k] == author[k - |Lead|];
    assert forall k :: c <= k < |s| ==> s[k] == date[k - c];
    forall e: nat | c < e < |s| ensures !TailAt(s, e) {
      NoParenNoParenAhead(s, e);
    }
    NoLaterSep(s, q0);
    ParseOfLayout(s, q0, |s|);
  }

  /** The fixture of the tests: "written by テスト著者 at 2025-01-01 12:00:00" gives the timestamp. */
  lemma ParseTestFixture()
    ensures ParseCreatedAt("written by テスト著者 at 2025-01-01 12:00:00") == "2025-01-01 12:00:00"
  {
    assert "written by テスト著者 at 2025-01-01 12:00:00" == Lead + "テスト著者" + Sep + "2025-01-01 12:00:00";
    ParseWrittenByAt("テスト著者", "2025-01-01 12:00:00");
  }

  /** `.+` is greedy: with two " at "s the group starts after the last one. */
  lemma ParseGreedyLastAt(a: string, b: string, date: string)
    requires a != "" && forall k :: 0 <= k < |a| ==> !IsLineTerminator(a[k])
    requires forall k :: 0 <= k < |b| ==> !IsLineTerminator(b[k])
    requires date != "" && forall k :: 0 <= k < |date| ==> !IsLineTerminator(date[k])
    requires 'a' !in date && '(' !in date
    ensures ParseCreatedAt(Lead + a + Sep + b + Sep + date) == date
  {
    var author := a + Sep + b;
    assert Lead + a + Sep + b + Sep + date == Lead + author + Sep + date;
    forall k | 0 <= k < |author| ensures !IsLineTerminator(author[k]) {
      if k < |a| {
        assert author[k] == a[k];
      } else if k < |a| + |Sep| {
        assert author[k] == Sep[k - |a|];
      } else {
        assert author[k] == b[k - |a| - |Sep|];
      }
    }
    ParseWrittenByAt(author, date);
  }

  /**
   * A trailing parenthetical is dropped: in "written by <author> at <date> (<note>", separated
   * by white space, the lazy group stops before the white space. The date must end in a
   * character that is not white space, and neither the date nor the note may hold an "a".
   */
  lemma ParseDropsParenthetical(author: string, date: string, gap: string, note: string)
    requires author != "" && forall k :: 0 <= k < |author| ==> !IsLineTerminator(author[k])
    requires date != "" && forall k :: 0 <= k < |date| ==> !IsLineTerminator(date[k])
    requires !IsSpace(date[|date| - 1])
    requires 'a' !in date && '(' !in date && 'a' !in note
    requires forall k :: 0 <= k < |gap| ==> IsSpace(gap[k])
    ensures ParseCreatedAt(Lead + author + Sep + date + gap + "(" + note) == date
  {
    var s := Lead + author + Sep + date + gap + "(" + note;
    var q0 := |Lead| + |author|;
    var c := q0 + |Sep|;
    var e0 := c + |date|;
    var lp := e0 + |gap|;
    assert s[..|Lead|] == Lead;
    assert s[q0..c] == Sep;
    assert s[c..e0] == date;
    assert forall k :: |Lead| <= k < q0 ==> s[k] == author[k - |Lead|];
    assert forall k :: c <= k < e0 ==> s[k] == date[k - c];
    assert forall k :: e0 <= k < lp ==> s[k] == gap[k - e0];
    assert s[lp] == '(';
    assert forall k :: lp < k < |s| ==> s[k] == note[k - lp - 1];
    forall k | c <= k < |s| ensures s[k] != 'a' {
      if e0 <= k < lp {
        assert IsSpace(gap[k - e0]);
      }
    }
    ParenAfterSpaces(s, e0, lp);
    forall e: nat | c < e < e0 ensures !TailAt(s, e) {
      NoParenAhead(s, e, e0 - 1);
    }
    NoLaterSep(s, q0);
    ParseOfLayout(s, q0, e0);
  }

  /** With no "written by " in the text at all, `createdAt` is "". */
  lemma ParseWithoutLead(s: string)
    requires forall p: nat :: !LeadAt(s, p)
    ensures ParseCreatedAt(s) == ""
  {
  }
}
