/**
 * `htmlToTitle`: the first match of the case-insensitive regular
 * expression `<title(?: .*)?>(.*?)</title>` and its captured group.
 *
 * `MatchSpan` states declaratively which (tag, content) positions the
 * pattern can match and `IsFirstMatch` which of them the backtracking
 * engine reports; `FirstMatch` is an executable search proved to find
 * exactly that one.
 */
module Title {
  import opened Wrappers
  import opened JsStrings

  const OpenTag := "<title"
  const CloseTag := "</title>"
  /** Length of `<title`, the offset of the character after it. */
  const OpenLen := |OpenTag|

  /**
   * Case folding for the pattern's literals. Under the `i` flag without
   * `u`, ECMA-262 canonicalises by upper-casing but never maps a non-ASCII
   * character to an ASCII one, so an input character matches an ASCII
   * literal exactly when it is that literal in either ASCII case.
   */
  function Upper(c: char): char {
    if 'a' <= c <= 'z' then (c as int - 32) as char else c
  }

  /** The literal `lit` occurs at index `i` of `s`, ignoring ASCII case. */
  predicate LiteralAt(s: string, i: int, lit: string) {
    0 <= i && i + |lit| <= |s| && forall k :: 0 <= k < |lit| ==> Upper(s[i + k]) == Upper(lit[k])
  }

  /** `.` (no `s` flag) matches every character of `s[i..j]`. */
  predicate OnOneLine(s: string, i: int, j: int) {
    forall k :: i <= k < j && 0 <= k < |s| ==> !IsLineTerminator(s[k])
  }

  /** `<title(?: .*)?>` matches `s[p..c]` exactly; `c == p + OpenLen + 1` is the form without the group. */
  predicate OpensAt(s: string, p: int, c: int) {
    && LiteralAt(s, p, OpenTag)
    && p + OpenLen + 1 <= c <= |s|
    && s[c - 1] == '>'
    && (c == p + OpenLen + 1 || (s[p + OpenLen] == ' ' && OnOneLine(s, p + OpenLen + 1, c - 1)))
  }

  /** `(.*?)</title>` matches from `c`, with the group capturing `s[c..e]`. */
  predicate ClosesAt(s: string, c: int, e: int) {
    0 <= c <= e && LiteralAt(s, e, CloseTag) && OnOneLine(s, c, e)
  }

  /** The whole pattern matches at `p`, capturing `s[c..e]`. */
  predicate MatchSpan(s: string, p: int, c: int, e: int) {
    OpensAt(s, p, c) && ClosesAt(s, c, e)
  }

  /**
   * The match the engine reports: the leftmost start; there the greedy
   * ` .*` prefers the longest header, and the group is tried before the
   * bare `>` (whose header is the shortest of all); then the lazy `.*?`
   * prefers the shortest content.
   */
  ghost predicate IsFirstMatch(s: string, p: int, c: int, e: int) {
    && MatchSpan(s, p, c, e)
    && (forall p', c', e' :: MatchSpan(s, p', c', e') ==> p <= p')
    && (forall c', e' :: MatchSpan(s, p, c', e') ==> c' <= c)
    && (forall e' :: MatchSpan(s, p, c, e') ==> e <= e')
  }

  /** The end of the line starting at `i`: the first line terminator at or after `i`, or |s|. */
  function LineEnd(s: string, i: nat): (k: nat)
    requires i <= |s|
    ensures i <= k <= |s|
    ensures OnOneLine(s, i, k)
    ensures k < |s| ==> IsLineTerminator(s[k])
    decreases |s| - i
  {
    if i < |s| && !IsLineTerminator(s[i]) then LineEnd(s, i + 1) else i
  }

  /** The lazy `(.*?)</title>` from `c`, having already passed over `c..j`. */
  function CloseFrom(s: string, c: nat, j: nat): (e: Option<nat>)
    requires c <= j <= |s|
    requires OnOneLine(s, c, j)
    requires forall k :: c <= k < j ==> !LiteralAt(s, k, CloseTag)
    ensures e.Some? ==> ClosesAt(s, c, e.value)
    ensures e.Some? ==> forall e' :: ClosesAt(s, c, e') ==> e.value <= e'
    ensures e.None? ==> forall e' :: !ClosesAt(s, c, e')
    decreases |s| - j
  {
    if LiteralAt(s, j, CloseTag) then Some(j)
    else if j < |s| && !IsLineTerminator(s[j]) then CloseFrom(s, c, j + 1)
    else None
  }

  /**
   * The grouped header with ` .*` backtracked to end at `q`, then shorter:
   * returns the header end and the content end of the first success.
   */
  function GroupFrom(s: string, p: nat, q: nat): (m: Option<(nat, nat)>)
    requires LiteralAt(s, p, OpenTag)
    requires p + OpenLen + 1 <= q <= |s|
    requires s[p + OpenLen] == ' '
    requires OnOneLine(s, p + OpenLen + 1, q)
    requires forall c', e' :: q + 1 < c' && MatchSpan(s, p, c', e') ==> false
    ensures m.Some? ==> MatchSpan(s, p, m.value.0, m.value.1) && p + OpenLen + 1 < m.value.0
    ensures m.Some? ==> forall c', e' :: MatchSpan(s, p, c', e') ==> c' <= m.value.0
    ensures m.Some? ==> forall e' :: MatchSpan(s, p, m.value.0, e') ==> m.value.1 <= e'
    ensures m.None? ==> forall c', e' :: p + OpenLen + 1 < c' ==> !MatchSpan(s, p, c', e')
    decreases q
  {
    var here := if q < |s| && s[q] == '>' then CloseFrom(s, q + 1, q + 1) else None;
    if here.Some? then Some((q + 1, here.value))
    else if q == p + OpenLen + 1 then None
    else GroupFrom(s, p, q - 1)
  }

  /** The engine's attempt at start `p`: the span it reports there, if any. */
  function MatchAt(s: string, p: nat): (m: Option<(nat, nat)>)
    requires p <= |s|
    ensures m.Some? ==> MatchSpan(s, p, m.value.0, m.value.1)
    ensures m.Some? ==> forall c', e' :: MatchSpan(s, p, c', e') ==> c' <= m.value.0
    ensures m.Some? ==> forall e' :: MatchSpan(s, p, m.value.0, e') ==> m.value.1 <= e'
    ensures m.None? ==> forall c', e' :: !MatchSpan(s, p, c', e')
  {
    if !LiteralAt(s, p, OpenTag) || p + OpenLen == |s| then None
    else
      var grouped := if s[p + OpenLen] == ' ' then GroupFrom(s, p, LineEnd(s, p + OpenLen + 1)) else None;
      if grouped.Some? then grouped
      else if s[p + OpenLen] == '>' then
        match CloseFrom(s, p + OpenLen + 1, p + OpenLen + 1)
        case Some(e) => Some((p + OpenLen + 1, e))
        case None => None
      else None
  }

  /** Where a match lies: the tag's start and the captured content `s[from..to]`. */
  datatype Span = Span(tag: nat, from: nat, to: nat)

  /** The engine's scan from start position `p` on. */
  function FirstMatchFrom(s: string, p: nat): (m: Option<Span>)
    requires p <= |s|
    requires forall p', c', e' :: p' < p && MatchSpan(s, p', c', e') ==> false
    ensures m.Some? ==> IsFirstMatch(s, m.value.tag, m.value.from, m.value.to)
    ensures m.None? ==> forall p', c', e' :: !MatchSpan(s, p', c', e')
    decreases |s| - p
  {
    match MatchAt(s, p)
    case Some(ce) => Some(Span(p, ce.0, ce.1))
    case None => if p == |s| then None else FirstMatchFrom(s, p + 1)
  }

  /** `html.match(...)`: the match the engine reports, if any. */
  function FirstMatch(s: string): (m: Option<Span>)
    ensures m.Some? ==> IsFirstMatch(s, m.value.tag, m.value.from, m.value.to)
    ensures m.None? ==> forall p, c, e :: !MatchSpan(s, p, c, e)
  {
    FirstMatchFrom(s, 0)
  }

  /**
   * `htmlToTitle`: null for a missing or empty document and for one the
   * pattern does not match; otherwise the group captured by the match the
   * engine reports.
   */
  function HtmlToTitle(html: Option<string>): (title: Option<string>)
    ensures !Truthy(html) ==> title == None
    ensures Truthy(html) && title.None? ==> forall p, c, e :: !MatchSpan(html.value, p, c, e)
    ensures title.Some? ==> exists p, c, e :: IsFirstMatch(html.value, p, c, e) && title.value == html.value[c..e]
  {
    if !Truthy(html) then None
    else
      match FirstMatch(html.value)
      case Some(m) => Some(html.value[m.from..m.to])
      case None => None
  }

  /** Only one span satisfies the engine's preferences. */
  lemma FirstMatchUnique(s: string, p: int, c: int, e: int, p': int, c': int, e': int)
    requires IsFirstMatch(s, p, c, e) && IsFirstMatch(s, p', c', e')
    ensures p == p' && c == c' && e == e'
  {
  }

  /** Conversely, whenever the engine's match is at `c..e`, that is the title returned. */
  lemma TitleOfFirstMatch(s: string, p: int, c: int, e: int)
    requires IsFirstMatch(s, p, c, e)
    ensures HtmlToTitle(Some(s)) == Some(s[c..e])
  {
    var t := HtmlToTitle(Some(s));
    assert t.Some?;
    var p', c', e' :| IsFirstMatch(s, p', c', e') && t.value == s[c'..e'];
    FirstMatchUnique(s, p, c, e, p', c', e');
  }

  /** A literal inside a slice is the same literal in the whole string, shifted. */
  lemma LiteralInSlice(s: string, c: int, e: int, k: int, lit: string)
    requires 0 <= c <= e <= |s|
    requires 0 <= k && k + |lit| <= e - c
    ensures LiteralAt(s[c..e], k, lit) <==> LiteralAt(s, c + k, lit)
  {
  }

  /** No closing tag starts inside the content the lazy group captured. */
  lemma NoCloseInside(s: string, p: int, c: int, e: int, j: int)
    requires MatchSpan(s, p, c, e) && forall e' :: MatchSpan(s, p, c, e') ==> e <= e'
    requires c <= j < e
    ensures !LiteralAt(s, j, CloseTag)
  {
    assert OnOneLine(s, c, j);
    assert !MatchSpan(s, p, c, j);
  }

  /** The captured content holds no line terminator and no closing tag. */
  lemma ContentShape(s: string, p: int, c: int, e: int)
    requires MatchSpan(s, p, c, e) && forall e' :: MatchSpan(s, p, c, e') ==> e <= e'
    ensures forall k :: 0 <= k < e - c ==> !IsLineTerminator(s[c..e][k])
    ensures forall k :: !LiteralAt(s[c..e], k, CloseTag)
  {
    var t := s[c..e];
    forall k | 0 <= k < |t|
      ensures !IsLineTerminator(t[k])
    {
      assert t[k] == s[c + k];
    }
    forall k
      ensures !LiteralAt(t, k, CloseTag)
    {
      if 0 <= k && k + |CloseTag| <= |t| {
        LiteralInSlice(s, c, e, k, CloseTag);
        NoCloseInside(s, p, c, e, c + k);
      }
    }
  }

  /**
   * A returned title lies on one line and never contains `</title>` in
   * any case: the lazy group stops at the first closing tag.
   */
  lemma TitleShape(html: Option<string>)
    requires HtmlToTitle(html).Some?
    ensures var t := HtmlToTitle(html).value;
      && (forall k :: 0 <= k < |t| ==> !IsLineTerminator(t[k]))
      && (forall k :: !LiteralAt(t, k, CloseTag))
  {
    var s := html.value;
    var p, c, e :| IsFirstMatch(s, p, c, e) && HtmlToTitle(html).value == s[c..e];
    ContentShape(s, p, c, e);
  }

  lemma HelloCloses(e': int)
    requires ClosesAt("<title>Hello</title>", 7, e')
    ensures e' == 12
  {
    var s := "<title>Hello</title>";
    assert Upper(s[e' + 0]) == Upper(CloseTag[0]) == '<';
  }

  lemma HelloIsFirstMatch()
    ensures IsFirstMatch("<title>Hello</title>", 0, 7, 12)
  {
    var s := "<title>Hello</title>";
    assert LiteralAt(s, 0, OpenTag);
    assert LiteralAt(s, 12, CloseTag);
    assert MatchSpan(s, 0, 7, 12);
    forall e' | MatchSpan(s, 0, 7, e')
      ensures 12 <= e'
    {
      HelloCloses(e');
    }
  }

  lemma HelloContent(html: string)
    requires html == "<title>Hello</title>"
    ensures html[7..12] == "Hello"
  {
  }

  /** A page whose only markup is `<title>Hello</title>` is titled `Hello`. */
  lemma HelloTitle(html: string)
    requires html == "<title>Hello</title>"
    ensures HtmlToTitle(Some(html)) == Some("Hello")
  {
    HelloIsFirstMatch();
    TitleOfFirstMatch(html, 0, 7, 12);
    HelloContent(html);
  }

  lemma AttributeHeaders(c': int, e': int)
    requires MatchSpan("<title a>x>y</title>", 0, c', e')
    ensures c' <= 11
  {
    var s := "<title a>x>y</title>";
    assert Upper(s[e' + 0]) == Upper(CloseTag[0]) == '<';
    assert e' == 12;
  }

  lemma AttributeCloses(e': int)
    requires ClosesAt("<title a>x>y</title>", 11, e')
    ensures e' == 12
  {
    var s := "<title a>x>y</title>";
    assert Upper(s[e' + 0]) == Upper(CloseTag[0]) == '<';
  }

  lemma AttributeIsFirstMatch()
    ensures IsFirstMatch("<title a>x>y</title>", 0, 11, 12)
  {
    var s := "<title a>x>y</title>";
    assert LiteralAt(s, 0, OpenTag);
    assert LiteralAt(s, 12, CloseTag);
    assert OnOneLine(s, 7, 10);
    assert MatchSpan(s, 0, 11, 12);
    forall c', e' | MatchSpan(s, 0, c', e')
      ensures c' <= 11
    {
      AttributeHeaders(c', e');
    }
    forall e' | MatchSpan(s, 0, 11, e')
      ensures 12 <= e'
    {
      AttributeCloses(e');
    }
  }

  lemma AttributeContent(html: string)
    requires html == "<title a>x>y</title>"
    ensures html[11..12] == "y"
  {
  }

  /**
   * The greedy ` .*` makes the header run to the last `>` that still
   * leaves a closing tag: `<title a>x>y</title>` is titled `y`, not `x>y`.
   */
  lemma AttributeTitle(html: string)
    requires html == "<title a>x>y</title>"
    ensures HtmlToTitle(Some(html)) == Some("y")
  {
    AttributeIsFirstMatch();
    TitleOfFirstMatch(html, 0, 11, 12);
    AttributeContent(html);
  }
}
