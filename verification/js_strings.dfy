/**
 * The pieces of JavaScript string semantics the functions rely on:
 * truthiness of a string, `String.prototype.trim`, `String.prototype.split`
 * with the separator "\r\n", and the line terminators a regular expression's
 * `.` refuses to match. Strings are sequences of characters; the UTF-16
 * representation makes no difference to any of these operations.
 */
module JsStrings {
  import opened Wrappers

  /** A string that is present and non-empty: the truthy ones. */
  predicate Truthy(s: Option<string>) {
    s.Some? && s.value != ""
  }

  /** LineTerminator of ECMA-262 (section 12.3): LF, CR, LINE SEPARATOR, PARAGRAPH SEPARATOR. */
  predicate IsLineTerminator(c: char) {
    var n := c as int;
    n == 0x0A || n == 0x0D || n == 0x2028 || n == 0x2029
  }

  /**
   * The characters `trim` removes: WhiteSpace (section 12.2 of ECMA-262,
   * which takes in every space separator of Unicode category Zs) and
   * LineTerminator.
   */
  predicate IsTrimmable(c: char) {
    var n := c as int;
    || IsLineTerminator(c)
    || n == 0x09 || n == 0x0B || n == 0x0C || n == 0x20 || n == 0xA0 || n == 0xFEFF
    || n == 0x1680 || (0x2000 <= n <= 0x200A) || n == 0x202F || n == 0x205F || n == 0x3000
  }

  /** Every character of `s[i..j]` is trimmable. */
  predicate AllTrimmable(s: string, i: nat, j: nat)
    requires i <= j <= |s|
  {
    forall m :: i <= m < j ==> IsTrimmable(s[m])
  }

  /** Neither end of `s` is trimmable, so `trim` leaves it alone. */
  predicate IsTrimmed(s: string) {
    s == [] || (!IsTrimmable(s[0]) && !IsTrimmable(s[|s| - 1]))
  }

  /** The first index at or after `i` that is not trimmable, or |s|. */
  function LeadingEnd(s: string, i: nat): (k: nat)
    requires i <= |s|
    requires AllTrimmable(s, 0, i)
    ensures i <= k <= |s|
    ensures AllTrimmable(s, 0, k)
    ensures k < |s| ==> !IsTrimmable(s[k])
    decreases |s| - i
  {
    if i < |s| && IsTrimmable(s[i]) then LeadingEnd(s, i + 1) else i
  }

  /** The smallest `k` in `lo..j` such that everything from `k` on is trimmable. */
  function TrailingStart(s: string, lo: nat, j: nat): (k: nat)
    requires lo <= j <= |s|
    requires AllTrimmable(s, j, |s|)
    ensures lo <= k <= j
    ensures AllTrimmable(s, k, |s|)
    ensures lo < k ==> !IsTrimmable(s[k - 1])
    decreases j
  {
    if lo < j && IsTrimmable(s[j - 1]) then TrailingStart(s, lo, j - 1) else j
  }

  /**
   * The bounds `trim` keeps: a prefix and a suffix of trimmable characters
   * are cut, and the part kept starts and ends with a non-trimmable one.
   */
  function TrimBounds(s: string): (b: (nat, nat))
    ensures b.0 <= b.1 <= |s|
    ensures AllTrimmable(s, 0, b.0)
    ensures AllTrimmable(s, b.1, |s|)
    ensures b.0 < b.1 ==> !IsTrimmable(s[b.0]) && !IsTrimmable(s[b.1 - 1])
  {
    var a := LeadingEnd(s, 0);
    (a, TrailingStart(s, a, |s|))
  }

  /** `String.prototype.trim`. */
  function Trim(s: string): (t: string)
    ensures |t| <= |s|
    ensures IsTrimmed(t)
    ensures t == [] <==> AllTrimmable(s, 0, |s|)
    ensures IsTrimmed(s) ==> t == s
  {
    var b := TrimBounds(s);
    s[b.0..b.1]
  }

  /** Trimming a trimmed string changes nothing. */
  lemma TrimIdempotent(s: string)
    ensures Trim(Trim(s)) == Trim(s)
  {
  }

  /** `s[m..m+2]` is the separator "\r\n". */
  predicate CrlfAt(s: string, m: int) {
    0 <= m && m + 1 < |s| && s[m] == '\r' && s[m + 1] == '\n'
  }

  /** No "\r\n" occurs anywhere in `s`. */
  predicate NoCrlf(s: string) {
    forall m :: 0 <= m < |s| ==> !CrlfAt(s, m)
  }

  /** `Array.prototype.join("\r\n")`: the parts with one separator between neighbours. */
  function JoinCrlf(parts: seq<string>): string {
    if |parts| == 0 then ""
    else if |parts| == 1 then parts[0]
    else parts[0] + "\r\n" + JoinCrlf(parts[1..])
  }

  lemma JoinCrlfCons(x: string, rest: seq<string>)
    requires rest != []
    ensures JoinCrlf([x] + rest) == x + "\r\n" + JoinCrlf(rest)
  {
    assert ([x] + rest)[1..] == rest;
  }

  /**
   * The scan of `split`: the current part started at `p`, no separator
   * starts in `p..q`, and `q` is the next position to test.
   */
  function SplitFrom(s: string, p: nat, q: nat): (parts: seq<string>)
    requires p <= q <= |s|
    requires forall m :: p <= m < q ==> !CrlfAt(s, m)
    ensures |parts| >= 1
    ensures JoinCrlf(parts) == s[p..]
    ensures forall k :: 0 <= k < |parts| ==> NoCrlf(parts[k])
    decreases |s| - q
  {
    if CrlfAt(s, q) then
      var rest := SplitFrom(s, q + 2, q + 2);
      JoinCrlfCons(s[p..q], rest);
      assert s[p..q] + "\r\n" + s[q + 2..] == s[p..];
      assert NoCrlf(s[p..q]) by {
        forall m | 0 <= m < q - p
          ensures !CrlfAt(s[p..q], m)
        {
          assert !CrlfAt(s, p + m);
        }
      }
      [s[p..q]] + rest
    else if q < |s| then
      SplitFrom(s, p, q + 1)
    else
      assert NoCrlf(s[p..]) by {
        forall m | 0 <= m < |s| - p
          ensures !CrlfAt(s[p..], m)
        {
          assert !CrlfAt(s, p + m);
        }
      }
      [s[p..]]
  }

  /**
   * `s.split("\r\n")`. The parts join back to `s`, and none of them holds
   * the separator; `SplitJoin` shows these two facts pin the result down.
   */
  function SplitCrlf(s: string): (parts: seq<string>)
    ensures |parts| >= 1
    ensures JoinCrlf(parts) == s
    ensures forall k :: 0 <= k < |parts| ==> NoCrlf(parts[k])
  {
    SplitFrom(s, 0, 0)
  }

  lemma {:induction false} SplitFromJoin(s: string, p: nat, q: nat, parts: seq<string>)
    requires p <= q <= |s|
    requires forall m :: p <= m < q ==> !CrlfAt(s, m)
    requires |parts| >= 1
    requires forall k :: 0 <= k < |parts| ==> NoCrlf(parts[k])
    requires s[p..] == JoinCrlf(parts)
    requires q - p <= |parts[0]|
    ensures SplitFrom(s, p, q) == parts
    decreases |s| - q
  {
    var x := parts[0];
    if |parts| > 1 {
      JoinCrlfCons(x, parts[1..]);
      assert [x] + parts[1..] == parts;
    }
    assert s[p..p + |x|] == x;
    if q - p < |x| {
      assert s[q] == x[q - p];
      if q + 1 < p + |x| {
        assert s[q + 1] == x[q - p + 1];
        assert !CrlfAt(x, q - p);
      } else if |parts| > 1 {
        assert s[q + 1] == '\r';
      }
      assert !CrlfAt(s, q);
      SplitFromJoin(s, p, q + 1, parts);
    } else if |parts| == 1 {
      assert q == |s|;
    } else {
      assert CrlfAt(s, q);
      assert s[q + 2..] == JoinCrlf(parts[1..]);
      SplitFromJoin(s, q + 2, q + 2, parts[1..]);
    }
  }

  /**
   * Splitting inverts joining: any non-empty list of parts free of "\r\n"
   * is exactly what `split` returns for their join.
   */
  lemma {:induction false} SplitJoin(parts: seq<string>)
    requires |parts| >= 1
    requires forall k :: 0 <= k < |parts| ==> NoCrlf(parts[k])
    ensures SplitCrlf(JoinCrlf(parts)) == parts
  {
    SplitFromJoin(JoinCrlf(parts), 0, 0, parts);
  }
}
