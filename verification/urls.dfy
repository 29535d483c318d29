/**
 * `findURLs`: the lines of an inbound message body that parse as URLs.
 * Whether a string parses (`new URL(s)` not throwing) is the parameter
 * `valid`; the WHATWG URL parser itself is outside the model.
 */
module Urls {
  import opened Wrappers
  import opened JsStrings

  /** `a` is `b` with some elements left out, the rest kept in order. */
  predicate IsSubsequence<T(==)>(a: seq<T>, b: seq<T>)
    decreases |b|
  {
    if a == [] then true
    else if b == [] then false
    else if a[0] == b[0] then IsSubsequence(a[1..], b[1..])
    else IsSubsequence(a, b[1..])
  }

  /** The elements of `xs` that `valid` accepts, in order, duplicates kept. */
  function KeepValid(xs: seq<string>, valid: string -> bool): (ys: seq<string>)
    ensures |ys| <= |xs|
    ensures forall k :: 0 <= k < |ys| ==> valid(ys[k])
    ensures multiset(ys) <= multiset(xs)
  {
    assert xs != [] ==> xs == [xs[0]] + xs[1..];
    if xs == [] then []
    else if valid(xs[0]) then [xs[0]] + KeepValid(xs[1..], valid)
    else KeepValid(xs[1..], valid)
  }

  /** Filtering keeps the survivors in their original order. */
  lemma {:induction false} KeepValidIsSubsequence(xs: seq<string>, valid: string -> bool)
    ensures IsSubsequence(KeepValid(xs, valid), xs)
    decreases |xs|
  {
    if xs != [] {
      KeepValidIsSubsequence(xs[1..], valid);
      var ys := KeepValid(xs, valid);
      if valid(xs[0]) {
        assert ys[0] == xs[0] && ys[1..] == KeepValid(xs[1..], valid);
      } else if ys != [] {
        SubsequenceDropHead(ys, xs);
      }
    }
  }

  lemma {:induction false} SubsequenceDropHead(ys: seq<string>, xs: seq<string>)
    requires xs != []
    requires IsSubsequence(ys, xs[1..])
    ensures IsSubsequence(ys, xs)
    decreases |xs|, 0
  {
    if ys != [] && ys[0] == xs[0] {
      // The greedy match pairs the heads; the tail still embeds.
      SubsequenceTail(ys, xs[1..]);
    }
  }

  lemma {:induction false} SubsequenceTail(ys: seq<string>, xs: seq<string>)
    requires ys != []
    requires IsSubsequence(ys, xs)
    ensures IsSubsequence(ys[1..], xs)
    decreases |xs|, 1
  {
    if xs != [] && ys[0] != xs[0] {
      SubsequenceTail(ys, xs[1..]);
      SubsequenceDropHead(ys[1..], xs);
    } else if xs != [] && ys[1..] != [] {
      SubsequenceDropHead(ys[1..], xs);
    }
  }

  /** Filtering keeps every copy of an accepted string and no copy of a rejected one. */
  lemma {:induction false} KeepValidCounts(xs: seq<string>, valid: string -> bool, x: string)
    ensures multiset(KeepValid(xs, valid))[x] == (if valid(x) then multiset(xs)[x] else 0)
    decreases |xs|
  {
    if xs != [] {
      KeepValidCounts(xs[1..], valid, x);
      assert xs == [xs[0]] + xs[1..];
      assert multiset(xs) == multiset{xs[0]} + multiset(xs[1..]);
    }
  }

  lemma {:induction false} KeepValidSnoc(xs: seq<string>, x: string, valid: string -> bool)
    ensures KeepValid(xs + [x], valid) == KeepValid(xs, valid) + (if valid(x) then [x] else [])
    decreases |xs|
  {
    if xs == [] {
      assert [x][1..] == [];
    } else {
      var ys := xs + [x];
      assert ys[0] == xs[0];
      assert ys[1..] == xs[1..] + [x];
      KeepValidSnoc(xs[1..], x, valid);
    }
  }

  /** Each line of the body with surrounding whitespace removed. */
  function TrimmedLines(text: string): (lines: seq<string>)
    ensures |lines| == |SplitCrlf(text)|
    ensures forall k :: 0 <= k < |lines| ==> lines[k] == Trim(SplitCrlf(text)[k])
  {
    var parts := SplitCrlf(text);
    seq(|parts|, k requires 0 <= k < |parts| => Trim(parts[k]))
  }

  /**
   * `findURLs`: nothing for a missing or empty body; otherwise the trimmed
   * lines that are valid URLs. `FindUrlsFilters` gives the rest of its meaning.
   */
  function FindUrls(text: Option<string>, valid: string -> bool): (urls: seq<string>)
    ensures !Truthy(text) ==> urls == []
    ensures forall k :: 0 <= k < |urls| ==> valid(urls[k])
  {
    if Truthy(text) then KeepValid(TrimmedLines(text.value), valid) else []
  }

  /**
   * The URLs of a non-empty body are its trimmed lines in line order with
   * the invalid ones dropped: every valid line is kept as often as it
   * occurs, and no invalid one is kept at all.
   */
  lemma {:induction false} FindUrlsFilters(text: string, valid: string -> bool)
    requires text != ""
    ensures IsSubsequence(FindUrls(Some(text), valid), TrimmedLines(text))
    ensures forall x :: multiset(FindUrls(Some(text), valid))[x] ==
                        (if valid(x) then multiset(TrimmedLines(text))[x] else 0)
  {
    var lines := TrimmedLines(text);
    KeepValidIsSubsequence(lines, valid);
    forall x
      ensures multiset(KeepValid(lines, valid))[x] == (if valid(x) then multiset(lines)[x] else 0)
    {
      KeepValidCounts(lines, valid, x);
    }
  }

  /** The loop of `findURLs`, line by line, agreeing with `FindUrls`. */
  method CollectUrls(text: Option<string>, valid: string -> bool) returns (urls: seq<string>)
    ensures urls == FindUrls(text, valid)
  {
    urls := [];
    if text.Some? && text.value != "" {
      var lines := SplitCrlf(text.value);
      ghost var trimmed := TrimmedLines(text.value);
      for i := 0 to |lines|
        invariant urls == KeepValid(trimmed[..i], valid)
      {
        var url := Trim(lines[i]);
        assert trimmed[i] == url;
        assert trimmed[..i + 1] == trimmed[..i] + [url];
        KeepValidSnoc(trimmed[..i], url, valid);
        if valid(url) {
          urls := urls + [url];
        }
      }
      assert trimmed[..|lines|] == trimmed;
    }
  }

  /** A line with no carriage return holds no separator. */
  lemma NoCrNoCrlf(s: string)
    requires '\r' !in s
    ensures NoCrlf(s)
  {
  }

  /** Lines that need no trimming and hold no separator come back from the body unchanged. */
  lemma {:induction false} TrimmedLinesOfJoin(parts: seq<string>)
    requires |parts| >= 1
    requires forall k :: 0 <= k < |parts| ==> NoCrlf(parts[k]) && IsTrimmed(parts[k])
    ensures TrimmedLines(JoinCrlf(parts)) == parts
  {
    SplitJoin(parts);
  }

  lemma JoinThree(a: string, n: string, b: string)
    ensures JoinCrlf([a, n, b]) == a + "\r\n" + n + "\r\n" + b
  {
    JoinCrlfCons(n, [b]);
    JoinCrlfCons(a, [n, b]);
    assert [a] + [n, b] == [a, n, b] && [n] + [b] == [n, b];
    assert JoinCrlf([b]) == b;
  }

  lemma KeepValidThree(a: string, n: string, b: string, valid: string -> bool)
    requires valid(a) && !valid(n) && valid(b)
    ensures KeepValid([a, n, b], valid) == [a, b]
  {
    assert [b][1..] == [];
    assert KeepValid([b], valid) == [b];
    assert [n, b][1..] == [b];
    assert KeepValid([n, b], valid) == [b];
    assert [a, n, b][1..] == [n, b];
  }

  /** Of three clean lines, the middle one invalid, the outer two are returned in order. */
  lemma ThreeLines(a: string, n: string, b: string, valid: string -> bool)
    requires '\r' !in a && '\r' !in n && '\r' !in b
    requires IsTrimmed(a) && IsTrimmed(n) && IsTrimmed(b)
    requires valid(a) && !valid(n) && valid(b)
    ensures FindUrls(Some(a + "\r\n" + n + "\r\n" + b), valid) == [a, b]
  {
    var parts := [a, n, b];
    JoinThree(a, n, b);
    NoCrNoCrlf(a);
    NoCrNoCrlf(n);
    NoCrNoCrlf(b);
    TrimmedLinesOfJoin(parts);
    KeepValidThree(a, n, b, valid);
  }

  /** The body of a three-line message: the middle line is dropped, the URLs kept in order. */
  lemma {:induction false} ExampleBody(body: string, valid: string -> bool)
    requires body == "https://a.example" + "\r\n" + "not a url" + "\r\n" + "https://b.example"
    requires valid("https://a.example") && valid("https://b.example")
    requires !valid("not a url")
    ensures FindUrls(Some(body), valid) == ["https://a.example", "https://b.example"]
  {
    ThreeLines("https://a.example", "not a url", "https://b.example", valid);
  }
}
