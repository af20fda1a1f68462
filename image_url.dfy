/**
 * `optimizeImage` (src/lib/utils.ts): rewrites a storage URL so that the
 * image is served as WebP, resized to cover, optionally at a given width.
 */
module ImageUrl {
  import opened Wrappers
  import opened Decimal

  predicate StartsWith(s: string, prefix: string) {
    |prefix| <= |s| && s[..|prefix|] == prefix
  }

  /** `s.split(c)`: the pieces between the occurrences of `c`. */
  function SplitOn(s: string, c: char): (ps: seq<string>)
    ensures |ps| > 0
  {
    if s == [] then [[]]
    else
      var rest := SplitOn(s[1..], c);
      if s[0] == c then [[]] + rest else [[s[0]] + rest[0]] + rest[1..]
  }

  /** `ps.join(c)`. */
  function JoinWith(ps: seq<string>, c: char): string
    requires |ps| > 0
  {
    if |ps| == 1 then ps[0] else ps[0] + [c] + JoinWith(ps[1..], c)
  }

  /** A piece free of `c` is read back whole, up to the first `c` that follows it. */
  lemma {:induction false} SplitPiece(p: string, c: char, tail: Option<string>)
    requires c !in p
    ensures tail.None? ==> SplitOn(p, c) == [p]
    ensures tail.Some? ==> SplitOn(p + [c] + tail.value, c) == [p] + SplitOn(tail.value, c)
  {
    if p != [] {
      assert [p[0]] + p[1..] == p;
      SplitPiece(p[1..], c, tail);
      if tail.Some? {
        assert (p + [c] + tail.value)[1..] == p[1..] + [c] + tail.value;
      }
    } else if tail.Some? {
      assert ([c] + tail.value)[1..] == tail.value;
    }
  }

  /** Splitting undoes joining, as long as no piece contains the separator. */
  lemma {:induction false} SplitJoin(ps: seq<string>, c: char)
    requires |ps| > 0 && forall i :: 0 <= i < |ps| ==> c !in ps[i]
    ensures SplitOn(JoinWith(ps, c), c) == ps
  {
    if |ps| == 1 {
      SplitPiece(ps[0], c, None);
    } else {
      SplitJoin(ps[1..], c);
      SplitPiece(ps[0], c, Some(JoinWith(ps[1..], c)));
    }
  }

  lemma {:induction false} JoinAppend(ps: seq<string>, x: string, c: char)
    requires |ps| > 0
    ensures JoinWith(ps + [x], c) == JoinWith(ps, c) + [c] + x
  {
    if |ps| > 1 {
      assert (ps + [x])[1..] == ps[1..] + [x];
      JoinAppend(ps[1..], x, c);
    }
  }

  /** A width given and not 0: JavaScript's truthiness of `width?: number`. */
  predicate Truthy(width: Option<int>) {
    width.Some? && width.value != 0
  }

  /** The query parameters the rewrite adds, in order. */
  function Params(width: Option<int>): seq<string> {
    ["format=webp", "resize=cover"] + if Truthy(width) then ["width=" + IntToString(width.value)] else []
  }

  lemma NoAmpersandInNumber(n: int)
    ensures '&' !in "width=" + IntToString(n)
  {
    var s := IntToString(n);
    if n >= 0 {
      assert forall i :: 0 <= i < |s| ==> IsDigit(s[i]);
    } else {
      assert s == "-" + NatToString(-n);
      assert forall i :: 1 <= i < |s| ==> s[i] == NatToString(-n)[i - 1];
    }
    assert forall i :: 0 <= i < |s| ==> s[i] != '&';
  }

  function OptimizeImage(url: string, width: Option<int>): (r: string)
    ensures url == [] ==> r == []
    ensures url != [] && (StartsWith(url, "data:") || StartsWith(url, "blob:")) ==> r == url
    ensures url != [] && !StartsWith(url, "data:") && !StartsWith(url, "blob:") ==>
      && |r| > |url| && r[..|url|] == url
      && r[|url|] == (if '?' in url then '&' else '?')
      && SplitOn(r[|url| + 1..], '&') == Params(width)
  {
    if url == [] then []
    else if StartsWith(url, "data:") || StartsWith(url, "blob:") then url
    else
      var separator := if '?' in url then '&' else '?';
      var params := "format=webp&resize=cover";
      var params' := if Truthy(width) then params + "&width=" + IntToString(width.value) else params;
      QueryOf(width, params');
      Appended(url, separator, params');
      url + [separator] + params'
  }

  lemma Appended(url: string, separator: char, params: string)
    ensures var r := url + [separator] + params;
      |r| > |url| && r[..|url|] == url && r[|url|] == separator && r[|url| + 1..] == params
  {
  }

  /** The fixed part of the query, a join of two pieces free of `&`. */
  lemma FixedParams()
    ensures JoinWith(["format=webp", "resize=cover"], '&') == "format=webp&resize=cover"
    ensures forall i :: 0 <= i < 2 ==> '&' !in ["format=webp", "resize=cover"][i]
  {
  }

  /** Appending `&x` to a join of `&`-free pieces adds `x` as one more piece. */
  lemma JoinedQuery(base: seq<string>, fixed: string, x: Option<string>, params': string)
    requires |base| > 0 && JoinWith(base, '&') == fixed
    requires forall i :: 0 <= i < |base| ==> '&' !in base[i]
    requires x.Some? ==> '&' !in x.value
    requires params' == fixed + if x.Some? then "&" + x.value else ""
    ensures SplitOn(params', '&') == base + if x.Some? then [x.value] else []
  {
    if x.Some? {
      JoinAppend(base, x.value, '&');
      assert params' == JoinWith(base + [x.value], '&');
      SplitJoin(base + [x.value], '&');
    } else {
      assert params' == fixed;
      SplitJoin(base, '&');
    }
  }

  /** The parameter text built by the rewrite splits into `Params(width)`. */
  lemma QueryOf(width: Option<int>, params': string)
    requires params' == "format=webp&resize=cover"
      + if Truthy(width) then "&width=" + IntToString(width.value) else ""
    ensures SplitOn(params', '&') == Params(width)
  {
    FixedParams();
    var x: Option<string> := if Truthy(width) then Some("width=" + IntToString(width.value)) else None;
    if Truthy(width) {
      NoAmpersandInNumber(width.value);
    }
    JoinedQuery(["format=webp", "resize=cover"], "format=webp&resize=cover", x, params');
  }

  /** A rewritten URL carries a query, so rewriting it again appends with `&`. */
  lemma RewrittenHasQuery(url: string, width: Option<int>)
    requires url != [] && !StartsWith(url, "data:") && !StartsWith(url, "blob:")
    ensures var r := OptimizeImage(url, width);
      '?' in r && r[|r| - 1] != '?'
  {
    var r := OptimizeImage(url, width);
    if '?' !in url {
      assert r[|url|] == '?';
    } else {
      var k :| 0 <= k < |url| && url[k] == '?';
      assert r[k] == '?';
    }
    var ps := Params(width);
    var tail := r[|url| + 1..];
    assert SplitOn(tail, '&') == ps;
    LastPieceEnds(tail, '&');
    assert ps[|ps| - 1] != [];
  }

  /** A string whose last piece is non-empty ends in that piece's last character. */
  lemma {:induction false} LastPieceEnds(s: string, c: char)
    ensures var ps := SplitOn(s, c);
      ps[|ps| - 1] != [] ==> s != [] && s[|s| - 1] == ps[|ps| - 1][|ps[|ps| - 1]| - 1]
  {
    if s != [] {
      LastPieceEnds(s[1..], c);
    }
  }
}
