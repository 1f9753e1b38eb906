/**
 * `application/x-www-form-urlencoded` query strings, as Ruby's
 * `URI.encode_www_form` writes them for keys and values made only of the
 * characters that its component encoding leaves unchanged, and a decoder that
 * reads such a query back into its ordered list of pairs.
 */
module Forms {

  /** The characters `URI.encode_www_form_component` copies verbatim: `*-.0-9A-Z_a-z`. */
  predicate IsUnreservedChar(c: char)
  {
    ('a' <= c <= 'z') || ('A' <= c <= 'Z') || ('0' <= c <= '9') ||
    c == '*' || c == '-' || c == '.' || c == '_'
  }

  predicate IsUnreserved(s: string)
  {
    forall i :: 0 <= i < |s| ==> IsUnreservedChar(s[i])
  }

  predicate IsUnreservedPair(kv: (string, string))
  {
    IsUnreserved(kv.0) && IsUnreserved(kv.1)
  }

  function EncodePair(kv: (string, string)): string
  {
    kv.0 + "=" + kv.1
  }

  /** `k1=v1&k2=v2&...`, pairs in the order given; the empty list gives the empty query. */
  function EncodeForm(params: seq<(string, string)>): string
    decreases |params|
  {
    if |params| == 0 then ""
    else if |params| == 1 then EncodePair(params[0])
    else EncodePair(params[0]) + "&" + EncodeForm(params[1..])
  }

  lemma EncodeFormCons(kv: (string, string), rest: seq<(string, string)>)
    requires |rest| >= 1
    ensures EncodeForm([kv] + rest) == EncodePair(kv) + "&" + EncodeForm(rest)
  {
  }

  /** The pieces of `s` between occurrences of `sep`; always at least one piece. */
  function SplitOn(s: string, sep: char): (parts: seq<string>)
    ensures |parts| >= 1
    decreases |s|
  {
    if s == [] then [""]
    else
      var rest := SplitOn(s[1..], sep);
      if s[0] == sep then [""] + rest else [[s[0]] + rest[0]] + rest[1..]
  }

  /** `s` cut at its first `sep` into the text before and the text after; `(s, "")` if none. */
  function BreakAt(s: string, sep: char): (string, string)
    decreases |s|
  {
    if s == [] then ("", "")
    else if s[0] == sep then ("", s[1..])
    else
      var (before, after) := BreakAt(s[1..], sep);
      ([s[0]] + before, after)
  }

  function DecodePairs(items: seq<string>): (r: seq<(string, string)>)
    ensures |r| == |items|
    decreases |items|
  {
    if items == [] then [] else [BreakAt(items[0], '=')] + DecodePairs(items[1..])
  }

  /** The ordered key/value pairs of a query string. */
  function DecodeForm(query: string): seq<(string, string)>
  {
    if query == "" then [] else DecodePairs(SplitOn(query, '&'))
  }

  lemma {:induction false} SplitOnPiece(a: string, b: string, sep: char)
    requires sep !in a
    ensures SplitOn(a + [sep] + b, sep) == [a] + SplitOn(b, sep)
    decreases |a|
  {
    if a == [] {
      assert a + [sep] + b == [sep] + b;
      assert ([sep] + b)[1..] == b;
    } else {
      var s := a + [sep] + b;
      assert s[0] == a[0] && s[1..] == a[1..] + [sep] + b;
      SplitOnPiece(a[1..], b, sep);
      assert [a[0]] + a[1..] == a;
    }
  }

  lemma {:induction false} SplitOnWhole(a: string, sep: char)
    requires sep !in a
    ensures SplitOn(a, sep) == [a]
    decreases |a|
  {
    if a != [] {
      SplitOnWhole(a[1..], sep);
      assert [a[0]] + a[1..] == a;
    }
  }

  lemma {:induction false} BreakAtFirst(a: string, b: string, sep: char)
    requires sep !in a
    ensures BreakAt(a + [sep] + b, sep) == (a, b)
    decreases |a|
  {
    var s := a + [sep] + b;
    if a == [] {
      assert s == [sep] + b && s[1..] == b;
    } else {
      assert s[0] == a[0] && s[1..] == a[1..] + [sep] + b;
      BreakAtFirst(a[1..], b, sep);
      assert [a[0]] + a[1..] == a;
    }
  }

  lemma UnreservedAvoids(s: string, c: char)
    requires IsUnreserved(s) && !IsUnreservedChar(c)
    ensures c !in s
  {
  }

  function EncodePairs(params: seq<(string, string)>): (items: seq<string>)
    ensures |items| == |params|
    decreases |params|
  {
    if params == [] then [] else [EncodePair(params[0])] + EncodePairs(params[1..])
  }

  lemma {:induction false} SplitEncodeForm(params: seq<(string, string)>)
    requires |params| >= 1
    requires forall i :: 0 <= i < |params| ==> IsUnreservedPair(params[i])
    ensures SplitOn(EncodeForm(params), '&') == EncodePairs(params)
    decreases |params|
  {
    var first := EncodePair(params[0]);
    UnreservedAvoids(params[0].0, '&');
    UnreservedAvoids(params[0].1, '&');
    assert '&' !in first;
    if |params| == 1 {
      SplitOnWhole(first, '&');
    } else {
      SplitEncodeForm(params[1..]);
      SplitOnPiece(first, EncodeForm(params[1..]), '&');
      assert first + "&" + EncodeForm(params[1..]) == first + ['&'] + EncodeForm(params[1..]);
    }
  }

  lemma {:induction false} DecodeEncodePairs(params: seq<(string, string)>)
    requires forall i :: 0 <= i < |params| ==> IsUnreservedPair(params[i])
    ensures DecodePairs(EncodePairs(params)) == params
    decreases |params|
  {
    if params != [] {
      DecodeEncodePairs(params[1..]);
      UnreservedAvoids(params[0].0, '=');
      BreakAtFirst(params[0].0, params[0].1, '=');
      assert EncodePair(params[0]) == params[0].0 + ['='] + params[0].1;
    }
  }

  /** Decoding an encoded query gives back the same pairs in the same order. */
  lemma DecodeEncodeForm(params: seq<(string, string)>)
    requires forall i :: 0 <= i < |params| ==> IsUnreservedPair(params[i])
    ensures DecodeForm(EncodeForm(params)) == params
  {
    if |params| >= 1 {
      SplitEncodeForm(params);
      DecodeEncodePairs(params);
      assert |EncodeForm(params)| > 0 by {
        if |params| > 1 { assert |EncodePair(params[0]) + "&" + EncodeForm(params[1..])| > 0; }
      }
    }
  }
}
