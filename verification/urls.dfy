/** How a same-origin link reaches a Go handler: the browser splits the href into a path and a
    raw query, and Go's `url.Values` parses the raw query. */
module Urls {
  import opened Common
  import opened Strings

  /** What the server sees of a request: `r.URL.Path` and `r.URL.RawQuery`. */
  datatype Target = Target(path: string, rawQuery: string)

  /** The request a browser sends for a relative href: everything from the first `#` stays in
      the browser, the path runs up to the first `?` and the raw query follows it. */
  function BrowserTarget(href: string): (t: Target)
    ensures '?' !in t.path && '#' !in t.path && '#' !in t.rawQuery
    ensures ('?' !in href && '#' !in href) ==> t == Target(href, "")
  {
    var hash := IndexOf(href, '#');
    var sent := if hash < 0 then href else href[..hash];
    var q := IndexOf(sent, '?');
    if q < 0 then Target(sent, "") else Target(sent[..q], sent[q + 1..])
  }

  /** A path and a query joined by `?` come apart again, as long as neither holds a `#` and
      the path holds no `?`. */
  lemma BrowserTargetSplitsAtQuestionMark(path: string, query: string)
    requires '?' !in path && '#' !in path && '#' !in query
    ensures BrowserTarget(path + "?" + query) == Target(path, query)
  {
    var href := path + "?" + query;
    assert href[|path|] == '?';
    assert forall i :: 0 <= i < |path| ==> href[i] == path[i];
    assert forall i :: |path| < i < |href| ==> href[i] == query[i - |path| - 1];
    assert IndexOf(href, '#') == -1;
    assert IndexOf(href, '?') == |path|;
    assert href[..|path|] == path;
    assert href[|path| + 1..] == query;
  }

  /** A hexadecimal digit, as Go's `ishex` accepts it. */
  predicate IsHex(c: char) {
    ('0' <= c <= '9') || ('a' <= c <= 'f') || ('A' <= c <= 'F')
  }

  /** The value of a hexadecimal digit (Go's `unhex`). */
  function HexValue(c: char): (v: nat)
    requires IsHex(c)
    ensures v < 16
  {
    if '0' <= c <= '9' then (c - '0') as nat
    else if 'a' <= c <= 'f' then (c - 'a') as nat + 10
    else (c - 'A') as nat + 10
  }

  /** Go's `url.QueryUnescape`: `+` becomes a space and `%XX` the byte XX; a `%` not followed by
      two hexadecimal digits is an error. Each byte is modelled as the character of that code. */
  function Unescape(s: string): (r: Option<string>)
    ensures r.Some? ==> |r.value| <= |s|
    ensures ('%' !in s && '+' !in s) ==> r == Some(s)
  {
    if |s| == 0 then Some("")
    else if s[0] == '%' then
      if |s| >= 3 && IsHex(s[1]) && IsHex(s[2]) then
        match Unescape(s[3..])
        case None => None
        case Some(rest) => Some([(16 * HexValue(s[1]) + HexValue(s[2])) as char] + rest)
      else None
    else
      assert s == [s[0]] + s[1..];
      match Unescape(s[1..])
      case None => None
      case Some(rest) => Some([if s[0] == '+' then ' ' else s[0]] + rest)
  }

  /** One `&`-separated segment of a raw query as Go's `parseQuery` reads it: an empty segment or
      one holding `;` is skipped, the key ends at the first `=`, and a pair whose key or value
      fails to unescape is skipped. */
  function ParsePair(segment: string): Option<(string, string)> {
    if segment == "" || ';' in segment then None
    else
      var eq := IndexOf(segment, '=');
      var rawKey := if eq < 0 then segment else segment[..eq];
      var rawValue := if eq < 0 then "" else segment[eq + 1..];
      match (Unescape(rawKey), Unescape(rawValue))
      case (Some(k), Some(v)) => Some((k, v))
      case _ => None
  }

  /** The pairs of the segments, in order, skipping the ones ParsePair rejects. */
  function ParsePairs(segments: seq<string>): (pairs: seq<(string, string)>)
    ensures |pairs| <= |segments|
  {
    if |segments| == 0 then []
    else
      match ParsePair(segments[0])
      case Some(p) => [p] + ParsePairs(segments[1..])
      case None => ParsePairs(segments[1..])
  }

  /** Go's `url.ParseQuery` as `r.URL.Query()` uses it (errors are dropped): at most one pair
      per `&`-separated segment, and none for an empty query. */
  function ParseQuery(rawQuery: string): (pairs: seq<(string, string)>)
    ensures |pairs| <= |Split(rawQuery, '&')|
    ensures rawQuery == "" ==> pairs == []
  {
    ParsePairs(Split(rawQuery, '&'))
  }

  /** The first value recorded for `key`, or "" (Go's `url.Values.Get`). */
  function FirstValue(pairs: seq<(string, string)>, key: string): (v: string)
    ensures v != "" ==> exists i :: 0 <= i < |pairs| && pairs[i] == (key, v)
  {
    if |pairs| == 0 then ""
    else if pairs[0].0 == key then pairs[0].1
    else
      var v := FirstValue(pairs[1..], key);
      assert v != "" ==> exists i :: 1 <= i < |pairs| && pairs[i] == (key, v);
      v
  }

  /** `r.URL.Query().Get(key)`: "" for an absent key, and any other answer is the value of a
      pair the query holds for that key. */
  function QueryGet(rawQuery: string, key: string): (v: string)
    ensures v != "" ==> exists i :: 0 <= i < |ParseQuery(rawQuery)| && ParseQuery(rawQuery)[i] == (key, v)
    ensures rawQuery == "" ==> v == ""
  {
    FirstValue(ParseQuery(rawQuery), key)
  }

  /** Where the key of a `key=value` segment ends. */
  lemma {:induction false} KeyEndsAtEquals(key: string, rawValue: string)
    requires '=' !in key
    ensures var seg := key + "=" + rawValue;
      IndexOf(seg, '=') == |key| && seg[..|key|] == key && seg[|key| + 1..] == rawValue
  {
    var seg := key + "=" + rawValue;
    assert forall i :: 0 <= i < |key| ==> seg[i] == key[i];
    assert seg[|key|] == '=';
  }

  /** A `key=value` segment with a plain key parses to the key and the unescaped value. */
  lemma ParsePairOfSegment(key: string, rawValue: string)
    requires key != ""
    requires ';' !in key && '=' !in key && '%' !in key && '+' !in key
    requires ';' !in rawValue
    ensures ParsePair(key + "=" + rawValue) ==
      (if Unescape(rawValue).Some? then Some((key, Unescape(rawValue).value)) else None)
  {
    var seg := key + "=" + rawValue;
    KeyEndsAtEquals(key, rawValue);
    assert ';' !in seg by {
      assert forall i :: 0 <= i < |key| ==> seg[i] == key[i];
      assert forall i :: |key| < i < |seg| ==> seg[i] == rawValue[i - |key| - 1];
    }
  }

  /** A segment free of `&` is the whole query. */
  lemma SplitWithoutSeparator(s: string, c: char)
    requires c !in s
    ensures Split(s, c) == [s]
  {
    SplitJoin([s], c);
  }

  /** A query of one `key=value` segment yields the unescaped value for that key, or "" when
      the value does not unescape; a `=` inside the value is part of it. */
  lemma QueryGetPair(key: string, rawValue: string)
    requires key != ""
    requires '&' !in key && ';' !in key && '=' !in key && '%' !in key && '+' !in key
    requires '&' !in rawValue && ';' !in rawValue
    ensures QueryGet(key + "=" + rawValue, key) == Unescape(rawValue).GetOr("")
  {
    var seg := key + "=" + rawValue;
    assert '&' !in seg by {
      assert forall i :: 0 <= i < |key| ==> seg[i] == key[i];
      assert forall i :: |key| < i < |seg| ==> seg[i] == rawValue[i - |key| - 1];
    }
    SplitWithoutSeparator(seg, '&');
    ParsePairOfSegment(key, rawValue);
    assert ParsePairs([seg]) == (if Unescape(rawValue).Some? then [(key, Unescape(rawValue).value)] else []);
  }

  /** A parameter that comes first wins: whatever follows the first `&`, `Get` returns the first
      segment's value. */
  lemma QueryGetFirstPair(key: string, value: string, rest: string)
    requires key != ""
    requires '&' !in key && ';' !in key && '=' !in key && '%' !in key && '+' !in key
    requires '&' !in value && ';' !in value && '%' !in value && '+' !in value
    ensures QueryGet(key + "=" + (value + "&" + rest), key) == value
  {
    var seg := key + "=" + value;
    assert '&' !in seg by {
      assert forall i :: 0 <= i < |key| ==> seg[i] == key[i];
      assert forall i :: |key| < i < |seg| ==> seg[i] == value[i - |key| - 1];
    }
    var raw := key + "=" + (value + "&" + rest);
    assert raw == seg + ("&" + rest);
    SplitPrefix(seg, "&" + rest, '&');
    var tail := Split(rest, '&');
    assert ("&" + rest)[0] == '&' && ("&" + rest)[1..] == rest;
    assert Split("&" + rest, '&') == [""] + tail;
    assert ([""] + tail)[0] == "" && ([""] + tail)[1..] == tail;
    assert seg + "" == seg;
    assert Split(raw, '&') == [seg] + tail;
    ParsePairOfSegment(key, value);
    assert ParsePair(seg) == Some((key, value));
    assert ParsePairs([seg] + Split(rest, '&')) == [(key, value)] + ParsePairs(Split(rest, '&'));
  }

  /** A query of one plain `key=value` pair yields that value for that key. */
  lemma QueryGetSinglePair(key: string, value: string)
    requires key != ""
    requires '&' !in key && ';' !in key && '=' !in key && '%' !in key && '+' !in key
    requires '&' !in value && ';' !in value && '%' !in value && '+' !in value
    ensures QueryGet(key + "=" + value, key) == value
  {
    QueryGetPair(key, value);
  }

  /** An empty query has no value for any key. */
  lemma QueryGetEmpty(key: string)
    ensures QueryGet("", key) == ""
  {
    assert Split("", '&') == [""];
    assert ParsePairs([""]) == [];
  }
}
