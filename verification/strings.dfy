/** String operations of the Go standard library and of JavaScript that the handlers and
    the client rely on, each defined once and related to its counterpart in the other language. */
module Strings {

  /** `prefix` is a prefix of `s` (Go `strings.HasPrefix`, JavaScript `startsWith`). */
  predicate StartsWith(s: string, prefix: string) {
    prefix <= s
  }

  /** `suffix` is a suffix of `s`. */
  predicate EndsWith(s: string, suffix: string) {
    |suffix| <= |s| && s[|s| - |suffix|..] == suffix
  }

  /** Go's `strings.LastIndex(s, string(c))`: the index of the last `c` in `s`, or -1. */
  function LastIndexOf(s: string, c: char): (r: int)
    ensures -1 <= r < |s|
    ensures r >= 0 ==> s[r] == c
    ensures forall i :: r < i < |s| ==> s[i] != c
  {
    if |s| == 0 then -1
    else if s[|s| - 1] == c then |s| - 1
    else LastIndexOf(s[..|s| - 1], c)
  }

  /** The index of the first `c` in `s`, or -1. */
  function IndexOf(s: string, c: char): (r: int)
    ensures -1 <= r < |s|
    ensures r >= 0 ==> s[r] == c
    ensures forall i :: 0 <= i < |s| && (r < 0 || i < r) ==> s[i] != c
  {
    if |s| == 0 then -1
    else if s[0] == c then 0
    else
      var k := IndexOf(s[1..], c);
      if k < 0 then -1 else k + 1
  }

  /** Go's `s[strings.LastIndex(s, string(c))+1:]`: what follows the last `c`, or all of `s`. */
  function AfterLast(s: string, c: char): (r: string)
    ensures c !in r
    ensures |r| <= |s| && r == s[|s| - |r|..]
    ensures |r| < |s| ==> s[|s| - |r| - 1] == c
  {
    s[LastIndexOf(s, c) + 1..]
  }

  /** The three properties AfterLast promises determine its result: a suffix free of `c` that
      is either all of `s` or preceded by a `c` is AfterLast(s, c). */
  lemma SuffixIsAfterLast(s: string, c: char, t: string)
    requires |t| <= |s| && t == s[|s| - |t|..]
    requires c !in t
    requires |t| < |s| ==> s[|s| - |t| - 1] == c
    ensures t == AfterLast(s, c)
  {
    assert forall i :: |s| - |t| <= i < |s| ==> s[i] == t[i - (|s| - |t|)];
  }

  /** JavaScript's `s.split(c)` for a one-character separator: never empty, one more part
      than there are separators. */
  function Split(s: string, c: char): (parts: seq<string>)
    ensures |parts| >= 1
    ensures forall i :: 0 <= i < |parts| ==> c !in parts[i]
  {
    if |s| == 0 then [""]
    else
      var rest := Split(s[1..], c);
      if s[0] == c then [""] + rest
      else [[s[0]] + rest[0]] + rest[1..]
  }

  /** JavaScript's `parts.join(c)`. */
  function Join(parts: seq<string>, c: char): string
    requires |parts| >= 1
  {
    if |parts| == 1 then parts[0] else parts[0] + [c] + Join(parts[1..], c)
  }

  /** Joining the parts of a split gives back the original string. */
  lemma {:induction false} JoinSplit(s: string, c: char)
    ensures Join(Split(s, c), c) == s
  {
    if |s| > 0 {
      var rest := Split(s[1..], c);
      JoinSplit(s[1..], c);
      if s[0] == c {
        assert ([""] + rest)[1..] == rest;
      } else if |rest| > 1 {
        assert ([[s[0]] + rest[0]] + rest[1..])[1..] == rest[1..];
      }
    }
  }

  /** Splitting a string that starts with a separator-free prefix `a` glues `a` to the first part. */
  lemma {:induction false} SplitPrefix(a: string, rest: string, c: char)
    requires c !in a
    ensures Split(a + rest, c) == [a + Split(rest, c)[0]] + Split(rest, c)[1..]
  {
    if |a| > 0 {
      SplitPrefix(a[1..], rest, c);
      assert (a + rest)[1..] == a[1..] + rest;
      assert [a[0]] + (a[1..] + Split(rest, c)[0]) == a + Split(rest, c)[0];
    } else {
      assert a + rest == rest;
      assert a + Split(rest, c)[0] == Split(rest, c)[0];
      assert Split(rest, c) == [Split(rest, c)[0]] + Split(rest, c)[1..];
    }
  }

  /** Splitting the join of separator-free parts gives back the parts. */
  lemma {:induction false} SplitJoin(parts: seq<string>, c: char)
    requires |parts| >= 1
    requires forall i :: 0 <= i < |parts| ==> c !in parts[i]
    ensures Split(Join(parts, c), c) == parts
  {
    if |parts| == 1 {
      SplitPrefix(parts[0], "", c);
      assert parts[0] + "" == parts[0];
      assert Split("", c) == [""];
      assert parts == [parts[0]];
    } else {
      var tail := Join(parts[1..], c);
      SplitJoin(parts[1..], c);
      SplitPrefix(parts[0], [c] + tail, c);
      assert parts[0] + [c] + tail == parts[0] + ([c] + tail);
      assert ([c] + tail)[1..] == tail;
      assert Split([c] + tail, c) == [""] + parts[1..];
      assert parts[0] + "" == parts[0];
      assert parts == [parts[0]] + parts[1..];
    }
  }

  /** The join of two or more parts ends with a separator followed by the last part. */
  lemma {:induction false} JoinLast(parts: seq<string>, c: char)
    requires |parts| >= 2
    ensures Join(parts, c) == Join(parts[..|parts| - 1], c) + [c] + parts[|parts| - 1]
  {
    if |parts| > 2 {
      JoinLast(parts[1..], c);
      assert parts[1..][..|parts| - 2] == parts[..|parts| - 1][1..];
    }
  }

  /** JavaScript's `s.split(c).pop()`: the last part of the split. */
  function LastSegment(s: string, c: char): string {
    var parts := Split(s, c);
    parts[|parts| - 1]
  }

  /** A path ending in `/<name>` names the file `<name>` when `name` holds no `/`. */
  lemma {:induction false} AfterLastSlash(dir: string, name: string)
    requires '/' !in name
    ensures AfterLast(dir + "/" + name, '/') == name
  {
    var path := dir + "/" + name;
    assert forall i :: 0 <= i < |name| ==> path[|dir| + 1 + i] == name[i];
    assert path[|path| - |name|..] == name;
    assert path[|path| - |name| - 1] == '/';
    SuffixIsAfterLast(path, '/', name);
  }

  /** The client's `split("/").pop()` and the server's `LastIndex` slice agree on every string. */
  lemma LastSegmentIsAfterLast(s: string, c: char)
    ensures LastSegment(s, c) == AfterLast(s, c)
  {
    var parts := Split(s, c);
    var t := parts[|parts| - 1];
    JoinSplit(s, c);
    if |parts| >= 2 {
      JoinLast(parts, c);
      var front := Join(parts[..|parts| - 1], c);
      assert s == front + [c] + t;
      assert s[|s| - |t|..] == t;
      assert s[|s| - |t| - 1] == c;
    }
    SuffixIsAfterLast(s, c, t);
  }

  /** The single characters JavaScript's `String.prototype.trim` removes: tab, line feed,
      vertical tab, form feed, carriage return, space, no-break space, the Ogham space mark, the
      line and paragraph separators, the narrow no-break space, the medium mathematical space,
      the ideographic space and the byte-order mark. */
  const JsWhitespaceChars: set<char> := {'\t', '\n', '\U{000B}', '\U{000C}', '\r', ' ', '\U{00A0}', '\U{1680}',
                                         '\U{2028}', '\U{2029}', '\U{202F}', '\U{205F}', '\U{3000}', '\U{FEFF}'}

  /** WhiteSpace and LineTerminator as `trim` reads them: the characters above and the space
      separators U+2000 to U+200A. */
  predicate IsJsWhitespace(c: char) {
    c in JsWhitespaceChars || '\U{2000}' <= c <= '\U{200A}'
  }

  /** The index of the first non-whitespace character of `s` at or after `i`, or `|s|`. */
  function SkipWhitespace(s: string, i: nat): (k: nat)
    requires i <= |s|
    ensures i <= k <= |s|
    ensures forall j :: i <= j < k ==> IsJsWhitespace(s[j])
    ensures k < |s| ==> !IsJsWhitespace(s[k])
    decreases |s| - i
  {
    if i < |s| && IsJsWhitespace(s[i]) then SkipWhitespace(s, i + 1) else i
  }

  /** The end of `s[lo..hi]` once its trailing whitespace is dropped. */
  function SkipWhitespaceBack(s: string, lo: nat, hi: nat): (e: nat)
    requires lo <= hi <= |s|
    ensures lo <= e <= hi
    ensures forall j :: e <= j < hi ==> IsJsWhitespace(s[j])
    ensures e > lo ==> !IsJsWhitespace(s[e - 1])
    decreases hi
  {
    if hi > lo && IsJsWhitespace(s[hi - 1]) then SkipWhitespaceBack(s, lo, hi - 1) else hi
  }

  /** JavaScript's `s.trim()`: the infix of `s` left once the whitespace at either end is
      removed. */
  function Trim(s: string): (r: string)
    ensures |r| <= |s|
    ensures r == [] || (!IsJsWhitespace(r[0]) && !IsJsWhitespace(r[|r| - 1]))
    ensures exists i, j :: (0 <= i <= j <= |s| && r == s[i..j]
                            && (forall k :: 0 <= k < i ==> IsJsWhitespace(s[k]))
                            && (forall k :: j <= k < |s| ==> IsJsWhitespace(s[k])))
  {
    var k := SkipWhitespace(s, 0);
    var e := SkipWhitespaceBack(s, k, |s|);
    assert forall x :: 0 <= x < k ==> IsJsWhitespace(s[x]);
    assert forall x :: e <= x < |s| ==> IsJsWhitespace(s[x]);
    s[k..e]
  }

  /** Trim is determined by what it keeps: any infix of `s` with only whitespace outside it and
      no whitespace at its ends is the trimmed string. */
  lemma TrimUnique(s: string, i: nat, j: nat)
    requires i <= j <= |s|
    requires forall k :: 0 <= k < i ==> IsJsWhitespace(s[k])
    requires forall k :: j <= k < |s| ==> IsJsWhitespace(s[k])
    requires i == j || (!IsJsWhitespace(s[i]) && !IsJsWhitespace(s[j - 1]))
    ensures Trim(s) == s[i..j]
  {
    var k := SkipWhitespace(s, 0);
    if i < j {
      // The first non-whitespace character is at i, the last at j - 1.
      assert k <= i;
      assert k == i;
      var e := SkipWhitespaceBack(s, k, |s|);
      assert e >= j;
      assert e == j;
    } else {
      // Everything is whitespace, so nothing is kept.
      assert forall x :: 0 <= x < |s| ==> IsJsWhitespace(s[x]);
      assert k == |s|;
    }
  }

  /** A string with no whitespace at either end is its own trim. */
  lemma TrimUnpadded(s: string)
    requires s == [] || (!IsJsWhitespace(s[0]) && !IsJsWhitespace(s[|s| - 1]))
    ensures Trim(s) == s
  {
    TrimUnique(s, 0, |s|);
    assert s[0..|s|] == s;
  }

  /** Whitespace padding around a string with non-whitespace ends is what `trim` removes. */
  lemma TrimPadded(pre: string, s: string, post: string)
    requires forall k :: 0 <= k < |pre| ==> IsJsWhitespace(pre[k])
    requires forall k :: 0 <= k < |post| ==> IsJsWhitespace(post[k])
    requires s == [] || (!IsJsWhitespace(s[0]) && !IsJsWhitespace(s[|s| - 1]))
    ensures Trim(pre + s + post) == s
  {
    var t := pre + s + post;
    var i, j := |pre|, |pre| + |s|;
    assert forall k :: 0 <= k < i ==> t[k] == pre[k];
    assert forall k :: i <= k < j ==> t[k] == s[k - i];
    assert forall k :: j <= k < |t| ==> t[k] == post[k - j];
    TrimUnique(t, i, j);
    assert t[i..j] == s;
  }

  /** Trimming twice changes nothing. */
  lemma TrimIdempotent(s: string)
    ensures Trim(Trim(s)) == Trim(s)
  {
    TrimUnpadded(Trim(s));
  }
}
