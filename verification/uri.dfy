/** ECMAScript's `encodeURI` and `encodeURIComponent` (section 19.2.6 of ECMA-262): which
    characters pass through, and how every other one becomes `%XX` escapes of its UTF-8 bytes.
    Go's query parser undoes the escapes byte by byte, so the server sees the UTF-8 bytes of
    what the browser encoded, one character per byte. */
module UriCoding {
  import opened Common
  import opened Urls

  /** `uriAlpha`, `DecimalDigit` and `uriMark`: left alone by both encoders. */
  predicate UriUnreserved(c: char) {
    ('a' <= c <= 'z') || ('A' <= c <= 'Z') || ('0' <= c <= '9')
    || c == '-' || c == '_' || c == '.' || c == '!' || c == '~' || c == '*' || c == '\'' || c == '(' || c == ')'
  }

  /** `uriReserved`: left alone by `encodeURI` only. */
  predicate UriReserved(c: char) {
    c == ';' || c == '/' || c == '?' || c == ':' || c == '@' || c == '&' || c == '=' || c == '+' || c == '$' || c == ','
  }

  /** What `encodeURI` leaves alone: the unreserved and reserved characters and `#`. */
  predicate KeptByEncodeUri(c: char) {
    UriUnreserved(c) || UriReserved(c) || c == '#'
  }

  /** The UTF-8 encoding of one character (Dafny characters are Unicode scalar values, so
      there are no lone surrogates and no URIError). */
  function Utf8(c: char): (bytes: seq<nat>)
    ensures 1 <= |bytes| <= 4
    ensures forall i :: 0 <= i < |bytes| ==> bytes[i] < 256
    ensures (c as int < 0x80) <==> bytes == [c as int]
  {
    var n := c as int;
    if n < 0x80 then [n]
    else if n < 0x800 then [0xC0 + n / 64, 0x80 + n % 64]
    else if n < 0x10000 then [0xE0 + n / 4096, 0x80 + (n / 64) % 64, 0x80 + n % 64]
    else [0xF0 + n / 262144, 0x80 + (n / 4096) % 64, 0x80 + (n / 64) % 64, 0x80 + n % 64]
  }

  /** Bytes as a Go string holds them: one character per byte. */
  function ByteChars(bytes: seq<nat>): (s: string)
    requires forall i :: 0 <= i < |bytes| ==> bytes[i] < 256
    ensures |s| == |bytes|
    ensures forall i :: 0 <= i < |s| ==> s[i] as int == bytes[i]
  {
    if |bytes| == 0 then "" else [bytes[0] as char] + ByteChars(bytes[1..])
  }

  /** The Go string a JavaScript string becomes once it is sent as UTF-8. */
  function Utf8String(s: string): (g: string)
    ensures (forall i :: 0 <= i < |s| ==> s[i] as int < 0x80) ==> g == s
  {
    if |s| == 0 then "" else ByteChars(Utf8(s[0])) + Utf8String(s[1..])
  }

  /** An upper-case hexadecimal digit, as the encoders write them. */
  function HexDigit(d: nat): (c: char)
    requires d < 16
    ensures IsHex(c) && HexValue(c) == d
  {
    "0123456789ABCDEF"[d]
  }

  /** `%XX` for one byte. */
  function PercentByte(b: nat): (s: string)
    requires b < 256
    ensures |s| == 3 && s[0] == '%' && IsHex(s[1]) && IsHex(s[2])
    ensures 16 * HexValue(s[1]) + HexValue(s[2]) == b
  {
    ['%', HexDigit(b / 16), HexDigit(b % 16)]
  }

  /** `%XX` for each byte, in order. */
  function PercentBytes(bytes: seq<nat>): (s: string)
    requires forall i :: 0 <= i < |bytes| ==> bytes[i] < 256
    ensures |s| == 3 * |bytes|
  {
    if |bytes| == 0 then "" else PercentByte(bytes[0]) + PercentBytes(bytes[1..])
  }

  /** The common encoding loop: a kept character is copied, any other is escaped. */
  function Encode(s: string, keep: char -> bool): string {
    if |s| == 0 then ""
    else if keep(s[0]) then [s[0]] + Encode(s[1..], keep)
    else PercentBytes(Utf8(s[0])) + Encode(s[1..], keep)
  }

  /** `encodeURI`. */
  function EncodeUri(s: string): string {
    Encode(s, KeptByEncodeUri)
  }

  /** `encodeURIComponent`. */
  function EncodeUriComponent(s: string): string {
    Encode(s, UriUnreserved)
  }

  /** A character an encoder that keeps `keep` can write: a kept one or part of an escape. */
  predicate EncodedChar(c: char, keep: char -> bool) {
    keep(c) || c == '%' || IsHex(c)
  }

  lemma {:induction false} PercentBytesChars(bytes: seq<nat>, keep: char -> bool)
    requires forall i :: 0 <= i < |bytes| ==> bytes[i] < 256
    ensures forall i :: 0 <= i < |PercentBytes(bytes)| ==> EncodedChar(PercentBytes(bytes)[i], keep)
  {
    if |bytes| > 0 {
      PercentBytesChars(bytes[1..], keep);
      var p := PercentByte(bytes[0]);
      var rest := PercentBytes(bytes[1..]);
      assert PercentBytes(bytes) == p + rest;
      assert forall i :: 0 <= i < |rest| ==> (p + rest)[i + 3] == rest[i];
    }
  }

  /** Every character an encoder writes is one it keeps, `%`, or a hexadecimal digit. */
  lemma {:induction false} EncodeChars(s: string, keep: char -> bool)
    ensures forall i :: 0 <= i < |Encode(s, keep)| ==> EncodedChar(Encode(s, keep)[i], keep)
  {
    if |s| > 0 {
      EncodeChars(s[1..], keep);
      var rest := Encode(s[1..], keep);
      var head := if keep(s[0]) then [s[0]] else PercentBytes(Utf8(s[0]));
      if !keep(s[0]) {
        PercentBytesChars(Utf8(s[0]), keep);
      }
      assert Encode(s, keep) == head + rest;
      assert forall i :: 0 <= i < |rest| ==> (head + rest)[|head| + i] == rest[i];
    }
  }

  /** `encodeURIComponent` never writes a query or fragment delimiter. */
  lemma EncodeUriComponentHasNoDelimiters(s: string)
    ensures var e := EncodeUriComponent(s);
      '&' !in e && ';' !in e && '=' !in e && '+' !in e && '#' !in e && '?' !in e
  {
    EncodeChars(s, UriUnreserved);
  }

  /** Unescaping one `%XX` escape yields its byte, followed by what the rest unescapes to. */
  lemma UnescapePercentByte(b: nat, rest: string, r: string)
    requires b < 256
    requires Unescape(rest) == Some(r)
    ensures Unescape(PercentByte(b) + rest) == Some([b as char] + r)
  {
    var p := PercentByte(b);
    var s := p + rest;
    assert s[0] == '%' && s[1] == p[1] && s[2] == p[2];
    assert s[3..] == rest;
  }

  /** Unescaping a run of `%XX` escapes yields their bytes, followed by what the rest
      unescapes to. */
  lemma {:induction false} UnescapePercentBytes(bytes: seq<nat>, rest: string, r: string)
    requires forall i :: 0 <= i < |bytes| ==> bytes[i] < 256
    requires Unescape(rest) == Some(r)
    ensures Unescape(PercentBytes(bytes) + rest) == Some(ByteChars(bytes) + r)
  {
    if |bytes| == 0 {
      assert PercentBytes(bytes) + rest == rest;
      assert ByteChars(bytes) + r == r;
    } else {
      var b, more := bytes[0], bytes[1..];
      var tail := PercentBytes(more) + rest;
      UnescapePercentBytes(more, rest, r);
      UnescapePercentByte(b, tail, ByteChars(more) + r);
      AppendAssoc(PercentByte(b), PercentBytes(more), rest);
      AppendAssoc([b as char], ByteChars(more), r);
    }
  }

  /** Associativity of concatenation, stated on its own so the unescaping proof can name the
      regrouping it needs instead of leaving the solver to search for it. */
  lemma AppendAssoc<T>(a: seq<T>, b: seq<T>, c: seq<T>)
    ensures a + b + c == a + (b + c)
  {
  }

  /** The round trip: what `encodeURIComponent` writes, Go's unescaping turns back into the
      UTF-8 bytes of the original string, whatever characters it holds. */
  lemma {:induction false} UnescapeEncodeUriComponent(s: string)
    ensures Unescape(EncodeUriComponent(s)) == Some(Utf8String(s))
  {
    if |s| > 0 {
      UnescapeEncodeUriComponent(s[1..]);
      var rest := EncodeUriComponent(s[1..]);
      if UriUnreserved(s[0]) {
        var e := [s[0]] + rest;
        assert EncodeUriComponent(s) == e;
        assert e[0] == s[0] && e[1..] == rest;
        assert Utf8(s[0]) == [s[0] as int];
        assert ByteChars(Utf8(s[0])) == [s[0]];
      } else {
        UnescapePercentBytes(Utf8(s[0]), rest, Utf8String(s[1..]));
      }
    }
  }

  /** `encodeURI` leaves `&` alone, so a `&` in a query value reaches the server as a
      parameter separator. */
  lemma EncodeUriKeepsAmpersand(s: string)
    requires '&' in s
    ensures '&' in EncodeUri(s)
  {
    EncodeKeeps(s, KeptByEncodeUri, '&');
  }

  lemma {:induction false} EncodeKeeps(s: string, keep: char -> bool, c: char)
    requires keep(c) && c in s
    ensures c in Encode(s, keep)
  {
    if s[0] == c {
      assert Encode(s, keep)[0] == c;
    } else {
      EncodeKeeps(s[1..], keep, c);
      var head := if keep(s[0]) then [s[0]] else PercentBytes(Utf8(s[0]));
      var rest := Encode(s[1..], keep);
      var i :| 0 <= i < |rest| && rest[i] == c;
      assert Encode(s, keep)[|head| + i] == c;
    }
  }

  /** A string every character of which the encoder keeps comes out unchanged. */
  lemma {:induction false} EncodeKeepsAll(s: string, keep: char -> bool)
    requires forall i :: 0 <= i < |s| ==> keep(s[i])
    ensures Encode(s, keep) == s
  {
    if |s| > 0 {
      EncodeKeepsAll(s[1..], keep);
      assert [s[0]] + s[1..] == s;
    }
  }
}
