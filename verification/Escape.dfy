/**
  url.QueryEscape and url.QueryUnescape (percent-encoding, section 2.1 of RFC 3986, with + for a
  space) and hex.EncodeToString.
 */
module Escape {
  import opened Common
  import opened CookieText

  // ----- hexadecimal digits -----

  const UPPER: seq<Byte> := "0123456789ABCDEF"
  const LOWER: seq<Byte> := "0123456789abcdef"

  /** The value of a hexadecimal digit of either case, or -1. */
  function HexValue(c: Byte): (v: int)
    ensures -1 <= v < 16
  {
    if '0' <= c <= '9' then c as int - '0' as int
    else if 'a' <= c <= 'f' then c as int - 'a' as int + 10
    else if 'A' <= c <= 'F' then c as int - 'A' as int + 10
    else -1
  }

  lemma HexDigits(v: nat)
    requires v < 16
    ensures HexValue(UPPER[v]) == v && HexValue(LOWER[v]) == v
    ensures UPPER[v] != '-' && LOWER[v] != '-'
  {
  }

  function HexEncode(s: Bytes): Bytes {
    if s == [] then []
    else [LOWER[s[0] as int / 16], LOWER[s[0] as int % 16]] + HexEncode(s[1..])
  }

  /** A hexadecimal text holds no hyphen, so the first hyphen of a cookie ends its signature. */
  lemma {:induction false} HexHasNoHyphen(s: Bytes)
    ensures '-' !in HexEncode(s)
  {
    if s != [] {
      HexDigits(s[0] as int / 16);
      HexDigits(s[0] as int % 16);
      HexHasNoHyphen(s[1..]);
    }
  }

  lemma {:induction false} HexLength(s: Bytes)
    ensures |HexEncode(s)| == 2 * |s|
  {
    if s != [] { HexLength(s[1..]); }
  }

  /** Different byte strings have different hexadecimal texts. */
  lemma {:induction false} HexInjective(s: Bytes, t: Bytes)
    requires HexEncode(s) == HexEncode(t)
    ensures s == t
    decreases |s|
  {
    HexLength(s);
    HexLength(t);
    if s != [] {
      HexDigits(s[0] as int / 16);
      HexDigits(s[0] as int % 16);
      HexDigits(t[0] as int / 16);
      HexDigits(t[0] as int % 16);
      assert HexEncode(s)[..2] == [LOWER[s[0] as int / 16], LOWER[s[0] as int % 16]];
      assert HexEncode(t)[..2] == [LOWER[t[0] as int / 16], LOWER[t[0] as int % 16]];
      assert HexEncode(s)[2..] == HexEncode(s[1..]) && HexEncode(t)[2..] == HexEncode(t[1..]);
      HexInjective(s[1..], t[1..]);
      assert s == [s[0]] + s[1..] && t == [t[0]] + t[1..];
    }
  }

  // ----- query escaping -----

  predicate Unreserved(c: Byte) {
    || 'a' <= c <= 'z' || 'A' <= c <= 'Z' || '0' <= c <= '9'
    || c == '-' || c == '_' || c == '.' || c == '~'
  }

  function EscapeByte(c: Byte): Bytes {
    if Unreserved(c) then [c]
    else if c == ' ' then ['+']
    else ['%', UPPER[c as int / 16], UPPER[c as int % 16]]
  }

  function QueryEscape(s: Bytes): Bytes {
    if s == [] then [] else EscapeByte(s[0]) + QueryEscape(s[1..])
  }

  /** A percent sign not followed by two hexadecimal digits is an error. */
  function QueryUnescape(s: Bytes): Option<Bytes> {
    if s == [] then Some([])
    else if s[0] == '%' then
      if |s| < 3 || HexValue(s[1]) < 0 || HexValue(s[2]) < 0 then None
      else Prepend((HexValue(s[1]) * 16 + HexValue(s[2])) as char, QueryUnescape(s[3..]))
    else Prepend(if s[0] == '+' then ' ' else s[0], QueryUnescape(s[1..]))
  }

  function Prepend(c: Byte, r: Option<Bytes>): Option<Bytes> {
    if r.None? then None else Some([c] + r.value)
  }

  lemma UnescapeByte(c: Byte, rest: Bytes)
    ensures QueryUnescape(EscapeByte(c) + rest) == Prepend(c, QueryUnescape(rest))
  {
    var t := EscapeByte(c) + rest;
    if Unreserved(c) || c == ' ' {
      assert t[1..] == rest;
    } else {
      HexDigits(c as int / 16);
      HexDigits(c as int % 16);
      assert t[3..] == rest;
      assert t[1] == UPPER[c as int / 16] && t[2] == UPPER[c as int % 16];
    }
  }

  /** Every byte string survives escaping. */
  lemma {:induction false} EscapeRoundTrip(s: Bytes)
    ensures QueryUnescape(QueryEscape(s)) == Some(s)
  {
    if s != [] {
      UnescapeByte(s[0], QueryEscape(s[1..]));
      EscapeRoundTrip(s[1..]);
      assert s == [s[0]] + s[1..];
    }
  }

  lemma EscapeNonEmpty(s: Bytes)
    requires s != []
    ensures QueryEscape(s) != []
  {
  }

  // ----- the cookie parser -----

  /** util.go drops the error, which leaves the empty text. */
  function Unescaped(val: Bytes): Bytes {
    var r := QueryUnescape(val);
    if r.Some? then r.value else []
  }

  /** ParseKeyValueCookie: the calls made to the callback, in order. */
  function CookiePairs(val: Bytes): seq<Pair> {
    Parse(Unescaped(val))
  }

  /** The callback is an append to `calls`; the matches are visited in order. */
  method ParseKeyValueCookie(val: Bytes) returns (calls: seq<Pair>)
    ensures calls == CookiePairs(val)
    ensures IsFindAll(Unescaped(val), calls)
  {
    var matches := Parse(Unescaped(val));
    ParseIsFindAll(Unescaped(val));
    calls := [];
    for i := 0 to |matches|
      invariant calls == matches[..i]
    {
      calls := calls + [matches[i]];
    }
  }

  /** Pairs printed and escaped come back through the parser, in order. */
  lemma CookieRoundTrip(ps: seq<Pair>)
    requires forall i :: 0 <= i < |ps| ==> Fits(ps[i])
    ensures CookiePairs(QueryEscape(Print(ps))) == ps
  {
    EscapeRoundTrip(Print(ps));
    PrintedListComesBack(ps);
  }
}
