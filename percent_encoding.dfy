/**
 * Percent-encoding (section 2.1 of RFC 3986), in the three variants the
 * library uses. Every character outside the kept set is written as the
 * UTF-8 octets of the character, each as `%` and two upper-case hex digits.
 *  - `DataString` is .NET's `Uri.EscapeDataString`: only the unreserved
 *    characters of section 2.3 of RFC 3986 are kept.
 *  - `UriString` is .NET's `Uri.EscapeUriString`: the unreserved and the
 *    reserved characters (section 2.2 of RFC 3986) are kept.
 *  - `UriComponent` is JavaScript's `encodeURIComponent`: the unreserved
 *    characters and `!*'()` are kept.
 */
module PercentEncoding {
  import opened Wrappers
  import opened Text
  import Utf8

  datatype Policy = DataString | UriString | UriComponent

  predicate IsUnreserved(c: char) {
    ('A' <= c <= 'Z') || ('a' <= c <= 'z') || ('0' <= c <= '9') || c == '-' || c == '.' || c == '_' || c == '~'
  }

  predicate IsReserved(c: char) {
    c in ":/?#[]@" || c in "!$&'()*+,;="
  }

  predicate Keeps(p: Policy, c: char) {
    match p
    case DataString => IsUnreserved(c)
    case UriString => IsUnreserved(c) || IsReserved(c)
    case UriComponent => IsUnreserved(c) || c in "!*'()"
  }

  function HexDigit(d: int): (c: char)
    requires 0 <= d < 16
  {
    if d < 10 then ('0' as int + d) as char else ('A' as int + d - 10) as char
  }

  function HexValue(c: char): Option<int> {
    if '0' <= c <= '9' then Some(c as int - '0' as int)
    else if 'A' <= c <= 'F' then Some(c as int - 'A' as int + 10)
    else if 'a' <= c <= 'f' then Some(c as int - 'a' as int + 10)
    else None
  }

  function EscapeOctets(b: seq<Byte>): (r: string)
    ensures |r| == 3 * |b|
  {
    if b == [] then [] else ['%', HexDigit(b[0] / 16), HexDigit(b[0] % 16)] + EscapeOctets(b[1..])
  }

  function EscapeChar(p: Policy, c: char): string {
    if Keeps(p, c) then [c] else EscapeOctets(Utf8.EncodeChar(c))
  }

  function Escape(p: Policy, s: string): (r: string)
    ensures |r| >= |s|
  {
    if s == [] then [] else EscapeChar(p, s[0]) + Escape(p, s[1..])
  }

  /**
   * The decoder a server applies: `%XX` gives an octet, any other character
   * its UTF-8 octets; the octets are then read as UTF-8.
   */
  function PercentDecode(t: string): (r: Option<seq<Byte>>)
    decreases |t|
  {
    if t == [] then Some([])
    else if t[0] == '%' then
      if |t| >= 3 && HexValue(t[1]).Some? && HexValue(t[2]).Some? then
        match PercentDecode(t[3..])
        case None => None
        case Some(rest) => Some([HexValue(t[1]).value * 16 + HexValue(t[2]).value] + rest)
      else None
    else
      match PercentDecode(t[1..])
      case None => None
      case Some(rest) => Some(Utf8.EncodeChar(t[0]) + rest)
  }

  function Unescape(t: string): Option<string> {
    match PercentDecode(t)
    case None => None
    case Some(b) => Utf8.Decode(b)
  }

  lemma HexDigitValue(d: int)
    requires 0 <= d < 16
    ensures HexValue(HexDigit(d)) == Some(d)
  {
  }

  lemma {:induction false} PercentDecodeOctets(b: seq<Byte>, rest: string, tail: seq<Byte>)
    requires PercentDecode(rest) == Some(tail)
    ensures PercentDecode(EscapeOctets(b) + rest) == Some(b + tail)
  {
    if b != [] {
      var head := ['%', HexDigit(b[0] / 16), HexDigit(b[0] % 16)];
      PercentDecodeOctets(b[1..], rest, tail);
      HexDigitValue(b[0] / 16);
      HexDigitValue(b[0] % 16);
      var t := EscapeOctets(b) + rest;
      assert t == head + (EscapeOctets(b[1..]) + rest);
      assert t[0] == '%' && t[1] == head[1] && t[2] == head[2];
      assert t[3..] == EscapeOctets(b[1..]) + rest;
      assert HexValue(t[1]).value * 16 + HexValue(t[2]).value == b[0];
      assert PercentDecode(t[3..]) == Some(b[1..] + tail);
      assert PercentDecode(t) == Some([b[0]] + (b[1..] + tail));
      assert [b[0]] + (b[1..] + tail) == b + tail;
    } else {
      assert EscapeOctets(b) + rest == rest && b + tail == tail;
    }
  }

  lemma {:induction false} PercentDecodeEscape(p: Policy, s: string)
    ensures PercentDecode(Escape(p, s)) == Some(Utf8.Encode(s))
  {
    if s != [] {
      var c := s[0];
      PercentDecodeEscape(p, s[1..]);
      var rest := Escape(p, s[1..]);
      if Keeps(p, c) {
        assert ([c] + rest)[1..] == rest;
      } else {
        PercentDecodeOctets(Utf8.EncodeChar(c), rest, Utf8.Encode(s[1..]));
      }
    }
  }

  /** Every string survives an escape/unescape round trip, under each policy. */
  lemma EscapeRoundTrip(p: Policy, s: string)
    ensures Unescape(Escape(p, s)) == Some(s)
  {
    PercentDecodeEscape(p, s);
    Utf8.DecodeEncode(s);
  }

  /** A string made only of kept characters is not changed. */
  lemma {:induction false} EscapeKeepsSafeText(p: Policy, s: string)
    requires forall i :: 0 <= i < |s| ==> Keeps(p, s[i])
    ensures Escape(p, s) == s
  {
    if s != [] {
      EscapeKeepsSafeText(p, s[1..]);
      assert [s[0]] + s[1..] == s;
    }
  }

  /** The characters an escaped string can contain. */
  predicate IsEscapedChar(p: Policy, c: char) {
    Keeps(p, c) || c == '%' || ('0' <= c <= '9') || ('A' <= c <= 'F')
  }

  lemma {:induction false} EscapeOctetsAlphabet(b: seq<Byte>)
    ensures forall i :: 0 <= i < |EscapeOctets(b)| ==>
      EscapeOctets(b)[i] == '%' || ('0' <= EscapeOctets(b)[i] <= '9') || ('A' <= EscapeOctets(b)[i] <= 'F')
  {
    if b != [] {
      EscapeOctetsAlphabet(b[1..]);
    }
  }

  /** Escaped text contains only kept characters, `%` and upper-case hex digits. */
  lemma {:induction false} EscapeAlphabet(p: Policy, s: string)
    ensures forall i :: 0 <= i < |Escape(p, s)| ==> IsEscapedChar(p, Escape(p, s)[i])
  {
    if s != [] {
      EscapeAlphabet(p, s[1..]);
      EscapeOctetsAlphabet(Utf8.EncodeChar(s[0]));
      var head := EscapeChar(p, s[0]);
      var r := Escape(p, s);
      assert r == head + Escape(p, s[1..]);
      forall i | 0 <= i < |r|
        ensures IsEscapedChar(p, r[i])
      {
        if i >= |head| {
          assert r[i] == Escape(p, s[1..])[i - |head|];
        }
      }
    }
  }

  lemma CharNotInEscape(p: Policy, s: string, c: char)
    requires !IsEscapedChar(p, c)
    ensures c !in Escape(p, s)
  {
    EscapeAlphabet(p, s);
  }

  /** No policy keeps a brace, so an escaped value never forms a URL token. */
  lemma BracesAreEscaped(p: Policy, s: string)
    ensures '{' !in Escape(p, s) && '}' !in Escape(p, s)
  {
    CharNotInEscape(p, s, '{');
    CharNotInEscape(p, s, '}');
  }

  /** `encodeURIComponent` never keeps the form delimiters `&` and `=`. */
  lemma FormDelimitersAreEscaped(s: string)
    ensures '&' !in Escape(UriComponent, s) && '=' !in Escape(UriComponent, s)
  {
    CharNotInEscape(UriComponent, s, '&');
    CharNotInEscape(UriComponent, s, '=');
  }

  /**
   * The sub-delimiters `!*'()` are where the JavaScript port and .NET
   * differ: `encodeURIComponent` and `Uri.EscapeUriString` send them as
   * they are, `Uri.EscapeDataString` writes each as `%` and its two hex digits.
   */
  lemma SubDelimsDiffer(c: char)
    requires c in "!*'()"
    ensures Escape(UriComponent, [c]) == [c]
    ensures Escape(UriString, [c]) == [c]
    ensures Escape(DataString, [c]) == ['%', HexDigit(c as int / 16), HexDigit(c as int % 16)]
    ensures Escape(DataString, [c]) != [c]
  {
    assert [c][1..] == [];
    assert Utf8.EncodeChar(c) == [c as int];
    assert EscapeOctets([c as int]) == ['%', HexDigit(c as int / 16), HexDigit(c as int % 16)] + EscapeOctets([]);
  }
}
