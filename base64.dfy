/**
 * Base 64 encoding with the standard alphabet and `=` padding (section 4
 * of RFC 4648), as `Convert.ToBase64String` produces it, and the matching
 * decoder.
 */
module Base64 {
  import opened Wrappers
  import opened Text

  /** The character for a 6-bit group, from `A-Z a-z 0-9 + /`. */
  function Symbol(d: int): (c: char)
    requires 0 <= d < 64
  {
    if d < 26 then ('A' as int + d) as char
    else if d < 52 then ('a' as int + d - 26) as char
    else if d < 62 then ('0' as int + d - 52) as char
    else if d == 62 then '+'
    else '/'
  }

  /** The 6-bit group a character of the alphabet stands for. */
  function SymbolValue(c: char): (r: Option<int>)
    ensures r.Some? ==> 0 <= r.value < 64
  {
    if 'A' <= c <= 'Z' then Some(c as int - 'A' as int)
    else if 'a' <= c <= 'z' then Some(c as int - 'a' as int + 26)
    else if '0' <= c <= '9' then Some(c as int - '0' as int + 52)
    else if c == '+' then Some(62)
    else if c == '/' then Some(63)
    else None
  }

  predicate IsAlphabet(c: char) {
    SymbolValue(c).Some?
  }

  /** Three octets as four characters. */
  function EncodeGroup(b0: Byte, b1: Byte, b2: Byte): string {
    [Symbol(b0 / 4), Symbol((b0 % 4) * 16 + b1 / 16), Symbol((b1 % 16) * 4 + b2 / 64), Symbol(b2 % 64)]
  }

  function Encode(b: seq<Byte>): (r: string)
    ensures |r| == 4 * ((|b| + 2) / 3)
  {
    if |b| == 0 then ""
    else if |b| == 1 then [Symbol(b[0] / 4), Symbol((b[0] % 4) * 16), '=', '=']
    else if |b| == 2 then [Symbol(b[0] / 4), Symbol((b[0] % 4) * 16 + b[1] / 16), Symbol((b[1] % 16) * 4), '=']
    else EncodeGroup(b[0], b[1], b[2]) + Encode(b[3..])
  }

  /** The four characters of the last group, where `=` may pad. */
  function DecodeLast(q: string): (r: Option<seq<Byte>>)
    requires |q| == 4
  {
    var d0, d1 := SymbolValue(q[0]), SymbolValue(q[1]);
    if d0.None? || d1.None? then None
    else if q[2] == '=' && q[3] == '=' then
      Some([d0.value * 4 + d1.value / 16])
    else
      var d2 := SymbolValue(q[2]);
      if d2.None? then None
      else if q[3] == '=' then
        Some([d0.value * 4 + d1.value / 16, (d1.value % 16) * 16 + d2.value / 4])
      else
        var d3 := SymbolValue(q[3]);
        if d3.None? then None
        else Some([d0.value * 4 + d1.value / 16, (d1.value % 16) * 16 + d2.value / 4, (d2.value % 4) * 64 + d3.value])
  }

  /** Four characters with no padding. */
  function DecodeGroup(q: string): (r: Option<seq<Byte>>)
    requires |q| == 4
  {
    if q[2] == '=' || q[3] == '=' then None else DecodeLast(q)
  }

  function Decode(s: string): (r: Option<seq<Byte>>)
    decreases |s|
  {
    if |s| == 0 then Some([])
    else if |s| < 4 then None
    else if |s| == 4 then DecodeLast(s)
    else
      match DecodeGroup(s[..4])
      case None => None
      case Some(head) =>
        match Decode(s[4..])
        case None => None
        case Some(rest) => Some(head + rest)
  }

  lemma SymbolRoundTrip(d: int)
    requires 0 <= d < 64
    ensures SymbolValue(Symbol(d)) == Some(d)
  {
  }

  lemma DivMod16(q: int, r: int)
    requires 0 <= r < 16
    ensures (q * 16 + r) / 16 == q && (q * 16 + r) % 16 == r
  {
  }

  lemma DivMod4(q: int, r: int)
    requires 0 <= r < 4
    ensures (q * 4 + r) / 4 == q && (q * 4 + r) % 4 == r
  {
  }

  lemma DecodeEncodeGroup(b0: Byte, b1: Byte, b2: Byte)
    ensures DecodeGroup(EncodeGroup(b0, b1, b2)) == Some([b0, b1, b2])
    ensures DecodeLast(EncodeGroup(b0, b1, b2)) == Some([b0, b1, b2])
  {
    var d0, d1, d2, d3 := b0 / 4, (b0 % 4) * 16 + b1 / 16, (b1 % 16) * 4 + b2 / 64, b2 % 64;
    SymbolRoundTrip(d0);
    SymbolRoundTrip(d1);
    SymbolRoundTrip(d2);
    SymbolRoundTrip(d3);
    DivMod16(b0 % 4, b1 / 16);
    DivMod4(b1 % 16, b2 / 64);
  }

  lemma DecodeLastTwo(b0: Byte, b1: Byte)
    ensures DecodeLast([Symbol(b0 / 4), Symbol((b0 % 4) * 16 + b1 / 16), Symbol((b1 % 16) * 4), '=']) == Some([b0, b1])
  {
    var d0, d1, d2 := b0 / 4, (b0 % 4) * 16 + b1 / 16, (b1 % 16) * 4;
    SymbolRoundTrip(d0);
    SymbolRoundTrip(d1);
    SymbolRoundTrip(d2);
    DivMod16(b0 % 4, b1 / 16);
    DivMod4(b1 % 16, 0);
  }

  lemma DecodeLastOne(b0: Byte)
    ensures DecodeLast([Symbol(b0 / 4), Symbol((b0 % 4) * 16), '=', '=']) == Some([b0])
  {
    SymbolRoundTrip(b0 / 4);
    SymbolRoundTrip((b0 % 4) * 16);
  }

  lemma DecodeFour(q: string)
    requires |q| == 4
    ensures Decode(q) == DecodeLast(q)
  {
  }

  lemma EncodeOne(b: seq<Byte>)
    requires |b| == 1
    ensures Encode(b) == [Symbol(b[0] / 4), Symbol((b[0] % 4) * 16), '=', '=']
  {
  }

  lemma EncodeTwo(b: seq<Byte>)
    requires |b| == 2
    ensures Encode(b) == [Symbol(b[0] / 4), Symbol((b[0] % 4) * 16 + b[1] / 16), Symbol((b[1] % 16) * 4), '=']
  {
  }

  lemma EncodeThree(b: seq<Byte>)
    requires |b| == 3
    ensures Encode(b) == EncodeGroup(b[0], b[1], b[2])
  {
    assert Encode(b[3..]) == [];
  }

  lemma DecodeEncodeOne(b: seq<Byte>)
    requires |b| == 1
    ensures Decode(Encode(b)) == Some(b)
  {
    var q := [Symbol(b[0] / 4), Symbol((b[0] % 4) * 16), '=', '='];
    EncodeOne(b);
    DecodeFour(q);
    DecodeLastOne(b[0]);
    assert Decode(q) == Some([b[0]]);
    assert [b[0]] == b;
  }

  lemma DecodeEncodeTwo(b: seq<Byte>)
    requires |b| == 2
    ensures Decode(Encode(b)) == Some(b)
  {
    var q := [Symbol(b[0] / 4), Symbol((b[0] % 4) * 16 + b[1] / 16), Symbol((b[1] % 16) * 4), '='];
    EncodeTwo(b);
    DecodeFour(q);
    DecodeLastTwo(b[0], b[1]);
    assert Decode(q) == Some([b[0], b[1]]);
    assert [b[0], b[1]] == b;
  }

  lemma DecodeEncodeThree(b: seq<Byte>)
    requires |b| == 3
    ensures Decode(Encode(b)) == Some(b)
  {
    EncodeThree(b);
    DecodeFour(Encode(b));
    DecodeEncodeGroup(b[0], b[1], b[2]);
    assert [b[0], b[1], b[2]] == b;
  }

  /** Decoding an encoding gives back the original octets. */
  lemma {:induction false} DecodeEncode(b: seq<Byte>)
    ensures Decode(Encode(b)) == Some(b)
    decreases |b|
  {
    if |b| == 1 {
      DecodeEncodeOne(b);
    } else if |b| == 2 {
      DecodeEncodeTwo(b);
    } else if |b| == 3 {
      DecodeEncodeThree(b);
    } else if |b| > 3 {
      DecodeEncodeGroup(b[0], b[1], b[2]);
      DecodeEncode(b[3..]);
      assert Encode(b) == EncodeGroup(b[0], b[1], b[2]) + Encode(b[3..]);
      DecodeGroupThenRest(EncodeGroup(b[0], b[1], b[2]), Encode(b[3..]), [b[0], b[1], b[2]], b[3..]);
      assert [b[0], b[1], b[2]] + b[3..] == b;
    }
  }

  lemma DecodeGroupThenRest(q: string, t: string, head: seq<Byte>, rest: seq<Byte>)
    requires |q| == 4 && |t| > 0
    requires DecodeGroup(q) == Some(head) && Decode(t) == Some(rest)
    ensures Decode(q + t) == Some(head + rest)
  {
    assert (q + t)[..4] == q && (q + t)[4..] == t;
  }

  /** An encoding uses only the alphabet, with `=` only as trailing padding. */
  lemma {:induction false} EncodeAlphabet(b: seq<Byte>)
    ensures forall i :: 0 <= i < |Encode(b)| ==>
      IsAlphabet(Encode(b)[i]) || (Encode(b)[i] == '=' && i >= |Encode(b)| - 2)
    decreases |b|
  {
    if |b| > 3 {
      EncodeAlphabet(b[3..]);
      var s := Encode(b);
      var g := EncodeGroup(b[0], b[1], b[2]);
      assert s == g + Encode(b[3..]);
      forall i | 0 <= i < |s|
        ensures IsAlphabet(s[i]) || (s[i] == '=' && i >= |s| - 2)
      {
        if i < 4 {
          SymbolRoundTrip(b[0] / 4);
          SymbolRoundTrip((b[0] % 4) * 16 + b[1] / 16);
          SymbolRoundTrip((b[1] % 16) * 4 + b[2] / 64);
          SymbolRoundTrip(b[2] % 64);
        } else {
          assert s[i] == Encode(b[3..])[i - 4];
        }
      }
    } else if |b| == 3 {
      SymbolRoundTrip(b[0] / 4);
      SymbolRoundTrip((b[0] % 4) * 16 + b[1] / 16);
      SymbolRoundTrip((b[1] % 16) * 4 + b[2] / 64);
      SymbolRoundTrip(b[2] % 64);
    } else if |b| == 2 {
      SymbolRoundTrip(b[0] / 4);
      SymbolRoundTrip((b[0] % 4) * 16 + b[1] / 16);
      SymbolRoundTrip((b[1] % 16) * 4);
    } else if |b| == 1 {
      SymbolRoundTrip(b[0] / 4);
      SymbolRoundTrip((b[0] % 4) * 16);
    }
  }
}
