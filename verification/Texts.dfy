/** Well-formed UTF-8, as the decoders of host names demand it: Table 3-7 of the Unicode Standard. */
module Texts {
  import opened Bytes

  predicate Follows(b: byte) {
    0x80 <= b < 0xC0
  }

  /** The length of the character at the front, or 0 if there is no well-formed one. */
  function CharLen(s: seq<byte>): (n: nat)
    ensures n <= |s|
  {
    if s == [] then 0
    else if s[0] < 0x80 then 1
    else if 0xC2 <= s[0] < 0xE0 then
      if |s| >= 2 && Follows(s[1]) then 2 else 0
    else if 0xE0 <= s[0] < 0xF0 then
      if |s| >= 3 && Follows(s[1]) && Follows(s[2]) && (s[0] == 0xE0 ==> s[1] >= 0xA0) && (s[0] == 0xED ==> s[1] < 0xA0)
      then 3 else 0
    else if 0xF0 <= s[0] < 0xF5 then
      if |s| >= 4 && Follows(s[1]) && Follows(s[2]) && Follows(s[3])
         && (s[0] == 0xF0 ==> s[1] >= 0x90) && (s[0] == 0xF4 ==> s[1] < 0x90)
      then 4 else 0
    else 0
  }

  predicate Utf8(s: seq<byte>)
    decreases |s|
  {
    s == [] || (CharLen(s) > 0 && Utf8(s[CharLen(s)..]))
  }

  /** A Unicode scalar value. */
  type Scalar = c: int | 0 <= c < 0xD800 || 0xE000 <= c < 0x11_0000

  function Encode(c: Scalar): (s: seq<byte>)
    ensures s != []
  {
    if c < 0x80 then [c]
    else if c < 0x800 then [0xC0 + c / 0x40, 0x80 + c % 0x40]
    else if c < 0x1_0000 then [0xE0 + c / 0x1000, 0x80 + c / 0x40 % 0x40, 0x80 + c % 0x40]
    else [0xF0 + c / 0x4_0000, 0x80 + c / 0x1000 % 0x40, 0x80 + c / 0x40 % 0x40, 0x80 + c % 0x40]
  }

  function Encoded(cs: seq<Scalar>): seq<byte> {
    if cs == [] then [] else Encode(cs[0]) + Encoded(cs[1..])
  }

  lemma ThreeDigits(c: nat)
    requires 0x800 <= c < 0x1_0000
    ensures c / 0x1000 < 0x10 && (c / 0x1000 == 0 ==> c / 0x40 % 0x40 >= 0x20)
    ensures c < 0xD800 && c / 0x1000 == 0xD ==> c / 0x40 % 0x40 < 0x20
  {
    var q := c / 0x40;
    Shifts(c);
    assert q == q / 0x40 * 0x40 + q % 0x40;
  }

  lemma FourDigits(c: nat)
    requires 0x1_0000 <= c < 0x11_0000
    ensures c / 0x4_0000 < 5 && (c / 0x4_0000 == 0 ==> c / 0x1000 % 0x40 >= 0x10)
    ensures c / 0x4_0000 == 4 ==> c / 0x1000 % 0x40 < 0x10
  {
    var q := c / 0x1000;
    Shifts(c);
    assert q == q / 0x40 * 0x40 + q % 0x40;
  }

  lemma EncodedLength(c: Scalar, rest: seq<byte>)
    ensures CharLen(Encode(c) + rest) == |Encode(c)|
  {
    if 0x800 <= c < 0x1_0000 {
      ThreeDigits(c);
      LongCharLen(Encode(c), rest);
    } else if 0x1_0000 <= c {
      FourDigits(c);
      LongCharLen(Encode(c), rest);
    }
  }

  /** What comes after a character does not change its length. */
  lemma LongCharLen(s: seq<byte>, rest: seq<byte>)
    requires CharLen(s) == |s| > 0
    ensures CharLen(s + rest) == |s|
  {
    assert (s + rest)[..|s|] == s;
    assert forall i :: 0 <= i < |s| ==> (s + rest)[i] == s[i];
  }

  lemma {:induction false} EncodedIsUtf8(cs: seq<Scalar>)
    ensures Utf8(Encoded(cs))
    decreases |cs|
  {
    hide Encode, CharLen;
    if cs != [] {
      EncodedIsUtf8(cs[1..]);
      EncodedLength(cs[0], Encoded(cs[1..]));
      assert Encoded(cs)[|Encode(cs[0])|..] == Encoded(cs[1..]);
    }
  }

  lemma LastDigit(q: int, w: int)
    requires 0 <= q && 0 <= w < 0x40
    ensures (q * 0x40 + w) / 0x40 == q && (q * 0x40 + w) % 0x40 == w
  {
  }

  lemma Shifts(c: nat)
    ensures c / 0x1000 == c / 0x40 / 0x40 && c / 0x4_0000 == c / 0x1000 / 0x40
  {
  }

  lemma ThreeBytes(b0: int, b1: int, b2: int) returns (c: Scalar)
    requires 0xE0 <= b0 < 0xF0 && 0x80 <= b1 < 0xC0 && 0x80 <= b2 < 0xC0
    requires (b0 == 0xE0 ==> b1 >= 0xA0) && (b0 == 0xED ==> b1 < 0xA0)
    ensures Encode(c) == [b0, b1, b2]
  {
    var q := (b0 - 0xE0) * 0x40 + (b1 - 0x80);
    LastDigit(b0 - 0xE0, b1 - 0x80);
    LastDigit(q, b2 - 0x80);
    Shifts(q * 0x40 + (b2 - 0x80));
    return q * 0x40 + (b2 - 0x80);
  }

  lemma FourBytes(b0: int, b1: int, b2: int, b3: int) returns (c: Scalar)
    requires 0xF0 <= b0 < 0xF5 && 0x80 <= b1 < 0xC0 && 0x80 <= b2 < 0xC0 && 0x80 <= b3 < 0xC0
    requires (b0 == 0xF0 ==> b1 >= 0x90) && (b0 == 0xF4 ==> b1 < 0x90)
    ensures Encode(c) == [b0, b1, b2, b3]
  {
    var p := (b0 - 0xF0) * 0x40 + (b1 - 0x80);
    var q := p * 0x40 + (b2 - 0x80);
    LastDigit(b0 - 0xF0, b1 - 0x80);
    LastDigit(p, b2 - 0x80);
    LastDigit(q, b3 - 0x80);
    Shifts(q * 0x40 + (b3 - 0x80));
    return q * 0x40 + (b3 - 0x80);
  }

  /** The scalar value of the front character. */
  lemma FrontChar(s: seq<byte>) returns (c: Scalar)
    requires CharLen(s) > 0
    ensures Encode(c) == s[..CharLen(s)]
  {
    var n := CharLen(s);
    if n == 1 {
      c := s[0];
    } else if n == 2 {
      var b0: int, b1: int := s[0], s[1];
      LastDigit(b0 - 0xC0, b1 - 0x80);
      c := (b0 - 0xC0) * 0x40 + (b1 - 0x80);
    } else {
      hide Encode;
      if n == 3 {
        c := ThreeBytes(s[0], s[1], s[2]);
      } else {
        c := FourBytes(s[0], s[1], s[2], s[3]);
      }
    }
  }

  lemma {:induction false} Decoded(s: seq<byte>) returns (cs: seq<Scalar>)
    requires Utf8(s)
    ensures Encoded(cs) == s
    decreases |s|
  {
    hide Encode, CharLen;
    if s == [] {
      return [];
    }
    var c := FrontChar(s);
    var more := Decoded(s[CharLen(s)..]);
    cs := [c] + more;
    assert cs[1..] == more;
  }

  /** The check accepts exactly the encodings of sequences of scalar values. */
  lemma Utf8Exactly(s: seq<byte>)
    ensures Utf8(s) <==> exists cs :: Encoded(cs) == s
  {
    hide Encoded, Utf8;
    if Utf8(s) {
      var cs := Decoded(s);
    }
    if cs :| Encoded(cs) == s {
      EncodedIsUtf8(cs);
    }
  }
}
