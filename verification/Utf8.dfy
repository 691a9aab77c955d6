/** UTF-8 (RFC 3629) as Python's strict codec: text of Unicode scalar values to bytes and back. */
module Utf8 {
  import opened Bytes
  import opened Wrappers

  function Tail(n: int): byte
    requires 0 <= n
  {
    (0x80 + n % 0x40) as byte
  }

  function EncodeChar(c: char): (b: bytes)
    ensures 1 <= |b| <= 4
  {
    var n := c as int;
    var n1 := n / 0x40;
    var n2 := n1 / 0x40;
    if n < 0x80 then [n as byte]
    else if n < 0x800 then [(0xC0 + n1) as byte, Tail(n)]
    else if n < 0x1_0000 then [(0xE0 + n2) as byte, Tail(n1), Tail(n)]
    else [(0xF0 + n2 / 0x40) as byte, Tail(n2), Tail(n1), Tail(n)]
  }

  /** `text.encode("utf-8")`. */
  function Encode(s: string): bytes {
    if s == "" then [] else EncodeChar(s[0]) + Encode(s[1..])
  }

  predicate IsTail(b: byte) { 0x80 <= b < 0xC0 }

  predicate IsScalar(n: int) { 0 <= n < 0xD800 || 0xE000 <= n < 0x11_0000 }

  datatype Scalar = Scalar(c: char, width: nat)

  function Bits(b: byte): int { b as int - 0x80 }

  function Two(lead: int, b1: byte): int { (lead - 0xC0) * 0x40 + Bits(b1) }
  function Three(lead: int, b1: byte, b2: byte): int { ((lead - 0xE0) * 0x40 + Bits(b1)) * 0x40 + Bits(b2) }
  function Four(lead: int, b1: byte, b2: byte, b3: byte): int {
    (((lead - 0xF0) * 0x40 + Bits(b1)) * 0x40 + Bits(b2)) * 0x40 + Bits(b3)
  }

  /** The scalar value at the front of the bytes: overlong forms, surrogates and stray bytes are errors. */
  function DecodeFirst(b: bytes): (r: Option<Scalar>)
    requires b != []
    ensures r.Some? ==> 1 <= r.value.width <= |b|
  {
    var lead := b[0] as int;
    if lead < 0x80 then Some(Scalar(lead as char, 1))
    else if 0xC2 <= lead < 0xE0 && |b| >= 2 && IsTail(b[1]) then
      Some(Scalar(Two(lead, b[1]) as char, 2))
    else if 0xE0 <= lead < 0xF0 && |b| >= 3 && IsTail(b[1]) && IsTail(b[2]) then
      var n := Three(lead, b[1], b[2]);
      if n >= 0x800 && IsScalar(n) then Some(Scalar(n as char, 3)) else None
    else if 0xF0 <= lead < 0xF5 && |b| >= 4 && IsTail(b[1]) && IsTail(b[2]) && IsTail(b[3]) then
      var n := Four(lead, b[1], b[2], b[3]);
      if n >= 0x1_0000 && IsScalar(n) then Some(Scalar(n as char, 4)) else None
    else None
  }

  /** `raw.decode("utf-8")`; `None` stands for `UnicodeDecodeError`. */
  function Decode(b: bytes): Option<string> {
    if b == [] then Some("")
    else match DecodeFirst(b)
      case None => None
      case Some(first) =>
        match Decode(b[first.width..])
        case None => None
        case Some(rest) => Some([first.c] + rest)
  }

  lemma DecodeEncodedChar(c: char, rest: bytes)
    ensures DecodeFirst(EncodeChar(c) + rest) == Some(Scalar(c, |EncodeChar(c)|))
  {
    var n := c as int;
    var n1 := n / 0x40;
    var n2 := n1 / 0x40;
    var b := EncodeChar(c) + rest;
    if n < 0x80 {
    } else if n < 0x800 {
      assert Two(b[0] as int, b[1]) == n1 * 0x40 + n % 0x40 == n;
    } else if n < 0x1_0000 {
      assert Three(b[0] as int, b[1], b[2]) == (n2 * 0x40 + n1 % 0x40) * 0x40 + n % 0x40 == n;
    } else {
      assert Four(b[0] as int, b[1], b[2], b[3]) ==
             ((n2 / 0x40 * 0x40 + n2 % 0x40) * 0x40 + n1 % 0x40) * 0x40 + n % 0x40 == n;
    }
  }

  lemma {:induction false} DecodeEncode(s: string)
    ensures Decode(Encode(s)) == Some(s)
  {
    if s != "" {
      DecodeEncode(s[1..]);
      DecodeEncodedChar(s[0], Encode(s[1..]));
      var b := Encode(s);
      assert b != [] && b[|EncodeChar(s[0])|..] == Encode(s[1..]);
      assert [s[0]] + s[1..] == s;
    }
  }

  lemma EncodeDecodedChar(b: bytes)
    requires b != [] && DecodeFirst(b).Some?
    ensures EncodeChar(DecodeFirst(b).value.c) == b[..DecodeFirst(b).value.width]
  {
    var lead := b[0] as int;
    var n := DecodeFirst(b).value.c as int;
    if lead < 0x80 {
    } else if lead < 0xE0 {
      Peel(lead - 0xC0, Bits(b[1]));
    } else if lead < 0xF0 {
      Peel((lead - 0xE0) * 0x40 + Bits(b[1]), Bits(b[2]));
      Peel(lead - 0xE0, Bits(b[1]));
    } else {
      Peel(((lead - 0xF0) * 0x40 + Bits(b[1])) * 0x40 + Bits(b[2]), Bits(b[3]));
      Peel((lead - 0xF0) * 0x40 + Bits(b[1]), Bits(b[2]));
      Peel(lead - 0xF0, Bits(b[1]));
    }
  }

  lemma Peel(high: int, low: int)
    requires 0 <= high && 0 <= low < 0x40
    ensures (high * 0x40 + low) / 0x40 == high && (high * 0x40 + low) % 0x40 == low
  {
  }

  lemma EncodeFirst(c: char, rest: string)
    ensures Encode([c] + rest) == EncodeChar(c) + Encode(rest)
  {
    assert ([c] + rest)[1..] == rest;
  }

  /** An accepted byte string is the encoding of its text: decoding is injective. */
  lemma {:induction false} EncodeDecode(b: bytes)
    requires Decode(b).Some?
    ensures Encode(Decode(b).value) == b
  {
    hide DecodeFirst, EncodeChar;
    if b != [] {
      var first := DecodeFirst(b).value;
      EncodeDecodedChar(b);
      EncodeDecode(b[first.width..]);
      var rest := Decode(b[first.width..]).value;
      EncodeFirst(first.c, rest);
      assert b == b[..first.width] + b[first.width..];
    }
  }

  lemma {:induction false} EncodeConcat(s: string, t: string)
    ensures Encode(s + t) == Encode(s) + Encode(t)
  {
    if s == "" {
      assert s + t == t;
    } else {
      assert (s + t)[1..] == s[1..] + t;
      EncodeConcat(s[1..], t);
    }
  }
}
