/** What the UTF-8 check accepts: exactly the encodings of sequences of Unicode scalar values. */
module Utf8 {
  import opened BinderKeys

  /** A code point other than a surrogate. */
  type Scalar = c: int | 0 <= c < 0xD800 || 0xE000 <= c < 0x11_0000

  /** A continuation byte carries the low six bits of what is left of the code point. */
  function Continuation(bits: nat): Byte {
    0x80 + bits % 64
  }

  /** The first byte of a longer encoding: a mark for its length and the bits that are left. */
  function Lead(mark: Byte, bits: nat): Byte
    requires mark + bits < 256
  {
    mark + bits
  }

  /** The encoding form of the Unicode standard: 7, 11, 16 or 21 bits, most significant first. */
  function Encode(c: Scalar): seq<Byte> {
    if c < 0x80 then [Lead(0, c)]
    else if c < 0x800 then [Lead(0xC0, c / 64), Continuation(c)]
    else if c < 0x1_0000 then [Lead(0xE0, c / 64 / 64), Continuation(c / 64), Continuation(c)]
    else [Lead(0xF0, c / 64 / 64 / 64), Continuation(c / 64 / 64), Continuation(c / 64), Continuation(c)]
  }

  function EncodeAll(cs: seq<Scalar>): seq<Byte> {
    if cs == [] then [] else Encode(cs[0]) + EncodeAll(cs[1..])
  }

  lemma {:induction false} TwoBytes(c: Scalar, rest: seq<Byte>)
    requires 0x80 <= c < 0x800
    ensures CharLength(Encode(c) + rest) == 2
  {
  }

  lemma {:induction false} ThreeBytes(c: Scalar, rest: seq<Byte>)
    requires 0x800 <= c < 0x1_0000
    ensures CharLength(Encode(c) + rest) == 3
  {
    var upper := c / 64;
    var high, mid := upper / 64, upper % 64;
    assert upper == 64 * high + mid && 0x20 <= upper < 0x400 && !(0x360 <= upper < 0x380);
    var s := Encode(c) + rest;
    assert s[0] == 0xE0 + high && s[1] == 0x80 + mid && s[2] == 0x80 + c % 64;
  }

  lemma {:induction false} FourBytes(c: Scalar, rest: seq<Byte>)
    requires 0x1_0000 <= c
    ensures CharLength(Encode(c) + rest) == 4
  {
    var upper := c / 64 / 64;
    var top, high := upper / 64, upper % 64;
    assert 0x10 <= upper < 0x110;
    assert upper == 64 * top + high;
    var s := Encode(c) + rest;
    assert s[0] == 0xF0 + top && s[1] == 0x80 + high && s[2] == 0x80 + c / 64 % 64 && s[3] == 0x80 + c % 64;
  }

  /** An encoding is recognised as one character, whatever follows. */
  lemma {:induction false} EncodedIsChar(c: Scalar, rest: seq<Byte>)
    ensures CharLength(Encode(c) + rest) == |Encode(c)|
  {
    if 0x80 <= c < 0x800 {
      TwoBytes(c, rest);
    } else if 0x800 <= c < 0x1_0000 {
      ThreeBytes(c, rest);
    } else if 0x1_0000 <= c {
      FourBytes(c, rest);
    }
  }

  /** Six more bits. */
  function Shift(upper: nat, low: nat): (c: nat)
    requires low < 64
    ensures c / 64 == upper && c % 64 == low
  {
    upper * 64 + low
  }

  lemma {:induction false} DecodeTwo(s: seq<Byte>) returns (c: Scalar)
    requires CharLength(s) == 2
    ensures Encode(c) == s[..2]
  {
    c := Shift(s[0] as int - 0xC0, s[1] as int - 0x80);
  }

  lemma {:induction false} DecodeThree(s: seq<Byte>) returns (c: Scalar)
    requires CharLength(s) == 3
    ensures Encode(c) == s[..3]
  {
    var upper := Shift(s[0] as int - 0xE0, s[1] as int - 0x80);
    c := Shift(upper, s[2] as int - 0x80);
  }

  lemma {:induction false} DecodeFour(s: seq<Byte>) returns (c: Scalar)
    requires CharLength(s) == 4
    ensures Encode(c) == s[..4]
  {
    var upper := Shift(s[0] as int - 0xF0, s[1] as int - 0x80);
    var middle := Shift(upper, s[2] as int - 0x80);
    c := Shift(middle, s[3] as int - 0x80);
  }

  /** What is recognised as a character is the encoding of a scalar value. */
  lemma {:induction false} CharIsEncoded(s: seq<Byte>) returns (c: Scalar)
    requires CharLength(s) > 0
    ensures Encode(c) == s[..CharLength(s)]
  {
    if CharLength(s) == 1 {
      c := s[0];
    } else if CharLength(s) == 2 {
      c := DecodeTwo(s);
    } else if CharLength(s) == 3 {
      c := DecodeThree(s);
    } else {
      c := DecodeFour(s);
    }
  }

  lemma {:induction false} EncodedIsValid(cs: seq<Scalar>)
    ensures ValidUtf8(EncodeAll(cs))
  {
    if cs != [] {
      EncodedIsValid(cs[1..]);
      EncodedIsChar(cs[0], EncodeAll(cs[1..]));
      assert EncodeAll(cs)[|Encode(cs[0])|..] == EncodeAll(cs[1..]);
    }
  }

  lemma {:induction false} ValidIsEncoded(s: seq<Byte>) returns (cs: seq<Scalar>)
    requires ValidUtf8(s)
    ensures EncodeAll(cs) == s
  {
    if s == [] {
      cs := [];
    } else {
      var n := CharLength(s);
      var c := CharIsEncoded(s);
      var rest := ValidIsEncoded(s[n..]);
      cs := [c] + rest;
      assert cs[1..] == rest;
      assert s == s[..n] + s[n..];
    }
  }

  /** A byte string passes the check if and only if it encodes some sequence of scalar values. */
  lemma {:induction false} ValidUtf8Iff(s: seq<Byte>)
    ensures ValidUtf8(s) <==> exists cs :: EncodeAll(cs) == s
  {
    if ValidUtf8(s) {
      var cs := ValidIsEncoded(s);
    } else if cs :| EncodeAll(cs) == s {
      EncodedIsValid(cs);
      assert false;
    }
  }

  /** Every ASCII string passes. */
  lemma {:induction false} AsciiIsValid(s: seq<Byte>)
    requires forall i :: 0 <= i < |s| ==> s[i] < 0x80
    ensures ValidUtf8(s)
  {
    if s != [] {
      AsciiIsValid(s[1..]);
    }
  }

  /** `bytes_as_str` reads exactly the encoded text before the first NUL. */
  lemma {:induction false} ReadsText(bytes: seq<Byte>, name: Name)
    ensures BytesAsStr(bytes).Ok? && BytesAsStr(bytes).value == name <==>
      && |name| < |bytes| && name == bytes[..|name|] && bytes[|name|] == 0 && NulFree(name)
      && exists cs :: EncodeAll(cs) == name
  {
    ValidUtf8Iff(name);
    if |name| < |bytes| && name == bytes[..|name|] && bytes[|name|] == 0 && NulFree(name) {
      FirstNulIs(bytes, |name|);
    }
  }
}
