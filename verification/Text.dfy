/** Strings of the library: byte sequences that are well-formed UTF-8. */
module Text {

  type Byte = b: int | 0 <= b < 256

  predicate Continuation(b: Byte) {
    0x80 <= b <= 0xBF
  }

  /** The well-formed byte sequences of section 4 of RFC 3629. */
  predicate ValidUtf8(s: seq<Byte>)
    decreases |s|
  {
    if |s| == 0 then true
    else if s[0] <= 0x7F then ValidUtf8(s[1..])
    else if 0xC2 <= s[0] <= 0xDF then
      |s| >= 2 && Continuation(s[1]) && ValidUtf8(s[2..])
    else if 0xE0 <= s[0] <= 0xEF then
      && |s| >= 3 && Continuation(s[1]) && Continuation(s[2])
      && (s[0] == 0xE0 ==> s[1] >= 0xA0)
      && (s[0] == 0xED ==> s[1] <= 0x9F)
      && ValidUtf8(s[3..])
    else if 0xF0 <= s[0] <= 0xF4 then
      && |s| >= 4 && Continuation(s[1]) && Continuation(s[2]) && Continuation(s[3])
      && (s[0] == 0xF0 ==> s[1] >= 0x90)
      && (s[0] == 0xF4 ==> s[1] <= 0x8F)
      && ValidUtf8(s[4..])
    else false
  }

  /** The scalar values of Unicode. */
  type Scalar = c: int | 0 <= c < 0xD800 || 0xE000 <= c <= 0x10FFFF

  /** A continuation byte with the lowest six bits of n. */
  function Low(n: nat): Byte {
    0x80 + n % 64
  }

  /** The bytes of one scalar value, by the table of section 3 of RFC 3629. */
  function EncodeScalar(c: Scalar): seq<Byte> {
    if c < 0x80 then [c]
    else if c < 0x800 then [0xC0 + c / 64, Low(c)]
    else if c < 0x10000 then [0xE0 + c / 4096, Low(c / 64), Low(c)]
    else [0xF0 + c / 262144, Low(c / 4096), Low(c / 64), Low(c)]
  }

  function EncodeScalars(cs: seq<Scalar>): seq<Byte> {
    if cs == [] then [] else EncodeScalar(cs[0]) + EncodeScalars(cs[1..])
  }

  lemma TwoBytes(b0: Byte, b1: Byte) returns (c: Scalar)
    requires 0xC2 <= b0 <= 0xDF && Continuation(b1)
    ensures EncodeScalar(c) == [b0, b1]
  {
    c := (b0 as int - 0xC0) * 64 + (b1 as int - 0x80);
    assert c / 64 == b0 as int - 0xC0 && c % 64 == b1 as int - 0x80;
  }

  lemma ThreeBytes(b0: Byte, b1: Byte, b2: Byte) returns (c: Scalar)
    requires 0xE0 <= b0 <= 0xEF && Continuation(b1) && Continuation(b2)
    requires (b0 == 0xE0 ==> b1 >= 0xA0) && (b0 == 0xED ==> b1 <= 0x9F)
    ensures EncodeScalar(c) == [b0, b1, b2]
  {
    var hi := (b0 as int - 0xE0) * 64 + (b1 as int - 0x80);
    c := hi * 64 + (b2 as int - 0x80);
    assert c / 64 == hi && c % 64 == b2 as int - 0x80;
    assert hi % 64 == b1 as int - 0x80 && c / 4096 == b0 as int - 0xE0;
  }

  lemma FourBytes(b0: Byte, b1: Byte, b2: Byte, b3: Byte) returns (c: Scalar)
    requires 0xF0 <= b0 <= 0xF4 && Continuation(b1) && Continuation(b2) && Continuation(b3)
    requires (b0 == 0xF0 ==> b1 >= 0x90) && (b0 == 0xF4 ==> b1 <= 0x8F)
    ensures EncodeScalar(c) == [b0, b1, b2, b3]
  {
    var top := (b0 as int - 0xF0) * 64 + (b1 as int - 0x80);
    var hi := top * 64 + (b2 as int - 0x80);
    c := hi * 64 + (b3 as int - 0x80);
    assert c / 64 == hi && c % 64 == b3 as int - 0x80;
    assert hi % 64 == b2 as int - 0x80 && c / 4096 == top;
    assert top % 64 == b1 as int - 0x80 && c / 262144 == b0 as int - 0xF0;
  }

  /** A valid text starts with the bytes of one scalar value. */
  lemma FirstScalar(s: seq<Byte>) returns (c: Scalar, rest: seq<Byte>)
    requires s != [] && ValidUtf8(s)
    ensures s == EncodeScalar(c) + rest && ValidUtf8(rest) && |rest| < |s|
  {
    if s[0] <= 0x7F {
      c, rest := s[0], s[1..];
      assert EncodeScalar(c) == [s[0]];
    } else if s[0] <= 0xDF {
      c := TwoBytes(s[0], s[1]);
      rest := s[2..];
    } else if s[0] <= 0xEF {
      c := ThreeBytes(s[0], s[1], s[2]);
      rest := s[3..];
    } else {
      c := FourBytes(s[0], s[1], s[2], s[3]);
      rest := s[4..];
    }
  }

  lemma ScalarValid(c: Scalar, rest: seq<Byte>)
    requires ValidUtf8(rest)
    ensures ValidUtf8(EncodeScalar(c) + rest)
  {
    var e := EncodeScalar(c);
    var s := e + rest;
    assert s[|e|..] == rest;
    assert forall k :: 0 <= k < |e| ==> s[k] == e[k];
  }

  lemma {:induction false} Scalars(s: seq<Byte>) returns (cs: seq<Scalar>)
    requires ValidUtf8(s)
    ensures EncodeScalars(cs) == s
    decreases |s|
  {
    if s == [] {
      cs := [];
    } else {
      var c, rest := FirstScalar(s);
      var more := Scalars(rest);
      cs := [c] + more;
    }
  }

  lemma {:induction false} EncodedValid(cs: seq<Scalar>)
    ensures ValidUtf8(EncodeScalars(cs))
    decreases |cs|
  {
    if cs != [] {
      EncodedValid(cs[1..]);
      ScalarValid(cs[0], EncodeScalars(cs[1..]));
    }
  }

  /** The valid byte sequences are exactly the encodings of sequences of scalar values. */
  lemma ValidIffEncodes(s: seq<Byte>)
    ensures ValidUtf8(s) <==> exists cs: seq<Scalar> :: EncodeScalars(cs) == s
  {
    if ValidUtf8(s) {
      var cs := Scalars(s);
    }
    forall cs: seq<Scalar> | EncodeScalars(cs) == s ensures ValidUtf8(s) {
      EncodedValid(cs);
    }
  }

  type Utf8 = s: seq<Byte> | ValidUtf8(s)

  datatype Text = Text(bytes: Utf8)

  const EMPTY := Text([])
}
