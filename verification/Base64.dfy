/**
 The standard Base64 encoding of RFC 4648: the alphabet of section 4, padding as in section 3.2, and
 the strict decoding of section 3.5 that accepts no stray bits and no missing padding.
 */
module Base64 {
  import opened Wrappers
  import opened Text

  type Sextet = n: int | 0 <= n < 64

  function Digit(n: Sextet): char {
    if n < 26 then 'A' + n as char
    else if n < 52 then 'a' + (n - 26) as char
    else if n < 62 then '0' + (n - 52) as char
    else if n == 62 then '+'
    else '/'
  }

  function Value(c: char): Option<Sextet> {
    if 'A' <= c <= 'Z' then Some(c as int - 'A' as int)
    else if 'a' <= c <= 'z' then Some(c as int - 'a' as int + 26)
    else if '0' <= c <= '9' then Some(c as int - '0' as int + 52)
    else if c == '+' then Some(62)
    else if c == '/' then Some(63)
    else None
  }

  lemma DigitValue(n: Sextet)
    ensures Value(Digit(n)) == Some(n)
  {
  }

  lemma ValueDigit(c: char)
    requires Value(c).Some?
    ensures Digit(Value(c).value) == c
  {
  }

  const UPPER := "ABCDEFGHIJKLMNOPQRSTUVWXYZ"
  const LOWER := "abcdefghijklmnopqrstuvwxyz"

  /** The alphabet of section 4 of RFC 4648. */
  const ALPHABET := UPPER + LOWER + "0123456789+/"

  lemma UpperDigit(n: Sextet)
    requires n < 26
    ensures |UPPER| == 26 && Digit(n) == UPPER[n]
  {
  }

  lemma LowerDigit(n: Sextet)
    requires 26 <= n < 52
    ensures |LOWER| == 26 && Digit(n) == LOWER[n - 26]
  {
  }

  lemma DigitInAlphabet(n: Sextet)
    ensures |ALPHABET| == 64 && Digit(n) == ALPHABET[n]
  {
    assert |UPPER| == 26 && |LOWER| == 26;
    if n < 26 {
      UpperDigit(n);
    } else if n < 52 {
      LowerDigit(n);
    } else {
      assert ALPHABET[n] == "0123456789+/"[n - 52];
    }
  }

  function Encode(b: seq<Byte>): string {
    if |b| == 0 then ""
    else if |b| == 1 then [Digit(b[0] / 4), Digit(b[0] % 4 * 16), '=', '=']
    else if |b| == 2 then [Digit(b[0] / 4), Digit(b[0] % 4 * 16 + b[1] / 16), Digit(b[1] % 16 * 4), '=']
    else [Digit(b[0] / 4), Digit(b[0] % 4 * 16 + b[1] / 16), Digit(b[1] % 16 * 4 + b[2] / 64), Digit(b[2] % 64)]
         + Encode(b[3..])
  }

  /** The bytes of the last four characters, which may be padded. */
  function DecodeLast(s: string): Option<seq<Byte>>
    requires |s| == 4
  {
    var v0, v1, v2, v3 := Value(s[0]), Value(s[1]), Value(s[2]), Value(s[3]);
    if v0.None? || v1.None? then None
    else if s[2] == '=' then
      if s[3] == '=' && v1.value % 16 == 0 then Some([v0.value * 4 + v1.value / 16]) else None
    else if v2.None? then None
    else if s[3] == '=' then
      if v2.value % 4 == 0 then Some([v0.value * 4 + v1.value / 16, v1.value % 16 * 16 + v2.value / 4]) else None
    else if v3.None? then None
    else Some(Three(v0.value, v1.value, v2.value, v3.value))
  }

  function Three(v0: Sextet, v1: Sextet, v2: Sextet, v3: Sextet): seq<Byte> {
    [v0 * 4 + v1 / 16, v1 % 16 * 16 + v2 / 4, v2 % 4 * 64 + v3]
  }

  function Decode(s: string): Option<seq<Byte>> {
    if |s| == 0 then Some([])
    else if |s| < 4 then None
    else if |s| == 4 then DecodeLast(s)
    else
      var v0, v1, v2, v3 := Value(s[0]), Value(s[1]), Value(s[2]), Value(s[3]);
      if v0.None? || v1.None? || v2.None? || v3.None? then None
      else
        match Decode(s[4..])
        case None => None
        case Some(rest) => Some(Three(v0.value, v1.value, v2.value, v3.value) + rest)
  }

  /** Three bytes survive being cut into sextets. */
  lemma JoinSextets(b0: Byte, b1: Byte, b2: Byte)
    ensures Three(b0 / 4, b0 % 4 * 16 + b1 / 16, b1 % 16 * 4 + b2 / 64, b2 % 64) == [b0, b1, b2]
  {
    var v1, v2 := b0 % 4 * 16 + b1 / 16, b1 % 16 * 4 + b2 / 64;
    assert v1 / 16 == b0 % 4 && v1 % 16 == b1 / 16;
    assert v2 / 4 == b1 % 16 && v2 % 4 == b2 / 64;
  }

  /** Four sextets survive being joined into bytes. */
  lemma CutBytes(v0: Sextet, v1: Sextet, v2: Sextet, v3: Sextet)
    ensures var b := Three(v0, v1, v2, v3);
            && b[0] / 4 == v0 && b[0] % 4 * 16 + b[1] / 16 == v1
            && b[1] % 16 * 4 + b[2] / 64 == v2 && b[2] % 64 == v3
            && b[0] % 4 == v1 / 16 && b[1] % 16 == v2 / 4
  {
    var b0, b1, b2 := v0 * 4 + v1 / 16, v1 % 16 * 16 + v2 / 4, v2 % 4 * 64 + v3;
    assert b0 / 4 == v0 && b0 % 4 == v1 / 16;
    assert b1 / 16 == v1 % 16 && b1 % 16 == v2 / 4;
    assert b2 / 64 == v2 % 4 && b2 % 64 == v3;
  }

  lemma DecodeEncodeOne(b0: Byte)
    ensures Decode(Encode([b0])) == Some([b0])
  {
    JoinSextets(b0, 0, 0);
    DigitValue(b0 / 4);
    DigitValue(b0 % 4 * 16);
    assert Three(b0 / 4, b0 % 4 * 16, 0, 0)[..1] == [b0];
  }

  lemma DecodeEncodeTwo(b0: Byte, b1: Byte)
    ensures Decode(Encode([b0, b1])) == Some([b0, b1])
  {
    var v0, v1, v2 := b0 / 4, b0 % 4 * 16 + b1 / 16, b1 % 16 * 4;
    JoinSextets(b0, b1, 0);
    DigitValue(v0);
    DigitValue(v1);
    DigitValue(v2);
    assert Three(v0, v1, v2, 0)[..2] == [b0, b1];
  }

  lemma DecodeFour(v0: Sextet, v1: Sextet, v2: Sextet, v3: Sextet, rest: string)
    ensures Decode([Digit(v0), Digit(v1), Digit(v2), Digit(v3)] + rest) ==
            match Decode(rest) case None => None case Some(b) => Some(Three(v0, v1, v2, v3) + b)
  {
    var s := [Digit(v0), Digit(v1), Digit(v2), Digit(v3)] + rest;
    assert s[4..] == rest;
    DigitValue(v0);
    DigitValue(v1);
    DigitValue(v2);
    DigitValue(v3);
    assert Three(v0, v1, v2, v3) + [] == Three(v0, v1, v2, v3);
  }

  lemma EncodeThree(v0: Sextet, v1: Sextet, v2: Sextet, v3: Sextet, rest: seq<Byte>)
    ensures Encode(Three(v0, v1, v2, v3) + rest) == [Digit(v0), Digit(v1), Digit(v2), Digit(v3)] + Encode(rest)
  {
    var t := Three(v0, v1, v2, v3);
    var b := t + rest;
    assert b[3..] == rest && b[0] == t[0] && b[1] == t[1] && b[2] == t[2];
    CutBytes(v0, v1, v2, v3);
  }

  lemma CutThree(b: seq<Byte>) returns (v0: Sextet, v1: Sextet, v2: Sextet, v3: Sextet)
    requires |b| >= 3
    ensures b == Three(v0, v1, v2, v3) + b[3..]
  {
    v0, v1, v2, v3 := b[0] / 4, b[0] % 4 * 16 + b[1] / 16, b[1] % 16 * 4 + b[2] / 64, b[2] % 64;
    JoinSextets(b[0], b[1], b[2]);
    assert b == [b[0], b[1], b[2]] + b[3..];
  }

  lemma DecodeEncodeThree(v0: Sextet, v1: Sextet, v2: Sextet, v3: Sextet, rest: seq<Byte>)
    requires Decode(Encode(rest)) == Some(rest)
    ensures Decode(Encode(Three(v0, v1, v2, v3) + rest)) == Some(Three(v0, v1, v2, v3) + rest)
  {
    EncodeThree(v0, v1, v2, v3, rest);
    DecodeFour(v0, v1, v2, v3, Encode(rest));
  }

  lemma {:induction false} DecodeEncode(b: seq<Byte>)
    ensures Decode(Encode(b)) == Some(b)
    decreases |b|
  {
    if |b| == 1 {
      DecodeEncodeOne(b[0]);
      assert b == [b[0]];
    } else if |b| == 2 {
      DecodeEncodeTwo(b[0], b[1]);
      assert b == [b[0], b[1]];
    } else if |b| >= 3 {
      DecodeEncode(b[3..]);
      var v0, v1, v2, v3 := CutThree(b);
      DecodeEncodeThree(v0, v1, v2, v3, b[3..]);
    }
  }

  lemma EncodeDecodeLast(s: string)
    requires |s| == 4 && DecodeLast(s).Some?
    ensures Encode(DecodeLast(s).value) == s
  {
    var v0, v1 := Value(s[0]).value, Value(s[1]).value;
    ValueDigit(s[0]);
    ValueDigit(s[1]);
    if s[2] == '=' {
      CutBytes(v0, v1, 0, 0);
    } else {
      var v2 := Value(s[2]).value;
      ValueDigit(s[2]);
      if s[3] == '=' {
        CutBytes(v0, v1, v2, 0);
      } else {
        ValueDigit(s[3]);
        EncodeThree(v0, v1, v2, Value(s[3]).value, []);
        assert DecodeLast(s).value + [] == DecodeLast(s).value;
      }
    }
  }

  lemma DecodeStep(s: string)
    requires |s| > 4 && Decode(s).Some?
    ensures Decode(s[4..]).Some? && Value(s[0]).Some? && Value(s[1]).Some? && Value(s[2]).Some? && Value(s[3]).Some?
    ensures Decode(s).value == Three(Value(s[0]).value, Value(s[1]).value, Value(s[2]).value, Value(s[3]).value)
                               + Decode(s[4..]).value
  {
  }

  lemma EncodeDecodeFour(s: string)
    requires |s| > 4 && Decode(s).Some? && Encode(Decode(s[4..]).value) == s[4..]
    ensures Encode(Decode(s).value) == s
  {
    DecodeStep(s);
    EncodeThree(Value(s[0]).value, Value(s[1]).value, Value(s[2]).value, Value(s[3]).value, Decode(s[4..]).value);
    FourDigits(s);
  }

  lemma FourDigits(s: string)
    requires |s| > 4
    requires Value(s[0]).Some? && Value(s[1]).Some? && Value(s[2]).Some? && Value(s[3]).Some?
    ensures s == [Digit(Value(s[0]).value), Digit(Value(s[1]).value), Digit(Value(s[2]).value), Digit(Value(s[3]).value)]
                 + s[4..]
  {
    ValueDigit(s[0]);
    ValueDigit(s[1]);
    ValueDigit(s[2]);
    ValueDigit(s[3]);
    assert s == [s[0], s[1], s[2], s[3]] + s[4..];
  }

  /** Three bytes, as one 24-bit number, are four digits of base 64, most significant first. */
  lemma EncodeFull(b: seq<Byte>) returns (v0: Sextet, v1: Sextet, v2: Sextet, v3: Sextet)
    requires |b| >= 3
    ensures |ALPHABET| == 64
    ensures Encode(b) == [ALPHABET[v0], ALPHABET[v1], ALPHABET[v2], ALPHABET[v3]] + Encode(b[3..])
    ensures v0 as int * 262144 + v1 as int * 4096 + v2 as int * 64 + v3 as int
         == b[0] as int * 65536 + b[1] as int * 256 + b[2] as int
  {
    v0, v1, v2, v3 := b[0] / 4, b[0] % 4 * 16 + b[1] / 16, b[1] % 16 * 4 + b[2] / 64, b[2] % 64;
    DigitInAlphabet(v0);
    DigitInAlphabet(v1);
    DigitInAlphabet(v2);
    DigitInAlphabet(v3);
  }

  /** A last byte or two are filled up with zero bits, and the encoding with equals signs. */
  lemma EncodeTail(b: seq<Byte>) returns (v0: Sextet, v1: Sextet, v2: Sextet)
    requires |b| < 3
    ensures |ALPHABET| == 64
    ensures |b| == 0 ==> Encode(b) == ""
    ensures |b| == 1 ==>
              Encode(b) == [ALPHABET[v0], ALPHABET[v1], '=', '='] && v0 as int * 64 + v1 as int == b[0] as int * 16
    ensures |b| == 2 ==>
              Encode(b) == [ALPHABET[v0], ALPHABET[v1], ALPHABET[v2], '=']
              && v0 as int * 4096 + v1 as int * 64 + v2 as int == (b[0] as int * 256 + b[1] as int) * 4
  {
    v0, v1, v2 := 0, 0, 0;
    if |b| == 1 {
      v0, v1 := b[0] / 4, b[0] % 4 * 16;
    } else if |b| == 2 {
      v0, v1, v2 := b[0] / 4, b[0] % 4 * 16 + b[1] / 16, b[1] % 16 * 4;
    }
    DigitInAlphabet(v0);
    DigitInAlphabet(v1);
    DigitInAlphabet(v2);
  }

  /** Only encodings are accepted, so no two accepted strings decode alike. */
  lemma {:induction false} EncodeDecode(s: string)
    requires Decode(s).Some?
    ensures Encode(Decode(s).value) == s
    decreases |s|
  {
    if |s| == 4 {
      EncodeDecodeLast(s);
    } else if |s| > 4 {
      EncodeDecode(s[4..]);
      EncodeDecodeFour(s);
    }
  }

  /** An encoding never contains the separator of the sw8 header. */
  lemma {:induction false} EncodeHasNoDash(b: seq<Byte>)
    ensures '-' !in Encode(b)
    decreases |b|
  {
    if |b| >= 3 {
      EncodeHasNoDash(b[3..]);
    }
  }
}
