/** Printing and parsing 32-bit signed integers in decimal, as the standard library does. */
module Decimal {
  import opened Wrappers

  const MAX_I32 := 0x7FFF_FFFF
  const MIN_I32 := -0x8000_0000

  function DigitChar(d: int): char
    requires 0 <= d < 10
  {
    '0' + d as char
  }

  function PrintNat(n: nat): string {
    (if n < 10 then "" else PrintNat(n / 10)) + [DigitChar(n % 10)]
  }

  function PrintI32(n: int): string {
    if n < 0 then "-" + PrintNat(-n) else PrintNat(n)
  }

  /** The number written by one or more digits; None when there are none, or other characters. */
  function ParseNat(s: string): Option<nat> {
    if s == "" then None
    else
      var k := |s| - 1;
      if !('0' <= s[k] <= '9') then None
      else
        var d := s[k] as int - '0' as int;
        if k == 0 then Some(d)
        else
          match ParseNat(s[..k])
          case None => None
          case Some(n) => Some(n * 10 + d)
  }

  /** An optional sign and digits; leading zeros are accepted, numbers out of range are not. */
  function ParseI32(s: string): Option<int> {
    var minus := s != "" && s[0] == '-';
    var digits := if s != "" && (s[0] == '-' || s[0] == '+') then s[1..] else s;
    match ParseNat(digits)
    case None => None
    case Some(n) =>
      var v: int := if minus then 0 - n else n;
      if MIN_I32 <= v <= MAX_I32 then Some(v) else None
  }

  // ---- What numerals mean ----

  function DigitOf(c: char): Option<nat> {
    match c
    case '0' => Some(0)
    case '1' => Some(1)
    case '2' => Some(2)
    case '3' => Some(3)
    case '4' => Some(4)
    case '5' => Some(5)
    case '6' => Some(6)
    case '7' => Some(7)
    case '8' => Some(8)
    case '9' => Some(9)
    case _ => None
  }

  /** The number that the digits of s, read from left to right behind those of acc, make. */
  function Reading(s: string, acc: nat): Option<nat> {
    if s == "" then Some(acc)
    else
      match DigitOf(s[0])
      case None => None
      case Some(d) => Reading(s[1..], acc * 10 + d)
  }

  /** s is a decimal numeral for n. */
  predicate Denotes(s: string, n: nat) {
    s != "" && Reading(s, 0) == Some(n)
  }

  lemma {:induction false} ReadingSnoc(s: string, c: char, acc: nat)
    ensures Reading(s + [c], acc) ==
            match Reading(s, acc)
            case None => None
            case Some(n) => (match DigitOf(c) case None => None case Some(d) => Some(n * 10 + d))
    decreases |s|
  {
    var t := s + [c];
    if s == "" {
      assert t[0] == c && t[1..] == "";
    } else {
      assert t[0] == s[0] && t[1..] == s[1..] + [c];
      if DigitOf(s[0]).Some? {
        ReadingSnoc(s[1..], c, acc * 10 + DigitOf(s[0]).value);
      }
    }
  }

  lemma DigitIs(c: char)
    ensures DigitOf(c) == if '0' <= c <= '9' then Some(c as int - '0' as int) else None
  {
  }

  lemma {:induction false} ParseReads(s: string)
    requires s != ""
    ensures ParseNat(s) == Reading(s, 0)
    decreases |s|
  {
    var k := |s| - 1;
    assert s == s[..k] + [s[k]];
    ReadingSnoc(s[..k], s[k], 0);
    DigitIs(s[k]);
    if k > 0 {
      ParseReads(s[..k]);
    } else {
      assert s[..k] == "";
    }
  }

  /** The digits of a text without its sign. */
  function Unsigned(s: string): string {
    if s != "" && (s[0] == '-' || s[0] == '+') then s[1..] else s
  }

  /** What is parsed is the number that the numeral denotes. */
  lemma ParseDenotes(s: string, n: nat)
    ensures ParseNat(s) == Some(n) <==> Denotes(s, n)
  {
    if s != "" {
      ParseReads(s);
    }
  }

  /** The texts that parse, and to what: an optional sign and digits that denote a number of 32 bits. */
  lemma ParseI32Iff(s: string, v: int)
    ensures ParseI32(s) == Some(v) <==>
            && (if s != "" && s[0] == '-' then v <= 0 && Denotes(s[1..], -v) else v >= 0 && Denotes(Unsigned(s), v))
            && -2147483648 <= v <= 2147483647
  {
    ParseDenotes(Unsigned(s), if v < 0 then -v else v);
  }

  /** No plus sign and no leading zero. */
  predicate Canonical(s: string) {
    s != "" && s[0] != '+' && (s[0] == '0' ==> |s| == 1)
  }

  lemma {:induction false} PrintNatDigits(n: nat)
    ensures forall k :: 0 <= k < |PrintNat(n)| ==> '0' <= PrintNat(n)[k] <= '9'
    ensures |PrintNat(n)| > 0
    ensures PrintNat(n)[0] == '0' ==> n == 0
    ensures n < 10 ==> |PrintNat(n)| == 1
  {
    if n >= 10 {
      PrintNatDigits(n / 10);
    }
  }

  lemma {:induction false} ParsePrintNat(n: nat)
    ensures ParseNat(PrintNat(n)) == Some(n)
  {
    if n >= 10 {
      ParsePrintNat(n / 10);
      PrintNatDigits(n / 10);
      assert PrintNat(n)[..|PrintNat(n)| - 1] == PrintNat(n / 10);
    }
  }

  lemma ParseUnsigned(digits: string, m: nat)
    requires ParseNat(digits) == Some(m) && digits[0] != '-' && digits[0] != '+'
    ensures ParseI32(digits) == if m <= MAX_I32 then Some(m) else None
  {
  }

  lemma ParseNegative(digits: string, m: nat)
    requires ParseNat(digits) == Some(m)
    ensures ParseI32("-" + digits) == if 0 - m >= MIN_I32 then Some(0 - m) else None
  {
    assert ("-" + digits)[1..] == digits;
  }

  /** Every number of 32 bits is read back, and no other is. */
  lemma ParsePrint(n: int)
    ensures ParseI32(PrintI32(n)) == if -2147483648 <= n <= 2147483647 then Some(n) else None
  {
    var m: nat := if n < 0 then -n else n;
    ParsePrintNat(m);
    PrintNatDigits(m);
    if n < 0 {
      ParseNegative(PrintNat(m), m);
    } else {
      ParseUnsigned(PrintNat(m), m);
    }
  }

  /** Digits without a leading zero are what their number prints as, and no others are. */
  lemma {:induction false} PrintParseNat(s: string)
    requires ParseNat(s).Some?
    ensures s != "" && '0' <= s[0] <= '9'
    ensures PrintNat(ParseNat(s).value) == s <==> (s[0] == '0' ==> |s| == 1)
    ensures s[0] != '0' ==> ParseNat(s).value > 0
    decreases |s|
  {
    var k, n := |s| - 1, ParseNat(s).value;
    assert s == s[..k] + [s[k]];
    if k > 0 {
      PrintParseNat(s[..k]);
      var m := ParseNat(s[..k]).value;
      assert n / 10 == m && n % 10 == s[k] as int - '0' as int;
      if s[0] != '0' {
        assert n >= 10;
      }
    }
    PrintNatDigits(n);
  }

  /** What a text without a minus sign parses to prints as that text exactly when it is canonical. */
  lemma PrintParse(s: string)
    requires ParseI32(s).Some? && '-' !in s
    ensures ParseI32(s).value >= 0
    ensures PrintI32(ParseI32(s).value) == s <==> Canonical(s)
  {
    var v := ParseI32(s).value;
    assert s != "";
    if s[0] == '+' {
      PrintNatDigits(v);
    } else {
      PrintParseNat(s);
    }
  }

  lemma PrintNoDash(n: nat)
    ensures '-' !in PrintNat(n)
  {
    PrintNatDigits(n);
  }
}
