/**
 The text conversions of the standard library that keys and configurations rely on:
 hexadecimal (RFC 4648, section 8), decimal numbers, and splitting at a separator.
 */
module Text {
  import opened Machine

  // ---------- hexadecimal ----------

  function HexDigit(n: nat): char
    requires n < 16
  {
    "0123456789abcdef"[n]
  }

  /** The value of a hexadecimal digit of either case. */
  function HexValue(c: char): Option<nat> {
    if '0' <= c <= '9' then Some(c as nat - '0' as nat)
    else if 'a' <= c <= 'f' then Some(c as nat - 'a' as nat + 10)
    else if 'A' <= c <= 'F' then Some(c as nat - 'A' as nat + 10)
    else None
  }

  lemma HexValueRange(c: char)
    ensures HexValue(c).Some? ==> HexValue(c).value < 16
  {
  }

  function EncodeHex(bytes: seq<byte>): string {
    if bytes == [] then "" else [HexDigit(bytes[0] / 16), HexDigit(bytes[0] % 16)] + EncodeHex(bytes[1..])
  }

  /** hex.DecodeString; all its errors are None. */
  function DecodeHex(s: string): Option<seq<byte>>
    decreases |s|
  {
    if s == "" then Some([])
    else if |s| == 1 then None
    else
      HexValueRange(s[0]);
      HexValueRange(s[1]);
      match (HexValue(s[0]), HexValue(s[1]), DecodeHex(s[2..]))
      case (Some(high), Some(low), Some(rest)) => Some([high * 16 + low] + rest)
      case _ => None
  }

  lemma HexDigitValue(n: nat)
    requires n < 16
    ensures HexValue(HexDigit(n)) == Some(n)
    ensures HexDigit(n) != '-'
  {
  }

  lemma {:induction false} HexRoundTrip(bytes: seq<byte>)
    ensures DecodeHex(EncodeHex(bytes)) == Some(bytes)
    ensures '-' !in EncodeHex(bytes)
    ensures forall i :: 0 <= i < |EncodeHex(bytes)| ==> IsLowerHexDigit(EncodeHex(bytes)[i])
  {
    HexIsLowerCase(bytes);
    hide IsLowerHexDigit;
    if bytes != [] {
      HexDigitValue(bytes[0] / 16);
      HexDigitValue(bytes[0] % 16);
      HexRoundTrip(bytes[1..]);
      hide HexDigit, HexValue;
      var s := EncodeHex(bytes);
      assert |s| >= 2 && s[0] == HexDigit(bytes[0] / 16) && s[1] == HexDigit(bytes[0] % 16);
      assert s[2..] == EncodeHex(bytes[1..]);
      assert bytes[0] / 16 * 16 + bytes[0] % 16 == bytes[0];
      assert [bytes[0]] + bytes[1..] == bytes;
    }
  }

  predicate IsLowerHexDigit(c: char) { '0' <= c <= '9' || 'a' <= c <= 'f' }

  predicate IsHexDigit(c: char) { '0' <= c <= '9' || 'a' <= c <= 'f' || 'A' <= c <= 'F' }

  predicate AllHexDigits(s: string) {
    forall i :: 0 <= i < |s| ==> IsHexDigit(s[i])
  }

  lemma HexDigitIsLower(n: nat)
    requires n < 16
    ensures IsLowerHexDigit(HexDigit(n))
  {
  }

  /** Printed bytes are two lower-case digits each; with the round trip this determines the text. */
  lemma {:induction false} HexIsLowerCase(bytes: seq<byte>)
    ensures |EncodeHex(bytes)| == 2 * |bytes|
    ensures forall i :: 0 <= i < |EncodeHex(bytes)| ==> IsLowerHexDigit(EncodeHex(bytes)[i])
  {
    if bytes != [] {
      HexIsLowerCase(bytes[1..]);
      HexDigitIsLower(bytes[0] / 16);
      HexDigitIsLower(bytes[0] % 16);
      hide HexDigit, IsLowerHexDigit;
    }
  }

  /** A digit in lower case. */
  function Lower(c: char): char {
    if 'A' <= c <= 'F' then (c as int + 32) as char else c
  }

  lemma LowerDigit(c: char)
    ensures HexValue(c).Some? <==> IsHexDigit(c)
    ensures HexValue(c).Some? ==> HexValue(c).value < 16 && HexDigit(HexValue(c).value) == Lower(c)
  {
  }

  /** Reading hexadecimal text succeeds exactly for an even number of digits of either case, and keeps what they say. */
  lemma {:induction false} HexDecodes(s: string)
    ensures DecodeHex(s).Some? <==> |s| % 2 == 0 && AllHexDigits(s)
    ensures DecodeHex(s).Some? ==> |s| == 2 * |DecodeHex(s).value| == |EncodeHex(DecodeHex(s).value)|
    ensures DecodeHex(s).Some? ==> forall i :: 0 <= i < |s| ==> EncodeHex(DecodeHex(s).value)[i] == Lower(s[i])
    decreases |s|
  {
    if |s| >= 2 {
      hide HexDigit, HexValue, Lower, IsHexDigit, EncodeHex;
      HexDecodes(s[2..]);
      LowerDigit(s[0]);
      LowerDigit(s[1]);
      DecodeStep(s);
      hide DecodeHex, AllHexDigits;
      if DecodeHex(s).Some? {
        HexNext(s, HexValue(s[0]).value, HexValue(s[1]).value, DecodeHex(s[2..]).value);
      }
    }
  }

  lemma DecodeStep(s: string)
    requires |s| >= 2
    ensures DecodeHex(s).Some? <==> HexValue(s[0]).Some? && HexValue(s[1]).Some? && DecodeHex(s[2..]).Some?
    ensures DecodeHex(s).Some? ==>
              && HexValue(s[0]).value < 16 && HexValue(s[1]).value < 16
              && DecodeHex(s) == Some([HexValue(s[0]).value * 16 + HexValue(s[1]).value] + DecodeHex(s[2..]).value)
    ensures AllHexDigits(s) <==> IsHexDigit(s[0]) && IsHexDigit(s[1]) && AllHexDigits(s[2..])
  {
    hide IsHexDigit;
    HexValueRange(s[0]);
    HexValueRange(s[1]);
    if IsHexDigit(s[0]) && IsHexDigit(s[1]) && AllHexDigits(s[2..]) {
      forall i | 2 <= i < |s|
        ensures IsHexDigit(s[i])
      {
        assert s[2..][i - 2] == s[i];
      }
    }
  }

  lemma HexNext(s: string, high: nat, low: nat, rest: seq<byte>)
    requires |s| >= 2 && high < 16 && low < 16 && DecodeHex(s) == Some([high * 16 + low] + rest)
    requires HexDigit(high) == Lower(s[0]) && HexDigit(low) == Lower(s[1])
    requires |s[2..]| == |EncodeHex(rest)| && forall i :: 0 <= i < |s[2..]| ==> EncodeHex(rest)[i] == Lower(s[2..][i])
    ensures |EncodeHex(DecodeHex(s).value)| == |s|
    ensures forall i :: 0 <= i < |s| ==> EncodeHex(DecodeHex(s).value)[i] == Lower(s[i])
  {
    var bytes := [high * 16 + low] + rest;
    assert bytes[1..] == rest && bytes[0] / 16 == high && bytes[0] % 16 == low;
    assert EncodeHex(bytes) == [HexDigit(high), HexDigit(low)] + EncodeHex(rest);
    hide EncodeHex, HexDigit, Lower, DecodeHex;
    forall i | 2 <= i < |s|
      ensures EncodeHex(bytes)[i] == Lower(s[i])
    {
      assert s[2..][i - 2] == s[i];
    }
  }

  // ---------- decimal ----------

  function Digit(n: nat): char
    requires n < 10
  {
    "0123456789"[n]
  }

  /** fmt's %d of a non-negative number. */
  function FormatNat(n: nat): (s: string)
    ensures s != ""
  {
    if n < 10 then [Digit(n)] else FormatNat(n / 10) + [Digit(n % 10)]
  }

  predicate IsDigit(c: char) { '0' <= c <= '9' }

  predicate AllDigits(s: string) {
    forall i :: 0 <= i < |s| ==> IsDigit(s[i])
  }

  function DigitsValue(s: string): nat
    requires AllDigits(s)
  {
    if s == "" then 0 else DigitsValue(s[..|s| - 1]) * 10 + (s[|s| - 1] as nat - '0' as nat)
  }

  /** strconv.Atoi on a 64-bit platform: an optional sign, digits, and a value that fits an int. */
  function Atoi(s: string): Option<int> {
    var signed := s != "" && (s[0] == '+' || s[0] == '-');
    var digits := if signed then s[1..] else s;
    if digits == "" || !AllDigits(digits) then None
    else
      var v: int := DigitsValue(digits);
      if signed && s[0] == '-' then (if v <= MAX_INT + 1 then Some(-v) else None)
      else if v <= MAX_INT then Some(v)
      else None
  }

  lemma {:induction false} FormatNatDigits(n: nat)
    ensures AllDigits(FormatNat(n)) && DigitsValue(FormatNat(n)) == n
    ensures '-' !in FormatNat(n)
  {
    if n >= 10 {
      FormatNatDigits(n / 10);
      var s := FormatNat(n);
      assert s[..|s| - 1] == FormatNat(n / 10);
    } else {
      assert FormatNat(n)[..0] == "";
    }
  }

  /** No printed number has a leading zero. */
  lemma {:induction false} FormatNatIsPlain(n: nat)
    ensures FormatNat(n)[0] == '0' ==> n == 0 && FormatNat(n) == "0"
  {
    if n >= 10 {
      FormatNatIsPlain(n / 10);
    }
  }

  /** Reading a printed number: itself while it fits an int, an error beyond. */
  lemma AtoiOfFormatted(n: nat)
    ensures Atoi(FormatNat(n)) == if n <= MAX_INT then Some(n) else None
  {
    FormatNatDigits(n);
    assert IsDigit(FormatNat(n)[0]);
    hide FormatNat, DigitsValue;
  }

  /** Signed text: the value of the digits, negated behind a minus sign, if it fits 64 bits; errors otherwise. */
  lemma AtoiOfSigned(digits: string)
    requires digits != "" && AllDigits(digits)
    ensures Atoi(digits) == if DigitsValue(digits) < 0x8000_0000_0000_0000 then Some(DigitsValue(digits)) else None
    ensures Atoi("+" + digits) == Atoi(digits)
    ensures var v: int := DigitsValue(digits);
            Atoi("-" + digits) == if v <= 0x8000_0000_0000_0000 then Some(-v) else None
  {
    assert IsDigit(digits[0]);
    assert ("+" + digits)[1..] == digits && ("-" + digits)[1..] == digits;
    hide DigitsValue;
  }

  /** Any other text is an error. */
  lemma AtoiOfOther(s: string)
    requires forall digits :: digits != "" && AllDigits(digits) ==> s != digits && s != "+" + digits && s != "-" + digits
    ensures Atoi(s) == None
  {
    if s != "" && (s[0] == '+' || s[0] == '-') {
      assert s == (if s[0] == '+' then "+" else "-") + s[1..];
    }
    hide DigitsValue;
  }

  // ---------- splitting ----------

  /** strings.Split at a one-character separator. */
  function Split(s: string, separator: char): (parts: seq<string>)
    ensures |parts| >= 1
  {
    if s == "" then [""]
    else
      var rest := Split(s[1..], separator);
      if s[0] == separator then [""] + rest else [[s[0]] + rest[0]] + rest[1..]
  }

  lemma {:induction false} SplitNone(s: string, separator: char)
    requires separator !in s
    ensures Split(s, separator) == [s]
  {
    if s != "" {
      SplitNone(s[1..], separator);
      assert [s[0]] + s[1..] == s;
    }
  }

  lemma {:induction false} SplitTwo(a: string, b: string, separator: char)
    requires separator !in a && separator !in b
    ensures Split(a + [separator] + b, separator) == [a, b]
  {
    var s := a + [separator] + b;
    if a == "" {
      assert s[1..] == b;
      SplitNone(b, separator);
    } else {
      assert s[1..] == a[1..] + [separator] + b;
      SplitTwo(a[1..], b, separator);
      assert [a[0]] + a[1..] == a;
    }
  }

  /** Two parts are exactly what surrounds the only separator. */
  lemma {:induction false} SplitIntoTwo(s: string, separator: char)
    requires |Split(s, separator)| == 2
    ensures var parts := Split(s, separator);
            separator !in parts[0] && separator !in parts[1] && s == parts[0] + [separator] + parts[1]
  {
    if s != "" {
      var rest := Split(s[1..], separator);
      if s[0] == separator {
        SplitIntoOne(s[1..], separator);
      } else {
        SplitIntoTwo(s[1..], separator);
      }
    }
  }

  lemma {:induction false} SplitIntoOne(s: string, separator: char)
    requires |Split(s, separator)| == 1
    ensures separator !in s && Split(s, separator) == [s]
  {
    if s != "" {
      SplitIntoOne(s[1..], separator);
      assert [s[0]] + s[1..] == s;
    }
  }
}
