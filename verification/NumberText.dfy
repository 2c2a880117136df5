/** Unsigned 64-bit integers as text and as bytes: radix parsing with its sign
    and overflow rules, fixed-width hexadecimal, and big-endian bytes. */
module NumberText {
  import opened Wrappers

  const U64: nat := 0x1_0000_0000_0000_0000

  function DigitValue(c: char): nat {
    if '0' <= c <= '9' then (c - '0') as nat
    else if 'a' <= c <= 'z' then (c - 'a') as nat + 10
    else if 'A' <= c <= 'Z' then (c - 'A') as nat + 10
    else 36
  }

  /** Digits only; overflow is an error. */
  function ParseDigits(s: string, radix: nat): Option<nat> {
    if s == "" then Some(0)
    else
      var high := ParseDigits(s[..|s| - 1], radix);
      var d := DigitValue(s[|s| - 1]);
      if high.None? || d >= radix || high.value * radix + d >= U64 then None
      else Some(high.value * radix + d)
  }

  /** A single leading plus is allowed, an empty number is not. */
  function FromStrRadix(s: string, radix: nat): Option<nat> {
    if s == "" || s == "+" then None
    else ParseDigits(if s[0] == '+' then s[1..] else s, radix)
  }

  function HexDigit(d: nat): char
    requires d < 16
  {
    if d < 10 then '0' + d as char else 'a' + (d - 10) as char
  }

  function Hex(n: nat, width: nat): string {
    if width == 0 then "" else Hex(n / 16, width - 1) + [HexDigit(n % 16)]
  }

  function Pow(base: nat, e: nat): nat {
    if e == 0 then 1 else base * Pow(base, e - 1)
  }

  /** Digits have the value of their place in the alphabet, in either case;
      nothing else is a digit of any radix up to 36. */
  lemma DigitValueIs(c: char)
    ensures '0' <= c <= '9' ==> c as int == '0' as int + DigitValue(c)
    ensures 'a' <= c <= 'z' ==> c as int == 'a' as int + DigitValue(c) - 10
    ensures 'A' <= c <= 'Z' ==> c as int == 'A' as int + DigitValue(c) - 10
    ensures DigitValue(c) < 36 <==> '0' <= c <= '9' || 'a' <= c <= 'z' || 'A' <= c <= 'Z'
  {}

  /** What a numeral stands for: each digit times its power of the radix. */
  function Value(s: string, radix: nat): nat {
    if s == "" then 0 else DigitValue(s[0]) * Pow(radix, |s| - 1) + Value(s[1..], radix)
  }

  predicate IsNumeral(s: string, radix: nat) {
    forall i :: 0 <= i < |s| ==> DigitValue(s[i]) < radix
  }

  lemma Shifted(d: nat, p: nat, radix: nat, low: nat, c: nat)
    ensures d * (radix * p) + (low * radix + c) == (d * p + low) * radix + c
  {
    assert d * (radix * p) == (d * p) * radix;
  }

  lemma {:induction false} ValueSnoc(s: string, c: char, radix: nat)
    ensures Value(s + [c], radix) == Value(s, radix) * radix + DigitValue(c)
    decreases |s|
  {
    if s == "" {
      assert ("" + [c])[1..] == "" && Pow(radix, 0) == 1;
    } else {
      hide DigitValue;
      assert (s + [c])[1..] == s[1..] + [c] && (s + [c])[0] == s[0];
      ValueSnoc(s[1..], c, radix);
      assert Pow(radix, |s|) == radix * Pow(radix, |s| - 1);
      Shifted(DigitValue(s[0]), Pow(radix, |s| - 1), radix, Value(s[1..], radix), DigitValue(c));
    }
  }

  lemma HighIsSmaller(high: nat, radix: nat, d: nat)
    requires radix > 0
    ensures high <= high * radix + d
  {
    assert high * 1 <= high * radix;
  }

  /** Digits parse to `n` exactly if each is a digit of the radix and `n`, which
      fits 64 bits, is their value. */
  lemma {:induction false} ParseDigitsIff(s: string, radix: nat, n: nat)
    requires radix > 0
    ensures ParseDigits(s, radix) == Some(n) <==> IsNumeral(s, radix) && n == Value(s, radix) < U64
    decreases |s|
  {
    if s != "" {
      hide DigitValue, Value, Pow;
      var init, c := s[..|s| - 1], s[|s| - 1];
      assert s == init + [c];
      ValueSnoc(init, c, radix);
      HighIsSmaller(Value(init, radix), radix, DigitValue(c));
      assert IsNumeral(s, radix) <==> IsNumeral(init, radix) && DigitValue(c) < radix;
      ParseDigitsIff(init, radix, Value(init, radix));
      if ParseDigits(init, radix).Some? { ParseDigitsIff(init, radix, ParseDigits(init, radix).value); }
    }
  }

  /** Text is a number exactly if it is, but for one leading plus, a numeral with
      at least one digit whose value fits 64 bits. */
  lemma FromStrRadixIff(s: string, radix: nat, n: nat)
    requires 0 < radix <= 36
    ensures FromStrRadix(s, radix) == Some(n) <==>
            exists digits: string ::
              && digits != "" && (s == digits || s == "+" + digits)
              && IsNumeral(digits, radix) && n == Value(digits, radix) < U64
  {
    if s != "" {
      assert s == [s[0]] + s[1..];
      var digits := if s[0] == '+' then s[1..] else s;
      ParseDigitsIff(digits, radix, n);
      forall d: string | d != "" && IsNumeral(d, radix) && (s == d || s == "+" + d) ensures d == digits {
        assert DigitValue(d[0]) < radix;
        assert s == "+" + d ==> s[1..] == d;
      }
      if FromStrRadix(s, radix) == Some(n) {
        assert digits != "" && (s == digits || s == "+" + digits);
      }
    }
  }

  lemma HexDigitValue(d: nat)
    requires d < 16
    ensures DigitValue(HexDigit(d)) == d && ('0' <= HexDigit(d) <= '9' || 'a' <= HexDigit(d) <= 'f')
  {}

  lemma {:induction false} ParseHexDigits(n: nat, width: nat)
    requires n < Pow(16, width) <= U64
    ensures |Hex(n, width)| == width
    ensures ParseDigits(Hex(n, width), 16) == Some(n)
    ensures forall i :: 0 <= i < width ==> '0' <= Hex(n, width)[i] <= '9' || 'a' <= Hex(n, width)[i] <= 'f'
  {
    if width > 0 {
      ParseHexDigits(n / 16, width - 1);
      HexDigitValue(n % 16);
      assert Hex(n, width)[..width - 1] == Hex(n / 16, width - 1);
    }
  }

  lemma SixteenHexDigitsHoldU64()
    ensures Pow(16, 16) == U64
  {
    assert Pow(16, 4) == 0x1_0000;
    assert Pow(16, 8) == 0x1_0000_0000 by { assert Pow(16, 6) == 0x100_0000; }
    assert Pow(16, 12) == 0x1_0000_0000_0000 by { assert Pow(16, 10) == 0x100_0000_0000; }
    assert Pow(16, 14) == 0x100_0000_0000_0000;
  }

  /** Sixteen hexadecimal digits, the letters small, recover every 64-bit number. */
  lemma HexRoundTrip(n: nat)
    requires n < U64
    ensures FromStrRadix(Hex(n, 16), 16) == Some(n)
    ensures |Hex(n, 16)| == 16 && ':' !in Hex(n, 16)
    ensures forall c :: c in Hex(n, 16) ==> '0' <= c <= '9' || 'a' <= c <= 'f'
  {
    SixteenHexDigitsHoldU64();
    ParseHexDigits(n, 16);
    assert Hex(n, 16)[0] != '+';
  }

  type Byte = b: nat | b < 256

  function BigEndian(n: nat, width: nat): seq<Byte> {
    if width == 0 then [] else BigEndian(n / 256, width - 1) + [n % 256]
  }

  lemma {:induction false} BigEndianInjective(m: nat, n: nat, width: nat)
    requires m < Pow(256, width) && n < Pow(256, width)
    ensures |BigEndian(m, width)| == |BigEndian(n, width)| == width
    ensures BigEndian(m, width) == BigEndian(n, width) ==> m == n
    decreases width
  {
    if width > 0 {
      BigEndianInjective(m / 256, n / 256, width - 1);
      if BigEndian(m, width) == BigEndian(n, width) {
        assert BigEndian(m, width)[..width - 1] == BigEndian(m / 256, width - 1);
        assert BigEndian(n, width)[..width - 1] == BigEndian(n / 256, width - 1);
        assert m % 256 == BigEndian(m, width)[width - 1] == BigEndian(n, width)[width - 1] == n % 256;
      }
    }
  }

  lemma EightBytesHoldU64()
    ensures Pow(256, 8) == U64
  {
    assert Pow(256, 4) == 0x1_0000_0000;
    assert Pow(256, 6) == 0x1_0000_0000_0000;
  }
}
