/** Fixed-width unsigned integers and the hexadecimal forms Rust's formatter
    gives them: `{:x}` (lower-case digits, no leading zeros) and `{:02x}`
    (lower-case digits, padded with zeros to two places). */
module Bytes {
  import opened Text

  type u8 = n: nat | n < 0x100
  type u16 = n: nat | n < 0x1_0000
  type u32 = n: nat | n < 0x1_0000_0000
  type u64 = n: nat | n < 0x1_0000_0000_0000_0000

  predicate IsLowerHexDigit(c: char) {
    '0' <= c <= '9' || 'a' <= c <= 'f'
  }

  predicate IsUpperHexDigit(c: char) {
    '0' <= c <= '9' || 'A' <= c <= 'F'
  }

  predicate IsHexDigit(c: char) {
    IsLowerHexDigit(c) || IsUpperHexDigit(c)
  }

  predicate AllLowerHexDigits(s: string) {
    forall i :: 0 <= i < |s| ==> IsLowerHexDigit(s[i])
  }

  predicate AllUpperHexDigits(s: string) {
    forall i :: 0 <= i < |s| ==> IsUpperHexDigit(s[i])
  }

  predicate AllHexDigits(s: string) {
    forall i :: 0 <= i < |s| ==> IsHexDigit(s[i])
  }

  /** The value of a hexadecimal digit of either case. */
  function DigitValue(c: char): (v: nat)
    requires IsHexDigit(c)
    ensures v < 16
  {
    if '0' <= c <= '9' then (c - '0') as nat
    else if 'a' <= c <= 'f' then (c - 'a') as nat + 10
    else (c - 'A') as nat + 10
  }

  /** The lower-case digit for `d`; `DigitValue` reads it back. */
  function LowerDigit(d: nat): (c: char)
    requires d < 16
    ensures IsLowerHexDigit(c) && DigitValue(c) == d
  {
    if d < 10 then ('0' as int + d) as char else ('a' as int + d - 10) as char
  }

  /** The upper-case digit for `d`; `DigitValue` reads it back. */
  function UpperDigit(d: nat): (c: char)
    requires d < 16
    ensures IsUpperHexDigit(c) && DigitValue(c) == d
  {
    if d < 10 then ('0' as int + d) as char else ('A' as int + d - 10) as char
  }

  /** The number a string of hexadecimal digits denotes, most significant first. */
  function ParseHex(s: string): nat
    requires AllHexDigits(s)
  {
    if s == [] then 0 else ParseHex(s[..|s| - 1]) * 16 + DigitValue(s[|s| - 1])
  }

  /** `{:x}`: lower-case digits without leading zeros, a single `0` for zero. */
  function LowerHex(n: nat): (r: string)
    ensures |r| >= 1 && AllLowerHexDigits(r)
    ensures r[0] == '0' <==> n == 0
    ensures n < 16 <==> |r| == 1
    decreases n
  {
    if n < 16 then [LowerDigit(n)] else LowerHex(n / 16) + [LowerDigit(n % 16)]
  }

  function Pow16(k: nat): (p: nat)
    ensures p >= 1
  {
    if k == 0 then 1 else 16 * Pow16(k - 1)
  }

  /** A number below 16^k prints in at most k digits. */
  lemma {:induction false} LowerHexLength(n: nat, k: nat)
    requires 1 <= k && n < Pow16(k)
    ensures |LowerHex(n)| <= k
    decreases k
  {
    if n >= 16 {
      assert k >= 2;
      assert n / 16 < Pow16(k - 1);
      LowerHexLength(n / 16, k - 1);
    }
  }

  /** `{:x}` on the widths the headers use. */
  lemma LowerHexWidths(n: nat)
    ensures n < 0x1_0000 ==> |LowerHex(n)| <= 4
    ensures n < 0x1_0000_0000 ==> |LowerHex(n)| <= 8
    ensures n < 0x1_0000_0000_0000_0000 ==> |LowerHex(n)| <= 16
  {
    assert Pow16(4) == 0x1_0000;
    assert Pow16(8) == 0x1_0000_0000;
    assert Pow16(16) == 0x1_0000_0000_0000_0000;
    if n < 0x1_0000 { LowerHexLength(n, 4); }
    if n < 0x1_0000_0000 { LowerHexLength(n, 8); }
    if n < 0x1_0000_0000_0000_0000 { LowerHexLength(n, 16); }
  }

  /** `{:X}`: upper-case digits without leading zeros, a single `0` for zero. */
  function UpperHex(n: nat): (r: string)
    ensures |r| >= 1 && AllUpperHexDigits(r)
    ensures r[0] == '0' <==> n == 0
    ensures n < 16 <==> |r| == 1
    decreases n
  {
    if n < 16 then [UpperDigit(n)] else UpperHex(n / 16) + [UpperDigit(n % 16)]
  }

  /** `{:02x}` on a byte: exactly two lower-case digits. */
  function Hex2(b: u8): (r: string)
    ensures |r| == 2 && AllLowerHexDigits(r)
  {
    [LowerDigit(b / 16), LowerDigit(b % 16)]
  }

  /** Reading back `{:x}` gives the number printed. */
  lemma {:induction false} ParseLowerHex(n: nat)
    ensures AllHexDigits(LowerHex(n)) && ParseHex(LowerHex(n)) == n
    decreases n
  {
    var r := LowerHex(n);
    assert AllHexDigits(r) by {
      forall i | 0 <= i < |r| ensures IsHexDigit(r[i]) {
        assert IsLowerHexDigit(r[i]);
      }
    }
    if n >= 16 {
      ParseLowerHex(n / 16);
      assert r[..|r| - 1] == LowerHex(n / 16);
    }
  }

  /** Reading back `{:X}` gives the number printed. */
  lemma {:induction false} ParseUpperHex(n: nat)
    ensures AllHexDigits(UpperHex(n)) && ParseHex(UpperHex(n)) == n
    decreases n
  {
    var r := UpperHex(n);
    assert AllHexDigits(r) by {
      forall i | 0 <= i < |r| ensures IsHexDigit(r[i]) {
        assert IsUpperHexDigit(r[i]);
      }
    }
    if n >= 16 {
      ParseUpperHex(n / 16);
      assert r[..|r| - 1] == UpperHex(n / 16);
    }
  }

  /** Reading back `{:02x}` gives the byte printed. */
  lemma ParseHex2(b: u8)
    ensures AllHexDigits(Hex2(b)) && ParseHex(Hex2(b)) == b
  {
    var r := Hex2(b);
    assert IsHexDigit(r[0]) && IsHexDigit(r[1]);
    ParseTwoDigits(r);
  }

  /** Two digits denote sixteen times the first plus the second. */
  lemma ParseTwoDigits(s: string)
    requires |s| == 2 && AllHexDigits(s)
    ensures ParseHex(s) == DigitValue(s[0]) * 16 + DigitValue(s[1])
  {
    var first := s[..1];
    assert first[..0] == [];
    assert ParseHex(first) == DigitValue(s[0]);
  }

  /** `{:02x}` is `{:x}` padded on the left with zeros to two places. */
  lemma Hex2IsPaddedLowerHex(b: u8)
    ensures b >= 16 ==> Hex2(b) == LowerHex(b)
    ensures b < 16 ==> Hex2(b) == "0" + LowerHex(b)
  {
    if b >= 16 {
      assert b / 16 < 16;
      assert LowerHex(b / 16) == [LowerDigit(b / 16)];
    }
  }

  /** Two lower-case digits are the `{:02x}` form of the byte they denote. */
  lemma Hex2OfParse(s: string)
    requires |s| == 2 && AllLowerHexDigits(s)
    ensures AllHexDigits(s) && ParseHex(s) < 0x100 && Hex2(ParseHex(s)) == s
  {
    assert IsLowerHexDigit(s[0]) && IsLowerHexDigit(s[1]);
    assert IsHexDigit(s[0]) && IsHexDigit(s[1]);
    ParseTwoDigits(s);
    var hi, lo := DigitValue(s[0]), DigitValue(s[1]);
    SplitByte(hi, lo);
    LowerDigitOfValue(s[0]);
    LowerDigitOfValue(s[1]);
    assert Hex2(hi * 16 + lo) == [LowerDigit(hi), LowerDigit(lo)];
  }

  /** The two digits of a byte are its quotient and remainder by sixteen. */
  lemma SplitByte(hi: nat, lo: nat)
    requires hi < 16 && lo < 16
    ensures hi * 16 + lo < 0x100 && (hi * 16 + lo) / 16 == hi && (hi * 16 + lo) % 16 == lo
  {
  }

  /** A lower-case digit is the digit of its own value. */
  lemma LowerDigitOfValue(c: char)
    requires IsLowerHexDigit(c)
    ensures LowerDigit(DigitValue(c)) == c
  {
  }

  /** `{:X}` differs from `{:x}` only in the case of the letters. */
  lemma {:induction false} UpperHexLowered(n: nat)
    ensures MapAsciiLower(UpperHex(n)) == LowerHex(n)
    decreases n
  {
    if n >= 16 {
      UpperHexLowered(n / 16);
      var u := UpperHex(n);
      assert u[..|u| - 1] == UpperHex(n / 16);
    }
  }

  predicate HasLowerLetter(s: string) {
    exists i :: 0 <= i < |s| && 'a' <= s[i] <= 'z'
  }
}
