/** Decimal and hexadecimal numerals as JavaScript prints and reads them. */
module Numerals {
  import opened Wrappers

  /** `n / 10` and `n / 16`, defined by counting so that proofs about them are linear. */
  function Tenth(n: nat): (q: nat)
    ensures 10 * q <= n < 10 * q + 10
  {
    if n < 10 then 0 else 1 + Tenth(n - 10)
  }

  function Sixteenth(n: nat): (q: nat)
    ensures 16 * q <= n < 16 * q + 16
  {
    if n < 16 then 0 else 1 + Sixteenth(n - 16)
  }

  predicate IsDigit(c: char) {
    '0' <= c <= '9'
  }

  predicate AllDigits(s: string) {
    forall k :: 0 <= k < |s| ==> IsDigit(s[k])
  }

  function DigitValue(c: char): nat
    requires IsDigit(c)
  {
    c as nat - '0' as nat
  }

  function Digit(d: nat): (c: char)
    requires d < 10
    ensures IsDigit(c) && DigitValue(c) == d
  {
    ('0' as nat + d) as char
  }

  /** `String(n)`. */
  function Decimal(n: nat): (s: string)
    ensures |s| >= 1 && AllDigits(s)
    decreases n
  {
    if n < 10 then [Digit(n)] else Decimal(Tenth(n)) + [Digit(n - 10 * Tenth(n))]
  }

  /** `parseInt(s, 10)` for a string of digits. */
  function DecimalValue(s: string): nat
    requires AllDigits(s)
  {
    if s == "" then 0 else DecimalValue(s[..|s| - 1]) * 10 + DigitValue(s[|s| - 1])
  }

  lemma {:induction false} DecimalValueOfDecimal(n: nat)
    ensures DecimalValue(Decimal(n)) == n
  {
    if n < 10 {
      assert Decimal(n)[..0] == "";
    } else {
      DecimalValueOfDecimal(Tenth(n));
      assert Decimal(n)[..|Decimal(n)| - 1] == Decimal(Tenth(n));
    }
  }

  predicate IsHex(c: char) {
    '0' <= c <= '9' || 'a' <= c <= 'f' || 'A' <= c <= 'F'
  }

  predicate AllHex(s: string) {
    forall k :: 0 <= k < |s| ==> IsHex(s[k])
  }

  function HexDigitValue(c: char): (v: nat)
    requires IsHex(c)
    ensures v < 16
  {
    if '0' <= c <= '9' then c as nat - '0' as nat
    else if 'a' <= c <= 'f' then c as nat - 'a' as nat + 10
    else c as nat - 'A' as nat + 10
  }

  /** A hexadecimal digit in ASCII. */
  predicate IsHexByte(b: byte) {
    IsHex(b as char)
  }

  function HexByteValue(b: byte): (v: nat)
    requires IsHexByte(b)
    ensures v < 16
  {
    HexDigitValue(b as char)
  }

  function LowerHexDigit(d: nat): (c: char)
    requires d < 16
    ensures IsHex(c) && HexDigitValue(c) == d && !('A' <= c <= 'F')
  {
    if d < 10 then ('0' as nat + d) as char else ('a' as nat + d - 10) as char
  }

  /** `n.toString(16)`. */
  function Hex(n: nat): (s: string)
    ensures |s| >= 1 && AllHex(s)
    decreases n
  {
    if n < 16 then [LowerHexDigit(n)] else Hex(Sixteenth(n)) + [LowerHexDigit(n - 16 * Sixteenth(n))]
  }

  /** `parseInt(s, 16)` for a string of hexadecimal digits. */
  function HexValue(s: string): nat
    requires AllHex(s)
  {
    if s == "" then 0 else HexValue(s[..|s| - 1]) * 16 + HexDigitValue(s[|s| - 1])
  }

  lemma {:induction false} HexValueOfHex(n: nat)
    ensures HexValue(Hex(n)) == n
  {
    if n < 16 {
      assert Hex(n)[..0] == "";
    } else {
      HexValueOfHex(Sixteenth(n));
      assert Hex(n)[..|Hex(n)| - 1] == Hex(Sixteenth(n));
    }
  }

  // `parseInt`

  /** White space and line ends that `parseInt` skips. */
  predicate IsBlank(c: char) {
    || 0x09 <= c as int <= 0x0D || c as int in {0x20, 0xA0, 0x1680, 0x202F, 0x205F, 0x3000, 0xFEFF}
    || 0x2000 <= c as int <= 0x200A || 0x2028 <= c as int <= 0x2029
  }

  function AfterBlanks(s: string): string {
    if s != "" && IsBlank(s[0]) then AfterBlanks(s[1..]) else s
  }

  function LeadingHex(s: string): (h: string)
    ensures AllHex(h)
  {
    if s != "" && IsHex(s[0]) then [s[0]] + LeadingHex(s[1..]) else ""
  }

  function AfterSign(s: string): string {
    if s != "" && s[0] in {'+', '-'} then s[1..] else s
  }

  function AfterPrefix(s: string): string {
    if |s| >= 2 && s[0] == '0' && s[1] in {'x', 'X'} then s[2..] else s
  }

  /** How often `n` is halved until 53 bits are enough for it. */
  function Excess(n: nat): nat {
    if n < 0x20_0000_0000_0000 then 0 else 1 + Excess(n / 2)
  }

  function Pow2(k: nat): (p: nat)
    ensures p > 0
  {
    if k == 0 then 1 else 2 * Pow2(k - 1)
  }

  /**
   * The nearest number with 53 bits, the even one of two.  From 2^1024 on JavaScript has infinity, whose
   * low bits as an integer are zero like those of the number here.
   */
  function Rounded(n: nat): nat {
    var p := Pow2(Excess(n));
    var q, r := n / p, n % p;
    if 2 * r < p || (2 * r == p && q % 2 == 0) then q * p else (q + 1) * p
  }

  lemma RoundedSmall(n: nat)
    requires n < 0x20_0000_0000_0000
    ensures Rounded(n) == n
  {
    assert Excess(n) == 0 && Pow2(0) == 1;
  }

  /** `parseInt(s, 16)`; `None` stands for NaN. */
  function ParseHexInt(s: string): Option<int> {
    var t := AfterBlanks(s);
    var digits := LeadingHex(AfterPrefix(AfterSign(t)));
    if digits == "" then None
    else
      var v: int := Rounded(HexValue(digits));
      Some(if t[0] == '-' then -v else v)
  }

  lemma {:induction false} LeadingHexAll(s: string)
    requires AllHex(s)
    ensures LeadingHex(s) == s
  {
    if s != "" {
      LeadingHexAll(s[1..]);
    }
  }

  lemma DigitsParse(s: string)
    requires AllHex(s) && s != ""
    ensures ParseHexInt(s) == Some(Rounded(HexValue(s)))
    ensures HexValue(s) < 0x20_0000_0000_0000 ==> ParseHexInt(s) == Some(HexValue(s))
  {
    hide HexValue, LeadingHex, Rounded;
    if HexValue(s) < 0x20_0000_0000_0000 {
      RoundedSmall(HexValue(s));
    }
    LeadingHexAll(s);
    assert AfterBlanks(s) == s;
    assert |s| >= 2 ==> IsHex(s[1]);
  }
}
