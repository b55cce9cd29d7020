/** JavaScript's `parseInt(text)` (no radix argument) and the integer-to-text
    conversion `String(n)` used when a number is joined into a CSV row. */
module JsNumbers {
  import opened Options
  import opened JsText
  import opened Seqs

  predicate IsDecDigit(c: char) {
    '0' <= c <= '9'
  }

  predicate IsDigitIn(c: char, radix: nat) {
    if radix == 16 then IsDecDigit(c) || 'a' <= c <= 'f' || 'A' <= c <= 'F'
    else IsDecDigit(c)
  }

  /** The value of one digit character of radix 10 or 16. */
  function DigitValue(c: char, radix: nat): (v: nat)
    requires IsDigitIn(c, radix)
    ensures v < (if radix == 16 then 16 else 10)
  {
    if IsDecDigit(c) then c as int - '0' as int
    else if 'a' <= c <= 'f' then c as int - 'a' as int + 10
    else c as int - 'A' as int + 10
  }

  /** The longest prefix of `s` made of radix digits. */
  function DigitPrefix(s: string, radix: nat): (z: string)
    ensures |z| <= |s| && z == s[..|z|]
    ensures forall k :: 0 <= k < |z| ==> IsDigitIn(z[k], radix)
    ensures |z| == |s| || !IsDigitIn(s[|z|], radix)
  {
    if |s| == 0 || !IsDigitIn(s[0], radix) then []
    else [s[0]] + DigitPrefix(s[1..], radix)
  }

  /** Positional value of a string of radix digits, most significant first. */
  function DigitsValue(z: string, radix: nat): nat
    requires forall k :: 0 <= k < |z| ==> IsDigitIn(z[k], radix)
  {
    if |z| == 0 then 0
    else
      var init := z[..|z| - 1];
      assert forall k :: 0 <= k < |init| ==> init[k] == z[k];
      DigitsValue(init, radix) * radix + DigitValue(z[|z| - 1], radix)
  }

  /** `parseInt(s)`: skip leading white space, take an optional sign, then
      read an unsigned number. `None` stands for `NaN`. The value `-0` is the
      integer 0 here, which is what `|| 0` turns it into anyway. */
  function ParseInt(s: string): Option<int>
  {
    var t := TrimStart(s);
    var negative := |t| > 0 && t[0] == '-';
    var u := if |t| > 0 && (t[0] == '-' || t[0] == '+') then t[1..] else t;
    match ParseUnsigned(u)
    case None => None
    case Some(m) => Some(if negative then -(m as int) else m as int)
  }

  /** What `parseInt` reads its number from: the text after the leading white
      space and an optional `+` or `-`. */
  function Magnitude(s: string): string
  {
    var t := TrimStart(s);
    if |t| > 0 && (t[0] == '-' || t[0] == '+') then t[1..] else t
  }

  /** The unsigned part of `parseInt`: radix 16 after a `0x`/`0X` prefix,
      radix 10 otherwise, then the longest digit prefix; `None` when that
      prefix is empty. */
  function ParseUnsigned(u: string): Option<nat>
  {
    var hex := HexPrefix(u);
    var radix := if hex then 16 else 10;
    var z := DigitPrefix(if hex then u[2..] else u, radix);
    if |z| == 0 then None else Some(DigitsValue(z, radix))
  }

  /** `0x` or `0X`, which switches `parseInt` to radix 16. */
  predicate HexPrefix(u: string) {
    |u| >= 2 && u[0] == '0' && (u[1] == 'x' || u[1] == 'X')
  }

  /** `parseInt(s) || 0`: the parsed integer, or 0 where `parseInt` gives `NaN`. */
  function IntOrZero(s: string): (n: int)
    ensures ParseInt(s).None? ==> n == 0
    ensures ParseInt(s).Some? ==> n == ParseInt(s).value
  {
    match ParseInt(s)
    case None => 0
    case Some(v) => v
  }

  function DecimalDigit(d: nat): (c: char)
    requires d < 10
    ensures IsDecDigit(c) && DigitValue(c, 10) == d
  {
    ('0' as int + d) as char
  }

  /** `String(n)` for a natural number: its decimal digits without leading zeros. */
  function NatToDecimal(n: nat): (s: string)
    ensures |s| > 0
    ensures forall k :: 0 <= k < |s| ==> IsDecDigit(s[k])
    ensures s[0] == '0' ==> n == 0 && |s| == 1
  {
    if n < 10 then [DecimalDigit(n)]
    else NatToDecimal(n / 10) + [DecimalDigit(n % 10)]
  }

  /** `String(n)` for an integer: a minus sign before the magnitude when negative. */
  function IntToDecimal(n: int): (s: string)
    ensures |s| > 0
    ensures forall k :: 0 <= k < |s| ==> s[k] != ',' && s[k] != '"'
  {
    if n < 0 then "-" + NatToDecimal(-n) else NatToDecimal(n)
  }

  /** Reading the decimal digits of `n` back gives `n`. */
  lemma {:induction false} DecimalValue(n: nat)
    ensures DigitsValue(NatToDecimal(n), 10) == n
  {
    if n >= 10 {
      var s := NatToDecimal(n);
      assert s[..|s| - 1] == NatToDecimal(n / 10);
      DecimalValue(n / 10);
    }
  }

  /** A run of decimal digits is its own digit prefix, whatever follows it
      as long as that does not start with another digit. */
  lemma {:induction false} DigitPrefixOfDigits(d: string, rest: string, radix: nat)
    requires forall k :: 0 <= k < |d| ==> IsDigitIn(d[k], radix)
    requires rest == [] || !IsDigitIn(rest[0], radix)
    ensures DigitPrefix(d + rest, radix) == d
  {
    if |d| == 0 {
      assert d + rest == rest;
    } else {
      assert (d + rest)[1..] == d[1..] + rest;
      DigitPrefixOfDigits(d[1..], rest, radix);
    }
  }

  /** The unsigned reader takes the leading decimal number of a text and
      ignores the rest once a non-digit is reached, except that `0` followed by
      `x` or `X` switches to hexadecimal. */
  lemma UnsignedLeadingNumber(n: nat, rest: string)
    requires rest == [] || !IsDecDigit(rest[0])
    requires n != 0 || rest == [] || (rest[0] != 'x' && rest[0] != 'X')
    ensures ParseUnsigned(NatToDecimal(n) + rest) == Some(n)
  {
    var d := NatToDecimal(n);
    var s := d + rest;
    if |s| >= 2 && s[0] == '0' {
      assert s[1] == rest[0];
    }
    DigitPrefixOfDigits(d, rest, 10);
    DecimalValue(n);
  }

  /** `parseInt` reads back the leading decimal number of a text, whatever
      its sign, and ignores what follows it. */
  lemma ParseIntLeadingNumber(n: int, rest: string)
    requires rest == [] || !IsDecDigit(rest[0])
    requires n != 0 || rest == [] || (rest[0] != 'x' && rest[0] != 'X')
    ensures ParseInt(IntToDecimal(n) + rest) == Some(n)
  {
    if n < 0 {
      var t := NatToDecimal(-n) + rest;
      assert IntToDecimal(n) + rest == "-" + t by {
        AppendAssoc("-", NatToDecimal(-n), rest);
      }
      UnsignedLeadingNumber(-n, rest);
      ParseIntNegativeOf(IntToDecimal(n) + rest, t, -n);
    } else {
      ParseIntLeadingNatural(n, rest);
    }
  }

  lemma ParseIntLeadingNatural(n: nat, rest: string)
    requires rest == [] || !IsDecDigit(rest[0])
    requires n != 0 || rest == [] || (rest[0] != 'x' && rest[0] != 'X')
    ensures ParseInt(NatToDecimal(n) + rest) == Some(n)
  {
    var d := NatToDecimal(n);
    var s := d + rest;
    assert s[0] == d[0];
    UnsignedLeadingNumber(n, rest);
    ParseIntUnsigned(s);
  }

  /** An explicit `+` sign is skipped. */
  lemma ParseIntPlusSign(n: nat, rest: string)
    requires rest == [] || !IsDecDigit(rest[0])
    requires n != 0 || rest == [] || (rest[0] != 'x' && rest[0] != 'X')
    ensures ParseInt("+" + (NatToDecimal(n) + rest)) == Some(n)
  {
    var t := NatToDecimal(n) + rest;
    var s := "+" + t;
    assert s[1..] == t;
    UnsignedLeadingNumber(n, rest);
    TrimStartPlain(s);
  }

  /** A text that starts with a digit has no white space or sign to skip. */
  lemma ParseIntUnsigned(s: string)
    requires |s| > 0 && IsDecDigit(s[0])
    ensures ParseUnsigned(s).Some? ==> ParseInt(s) == Some(ParseUnsigned(s).value)
  {
    TrimStartPlain(s);
  }

  /** A text that starts with a minus sign is the negated unsigned number
      that follows it. */
  lemma ParseIntNegative(s: string)
    requires |s| > 0 && s[0] == '-'
    ensures ParseUnsigned(s[1..]).Some? ==> ParseInt(s) == Some(-(ParseUnsigned(s[1..]).value as int))
  {
    TrimStartPlain(s);
  }

  /** `ParseIntNegative` for a known magnitude. */
  lemma ParseIntNegativeOf(s: string, t: string, m: nat)
    requires s == "-" + t && ParseUnsigned(t) == Some(m)
    ensures ParseInt(s) == Some(-(m as int))
  {
    assert s[1..] == t;
    ParseIntNegative(s);
  }

  lemma TrimStartPlain(s: string)
    requires |s| > 0 && !IsJsWhitespace(s[0])
    ensures TrimStart(s) == s
  {
  }

  /** The text written for an integer parses back to the same integer. */
  lemma ParseIntRoundTrip(n: int)
    ensures ParseInt(IntToDecimal(n)) == Some(n)
    ensures IntOrZero(IntToDecimal(n)) == n
  {
    assert IntToDecimal(n) + [] == IntToDecimal(n);
    ParseIntLeadingNumber(n, []);
  }

  /** `parseInt` gives `NaN` exactly when no decimal digit follows the white
      space and the optional sign, or when a `0x` prefix is not followed by a
      hexadecimal digit. */
  lemma NaNIffNoLeadingDigit(s: string)
    ensures ParseInt(s).None? <==>
              var u := Magnitude(s);
              u == [] || !IsDecDigit(u[0]) || (HexPrefix(u) && (|u| == 2 || !IsDigitIn(u[2], 16)))
  {
  }

  /** A text without any decimal digit is `NaN` to `parseInt`: "none",
      "N/A" and "TBD" all are. */
  lemma NoDigitsIsNaN(s: string)
    requires forall k :: 0 <= k < |s| ==> !IsDecDigit(s[k])
    ensures ParseInt(s) == None
  {
    var u := Magnitude(s);
    if |u| > 0 {
      assert u[0] == s[|s| - |u|];
    }
    NaNIffNoLeadingDigit(s);
  }

  /** Different naturals are written differently. */
  lemma NatToDecimalInjective(m: nat, n: nat)
    requires NatToDecimal(m) == NatToDecimal(n)
    ensures m == n
  {
    DecimalValue(m);
    DecimalValue(n);
  }
}
