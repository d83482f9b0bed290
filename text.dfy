/** The few pieces of Qt string formatting the HRGK helpers rely on:
    `QString::number` and `%1`-style arguments in base 10 (with a minus sign
    for negative values), `arg(v, width, 16, '0').toUpper()` in base 16, and
    `QStringList::join` with a one-character separator. */
module Text {

  predicate IsDigit(c: char)
  {
    '0' <= c <= '9'
  }

  /** The character of a decimal digit. */
  function DigitChar(d: nat): (c: char)
    requires d < 10
    ensures IsDigit(c) && c as int - '0' as int == d
  {
    (48 + d) as char
  }

  // ---------------------------------------------------------------------
  // Base 10
  // ---------------------------------------------------------------------

  /** The decimal digits of `n`, most significant first, without leading
      zeros. */
  function NatToDecimal(n: nat): (s: string)
    ensures 1 <= |s| && forall k :: 0 <= k < |s| ==> IsDigit(s[k])
    decreases n
  {
    if n < 10 then [DigitChar(n)] else NatToDecimal(n / 10) + [DigitChar(n % 10)]
  }

  /** The number a string of decimal digits denotes. */
  function DecimalValue(s: string): nat
    requires forall k :: 0 <= k < |s| ==> IsDigit(s[k])
  {
    if s == [] then 0 else DecimalValue(s[..|s| - 1]) * 10 + DigitValue(s[|s| - 1])
  }

  function DigitValue(c: char): (d: nat)
    requires IsDigit(c)
    ensures d < 10
  {
    c as int - '0' as int
  }

  /** Reading the digits back gives the number. */
  lemma {:induction false} DecimalRoundTrip(n: nat)
    ensures DecimalValue(NatToDecimal(n)) == n
    decreases n
  {
    var s := NatToDecimal(n);
    if n >= 10 {
      DecimalRoundTrip(n / 10);
      assert s[..|s| - 1] == NatToDecimal(n / 10);
    }
  }

  /** Different numbers print differently. */
  lemma DecimalInjective(a: nat, b: nat)
    requires NatToDecimal(a) == NatToDecimal(b)
    ensures a == b
  {
    DecimalRoundTrip(a);
    DecimalRoundTrip(b);
  }

  /** `QString::number(n)` / `arg(n)` for a signed integer. */
  function IntToDecimal(n: int): (s: string)
    ensures 1 <= |s|
    ensures (n < 0) == (s[0] == '-')
  {
    if n < 0 then "-" + NatToDecimal(-n) else NatToDecimal(n)
  }

  /** A printed integer: an optional minus sign, then at least one digit. */
  predicate IsIntText(s: string)
  {
    if |s| > 0 && s[0] == '-' then |s| >= 2 && forall k :: 1 <= k < |s| ==> IsDigit(s[k])
    else |s| >= 1 && forall k :: 0 <= k < |s| ==> IsDigit(s[k])
  }

  /** The integer a printed integer denotes. */
  function IntDecimalValue(s: string): int
    requires IsIntText(s)
  {
    if s[0] == '-' then 0 - DecimalValue(s[1..]) else DecimalValue(s)
  }

  /** Reading a printed integer back gives the integer. */
  lemma IntDecimalRoundTrip(n: int)
    ensures IsIntText(IntToDecimal(n)) && IntDecimalValue(IntToDecimal(n)) == n
  {
    var s := IntToDecimal(n);
    if n < 0 {
      assert s[1..] == NatToDecimal(-n);
      DecimalRoundTrip(-n);
    } else {
      DecimalRoundTrip(n);
    }
  }

  /** Different integers print differently. */
  lemma IntToDecimalInjective(a: int, b: int)
    requires IntToDecimal(a) == IntToDecimal(b)
    ensures a == b
  {
    IntDecimalRoundTrip(a);
    IntDecimalRoundTrip(b);
  }

  // ---------------------------------------------------------------------
  // Base 16, upper case, zero padded
  // ---------------------------------------------------------------------

  predicate IsHexDigit(c: char)
  {
    '0' <= c <= '9' || 'A' <= c <= 'F'
  }

  /** The upper-case character of a hexadecimal digit. */
  function HexDigitChar(d: nat): (c: char)
    requires d < 16
    ensures IsHexDigit(c)
  {
    if d < 10 then (48 + d) as char else (55 + d) as char
  }

  function HexDigitValue(c: char): (d: nat)
    requires IsHexDigit(c)
    ensures d < 16
  {
    if c <= '9' then c as int - '0' as int else c as int - 'A' as int + 10
  }

  /** The hexadecimal digits of `n`, most significant first, at least one. */
  function NatToHex(n: nat): (s: string)
    ensures 1 <= |s| && forall k :: 0 <= k < |s| ==> IsHexDigit(s[k])
    decreases n
  {
    if n < 16 then [HexDigitChar(n)] else NatToHex(n / 16) + [HexDigitChar(n % 16)]
  }

  /** `arg(n, width, 16, QLatin1Char('0')).toUpper()`: the hexadecimal digits,
      padded on the left with zeros to at least `width` characters. */
  function HexPadded(n: nat, width: nat): (s: string)
    ensures forall k :: 0 <= k < |s| ==> IsHexDigit(s[k])
  {
    var digits := NatToHex(n);
    if |digits| < width then seq(width - |digits|, _ => '0') + digits else digits
  }

  /** The number a string of hexadecimal digits denotes. */
  function HexValue(s: string): nat
    requires forall k :: 0 <= k < |s| ==> IsHexDigit(s[k])
  {
    if s == [] then 0 else HexValue(s[..|s| - 1]) * 16 + HexDigitValue(s[|s| - 1])
  }

  lemma {:induction false} HexRoundTrip(n: nat)
    ensures HexValue(NatToHex(n)) == n
    decreases n
  {
    var s := NatToHex(n);
    if n >= 16 {
      HexRoundTrip(n / 16);
      assert s[..|s| - 1] == NatToHex(n / 16);
    }
  }

  /** Leading zeros do not change the value. */
  lemma {:induction false} HexLeadingZeros(z: nat, s: string)
    requires forall k :: 0 <= k < |s| ==> IsHexDigit(s[k])
    ensures HexValue(seq(z, _ => '0') + s) == HexValue(s)
    decreases |s|
  {
    var zs: string := seq(z, _ => '0');
    if s == [] {
      assert zs + s == zs;
      AllZerosValue(z);
    } else {
      assert (zs + s)[..|zs + s| - 1] == zs + s[..|s| - 1];
      HexLeadingZeros(z, s[..|s| - 1]);
    }
  }

  lemma {:induction false} AllZerosValue(z: nat)
    ensures HexValue(seq(z, _ => '0')) == 0
  {
    if z > 0 {
      var zs: string := seq(z, _ => '0');
      assert zs[..z - 1] == seq(z - 1, _ => '0');
      AllZerosValue(z - 1);
    }
  }

  /** Reading the padded digits back gives the number. */
  lemma HexPaddedRoundTrip(n: nat, width: nat)
    ensures HexValue(HexPadded(n, width)) == n
  {
    var digits := NatToHex(n);
    HexRoundTrip(n);
    if |digits| < width {
      HexLeadingZeros(width - |digits|, digits);
    }
  }

  /** A number below 16^w needs at most w digits. */
  lemma {:induction false} NatToHexLength(n: nat, w: nat)
    requires n < Pow16(w)
    ensures |NatToHex(n)| <= w || (n == 0 && w == 0)
    decreases w
  {
    if n >= 16 {
      NatToHexLength(n / 16, w - 1);
    }
  }

  function Pow16(w: nat): (r: nat)
    ensures r >= 1
  {
    if w == 0 then 1 else 16 * Pow16(w - 1)
  }

  /** Below 16^width, the padded form is exactly `width` characters wide. */
  lemma HexPaddedWidth(n: nat, width: nat)
    requires 1 <= width && n < Pow16(width)
    ensures |HexPadded(n, width)| == width
  {
    NatToHexLength(n, width);
  }

  // ---------------------------------------------------------------------
  // Lists
  // ---------------------------------------------------------------------

  /** `QStringList::join(sep)`: the items separated by `sep`. */
  function Join(items: seq<string>, sep: char): (s: string)
    ensures items == [] ==> s == ""
    ensures |items| == 1 ==> s == items[0]
  {
    if |items| == 0 then "" else if |items| == 1 then items[0] else items[0] + [sep] + Join(items[1..], sep)
  }

  /** A joined list starts with its first item. */
  lemma JoinStartsWithFirst(items: seq<string>, sep: char)
    requires items != []
    ensures |items[0]| <= |Join(items, sep)| && Join(items, sep)[..|items[0]|] == items[0]
  {
  }
}
