/** The key share is stored as text: written with `BigInteger.toString(16)` and
    read back with `new BigInteger(s, 16)`. */
module Hex {
  import opened Outcomes

  /** `Character.forDigit(d, 16)`: lower-case digits. */
  function DigitChar(d: nat): char
    requires d < 16
  {
    if d < 10 then ('0' as int + d) as char else ('a' as int + d - 10) as char
  }

  /** `Character.digit(c, 16)` on ASCII characters: either case is accepted. */
  function DigitValue(c: char): (r: Option<nat>)
    ensures r.Some? ==> r.value < 16
  {
    if '0' <= c <= '9' then Some(c as int - '0' as int)
    else if 'a' <= c <= 'f' then Some(c as int - 'a' as int + 10)
    else if 'A' <= c <= 'F' then Some(c as int - 'A' as int + 10)
    else None
  }

  /** The digits of n, most significant first, without leading zeros. */
  function NatToHex(n: nat): (s: string)
    ensures |s| >= 1
    ensures forall i :: 0 <= i < |s| ==> '0' <= s[i] <= '9' || 'a' <= s[i] <= 'f'
    ensures |s| > 1 ==> s[0] != '0'
    decreases n
  {
    if n < 16 then [DigitChar(n)] else NatToHex(n / 16) + [DigitChar(n % 16)]
  }

  /** `BigInteger.toString(16)`: a minus sign, then the magnitude's digits. */
  function ToHex(n: int): (s: string)
    ensures |s| >= 1 && (s[0] == '-' <==> n < 0)
    ensures n < 0 ==> s[1..] == NatToHex(-n)
    ensures n >= 0 ==> s == NatToHex(n)
  {
    if n < 0 then "-" + NatToHex(-n) else NatToHex(n)
  }

  /** The value of a sequence of hexadecimal digits, or None if one is not a digit. */
  function DigitsValue(s: string): Option<nat>
  {
    if s == [] then Some(0)
    else
      match (DigitsValue(s[..|s| - 1]), DigitValue(s[|s| - 1]))
      case (Some(high), Some(low)) => Some(16 * high + low)
      case _ => None
  }

  /** `new BigInteger(s, 16)`: an optional sign followed by one or more digits;
      anything else throws NumberFormatException. */
  function ParseHex(s: string): (r: Result<int>)
    ensures r.Thrown? ==> r.error == NumberFormat
    ensures s == [] || s == "-" || s == "+" ==> r.Thrown?
  {
    if s == [] then Thrown(NumberFormat)
    else if s[0] == '-' || s[0] == '+' then
      if |s| == 1 then Thrown(NumberFormat)
      else match DigitsValue(s[1..])
        case Some(v) => Ok(if s[0] == '-' then -(v as int) else v as int)
        case None => Thrown(NumberFormat)
    else match DigitsValue(s)
      case Some(v) => Ok(v)
      case None => Thrown(NumberFormat)
  }

  lemma DigitRoundTrip(d: nat)
    requires d < 16
    ensures DigitValue(DigitChar(d)) == Some(d)
  {
  }

  /** The digits written for n read back as n. */
  lemma {:induction false} NatToHexRoundTrip(n: nat)
    ensures DigitsValue(NatToHex(n)) == Some(n)
    decreases n
  {
    var s := NatToHex(n);
    if n < 16 {
      DigitRoundTrip(n);
      assert s[..0] == [];
    } else {
      NatToHexRoundTrip(n / 16);
      DigitRoundTrip(n % 16);
      assert s[..|s| - 1] == NatToHex(n / 16);
    }
  }

  /** Digits without a sign read back as their value. */
  lemma ParseUnsigned(t: string, v: nat)
    requires t != [] && t[0] != '-' && t[0] != '+' && DigitsValue(t) == Some(v)
    ensures ParseHex(t) == Ok(v)
  {
  }

  /** A minus sign followed by digits reads back as the negated value. */
  lemma ParseNegative(t: string, v: nat)
    requires t != [] && DigitsValue(t) == Some(v)
    ensures ParseHex("-" + t) == Ok(-(v as int))
  {
    assert ("-" + t)[1..] == t;
  }

  /** Reading back what was written gives the original key share, for every integer. */
  lemma {:induction false} HexRoundTrip(n: int)
    ensures ParseHex(ToHex(n)) == Ok(n)
  {
    if n < 0 {
      NatToHexRoundTrip(-n);
      ParseNegative(NatToHex(-n), -n);
      assert ToHex(n) == "-" + NatToHex(-n);
    } else {
      var t := NatToHex(n);
      NatToHexRoundTrip(n);
      assert t[0] != '-' && t[0] != '+';
      ParseUnsigned(t, n);
    }
  }
}
