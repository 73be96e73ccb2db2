/**
 * Python's conversions between integers and their decimal text: `str(n)`
 * and `int(s)`.
 */
module PyInt {
  import opened Wrappers

  /** The decimal digits of `n`, most significant first, with no leading zero. */
  function Digits(n: nat): (r: string)
    ensures |r| >= 1 && '0' <= r[0] <= '9'
    ensures r[0] == '0' ==> n == 0
    decreases n
  {
    (if n < 10 then "" else Digits(n / 10)) + [('0' as int + n % 10) as char]
  }

  /** Python's `str(n)` for an integer `n`. */
  function Decimal(n: int): string
  {
    if n < 0 then "-" + Digits(-n) else Digits(n)
  }

  /** The value of a string of decimal digits; None when some character is not a digit. */
  function DigitsValue(s: string): Option<nat>
    decreases |s|
  {
    if s == "" then Some(0)
    else match DigitsValue(s[..|s| - 1])
      case None => None
      case Some(v) => if '0' <= s[|s| - 1] <= '9' then Some(v * 10 + (s[|s| - 1] as int - '0' as int)) else None
  }

  /** Python's `int(s)` on an optional "-" followed by decimal digits; None for any other text. */
  function ParseDecimal(s: string): Option<int>
  {
    if s == "" || s == "-" then None
    else if s[0] == '-' then (match DigitsValue(s[1..]) case None => None case Some(v) => Some(0 - v))
    else DigitsValue(s)
  }

  lemma {:induction false} DigitsValueOf(n: nat)
    ensures DigitsValue(Digits(n)) == Some(n)
    decreases n
  {
    var d := Digits(n);
    var front := if n < 10 then "" else Digits(n / 10);
    assert d[..|d| - 1] == front;
    if n >= 10 {
      DigitsValueOf(n / 10);
    }
  }

  lemma ParseSigned(d: string, m: nat)
    requires d != "" && DigitsValue(d) == Some(m)
    ensures ParseDecimal("-" + d) == Some(0 - m)
  {
    assert ("-" + d)[1..] == d;
  }

  /** `int(str(n)) == n`: the text of an integer reads back as that integer. */
  lemma DecimalRoundTrip(n: int)
    ensures ParseDecimal(Decimal(n)) == Some(n)
  {
    if n < 0 {
      DigitsValueOf(-n);
      ParseSigned(Digits(-n), -n);
    } else {
      DigitsValueOf(n);
    }
  }
}
