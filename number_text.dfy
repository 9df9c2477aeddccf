/**
 The text forms an integer timestamp takes on its way to and from the
 database: JavaScript's `Number.prototype.toString()` of an integer, the
 unary `+` conversion of a string, and `parseInt` of a string.  Only the
 decimal forms that these conversions produce or accept for integers are
 modelled; a conversion that JavaScript would turn into `NaN` is `None`.
 */
module NumberText {

  datatype Option<T> = None | Some(value: T)

  predicate IsDigit(c: char) {
    '0' <= c <= '9'
  }

  predicate AllDigits(s: string) {
    forall i :: 0 <= i < |s| ==> IsDigit(s[i])
  }

  function DigitChar(d: nat): (c: char)
    requires d < 10
    ensures IsDigit(c) && DigitValue(c) == d
  {
    (('0' as int) + d) as char
  }

  function DigitValue(c: char): nat
    requires IsDigit(c)
  {
    (c as int) - ('0' as int)
  }

  /** The decimal digits of `n`, most significant first, without leading zeros. */
  function NatDigits(n: nat): (s: string)
    ensures |s| > 0 && AllDigits(s)
    ensures s[0] == '0' <==> n == 0
    decreases n
  {
    if n < 10 then [DigitChar(n)] else NatDigits(n / 10) + [DigitChar(n % 10)]
  }

  /** The value of a run of decimal digits (the empty run is 0). */
  function DigitsValue(s: string): nat
    requires AllDigits(s)
  {
    if s == [] then 0 else DigitsValue(s[..|s| - 1]) * 10 + DigitValue(s[|s| - 1])
  }

  lemma {:induction false} DigitsValueOfNatDigits(n: nat)
    ensures DigitsValue(NatDigits(n)) == n
    decreases n
  {
    if n >= 10 {
      var s := NatDigits(n);
      assert s[..|s| - 1] == NatDigits(n / 10);
      DigitsValueOfNatDigits(n / 10);
    }
  }

  /** `Number.prototype.toString()` of an integer: an optional minus sign and the digits. */
  function NumberToString(n: int): (s: string)
    ensures |s| > 0
    ensures s[0] == '-' <==> n < 0
    ensures AllDigits(s[1..])
    ensures n >= 0 ==> AllDigits(s) && (s[0] == '0' <==> n == 0)
    ensures n < 0 ==> |s| > 1 && s[1] != '0'
    ensures n == 0 ==> s == "0"
  {
    if n < 0 then "-" + NatDigits(-n) else NatDigits(n)
  }

  /**
   Unary `+` on a string: the empty string is 0; an optional sign followed by
   at least one decimal digit is that integer; anything else is `None`.
   */
  function UnaryPlus(s: string): (r: Option<int>)
    ensures s != [] && AllDigits(s) ==> r.Some? && r.value >= 0
    ensures r.Some? && r.value < 0 ==> |s| > 1 && s[0] == '-'
    ensures r.Some? && s != [] ==> IsDigit(s[|s| - 1])
  {
    if s == [] then Some(0)
    else if |s| > 1 && (s[0] == '-' || s[0] == '+') && AllDigits(s[1..]) then
      var v: int := DigitsValue(s[1..]);
      Some(if s[0] == '-' then -v else v)
    else if AllDigits(s) then Some(DigitsValue(s))
    else None
  }

  /** Length of the longest prefix of `s` made of decimal digits. */
  function DigitPrefixLength(s: string): (k: nat)
    ensures k <= |s| && AllDigits(s[..k])
    ensures k < |s| ==> !IsDigit(s[k])
  {
    if s == [] || !IsDigit(s[0]) then 0
    else
      var k := 1 + DigitPrefixLength(s[1..]);
      assert s[..k] == [s[0]] + s[1..][..k - 1];
      k
  }

  /**
   `parseInt(s)` without a radix: an optional sign, then the longest run of
   decimal digits; `None` when that run is empty.
   */
  function ParseInt(s: string): (r: Option<int>)
    ensures r.Some? ==> |s| > 0 && (IsDigit(s[0]) || (|s| > 1 && (s[0] == '-' || s[0] == '+') && IsDigit(s[1])))
    ensures r.Some? && r.value < 0 ==> s[0] == '-'
    ensures |s| > 0 && IsDigit(s[0]) ==> r.Some? && r.value >= 0
  {
    var negative := |s| > 0 && s[0] == '-';
    var body := if |s| > 0 && (s[0] == '-' || s[0] == '+') then s[1..] else s;
    var k := DigitPrefixLength(body);
    if k == 0 then None
    else
      var v: int := DigitsValue(body[..k]);
      Some(if negative then -v else v)
  }

  /** Unary `+` reads back exactly the integer that `toString` wrote. */
  lemma UnaryPlusInvertsNumberToString(n: int)
    ensures UnaryPlus(NumberToString(n)) == Some(n)
  {
    var s := NumberToString(n);
    if n < 0 {
      var digits := NatDigits(-n);
      assert s[0] == '-' && s[1..] == digits && |s| > 1 && AllDigits(s[1..]);
      DigitsValueOfNatDigits(-n);
      assert DigitsValue(s[1..]) == -n;
    } else {
      assert s == NatDigits(n) && IsDigit(s[0]);
      DigitsValueOfNatDigits(n);
      assert UnaryPlus(s) == Some(DigitsValue(s));
    }
  }

  /** `parseInt` reads back exactly the integer that `toString` wrote. */
  lemma ParseIntInvertsNumberToString(n: int)
    ensures ParseInt(NumberToString(n)) == Some(n)
  {
    var m: nat := if n < 0 then -n else n;
    var digits := NatDigits(m);
    var k := DigitPrefixLength(digits);
    assert k == |digits|;
    assert digits[..k] == digits;
    if n < 0 {
      assert NumberToString(n)[1..] == digits;
    }
    DigitsValueOfNatDigits(m);
  }
}
