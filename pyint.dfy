/**
 * Python's `int(text)` for base-ten text: an optional `+` or `-`, then
 * ASCII digits in which single underscores may stand between two digits.
 * Anything else raises `ValueError`, modelled as `None`.
 */
module PyInt {
  import opened Wrappers

  predicate IsDigit(c: char)
  {
    '0' <= c <= '9'
  }

  function DigitValue(c: char): (d: nat)
    requires IsDigit(c)
    ensures d < 10
  {
    c as int - '0' as int
  }

  function DigitChar(d: nat): (c: char)
    requires d < 10
    ensures IsDigit(c) && DigitValue(c) == d
  {
    (d + '0' as int) as char
  }

  /**
   * The value of a digit string such as "10_485_760", or `None` when it is
   * empty, holds anything but digits and underscores, or has an underscore
   * that is not between two digits.
   */
  function ParseDigits(s: string): (r: Option<nat>)
    ensures r.Some? ==> |s| > 0 && IsDigit(s[0]) && IsDigit(s[|s| - 1])
    ensures r.Some? ==> forall i :: 0 <= i < |s| ==> IsDigit(s[i]) || s[i] == '_'
    ensures r.Some? ==> forall i :: 0 <= i < |s| - 1 && s[i] == '_' ==> IsDigit(s[i + 1])
    decreases |s|
  {
    if |s| == 0 || !IsDigit(s[|s| - 1]) then None
    else if |s| == 1 then Some(DigitValue(s[0]))
    else
      var init := if s[|s| - 2] == '_' then s[..|s| - 2] else s[..|s| - 1];
      match ParseDigits(init)
      case None => None
      case Some(v) => Some(10 * v + DigitValue(s[|s| - 1]))
  }

  /**
   * The digit strings `int()` accepts: ASCII digits, where a single
   * underscore may stand between two digits.
   */
  predicate WellFormedDigits(s: string)
  {
    |s| > 0 && IsDigit(s[0]) && IsDigit(s[|s| - 1])
    && (forall i :: 0 <= i < |s| ==> IsDigit(s[i]) || s[i] == '_')
    && (forall i :: 0 <= i < |s| - 1 && s[i] == '_' ==> IsDigit(s[i + 1]))
  }

  /** The number the digits of `s` spell, read left to right; anything else is skipped. */
  function DigitsValue(s: string): nat
  {
    if |s| == 0 then 0
    else if IsDigit(s[|s| - 1]) then 10 * DigitsValue(s[..|s| - 1]) + DigitValue(s[|s| - 1])
    else DigitsValue(s[..|s| - 1])
  }

  /** The prefix ParseDigits recurses on is well-formed when `s` is. */
  lemma WellFormedInit(s: string)
    requires WellFormedDigits(s) && |s| > 1
    ensures s[|s| - 2] == '_' ==> |s| > 2 && WellFormedDigits(s[..|s| - 2])
    ensures s[|s| - 2] != '_' ==> WellFormedDigits(s[..|s| - 1])
  {
    if s[|s| - 2] == '_' {
      assert |s| > 2 by {
        assert IsDigit(s[0]);
      }
      var k := |s| - 3;
      assert s[k] != '_' by {
        assert !IsDigit(s[k + 1]);
      }
    }
  }

  /**
   * ParseDigits accepts exactly the well-formed digit strings, and what it
   * returns is the number their digits spell.
   */
  lemma {:induction false} ParseDigitsMeaning(s: string)
    ensures ParseDigits(s).Some? <==> WellFormedDigits(s)
    ensures ParseDigits(s).Some? ==> ParseDigits(s).value == DigitsValue(s)
  {
    if WellFormedDigits(s) && |s| > 1 {
      var last := s[|s| - 1];
      var init := if s[|s| - 2] == '_' then s[..|s| - 2] else s[..|s| - 1];
      WellFormedInit(s);
      ParseDigitsMeaning(init);
      assert DigitsValue(s) == 10 * DigitsValue(s[..|s| - 1]) + DigitValue(last);
      if s[|s| - 2] == '_' {
        assert s[..|s| - 1][..|s| - 2] == init;
        assert DigitsValue(s[..|s| - 1]) == DigitsValue(init);
      }
    }
  }

  /** `int(s)` on text already stripped of surrounding white space. */
  function ParseInt(s: string): (r: Option<int>)
    ensures r.Some? ==> |s| > 0 && IsDigit(s[|s| - 1])
    ensures r.Some? && r.value < 0 ==> s[0] == '-'
  {
    if 0 < |s| && (s[0] == '-' || s[0] == '+') then
      match ParseDigits(s[1..])
      case None => None
      case Some(v) => Some(if s[0] == '-' then -(v as int) else v)
    else
      match ParseDigits(s)
      case None => None
      case Some(v) => Some(v)
  }

  /** `str(n)` for a natural number: its shortest decimal numeral. */
  function Decimal(n: nat): (s: string)
    ensures |s| > 0
    ensures forall i :: 0 <= i < |s| ==> IsDigit(s[i])
  {
    if n < 10 then [DigitChar(n)] else Decimal(n / 10) + [DigitChar(n % 10)]
  }

  /** `int(str(n)) == n`: the numeral of a number parses back to it. */
  lemma {:induction false} ParseDecimal(n: nat)
    ensures ParseDigits(Decimal(n)) == Some(n)
  {
    if n >= 10 {
      var s := Decimal(n);
      ParseDecimal(n / 10);
      assert s[..|s| - 1] == Decimal(n / 10);
    }
  }

  /** `int(str(n)) == n` through the signed entry point as well. */
  lemma ParseIntDecimal(n: nat)
    ensures ParseInt(Decimal(n)) == Some(n)
    ensures n > 0 ==> ParseInt("-" + Decimal(n)) == Some(-(n as int))
  {
    ParseDecimal(n);
    assert ("-" + Decimal(n))[1..] == Decimal(n);
  }

  /**
   * `int()` accepts an optional sign followed by well-formed digits and
   * nothing else; unsigned digits stand for the number they spell.
   */
  lemma ParseIntMeaning(s: string)
    ensures ParseInt(s).Some? <==>
      WellFormedDigits(s) || (|s| > 0 && (s[0] == '+' || s[0] == '-') && WellFormedDigits(s[1..]))
    ensures WellFormedDigits(s) ==> ParseInt(s) == Some(DigitsValue(s))
  {
    ParseDigitsMeaning(s);
    if |s| > 0 {
      ParseDigitsMeaning(s[1..]);
    }
  }

  /** A sign in front of digits: `+` keeps their value, `-` negates it. */
  lemma ParseIntSigned(s: string)
    ensures ParseInt("+" + s) == (if WellFormedDigits(s) then Some(DigitsValue(s) as int) else None)
    ensures ParseInt("-" + s) == (if WellFormedDigits(s) then Some(-(DigitsValue(s) as int)) else None)
  {
    assert ("+" + s)[1..] == s && ("-" + s)[1..] == s;
    ParseDigitsMeaning(s);
  }

  /** Leading zeros, a plus sign and underscores between digits are all accepted. */
  lemma IntSpellings()
    ensures ParseInt("007") == Some(7)
    ensures ParseInt("+7") == Some(7)
    ensures ParseInt("1_0") == Some(10)
  {
    assert "007"[..2] == "00" && "00"[..1] == "0";
    assert ParseDigits("00") == Some(0);
    assert "1_0"[..1] == "1";
    ParseIntSigned("7");
  }
}
