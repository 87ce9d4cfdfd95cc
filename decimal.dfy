/**
  Base-10 integer text, as Go's strconv.FormatInt(n, 10) prints it and
  strconv.ParseInt(s, 10, 64) reads it: an optional '+' or '-' sign followed by
  one or more ASCII digits (leading zeros allowed), value within int64.
*/
module Decimal {
  import opened Results

  const MinInt64: int := -0x8000_0000_0000_0000
  const MaxInt64: int := 0x7FFF_FFFF_FFFF_FFFF

  predicate IsInt64(n: int) {
    MinInt64 <= n <= MaxInt64
  }

  predicate IsDigit(c: char) {
    '0' <= c <= '9'
  }

  predicate AllDigits(s: string) {
    forall i :: 0 <= i < |s| ==> IsDigit(s[i])
  }

  function DigitChar(d: nat): (c: char)
    requires d < 10
  {
    ('0' as int + d) as char
  }

  /** The number denoted by a run of digits, most significant first. */
  function DigitsValue(s: string): nat
    requires AllDigits(s)
  {
    if s == [] then 0 else DigitsValue(s[..|s| - 1]) * 10 + (s[|s| - 1] as int - '0' as int)
  }

  /** The shortest digit run denoting n (no leading zeros, "0" for zero). */
  function NatDigits(n: nat): (s: string)
    ensures |s| > 0 && AllDigits(s)
    ensures |s| > 1 ==> s[0] != '0'
  {
    if n < 10 then [DigitChar(n)] else NatDigits(n / 10) + [DigitChar(n % 10)]
  }

  /** strconv.FormatInt(n, 10). */
  function FormatInt(n: int): (s: string)
    ensures |s| > 0 && (s[0] == '-' <==> n < 0)
  {
    if n < 0 then "-" + NatDigits(-n) else NatDigits(n)
  }

  const SyntaxError := "invalid syntax"
  const RangeError := "value out of range"

  /** strconv.ParseInt(s, 10, 64): syntax errors first, then the int64 range check. */
  function ParseInt(s: string): (r: Result<int>)
    ensures r.Ok? ==> IsInt64(r.value)
  {
    if s == [] then Err(SyntaxError)
    else
      var negative := s[0] == '-';
      var digits := if s[0] == '-' || s[0] == '+' then s[1..] else s;
      if digits == [] || !AllDigits(digits) then Err(SyntaxError)
      else
        var magnitude: int := DigitsValue(digits);
        var v := if negative then -magnitude else magnitude;
        if IsInt64(v) then Ok(v) else Err(RangeError)
  }

  lemma {:induction false} NatDigitsRoundTrip(n: nat)
    ensures DigitsValue(NatDigits(n)) == n
  {
    var s := NatDigits(n);
    if n >= 10 {
      NatDigitsRoundTrip(n / 10);
      assert s[..|s| - 1] == NatDigits(n / 10);
    }
  }

  /** What FormatInt prints, ParseInt reads back: the Unix field's text round trip. */
  lemma FormatParseRoundTrip(n: int)
    requires IsInt64(n)
    ensures ParseInt(FormatInt(n)) == Ok(n)
  {
    var s := FormatInt(n);
    if n < 0 {
      var d := NatDigits(-n);
      NatDigitsRoundTrip(-n);
      assert s == "-" + d && s[0] == '-' && s[1..] == d;
      assert DigitsValue(d) == -n;
    } else {
      var d := NatDigits(n);
      NatDigitsRoundTrip(n);
      assert s == d && IsDigit(s[0]);
      assert DigitsValue(d) == n;
    }
  }

  /** Distinct int64 values print differently, so comparing printed texts is exact. */
  lemma FormatIntInjective(m: int, n: int)
    requires IsInt64(m) && IsInt64(n)
    ensures FormatInt(m) == FormatInt(n) <==> m == n
  {
    if FormatInt(m) == FormatInt(n) {
      FormatParseRoundTrip(m);
      FormatParseRoundTrip(n);
    }
  }

  /** A successful parse has a sign-free digit run, so text with any other character is refused. */
  lemma ParseIntAcceptsOnlyDigits(s: string)
    requires ParseInt(s).Ok?
    ensures |s| > 0
    ensures forall i :: 0 < i < |s| ==> IsDigit(s[i])
    ensures IsDigit(s[0]) || s[0] == '-' || s[0] == '+'
  {
    var digits := if s[0] == '-' || s[0] == '+' then s[1..] else s;
    assert AllDigits(digits);
    if s[0] == '-' || s[0] == '+' {
      forall i | 0 < i < |s| ensures IsDigit(s[i]) {
        assert s[i] == digits[i - 1];
      }
    }
  }

  lemma ParseIntExamples()
    ensures ParseInt("0") == Ok(0)
    ensures ParseInt("-1") == Ok(-1)
    ensures ParseInt("+007") == Ok(7)
    ensures ParseInt("") == Err(SyntaxError)
    ensures ParseInt("-") == Err(SyntaxError)
  {
    assert "0"[..0] == [];
    assert "1"[..0] == [];
    assert "-1"[1..] == "1";
    assert "+007"[1..] == "007";
    assert "007"[..2] == "00" && "00"[..1] == "0" && "0"[..0] == [];
  }

  /** Well-formed text whose value leaves int64 is refused with a range error. */
  lemma FormatOutOfRangeRefused(n: int)
    requires !IsInt64(n)
    ensures ParseInt(FormatInt(n)) == Err(RangeError)
  {
    var s := FormatInt(n);
    if n < 0 {
      var d := NatDigits(-n);
      NatDigitsRoundTrip(-n);
      assert s == "-" + d && s[0] == '-' && s[1..] == d;
      assert DigitsValue(d) == -n;
    } else {
      var d := NatDigits(n);
      NatDigitsRoundTrip(n);
      assert s == d && IsDigit(s[0]);
      assert DigitsValue(d) == n;
    }
  }
}
