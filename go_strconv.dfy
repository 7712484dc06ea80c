/**
 * strconv.Atoi as the line-range flag uses it: an optional sign followed by
 * one or more decimal digits, over unbounded integers; and strconv.Itoa, its
 * inverse, as the reference the parser is checked against.
 */
module GoStrconv {
  import opened Outcomes

  predicate IsDigit(c: char) {
    '0' <= c <= '9'
  }

  predicate AllDigits(s: string) {
    forall k :: 0 <= k < |s| ==> IsDigit(s[k])
  }

  /** The value of a run of decimal digits, most significant first. */
  function DigitsValue(s: string): nat
    requires AllDigits(s)
  {
    if s == [] then 0
    else DigitsValue(s[..|s| - 1]) * 10 + (s[|s| - 1] - '0') as int
  }

  /** Text of the error strconv.Atoi returns for input it cannot parse. */
  function SyntaxError(s: string): string {
    "strconv.Atoi: parsing \"" + s + "\": invalid syntax"
  }

  /** An optional `+` or `-` followed by at least one decimal digit. */
  predicate IsDecimal(s: string) {
    var digits := if |s| > 0 && (s[0] == '+' || s[0] == '-') then s[1..] else s;
    digits != [] && AllDigits(digits)
  }

  /** strconv.Atoi; overflow of Go's `int` is not modelled. */
  function Atoi(s: string): (r: Outcome<int>)
    ensures r.Ok? <==> IsDecimal(s)
    ensures r.Err? ==> r.message == SyntaxError(s)
  {
    var negative := |s| > 0 && s[0] == '-';
    var digits := if |s| > 0 && (s[0] == '+' || s[0] == '-') then s[1..] else s;
    if digits == [] || !AllDigits(digits) then Err(SyntaxError(s))
    else
      var magnitude: int := DigitsValue(digits);
      Ok(if negative then -magnitude else magnitude)
  }

  function DigitChar(d: nat): (c: char)
    requires d < 10
    ensures IsDigit(c) && (c - '0') as int == d
  {
    ['0', '1', '2', '3', '4', '5', '6', '7', '8', '9'][d]
  }

  /** Decimal digits of `n`, most significant first, no leading zeros. */
  function FormatNat(n: nat): (s: string)
    ensures s != [] && AllDigits(s)
  {
    if n < 10 then [DigitChar(n)]
    else FormatNat(n / 10) + [DigitChar(n % 10)]
  }

  /** strconv.Itoa. */
  function Itoa(n: int): string {
    if n < 0 then "-" + FormatNat(-n) else FormatNat(n)
  }

  lemma {:induction false} DigitsValueFormat(n: nat)
    ensures DigitsValue(FormatNat(n)) == n
  {
    if n >= 10 {
      DigitsValueFormat(n / 10);
      var s := FormatNat(n);
      assert s[..|s| - 1] == FormatNat(n / 10);
    }
  }

  /** Atoi reads back every integer Itoa writes. */
  lemma {:induction false} AtoiItoa(n: int)
    ensures Atoi(Itoa(n)) == Ok(n)
  {
    var m: nat := if n < 0 then -n else n;
    var digits := FormatNat(m);
    DigitsValueFormat(m);
    assert IsDigit(digits[0]);
    if n < 0 {
      var s := "-" + digits;
      assert s[0] == '-' && s[1..] == digits;
      AtoiOfDigits(s, digits, true);
    } else {
      AtoiOfDigits(digits, digits, false);
    }
  }

  /** Atoi of a sign-free digit run, possibly after a minus sign. */
  lemma {:induction false} AtoiOfDigits(s: string, digits: string, negative: bool)
    requires digits != [] && AllDigits(digits)
    requires s == if negative then "-" + digits else digits
    ensures Atoi(s) == Ok(if negative then 0 - DigitsValue(digits) as int else DigitsValue(digits))
  {
    assert IsDigit(digits[0]);
    if negative {
      assert s[1..] == digits;
    }
  }
}
