/**
  Rust's `usize::from_str` on a 64-bit target, the standard-library routine the
  option decoders of src/config.rs and src/args.rs rely on: an optional
  leading '+', then one or more ASCII decimal digits, whose value must fit in
  a `usize`.
 */
module IntParse {
  import opened Errors
  import opened Strings

  const UsizeMax: nat := 0xFFFF_FFFF_FFFF_FFFF

  type Usize = x: nat | x <= UsizeMax

  predicate IsDecimalDigit(ch: char) {
    '0' <= ch <= '9'
  }

  predicate AllDecimal(s: string) {
    forall i :: 0 <= i < |s| ==> IsDecimalDigit(s[i])
  }

  function DigitValue(ch: char): (v: nat)
    requires IsDecimalDigit(ch)
    ensures v < 10
  {
    ch as nat - '0' as nat
  }

  /** The number a string of decimal digits denotes, most significant digit first. */
  function DecimalValue(s: string): nat
    requires AllDecimal(s)
  {
    if s == [] then 0 else DecimalValue(s[..|s| - 1]) * 10 + DigitValue(s[|s| - 1])
  }

  /**
    `usize::from_str`: succeeds exactly when, after an optional '+', there is
    at least one digit, every character is a decimal digit, and the value fits
    in a `usize`; it then yields that value. Every failure is a `ParseIntError`.
   */
  function ParseUsize(s: string): (r: Result<Usize>)
    ensures r.Ok? <==> |DropPrefix(s, '+')| > 0 && AllDecimal(DropPrefix(s, '+')) && DecimalValue(DropPrefix(s, '+')) <= UsizeMax
    ensures r.Ok? ==> r.value == DecimalValue(DropPrefix(s, '+'))
    ensures r.Err? ==> r.error == ParseIntError
  {
    var digits := DropPrefix(s, '+');
    if |digits| == 0 || exists i :: 0 <= i < |digits| && !IsDecimalDigit(digits[i]) then
      Err(ParseIntError)
    else if DecimalValue(digits) > UsizeMax then
      Err(ParseIntError)
    else
      Ok(DecimalValue(digits))
  }

  function DigitChar(v: nat): (ch: char)
    requires v < 10
    ensures IsDecimalDigit(ch) && DigitValue(ch) == v
  {
    ('0' as nat + v) as char
  }

  /** The shortest decimal spelling of `n`; the reference encoder for `ParseUsize`. */
  function ToDecimal(n: nat): (s: string)
    ensures |s| > 0 && AllDecimal(s) && s[0] != '+'
  {
    if n < 10 then [DigitChar(n)] else ToDecimal(n / 10) + [DigitChar(n % 10)]
  }

  lemma {:induction false} DecimalValueOfToDecimal(n: nat)
    ensures DecimalValue(ToDecimal(n)) == n
  {
    if n >= 10 {
      var s := ToDecimal(n);
      DecimalValueOfToDecimal(n / 10);
      assert s[..|s| - 1] == ToDecimal(n / 10);
    }
  }

  /** Every `usize`, spelled in decimal, with or without '+', parses back to itself. */
  lemma ParseUsizeRoundTrip(n: Usize)
    ensures ParseUsize(ToDecimal(n)) == Ok(n)
    ensures ParseUsize("+" + ToDecimal(n)) == Ok(n)
  {
    DecimalValueOfToDecimal(n);
    assert DropPrefix("+" + ToDecimal(n), '+') == ToDecimal(n);
  }

  /** Signs other than one '+', blanks and the empty string are rejected. */
  lemma ParseUsizeRejects()
    ensures ParseUsize("") == Err(ParseIntError)
    ensures ParseUsize("+") == Err(ParseIntError)
    ensures ParseUsize("-1") == Err(ParseIntError)
    ensures ParseUsize("++1") == Err(ParseIntError)
    ensures ParseUsize(" 1") == Err(ParseIntError)
  {
    assert DropPrefix("+", '+') == [];
    assert !IsDecimalDigit(DropPrefix("-1", '+')[0]);
    assert !IsDecimalDigit(DropPrefix("++1", '+')[0]);
    assert !IsDecimalDigit(DropPrefix(" 1", '+')[0]);
  }
}
