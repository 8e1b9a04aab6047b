/** The window-scale option of the command line (src/config.rs). */
module Config {
  import opened Errors
  import opened IntParse
  import opened Strings

  /** The scale factors of the windowing library. */
  datatype Scale = FitScreen | X1 | X2 | X4 | X8 | X16 | X32

  /** The number that selects each scale on the command line. */
  function ScaleNumber(scale: Scale): Usize {
    match scale
    case FitScreen => 0
    case X1 => 1
    case X2 => 2
    case X4 => 4
    case X8 => 8
    case X16 => 16
    case X32 => 32
  }

  const ScaleMessage := "Only 0, 1, 2, 4, 8, 16, & 32 are permitted for scale."

  /**
    `num_to_scale`: 0 selects fit-to-screen and 1, 2, 4, 8, 16, 32 the
    matching factor (the scale found is the one that number selects); every
    other number is an `InvalidParam` carrying that number.
   */
  function NumToScale(num: Usize): (r: Result<Scale>)
    ensures r.Ok? <==> num in {0, 1, 2, 4, 8, 16, 32}
    ensures r.Ok? ==> ScaleNumber(r.value) == num
    ensures r.Err? ==> r.error == InvalidParam(num as real, ScaleMessage)
  {
    match num
    case 0 => Ok(FitScreen)
    case 1 => Ok(X1)
    case 2 => Ok(X2)
    case 4 => Ok(X4)
    case 8 => Ok(X8)
    case 16 => Ok(X16)
    case 32 => Ok(X32)
    case _ => Err(InvalidParam(num as real, ScaleMessage))
  }

  /** Every scale is reached from its own number, so the table is a bijection onto `Scale`. */
  lemma NumToScaleOnto(scale: Scale)
    ensures NumToScale(ScaleNumber(scale)) == Ok(scale)
  {
  }

  /**
    `string_to_scale`: a string that is not a decimal `usize` fails with the
    integer-parse error before any scale check; otherwise the number decides.
   */
  function StringToScale(s: string): (r: Result<Scale>)
    ensures ParseUsize(s).Err? ==> r == Err(ParseIntError)
    ensures ParseUsize(s).Ok? ==> r == NumToScale(ParseUsize(s).value)
  {
    var num :- ParseUsize(s);
    NumToScale(num)
  }

  /** The decimal spelling of each scale's number decodes to that scale. */
  lemma StringToScaleRoundTrip(scale: Scale)
    ensures StringToScale(ToDecimal(ScaleNumber(scale))) == Ok(scale)
  {
    ParseUsizeRoundTrip(ScaleNumber(scale));
  }

  /** The default "1" is `X1`; "3" parses but is not a scale; "x" does not parse. */
  lemma StringToScaleExamples()
    ensures StringToScale("1") == Ok(X1)
    ensures StringToScale("3") == Err(InvalidParam(3.0, ScaleMessage))
    ensures StringToScale("x") == Err(ParseIntError)
  {
    ParseUsizeRoundTrip(1);
    assert ToDecimal(1) == "1";
    ParseUsizeRoundTrip(3);
    assert ToDecimal(3) == "3";
    assert !IsDecimalDigit(DropPrefix("x", '+')[0]);
  }
}
