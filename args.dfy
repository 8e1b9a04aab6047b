/**
  Assembling the render configuration from the matched command-line options
  (src/args.rs). The option parser itself is outside the model: the matched
  options are given as a map from option name to its value string.
 */
module Args {
  import opened Errors
  import opened IntParse
  import opened World
  import Scales = Config

  type Scale = Scales.Scale

  /**
    `Worlds::from_str` as src/args.rs declares it again: the lower-cased input
    must be a scene's name; otherwise a `ParseError` keeps the input as given.
   */
  function WorldsFromStr(s: string): (r: Result<Worlds>)
    ensures r.Ok? <==> ToLower(s) == "threeballs" || ToLower(s) == "random"
    ensures r.Ok? ==> Name(r.value) == ToLower(s)
    ensures r.Err? ==> r.error == ParseError(s, WorldsMessage)
  {
    match ToLower(s)
    case "threeballs" => Ok(ThreeBalls)
    case "random" => Ok(Random)
    case _ => Err(ParseError(s, WorldsMessage))
  }

  /** The two declarations of `Worlds::from_str` give the same result for every input. */
  lemma WorldsFromStrAgrees(s: string)
    ensures WorldsFromStr(s) == World.FromStr(s)
  {
  }

  /**
    `num_to_scale` as src/args.rs declares it again: exactly 0, 1, 2, 4, 8, 16
    and 32 are accepted, each selecting its own scale.
   */
  function NumToScale(num: Usize): (r: Result<Scale>)
    ensures r.Ok? <==> num in {0, 1, 2, 4, 8, 16, 32}
    ensures r.Ok? ==> Scales.ScaleNumber(r.value) == num
    ensures r.Err? ==> r.error == InvalidParam(num as real, Scales.ScaleMessage)
  {
    match num
    case 0 => Ok(Scales.FitScreen)
    case 1 => Ok(Scales.X1)
    case 2 => Ok(Scales.X2)
    case 4 => Ok(Scales.X4)
    case 8 => Ok(Scales.X8)
    case 16 => Ok(Scales.X16)
    case 32 => Ok(Scales.X32)
    case _ => Err(InvalidParam(num as real, Scales.ScaleMessage))
  }

  /** The two scale tables agree on every number. */
  lemma NumToScaleAgrees(num: Usize)
    ensures NumToScale(num) == Scales.NumToScale(num)
  {
  }

  /** An option: its name and the default the parser fills in when it is not given. */
  datatype Desc = Desc(name: string, default: string)

  const MaxDepth := Desc("max_depth", "50")
  const NumSamples := Desc("num_samples", "5")
  const ScaleOption := Desc("scale", "1")
  const ScreenHeight := Desc("screen_height", "240")
  const ScreenWidth := Desc("screen_width", "320")
  const WorldOption := Desc("world", "threeballs")

  /** The matched options: the value string of every option that has one. */
  datatype Args = Args(values: map<string, string>)

  /**
    `Args::parsed_value`: an option without a value is a `MissingParam`
    naming it; otherwise its value string is decoded by the field type's
    `from_str`.
   */
  function ParsedValue<T>(args: Args, desc: Desc, fromStr: string -> Result<T>): (r: Result<T>)
    ensures desc.name !in args.values ==> r == Err(MissingParam(desc.name))
    ensures desc.name in args.values ==> r == fromStr(args.values[desc.name])
  {
    if desc.name in args.values then fromStr(args.values[desc.name]) else Err(MissingParam(desc.name))
  }

  /**
    The decoded `scale` field (`parsed_value(SCALE).and_then(num_to_scale)`):
    a missing or non-numeric value fails as the `usize` decoding does, before
    any scale check; a number is then looked up in the scale table.
   */
  function ParsedScale(args: Args): (r: Result<Scale>)
    ensures ParsedValue(args, ScaleOption, ParseUsize).Err? ==> r == Err(ParsedValue(args, ScaleOption, ParseUsize).error)
    ensures ParsedValue(args, ScaleOption, ParseUsize).Ok? ==> r == NumToScale(ParsedValue(args, ScaleOption, ParseUsize).value)
    ensures r.Ok? ==> ScaleOption.name in args.values && Scales.StringToScale(args.values[ScaleOption.name]) == r
  {
    var num :- ParsedValue(args, ScaleOption, ParseUsize);
    NumToScale(num)
  }

  datatype Config = Config(
    maxDepth: Usize,
    scale: Scale,
    screenWidth: Usize,
    screenHeight: Usize,
    numSamples: Usize,
    world: Worlds)

  function ErrorOf<T>(r: Result<T>): Option<Error> {
    if r.Err? then Some(r.error) else None
  }

  /**
    The `?` chain of `Config::try_from` over the six decoded fields, in the
    order the fields are written: the first failure is the result, otherwise
    the configuration holding the six values. The decoders are pure, so
    decoding every field before the chain gives the same outcome as the
    source's decoding one field at a time.
   */
  function Assemble(maxDepth: Result<Usize>, scale: Result<Scale>, screenWidth: Result<Usize>,
                    screenHeight: Result<Usize>, numSamples: Result<Usize>, world: Result<Worlds>): (r: Result<Config>)
    ensures r.Ok? <==> maxDepth.Ok? && scale.Ok? && screenWidth.Ok? && screenHeight.Ok? && numSamples.Ok? && world.Ok?
    ensures r.Ok? ==> r.value == Config(maxDepth.value, scale.value, screenWidth.value,
                                        screenHeight.value, numSamples.value, world.value)
  {
    var m :- maxDepth;
    var s :- scale;
    var w :- screenWidth;
    var h :- screenHeight;
    var n :- numSamples;
    var v :- world;
    Ok(Config(m, s, w, h, n, v))
  }

  /** The errors of six decoded fields, in order. */
  function Errors6(maxDepth: Result<Usize>, scale: Result<Scale>, screenWidth: Result<Usize>,
                   screenHeight: Result<Usize>, numSamples: Result<Usize>, world: Result<Worlds>): (e: seq<Option<Error>>)
    ensures |e| == 6
  {
    [ErrorOf(maxDepth), ErrorOf(scale), ErrorOf(screenWidth), ErrorOf(screenHeight), ErrorOf(numSamples), ErrorOf(world)]
  }

  /** The chain fails with the error of the first field that failed, and only if one did. */
  lemma AssembleFirstErrorWins(maxDepth: Result<Usize>, scale: Result<Scale>, screenWidth: Result<Usize>,
                               screenHeight: Result<Usize>, numSamples: Result<Usize>, world: Result<Worlds>)
    ensures var r := Assemble(maxDepth, scale, screenWidth, screenHeight, numSamples, world);
            var e := Errors6(maxDepth, scale, screenWidth, screenHeight, numSamples, world);
            (r.Ok? <==> forall k :: 0 <= k < 6 ==> e[k].None?) &&
            (r.Err? ==> exists k :: 0 <= k < 6 && e[k] == Some(r.error) && forall j :: 0 <= j < k ==> e[j].None?)
  {
    var r := Assemble(maxDepth, scale, screenWidth, screenHeight, numSamples, world);
    var e := Errors6(maxDepth, scale, screenWidth, screenHeight, numSamples, world);
    if maxDepth.Err? {
      assert e[0] == Some(r.error);
    } else if scale.Err? {
      assert e[1] == Some(r.error);
    } else if screenWidth.Err? {
      assert e[2] == Some(r.error);
    } else if screenHeight.Err? {
      assert e[3] == Some(r.error);
    } else if numSamples.Err? {
      assert e[4] == Some(r.error);
    } else if world.Err? {
      assert e[5] == Some(r.error);
    }
  }

  /** `Config::try_from`: each field decoded by its own option, then the chain. */
  function TryFrom(args: Args): (r: Result<Config>)
    ensures r.Ok? ==> ParsedValue(args, MaxDepth, ParseUsize) == Ok(r.value.maxDepth)
    ensures r.Ok? ==> ParsedScale(args) == Ok(r.value.scale)
    ensures r.Ok? ==> ParsedValue(args, ScreenWidth, ParseUsize) == Ok(r.value.screenWidth)
    ensures r.Ok? ==> ParsedValue(args, ScreenHeight, ParseUsize) == Ok(r.value.screenHeight)
    ensures r.Ok? ==> ParsedValue(args, NumSamples, ParseUsize) == Ok(r.value.numSamples)
    ensures r.Ok? ==> ParsedValue(args, WorldOption, WorldsFromStr) == Ok(r.value.world)
  {
    Assemble(ParsedValue(args, MaxDepth, ParseUsize),
             ParsedScale(args),
             ParsedValue(args, ScreenWidth, ParseUsize),
             ParsedValue(args, ScreenHeight, ParseUsize),
             ParsedValue(args, NumSamples, ParseUsize),
             ParsedValue(args, WorldOption, WorldsFromStr))
  }

  /** The outcome of decoding each field, in the order the configuration is built. */
  function FieldErrors(args: Args): (e: seq<Option<Error>>)
    ensures |e| == 6
  {
    Errors6(ParsedValue(args, MaxDepth, ParseUsize),
            ParsedScale(args),
            ParsedValue(args, ScreenWidth, ParseUsize),
            ParsedValue(args, ScreenHeight, ParseUsize),
            ParsedValue(args, NumSamples, ParseUsize),
            ParsedValue(args, WorldOption, WorldsFromStr))
  }

  /**
    `Config::try_from` succeeds exactly when all six fields decode; otherwise
    its error is that of the first field that fails, in the order max_depth,
    scale, screen_width, screen_height, num_samples, world.
   */
  lemma TryFromFirstErrorWins(args: Args)
    ensures TryFrom(args).Ok? <==> forall k :: 0 <= k < 6 ==> FieldErrors(args)[k].None?
    ensures TryFrom(args).Err? ==>
      exists k :: 0 <= k < 6 && FieldErrors(args)[k] == Some(TryFrom(args).error) &&
                  forall j :: 0 <= j < k ==> FieldErrors(args)[j].None?
  {
    var m, sc, w := ParsedValue(args, MaxDepth, ParseUsize), ParsedScale(args), ParsedValue(args, ScreenWidth, ParseUsize);
    var h, n, v := ParsedValue(args, ScreenHeight, ParseUsize), ParsedValue(args, NumSamples, ParseUsize),
                   ParsedValue(args, WorldOption, WorldsFromStr);
    assert TryFrom(args) == Assemble(m, sc, w, h, n, v);
    assert FieldErrors(args) == Errors6(m, sc, w, h, n, v);
    AssembleFirstErrorWins(m, sc, w, h, n, v);
  }

  /** The matched options when nothing is given on the command line: every default. */
  function Defaults(): map<string, string> {
    map[MaxDepth.name := MaxDepth.default,
        NumSamples.name := NumSamples.default,
        ScaleOption.name := ScaleOption.default,
        ScreenHeight.name := ScreenHeight.default,
        ScreenWidth.name := ScreenWidth.default,
        WorldOption.name := WorldOption.default]
  }

  /** A `usize` option whose value string is the decimal spelling of n decodes to n. */
  lemma ParsedDecimal(args: Args, desc: Desc, n: Usize)
    requires desc.name in args.values && args.values[desc.name] == ToDecimal(n)
    ensures ParsedValue(args, desc, ParseUsize) == Ok(n)
  {
    ParseUsizeRoundTrip(n);
  }

  lemma DefaultSpellings()
    ensures ToDecimal(50) == "50" && ToDecimal(1) == "1" && ToDecimal(320) == "320"
    ensures ToDecimal(240) == "240" && ToDecimal(5) == "5"
  {
  }

  /** The default value of every field decodes. */
  lemma DefaultFieldsDecode(args: Args)
    requires args == Args(Defaults())
    ensures ParsedValue(args, MaxDepth, ParseUsize) == Ok(50)
    ensures ParsedScale(args) == Ok(Scales.X1)
    ensures ParsedValue(args, ScreenWidth, ParseUsize) == Ok(320)
    ensures ParsedValue(args, ScreenHeight, ParseUsize) == Ok(240)
    ensures ParsedValue(args, NumSamples, ParseUsize) == Ok(5)
    ensures ParsedValue(args, WorldOption, WorldsFromStr) == Ok(ThreeBalls)
  {
    DefaultSpellings();
    ParsedDecimal(args, MaxDepth, 50);
    ParsedDecimal(args, ScaleOption, 1);
    ParsedDecimal(args, ScreenWidth, 320);
    ParsedDecimal(args, ScreenHeight, 240);
    ParsedDecimal(args, NumSamples, 5);
    assert args.values[WorldOption.name] == "threeballs";
    FromStrAnyCase(ThreeBalls, "threeballs");
  }

  /** With no option given, the defaults build depth 50, scale 1, a 320 x 240 screen, 5 samples and the three-ball scene. */
  lemma DefaultsDecode()
    ensures TryFrom(Args(Defaults())) == Ok(Config(50, Scales.X1, 320, 240, 5, ThreeBalls))
  {
    DefaultFieldsDecode(Args(Defaults()));
  }

  /** With no option values at all, the first field's absence is reported. */
  lemma NothingMatched()
    ensures TryFrom(Args(map[])) == Err(MissingParam("max_depth"))
  {
  }

  /** A bad scale is reported even when a later field has no value. */
  lemma ScaleBeforeWorld(args: Args)
    requires args == Args(map[MaxDepth.name := "50", ScaleOption.name := "3"])
    ensures TryFrom(args) == Err(InvalidParam(3.0, Scales.ScaleMessage))
  {
    DefaultSpellings();
    ParsedDecimal(args, MaxDepth, 50);
    assert ToDecimal(3) == "3";
    ParsedDecimal(args, ScaleOption, 3);
  }
}
