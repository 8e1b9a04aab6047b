/** The names of the predefined scenes (src/world.rs). */
module World {
  import opened Errors

  datatype Worlds = ThreeBalls | Random

  const WorldsMessage := "Must be 'threeballs' or 'random'."

  /** The lower-case name that selects each scene. */
  function Name(world: Worlds): string {
    match world
    case ThreeBalls => "threeballs"
    case Random => "random"
  }

  /** ASCII case folding of one character. */
  function LowerChar(ch: char): char {
    if 'A' <= ch <= 'Z' then (ch as int - 'A' as int + 'a' as int) as char else ch
  }

  function UpperChar(ch: char): char {
    if 'a' <= ch <= 'z' then (ch as int - 'a' as int + 'A' as int) as char else ch
  }

  /** `str::to_lowercase`, restricted to ASCII letters. */
  function ToLower(s: string): (r: string)
    ensures |r| == |s| && forall i :: 0 <= i < |s| ==> r[i] == LowerChar(s[i])
  {
    seq(|s|, i requires 0 <= i < |s| => LowerChar(s[i]))
  }

  function ToUpper(s: string): (r: string)
    ensures |r| == |s| && forall i :: 0 <= i < |s| ==> r[i] == UpperChar(s[i])
  {
    seq(|s|, i requires 0 <= i < |s| => UpperChar(s[i]))
  }

  /**
    `Worlds::from_str`: the lower-cased input must be exactly one scene's name,
    and that scene is the result; anything else is a `ParseError` carrying the
    input as given, not lower-cased.
   */
  function FromStr(s: string): (r: Result<Worlds>)
    ensures r.Ok? <==> exists w: Worlds :: ToLower(s) == Name(w)
    ensures r.Ok? ==> Name(r.value) == ToLower(s)
    ensures r.Err? ==> r.error == ParseError(s, WorldsMessage)
  {
    var lower := ToLower(s);
    if lower == "threeballs" then
      assert lower == Name(ThreeBalls);
      Ok(ThreeBalls)
    else if lower == "random" then
      assert lower == Name(Random);
      Ok(Random)
    else
      assert forall w: Worlds :: ToLower(s) != Name(w);
      Err(ParseError(s, WorldsMessage))
  }

  /** Each scene's name parses to that scene whatever the case of its letters. */
  lemma {:induction false} FromStrAnyCase(world: Worlds, s: string)
    requires |s| == |Name(world)|
    requires forall i :: 0 <= i < |s| ==> s[i] == Name(world)[i] || s[i] == UpperChar(Name(world)[i])
    ensures FromStr(s) == Ok(world)
  {
    var name := Name(world);
    assert forall i :: 0 <= i < |name| ==> 'a' <= name[i] <= 'z';
    assert ToLower(s) == name;
  }

  /** In particular the all-capital name is accepted. */
  lemma FromStrUpper(world: Worlds)
    ensures FromStr(ToUpper(Name(world))) == Ok(world)
  {
    FromStrAnyCase(world, ToUpper(Name(world)));
  }

  /** Examples: mixed case is accepted; empty and padded input are rejected with the input kept. */
  lemma FromStrExamples()
    ensures FromStr("threeballs") == Ok(ThreeBalls)
    ensures FromStr("random") == Ok(Random)
    ensures FromStr("RaNdOm") == Ok(Random)
    ensures FromStr("") == Err(ParseError("", WorldsMessage))
    ensures FromStr(" random") == Err(ParseError(" random", WorldsMessage))
  {
    FromStrAnyCase(ThreeBalls, "threeballs");
    FromStrAnyCase(Random, "random");
    FromStrAnyCase(Random, "RaNdOm");
  }
}
