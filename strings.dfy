/** Text helpers shared by the decoders. */
module Strings {

  /**
    Drops one leading `ch`, if present: the digits of a `#RRGGBB` colour
    after `'#'`, the digits of an unsigned integer after `'+'`.
   */
  function DropPrefix(s: string, ch: char): (d: string)
    ensures |s| > 0 && s[0] == ch ==> d == s[1..]
    ensures !(|s| > 0 && s[0] == ch) ==> d == s
  {
    if |s| > 0 && s[0] == ch then s[1..] else s
  }
}
