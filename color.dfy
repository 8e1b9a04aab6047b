/**
  Colours (src/color.rs): three components kept in [0, 1], built from reals,
  bytes or a `#RRGGBB` string, blended by a gradient and packed into a
  0x00RRGGBB pixel. Single-precision floats are idealised as reals.
 */
module Colors {
  import opened Errors
  import opened Util
  import opened Strings

  type Byte = x: nat | x < 0x100
  type U32 = x: nat | x < 0x1_0000_0000

  predicate InUnit(x: real) {
    0.0 <= x <= 1.0
  }

  /** The components as a vector, the form in which colours are blended. */
  datatype Vec3 = Vec3(x: real, y: real, z: real)

  function ScaleVec(k: real, v: Vec3): Vec3 {
    Vec3(k * v.x, k * v.y, k * v.z)
  }

  function Add(u: Vec3, v: Vec3): Vec3 {
    Vec3(u.x + v.x, u.y + v.y, u.z + v.z)
  }

  datatype Color = Color(r: real, g: real, b: real) {

    /** The invariant every constructor establishes: each component lies in [0, 1]. */
    predicate Valid() {
      InUnit(r) && InUnit(g) && InUnit(b)
    }

    function AsVec(): Vec3 {
      Vec3(r, g, b)
    }
  }

  /**
    `Color::new`: succeeds exactly when all three components lie in [0, 1];
    the components are checked in the order r, g, b and the first one out of
    range is the one reported.
   */
  function New(r: real, g: real, b: real): (c: Result<Color>)
    ensures c.Ok? <==> InUnit(r) && InUnit(g) && InUnit(b)
    ensures c.Ok? ==> c.value == Color(r, g, b) && c.value.Valid()
    ensures !InUnit(r) ==> c == Err(OutOfRange(r, 0.0, 1.0))
    ensures InUnit(r) && !InUnit(g) ==> c == Err(OutOfRange(g, 0.0, 1.0))
    ensures InUnit(r) && InUnit(g) && !InUnit(b) ==> c == Err(OutOfRange(b, 0.0, 1.0))
  {
    var checkR :- RangeCheck(r, 0.0, 1.0);
    var checkG :- RangeCheck(g, 0.0, 1.0);
    var checkB :- RangeCheck(b, 0.0, 1.0);
    Ok(Color(r, g, b))
  }

  /** `Color::from_rgb`: each byte scaled into [0, 1]; it never fails. */
  function FromRgb(r: Byte, g: Byte, b: Byte): (c: Result<Color>)
    ensures c.Ok? && c.value.Valid()
    ensures c.value == Color(r as real / 255.0, g as real / 255.0, b as real / 255.0)
  {
    New(r as real / 255.0, g as real / 255.0, b as real / 255.0)
  }

  /** `Color::white`: the `unwrap` of `Color::new(1, 1, 1)` cannot panic. */
  function White(): (c: Color)
    ensures c.Valid() && c == Color(1.0, 1.0, 1.0)
  {
    New(1.0, 1.0, 1.0).value
  }

  /** `Color::black`: the `unwrap` of `Color::new(0, 0, 0)` cannot panic. */
  function Black(): (c: Color)
    ensures c.Valid() && c == Color(0.0, 0.0, 0.0)
  {
    New(0.0, 0.0, 0.0).value
  }

  // ---------------------------------------------------------------------------
  // Hexadecimal strings

  const HexDigitsMessage := "Must contain only hex digits, 0-f"
  const SixDigitsMessage := "Must have 6 digits."

  /** `char::is_digit(16)`: ASCII decimal digits and the letters a-f in either case. */
  predicate IsHexDigit(ch: char) {
    '0' <= ch <= '9' || 'a' <= ch <= 'f' || 'A' <= ch <= 'F'
  }

  predicate AllHex(s: string) {
    forall i :: 0 <= i < |s| ==> IsHexDigit(s[i])
  }

  function HexValue(ch: char): (v: nat)
    requires IsHexDigit(ch)
    ensures v < 16
  {
    if '0' <= ch <= '9' then ch as nat - '0' as nat
    else if 'a' <= ch <= 'f' then ch as nat - 'a' as nat + 10
    else ch as nat - 'A' as nat + 10
  }

  /** `u8::from_str_radix` on two hex digits, which cannot fail. */
  function HexByte(hi: char, lo: char): (v: Byte)
    requires IsHexDigit(hi) && IsHexDigit(lo)
  {
    16 * HexValue(hi) + HexValue(lo)
  }

  /**
    `Color::from_hex`: after dropping one leading '#', a non-hex character is
    reported before a wrong length; six hex digits decode pairwise into the
    bytes r, g, b.
   */
  function FromHex(s: string): (c: Result<Color>)
    ensures c.Ok? <==> AllHex(DropPrefix(s, '#')) && |DropPrefix(s, '#')| == 6
    ensures !AllHex(DropPrefix(s, '#')) ==> c == Err(ParseError(s, HexDigitsMessage))
    ensures AllHex(DropPrefix(s, '#')) && |DropPrefix(s, '#')| != 6 ==> c == Err(ParseError(s, SixDigitsMessage))
    ensures c.Ok? ==> c.value.Valid()
  {
    var digits := DropPrefix(s, '#');
    if exists i :: 0 <= i < |digits| && !IsHexDigit(digits[i]) then
      Err(ParseError(s, HexDigitsMessage))
    else if |digits| != 6 then
      Err(ParseError(s, SixDigitsMessage))
    else
      FromRgb(HexByte(digits[0], digits[1]), HexByte(digits[2], digits[3]), HexByte(digits[4], digits[5]))
  }

  /** The hex digit for `n < 16`, upper or lower case: the inverse of `HexValue`. */
  function HexDigitChar(n: nat, upper: bool): (ch: char)
    requires n < 16
    ensures IsHexDigit(ch) && HexValue(ch) == n
  {
    if n < 10 then ('0' as nat + n) as char
    else if upper then ('A' as nat + n - 10) as char
    else ('a' as nat + n - 10) as char
  }

  /** The two hex digits of a byte, high digit first, each in the case its flag asks for. */
  function ByteHex(v: Byte, hiUpper: bool, loUpper: bool): (s: string)
    ensures |s| == 2 && AllHex(s) && HexByte(s[0], s[1]) == v
  {
    [HexDigitChar(v / 16, hiUpper), HexDigitChar(v % 16, loUpper)]
  }

  /**
    A `#RRGGBB` spelling of three bytes, `cases[i]` choosing upper-case
    letters for the i-th digit; the reference encoder for `FromHex`.
   */
  function ToHex(r: Byte, g: Byte, b: Byte, cases: seq<bool>): string
    requires |cases| == 6
  {
    "#" + ByteHex(r, cases[0], cases[1]) + ByteHex(g, cases[2], cases[3]) + ByteHex(b, cases[4], cases[5])
  }

  /**
    Decoding the hex spelling of three bytes, with or without '#' and with any
    mixture of letter case, builds the colour of those bytes.
   */
  lemma FromHexRoundTrip(r: Byte, g: Byte, b: Byte, cases: seq<bool>)
    requires |cases| == 6
    ensures FromHex(ToHex(r, g, b, cases)) == FromRgb(r, g, b)
    ensures FromHex(ToHex(r, g, b, cases)[1..]) == FromRgb(r, g, b)
  {
    var s := ToHex(r, g, b, cases);
    var d := s[1..];
    assert d == ByteHex(r, cases[0], cases[1]) + ByteHex(g, cases[2], cases[3]) + ByteHex(b, cases[4], cases[5]);
    assert AllHex(d);
    assert DropPrefix(s, '#') == d;
    assert HexByte(d[0], d[1]) == r && HexByte(d[2], d[3]) == g && HexByte(d[4], d[5]) == b;
    assert DropPrefix(d, '#') == d;
  }

  predicate IsUpperHexLetter(ch: char) {
    'A' <= ch <= 'F'
  }

  /** Every hex digit is the encoder's digit for its value, in its own case. */
  lemma HexDigitCharOfValue(ch: char)
    requires IsHexDigit(ch)
    ensures HexDigitChar(HexValue(ch), IsUpperHexLetter(ch)) == ch
  {
  }

  /** A byte read from two hex digits is spelled back by those same digits. */
  lemma ByteHexOfDigits(hi: char, lo: char)
    requires IsHexDigit(hi) && IsHexDigit(lo)
    ensures ByteHex(HexByte(hi, lo), IsUpperHexLetter(hi), IsUpperHexLetter(lo)) == [hi, lo]
  {
    var v := HexByte(hi, lo);
    assert v / 16 == HexValue(hi) && v % 16 == HexValue(lo);
    HexDigitCharOfValue(hi);
    HexDigitCharOfValue(lo);
  }

  /**
    The encoder reaches every six-hex-digit string: any such digits are the
    spelling of the three bytes they denote, so `FromHexRoundTrip` fixes the
    colour `FromHex` decodes from every accepted input.
   */
  lemma HexSpellingComplete(d: string)
    requires |d| == 6 && AllHex(d)
    ensures var cases := seq(6, i requires 0 <= i < 6 => IsUpperHexLetter(d[i]));
            ToHex(HexByte(d[0], d[1]), HexByte(d[2], d[3]), HexByte(d[4], d[5]), cases)[1..] == d
  {
    var cases := seq(6, i requires 0 <= i < 6 => IsUpperHexLetter(d[i]));
    ByteHexOfDigits(d[0], d[1]);
    ByteHexOfDigits(d[2], d[3]);
    ByteHexOfDigits(d[4], d[5]);
    assert d == [d[0], d[1]] + [d[2], d[3]] + [d[4], d[5]];
  }

  /** `"#FF0000"` is pure red and packs to 0xFF0000; lower case decodes the same. */
  lemma FromHexRed()
    ensures FromHex("#FF0000") == Ok(Color(1.0, 0.0, 0.0))
    ensures FromHex("ff0000") == Ok(Color(1.0, 0.0, 0.0))
    ensures ToPixel(FromHex("#FF0000").value) == 0xFF0000
  {
    var upper, lower := "FF0000", "ff0000";
    assert DropPrefix("#" + upper, '#') == upper && AllHex(upper);
    assert DropPrefix(lower, '#') == lower && AllHex(lower);
    assert HexByte('F', 'F') == 255 && HexByte('f', 'f') == 255 && HexByte('0', '0') == 0;
    assert FromRgb(255, 0, 0) == Ok(Color(1.0, 0.0, 0.0));
    PixelFromRgb(255, 0, 0);
  }

  /** Digits of mixed case decode like any other: `"#Ff0000"` is pure red. */
  lemma FromHexMixedCase()
    ensures FromHex("#Ff0000") == Ok(Color(1.0, 0.0, 0.0))
  {
    assert DropPrefix("#Ff0000", '#') == "Ff0000" && AllHex("Ff0000");
    assert HexByte('F', 'f') == 255 && HexByte('0', '0') == 0;
    assert FromRgb(255, 0, 0) == Ok(Color(1.0, 0.0, 0.0));
  }

  /** Only one '#' is stripped, so a doubled prefix is a digit error. */
  lemma FromHexDoubleHash()
    ensures FromHex("##FF0000") == Err(ParseError("##FF0000", HexDigitsMessage))
  {
    assert DropPrefix("##FF0000", '#')[0] == '#';
  }

  /** A bad character is reported even when the length is also wrong; empty digits are a length error. */
  lemma FromHexErrorOrder()
    ensures FromHex("#12G") == Err(ParseError("#12G", HexDigitsMessage))
    ensures FromHex("#") == Err(ParseError("#", SixDigitsMessage))
    ensures FromHex("") == Err(ParseError("", SixDigitsMessage))
    ensures FromHex("#1234567") == Err(ParseError("#1234567", SixDigitsMessage))
  {
    assert DropPrefix("#12G", '#')[2] == 'G';
    assert DropPrefix("#", '#') == [];
    assert DropPrefix("#1234567", '#') == "1234567";
    assert AllHex("1234567");
  }

  // ---------------------------------------------------------------------------
  // Blending

  /** `From<Vec3> for Color`: the `unwrap` panics unless every component is in [0, 1]. */
  function FromVec(v: Vec3): (c: Color)
    requires InUnit(v.x) && InUnit(v.y) && InUnit(v.z)
    ensures c.Valid() && c.AsVec() == v
  {
    New(v.x, v.y, v.z).value
  }

  predicate Between(x: real, a: real, b: real) {
    (a <= x <= b) || (b <= x <= a)
  }

  /** The convex mix `(1 - t) * a + t * b` that `gradient` applies to each component. */
  function Mix(t: real, a: real, b: real): real {
    (1.0 - t) * a + t * b
  }

  /** A convex mix lies between its ends, and is each end at t = 0 and t = 1. */
  lemma MixBetween(t: real, a: real, b: real)
    requires InUnit(t)
    ensures Between(Mix(t, a, b), a, b)
    ensures t == 0.0 ==> Mix(t, a, b) == a
    ensures t == 1.0 ==> Mix(t, a, b) == b
  {
    assert Mix(t, a, b) == a + t * (b - a);
    var d := if a <= b then b - a else a - b;
    assert 0.0 <= t * d;
    assert (1.0 - t) * d >= 0.0;
    assert t * d <= d;
    if a <= b {
      assert Mix(t, a, b) == a + t * d;
    } else {
      assert Mix(t, a, b) == a - t * d;
    }
  }

  /**
    `gradient(t, l, r)`: panics unless t is in [0, 1]; otherwise returns `l`
    at t = 0, `r` at t = 1, and in between a colour whose every component lies
    between the two ends' components, so the final conversion cannot panic.
   */
  function Gradient(t: real, left: Color, right: Color): (c: Color)
    requires InUnit(t)
    requires left.Valid() && right.Valid()
    ensures c.Valid()
    ensures t == 0.0 ==> c == left
    ensures t == 1.0 ==> c == right
    ensures c == Color(Mix(t, left.r, right.r), Mix(t, left.g, right.g), Mix(t, left.b, right.b))
    ensures Between(c.r, left.r, right.r) && Between(c.g, left.g, right.g) && Between(c.b, left.b, right.b)
  {
    var v := Add(ScaleVec(1.0 - t, left.AsVec()), ScaleVec(t, right.AsVec()));
    assert v == Vec3(Mix(t, left.r, right.r), Mix(t, left.g, right.g), Mix(t, left.b, right.b));
    MixBetween(t, left.r, right.r);
    MixBetween(t, left.g, right.g);
    MixBetween(t, left.b, right.b);
    FromVec(v)
  }

  // ---------------------------------------------------------------------------
  // Packing into a pixel

  /** `(255.99 * x) as u32` for a component in [0, 1]: a byte. */
  function Channel(x: real): (v: Byte)
    requires InUnit(x)
    ensures v as real <= 255.99 * x < v as real + 1.0
  {
    (255.99 * x).Floor
  }

  /**
    `From<Color> for u32`: red in bits 16-23, green in bits 8-15, blue in bits
    0-7; the shifts cannot overflow, and each byte can be read back.
   */
  function ToPixel(c: Color): (p: U32)
    requires c.Valid()
    ensures p < 0x100_0000
    ensures p / 0x1_0000 == Channel(c.r)
    ensures p / 0x100 % 0x100 == Channel(c.g)
    ensures p % 0x100 == Channel(c.b)
  {
    var hi, mid, lo := Channel(c.r), Channel(c.g), Channel(c.b);
    var p := hi * 0x1_0000 + mid * 0x100 + lo;
    assert p / 0x100 == hi * 0x100 + mid;
    p
  }

  /** Scaling a byte into [0, 1] and back through `Channel` returns the byte. */
  lemma ChannelOfByte(v: Byte)
    ensures Channel(v as real / 255.0) == v
  {
    var x := v as real / 255.0;
    assert 255.99 * x == v as real + 0.99 * x;
  }

  /** A colour built from bytes packs to exactly r*65536 + g*256 + b. */
  lemma PixelFromRgb(r: Byte, g: Byte, b: Byte)
    ensures ToPixel(FromRgb(r, g, b).value) == r * 0x1_0000 + g * 0x100 + b
  {
    ChannelOfByte(r);
    ChannelOfByte(g);
    ChannelOfByte(b);
  }
}
