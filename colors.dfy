/** RGB colours as the program uses QColor: three 8-bit channels compared
    component by component, and the "#rrggbb" text of QColor::name(). */
module Colors {
  import opened Ints
  import opened Wrappers

  datatype Color = Color(red: UInt8, green: UInt8, blue: UInt8)

  const Black := Color(0, 0, 0)
  const White := Color(255, 255, 255)

  /** The colour of an LED's id label: each channel mirrored, 255 - c. */
  function Inverse(c: Color): (r: Color)
    ensures r.red + c.red == 255 && r.green + c.green == 255 && r.blue + c.blue == 255
  {
    Color(255 - c.red, 255 - c.green, 255 - c.blue)
  }

  function Min(a: int, b: int): int { if a <= b then a else b }
  function Max(a: int, b: int): int { if a <= b then b else a }

  /** Channel x lies between channels a and b (in either order). */
  predicate ChannelBetween(x: int, a: int, b: int) {
    Min(a, b) <= x <= Max(a, b)
  }

  /** Every channel of c lies between the matching channels of a and b. */
  predicate Between(c: Color, a: Color, b: Color) {
    ChannelBetween(c.red, a.red, b.red) &&
    ChannelBetween(c.green, a.green, b.green) &&
    ChannelBetween(c.blue, a.blue, b.blue)
  }

  // ---------------------------------------------------------------------------
  // QColor::name(): '#' followed by two lower-case hex digits per channel

  predicate IsHexDigit(c: char) {
    '0' <= c <= '9' || 'a' <= c <= 'f'
  }

  function HexDigit(d: int): (c: char)
    requires 0 <= d < 16
    ensures IsHexDigit(c)
  {
    if d < 10 then ('0' as int + d) as char else ('a' as int + d - 10) as char
  }

  function HexValue(c: char): int
    requires IsHexDigit(c)
  {
    if c <= '9' then c as int - '0' as int else c as int - 'a' as int + 10
  }

  function HexByte(b: UInt8): string {
    [HexDigit(b / 16), HexDigit(b % 16)]
  }

  /** The text of QColor::name() for an opaque RGB colour. */
  function Name(c: Color): (s: string)
    ensures |s| == 7 && s[0] == '#' && ',' !in s
  {
    "#" + HexByte(c.red) + HexByte(c.green) + HexByte(c.blue)
  }

  function ParseHexByte(s: string): Option<UInt8>
    requires |s| == 2
  {
    if IsHexDigit(s[0]) && IsHexDigit(s[1]) then Some(16 * HexValue(s[0]) + HexValue(s[1])) else None
  }

  /** Reads back a "#rrggbb" colour name. */
  function ParseName(s: string): Option<Color> {
    if |s| != 7 || s[0] != '#' then None
    else
      var r, g, b := ParseHexByte(s[1..3]), ParseHexByte(s[3..5]), ParseHexByte(s[5..7]);
      if r.Some? && g.Some? && b.Some? then Some(Color(r.value, g.value, b.value)) else None
  }

  lemma HexByteRoundTrip(b: UInt8)
    ensures ParseHexByte(HexByte(b)) == Some(b)
  {
  }

  /** Distinct colours have distinct names: the name of every colour reads back as that colour. */
  lemma ParseNameOfName(c: Color)
    ensures ParseName(Name(c)) == Some(c)
  {
    var s := Name(c);
    assert s[1..3] == HexByte(c.red);
    assert s[3..5] == HexByte(c.green);
    assert s[5..7] == HexByte(c.blue);
    HexByteRoundTrip(c.red);
    HexByteRoundTrip(c.green);
    HexByteRoundTrip(c.blue);
  }
}
