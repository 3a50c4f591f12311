/** Theme token helpers (crates/vibepanel-core/src/theme.rs): hex colour
    parsing and printing, even rounding, the accent source, the explicit
    dark-mode flag and the border-radius clamps. Luminance, blending and the
    floating-point size scales are not modelled; the bar padding they yield is
    an input. */
module Theme {
  import opened Common

  // ------------------------------------------------------------ rounding

  /** `round_to_even`: the value itself when even, else the next integer. */
  function RoundToEven(v: nat): (r: nat)
    ensures r % 2 == 0
    ensures v <= r <= v + 1
  {
    if v % 2 == 0 then v else v + 1
  }

  /** The even number in [v, v + 1] is unique, so `RoundToEven` is the only
      function with its contract. */
  lemma RoundToEvenUnique(v: nat, r: nat)
    requires r % 2 == 0 && v <= r <= v + 1
    ensures r == RoundToEven(v)
  {
  }

  // ------------------------------------------------------- UTF-8 lengths

  /** Splits `s` after its first `n` bytes; None when byte `n` falls inside a
      character (where Rust's `&s[..n]` panics) or past the end. */
  function SplitAtByte(s: string, n: nat): (r: Option<(string, string)>)
    ensures r.Some? ==> r.value.0 + r.value.1 == s && ByteLen(r.value.0) == n
    decreases n
  {
    if n == 0 then Some(([], s))
    else if s == [] || Utf8Width(s[0]) > n then None
    else match SplitAtByte(s[1..], n - Utf8Width(s[0]))
      case None => None
      case Some((a, b)) =>
        assert ByteLen([s[0]] + a) == Utf8Width(s[0]) + ByteLen(a) by { assert ([s[0]] + a)[1..] == a; }
        Some(([s[0]] + a, b))
  }

  lemma {:induction false} SplitAtByteAscii(s: string, n: nat)
    requires AllAscii(s) && n <= |s|
    ensures SplitAtByte(s, n) == Some((s[..n], s[n..]))
    decreases n
  {
    if n > 0 {
      assert AllAscii(s[1..]) by {
        forall i | 0 <= i < |s[1..]| ensures IsAscii(s[1..][i]) { assert s[1..][i] == s[i + 1]; }
      }
      SplitAtByteAscii(s[1..], n - 1);
      assert [s[0]] + s[1..][..n - 1] == s[..n];
      assert s[1..][n - 1..] == s[n..];
    }
  }

  /** `&s[lo..hi]` by byte offsets; None where Rust panics. */
  function SliceBytes(s: string, lo: nat, hi: nat): Option<string>
    requires lo <= hi
  {
    match SplitAtByte(s, lo)
    case None => None
    case Some((_, rest)) =>
      match SplitAtByte(rest, hi - lo)
      case None => None
      case Some((mid, _)) => Some(mid)
  }

  lemma SliceBytesAscii(s: string, lo: nat, hi: nat)
    requires AllAscii(s) && lo <= hi <= |s|
    ensures SliceBytes(s, lo, hi) == Some(s[lo..hi])
  {
    SplitAtByteAscii(s, lo);
    var rest := s[lo..];
    assert AllAscii(rest) by {
      forall i | 0 <= i < |rest| ensures IsAscii(rest[i]) { assert rest[i] == s[lo + i]; }
    }
    SplitAtByteAscii(rest, hi - lo);
    assert rest[..hi - lo] == s[lo..hi];
  }

  // ------------------------------------------------------ hex colour parse

  /** Value of a string of ASCII hex digits. */
  function HexDigitsValue(s: string): nat
    requires forall i :: 0 <= i < |s| ==> IsAsciiHexDigit(s[i])
  {
    if s == [] then 0
    else
      var last := s[|s| - 1];
      assert IsAsciiHexDigit(last);
      HexDigitsValue(s[..|s| - 1]) * 16 + HexValue(last)
  }

  /** `u8::from_str_radix(s, 16)`: an optional '+', then at least one hex
      digit, and a value below 256. A '-' is not a sign for unsigned types. */
  function ParseU8Hex(s: string): (r: Option<nat>)
    ensures r.Some? ==> r.value < 256
  {
    var digits := if s != [] && s[0] == '+' then s[1..] else s;
    if digits == [] then None
    else if exists i :: 0 <= i < |digits| && !IsAsciiHexDigit(digits[i]) then None
    else if HexDigitsValue(digits) < 256 then Some(HexDigitsValue(digits))
    else None
  }

  /** `flat_map(|c| [c, c])`: every character doubled in place. */
  function Double(s: string): (r: string)
    ensures |r| == 2 * |s|
    ensures forall i :: 0 <= i < |s| ==> r[2 * i] == s[i] && r[2 * i + 1] == s[i]
  {
    if s == [] then [] else [s[0], s[0]] + Double(s[1..])
  }

  datatype Rgb = Rgb(r: nat, g: nat, b: nat)

  /** Text `parse_hex_color` works on: trimmed, every leading '#' dropped. */
  function HexBody(color: string): (body: string)
    ensures body == [] || body[0] != '#'
  {
    TrimStartBy(Trim(color), IsHash)
  }

  /** A string without surrounding whitespace and with at most one leading
      '#' has the text after that '#' as its body. */
  lemma HexBodyOf(color: string)
    requires color != [] && !IsWhitespace(color[0]) && !IsWhitespace(color[|color| - 1])
    requires |color| > 1 && color[0] == '#' && color[1] != '#'
    ensures HexBody(color) == color[1..]
  {
    TrimNoop(color);
  }

  lemma HexBodyOfBare(color: string)
    requires color != [] && !IsWhitespace(color[0]) && !IsWhitespace(color[|color| - 1])
    requires color[0] != '#'
    ensures HexBody(color) == color
  {
    TrimNoop(color);
  }

  lemma TrimNoop(s: string)
    requires s != [] && !IsWhitespace(s[0]) && !IsWhitespace(s[|s| - 1])
    ensures Trim(s) == s
  {
    assert TrimStartBy(s, IsWhitespace) == s;
  }

  /** Either a value or a panic. */
  datatype Outcome<T> = Returns(value: T) | Panics

  /** The digits `parse_hex_color` slices: a three-digit body doubled, any
      other body as it is. */
  function Expand(s: string, len: nat): string {
    if len == 3 then Double(s) else s
  }

  /** `parse_hex_color` as written: lengths are UTF-8 byte counts and the
      channel pairs are byte slices, evaluated red, green, blue, each
      returning early on a parse failure. */
  function ParseHexColorAsWritten(color: string): Outcome<Option<Rgb>> {
    ParseBodyAsWritten(HexBody(color))
  }

  function ParseBodyAsWritten(s: string): Outcome<Option<Rgb>> {
    var t := Expand(s, ByteLen(s));
    if ByteLen(t) != 6 then Returns(None) else ChannelsAsWritten(t)
  }

  /** The three byte-sliced channels, red first. */
  function ChannelsAsWritten(t: string): Outcome<Option<Rgb>> {
    match SliceBytes(t, 0, 2)
    case None => Panics
    case Some(rs) =>
      match ParseU8Hex(rs)
      case None => Returns(None)
      case Some(r) =>
        match SliceBytes(t, 2, 4)
        case None => Panics
        case Some(gs) =>
          match ParseU8Hex(gs)
          case None => Returns(None)
          case Some(g) =>
            match SliceBytes(t, 4, 6)
            case None => Panics
            case Some(bs) =>
              match ParseU8Hex(bs)
              case None => Returns(None)
              case Some(b) => Returns(Some(Rgb(r, g, b)))
  }

  /** A colour string made of one three-byte character panics instead of
      being rejected: "€" is doubled to "€€", and byte 2 is inside a character. */
  lemma ParseHexColorPanics()
    ensures ParseHexColorAsWritten("€").Panics?
  {
    HexBodyOfBare("€");
    EuroBodyPanics();
  }

  lemma EuroBodyPanics()
    ensures ParseBodyAsWritten("€").Panics?
  {
    assert ByteLen("€") == 3 by { assert "€"[1..] == []; }
    EuroPairPanics();
  }

  lemma EuroPairPanics()
    ensures ByteLen(Double("€")) == 6 && ChannelsAsWritten(Double("€")).Panics?
  {
    var t := Double("€");
    assert t == ['€', '€'] by { assert "€"[1..] == []; }
    assert ByteLen(t) == 6 by { assert t[1..] == ['€']; assert t[1..][1..] == []; }
    assert SplitAtByte(t, 2).None?;
  }

  /** `parse_hex_color` as evidently intended: the same rules read over
      characters, with any non-ASCII text rejected instead of sliced. */
  function ParseHexColor(color: string): (rgb: Option<Rgb>)
    ensures rgb.Some? ==> rgb.value.r < 256 && rgb.value.g < 256 && rgb.value.b < 256
    ensures rgb.Some? ==> AllAscii(HexBody(color)) && (|HexBody(color)| == 3 || |HexBody(color)| == 6)
  {
    ParseBody(HexBody(color))
  }

  function ParseBody(s: string): (rgb: Option<Rgb>)
    ensures rgb.Some? ==> rgb.value.r < 256 && rgb.value.g < 256 && rgb.value.b < 256
    ensures rgb.Some? ==> AllAscii(s) && (|s| == 3 || |s| == 6)
  {
    if !AllAscii(s) then None
    else
      var t := Expand(s, |s|);
      if |t| != 6 then None else ParseChannels(t)
  }

  /** The three two-character channels of a six-character string. */
  function ParseChannels(t: string): (rgb: Option<Rgb>)
    requires |t| == 6
    ensures rgb.Some? ==> rgb.value.r < 256 && rgb.value.g < 256 && rgb.value.b < 256
  {
    match (ParseU8Hex(t[0..2]), ParseU8Hex(t[2..4]), ParseU8Hex(t[4..6]))
    case (Some(r), Some(g), Some(b)) => Some(Rgb(r, g, b))
    case _ => None
  }

  /** Six hex digits are three channels of two digits each. */
  lemma ParseChannelsHex(t: string)
    requires |t| == 6 && forall i :: 0 <= i < 6 ==> IsAsciiHexDigit(t[i])
    ensures ParseChannels(t) == Some(Rgb(HexValue(t[0]) * 16 + HexValue(t[1]),
                                         HexValue(t[2]) * 16 + HexValue(t[3]),
                                         HexValue(t[4]) * 16 + HexValue(t[5])))
  {
    ParsePair(t[0..2]);
    ParsePair(t[2..4]);
    ParsePair(t[4..6]);
  }

  /** On ASCII input the code as written never panics and agrees with the
      corrected parser. */
  lemma AsWrittenAgreesOnAscii(color: string)
    requires AllAscii(HexBody(color))
    ensures ParseHexColorAsWritten(color) == Returns(ParseHexColor(color))
  {
    BodyAgreesOnAscii(HexBody(color));
  }

  lemma BodyAgreesOnAscii(s: string)
    requires AllAscii(s)
    ensures ParseBodyAsWritten(s) == Returns(ParseBody(s))
  {
    AsciiByteLen(s);
    var t := Expand(s, |s|);
    if |s| == 3 { DoubleAscii(s); }
    AsciiByteLen(t);
    if |t| == 6 {
      ChannelsAgreeOnAscii(t);
    }
  }

  lemma ChannelsAgreeOnAscii(t: string)
    requires AllAscii(t) && |t| == 6
    ensures ChannelsAsWritten(t) == Returns(ParseChannels(t))
  {
    SliceBytesAscii(t, 0, 2);
    SliceBytesAscii(t, 2, 4);
    SliceBytesAscii(t, 4, 6);
  }

  lemma {:induction false} DoubleAscii(s: string)
    requires AllAscii(s)
    ensures AllAscii(Double(s))
  {
    if s != [] {
      assert AllAscii(s[1..]) by {
        forall i | 0 <= i < |s[1..]| ensures IsAscii(s[1..][i]) { assert s[1..][i] == s[i + 1]; }
      }
      DoubleAscii(s[1..]);
      var d := Double(s);
      assert d == [s[0], s[0]] + Double(s[1..]);
      forall i | 0 <= i < |d| ensures IsAscii(d[i]) {
        if i >= 2 { assert d[i] == Double(s[1..])[i - 2]; }
      }
    }
  }

  /** Two lower-case hex digits of a byte. */
  function Hex2(v: nat): (s: string)
    requires v < 256
    ensures |s| == 2 && IsAsciiHexDigit(s[0]) && IsAsciiHexDigit(s[1])
    ensures !IsAsciiUpper(s[0]) && !IsAsciiUpper(s[1])
    ensures HexValue(s[0]) * 16 + HexValue(s[1]) == v
  {
    [HexDigit(v / 16), HexDigit(v % 16)]
  }

  predicate IsByteRgb(c: Rgb) { c.r < 256 && c.g < 256 && c.b < 256 }

  /** `rgb_to_hex`: "#rrggbb" in lower case. */
  function RgbToHex(c: Rgb): (s: string)
    requires IsByteRgb(c)
    ensures |s| == 7 && s[0] == '#'
    ensures forall i :: 1 <= i < 7 ==> IsAsciiHexDigit(s[i]) && !IsAsciiUpper(s[i])
  {
    "#" + Hex2(c.r) + Hex2(c.g) + Hex2(c.b)
  }

  lemma ParsePair(p: string)
    requires |p| == 2 && IsAsciiHexDigit(p[0]) && IsAsciiHexDigit(p[1])
    ensures ParseU8Hex(p) == Some(HexValue(p[0]) * 16 + HexValue(p[1]))
  {
    assert p[0] != '+';
    assert p[..1] == [p[0]];
    assert HexDigitsValue(p[..1]) == HexValue(p[0]) by {
      assert p[..1][..0] == [];
    }
  }

  lemma HexDigitsAscii(s: string)
    requires forall i :: 0 <= i < |s| ==> IsAsciiHexDigit(s[i])
    ensures AllAscii(s)
  {
  }

  /** Printing a colour and parsing it back gives the colour. */
  lemma HexRoundTrip(c: Rgb)
    requires IsByteRgb(c)
    ensures ParseHexColor(RgbToHex(c)) == Some(c)
  {
    var hex := RgbToHex(c);
    HexBodyOf(hex);
    BodyOfSix(hex[1..]);
    HexBodyChannels(c);
  }

  lemma HexBodyChannels(c: Rgb)
    requires IsByteRgb(c)
    ensures HexValue(RgbToHex(c)[1]) * 16 + HexValue(RgbToHex(c)[2]) == c.r
    ensures HexValue(RgbToHex(c)[3]) * 16 + HexValue(RgbToHex(c)[4]) == c.g
    ensures HexValue(RgbToHex(c)[5]) * 16 + HexValue(RgbToHex(c)[6]) == c.b
  {
    var r, g, b := Hex2(c.r), Hex2(c.g), Hex2(c.b);
    assert RgbToHex(c) == ['#', r[0], r[1], g[0], g[1], b[0], b[1]];
  }

  /** Six hex digits parse as three two-digit channels. */
  lemma BodyOfSix(t: string)
    requires |t| == 6 && forall i :: 0 <= i < 6 ==> IsAsciiHexDigit(t[i])
    ensures ParseBody(t) == Some(Rgb(HexValue(t[0]) * 16 + HexValue(t[1]),
                                     HexValue(t[2]) * 16 + HexValue(t[3]),
                                     HexValue(t[4]) * 16 + HexValue(t[5])))
  {
    HexDigitsAscii(t);
    ParseChannelsHex(t);
  }

  lemma DoubleThree(x: char, y: char, z: char)
    ensures Double([x, y, z]) == [x, x, y, y, z, z]
  {
    assert [x, y, z][1..] == [y, z] && [y, z][1..] == [z] && [z][1..] == [];
    assert Double([z]) == [z, z];
    assert Double([y, z]) == [y, y] + Double([z]);
  }

  /** Shorthand: "#abc" means "#aabbcc". */
  lemma ShorthandExpands(x: char, y: char, z: char)
    requires IsAsciiHexDigit(x) && IsAsciiHexDigit(y) && IsAsciiHexDigit(z)
    ensures ParseHexColor("#" + [x, y, z]) == Some(Rgb(17 * HexValue(x), 17 * HexValue(y), 17 * HexValue(z)))
  {
    var color := "#" + [x, y, z];
    HexBodyOf(color);
    assert color[1..] == [x, y, z];
    ShortBody(x, y, z);
  }

  lemma ShortBody(x: char, y: char, z: char)
    requires IsAsciiHexDigit(x) && IsAsciiHexDigit(y) && IsAsciiHexDigit(z)
    ensures ParseBody([x, y, z]) == Some(Rgb(17 * HexValue(x), 17 * HexValue(y), 17 * HexValue(z)))
  {
    HexDigitsAscii([x, y, z]);
    DoubleThree(x, y, z);
    ParseChannelsHex([x, x, y, y, z, z]);
  }

  /** Neither two nor four digits make a colour. */
  lemma WrongLengthRejected(color: string)
    requires |HexBody(color)| != 3 && |HexBody(color)| != 6
    ensures ParseHexColor(color).None?
  {
  }

  /** `from_str_radix` takes a leading '+' as a sign, so "+x" is the
      digit x. */
  lemma SignedDigit(p: string)
    requires |p| == 2 && p[0] == '+' && IsAsciiHexDigit(p[1])
    ensures ParseU8Hex(p) == Some(HexValue(p[1]))
  {
    assert p[1..] == [p[1]];
    assert HexDigitsValue([p[1]]) == HexValue(p[1]) by {
      assert [p[1]][..0] == [];
    }
  }

  /** A colour written with a sign before each single digit is accepted:
      "+f+f+f" is grey 15. */
  lemma PlusSignAccepted(x: char, y: char, z: char)
    requires IsAsciiHexDigit(x) && IsAsciiHexDigit(y) && IsAsciiHexDigit(z)
    ensures ParseHexColor(['+', x, '+', y, '+', z]) == Some(Rgb(HexValue(x), HexValue(y), HexValue(z)))
  {
    var color := ['+', x, '+', y, '+', z];
    HexBodyOfBare(color);
    SignedBody(color);
  }

  lemma SignedBody(t: string)
    requires |t| == 6 && t[0] == '+' && t[2] == '+' && t[4] == '+'
    requires IsAsciiHexDigit(t[1]) && IsAsciiHexDigit(t[3]) && IsAsciiHexDigit(t[5])
    ensures ParseBody(t) == Some(Rgb(HexValue(t[1]), HexValue(t[3]), HexValue(t[5])))
  {
    assert AllAscii(t);
    SignedDigit(t[0..2]);
    SignedDigit(t[2..4]);
    SignedDigit(t[4..6]);
  }

  // ------------------------------------------------------------ palette

  /** Where the accent colour comes from. */
  datatype AccentSource = Gtk | NoAccent | Custom(color: string)

  /** The accent string: "gtk", "none", or any other string taken as a colour. */
  function ParseAccentSource(accent: string): (a: AccentSource)
    ensures a == Gtk <==> accent == "gtk"
    ensures a == NoAccent <==> accent == "none"
    ensures a.Custom? <==> accent != "gtk" && accent != "none"
    ensures a.Custom? ==> a.color == accent
  {
    if accent == "gtk" then Gtk else if accent == "none" then NoAccent else Custom(accent)
  }

  /** The dark flag: fixed by the explicit modes "dark", "gtk" and "light";
      any other mode ("auto") asks whether the widget background is dark,
      a luminance test given here as `backgroundIsDark`. */
  function IsDarkMode(mode: string, backgroundIsDark: bool): (dark: bool)
    ensures mode == "dark" || mode == "gtk" ==> dark
    ensures mode == "light" ==> !dark
    ensures mode !in {"dark", "light", "gtk"} ==> dark == backgroundIsDark
  {
    match mode
    case "dark" => true
    case "light" => false
    case "gtk" => true
    case _ => backgroundIsDark
  }

  const DEFAULT_BAR_BG_DARK: string := "#1a1a1f"
  const DEFAULT_BAR_BG_LIGHT: string := "#e8e8e8"
  const DEFAULT_WIDGET_BG_DARK: string := "#111217"
  const DEFAULT_WIDGET_BG_LIGHT: string := "#ffffff"

  /** Bar and widget backgrounds before user overrides: GTK variables in
      "gtk" mode, the light pair in "light" mode, the dark pair otherwise. */
  function DefaultBackgrounds(mode: string): (bg: (string, string))
    ensures mode == "gtk" ==> bg == ("@window_bg_color", "@view_bg_color")
    ensures mode == "light" ==> bg == (DEFAULT_BAR_BG_LIGHT, DEFAULT_WIDGET_BG_LIGHT)
    ensures mode != "gtk" && mode != "light" ==> bg == (DEFAULT_BAR_BG_DARK, DEFAULT_WIDGET_BG_DARK)
  {
    if mode == "gtk" then ("@window_bg_color", "@view_bg_color")
    else if mode == "light" then (DEFAULT_BAR_BG_LIGHT, DEFAULT_WIDGET_BG_LIGHT)
    else (DEFAULT_BAR_BG_DARK, DEFAULT_WIDGET_BG_DARK)
  }

  /** The primary accent colour a source yields. */
  function AccentPrimary(source: AccentSource, dark: bool): (c: string)
    ensures source.Custom? ==> c == source.color
    ensures source == Gtk ==> c == "@accent_color"
    ensures source == NoAccent ==> c == (if dark then "rgba(255, 255, 255, 0.25)" else "rgba(0, 0, 0, 0.20)")
  {
    match source
    case Custom(color) => color
    case NoAccent => if dark then "rgba(255, 255, 255, 0.25)" else "rgba(0, 0, 0, 0.20)"
    case Gtk => "@accent_color"
  }

  /** An empty font family means the system font. */
  function FontFamily(configured: string): (f: string)
    ensures configured == [] ==> f == "inherit"
    ensures configured != [] ==> f == configured
  {
    if configured == [] then "inherit" else configured
  }

  // --------------------------------------------------------------- radii

  datatype Radii = Radii(bar: nat, widget: nat, pill: nat, surface: nat)

  /** Radii from `compute_sizes`: each a percentage of the height it rounds,
      capped at half that height; the pill radius is half the widget radius
      but at least 1. `barPadding` is the rounded padding the float scale
      yields. */
  function ComputeRadii(barSize: nat, barPadding: nat, barPercent: nat, widgetPercent: nat): (r: Radii)
    ensures r.bar <= (barSize + 2 * barPadding) / 2
    ensures r.widget <= barSize / 2
    ensures r.pill >= 1 && r.pill == Max(r.widget / 2, 1)
    ensures r.surface == r.widget
    ensures barPercent <= 50 ==> r.bar == (barSize + 2 * barPadding) * barPercent / 100
    ensures widgetPercent <= 50 ==> r.widget == barSize * widgetPercent / 100
  {
    var rendered := barSize + 2 * barPadding;
    var bar := Min(rendered * barPercent / 100, rendered / 2);
    var widget := Min(barSize * widgetPercent / 100, barSize / 2);
    PercentAtMostHalf(rendered, barPercent);
    PercentAtMostHalf(barSize, widgetPercent);
    Radii(bar, widget, Max(widget / 2, 1), widget)
  }

  /** A percentage of at most 50 never exceeds half the height. */
  lemma PercentAtMostHalf(h: nat, pct: nat)
    ensures pct <= 50 ==> h * pct / 100 <= h / 2
  {
    if pct <= 50 {
      assert h * pct <= h * 50;
      assert h * pct / 100 <= h * 50 / 100;
    }
  }

  /** Gap between a widget's children: half the internal spacing, at least
      4, plus 5. */
  function WidgetContentGap(internalSpacing: nat): (g: nat)
    ensures g >= 9
    ensures g == Max(internalSpacing / 2, 4) + 5
  {
    Max(internalSpacing / 2, 4) + 5
  }
}
