/** The colour model of the palette: integer encodings of a colour, the hex
    component table that hex formats are rendered from, parsing of hex colour
    overrides, opacity arithmetic, and the construction of the palette from the
    catppuccin flavours with per-flavour and global overrides.

    Rendering a hex format string (a Tera template) is outside the model: it is a
    `HexRenderer` parameter applied to the component table. The HSL conversion of
    the css_colors crate is the `HslOf` parameter. */
module Colors {
  import opened Wrappers
  import opened IndexMaps
  import Text

  /** Rust's `u8`. */
  type Byte = x: int | 0 <= x < 256

  const U24: nat := 0x100_0000
  const U32: nat := 0x1_0000_0000
  const I32Half: nat := 0x8000_0000

  datatype RGB = RGB(r: Byte, g: Byte, b: Byte, channels: seq<Byte>)

  datatype HSL = HSL(h: int, s: real, l: real)

  datatype Color = Color(
    name: string, identifier: string, order: nat, accent: bool,
    hex: string, int24: nat, uint32: nat, sint32: int,
    rgb: RGB, hsl: HSL, opacity: Byte)

  datatype AnsiColor = AnsiColor(
    name: string, identifier: string, code: Byte,
    hex: string, int24: nat, uint32: nat, sint32: int,
    rgb: RGB, hsl: HSL)

  datatype AnsiColorPair = AnsiColorPair(
    name: string, identifier: string, order: Byte, normal: AnsiColor, bright: AnsiColor)

  datatype Flavor = Flavor(
    name: string, identifier: string, emoji: char, order: nat, dark: bool, light: bool,
    colors: IndexMap<Color>, ansiColors: IndexMap<AnsiColor>, ansiColorPairs: IndexMap<AnsiColorPair>)

  datatype Palette = Palette(flavors: IndexMap<Flavor>)

  /** The kinds of `std::num::ParseIntError` that parsing a `u32` can produce. */
  datatype IntErrorKind = Empty | InvalidDigit | PosOverflow

  datatype Error = HexFormat(message: string) | ParseHex(kind: IntErrorKind)

  /** The catppuccin palette the palette is built from, as plain data. */
  datatype FlavorName = Latte | Frappe | Macchiato | Mocha
  datatype BaseRgb = BaseRgb(r: Byte, g: Byte, b: Byte)
  /** catppuccin's HSL: a hue in degrees and saturation and lightness in
      [0, 1], all `f64`. */
  datatype BaseHsl = BaseHsl(h: real, s: real, l: real)
  datatype BaseColor = BaseColor(
    name: string, identifier: string, order: nat, accent: bool, rgb: BaseRgb, hsl: BaseHsl)
  datatype BaseAnsiColor = BaseAnsiColor(
    name: string, identifier: string, code: Byte, rgb: BaseRgb, hsl: BaseHsl)
  datatype BaseAnsiPair = BaseAnsiPair(
    name: string, identifier: string, order: Byte, normal: BaseAnsiColor, bright: BaseAnsiColor)
  datatype BaseFlavor = BaseFlavor(
    name: FlavorName, title: string, identifier: string, emoji: char, order: nat, dark: bool,
    colors: seq<BaseColor>, ansiColors: seq<BaseAnsiColor>, ansiPairs: seq<BaseAnsiPair>)

  /** Hex overrides keyed by colour identifier: one table for all flavours and one per flavour. */
  datatype ColorOverrides = ColorOverrides(
    all: map<string, string>, latte: map<string, string>, frappe: map<string, string>,
    macchiato: map<string, string>, mocha: map<string, string>)

  /** The hex format template applied to a component table; an `Err` is a Tera error. */
  type HexRenderer = map<string, string> -> Result<string, string>

  /** css_colors' RGB to HSL conversion. */
  type HslOf = (Byte, Byte, Byte) -> HSL

  // ---------------------------------------------------------------------------
  // RGB

  predicate RgbValid(c: RGB) {
    c.channels == [c.r, c.g, c.b]
  }

  /** `RGB::new`. */
  function NewRgb(r: Byte, g: Byte, b: Byte): (c: RGB)
    ensures RgbValid(c) && c.r == r && c.g == g && c.b == b
  {
    RGB(r, g, b, [r, g, b])
  }

  // ---------------------------------------------------------------------------
  // Integer encodings

  datatype Ints = Ints(int24: nat, uint32: nat, sint32: int)

  /** `opacity.unwrap_or(0xFF)`. */
  function AlphaOf(opacity: Option<Byte>): Byte {
    if opacity.Some? then opacity.value else 0xFF
  }

  /** `u as i32` for a `u32`: two's-complement reinterpretation. */
  function AsI32(u: nat): int
    requires u < U32
  {
    if u >= I32Half then u - U32 else u
  }

  /** `rgb_to_ints`: the colour as `0xRRGGBB`, as unsigned `0xAARRGGBB` and as
      the same 32 bits read as a signed integer. */
  function RgbToInts(rgb: RGB, opacity: Option<Byte>): (n: Ints)
    ensures n.int24 == rgb.r * 0x1_0000 + rgb.g * 0x100 + rgb.b && n.int24 < U24
    ensures n.uint32 == AlphaOf(opacity) * U24 + n.int24 && n.uint32 < U32
    ensures -(I32Half as int) <= n.sint32 < I32Half && (n.uint32 - n.sint32) % U32 == 0
    ensures n.sint32 < 0 <==> AlphaOf(opacity) >= 0x80
  {
    // `u32::from_be_bytes` of [0, r, g, b] and of [a, r, g, b]
    var int24 := (rgb.r * 0x100 + rgb.g) * 0x100 + rgb.b;
    var uint32 := AlphaOf(opacity) * U24 + int24;
    Ints(int24, uint32, AsI32(uint32))
  }

  /** The four bytes of an `0xAARRGGBB` value, most significant first. */
  function UnpackArgb(u: nat): (bs: seq<Byte>)
    requires u < U32
  {
    [u / U24, (u / 0x1_0000) % 0x100, (u / 0x100) % 0x100, u % 0x100]
  }

  /** The encodings lose nothing: the bytes come back out of `uint32`, and
      `sint32` wraps back to `uint32` modulo 2^32. */
  lemma IntsRoundTrip(rgb: RGB, opacity: Option<Byte>)
    ensures UnpackArgb(RgbToInts(rgb, opacity).uint32) == [AlphaOf(opacity), rgb.r, rgb.g, rgb.b]
    ensures (RgbToInts(rgb, opacity).sint32 + U32) % U32 == RgbToInts(rgb, opacity).uint32
  {
    var a: nat, r: nat, g: nat, b: Byte := AlphaOf(opacity), rgb.r, rgb.g, rgb.b;
    var u := RgbToInts(rgb, opacity).uint32;
    assert u == ((a * 0x100 + r) * 0x100 + g) * 0x100 + b;
    DivModByte((a * 0x100 + r) * 0x100 + g, b);
    DivModByte(a * 0x100 + r, g);
    DivModByte(a, r);
    assert u / 0x1_0000 == (u / 0x100) / 0x100;
    assert u / U24 == ((u / 0x100) / 0x100) / 0x100;
  }

  lemma DivModByte(q: nat, b: Byte)
    ensures (q * 0x100 + b) / 0x100 == q && (q * 0x100 + b) % 0x100 == b
  {
  }

  /** The values the formats test expects for Latte's red, (210, 15, 57). */
  lemma LatteRedInts()
    ensures RgbToInts(NewRgb(210, 15, 57), None) == Ints(13766457, 4291956537, -3010759)
  {
  }

  // ---------------------------------------------------------------------------
  // Hex digits and the component table

  /** The hex digit character for a value below 16, in either case. */
  function HexChar(d: nat, upper: bool): (c: char)
    requires d < 16
    ensures DigitValue(c) == Some(d)
    ensures upper ==> !('a' <= c <= 'z')
    ensures !upper ==> !('A' <= c <= 'Z')
  {
    if d < 10 then ('0' as int + d) as char
    else if upper then ('A' as int + d - 10) as char
    else ('a' as int + d - 10) as char
  }

  /** `char::to_digit(16)`: either case is accepted. */
  function DigitValue(c: char): (d: Option<nat>)
    ensures d.Some? ==> d.value < 16
    ensures d.Some? <==> ('0' <= c <= '9' || 'a' <= c <= 'f' || 'A' <= c <= 'F')
  {
    if '0' <= c <= '9' then Some(c as int - '0' as int)
    else if 'a' <= c <= 'f' then Some(c as int - 'a' as int + 10)
    else if 'A' <= c <= 'F' then Some(c as int - 'A' as int + 10)
    else None
  }

  predicate AllHexDigits(ds: string) {
    forall i :: 0 <= i < |ds| ==> DigitValue(ds[i]).Some?
  }

  /** The value of a run of hex digits, folded in from the left onto `acc`. */
  function HexFold(acc: nat, ds: string): nat
    requires AllHexDigits(ds)
    decreases |ds|
  {
    if ds == [] then acc else HexFold(acc * 16 + DigitValue(ds[0]).value, ds[1..])
  }

  function HexValue(ds: string): nat
    requires AllHexDigits(ds)
  {
    HexFold(0, ds)
  }

  /** Folding never shrinks the accumulator, and the first digit already counts. */
  lemma {:induction false} HexFoldGrows(acc: nat, ds: string)
    requires AllHexDigits(ds) && ds != []
    ensures HexFold(acc, ds) >= acc * 16 + DigitValue(ds[0]).value
    decreases |ds|
  {
    var acc' := acc * 16 + DigitValue(ds[0]).value;
    if |ds| > 1 {
      HexFoldGrows(acc', ds[1..]);
    }
  }

  lemma {:induction false} HexFoldAppend(acc: nat, s: string, t: string)
    requires AllHexDigits(s) && AllHexDigits(t)
    ensures AllHexDigits(s + t) && HexFold(acc, s + t) == HexFold(HexFold(acc, s), t)
    decreases |s|
  {
    assert AllHexDigits(s + t) by {
      forall i | 0 <= i < |s + t| ensures DigitValue((s + t)[i]).Some? {
        if i < |s| { assert (s + t)[i] == s[i]; } else { assert (s + t)[i] == t[i - |s|]; }
      }
    }
    if s != [] {
      assert (s + t)[1..] == s[1..] + t;
      assert (s + t)[0] == s[0];
      HexFoldAppend(acc * 16 + DigitValue(s[0]).value, s[1..], t);
    } else {
      assert s + t == t;
    }
  }

  lemma HexCharUpper(d: nat)
    requires d < 16
    ensures Text.UpperChar(HexChar(d, false)) == HexChar(d, true)
  {
  }

  lemma HexFoldTwo(acc: nat, s: string)
    requires |s| == 2 && AllHexDigits(s)
    ensures HexFold(acc, s) == (acc * 16 + DigitValue(s[0]).value) * 16 + DigitValue(s[1]).value
  {
    var t := s[1..];
    assert t[0] == s[1] && t[1..] == [];
    var a1 := acc * 16 + DigitValue(s[0]).value;
    assert HexFold(acc, s) == HexFold(a1, t);
    assert HexFold(a1, t) == HexFold(a1 * 16 + DigitValue(t[0]).value, t[1..]);
  }

  /** `format!("{x:02x}")` and `format!("{x:02X}")`: two digits that read back as `x`. */
  function Hex2(x: Byte, upper: bool): (s: string)
    ensures |s| == 2 && AllHexDigits(s)
    ensures forall acc: nat :: HexFold(acc, s) == acc * 0x100 + x
    ensures forall i :: 0 <= i < 2 ==> (upper ==> !('a' <= s[i] <= 'z')) && (!upper ==> !('A' <= s[i] <= 'Z'))
  {
    var s := [HexChar(x / 16, upper), HexChar(x % 16, upper)];
    forall acc: nat ensures HexFold(acc, s) == acc * 0x100 + x {
      HexFoldTwo(acc, s);
    }
    s
  }

  /** The uppercase format is the lowercase format upper-cased. */
  lemma Hex2Upper(x: Byte)
    ensures Hex2(x, true) == Text.AsciiUpper(Hex2(x, false))
  {
    HexCharUpper(x / 16);
    HexCharUpper(x % 16);
  }

  /** The keys a hex format may refer to. */
  const ComponentKeys: set<string> := {"r", "g", "b", "a", "z", "R", "G", "B", "A", "Z"}

  /** The table `format_hex` renders the format with: two-digit lowercase and
      uppercase channels, and `z`/`Z`, the alpha that is left out when opaque. */
  function HexComponents(r: Byte, g: Byte, b: Byte, a: Byte): (m: map<string, string>)
    ensures m.Keys == ComponentKeys
    ensures m["r"] == Hex2(r, false) && m["g"] == Hex2(g, false)
    ensures m["b"] == Hex2(b, false) && m["a"] == Hex2(a, false)
    ensures m["R"] == Text.AsciiUpper(m["r"]) && m["G"] == Text.AsciiUpper(m["g"])
    ensures m["B"] == Text.AsciiUpper(m["b"]) && m["A"] == Text.AsciiUpper(m["a"])
    ensures m["Z"] == Text.AsciiUpper(m["z"])
    ensures m["z"] == "" <==> a == 0xFF
    ensures a != 0xFF ==> m["z"] == m["a"] && m["Z"] == m["A"]
    ensures m["Z"] == "" <==> a == 0xFF
  {
    var z := if a == 0xFF then "" else Hex2(a, false);
    var m := map[
      "r" := Hex2(r, false), "g" := Hex2(g, false), "b" := Hex2(b, false),
      "a" := Hex2(a, false), "z" := z,
      "R" := Hex2(r, true), "G" := Hex2(g, true), "B" := Hex2(b, true),
      "A" := Hex2(a, true), "Z" := if a == 0xFF then "" else Hex2(a, true)];
    assert Text.AsciiUpper("") == "";
    Hex2Upper(r); Hex2Upper(g); Hex2Upper(b); Hex2Upper(a);
    m
  }

  /** `format_hex`: renders the hex format; a Tera failure becomes `Error::HexFormat`. */
  function FormatHex(r: Byte, g: Byte, b: Byte, a: Byte, render: HexRenderer): Result<string, Error> {
    match render(HexComponents(r, g, b, a))
    case Ok(s) => Ok(s)
    case Err(e) => Err(HexFormat(e))
  }

  // ---------------------------------------------------------------------------
  // Parsing hex overrides

  /** The digits after an optional leading `+`. */
  function DigitsOf(s: string): string {
    if s != [] && s[0] == '+' then s[1..] else s
  }

  /** What `u32::from_str_radix(s, 16)` accepts. */
  predicate IsU32Hex(s: string) {
    DigitsOf(s) != [] && AllHexDigits(DigitsOf(s)) && HexValue(DigitsOf(s)) < U32
  }

  /** The digit loop of `from_str_radix`: an invalid digit is reported before the
      overflow at the same position. */
  function Accumulate(ds: string, acc: nat): (r: Result<nat, IntErrorKind>)
    requires acc < U32
    ensures r.Ok? <==> AllHexDigits(ds) && HexFold(acc, ds) < U32
    ensures r.Ok? ==> r.value == HexFold(acc, ds)
    ensures AllHexDigits(ds) && HexFold(acc, ds) >= U32 ==> r == Err(PosOverflow)
    ensures r.Err? ==> r.error != Empty
    decreases |ds|
  {
    if ds == [] then Ok(acc)
    else
      match DigitValue(ds[0])
      case None => Err(InvalidDigit)
      case Some(d) =>
        if acc * 16 + d >= U32 then
          assert AllHexDigits(ds) ==> HexFold(acc, ds) >= U32 by {
            if AllHexDigits(ds) { HexFoldGrows(acc, ds); }
          }
          Err(PosOverflow)
        else
          assert AllHexDigits(ds) <==> AllHexDigits(ds[1..]) by {
            if AllHexDigits(ds[1..]) {
              forall i | 0 <= i < |ds| ensures DigitValue(ds[i]).Some? {
                if i > 0 { assert ds[i] == ds[1..][i - 1]; }
              }
            }
          }
          Accumulate(ds[1..], acc * 16 + d)
  }

  /** `u32::from_str_radix(s, 16)`. */
  function ParseHexU32(s: string): (r: Result<nat, IntErrorKind>)
    ensures r.Ok? <==> IsU32Hex(s)
    ensures r.Ok? ==> r.value < U32 && r.value == HexValue(DigitsOf(s))
    ensures s == [] ==> r == Err(Empty)
    ensures s != [] && DigitsOf(s) == [] ==> r == Err(InvalidDigit)
    ensures s != [] && AllHexDigits(DigitsOf(s)) && HexValue(DigitsOf(s)) >= U32 ==> r == Err(PosOverflow)
  {
    if s == [] then Err(Empty)
    else if (s[0] == '+' || s[0] == '-') && |s| == 1 then Err(InvalidDigit)
    else Accumulate(DigitsOf(s), 0)
  }

  /** A colour printed as `rrggbb` parses back to its 24-bit value. */
  lemma ParseSixDigits(r: Byte, g: Byte, b: Byte, upper: bool)
    ensures ParseHexU32(Hex2(r, upper) + Hex2(g, upper) + Hex2(b, upper))
            == Ok(r * 0x1_0000 + g * 0x100 + b)
  {
    var hr, hg, hb := Hex2(r, upper), Hex2(g, upper), Hex2(b, upper);
    HexFoldAppend(0, hr, hg);
    HexFoldAppend(0, hr + hg, hb);
    var s := hr + hg + hb;
    assert DigitsOf(s) == s by {
      assert s[0] == hr[0];
    }
  }

  // ---------------------------------------------------------------------------
  // Colours

  /** An `AnsiColor` whose integer encodings and hex agree with its channels. */
  predicate AnsiConsistent(c: AnsiColor, render: HexRenderer) {
    && RgbValid(c.rgb)
    && Ints(c.int24, c.uint32, c.sint32) == RgbToInts(c.rgb, None)
    && FormatHex(c.rgb.r, c.rgb.g, c.rgb.b, 0xFF, render) == Ok(c.hex)
  }

  /** A `Color` whose integer encodings and hex agree with its channels and opacity. */
  predicate Consistent(c: Color, render: HexRenderer) {
    && RgbValid(c.rgb)
    && Ints(c.int24, c.uint32, c.sint32) == RgbToInts(c.rgb, Some(c.opacity))
    && FormatHex(c.rgb.r, c.rgb.g, c.rgb.b, c.opacity, render) == Ok(c.hex)
  }

  /** Everything that names a colour, which no colour operation changes. */
  predicate SameIdentity(c: Color, name: string, identifier: string, order: nat, accent: bool) {
    c.name == name && c.identifier == identifier && c.order == order && c.accent == accent
  }

  /** The 24-bit value of a colour's channels. */
  function Rgb24(c: RGB): nat {
    c.r * 0x1_0000 + c.g * 0x100 + c.b
  }

  /** The channels an override's value names: bytes 2, 1 and 0 of the
      parsed value (`(i >> 16) & 0xFF` and so on). */
  function OverrideRgb(i: nat): (c: RGB)
    ensures RgbValid(c) && Rgb24(c) == i % U24
  {
    Bytes24(i);
    NewRgb((i / 0x1_0000) % 0x100, (i / 0x100) % 0x100, i % 0x100)
  }

  /** `color_from_hex_override`: the parsed value's low 24 bits are the
      channels, the opacity is always 0xFF, and the HSL is computed from the
      channels. */
  function ColorFromHexOverride(hex: string, blueprint: BaseColor, render: HexRenderer, hslOf: HslOf)
    : (res: Result<Color, Error>)
    ensures ParseHexU32(hex).Err? ==> res == Err(ParseHex(ParseHexU32(hex).error))
    ensures res.Ok? <==> ParseHexU32(hex).Ok? && render(HexComponents(
              OverrideRgb(ParseHexU32(hex).value).r, OverrideRgb(ParseHexU32(hex).value).g,
              OverrideRgb(ParseHexU32(hex).value).b, 0xFF)).Ok?
    ensures res.Err? && ParseHexU32(hex).Ok? ==>
              var rgb := OverrideRgb(ParseHexU32(hex).value);
              res == Err(HexFormat(render(HexComponents(rgb.r, rgb.g, rgb.b, 0xFF)).error))
    ensures res.Ok? ==> Rgb24(res.value.rgb) == ParseHexU32(hex).value % U24
    ensures res.Ok? ==> res.value.opacity == 0xFF && Consistent(res.value, render)
    ensures res.Ok? ==> res.value.hsl == hslOf(res.value.rgb.r, res.value.rgb.g, res.value.rgb.b)
    ensures res.Ok? ==> SameIdentity(res.value, blueprint.name, blueprint.identifier, blueprint.order, blueprint.accent)
  {
    match ParseHexU32(hex)
    case Err(kind) => Err(ParseHex(kind))
    case Ok(i) =>
      var rgb := OverrideRgb(i);
      match FormatHex(rgb.r, rgb.g, rgb.b, 0xFF, render)
      case Err(e) => Err(e)
      case Ok(hexString) =>
        var ints := RgbToInts(rgb, None);
        Ok(Color(blueprint.name, blueprint.identifier, blueprint.order, blueprint.accent,
                 hexString, ints.int24, ints.uint32, ints.sint32, rgb, hslOf(rgb.r, rgb.g, rgb.b), 0xFF))
  }

  lemma Bytes24(i: nat)
    ensures ((i / 0x1_0000) % 0x100) * 0x1_0000 + ((i / 0x100) % 0x100) * 0x100 + i % 0x100 == i % U24
  {
    var q := i / 0x100;
    var q2 := q / 0x100;
    DivTwice(i);
    ByteSplit(i, q, q2);
  }

  /** Dividing by 256 twice is dividing by 65536. */
  lemma DivTwice(i: nat)
    ensures i / 0x1_0000 == (i / 0x100) / 0x100
  {
    var q := i / 0x100;
    var q2 := q / 0x100;
    assert i == q * 0x100 + i % 0x100;
    assert q == q2 * 0x100 + q % 0x100;
    assert i == q2 * 0x1_0000 + (q % 0x100) * 0x100 + i % 0x100;
  }

  lemma ByteSplit(i: nat, q: nat, q2: nat)
    requires q == i / 0x100 && q2 == q / 0x100
    ensures (q2 % 0x100) * 0x1_0000 + (q % 0x100) * 0x100 + i % 0x100 == i % U24
  {
    var q3 := q2 / 0x100;
    assert i == q * 0x100 + i % 0x100;
    assert q == q2 * 0x100 + q % 0x100;
    assert q2 == q3 * 0x100 + q2 % 0x100;
    var low := (q2 % 0x100) * 0x1_0000 + (q % 0x100) * 0x100 + i % 0x100;
    assert i == q3 * U24 + low;
    assert 0 <= low < U24;
  }

  /** An override written as `rrggbb` reproduces exactly those channels. */
  lemma OverrideRoundTrip(r: Byte, g: Byte, b: Byte, blueprint: BaseColor, render: HexRenderer, hslOf: HslOf)
    requires render(HexComponents(r, g, b, 0xFF)).Ok?
    ensures var res := ColorFromHexOverride(Hex2(r, false) + Hex2(g, false) + Hex2(b, false), blueprint, render, hslOf);
            res.Ok? && res.value.rgb == NewRgb(r, g, b)
  {
    var hex := Hex2(r, false) + Hex2(g, false) + Hex2(b, false);
    ParseSixDigits(r, g, b, false);
    var v := r * 0x1_0000 + g * 0x100 + b;
    assert ParseHexU32(hex) == Ok(v);
    ChannelsOf(r, g, b);
    assert NewRgb((v / 0x1_0000) % 0x100, (v / 0x100) % 0x100, v % 0x100) == NewRgb(r, g, b);
  }

  lemma ChannelsOf(r: Byte, g: Byte, b: Byte)
    ensures var v := r * 0x1_0000 + g * 0x100 + b;
            (v / 0x1_0000) % 0x100 == r && (v / 0x100) % 0x100 == g && v % 0x100 == b
  {
    var v := r * 0x1_0000 + g * 0x100 + b;
    DivModByte(r * 0x100 + g, b);
    DivModByte(r, g);
    assert v / 0x1_0000 == (v / 0x100) / 0x100;
  }

  /** `f64::round`: to the nearest integer, halves away from zero. */
  function Round(x: real): (n: int)
    ensures x >= 0.0 ==> n as real - 0.5 <= x < n as real + 0.5
    ensures x < 0.0 ==> n as real - 0.5 < x <= n as real + 0.5
  {
    if x >= 0.0 then (x + 0.5).Floor else -((0.5 - x).Floor)
  }

  /** `as u16` on a float: saturating at both ends. */
  function SatU16(n: int): (r: int)
    ensures 0 <= r <= 0xFFFF
    ensures 0 <= n <= 0xFFFF ==> r == n
    ensures n < 0 ==> r == 0
    ensures n > 0xFFFF ==> r == 0xFFFF
  {
    if n < 0 then 0 else if n > 0xFFFF then 0xFFFF else n
  }

  /** The HSL a catppuccin colour is given: the hue rounded to whole degrees
      (`h.round() as u16`), saturation and lightness kept. */
  function HslFromBase(hsl: BaseHsl): (r: HSL)
    ensures 0 <= r.h <= 0xFFFF
    ensures 0.0 <= hsl.h < 0xFFFF as real ==> r.h as real - 0.5 <= hsl.h < r.h as real + 0.5
    ensures hsl.h < 0.0 ==> r.h == 0
    ensures r.s == hsl.s && r.l == hsl.l
  {
    HSL(SatU16(Round(hsl.h)), hsl.s, hsl.l)
  }

  /** A hue on the colour wheel rounds to a hue on the colour wheel. */
  lemma HueOnWheel(hsl: BaseHsl)
    requires 0.0 <= hsl.h < 360.0
    ensures 0 <= HslFromBase(hsl).h <= 360
    ensures HslFromBase(hsl).h == 360 <==> hsl.h >= 359.5
  {
    assert Round(hsl.h) <= 360;
  }

  /** `color_from_catppuccin`. */
  function ColorFromCatppuccin(color: BaseColor, render: HexRenderer): (res: Result<Color, Error>)
    ensures res.Ok? <==> render(HexComponents(color.rgb.r, color.rgb.g, color.rgb.b, 0xFF)).Ok?
    ensures res.Err? ==> res == Err(HexFormat(render(HexComponents(color.rgb.r, color.rgb.g, color.rgb.b, 0xFF)).error))
    ensures res.Ok? ==> res.value.rgb == NewRgb(color.rgb.r, color.rgb.g, color.rgb.b)
    ensures res.Ok? ==> res.value.opacity == 0xFF && res.value.hsl == HslFromBase(color.hsl) && Consistent(res.value, render)
    ensures res.Ok? ==> SameIdentity(res.value, color.name, color.identifier, color.order, color.accent)
  {
    match FormatHex(color.rgb.r, color.rgb.g, color.rgb.b, 0xFF, render)
    case Err(e) => Err(e)
    case Ok(hexString) =>
      var rgb := NewRgb(color.rgb.r, color.rgb.g, color.rgb.b);
      var ints := RgbToInts(rgb, None);
      Ok(Color(color.name, color.identifier, color.order, color.accent,
               hexString, ints.int24, ints.uint32, ints.sint32, rgb, HslFromBase(color.hsl), 255))
  }

  /** `ansi_color_from_catppuccin`. */
  function AnsiColorFromCatppuccin(ansi: BaseAnsiColor, render: HexRenderer): (res: Result<AnsiColor, Error>)
    ensures res.Ok? <==> render(HexComponents(ansi.rgb.r, ansi.rgb.g, ansi.rgb.b, 0xFF)).Ok?
    ensures res.Err? ==> res == Err(HexFormat(render(HexComponents(ansi.rgb.r, ansi.rgb.g, ansi.rgb.b, 0xFF)).error))
    ensures res.Ok? ==> res.value.rgb == NewRgb(ansi.rgb.r, ansi.rgb.g, ansi.rgb.b)
    ensures res.Ok? ==> AnsiConsistent(res.value, render)
    ensures res.Ok? ==> res.value.name == ansi.name && res.value.identifier == ansi.identifier
                        && res.value.code == ansi.code && res.value.hsl == HslFromBase(ansi.hsl)
  {
    match FormatHex(ansi.rgb.r, ansi.rgb.g, ansi.rgb.b, 0xFF, render)
    case Err(e) => Err(e)
    case Ok(hexString) =>
      var rgb := NewRgb(ansi.rgb.r, ansi.rgb.g, ansi.rgb.b);
      var ints := RgbToInts(rgb, None);
      Ok(AnsiColor(ansi.name, ansi.identifier, ansi.code, hexString,
                   ints.int24, ints.uint32, ints.sint32, rgb, HslFromBase(ansi.hsl)))
  }

  /** `ansi_color_pair_from_catppuccin`: the normal colour is converted first. */
  function AnsiPairFromCatppuccin(pair: BaseAnsiPair, render: HexRenderer): (res: Result<AnsiColorPair, Error>)
    ensures res.Ok? <==> AnsiColorFromCatppuccin(pair.normal, render).Ok? && AnsiColorFromCatppuccin(pair.bright, render).Ok?
    ensures AnsiColorFromCatppuccin(pair.normal, render).Err? ==> res == Err(AnsiColorFromCatppuccin(pair.normal, render).error)
    ensures res.Ok? ==> AnsiConsistent(res.value.normal, render) && AnsiConsistent(res.value.bright, render)
    ensures res.Ok? ==> res.value.name == pair.name && res.value.identifier == pair.identifier && res.value.order == pair.order
  {
    match AnsiColorFromCatppuccin(pair.normal, render)
    case Err(e) => Err(e)
    case Ok(normal) =>
      match AnsiColorFromCatppuccin(pair.bright, render)
      case Err(e) => Err(e)
      case Ok(bright) => Ok(AnsiColorPair(pair.name, pair.identifier, pair.order, normal, bright))
  }

  // ---------------------------------------------------------------------------
  // Overrides

  function FlavorOverrides(co: ColorOverrides, flavor: FlavorName): map<string, string> {
    match flavor
    case Latte => co.latte
    case Frappe => co.frappe
    case Macchiato => co.macchiato
    case Mocha => co.mocha
  }

  /** The flavour's override for a colour identifier, if any. */
  function FlavorHex(overrides: Option<ColorOverrides>, flavor: FlavorName, id: string): Option<string> {
    if overrides.Some? && id in FlavorOverrides(overrides.value, flavor)
    then Some(FlavorOverrides(overrides.value, flavor)[id]) else None
  }

  /** The `all` override for a colour identifier, if any. */
  function AllHex(overrides: Option<ColorOverrides>, id: string): Option<string> {
    if overrides.Some? && id in overrides.value.all then Some(overrides.value.all[id]) else None
  }

  /** An override that is absent, or present and converts. */
  predicate OverrideOk(o: Option<string>, color: BaseColor, render: HexRenderer, hslOf: HslOf) {
    o.None? || ColorFromHexOverride(o.value, color, render, hslOf).Ok?
  }

  /** `make_color` in `build_palette`: both overrides are parsed and the base
      colour is built before the choice, so any of them can fail the colour; of
      the three, the flavour override wins over the `all` override, which wins
      over the base colour. */
  function MakeColor(color: BaseColor, flavor: FlavorName, overrides: Option<ColorOverrides>,
                     render: HexRenderer, hslOf: HslOf): (res: Result<Color, Error>)
    ensures var fo, ao := FlavorHex(overrides, flavor, color.identifier), AllHex(overrides, color.identifier);
            res.Ok? <==> (OverrideOk(fo, color, render, hslOf) && OverrideOk(ao, color, render, hslOf)
                          && ColorFromCatppuccin(color, render).Ok?)
    ensures var fo, ao := FlavorHex(overrides, flavor, color.identifier), AllHex(overrides, color.identifier);
            res.Ok? ==> res == if fo.Some? then ColorFromHexOverride(fo.value, color, render, hslOf)
                               else if ao.Some? then ColorFromHexOverride(ao.value, color, render, hslOf)
                               else ColorFromCatppuccin(color, render)
    ensures var fo := FlavorHex(overrides, flavor, color.identifier);
            !OverrideOk(fo, color, render, hslOf) ==> res == ColorFromHexOverride(fo.value, color, render, hslOf)
    ensures var fo, ao := FlavorHex(overrides, flavor, color.identifier), AllHex(overrides, color.identifier);
            OverrideOk(fo, color, render, hslOf) && !OverrideOk(ao, color, render, hslOf)
            ==> res == ColorFromHexOverride(ao.value, color, render, hslOf)
    ensures var fo, ao := FlavorHex(overrides, flavor, color.identifier), AllHex(overrides, color.identifier);
            (OverrideOk(fo, color, render, hslOf) && OverrideOk(ao, color, render, hslOf)
             && ColorFromCatppuccin(color, render).Err?) ==> res == ColorFromCatppuccin(color, render)
    ensures res.Ok? ==> Consistent(res.value, render) && res.value.opacity == 0xFF
    ensures res.Ok? ==> SameIdentity(res.value, color.name, color.identifier, color.order, color.accent)
  {
    var fo := FlavorHex(overrides, flavor, color.identifier);
    var ao := AllHex(overrides, color.identifier);
    var flavorOverride := if fo.Some? then Some(ColorFromHexOverride(fo.value, color, render, hslOf)) else None;
    var allOverride := if ao.Some? then Some(ColorFromHexOverride(ao.value, color, render, hslOf)) else None;
    if flavorOverride.Some? && flavorOverride.value.Err? then flavorOverride.value
    else if allOverride.Some? && allOverride.value.Err? then allOverride.value
    else
      match ColorFromCatppuccin(color, render)
      case Err(e) => Err(e)
      case Ok(base) =>
        if flavorOverride.Some? then flavorOverride.value
        else if allOverride.Some? then allOverride.value
        else Ok(base)
  }

  // ---------------------------------------------------------------------------
  // Building the palette

  /** One converted entry per base entry, inserted in order under the key the
      entry names; the first failing conversion ends the build with its error. */
  function Collect<B, T>(acc: IndexMap<T>, bs: seq<B>, key: B -> string, make: B -> Result<T, Error>)
    : Result<IndexMap<T>, Error>
    decreases |bs|
  {
    if bs == [] then Ok(acc)
    else
      match make(bs[0])
      case Err(e) => Err(e)
      case Ok(t) => Collect(Insert(acc, key(bs[0]), t), bs[1..], key, make)
  }

  function ColorKey(c: BaseColor): string { c.identifier }
  function AnsiKey(c: BaseAnsiColor): string { c.identifier }
  function PairKey(p: BaseAnsiPair): string { p.identifier }
  function FlavorKey(f: BaseFlavor): string { f.identifier }

  /** The `make_color` closure of one flavour. */
  function ColorMaker(flavor: FlavorName, overrides: Option<ColorOverrides>, render: HexRenderer, hslOf: HslOf)
    : BaseColor -> Result<Color, Error>
  {
    c => MakeColor(c, flavor, overrides, render, hslOf)
  }

  function AnsiMaker(render: HexRenderer): BaseAnsiColor -> Result<AnsiColor, Error> {
    c => AnsiColorFromCatppuccin(c, render)
  }

  function PairMaker(render: HexRenderer): BaseAnsiPair -> Result<AnsiColorPair, Error> {
    p => AnsiPairFromCatppuccin(p, render)
  }

  /** One flavour: its colours, then its ANSI colours, then its ANSI pairs. */
  function FlavorFrom(f: BaseFlavor, overrides: Option<ColorOverrides>, render: HexRenderer, hslOf: HslOf)
    : Result<Flavor, Error>
  {
    match Collect([], f.colors, ColorKey, ColorMaker(f.name, overrides, render, hslOf))
    case Err(e) => Err(e)
    case Ok(colors) =>
      match Collect([], f.ansiColors, AnsiKey, AnsiMaker(render))
      case Err(e) => Err(e)
      case Ok(ansi) =>
        match Collect([], f.ansiPairs, PairKey, PairMaker(render))
        case Err(e) => Err(e)
        case Ok(pairs) => Ok(Flavor(f.title, f.identifier, f.emoji, f.order, f.dark, !f.dark, colors, ansi, pairs))
  }

  function FlavorMaker(overrides: Option<ColorOverrides>, render: HexRenderer, hslOf: HslOf)
    : BaseFlavor -> Result<Flavor, Error>
  {
    f => FlavorFrom(f, overrides, render, hslOf)
  }

  /** The palette `build_palette` returns, flavour by flavour. */
  function PaletteFrom(base: seq<BaseFlavor>, overrides: Option<ColorOverrides>, render: HexRenderer, hslOf: HslOf)
    : Result<Palette, Error>
  {
    match Collect([], base, FlavorKey, FlavorMaker(overrides, render, hslOf))
    case Err(e) => Err(e)
    case Ok(flavors) => Ok(Palette(flavors))
  }

  /** One of the loops of `build_palette`: converts each base entry in turn and
      inserts it into a fresh map, stopping at the first error. */
  method CollectLoop<B, T>(bs: seq<B>, key: B -> string, make: B -> Result<T, Error>)
    returns (res: Result<IndexMap<T>, Error>)
    ensures res == Collect([], bs, key, make)
  {
    var m: IndexMap<T> := [];
    for i := 0 to |bs|
      invariant Collect([], bs, key, make) == Collect(m, bs[i..], key, make)
    {
      assert bs[i..][0] == bs[i] && bs[i..][1..] == bs[i + 1..];
      var t := make(bs[i]);
      if t.Err? {
        return Err(t.error);
      }
      m := Insert(m, key(bs[i]), t.value);
    }
    assert bs[|bs|..] == [];
    return Ok(m);
  }

  /** `build_palette`: for each flavour, the loops over its colours, ANSI colours
      and ANSI pairs, then the flavour is inserted; the first error is returned. */
  method BuildPalette(base: seq<BaseFlavor>, overrides: Option<ColorOverrides>, render: HexRenderer, hslOf: HslOf)
    returns (res: Result<Palette, Error>)
    ensures res == PaletteFrom(base, overrides, render, hslOf)
  {
    var makeFlavor := FlavorMaker(overrides, render, hslOf);
    var flavors: IndexMap<Flavor> := [];
    for fi := 0 to |base|
      invariant Collect([], base, FlavorKey, makeFlavor) == Collect(flavors, base[fi..], FlavorKey, makeFlavor)
    {
      var f := base[fi];
      assert base[fi..][0] == f && base[fi..][1..] == base[fi + 1..];
      var colors := CollectLoop(f.colors, ColorKey, ColorMaker(f.name, overrides, render, hslOf));
      if colors.Err? {
        return Err(colors.error);
      }
      var ansi := CollectLoop(f.ansiColors, AnsiKey, AnsiMaker(render));
      if ansi.Err? {
        return Err(ansi.error);
      }
      var pairs := CollectLoop(f.ansiPairs, PairKey, PairMaker(render));
      if pairs.Err? {
        return Err(pairs.error);
      }
      var flavor := Flavor(f.title, f.identifier, f.emoji, f.order, f.dark, !f.dark, colors.value, ansi.value, pairs.value);
      assert makeFlavor(f) == Ok(flavor);
      flavors := Insert(flavors, f.identifier, flavor);
    }
    assert base[|base|..] == [];
    res := Ok(Palette(flavors));
  }

  // ---------------------------------------------------------------------------
  // Properties of the build

  /** The keys of the base entries, in order. */
  function KeysOf<B>(bs: seq<B>, key: B -> string): (ks: seq<string>)
    ensures |ks| == |bs| && forall j :: 0 <= j < |bs| ==> ks[j] == key(bs[j])
    decreases |bs|
  {
    if bs == [] then [] else [key(bs[0])] + KeysOf(bs[1..], key)
  }

  predicate DistinctKeysOf<B>(bs: seq<B>, key: B -> string) {
    forall i, j :: 0 <= i < j < |bs| ==> key(bs[i]) != key(bs[j])
  }

  /** A build succeeds exactly when every conversion does. */
  lemma {:induction false} CollectOk<B, T>(acc: IndexMap<T>, bs: seq<B>, key: B -> string, make: B -> Result<T, Error>)
    ensures Collect(acc, bs, key, make).Ok? <==> forall j :: 0 <= j < |bs| ==> make(bs[j]).Ok?
    decreases |bs|
  {
    if bs != [] && make(bs[0]).Ok? {
      CollectOk(Insert(acc, key(bs[0]), make(bs[0]).value), bs[1..], key, make);
      assert forall j :: 1 <= j < |bs| ==> bs[j] == bs[1..][j - 1];
    }
  }

  /** A failed build reports the error of the first conversion that failed. */
  lemma {:induction false} CollectFirstError<B, T>(acc: IndexMap<T>, bs: seq<B>, key: B -> string,
                                                    make: B -> Result<T, Error>, j: nat)
    requires j < |bs| && make(bs[j]).Err?
    requires forall i :: 0 <= i < j ==> make(bs[i]).Ok?
    ensures Collect(acc, bs, key, make) == Err(make(bs[j]).error)
    decreases j
  {
    if j > 0 {
      assert forall i :: 0 <= i < j - 1 ==> bs[1..][i] == bs[i + 1];
      CollectFirstError(Insert(acc, key(bs[0]), make(bs[0]).value), bs[1..], key, make, j - 1);
    }
  }

  /** Keys outside the base entries keep their old values. */
  lemma {:induction false} CollectUntouched<B, T>(acc: IndexMap<T>, bs: seq<B>, key: B -> string,
                                                   make: B -> Result<T, Error>, k: string)
    requires Collect(acc, bs, key, make).Ok?
    requires k !in KeysOf(bs, key)
    ensures Get(Collect(acc, bs, key, make).value, k) == Get(acc, k)
    decreases |bs|
  {
    if bs != [] {
      assert KeysOf(bs, key) == [key(bs[0])] + KeysOf(bs[1..], key);
      InsertGet(acc, key(bs[0]), make(bs[0]).value);
      CollectUntouched(Insert(acc, key(bs[0]), make(bs[0]).value), bs[1..], key, make, k);
    }
  }


  /** With distinct keys, the keys of the build follow the base order after the
      keys already present. */
  lemma {:induction false} CollectKeys<B, T>(acc: IndexMap<T>, bs: seq<B>, key: B -> string, make: B -> Result<T, Error>)
    requires DistinctKeysOf(bs, key)
    requires forall j :: 0 <= j < |bs| ==> key(bs[j]) !in Keys(acc)
    requires Collect(acc, bs, key, make).Ok?
    ensures Keys(Collect(acc, bs, key, make).value) == Keys(acc) + KeysOf(bs, key)
    decreases |bs|
  {
    if bs == [] {
      assert Keys(acc) + [] == Keys(acc);
    } else {
      var b := bs[0];
      var acc' := Insert(acc, key(b), make(b).value);
      var rest := bs[1..];
      assert forall i :: 0 <= i < |rest| ==> rest[i] == bs[i + 1];
      assert DistinctKeysOf(rest, key);
      assert key(b) !in Keys(acc);
      InsertKeys(acc, key(b), make(b).value);
      assert Keys(acc') == Keys(acc) + [key(b)];
      forall j | 0 <= j < |rest| ensures key(rest[j]) !in Keys(acc') {
        assert rest[j] == bs[j + 1];
        assert key(bs[j + 1]) != key(bs[0]);
        assert key(bs[j + 1]) !in Keys(acc);
      }
      CollectKeys(acc', rest, key, make);
      var ka, kr := Keys(acc), KeysOf(rest, key);
      assert KeysOf(bs, key) == [key(b)] + kr;
      Text.SeqAssoc(ka, [key(b)], kr);
    }
  }

  /** With distinct keys, every base entry's key maps to its own conversion. */
  lemma {:induction false} CollectGet<B, T>(acc: IndexMap<T>, bs: seq<B>, key: B -> string, make: B -> Result<T, Error>)
    requires DistinctKeysOf(bs, key)
    requires Collect(acc, bs, key, make).Ok?
    ensures forall j :: 0 <= j < |bs| ==>
              make(bs[j]).Ok? && Get(Collect(acc, bs, key, make).value, key(bs[j])) == Some(make(bs[j]).value)
    decreases |bs|
  {
    if bs != [] {
      var b := bs[0];
      var acc' := Insert(acc, key(b), make(b).value);
      var rest := bs[1..];
      var m := Collect(acc, bs, key, make).value;
      assert m == Collect(acc', rest, key, make).value;
      assert forall i :: 0 <= i < |rest| ==> rest[i] == bs[i + 1];
      assert DistinctKeysOf(rest, key);
      CollectGet(acc', rest, key, make);
      assert key(b) !in KeysOf(rest, key);
      CollectUntouched(acc', rest, key, make, key(b));
      InsertGet(acc, key(b), make(b).value);
      forall j | 0 <= j < |bs| ensures make(bs[j]).Ok? && Get(m, key(bs[j])) == Some(make(bs[j]).value) {
        if j > 0 {
          assert bs[j] == rest[j - 1];
        }
      }
    }
  }

  /** A property every successful conversion has, and every value already
      present has, holds of every value of the build. */
  lemma {:induction false} CollectAll<B, T>(acc: IndexMap<T>, bs: seq<B>, key: B -> string,
                                            make: B -> Result<T, Error>, p: T -> bool)
    requires forall e :: e in acc ==> p(e.1)
    requires forall j :: 0 <= j < |bs| && make(bs[j]).Ok? ==> p(make(bs[j]).value)
    requires Collect(acc, bs, key, make).Ok?
    ensures forall e :: e in Collect(acc, bs, key, make).value ==> p(e.1)
    decreases |bs|
  {
    if bs != [] {
      var acc' := Insert(acc, key(bs[0]), make(bs[0]).value);
      InsertEntries(acc, key(bs[0]), make(bs[0]).value);
      assert forall j :: 0 <= j < |bs[1..]| ==> bs[1..][j] == bs[j + 1];
      CollectAll(acc', bs[1..], key, make, p);
    }
  }

  /** A built palette succeeds exactly when every flavour does, and each of its
      flavours has `light == !dark`. */
  lemma PaletteLightIsNotDark(base: seq<BaseFlavor>, overrides: Option<ColorOverrides>, render: HexRenderer, hslOf: HslOf)
    ensures PaletteFrom(base, overrides, render, hslOf).Ok?
            <==> forall j :: 0 <= j < |base| ==> FlavorFrom(base[j], overrides, render, hslOf).Ok?
    ensures PaletteFrom(base, overrides, render, hslOf).Ok? ==>
            forall e :: e in PaletteFrom(base, overrides, render, hslOf).value.flavors ==> e.1.light == !e.1.dark
  {
    var make := FlavorMaker(overrides, render, hslOf);
    CollectOk([], base, FlavorKey, make);
    if PaletteFrom(base, overrides, render, hslOf).Ok? {
      CollectAll([], base, FlavorKey, make, (fl: Flavor) => fl.light == !fl.dark);
    }
  }

  /** With distinct flavour identifiers, the palette lists the flavours in base
      order, each under its identifier. */
  lemma PaletteContents(base: seq<BaseFlavor>, overrides: Option<ColorOverrides>, render: HexRenderer, hslOf: HslOf)
    requires DistinctKeysOf(base, FlavorKey)
    requires PaletteFrom(base, overrides, render, hslOf).Ok?
    ensures var m := PaletteFrom(base, overrides, render, hslOf).value.flavors;
            Keys(m) == KeysOf(base, FlavorKey) &&
            forall j :: 0 <= j < |base| ==>
              FlavorFrom(base[j], overrides, render, hslOf).Ok? &&
              Get(m, base[j].identifier) == Some(FlavorFrom(base[j], overrides, render, hslOf).value)
  {
    CollectKeys([], base, FlavorKey, FlavorMaker(overrides, render, hslOf));
    CollectGet([], base, FlavorKey, FlavorMaker(overrides, render, hslOf));
    assert Keys<Flavor>([]) + KeysOf(base, FlavorKey) == KeysOf(base, FlavorKey);
  }

  /** A built flavour carries the base flavour's identity, has `light == !dark`,
      lists its colours in base order, and each colour is the one `make_color`
      chose for it. */
  lemma FlavorContents(f: BaseFlavor, overrides: Option<ColorOverrides>, render: HexRenderer, hslOf: HslOf)
    requires DistinctKeysOf(f.colors, ColorKey)
    requires FlavorFrom(f, overrides, render, hslOf).Ok?
    ensures var fl := FlavorFrom(f, overrides, render, hslOf).value;
            && fl.name == f.title && fl.identifier == f.identifier && fl.emoji == f.emoji && fl.order == f.order
            && fl.dark == f.dark && fl.light == !f.dark
            && Keys(fl.colors) == KeysOf(f.colors, ColorKey)
            && forall j :: 0 <= j < |f.colors| ==>
                 MakeColor(f.colors[j], f.name, overrides, render, hslOf).Ok? &&
                 Get(fl.colors, f.colors[j].identifier) == Some(MakeColor(f.colors[j], f.name, overrides, render, hslOf).value)
  {
    var make := ColorMaker(f.name, overrides, render, hslOf);
    var colors := Collect([], f.colors, ColorKey, make).value;
    assert FlavorFrom(f, overrides, render, hslOf).value.colors == colors;
    CollectKeys([], f.colors, ColorKey, make);
    CollectGet([], f.colors, ColorKey, make);
    assert Keys<Color>([]) + KeysOf(f.colors, ColorKey) == KeysOf(f.colors, ColorKey);
    forall j | 0 <= j < |f.colors|
      ensures MakeColor(f.colors[j], f.name, overrides, render, hslOf).Ok?
      ensures Get(colors, f.colors[j].identifier) == Some(MakeColor(f.colors[j], f.name, overrides, render, hslOf).value)
    {
      assert make(f.colors[j]) == MakeColor(f.colors[j], f.name, overrides, render, hslOf);
      assert ColorKey(f.colors[j]) == f.colors[j].identifier;
    }
  }

  /** A flavour fails exactly when one of its colours, ANSI colours or ANSI pairs fails. */
  lemma FlavorOk(f: BaseFlavor, overrides: Option<ColorOverrides>, render: HexRenderer, hslOf: HslOf)
    ensures FlavorFrom(f, overrides, render, hslOf).Ok? <==>
            && (forall j :: 0 <= j < |f.colors| ==> MakeColor(f.colors[j], f.name, overrides, render, hslOf).Ok?)
            && (forall j :: 0 <= j < |f.ansiColors| ==> AnsiColorFromCatppuccin(f.ansiColors[j], render).Ok?)
            && (forall j :: 0 <= j < |f.ansiPairs| ==> AnsiPairFromCatppuccin(f.ansiPairs[j], render).Ok?)
  {
    CollectOk([], f.colors, ColorKey, ColorMaker(f.name, overrides, render, hslOf));
    CollectOk([], f.ansiColors, AnsiKey, AnsiMaker(render));
    CollectOk([], f.ansiPairs, PairKey, PairMaker(render));
  }

  // ---------------------------------------------------------------------------
  // Opacity

  /** The colour with a new opacity: the integers and the hex are recomputed,
      everything else is kept (`..self.clone()`). */
  function WithOpacity(c: Color, opacity: Byte, render: HexRenderer): Result<Color, Error> {
    match FormatHex(c.rgb.r, c.rgb.g, c.rgb.b, opacity, render)
    case Err(e) => Err(e)
    case Ok(hexString) =>
      var ints := RgbToInts(c.rgb, Some(opacity));
      Ok(c.(opacity := opacity, hex := hexString, int24 := ints.int24, uint32 := ints.uint32, sint32 := ints.sint32))
  }

  /** `u8::saturating_add`. */
  function SaturatingAdd(x: Byte, y: Byte): Byte {
    if x + y > 0xFF then 0xFF else x + y
  }

  /** `u8::saturating_sub`. */
  function SaturatingSub(x: Byte, y: Byte): Byte {
    if x < y then 0 else x - y
  }

  /** `Color::mod_opacity`, with the opacity already converted to a byte. */
  function ModOpacity(c: Color, amount: Byte, render: HexRenderer): (res: Result<Color, Error>)
    ensures res.Ok? <==> render(HexComponents(c.rgb.r, c.rgb.g, c.rgb.b, amount)).Ok?
    ensures res.Ok? ==> res.value.opacity == amount
    ensures res.Ok? ==> res.value == c.(opacity := res.value.opacity, hex := res.value.hex, int24 := res.value.int24,
                                         uint32 := res.value.uint32, sint32 := res.value.sint32)
    ensures res.Ok? && RgbValid(c.rgb) ==> Consistent(res.value, render)
  {
    WithOpacity(c, amount, render)
  }

  /** `Color::add_opacity`: the opacity goes up by the amount and stops at 255. */
  function AddOpacity(c: Color, amount: Byte, render: HexRenderer): (res: Result<Color, Error>)
    ensures res.Ok? <==> render(HexComponents(c.rgb.r, c.rgb.g, c.rgb.b, SaturatingAdd(c.opacity, amount))).Ok?
    ensures res.Ok? ==> res.value.opacity == if c.opacity + amount > 0xFF then 0xFF else c.opacity + amount
    ensures res.Ok? ==> res.value == c.(opacity := res.value.opacity, hex := res.value.hex, int24 := res.value.int24,
                                         uint32 := res.value.uint32, sint32 := res.value.sint32)
    ensures res.Ok? && RgbValid(c.rgb) ==> Consistent(res.value, render)
  {
    WithOpacity(c, SaturatingAdd(c.opacity, amount), render)
  }

  /** `Color::sub_opacity`: the opacity goes down by the amount and stops at 0. */
  function SubOpacity(c: Color, amount: Byte, render: HexRenderer): (res: Result<Color, Error>)
    ensures res.Ok? <==> render(HexComponents(c.rgb.r, c.rgb.g, c.rgb.b, SaturatingSub(c.opacity, amount))).Ok?
    ensures res.Ok? ==> res.value.opacity == if c.opacity < amount then 0 else c.opacity - amount
    ensures res.Ok? ==> res.value == c.(opacity := res.value.opacity, hex := res.value.hex, int24 := res.value.int24,
                                         uint32 := res.value.uint32, sint32 := res.value.sint32)
    ensures res.Ok? && RgbValid(c.rgb) ==> Consistent(res.value, render)
  {
    WithOpacity(c, SaturatingSub(c.opacity, amount), render)
  }

  /** Setting a consistent colour's own opacity gives the colour back. */
  lemma ModOpacityOwn(c: Color, render: HexRenderer)
    requires Consistent(c, render)
    ensures ModOpacity(c, c.opacity, render) == Ok(c)
  {
  }

  /** Adding an amount that does not saturate and subtracting it again gives the
      original colour back, hex and integers included. */
  lemma AddThenSubOpacity(c: Color, amount: Byte, render: HexRenderer)
    requires Consistent(c, render) && c.opacity + amount <= 0xFF
    requires AddOpacity(c, amount, render).Ok?
    ensures SubOpacity(AddOpacity(c, amount, render).value, amount, render) == Ok(c)
  {
    var up := AddOpacity(c, amount, render).value;
    assert up.opacity == c.opacity + amount;
    assert SaturatingSub(up.opacity, amount) == c.opacity;
  }

  /** Subtracting an amount that does not saturate and adding it again gives the
      original colour back. */
  lemma SubThenAddOpacity(c: Color, amount: Byte, render: HexRenderer)
    requires Consistent(c, render) && amount <= c.opacity
    requires SubOpacity(c, amount, render).Ok?
    ensures AddOpacity(SubOpacity(c, amount, render).value, amount, render) == Ok(c)
  {
    var down := SubOpacity(c, amount, render).value;
    assert down.opacity == c.opacity - amount;
    assert SaturatingAdd(down.opacity, amount) == c.opacity;
  }
}
