/** The CSS filter generator: SPSA (simultaneous perturbation stochastic
    approximation) searches for the six filter values that turn black into a
    target colour. Floating-point numbers are modelled as reals; the loss, the
    random draws and the sixth root in the step size are parameters. */
module CssFilter {
  import opened Wrappers
  import opened Text
  import Colors

  // ---------------------------------------------------------------------------
  // Channels

  /** An `f32` handed to `set_rgb`, which may be infinite or NaN. */
  datatype F32 = Finite(x: real) | NotFinite

  /** `f32::clamp(0.0, 1.0)`. */
  function Clamp01(x: real): (r: real)
    ensures 0.0 <= r <= 1.0
    ensures 0.0 <= x <= 1.0 ==> r == x
    ensures x < 0.0 ==> r == 0.0
    ensures x > 1.0 ==> r == 1.0
  {
    if x < 0.0 then 0.0 else if x > 1.0 then 1.0 else x
  }

  /** A non-finite channel becomes 0 before it is clamped. */
  function Sanitize(v: F32): (r: real)
    ensures v.NotFinite? ==> r == 0.0
    ensures v.Finite? ==> r == v.x
  {
    if v.Finite? then v.x else 0.0
  }

  /** `a.mul_add(b, c)`, which is `a * b + c` (rounded once for floats). */
  function MulAdd(a: real, b: real, c: real): real {
    a * b + c
  }

  /** A channel after `invert(value)`: 0 leaves it, 1 complements it. */
  function InvertChannel(c: real, value: real): (r: real)
    ensures 0.0 <= r <= 1.0
    ensures 0.0 <= c <= 1.0 && value == 0.0 ==> r == c
    ensures 0.0 <= c <= 1.0 && value == 1.0 ==> r == 1.0 - c
  {
    Clamp01(MulAdd(c, MulAdd(2.0, -value, 1.0), value))
  }

  /** A channel after `linear(slope, intercept)`. */
  function LinearChannel(c: real, slope: real, intercept: real): (r: real)
    ensures 0.0 <= r <= 1.0
    ensures 0.0 <= c * slope + intercept <= 1.0 ==> r == c * slope + intercept
  {
    Clamp01(MulAdd(c, slope, intercept))
  }

  function ContrastIntercept(value: real): real {
    -(0.5 * value) + 0.5
  }

  /** `brightness(1.0)` leaves an in-range channel alone. */
  lemma BrightnessOne(c: real)
    requires 0.0 <= c <= 1.0
    ensures LinearChannel(c, 1.0, 0.0) == c
  {
  }

  /** `contrast(1.0)` leaves an in-range channel alone. */
  lemma ContrastOne(c: real)
    requires 0.0 <= c <= 1.0
    ensures LinearChannel(c, 1.0, ContrastIntercept(1.0)) == c
  {
  }

  /** `contrast(v)` keeps a mid-grey channel at 0.5 for every `v`. */
  lemma ContrastFixesMidpoint(value: real)
    ensures LinearChannel(0.5, value, ContrastIntercept(value)) == 0.5
  {
  }

  /** A 3x3 colour matrix, row by row (`[f32; 9]`). */
  type Matrix9 = m: seq<real> | |m| == 9 witness [0.0, 0.0, 0.0, 0.0, 0.0, 0.0, 0.0, 0.0, 0.0]

  const Identity: Matrix9 := [1.0, 0.0, 0.0, 0.0, 1.0, 0.0, 0.0, 0.0, 1.0]

  /** Row `row` of `multiply` applied to (r, g, b). */
  function MultiplyChannel(r: real, g: real, b: real, m: Matrix9, row: nat): (x: real)
    requires row < 3
    ensures 0.0 <= x <= 1.0
  {
    Clamp01(MulAdd(b, m[3 * row + 2], MulAdd(r, m[3 * row], g * m[3 * row + 1])))
  }

  /** The identity matrix leaves an in-range colour alone. */
  lemma MultiplyIdentity(r: real, g: real, b: real)
    requires 0.0 <= r <= 1.0 && 0.0 <= g <= 1.0 && 0.0 <= b <= 1.0
    ensures MultiplyChannel(r, g, b, Identity, 0) == r
    ensures MultiplyChannel(r, g, b, Identity, 1) == g
    ensures MultiplyChannel(r, g, b, Identity, 2) == b
  {
  }

  /** The matrix of `sepia(value)`. */
  function SepiaMatrix(value: real): Matrix9 {
    [ MulAdd(0.607, 1.0 - value, 0.393), MulAdd(0.769, -(1.0 - value), 0.769), MulAdd(0.189, -(1.0 - value), 0.189),
      MulAdd(0.349, -(1.0 - value), 0.349), MulAdd(0.314, 1.0 - value, 0.686), MulAdd(0.168, -(1.0 - value), 0.168),
      MulAdd(0.272, -(1.0 - value), 0.272), MulAdd(0.534, -(1.0 - value), 0.534), MulAdd(0.869, 1.0 - value, 0.131) ]
  }

  /** The matrix of `saturate(value)`. */
  function SaturateMatrix(value: real): Matrix9 {
    [ MulAdd(0.787, value, 0.213), MulAdd(0.715, -value, 0.715), MulAdd(0.072, -value, 0.072),
      MulAdd(0.213, -value, 0.213), MulAdd(0.285, value, 0.715), MulAdd(0.072, -value, 0.072),
      MulAdd(0.213, -value, 0.213), MulAdd(0.715, -value, 0.715), MulAdd(0.928, value, 0.072) ]
  }

  /** The matrix of `hue_rotate`, given the sine and cosine of the angle. */
  function HueRotateMatrix(sin: real, cos: real): Matrix9 {
    [ 0.213 + cos * 0.787 - sin * 0.213, 0.715 - cos * 0.715 - sin * 0.715, 0.072 - cos * 0.072 + sin * 0.928,
      0.213 - cos * 0.213 + sin * 0.143, 0.715 + cos * 0.285 + sin * 0.140, 0.072 - cos * 0.072 - sin * 0.283,
      0.213 - cos * 0.213 - sin * 0.787, 0.715 - cos * 0.715 + sin * 0.715, 0.072 + cos * 0.928 + sin * 0.072 ]
  }

  /** `sepia(0)`, `saturate(1)` and a rotation by 0 degrees are the identity. */
  lemma NeutralMatrices()
    ensures SepiaMatrix(0.0) == Identity
    ensures SaturateMatrix(1.0) == Identity
    ensures HueRotateMatrix(0.0, 1.0) == Identity
  {
  }

  /** `FilterColor`: three channels that every transform keeps in [0, 1]. */
  class FilterColor {
    var r: real
    var g: real
    var b: real

    predicate Valid()
      reads this
    {
      0.0 <= r <= 1.0 && 0.0 <= g <= 1.0 && 0.0 <= b <= 1.0
    }

    /** `FilterColor::new`: each byte divided by 255. */
    constructor (r: Colors.Byte, g: Colors.Byte, b: Colors.Byte)
      ensures this.r == r as real / 255.0 && this.g == g as real / 255.0 && this.b == b as real / 255.0
      ensures Valid()
    {
      this.r := r as real / 255.0;
      this.g := g as real / 255.0;
      this.b := b as real / 255.0;
    }

    /** `set_rgb`: non-finite values become 0, then each channel is clamped. */
    method SetRgb(r: F32, g: F32, b: F32)
      modifies this
      ensures this.r == Clamp01(Sanitize(r)) && this.g == Clamp01(Sanitize(g)) && this.b == Clamp01(Sanitize(b))
      ensures Valid()
    {
      this.r := Clamp01(Sanitize(r));
      this.g := Clamp01(Sanitize(g));
      this.b := Clamp01(Sanitize(b));
    }

    method Invert(value: real)
      modifies this
      ensures r == InvertChannel(old(r), value) && g == InvertChannel(old(g), value) && b == InvertChannel(old(b), value)
      ensures Valid()
    {
      var nr := InvertChannel(r, value);
      var ng := InvertChannel(g, value);
      var nb := InvertChannel(b, value);
      SetRgb(Finite(nr), Finite(ng), Finite(nb));
    }

    method Linear(slope: real, intercept: real)
      modifies this
      ensures r == LinearChannel(old(r), slope, intercept)
      ensures g == LinearChannel(old(g), slope, intercept)
      ensures b == LinearChannel(old(b), slope, intercept)
      ensures Valid()
    {
      var nr := LinearChannel(r, slope, intercept);
      var ng := LinearChannel(g, slope, intercept);
      var nb := LinearChannel(b, slope, intercept);
      SetRgb(Finite(nr), Finite(ng), Finite(nb));
    }

    method Brightness(value: real)
      modifies this
      ensures r == LinearChannel(old(r), value, 0.0)
      ensures g == LinearChannel(old(g), value, 0.0)
      ensures b == LinearChannel(old(b), value, 0.0)
      ensures Valid()
    {
      Linear(value, 0.0);
    }

    method Contrast(value: real)
      modifies this
      ensures r == LinearChannel(old(r), value, ContrastIntercept(value))
      ensures g == LinearChannel(old(g), value, ContrastIntercept(value))
      ensures b == LinearChannel(old(b), value, ContrastIntercept(value))
      ensures Valid()
    {
      Linear(value, ContrastIntercept(value));
    }

    method Multiply(m: Matrix9)
      modifies this
      ensures r == MultiplyChannel(old(r), old(g), old(b), m, 0)
      ensures g == MultiplyChannel(old(r), old(g), old(b), m, 1)
      ensures b == MultiplyChannel(old(r), old(g), old(b), m, 2)
      ensures Valid()
    {
      var nr := MultiplyChannel(r, g, b, m, 0);
      var ng := MultiplyChannel(r, g, b, m, 1);
      var nb := MultiplyChannel(r, g, b, m, 2);
      SetRgb(Finite(nr), Finite(ng), Finite(nb));
    }

    method Sepia(value: real)
      modifies this
      ensures r == MultiplyChannel(old(r), old(g), old(b), SepiaMatrix(value), 0)
      ensures g == MultiplyChannel(old(r), old(g), old(b), SepiaMatrix(value), 1)
      ensures b == MultiplyChannel(old(r), old(g), old(b), SepiaMatrix(value), 2)
      ensures Valid()
    {
      Multiply(SepiaMatrix(value));
    }

    method Saturate(value: real)
      modifies this
      ensures r == MultiplyChannel(old(r), old(g), old(b), SaturateMatrix(value), 0)
      ensures g == MultiplyChannel(old(r), old(g), old(b), SaturateMatrix(value), 1)
      ensures b == MultiplyChannel(old(r), old(g), old(b), SaturateMatrix(value), 2)
      ensures Valid()
    {
      Multiply(SaturateMatrix(value));
    }

    /** `hue_rotate`, given the sine and cosine of the angle in radians. */
    method HueRotate(sin: real, cos: real)
      modifies this
      ensures r == MultiplyChannel(old(r), old(g), old(b), HueRotateMatrix(sin, cos), 0)
      ensures g == MultiplyChannel(old(r), old(g), old(b), HueRotateMatrix(sin, cos), 1)
      ensures b == MultiplyChannel(old(r), old(g), old(b), HueRotateMatrix(sin, cos), 2)
      ensures Valid()
    {
      Multiply(HueRotateMatrix(sin, cos));
    }

    /** Sepia, saturate and hue-rotate with the settings of `s`. */
    method ApplyMatrices(s: Settings)
      modifies this
      ensures Rgb3(r, g, b) == Matrices(Rgb3(old(r), old(g), old(b)), s)
      ensures Valid()
    {
      Sepia(s.sepia);
      Saturate(s.saturate);
      HueRotate(s.sin, s.cos);
    }

    /** Brightness, then contrast, with the settings of `s`. */
    method ApplyTone(s: Settings)
      modifies this
      ensures Rgb3(r, g, b) == Tone(Rgb3(old(r), old(g), old(b)), s)
      ensures Valid()
    {
      Brightness(s.brightness);
      Contrast(s.contrast);
    }
  }

  // ---------------------------------------------------------------------------
  // The filter chain

  /** Three channels. */
  datatype Rgb3 = Rgb3(r: real, g: real, b: real)

  predicate InUnitCube(c: Rgb3) {
    0.0 <= c.r <= 1.0 && 0.0 <= c.g <= 1.0 && 0.0 <= c.b <= 1.0
  }

  function InvertRgb(c: Rgb3, value: real): Rgb3 {
    Rgb3(InvertChannel(c.r, value), InvertChannel(c.g, value), InvertChannel(c.b, value))
  }

  function LinearRgb(c: Rgb3, slope: real, intercept: real): Rgb3 {
    Rgb3(LinearChannel(c.r, slope, intercept), LinearChannel(c.g, slope, intercept), LinearChannel(c.b, slope, intercept))
  }

  function MultiplyRgb(c: Rgb3, m: Matrix9): Rgb3 {
    Rgb3(MultiplyChannel(c.r, c.g, c.b, m, 0), MultiplyChannel(c.r, c.g, c.b, m, 1), MultiplyChannel(c.r, c.g, c.b, m, 2))
  }

  /** The percentages and the hue angle of a filter, as the transforms take
      them: fractions, and the sine and cosine of the angle in degrees, which
      `trig` gives. */
  datatype Settings = Settings(invert: real, sepia: real, saturate: real, sin: real, cos: real,
                               brightness: real, contrast: real)

  function SettingsOf(v: seq<real>, trig: real -> (real, real)): Settings
    requires |v| == 6
  {
    var t := trig(v[3] * 3.6);
    Settings(v[0] / 100.0, v[1] / 100.0, v[2] / 100.0, t.0, t.1, v[4] / 100.0, v[5] / 100.0)
  }

  /** The three matrix transforms, in the order `loss` applies them. */
  function Matrices(c: Rgb3, s: Settings): Rgb3 {
    var c1 := MultiplyRgb(c, SepiaMatrix(s.sepia));
    var c2 := MultiplyRgb(c1, SaturateMatrix(s.saturate));
    MultiplyRgb(c2, HueRotateMatrix(s.sin, s.cos))
  }

  /** Brightness, then contrast. */
  function Tone(c: Rgb3, s: Settings): Rgb3 {
    LinearRgb(LinearRgb(c, s.brightness, 0.0), s.contrast, ContrastIntercept(s.contrast))
  }

  /** The six transforms in the order `loss` applies them; every result is a
      colour in range. */
  function ApplyAll(c: Rgb3, s: Settings): (d: Rgb3)
    ensures InUnitCube(d)
  {
    Tone(Matrices(InvertRgb(c, s.invert), s), s)
  }

  /** The colour the six filters make of black. */
  function FilteredBlack(v: seq<real>, trig: real -> (real, real)): (c: Rgb3)
    requires |v| == 6
    ensures InUnitCube(c)
  {
    ApplyAll(Rgb3(0.0, 0.0, 0.0), SettingsOf(v, trig))
  }

  /** `sepia(0)`, `saturate(1)`, a rotation by 0 degrees, `brightness(1)` and
      `contrast(1)` leave every in-range colour alone. */
  lemma NeutralSettings(c: Rgb3, s: Settings)
    requires InUnitCube(c)
    requires s.sepia == 0.0 && s.saturate == 1.0 && s.sin == 0.0 && s.cos == 1.0
    requires s.brightness == 1.0 && s.contrast == 1.0
    ensures Tone(Matrices(c, s), s) == c
  {
    NeutralMatrices();
    MultiplyIdentity(c.r, c.g, c.b);
    assert Matrices(c, s) == c;
    BrightnessOne(c.r);
    BrightnessOne(c.g);
    BrightnessOne(c.b);
    ContrastOne(c.r);
    ContrastOne(c.g);
    ContrastOne(c.b);
  }

  /** Black under `invert(x)` with every other filter neutral is grey `x`
      when `x` is 0 or 1. */
  lemma NeutralOnBlack(s: Settings)
    requires s.invert == 0.0 || s.invert == 1.0
    requires s.sepia == 0.0 && s.saturate == 1.0 && s.sin == 0.0 && s.cos == 1.0
    requires s.brightness == 1.0 && s.contrast == 1.0
    ensures ApplyAll(Rgb3(0.0, 0.0, 0.0), s) == Rgb3(s.invert, s.invert, s.invert)
  {
    var c := InvertRgb(Rgb3(0.0, 0.0, 0.0), s.invert);
    assert c == Rgb3(s.invert, s.invert, s.invert);
    NeutralSettings(c, s);
  }

  /** With every other filter neutral, `invert(0%)` leaves black black and
      `invert(100%)` turns it white. */
  lemma NeutralChain(trig: real -> (real, real), invert: real)
    requires trig(0.0) == (0.0, 1.0)
    requires invert == 0.0 || invert == 100.0
    ensures FilteredBlack([invert, 0.0, 100.0, 0.0, 100.0, 100.0], trig)
            == if invert == 0.0 then Rgb3(0.0, 0.0, 0.0) else Rgb3(1.0, 1.0, 1.0)
  {
    var s := SettingsOf([invert, 0.0, 100.0, 0.0, 100.0, 100.0], trig);
    assert s == Settings(invert / 100.0, 0.0, 1.0, 0.0, 1.0, 1.0, 1.0);
    NeutralOnBlack(s);
  }

  // ---------------------------------------------------------------------------
  // The filter values

  /** The six filter values: invert, sepia, saturate, hue-rotate, brightness, contrast. */
  type Values = v: seq<real> | |v| == 6 witness [0.0, 0.0, 0.0, 0.0, 0.0, 0.0]

  /** The upper bound `fix` keeps each filter value under. */
  function MaxOf(idx: nat): real {
    if idx == 2 then 7500.0 else if idx == 4 || idx == 5 then 200.0 else 100.0
  }

  predicate InBounds(v: real, idx: nat) {
    0.0 <= v <= MaxOf(idx)
  }

  /** Rounding toward zero. */
  function Trunc(x: real): (n: int)
    ensures x >= 0.0 ==> n as real <= x < n as real + 1.0
    ensures x < 0.0 ==> n as real - 1.0 < x <= n as real
  {
    if x >= 0.0 then x.Floor else -((-x).Floor)
  }

  /** `%` on floats: the remainder of division truncated toward zero, which
      takes the sign of the dividend. */
  function FMod(x: real, m: real): (r: real)
    requires m > 0.0
    ensures x >= 0.0 ==> 0.0 <= r < m
    ensures x < 0.0 ==> -m < r <= 0.0
    ensures r == x - m * Trunc(x / m) as real
  {
    var y := x / m;
    assert x == y * m;
    assert x >= 0.0 <==> y >= 0.0;
    var q: real := Trunc(y) as real;
    Distribute(x, m, y, q);
    ScaledFraction(x - m * q, m, y - q);
    x - m * q
  }

  /** A remainder `r` that is `m` times a fraction `d` lies within `m` of zero,
      on the side of `d`. */
  lemma ScaledFraction(r: real, m: real, d: real)
    requires m > 0.0 && r == m * d
    ensures 0.0 <= d < 1.0 ==> 0.0 <= r < m
    ensures -1.0 < d <= 0.0 ==> -m < r <= 0.0
  {
    if 0.0 <= d < 1.0 {
      ScaledUp(m, d);
    }
    if -1.0 < d <= 0.0 {
      ScaledDown(m, d);
    }
  }

  lemma Distribute(x: real, m: real, y: real, q: real)
    requires m > 0.0 && y == x / m
    ensures x - m * q == m * (y - q)
  {
    assert x == m * y;
  }

  lemma ScaledDown(m: real, d: real)
    requires m > 0.0 && -1.0 < d <= 0.0
    ensures -m < m * d <= 0.0
  {
    var e := d + 1.0;
    assert e > 0.0;
    assert m * e > 0.0;
    assert m * e == m * d + m;
    assert m * -d >= 0.0;
  }

  lemma ScaledUp(m: real, d: real)
    requires m > 0.0 && 0.0 <= d < 1.0
    ensures 0.0 <= m * d < m
  {
    assert m * d < m * 1.0;
  }

  /** `n` turns of the hue. */
  function Turns(n: int): real {
    n as real * 100.0
  }

  /** A difference that is a whole number of hue turns. */
  ghost predicate WholeTurns(d: real) {
    exists n: int :: d == Turns(n)
  }

  /** `fix`: the hue (index 3) wraps into [0, 100] by whole turns, landing
      below 100 from above and above 0 from below; every other value is
      clamped into [0, max]; a value already in range is kept. */
  function Fix(value: real, idx: nat): (r: real)
    ensures InBounds(r, idx)
    ensures InBounds(value, idx) ==> r == value
    ensures idx != 3 && value < 0.0 ==> r == 0.0
    ensures idx != 3 && value > MaxOf(idx) ==> r == MaxOf(idx)
    ensures idx == 3 ==> WholeTurns(r - value)
    ensures idx == 3 && value > MaxOf(idx) ==> r < MaxOf(idx)
    ensures idx == 3 && value < 0.0 ==> r > 0.0
  {
    var max := MaxOf(idx);
    if idx == 3 then
      if value > max then
        var r := FMod(value, max);
        assert r - value == Turns(-Trunc(value / max));
        r
      else if value < 0.0 then
        var r := max + FMod(value, max);
        assert r - value == Turns(1 - Trunc(value / max));
        r
      else
        assert value - value == Turns(0);
        value
    else if value < 0.0 then 0.0
    else if value > max then max
    else value
  }

  /** The hue clauses of `Fix` leave one result: a hue in range that differs
      from the input by whole turns, is kept when the input is in range, lands
      below 100 from above and above 0 from below, is `Fix`'s. */
  lemma FixHueDetermined(value: real, r: real)
    requires InBounds(r, 3) && WholeTurns(r - value)
    requires InBounds(value, 3) ==> r == value
    requires value > MaxOf(3) ==> r < MaxOf(3)
    requires value < 0.0 ==> r > 0.0
    ensures r == Fix(value, 3)
  {
    var f := Fix(value, 3);
    var n: int :| r - value == Turns(n);
    var m: int :| f - value == Turns(m);
    assert r - f == (n - m) as real * 100.0;
  }

  /** At whole turns outside the range the hue lands on 0 from above and on
      100 from below. */
  lemma FixHueAtTurns()
    ensures Fix(200.0, 3) == 0.0
    ensures Fix(-100.0, 3) == 100.0
  {
    assert Trunc(200.0 / 100.0) == 2;
    assert Trunc(-100.0 / 100.0) == -1;
  }

  /** The values pinned by the unit tests of `fix`. */
  lemma FixExamples()
    ensures Fix(8000.0, 2) == 7500.0
    ensures Fix(-10.0, 2) == 0.0
    ensures Fix(5000.0, 2) == 5000.0
    ensures Fix(150.0, 3) == 50.0
    ensures Fix(-50.0, 3) == 50.0
  {
    assert Trunc(150.0 / 100.0) == 1;
    assert Trunc(-50.0 / 100.0) == 0;
  }

  const I32Min: int := -0x8000_0000
  const I32Max: int := 0x7FFF_FFFF

  /** `as i32` on a float: saturating. */
  function SatI32(n: int): (r: int)
    ensures I32Min <= r <= I32Max
    ensures I32Min <= n <= I32Max ==> r == n
  {
    if n < I32Min then I32Min else if n > I32Max then I32Max else n
  }

  /** The six integers `css` prints: each value rounded, the hue turned from
      hundredths of a turn into degrees first. */
  function CssFields(v: Values): seq<int>
  {
    [SatI32(Colors.Round(v[0])), SatI32(Colors.Round(v[1])), SatI32(Colors.Round(v[2])),
     SatI32(Colors.Round(v[3] * 3.6)), SatI32(Colors.Round(v[4])), SatI32(Colors.Round(v[5]))]
  }

  /** The six space-free pieces of the CSS text, one per filter, in chain order. */
  function CssParts(ns: seq<int>): (ps: seq<string>)
    requires |ns| == 6
    ensures |ps| == 6
  {
    ["invert(" + IntToString(ns[0]) + "%)", "sepia(" + IntToString(ns[1]) + "%)",
     "saturate(" + IntToString(ns[2]) + "%)", "hue-rotate(" + IntToString(ns[3]) + "deg)",
     "brightness(" + IntToString(ns[4]) + "%)", "contrast(" + IntToString(ns[5]) + "%)"]
  }

  lemma NoSpaceInInt(n: int)
    ensures ' ' !in IntToString(n)
  {
    var s := IntToString(n);
    forall i | 0 <= i < |s| ensures s[i] != ' ' {
      assert i == 0 || IsDigit(s[i]);
    }
  }

  /** `FilterResult::css`: the six filter functions separated by single spaces. */
  function Css(v: Values): string {
    Join(CssParts(CssFields(v)), " ")
  }

  /** The CSS text is the six filter functions separated by single spaces;
      splitting it on spaces gives them back, each with its own value. */
  lemma CssSplit(v: Values)
    ensures Split(Css(v), ' ') == CssParts(CssFields(v))
  {
    var ps := CssParts(CssFields(v));
    PartsHaveNoSpace(CssFields(v));
    assert " " == [' '];
    SplitJoin(ps, ' ');
  }

  /** A filter function around a printed integer has no space in it. */
  lemma NoSpaceInPart(name: string, n: int, unit: string)
    requires ' ' !in name && ' ' !in unit
    ensures ' ' !in name + IntToString(n) + unit
  {
    NoSpaceInInt(n);
  }

  lemma PartsHaveNoSpace(ns: seq<int>)
    requires |ns| == 6
    ensures forall i :: 0 <= i < 6 ==> ' ' !in CssParts(ns)[i]
  {
    NoSpaceInPart("invert(", ns[0], "%)");
    NoSpaceInPart("sepia(", ns[1], "%)");
    NoSpaceInPart("saturate(", ns[2], "%)");
    NoSpaceInPart("hue-rotate(", ns[3], "deg)");
    NoSpaceInPart("brightness(", ns[4], "%)");
    NoSpaceInPart("contrast(", ns[5], "%)");
  }

  /** The six printed integers of the starting point of the wide search. */
  lemma CssFieldsOfInitial()
    ensures CssFields([50.0, 20.0, 3750.0, 50.0, 100.0, 100.0]) == [50, 20, 3750, 180, 100, 100]
  {
    assert Colors.Round(50.0) == 50 && Colors.Round(20.0) == 20 && Colors.Round(3750.0) == 3750;
    assert Colors.Round(50.0 * 3.6) == 180 && Colors.Round(100.0) == 100;
  }

  lemma InitialNumerals()
    ensures IntToString(50) == "50" && IntToString(20) == "20" && IntToString(3750) == "3750"
    ensures IntToString(180) == "180" && IntToString(100) == "100"
  {
    assert NatToString(50) == "50";
    assert NatToString(3750) == "3750";
  }

  lemma InitialParts()
    ensures CssParts([50, 20, 3750, 180, 100, 100])
         == ["invert(50%)", "sepia(20%)", "saturate(3750%)", "hue-rotate(180deg)", "brightness(100%)", "contrast(100%)"]
  {
    InitialNumerals();
    assert "invert(" + "50" + "%)" == "invert(50%)";
    assert "sepia(" + "20" + "%)" == "sepia(20%)";
    assert "saturate(" + "3750" + "%)" == "saturate(3750%)";
    assert "hue-rotate(" + "180" + "deg)" == "hue-rotate(180deg)";
    assert "brightness(" + "100" + "%)" == "brightness(100%)";
    assert "contrast(" + "100" + "%)" == "contrast(100%)";
  }

  /** The starting point of the wide search prints as the middle of each range. */
  lemma CssOfInitial()
    ensures Split(Css([50.0, 20.0, 3750.0, 50.0, 100.0, 100.0]), ' ')
         == ["invert(50%)", "sepia(20%)", "saturate(3750%)", "hue-rotate(180deg)", "brightness(100%)", "contrast(100%)"]
  {
    var v: Values := [50.0, 20.0, 3750.0, 50.0, 100.0, 100.0];
    CssSplit(v);
    CssFieldsOfInitial();
    InitialParts();
  }

  /** Each value is rounded on its own, and the hue is turned into degrees
      before rounding: 57.5 hundredths of a turn print as 207 degrees. */
  lemma CssFieldsExample()
    ensures CssFields([69.3, 15.0, 3742.4, 57.5, 122.0, 118.0]) == [69, 15, 3742, 207, 122, 118]
  {
    assert Colors.Round(69.3) == 69 && Colors.Round(15.0) == 15 && Colors.Round(3742.4) == 3742;
    assert Colors.Round(57.5 * 3.6) == 207 && Colors.Round(122.0) == 122 && Colors.Round(118.0) == 118;
  }

  /** Values within their bounds print within the declared ranges: the hue in
      [0, 360] degrees, saturate in [0, 7500], brightness and contrast in
      [0, 200], the rest in [0, 100]. */
  lemma CssFieldsInRange(v: Values)
    requires forall i :: 0 <= i < 6 ==> InBounds(v[i], i)
    ensures var ns := CssFields(v);
            && (forall i :: 0 <= i < 6 && i != 3 ==> 0 <= ns[i] <= MaxOf(i).Floor)
            && 0 <= ns[3] <= 360
  {
    forall i | 0 <= i < 6 && i != 3 ensures 0 <= Colors.Round(v[i]) <= MaxOf(i).Floor {
      assert InBounds(v[i], i);
    }
    assert 0.0 <= v[3] * 3.6 <= 360.0 by { assert InBounds(v[3], 3); }
  }

  /** The transforms `loss` applies to a fresh black colour before it
      measures the result. */
  method ApplyFilters(v: Values, trig: real -> (real, real)) returns (color: FilterColor)
    ensures fresh(color) && color.Valid()
    ensures Rgb3(color.r, color.g, color.b) == FilteredBlack(v, trig)
  {
    var s := SettingsOf(v, trig);
    color := new FilterColor(0, 0, 0);
    color.Invert(s.invert);
    color.ApplyMatrices(s);
    color.ApplyTone(s);
  }

  // ---------------------------------------------------------------------------
  // The solver

  /** A channel turned back into a byte: `(x * 255.0).round() as u32`. */
  function ChannelByte(x: real): (n: int)
    ensures 0.0 <= x <= 1.0 ==> 0 <= n <= 255
  {
    Colors.Round(x * 255.0)
  }

  /** A byte divided by 255 comes back as the same byte. */
  lemma ChannelByteOfByte(b: Colors.Byte)
    ensures ChannelByte(b as real / 255.0) == b
  {
  }

  /** `Solver::new`'s seed: red in bits 0-15, green in bits 16-31, blue from
      bit 32. The three bytes can be read back from it. */
  function Seed(r: Colors.Byte, g: Colors.Byte, b: Colors.Byte): (seed: nat)
    ensures seed < 0x100_0000_0000
    ensures seed % 0x1_0000 == r && (seed / 0x1_0000) % 0x1_0000 == g && seed / 0x1_0000_0000 == b
  {
    r + g * 0x1_0000 + b * 0x1_0000_0000
  }

  /** Different colours get different seeds. */
  lemma SeedInjective(r: Colors.Byte, g: Colors.Byte, b: Colors.Byte, r': Colors.Byte, g': Colors.Byte, b': Colors.Byte)
    requires Seed(r, g, b) == Seed(r', g', b')
    ensures r == r' && g == g' && b == b'
  {
  }

  /** A solver: its seed, the loss of a set of values against its target
      (`loss`, which goes through `hsl_lossy` and `css_colors`), whether the
      `j`-th draw of the generator seeded with `seed` exceeds 0.5 (`draw`), and
      the sixth root of `k + 1` (`sixthRoot(k)`, the `powf` in the step size). */
  datatype Solver = Solver(seed: nat, loss: Values -> real, draw: (nat, nat) -> bool, sixthRoot: nat -> real)

  ghost predicate SolverValid(s: Solver) {
    forall k: nat :: s.sixthRoot(k) > 0.0
  }

  /** `Solver::new` for the colour with channels (r, g, b). */
  function NewSolver(r: real, g: real, b: real, loss: Values -> real, draw: (nat, nat) -> bool, sixthRoot: nat -> real)
    : (s: Solver)
    requires 0.0 <= r <= 1.0 && 0.0 <= g <= 1.0 && 0.0 <= b <= 1.0
    ensures s.seed == Seed(ChannelByte(r), ChannelByte(g), ChannelByte(b))
  {
    Solver(Seed(ChannelByte(r), ChannelByte(g), ChannelByte(b)), loss, draw, sixthRoot)
  }

  /** The arguments of one `spsa` run. */
  datatype SpsaArgs = SpsaArgs(bigA: real, a: Values, c: real, initial: Values, iters: nat)

  /** A loss that may still be infinite. */
  datatype Loss = Fin(v: real) | Infinity

  /** `FilterResult`. */
  datatype FilterResult = FilterResult(values: Values, loss: Loss)

  /** `x < y` for losses. */
  predicate Below(x: Loss, y: Loss) {
    x.Fin? && (y.Infinity? || x.v < y.v)
  }

  /** `as u32` on a float: truncated toward zero and saturated. */
  function U32Of(x: real): (n: nat)
    ensures n <= 0xFFFF_FFFF
    ensures 0.0 <= x < 0x1_0000_0000 as real ==> n == x.Floor
  {
    if x <= 0.0 then 0 else if x >= 0xFFFF_FFFF as real then 0xFFFF_FFFF else x.Floor
  }

  /** The ±1 perturbation of value `i` in iteration `k`: the draws are taken
      six per iteration, in order. */
  function Delta(s: Solver, k: nat, i: nat): real {
    if s.draw(s.seed, k * 6 + i) then 1.0 else -1.0
  }

  /** `ck`, the perturbation size of iteration `k`. */
  function Ck(s: Solver, args: SpsaArgs, k: nat): (ck: real)
    requires SolverValid(s) && args.c != 0.0
    ensures ck != 0.0
  {
    assert s.sixthRoot(k) > 0.0;
    args.c / s.sixthRoot(k)
  }

  /** `ak` for value `i` in iteration `k` (alpha is 1). */
  function Ak(args: SpsaArgs, k: nat, i: nat): real
    requires i < 6
  {
    args.a[i] / (U32Of(args.bigA) + k + 1) as real
  }

  /** The high probe point of iteration `k`. */
  function High(s: Solver, args: SpsaArgs, values: Values, k: nat): Values
    requires SolverValid(s) && args.c != 0.0
  {
    seq(6, i requires 0 <= i < 6 => values[i] + Ck(s, args, k) * Delta(s, k, i))
  }

  /** The low probe point of iteration `k`. */
  function Low(s: Solver, args: SpsaArgs, values: Values, k: nat): Values
    requires SolverValid(s) && args.c != 0.0
  {
    seq(6, i requires 0 <= i < 6 => values[i] - Ck(s, args, k) * Delta(s, k, i))
  }

  /** The two probe points of an iteration lie symmetrically about the
      current values, `2 * ck` apart in every coordinate and on opposite sides
      of it, so their loss difference estimates the gradient. */
  lemma ProbesSymmetric(s: Solver, args: SpsaArgs, values: Values, k: nat)
    requires SolverValid(s) && args.c != 0.0
    ensures var h, l := High(s, args, values, k), Low(s, args, values, k);
            |h| == 6 && |l| == 6 &&
            forall i :: 0 <= i < 6 ==>
              (h[i] + l[i]) / 2.0 == values[i] && h[i] - l[i] == 2.0 * Ck(s, args, k) * Delta(s, k, i)
              && h[i] != l[i]
  {
  }

  /** Six values each `ck * delta` above `values` are the high point. */
  lemma HighIs(s: Solver, args: SpsaArgs, values: Values, k: nat, ck: real, h: seq<real>)
    requires SolverValid(s) && args.c != 0.0 && ck == Ck(s, args, k)
    requires |h| == 6 && forall j :: 0 <= j < 6 ==> h[j] == values[j] + ck * Delta(s, k, j)
    ensures h == High(s, args, values, k)
  {
  }

  /** Six values each `ck * delta` below `values` are the low point. */
  lemma LowIs(s: Solver, args: SpsaArgs, values: Values, k: nat, ck: real, l: seq<real>)
    requires SolverValid(s) && args.c != 0.0 && ck == Ck(s, args, k)
    requires |l| == 6 && forall j :: 0 <= j < 6 ==> l[j] == values[j] - ck * Delta(s, k, j)
    ensures l == Low(s, args, values, k)
  {
  }

  /** The loss difference between the two perturbed points. */
  function LossDiff(s: Solver, args: SpsaArgs, values: Values, k: nat): real
    requires SolverValid(s) && args.c != 0.0
  {
    s.loss(High(s, args, values, k)) - s.loss(Low(s, args, values, k))
  }

  /** Value `i` moved against its gradient estimate, before `fix`. */
  function Moved(s: Solver, args: SpsaArgs, values: Values, k: nat, i: nat): real
    requires SolverValid(s) && args.c != 0.0 && i < 6
  {
    values[i] - Ak(args, k, i) * (LossDiff(s, args, values, k) / (2.0 * Ck(s, args, k)) * Delta(s, k, i))
  }

  /** Six values each moved and fixed as `Step` says are the next point. */
  lemma StepIs(s: Solver, args: SpsaArgs, values: Values, k: nat, next: seq<real>)
    requires SolverValid(s) && args.c != 0.0
    requires |next| == 6 && forall j :: 0 <= j < 6 ==> next[j] == Fix(Moved(s, args, values, k, j), j)
    ensures next == Step(s, args, values, k)
  {
  }

  /** One SPSA iteration: every value moves against the estimated gradient
      and then goes through `fix`, which keeps it within its bounds. */
  function Step(s: Solver, args: SpsaArgs, values: Values, k: nat): (next: Values)
    requires SolverValid(s) && args.c != 0.0
    ensures forall i :: 0 <= i < 6 ==> next[i] == Fix(Moved(s, args, values, k, i), i)
    ensures forall i :: 0 <= i < 6 ==> InBounds(next[i], i)
  {
    seq(6, i requires 0 <= i < 6 => Fix(Moved(s, args, values, k, i), i))
  }

  /** The values after `n` iterations. */
  function Iterate(s: Solver, args: SpsaArgs, n: nat): (v: Values)
    requires SolverValid(s) && args.c != 0.0
    ensures n > 0 ==> forall i :: 0 <= i < 6 ==> InBounds(v[i], i)
  {
    if n == 0 then args.initial else Step(s, args, Iterate(s, args, n - 1), n - 1)
  }

  /** The loss after iteration `k`. */
  function LossAt(s: Solver, args: SpsaArgs, k: nat): real
    requires SolverValid(s) && args.c != 0.0
  {
    s.loss(Iterate(s, args, k + 1))
  }

  function BestLoss(best: Option<FilterResult>): Loss {
    if best.None? then Infinity else best.value.loss
  }

  /** The best result after `n` iterations: replaced only by a strictly
      lower loss. */
  function BestAfter(s: Solver, args: SpsaArgs, n: nat): Option<FilterResult>
    requires SolverValid(s) && args.c != 0.0
  {
    if n == 0 then None
    else
      var prev := BestAfter(s, args, n - 1);
      var loss := LossAt(s, args, n - 1);
      if Below(Fin(loss), BestLoss(prev)) then Some(FilterResult(Iterate(s, args, n), Fin(loss))) else prev
  }

  /** What `spsa` returns. */
  function SpsaResult(s: Solver, args: SpsaArgs): FilterResult
    requires SolverValid(s) && args.c != 0.0
  {
    var best := BestAfter(s, args, args.iters);
    if best.Some? then best.value else FilterResult(Iterate(s, args, args.iters), BestLoss(best))
  }

  /** Iteration `j` has the lowest loss of the first `n`, and every earlier
      iteration has a strictly higher one. */
  predicate EarliestBest(s: Solver, args: SpsaArgs, n: nat, j: nat)
    requires SolverValid(s) && args.c != 0.0
  {
    && j < n
    && (forall k :: 0 <= k < n ==> LossAt(s, args, j) <= LossAt(s, args, k))
    && (forall k :: 0 <= k < j ==> LossAt(s, args, j) < LossAt(s, args, k))
  }

  lemma {:induction false} BestAfterIsEarliest(s: Solver, args: SpsaArgs, n: nat)
    requires SolverValid(s) && args.c != 0.0
    requires n > 0
    ensures exists j: nat :: EarliestBest(s, args, n, j) &&
              BestAfter(s, args, n) == Some(FilterResult(Iterate(s, args, j + 1), Fin(LossAt(s, args, j))))
  {
    if n == 1 {
      assert BestAfter(s, args, 0) == None;
      assert EarliestBest(s, args, 1, 0);
    } else {
      BestAfterIsEarliest(s, args, n - 1);
      var j: nat :| EarliestBest(s, args, n - 1, j) &&
                BestAfter(s, args, n - 1) == Some(FilterResult(Iterate(s, args, j + 1), Fin(LossAt(s, args, j))));
      if LossAt(s, args, n - 1) < LossAt(s, args, j) {
        assert EarliestBest(s, args, n, n - 1);
      } else {
        assert EarliestBest(s, args, n, j);
      }
    }
  }

  /** `spsa` returns the earliest iterate with the lowest loss, and without
      iterations the starting values with an infinite loss. */
  lemma SpsaReturnsEarliestBest(s: Solver, args: SpsaArgs)
    requires SolverValid(s) && args.c != 0.0
    ensures args.iters == 0 ==> SpsaResult(s, args) == FilterResult(args.initial, Infinity)
    ensures args.iters > 0 ==>
              exists j: nat :: EarliestBest(s, args, args.iters, j) &&
                SpsaResult(s, args) == FilterResult(Iterate(s, args, j + 1), Fin(LossAt(s, args, j)))
  {
    if args.iters > 0 {
      BestAfterIsEarliest(s, args, args.iters);
    }
  }

  /** After at least one iteration every returned value is within its bounds. */
  lemma SpsaInBounds(s: Solver, args: SpsaArgs)
    requires SolverValid(s) && args.c != 0.0
    requires args.iters > 0
    ensures SpsaResult(s, args).loss.Fin?
    ensures forall i :: 0 <= i < 6 ==> InBounds(SpsaResult(s, args).values[i], i)
  {
    SpsaReturnsEarliestBest(s, args);
  }

  /** The first half of the body of the loop of `spsa`: draw the six ±1
      perturbations and take the loss difference of the two perturbed points. */
  method Perturb(s: Solver, args: SpsaArgs, values: array<real>, k: nat) returns (deltas: array<real>, lossDiff: real)
    requires SolverValid(s) && args.c != 0.0 && values.Length == 6
    ensures fresh(deltas) && deltas.Length == 6
    ensures forall j :: 0 <= j < 6 ==> deltas[j] == Delta(s, k, j)
    ensures lossDiff == LossDiff(s, args, values[..], k)
  {
    var v := values[..];
    var ck := args.c / s.sixthRoot(k);
    assert ck == Ck(s, args, k);
    deltas := new real[6];
    var highArgs := new real[6];
    var lowArgs := new real[6];
    for i := 0 to 6
      invariant forall j :: 0 <= j < i ==> deltas[j] == Delta(s, k, j)
      invariant forall j :: 0 <= j < i ==> highArgs[j] == v[j] + ck * Delta(s, k, j)
      invariant forall j :: 0 <= j < i ==> lowArgs[j] == v[j] - ck * Delta(s, k, j)
    {
      deltas[i] := if s.draw(s.seed, k * 6 + i) then 1.0 else -1.0;
      var offset := ck * deltas[i];
      highArgs[i] := v[i] + offset;
      lowArgs[i] := v[i] - offset;
    }
    HighIs(s, args, v, k, ck, highArgs[..]);
    LowIs(s, args, v, k, ck, lowArgs[..]);
    lossDiff := s.loss(highArgs[..]) - s.loss(lowArgs[..]);
  }

  /** The body of the loop of `spsa`: perturb, then move every value in place. */
  method Iteration(s: Solver, args: SpsaArgs, values: array<real>, k: nat)
    requires SolverValid(s) && args.c != 0.0 && values.Length == 6
    modifies values
    ensures values[..] == Step(s, args, old(values[..]), k)
  {
    var prev: Values := values[..];
    var deltas, lossDiff := Perturb(s, args, values, k);
    var ck := args.c / s.sixthRoot(k);
    assert ck == Ck(s, args, k);
    assert lossDiff == LossDiff(s, args, prev, k);
    for i := 0 to 6
      invariant forall j :: 0 <= j < 6 ==> deltas[j] == Delta(s, k, j)
      invariant forall j :: 0 <= j < i ==> values[j] == Fix(Moved(s, args, prev, k, j), j)
      invariant forall j :: i <= j < 6 ==> values[j] == prev[j]
    {
      var g := lossDiff / (2.0 * ck) * deltas[i];
      var ak := args.a[i] / (U32Of(args.bigA) + k + 1) as real;
      assert g == LossDiff(s, args, prev, k) / (2.0 * Ck(s, args, k)) * Delta(s, k, i);
      assert ak == Ak(args, k, i);
      assert values[i] - ak * g == Moved(s, args, prev, k, i);
      values[i] := Fix(values[i] - ak * g, i);
    }
    StepIs(s, args, prev, k, values[..]);
  }

  /** `Solver::spsa`. */
  method Spsa(s: Solver, args: SpsaArgs) returns (res: FilterResult)
    requires SolverValid(s) && args.c != 0.0
    ensures res == SpsaResult(s, args)
  {
    var best: Option<FilterResult> := None;
    var bestLoss := Infinity;
    var values := new real[6];
    for i := 0 to 6
      invariant values[..i] == args.initial[..i]
    {
      values[i] := args.initial[i];
    }
    assert values[..] == args.initial[..6];
    for k := 0 to args.iters
      invariant values[..] == Iterate(s, args, k)
      invariant best == BestAfter(s, args, k) && bestLoss == BestLoss(best)
    {
      Iteration(s, args, values, k);
      var loss := s.loss(values[..]);
      if Below(Fin(loss), bestLoss) {
        best := Some(FilterResult(values[..], Fin(loss)));
        bestLoss := Fin(loss);
      }
    }
    if best.Some? {
      res := best.value;
    } else {
      res := FilterResult(values[..], bestLoss);
    }
  }

  // ---------------------------------------------------------------------------
  // Wide and narrow search

  const WideArgs := SpsaArgs(5.0, [60.0, 180.0, 18000.0, 600.0, 1.2, 1.2], 15.0, [50.0, 20.0, 3750.0, 50.0, 100.0, 100.0], 3000)

  const Unsolved := FilterResult([0.0, 0.0, 0.0, 0.0, 0.0, 0.0], Infinity)

  predicate GoodEnough(l: Loss) {
    l.Fin? && l.v <= 5.0
  }

  /** The loop of `solve_wide` with `n` attempts left: stop once the best loss
      is at most 5, otherwise keep an attempt that is strictly better. */
  function WideLoop(best: FilterResult, attempt: FilterResult, n: nat): FilterResult
    decreases n
  {
    if n == 0 || GoodEnough(best.loss) then best
    else WideLoop(if Below(attempt.loss, best.loss) then attempt else best, attempt, n - 1)
  }

  /** The wide search never makes the best result worse. */
  lemma {:induction false} WideLoopNeverWorse(best: FilterResult, attempt: FilterResult, n: nat)
    ensures var r := WideLoop(best, attempt, n);
            (r == best || r == attempt) && !Below(best.loss, r.loss)
    decreases n
  {
    if n > 0 && !GoodEnough(best.loss) {
      var next := if Below(attempt.loss, best.loss) then attempt else best;
      WideLoopNeverWorse(next, attempt, n - 1);
      WideLoopNeverWorse(attempt, attempt, n - 1);
    }
  }

  /** Each attempt of the wide search restarts the generator from the same
      seed and the same starting values, so all ten are the same run: the wide
      search returns that run's result. */
  lemma SolveWideIsOneRun(s: Solver)
    requires SolverValid(s)
    ensures WideLoop(Unsolved, SpsaResult(s, WideArgs), 10) == SpsaResult(s, WideArgs)
    ensures SpsaResult(s, WideArgs).loss.Fin?
  {
    var att := SpsaResult(s, WideArgs);
    SpsaInBounds(s, WideArgs);
    assert WideLoop(Unsolved, att, 10) == WideLoop(att, att, 9);
    WideLoopSame(att, 9);
  }

  lemma {:induction false} WideLoopSame(att: FilterResult, n: nat)
    ensures WideLoop(att, att, n) == att
    decreases n
  {
    if n > 0 && !GoodEnough(att.loss) {
      WideLoopSame(att, n - 1);
    }
  }

  /** `Solver::solve_wide`. */
  method SolveWide(s: Solver) returns (best: FilterResult)
    requires SolverValid(s)
    ensures best == WideLoop(Unsolved, SpsaResult(s, WideArgs), 10)
  {
    best := Unsolved;
    ghost var attempt := SpsaResult(s, WideArgs);
    for t := 0 to 10
      invariant WideLoop(Unsolved, attempt, 10) == WideLoop(best, attempt, 10 - t)
    {
      if GoodEnough(best.loss) {
        break;
      }
      var result := Spsa(s, WideArgs);
      if Below(result.loss, best.loss) {
        best := result;
      }
    }
  }

  /** The arguments of `solve_narrow`: a finer search from the wide result,
      its step sizes scaled by the wide loss. */
  function NarrowArgs(wide: FilterResult): SpsaArgs
    requires wide.loss.Fin?
  {
    var a1 := wide.loss.v + 1.0;
    SpsaArgs(wide.loss.v, [0.25 * a1, 0.25 * a1, a1, 0.25 * a1, 0.2 * a1, 0.2 * a1], 2.0, wide.values, 1000)
  }

  /** `Solver::solve`: the narrow search from the wide search's result. */
  function SolveResult(s: Solver): FilterResult
    requires SolverValid(s)
  {
    SolveWideIsOneRun(s);
    SpsaResult(s, NarrowArgs(SpsaResult(s, WideArgs)))
  }

  /** Every value `solve` returns is within its bounds and its loss is finite. */
  lemma SolveInBounds(s: Solver)
    requires SolverValid(s)
    ensures SolveResult(s).loss.Fin?
    ensures forall i :: 0 <= i < 6 ==> InBounds(SolveResult(s).values[i], i)
  {
    SolveWideIsOneRun(s);
    SpsaInBounds(s, NarrowArgs(SpsaResult(s, WideArgs)));
  }

  method Solve(s: Solver) returns (res: FilterResult)
    requires SolverValid(s)
    ensures res == SolveResult(s)
  {
    var wide := SolveWide(s);
    SolveWideIsOneRun(s);
    res := Spsa(s, NarrowArgs(wide));
  }

  // ---------------------------------------------------------------------------
  // The cache

  /** The cache key: the colour's three bytes. */
  type Rgb = (Colors.Byte, Colors.Byte, Colors.Byte)

  /** What a solver needs besides the colour: how far a filtered colour is
      from a target (the sum of RGB and HSL distances `loss` computes through
      `hsl_lossy` and `css_colors`), the sine and cosine of a hue angle in
      degrees, the generator's draws and the sixth root. */
  datatype SolverInputs = SolverInputs(
    distance: (Rgb, Rgb3) -> real, trig: real -> (real, real),
    draw: (nat, nat) -> bool, sixthRoot: nat -> real)

  ghost predicate InputsValid(inp: SolverInputs) {
    forall k: nat :: inp.sixthRoot(k) > 0.0
  }

  /** `Solver::loss` for a target: the distance from the target of the colour
      the six filters make of black. */
  function LossFor(key: Rgb, inp: SolverInputs): Values -> real {
    (v: Values) => inp.distance(key, FilteredBlack(v, inp.trig))
  }

  function SolverFor(key: Rgb, inp: SolverInputs): (s: Solver)
    requires InputsValid(inp)
    ensures SolverValid(s) && s.seed == Seed(key.0, key.1, key.2)
  {
    ChannelByteOfByte(key.0);
    ChannelByteOfByte(key.1);
    ChannelByteOfByte(key.2);
    NewSolver(key.0 as real / 255.0, key.1 as real / 255.0, key.2 as real / 255.0,
              LossFor(key, inp), inp.draw, inp.sixthRoot)
  }

  /** The filter string computed for a colour. */
  function FilterCss(key: Rgb, inp: SolverInputs): string
    requires InputsValid(inp)
  {
    Css(SolveResult(SolverFor(key, inp)).values)
  }

  /** Storing a colour's own filter string keeps every entry correct. */
  lemma StoreKeepsCache(entries: map<Rgb, string>, key: Rgb, css: string, inp: SolverInputs)
    requires InputsValid(inp) && css == FilterCss(key, inp)
    requires forall k :: k in entries ==> entries[k] == FilterCss(k, inp)
    ensures forall k :: k in entries[key := css] ==> entries[key := css][k] == FilterCss(k, inp)
  {
  }

  /** `FILTER_CACHE`: filter strings by colour. The solver inputs are fixed
      for the life of the process, so every entry is the string the solver
      computes for its colour. */
  class FilterCache {
    var entries: map<Rgb, string>
    const inputs: SolverInputs

    ghost predicate Valid()
      reads this
    {
      && InputsValid(inputs)
      && forall key :: key in entries ==> entries[key] == FilterCss(key, inputs)
    }

    /** The cache as `get_or_init` creates it: empty. */
    constructor (inputs: SolverInputs)
      requires InputsValid(inputs)
      ensures Valid() && entries == map[] && this.inputs == inputs
    {
      this.inputs := inputs;
      entries := map[];
    }

    /** `css_filter`: a cached colour returns its string and changes nothing;
        otherwise the solver runs, its string is stored and returned. Either
        way the string is the one the solver computes for the colour. */
    method CssFilter(color: Colors.Color) returns (css: string)
      requires Valid()
      modifies this
      ensures Valid()
      ensures var key := (color.rgb.r, color.rgb.g, color.rgb.b);
              && css == FilterCss(key, inputs)
              && (key in old(entries) ==> css == old(entries)[key] && entries == old(entries))
              && (key !in old(entries) ==> entries == old(entries)[key := css])
    {
      var key := (color.rgb.r, color.rgb.g, color.rgb.b);
      if key in entries {
        return entries[key];
      }
      var target := new FilterColor(color.rgb.r, color.rgb.g, color.rgb.b);
      assert target.r == key.0 as real / 255.0 && target.g == key.1 as real / 255.0 && target.b == key.2 as real / 255.0;
      var solver := NewSolver(target.r, target.g, target.b, LossFor(key, inputs), inputs.draw, inputs.sixthRoot);
      assert solver == SolverFor(key, inputs);
      var result := Solve(solver);
      css := Css(result.values);
      StoreKeepsCache(entries, key, css, inputs);
      entries := entries[key := css];
    }
  }
}
