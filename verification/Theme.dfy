/** Colour derivation of internal/api/theme.go over exact reals: HSL conversion both ways, the
    relative luminance and contrast ratio of WCAG 2.1 (section 6), the button ink, and the search
    for a readable lightness.
 */
module Theme {
  import opened Wrappers

  datatype Rgb = Rgb(r: real, g: real, b: real)

  datatype Hsl = Hsl(h: real, l: real, s: real)

  predicate Unit(x: real) {
    0.0 <= x <= 1.0
  }

  predicate InRange(c: Rgb) {
    0.0 <= c.r <= 255.0 && 0.0 <= c.g <= 255.0 && 0.0 <= c.b <= 255.0
  }

  function Max(a: real, b: real): real {
    if a >= b then a else b
  }

  function Min(a: real, b: real): real {
    if a <= b then a else b
  }

  // -- HSL -------------------------------------------------------------------

  /** Hue in sixths of a turn, of unit channels that are not all equal. */
  function Hue6(r: real, g: real, b: real): real
    requires Max(r, Max(g, b)) != Min(r, Min(g, b))
  {
    var maxv, d := Max(r, Max(g, b)), Max(r, Max(g, b)) - Min(r, Min(g, b));
    if maxv == r then (g - b) / d + (if g < b then 6.0 else 0.0)
    else if maxv == g then (b - r) / d + 2.0
    else (r - g) / d + 4.0
  }

  /** Of unit channels that are not all equal. */
  function UnitHsl(r: real, g: real, b: real): Hsl
    requires Unit(r) && Unit(g) && Unit(b) && Max(r, Max(g, b)) != Min(r, Min(g, b))
  {
    var maxv, minv := Max(r, Max(g, b)), Min(r, Min(g, b));
    var l, d := (maxv + minv) / 2.0, maxv - minv;
    Hsl(Hue6(r, g, b) / 6.0, l, if l > 0.5 then d / (2.0 - maxv - minv) else d / (maxv + minv))
  }

  function ToHsl(c: Rgb): Hsl
    requires InRange(c)
  {
    var r, g, b := c.r / 255.0, c.g / 255.0, c.b / 255.0;
    var maxv, minv := Max(r, Max(g, b)), Min(r, Min(g, b));
    if maxv == minv then Hsl(0.0, (maxv + minv) / 2.0, 0.0) else UnitHsl(r, g, b)
  }

  /** One channel between p and q, by its place on the hue circle. */
  function Channel(p: real, q: real, t0: real): real {
    var t1 := if t0 < 0.0 then t0 + 1.0 else t0;
    var t := if t1 > 1.0 then t1 - 1.0 else t1;
    if t < 1.0 / 6.0 then p + (q - p) * 6.0 * t
    else if t < 1.0 / 2.0 then q
    else if t < 2.0 / 3.0 then p + (q - p) * (2.0 / 3.0 - t) * 6.0
    else p
  }

  function Brightest(l: real, s: real): real {
    if l < 0.5 then l * (1.0 + s) else l + s - l * s
  }

  function FromHsl(c: Hsl): Rgb {
    if c.s == 0.0 then Rgb(c.l * 255.0, c.l * 255.0, c.l * 255.0)
    else
      var q := Brightest(c.l, c.s);
      var p := 2.0 * c.l - q;
      Rgb(Channel(p, q, c.h + 1.0 / 3.0) * 255.0, Channel(p, q, c.h) * 255.0, Channel(p, q, c.h - 1.0 / 3.0) * 255.0)
  }

  /** The channel curve in sixths of a turn: up, across, down, flat. */
  function Curve(p: real, q: real, y0: real): real {
    var y := if y0 < 0.0 then y0 + 6.0 else if y0 > 6.0 then y0 - 6.0 else y0;
    if y < 1.0 then p + (q - p) * y
    else if y < 3.0 then q
    else if y < 4.0 then p + (q - p) * (4.0 - y)
    else p
  }

  lemma ChannelIsCurve(p: real, q: real, y: real)
    requires -6.0 <= y <= 12.0
    ensures Channel(p, q, y / 6.0) == Curve(p, q, y)
  {
    var y1 := if y < 0.0 then y + 6.0 else if y > 6.0 then y - 6.0 else y;
    var t := y1 / 6.0;
    assert (q - p) * 6.0 * t == (q - p) * y1 by {
      assert 6.0 * t == y1;
      Associate(q - p, 6.0, t);
    }
    assert (q - p) * (2.0 / 3.0 - t) * 6.0 == (q - p) * (4.0 - y1) by {
      assert (2.0 / 3.0 - t) * 6.0 == 4.0 - y1;
      Associate(q - p, 2.0 / 3.0 - t, 6.0);
    }
  }

  lemma Associate(x: real, y: real, z: real)
    ensures x * y * z == x * (y * z)
  {
  }

  /** The extremes come back: q is the largest channel and p the smallest. */
  lemma ExtremesReturn(maxv: real, minv: real)
    requires Unit(maxv) && Unit(minv) && minv < maxv
    ensures var l, d := (maxv + minv) / 2.0, maxv - minv;
            var s := if l > 0.5 then d / (2.0 - maxv - minv) else d / (maxv + minv);
            0.0 < s <= 1.0 && Brightest(l, s) == maxv
  {
    var l, d := (maxv + minv) / 2.0, maxv - minv;
    if l > 0.5 {
      var s := d / (2.0 - maxv - minv);
      assert s * (2.0 - 2.0 * l) == d;
      assert l + s - l * s == l + s * (2.0 - 2.0 * l) / 2.0;
      Quotient(d, 2.0 - maxv - minv);
    } else {
      var s := d / (maxv + minv);
      assert s * (2.0 * l) == d;
      assert l * (1.0 + s) == l + s * (2.0 * l) / 2.0;
      assert l == 0.5 ==> l + s - l * s == l + s / 2.0;
      Quotient(d, maxv + minv);
    }
  }

  lemma Quotient(d: real, n: real)
    requires 0.0 < d <= n
    ensures 0.0 < d / n <= 1.0
  {
    var x := d / n;
    assert x * n == d;
    assert x > 1.0 ==> (x - 1.0) * n > 0.0;
    assert x <= 0.0 ==> x * n <= 0.0;
  }

  /** Placed at `y` on the hue circle, the curve gives back the channels. */
  predicate ChannelsAt(r: real, g: real, b: real, y: real) {
    var q, p := Max(r, Max(g, b)), Min(r, Min(g, b));
    0.0 <= y < 6.0 && Curve(p, q, y + 2.0) == r && Curve(p, q, y) == g && Curve(p, q, y - 2.0) == b
  }

  /** `x` is the quotient of `num` by `d`. */
  predicate Offset(num: real, d: real, x: real) {
    d > 0.0 && -1.0 <= x <= 1.0 && d * x == num
    && (x < 0.0 <==> num < 0.0) && (x == 1.0 <==> num == d) && (x == -1.0 <==> num == -d)
  }

  lemma HueOffset(num: real, d: real)
    requires d > 0.0 && -d <= num <= d
    ensures Offset(num, d, num / d)
  {
    var x := num / d;
    assert x * d == num;
    assert x > 1.0 ==> (x - 1.0) * d > 0.0;
    assert x < -1.0 ==> (-1.0 - x) * d > 0.0;
    assert x < 0.0 ==> -x * d > 0.0;
    assert x >= 0.0 ==> x * d >= 0.0;
  }

  lemma RedChannels(r: real, g: real, b: real, x: real)
    requires Max(r, Max(g, b)) == r && Offset(g - b, r - Min(g, b), x)
    ensures ChannelsAt(r, g, b, x + if g < b then 6.0 else 0.0)
  {
    assert (r - Min(g, b)) * (4.0 - (x + 4.0)) == b - g;
  }

  lemma GreenChannels(r: real, g: real, b: real, x: real)
    requires Max(r, Max(g, b)) == g && Offset(b - r, g - Min(r, b), x)
    ensures ChannelsAt(r, g, b, x + 2.0)
  {
    assert (g - Min(r, b)) * (4.0 - (x + 4.0)) == r - b;
  }

  lemma BlueChannels(r: real, g: real, b: real, x: real)
    requires Max(r, Max(g, b)) == b && Offset(r - g, b - Min(r, g), x)
    ensures ChannelsAt(r, g, b, x + 4.0)
  {
    assert (b - Min(r, g)) * (4.0 - (x + 4.0)) == g - r;
  }

  lemma ChannelsReturn(r: real, g: real, b: real)
    requires Max(r, Max(g, b)) != Min(r, Min(g, b))
    ensures ChannelsAt(r, g, b, Hue6(r, g, b))
  {
    hide ChannelsAt, Offset;
    var q, p := Max(r, Max(g, b)), Min(r, Min(g, b));
    if q == r {
      HueOffset(g - b, q - p);
      RedChannels(r, g, b, (g - b) / (q - p));
    } else if q == g {
      HueOffset(b - r, q - p);
      GreenChannels(r, g, b, (b - r) / (q - p));
    } else {
      HueOffset(r - g, q - p);
      BlueChannels(r, g, b, (r - g) / (q - p));
    }
  }

  /** What FromHsl computes, in sixths of a turn. */
  lemma FromHslIsCurve(y: real, l: real, s: real)
    requires 0.0 <= y <= 6.0 && s != 0.0
    ensures var q := Brightest(l, s);
            var p := 2.0 * l - q;
            FromHsl(Hsl(y / 6.0, l, s)) == Rgb(Curve(p, q, y + 2.0) * 255.0, Curve(p, q, y) * 255.0,
                Curve(p, q, y - 2.0) * 255.0)
  {
    var q := Brightest(l, s);
    var p := 2.0 * l - q;
    ChannelIsCurve(p, q, y + 2.0);
    ChannelIsCurve(p, q, y);
    ChannelIsCurve(p, q, y - 2.0);
    hide Curve, Channel, Brightest;
    assert (y + 2.0) / 6.0 == y / 6.0 + 1.0 / 3.0 && (y - 2.0) / 6.0 == y / 6.0 - 1.0 / 3.0;
  }

  lemma UnitRoundTrip(r: real, g: real, b: real)
    requires Unit(r) && Unit(g) && Unit(b) && Max(r, Max(g, b)) != Min(r, Min(g, b))
    ensures FromHsl(UnitHsl(r, g, b)) == Rgb(r * 255.0, g * 255.0, b * 255.0)
    ensures 0.0 <= UnitHsl(r, g, b).h < 1.0 && Unit(UnitHsl(r, g, b).s)
  {
    var hsl := UnitHsl(r, g, b);
    ExtremesReturn(Max(r, Max(g, b)), Min(r, Min(g, b)));
    ChannelsReturn(r, g, b);
    FromHslIsCurve(Hue6(r, g, b), hsl.l, hsl.s);
    assert 2.0 * hsl.l - Brightest(hsl.l, hsl.s) == Min(r, Min(g, b));
    hide Hue6, Curve, FromHsl, Brightest;
  }

  /** Converting to HSL and back is the identity. */
  lemma ColourRoundTrip(c: Rgb)
    requires InRange(c)
    ensures FromHsl(ToHsl(c)) == c
  {
    var r, g, b := c.r / 255.0, c.g / 255.0, c.b / 255.0;
    assert Unit(r) && Unit(g) && Unit(b) && c == Rgb(r * 255.0, g * 255.0, b * 255.0);
    if Max(r, Max(g, b)) != Min(r, Min(g, b)) {
      UnitRoundTrip(r, g, b);
      hide UnitHsl, FromHsl;
    }
  }

  lemma ToHslIsUnit(c: Rgb)
    requires InRange(c)
    ensures var hsl := ToHsl(c); 0.0 <= hsl.h < 1.0 && Unit(hsl.l) && Unit(hsl.s)
  {
    var r, g, b := c.r / 255.0, c.g / 255.0, c.b / 255.0;
    assert Unit(r) && Unit(g) && Unit(b);
    if Max(r, Max(g, b)) != Min(r, Min(g, b)) {
      UnitRoundTrip(r, g, b);
      hide FromHsl, Hue6;
    }
  }

  lemma Share(x: real, u: real) returns (part: real)
    requires 0.0 <= x && Unit(u)
    ensures part == x * u && 0.0 <= part <= x
  {
    part := x * u;
    var rest := x * (1.0 - u);
    assert rest >= 0.0 && part + rest == x;
  }

  /** A position on the circle at most once around either way lands between p and q. */
  lemma CurveStaysBetween(p: real, q: real, y: real)
    requires p <= q && -6.0 <= y <= 12.0
    ensures p <= Curve(p, q, y) <= q
  {
    var y1 := if y < 0.0 then y + 6.0 else if y > 6.0 then y - 6.0 else y;
    var u := if y1 < 1.0 then y1 else if y1 < 3.0 then 1.0 else if y1 < 4.0 then 4.0 - y1 else 0.0;
    var part := Share(q - p, u);
    assert Curve(p, q, y) == p + part;
    hide Curve;
    Between(p, q, part, Curve(p, q, y));
  }

  lemma Between(p: real, q: real, part: real, c: real)
    requires 0.0 <= part <= q - p && c == p + part
    ensures p <= c <= q
  {
  }

  lemma LinearExtremes(l: real, a: real, b: real, q: real)
    requires 0.0 <= a <= l <= 1.0 && 0.0 <= b <= 1.0 - l && q == if l < 0.5 then l + a else l + b
    ensures Unit(q) && Unit(2.0 * l - q) && l <= q
  {
  }

  lemma ExtremesAreUnits(l: real, s: real)
    requires Unit(l) && Unit(s)
    ensures var q := Brightest(l, s); Unit(q) && Unit(2.0 * l - q) && l <= q
  {
    var a := Share(l, s);
    var b := Share(1.0 - l, s);
    assert b == s - a && l * (1.0 + s) == l + a;
    assert Brightest(l, s) == if l < 0.5 then l + a else l + b;
    hide Brightest;
    LinearExtremes(l, a, b, Brightest(l, s));
  }

  /** Every hue, lightness and saturation in [0, 1] is a displayable colour. */
  lemma FromHslStaysInRange(c: Hsl)
    requires Unit(c.h) && Unit(c.l) && Unit(c.s)
    ensures InRange(FromHsl(c))
  {
    if c.s != 0.0 {
      var y, q := c.h * 6.0, Brightest(c.l, c.s);
      var p := 2.0 * c.l - q;
      FromHslIsCurve(y, c.l, c.s);
      ExtremesAreUnits(c.l, c.s);
      CurveStaysBetween(p, q, y + 2.0);
      CurveStaysBetween(p, q, y);
      CurveStaysBetween(p, q, y - 2.0);
      hide Curve, Brightest, FromHsl;
    }
  }

  /** How far up its ramp the middle channel is at `y`. */
  function Ramp(y: real): real {
    if y < 1.0 then y else if y < 2.0 then 2.0 - y else if y < 3.0 then y - 2.0
    else if y < 4.0 then 4.0 - y else if y < 5.0 then y - 4.0 else 6.0 - y
  }

  /** The channels at `y`, sextant by sextant, with `mid` the middle one. */
  function Sextant(p: real, q: real, mid: real, y: real): (real, real, real) {
    if y < 1.0 then (q, mid, p) else if y < 2.0 then (mid, q, p) else if y < 3.0 then (p, q, mid)
    else if y < 4.0 then (p, mid, q) else if y < 5.0 then (mid, p, q) else (q, p, mid)
  }

  lemma CurveBySextant(p: real, q: real, part: real, y: real)
    requires 0.0 <= y < 6.0 && part == (q - p) * Ramp(y)
    ensures (Curve(p, q, y + 2.0), Curve(p, q, y), Curve(p, q, y - 2.0)) == Sextant(p, q, p + part, y)
  {
    var r, g, b := Curve(p, q, y + 2.0), Curve(p, q, y), Curve(p, q, y - 2.0);
    assert y < 1.0 ==> r == q && g == p + part && b == p;
    assert 1.0 <= y < 2.0 ==> r == p + part && g == q && b == p;
    assert 2.0 <= y < 3.0 ==> r == p && g == q && b == p + part;
    assert 3.0 <= y < 4.0 ==> r == p && g == p + part && b == q;
    assert 4.0 <= y < 5.0 ==> r == p + part && g == p && b == q;
    assert 5.0 <= y ==> r == q && g == p && b == p + part;
    hide Curve;
  }

  lemma RampShare(d: real, x: real) returns (part: real)
    requires d > 0.0 && Unit(x)
    ensures part == d * x && 0.0 <= part <= d && part / d == x && -part / d == -x
    ensures (part == d <==> x == 1.0) && (part == 0.0 <==> x == 0.0)
  {
    part := Share(d, x);
    Cancel(d, x);
    Cancel(d, -x);
    assert d * -x == -part && d * (1.0 - x) == d - part;
    assert x > 0.0 ==> d * x > 0.0;
    assert x < 1.0 ==> d * (1.0 - x) > 0.0;
  }

  lemma Cancel(d: real, x: real)
    requires d != 0.0
    ensures d * x / d == x
  {
  }

  lemma HueOfSextant(p: real, q: real, part: real, x: real, y: real)
    requires p < q && 0.0 <= part <= q - p && part / (q - p) == x && -part / (q - p) == -x
    requires part == q - p <==> x == 1.0
    requires part == 0.0 <==> x == 0.0
    requires 0.0 <= y < 6.0 && x == Ramp(y)
    ensures var (r, g, b) := Sextant(p, q, p + part, y);
            Max(r, Max(g, b)) == q && Min(r, Min(g, b)) == p && Hue6(r, g, b) == y
  {
  }

  lemma HueReturns(p: real, q: real, y: real)
    requires p < q && 0.0 <= y < 6.0
    ensures var r, g, b := Curve(p, q, y + 2.0), Curve(p, q, y), Curve(p, q, y - 2.0);
            Max(r, Max(g, b)) == q && Min(r, Min(g, b)) == p && Hue6(r, g, b) == y
  {
    var part := RampShare(q - p, Ramp(y));
    CurveBySextant(p, q, part, y);
    HueOfSextant(p, q, part, Ramp(y), y);
    hide Curve, Ramp, Sextant;
  }

  /** Lightness and saturation determine the extremes, and the extremes them. */
  lemma ExtremesDetermine(l: real, s: real)
    requires 0.0 < l < 1.0 && 0.0 < s <= 1.0
    ensures var q := Brightest(l, s);
            var p := 2.0 * l - q;
            && p < q && Unit(p) && Unit(q)
            && s == if l > 0.5 then (q - p) / (2.0 - q - p) else (q - p) / (q + p)
  {
    ExtremesAreUnits(l, s);
    var q := Brightest(l, s);
    var room := if l > 0.5 then 1.0 - l else l;
    assert q - l == room * s;
    assert room * s > 0.0;
    assert q - (2.0 * l - q) == 2.0 * room * s;
    Cancel(2.0 * room, s);
  }

  /** The other way round is the identity too, wherever hue and saturation mean something: so
      moving only the lightness keeps both. */
  lemma HslRoundTrip(c: Hsl)
    requires 0.0 <= c.h < 1.0 && 0.0 < c.l < 1.0 && 0.0 < c.s <= 1.0
    ensures InRange(FromHsl(c)) && ToHsl(FromHsl(c)) == c
  {
    var y, q := c.h * 6.0, Brightest(c.l, c.s);
    var p := 2.0 * c.l - q;
    FromHslStaysInRange(c);
    FromHslIsCurve(y, c.l, c.s);
    ExtremesDetermine(c.l, c.s);
    hide Brightest, FromHsl;
    HueReturns(p, q, y);
    hide Curve;
    ExtremesGiveHsl(Curve(p, q, y + 2.0), Curve(p, q, y), Curve(p, q, y - 2.0), FromHsl(c), c, p, q);
  }

  lemma ExtremesGiveHsl(r: real, g: real, b: real, rgb: Rgb, c: Hsl, p: real, q: real)
    requires InRange(rgb) && rgb == Rgb(r * 255.0, g * 255.0, b * 255.0)
    requires p < q && Max(r, Max(g, b)) == q && Min(r, Min(g, b)) == p && Hue6(r, g, b) == c.h * 6.0
    requires p + q == 2.0 * c.l && c.s == if c.l > 0.5 then (q - p) / (2.0 - q - p) else (q - p) / (q + p)
    ensures ToHsl(rgb) == c
  {
    hide Hue6;
    assert rgb.r / 255.0 == r && rgb.g / 255.0 == g && rgb.b / 255.0 == b;
  }

  lemma FullColour(y: real)
    requires 0.0 <= y <= 6.0
    ensures FromHsl(Hsl(y / 6.0, 0.5, 1.0)) ==
            Rgb(Curve(0.0, 1.0, y + 2.0) * 255.0, Curve(0.0, 1.0, y) * 255.0, Curve(0.0, 1.0, y - 2.0) * 255.0)
  {
    assert Brightest(0.5, 1.0) == 1.0;
    hide FromHsl, Curve, Brightest;
    FromHslIsCurve(y, 0.5, 1.0);
  }

  /** Where the hues are. */
  lemma PrimaryHues()
    ensures FromHsl(Hsl(0.0, 0.5, 1.0)) == Rgb(255.0, 0.0, 0.0)
    ensures FromHsl(Hsl(1.0 / 3.0, 0.5, 1.0)) == Rgb(0.0, 255.0, 0.0)
    ensures FromHsl(Hsl(2.0 / 3.0, 0.5, 1.0)) == Rgb(0.0, 0.0, 255.0)
  {
    hide FromHsl;
    FullColour(0.0);
    FullColour(2.0);
    FullColour(4.0);
  }

  /** No saturation is grey, no lightness black, full lightness white. */
  lemma EndsOfTheScales(h: real, l: real, s: real)
    requires 0.0 <= h <= 1.0 && Unit(l) && Unit(s)
    ensures FromHsl(Hsl(h, l, 0.0)) == Rgb(l * 255.0, l * 255.0, l * 255.0)
    ensures FromHsl(Hsl(h, 0.0, s)) == BLACK && FromHsl(Hsl(h, 1.0, s)) == WHITE
  {
    FlatChannel(0.0, h + 1.0 / 3.0);
    FlatChannel(0.0, h);
    FlatChannel(0.0, h - 1.0 / 3.0);
    FlatChannel(1.0, h + 1.0 / 3.0);
    FlatChannel(1.0, h);
    FlatChannel(1.0, h - 1.0 / 3.0);
    assert Brightest(0.0, s) == 0.0 && Brightest(1.0, s) == 1.0;
    hide Channel, Brightest;
  }

  lemma FlatChannel(p: real, t: real)
    ensures Channel(p, p, t) == p
  {
  }

  // -- Contrast ----------------------------------------------------------------

  const BLACK := Rgb(0.0, 0.0, 0.0)
  const WHITE := Rgb(255.0, 255.0, 255.0)
  const CONTRAST_TARGET := 4.5

  /** x^2.4, of which only this is used: it maps [0, 1] to itself and fixes 1. */
  type Power = real -> real

  ghost predicate IsPower(pow: Power) {
    pow(1.0) == 1.0 && forall x :: Unit(x) ==> Unit(pow(x))
  }

  function Linear(pow: Power, channel: real): real {
    var v := channel / 255.0;
    if v <= 0.03928 then v / 12.92 else pow((v + 0.055) / 1.055)
  }

  function RelativeLuminance(pow: Power, c: Rgb): real {
    0.2126 * Linear(pow, c.r) + 0.7152 * Linear(pow, c.g) + 0.0722 * Linear(pow, c.b)
  }

  function Ratio(la: real, lb: real): real
    requires la >= 0.0 && lb >= 0.0
  {
    (Max(la, lb) + 0.05) / (Min(la, lb) + 0.05)
  }

  lemma LinearIsUnit(pow: Power, channel: real)
    requires IsPower(pow) && 0.0 <= channel <= 255.0
    ensures Unit(Linear(pow, channel))
  {
    var v := channel / 255.0;
    assert v > 0.03928 ==> Unit((v + 0.055) / 1.055);
  }

  lemma LuminanceIsUnit(pow: Power, c: Rgb)
    requires IsPower(pow) && InRange(c)
    ensures Unit(RelativeLuminance(pow, c))
  {
    LinearIsUnit(pow, c.r);
    LinearIsUnit(pow, c.g);
    LinearIsUnit(pow, c.b);
    hide Linear;
  }

  lemma BlackAndWhite(pow: Power)
    requires IsPower(pow)
    ensures RelativeLuminance(pow, BLACK) == 0.0 && RelativeLuminance(pow, WHITE) == 1.0
  {
    assert Linear(pow, 0.0) == 0.0;
    assert Linear(pow, 255.0) == pow(1.0);
  }

  /** The weights of the three channels. */
  lemma PrimariesWeigh(pow: Power)
    requires IsPower(pow)
    ensures RelativeLuminance(pow, Rgb(255.0, 0.0, 0.0)) == 0.2126
    ensures RelativeLuminance(pow, Rgb(0.0, 255.0, 0.0)) == 0.7152
    ensures RelativeLuminance(pow, Rgb(0.0, 0.0, 255.0)) == 0.0722
  {
    assert Linear(pow, 0.0) == 0.0;
    assert Linear(pow, 255.0) == pow(1.0);
  }

  /** Each channel adds its share of the grey of its strength. */
  lemma ChannelsAddUp(pow: Power, c: Rgb)
    ensures RelativeLuminance(pow, c) == RelativeLuminance(pow, Rgb(c.r, 0.0, 0.0))
                                         + RelativeLuminance(pow, Rgb(0.0, c.g, 0.0))
                                         + RelativeLuminance(pow, Rgb(0.0, 0.0, c.b))
    ensures forall v :: RelativeLuminance(pow, Rgb(v, 0.0, 0.0)) == 0.2126 * RelativeLuminance(pow, Rgb(v, v, v))
    ensures forall v :: RelativeLuminance(pow, Rgb(0.0, v, 0.0)) == 0.7152 * RelativeLuminance(pow, Rgb(v, v, v))
    ensures forall v :: RelativeLuminance(pow, Rgb(0.0, 0.0, v)) == 0.0722 * RelativeLuminance(pow, Rgb(v, v, v))
  {
    assert Linear(pow, 0.0) == 0.0;
    hide Linear;
    forall v ensures RelativeLuminance(pow, Rgb(v, v, v)) == Linear(pow, v) {
      GreyIsItsChannel(pow, v);
    }
  }

  lemma GreyIsItsChannel(pow: Power, v: real)
    ensures RelativeLuminance(pow, Rgb(v, v, v)) == Linear(pow, v)
  {
    hide Linear;
    var x := Linear(pow, v);
    assert 0.2126 * x + 0.7152 * x + 0.0722 * x == x;
  }

  /** The greys of eight bits: the ten darkest above black are on the straight part, whichever of the two
      published thresholds is used, 0.03928 or 0.04045; the others on the curve. */
  lemma GreysOfEightBits(pow: Power, n: int)
    requires 0 <= n <= 255
    ensures var v := n as real;
            RelativeLuminance(pow, Rgb(v, v, v)) ==
            if n <= 10 then v / 3294.6 else pow((v + 14.025) / 269.025)
  {
    var v := n as real;
    GreyIsItsChannel(pow, v);
    assert (v / 255.0 + 0.055) / 1.055 == (v + 14.025) / 269.025;
    assert v / 255.0 / 12.92 == v / 3294.6;
    assert n <= 10 ==> v / 255.0 <= 0.03928;
    assert n >= 11 ==> v / 255.0 >= 11.0 / 255.0;
    hide RelativeLuminance;
  }

  function Contrast(pow: Power, a: Rgb, b: Rgb): real
    requires IsPower(pow) && InRange(a) && InRange(b)
  {
    LuminanceIsUnit(pow, a);
    LuminanceIsUnit(pow, b);
    Ratio(RelativeLuminance(pow, a), RelativeLuminance(pow, b))
  }

  /** Against black the contrast is linear; elsewhere the contrasts of neighbours multiply. So they are
      known for every pair. */
  lemma RatiosMultiply(la: real, lb: real, lc: real)
    requires 0.0 <= la <= lb <= lc
    ensures Ratio(lc, 0.0) == 1.0 + 20.0 * lc
    ensures Ratio(la, lb) == Ratio(lb, la)
    ensures Ratio(la, lb) * Ratio(lb, lc) == Ratio(la, lc)
  {
    var x, y, z := Ratio(la, lb), Ratio(lb, lc), Ratio(la, lc);
    assert x * (la + 0.05) == lb + 0.05 && y * (lb + 0.05) == lc + 0.05 && z * (la + 0.05) == lc + 0.05;
    hide Ratio;
    assert x * y * (la + 0.05) == y * (x * (la + 0.05));
    assert (x * y - z) * (la + 0.05) == 0.0;
  }

  /** Against black and against white, the two ratios of any colour multiply to 21. */
  lemma BlackTimesWhite(la: real)
    requires Unit(la)
    ensures Ratio(la, 0.0) * Ratio(la, 1.0) == 21.0
    ensures Ratio(la, 0.0) >= 4.5 || Ratio(la, 1.0) >= 4.5
  {
    var x, y := Ratio(la, 0.0), Ratio(la, 1.0);
    assert x == (la + 0.05) / 0.05 && x * 0.05 == la + 0.05;
    assert y == 1.05 / (la + 0.05) && y * (la + 0.05) == 1.05;
    assert x * y * 0.05 == 1.05;
    assert x < 4.5 && y < 4.5 ==> x * y < 4.5 * 4.5;
  }

  /** The first preferred ink that is readable on the accent; if none is, black or white, whichever stands
      out more, and white where they are equal. */
  ghost predicate IsInk(pow: Power, accent: Rgb, preferred: seq<Rgb>, ink: Rgb)
    requires IsPower(pow) && InRange(accent) && InRange(ink) && forall p :: p in preferred ==> InRange(p)
  {
    || (exists i :: 0 <= i < |preferred| && preferred[i] == ink && Contrast(pow, accent, ink) >= 4.5
         && NoneReadable(pow, accent, preferred[..i]))
    || (NoneReadable(pow, accent, preferred) &&
        ink == if Contrast(pow, accent, BLACK) > Contrast(pow, accent, WHITE) then BLACK else WHITE)
  }

  ghost predicate NoneReadable(pow: Power, accent: Rgb, preferred: seq<Rgb>)
    requires IsPower(pow) && InRange(accent) && forall p :: p in preferred ==> InRange(p)
  {
    forall i :: 0 <= i < |preferred| ==> Contrast(pow, accent, preferred[i]) < 4.5
  }

  /** That leaves no choice, and is always readable. */
  lemma InkIsReadable(pow: Power, accent: Rgb, preferred: seq<Rgb>, ink: Rgb, other: Rgb)
    requires IsPower(pow) && InRange(accent) && forall p :: p in preferred ==> InRange(p)
    requires InRange(ink) && IsInk(pow, accent, preferred, ink)
    requires InRange(other) && IsInk(pow, accent, preferred, other)
    ensures Contrast(pow, accent, ink) >= 4.5 && ink == other
  {
    BlackAndWhite(pow);
    LuminanceIsUnit(pow, accent);
    BlackTimesWhite(RelativeLuminance(pow, accent));
    hide RelativeLuminance, Ratio;
    if !NoneReadable(pow, accent, preferred) {
      var i :| 0 <= i < |preferred| && preferred[i] == ink && NoneReadable(pow, accent, preferred[..i]);
      var j :| 0 <= j < |preferred| && preferred[j] == other && NoneReadable(pow, accent, preferred[..j]);
      if i < j {
        ReadableBefore(pow, accent, preferred, i, j);
      } else if j < i {
        ReadableBefore(pow, accent, preferred, j, i);
      }
    }
  }

  lemma ReadableBefore(pow: Power, accent: Rgb, preferred: seq<Rgb>, i: nat, j: nat)
    requires IsPower(pow) && InRange(accent) && forall p :: p in preferred ==> InRange(p)
    requires i < j < |preferred| && Contrast(pow, accent, preferred[i]) >= 4.5
    ensures !NoneReadable(pow, accent, preferred[..j])
  {
    assert preferred[..j][i] == preferred[i];
  }

  method PickInk(pow: Power, accent: Rgb, preferred: seq<Rgb>) returns (ink: Rgb)
    requires IsPower(pow) && InRange(accent) && forall p :: p in preferred ==> InRange(p)
    ensures InRange(ink) && IsInk(pow, accent, preferred, ink) && Contrast(pow, accent, ink) >= CONTRAST_TARGET
  {
    for i := 0 to |preferred|
      invariant NoneReadable(pow, accent, preferred[..i])
    {
      if Contrast(pow, accent, preferred[i]) >= CONTRAST_TARGET {
        return preferred[i];
      }
    }
    assert preferred[..|preferred|] == preferred;
    ink := WHITE;
    if Contrast(pow, accent, BLACK) > Contrast(pow, accent, WHITE) {
      ink := BLACK;
    }
    InkIsReadable(pow, accent, preferred, ink, ink);
  }

  // -- Fitting a lightness -------------------------------------------------------

  /** math.Round of a value that is not negative. */
  function Round(x: real): real {
    (x + 0.5).Floor as real
  }

  /** Snaps to the grid of eight bits per channel. */
  function Quantise(c: Rgb): (q: Rgb)
    ensures InRange(q)
  {
    Rgb(Round(Min(255.0, Max(0.0, c.r))), Round(Min(255.0, Max(0.0, c.g))), Round(Min(255.0, Max(0.0, c.b))))
  }

  const STEPS := 200

  function Lightness(startL: real, lighten: bool, i: nat): real {
    startL + (if lighten then 0.005 else -0.005) * i as real
  }

  /** The colour of the i-th attempt: the base's hue and saturation at another lightness. */
  function Attempt(base: Rgb, startL: real, lighten: bool, i: nat): (c: Rgb)
    requires InRange(base)
    ensures InRange(c)
  {
    Quantise(FromHsl(ToHsl(base).(l := Lightness(startL, lighten, i))))
  }

  predicate Reached(startL: real, lighten: bool, i: nat) {
    i < STEPS && Unit(startL) && Unit(Lightness(startL, lighten, i))
  }

  ghost predicate Displayable(pow: Power, grounds: seq<Rgb>) {
    IsPower(pow) && forall g :: g in grounds ==> InRange(g)
  }

  predicate Clears(pow: Power, c: Rgb, target: real, grounds: seq<Rgb>)
    requires Displayable(pow, grounds) && InRange(c)
  {
    forall i :: 0 <= i < |grounds| ==> Contrast(pow, c, grounds[i]) >= target
  }

  /** `x` is the lowest contrast of `c` with any ground. */
  ghost predicate IsWorst(pow: Power, c: Rgb, grounds: seq<Rgb>, x: real)
    requires Displayable(pow, grounds) && InRange(c)
  {
    && (exists i :: 0 <= i < |grounds| && Contrast(pow, c, grounds[i]) == x)
    && (forall i :: 0 <= i < |grounds| ==> Contrast(pow, c, grounds[i]) >= x)
  }

  /** Some ground is as close to `c` as `x`. */
  ghost predicate Within(pow: Power, c: Rgb, grounds: seq<Rgb>, x: real)
    requires Displayable(pow, grounds) && InRange(c)
  {
    exists i :: 0 <= i < |grounds| && Contrast(pow, c, grounds[i]) <= x
  }

  lemma RatioIsPositive(la: real, lb: real)
    requires la >= 0.0 && lb >= 0.0
    ensures Ratio(la, lb) > 0.0
  {
    var x, d := Ratio(la, lb), Min(la, lb) + 0.05;
    assert x * d == Max(la, lb) + 0.05;
    assert x <= 0.0 ==> x * d <= 0.0;
  }

  /** The lowest contrast with any ground; None, for +Inf, when there is no ground. */
  method Worst(pow: Power, c: Rgb, grounds: seq<Rgb>) returns (worst: Option<real>)
    requires Displayable(pow, grounds) && InRange(c)
    ensures worst.None? <==> grounds == []
    ensures worst.Some? ==> IsWorst(pow, c, grounds, worst.value) && worst.value > 0.0
  {
    hide Contrast;
    worst := None;
    for i := 0 to |grounds|
      invariant worst.None? <==> i == 0
      invariant worst.Some? ==> exists j :: 0 <= j < i && Contrast(pow, c, grounds[j]) == worst.value
      invariant worst.Some? ==> forall j :: 0 <= j < i ==> Contrast(pow, c, grounds[j]) >= worst.value
    {
      var r := Contrast(pow, c, grounds[i]);
      if worst.None? || r < worst.value {
        worst := Some(r);
      }
    }
    if worst.Some? {
      var j :| 0 <= j < |grounds| && Contrast(pow, c, grounds[j]) == worst.value;
      ContrastIsPositive(pow, c, grounds[j]);
    }
  }

  lemma ContrastIsPositive(pow: Power, a: Rgb, b: Rgb)
    requires IsPower(pow) && InRange(a) && InRange(b)
    ensures Contrast(pow, a, b) > 0.0
  {
    LuminanceIsUnit(pow, a);
    LuminanceIsUnit(pow, b);
    RatioIsPositive(RelativeLuminance(pow, a), RelativeLuminance(pow, b));
    hide RelativeLuminance, Ratio;
  }

  /** Once out of [0, 1] the lightness stays out. */
  lemma OutStaysOut(startL: real, lighten: bool, i: nat, j: nat)
    requires i <= j && !Unit(Lightness(startL, lighten, i))
    ensures !Reached(startL, lighten, j)
  {
    assert 0.005 * j as real >= 0.005 * i as real;
  }

  /** A try is the rounding of the colour with the base's hue and saturation and the lightness tried; of a
      grey, for a grey. */
  lemma TriesKeepHueAndSaturation(base: Rgb, startL: real, lighten: bool, i: nat) returns (c: Rgb)
    requires InRange(base) && 0.0 < Lightness(startL, lighten, i) < 1.0
    ensures InRange(c) && Attempt(base, startL, lighten, i) == Quantise(c)
    ensures ToHsl(c) == Hsl(ToHsl(base).h, Lightness(startL, lighten, i), ToHsl(base).s)
    ensures base.r == base.g == base.b <==> c.r == c.g == c.b
  {
    ToHslIsUnit(base);
    var hsl, l := ToHsl(base), Lightness(startL, lighten, i);
    c := FromHsl(hsl.(l := l));
    GreyIffUnsaturated(base);
    if hsl.s == 0.0 {
      assert hsl.h == 0.0 && c == Rgb(l * 255.0, l * 255.0, l * 255.0);
      GreyOf(l);
    } else {
      HslRoundTrip(hsl.(l := l));
      GreyIffUnsaturated(c);
    }
    hide ToHsl, FromHsl, Quantise, Lightness;
  }

  lemma GreyOf(l: real)
    requires Unit(l)
    ensures ToHsl(Rgb(l * 255.0, l * 255.0, l * 255.0)) == Hsl(0.0, l, 0.0)
  {
  }

  lemma OthersAreSaturated(r: real, g: real, b: real)
    requires Unit(r) && Unit(g) && Unit(b) && Max(r, Max(g, b)) != Min(r, Min(g, b))
    ensures UnitHsl(r, g, b).s > 0.0
  {
    ExtremesReturn(Max(r, Max(g, b)), Min(r, Min(g, b)));
    hide Brightest, Hue6, Max, Min;
  }

  lemma ExtremesAreApart(r: real, g: real, b: real)
    ensures Max(r, Max(g, b)) == Min(r, Min(g, b)) <==> r == g == b
  {
  }

  lemma GreyIffUnsaturated(c: Rgb)
    requires InRange(c)
    ensures c.r == c.g == c.b <==> ToHsl(c).s == 0.0
    ensures ToHsl(c).s == 0.0 ==> ToHsl(c).h == 0.0
  {
    var r, g, b := c.r / 255.0, c.g / 255.0, c.b / 255.0;
    assert Unit(r) && Unit(g) && Unit(b);
    assert r == g == b <==> c.r == c.g == c.b;
    ExtremesAreApart(r, g, b);
    hide UnitHsl, Max, Min;
    if Max(r, Max(g, b)) != Min(r, Min(g, b)) {
      OthersAreSaturated(r, g, b);
    }
  }

  /** From wherever it starts, a search comes within half a percent of white, or of black, and its tries
      are half a percent apart. */
  lemma SearchCoversTheScale(startL: real, lighten: bool) returns (k: nat)
    requires Unit(startL)
    ensures Reached(startL, lighten, 0) && Lightness(startL, lighten, 0) == startL
    ensures if lighten then Lightness(startL, lighten, k) > 0.995 else Lightness(startL, lighten, k) < 0.005
    ensures k <= 200 && (k == 200 || Reached(startL, lighten, k))
    ensures forall i: nat :: if lighten then Lightness(startL, lighten, i + 1) == Lightness(startL, lighten, i) + 0.005
                             else Lightness(startL, lighten, i + 1) == Lightness(startL, lighten, i) - 0.005
  {
    var room := if lighten then 1.0 - startL else startL;
    k := (200.0 * room).Floor;
  }

  /** `best` is the attempt `k`, the first of those before `n` that none of them beats; none clears. */
  ghost predicate BestSoFar(pow: Power, base: Rgb, startL: real, lighten: bool, target: real, grounds: seq<Rgb>,
                            n: nat, best: Rgb, k: nat, score: real)
    requires Displayable(pow, grounds) && InRange(base) && InRange(best)
  {
    && k < n && best == Attempt(base, startL, lighten, k) && IsWorst(pow, best, grounds, score)
    && (forall i: nat :: i < n ==> Within(pow, Attempt(base, startL, lighten, i), grounds, score))
    && NoneClears(pow, base, startL, lighten, target, grounds, n)
  }

  ghost predicate NoneClears(pow: Power, base: Rgb, startL: real, lighten: bool, target: real, grounds: seq<Rgb>,
                             n: nat)
    requires Displayable(pow, grounds) && InRange(base)
  {
    forall i: nat :: i < n ==> !Clears(pow, Attempt(base, startL, lighten, i), target, grounds)
  }

  lemma BestDoesNotClear(pow: Power, base: Rgb, startL: real, lighten: bool, target: real, grounds: seq<Rgb>,
                         n: nat, best: Rgb, k: nat, score: real)
    requires Displayable(pow, grounds) && InRange(base) && InRange(best)
    requires BestSoFar(pow, base, startL, lighten, target, grounds, n, best, k, score)
    ensures !Clears(pow, best, target, grounds) && NoneClears(pow, base, startL, lighten, target, grounds, n)
  {
    hide Contrast, Attempt, Clears;
  }

  lemma OneMoreAttempt(pow: Power, base: Rgb, startL: real, lighten: bool, target: real, grounds: seq<Rgb>,
                       n: nat, best: Rgb, k: nat, score: real, worst: real)
    requires Displayable(pow, grounds) && InRange(base) && InRange(best) && grounds != []
    requires if n == 0 then score == -1.0 else BestSoFar(pow, base, startL, lighten, target, grounds, n, best, k, score)
    requires IsWorst(pow, Attempt(base, startL, lighten, n), grounds, worst) && 0.0 < worst < target
    ensures worst > score ==>
              BestSoFar(pow, base, startL, lighten, target, grounds, n + 1, Attempt(base, startL, lighten, n), n, worst)
    ensures worst <= score ==> BestSoFar(pow, base, startL, lighten, target, grounds, n + 1, best, k, score)
  {
    hide Contrast, Attempt;
    var c := Attempt(base, startL, lighten, n);
    var i :| 0 <= i < |grounds| && Contrast(pow, c, grounds[i]) == worst;
    assert !Clears(pow, c, target, grounds) && Within(pow, c, grounds, worst) &&
        (worst <= score ==> Within(pow, c, grounds, score));
    forall j: nat | j < n && worst > score ensures Within(pow, Attempt(base, startL, lighten, j), grounds, worst) {
      assert Within(pow, Attempt(base, startL, lighten, j), grounds, score);
    }
    hide Clears, Within, IsWorst;
  }

  /** The first attempt that clears the target, else the first that no attempt beats; the base
      itself only when there was no attempt at all. */
  method Fit(pow: Power, base: Rgb, startL: real, lighten: bool, target: real, grounds: seq<Rgb>)
    returns (best: Rgb, ghost n: nat, ghost k: nat, ghost score: real)
    requires Displayable(pow, grounds) && InRange(base)
    ensures InRange(best)
    ensures n == 0 ==> best == base && !Unit(startL)
    ensures n > 0 && Clears(pow, best, target, grounds) ==>
              k == n - 1 && Reached(startL, lighten, k) && best == Attempt(base, startL, lighten, k)
              && NoneClears(pow, base, startL, lighten, target, grounds, k)
    ensures n > 0 && !Clears(pow, best, target, grounds) ==>
              BestSoFar(pow, base, startL, lighten, target, grounds, n, best, k, score)
              && forall i: nat :: Reached(startL, lighten, i) <==> i < n
  {
    hide Contrast, Quantise, FromHsl, ToHsl, BestSoFar;
    var step, l := if lighten then 0.005 else -0.005, startL;
    var bestScore := -1.0;
    best, n, k, score := base, 0, 0, -1.0;
    for i := 0 to STEPS
      invariant l == Lightness(startL, lighten, i) && n == i && score == bestScore && InRange(best)
      invariant forall j: nat :: j < i ==> Reached(startL, lighten, j)
      invariant if i == 0 then best == base && score == -1.0
                else BestSoFar(pow, base, startL, lighten, target, grounds, i, best, k, score)
    {
      assert i > 0 ==> Reached(startL, lighten, 0);
      if l < 0.0 || l > 1.0 {
        forall j: nat | i <= j ensures !Reached(startL, lighten, j) {
          OutStaysOut(startL, lighten, i, j);
        }
        break;
      }
      assert Reached(startL, lighten, i);
      var hsl := ToHsl(base);
      var c := Quantise(FromHsl(Hsl(hsl.h, l, hsl.s)));
      assert c == Attempt(base, startL, lighten, i);
      var worst := Worst(pow, c, grounds);
      if worst.None? || worst.value >= target {
        if i > 0 {
          BestDoesNotClear(pow, base, startL, lighten, target, grounds, i, best, k, score);
        }
        return c, i + 1, i, bestScore;
      }
      OneMoreAttempt(pow, base, startL, lighten, target, grounds, i, best, k, score, worst.value);
      if worst.value > bestScore {
        best, bestScore, k := c, worst.value, i;
      }
      score := bestScore;
      l := l + step;
      n := i + 1;
    }
    if n > 0 {
      BestDoesNotClear(pow, base, startL, lighten, target, grounds, n, best, k, score);
    }
  }
}
