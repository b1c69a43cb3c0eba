/** The two palettes of internal/api/theme.go, and that every accent gives readable ones: each search
    comes so close to white, or to black, that it clears its target on both grounds, a step before its
    last already.
 */
module Palettes {
  import opened Theme

  /** A neutral by lightness and saturation. */
  datatype Tone = Tone(l: real, s: real)

  datatype Tones = Tones(bg: Tone, surface: Tone, line: Tone, wave: Tone, muted: Tone, fg: Tone)

  const DARK_TONES := Tones(Tone(0.096, 0.06), Tone(0.133, 0.06), Tone(0.21, 0.08), Tone(0.275, 0.06), Tone(0.62, 0.06),
                            Tone(0.94, 0.16))
  const LIGHT_TONES := Tones(Tone(0.975, 0.23), Tone(0.929, 0.17), Tone(0.847, 0.13), Tone(0.773, 0.10),
                             Tone(0.398, 0.065), Tone(0.116, 0.12))

  const EDGE_TARGET := 3.0
  const FG_TARGET := 7.0

  datatype Palette = Palette(bg: Rgb, surface: Rgb, line: Rgb, edge: Rgb, wave: Rgb, muted: Rgb, fg: Rgb, accent: Rgb,
                             ink: Rgb)

  function TonesOf(dark: bool): Tones {
    if dark then DARK_TONES else LIGHT_TONES
  }

  /** The tone on the accent's hue, its saturation scaled down for a dull accent. */
  function Toned(accent: Rgb, t: Tone): Hsl
    requires InRange(accent)
  {
    var hsl := ToHsl(accent);
    Hsl(hsl.h, t.l, t.s * Min(1.0, hsl.s / 0.5))
  }

  function Tint(accent: Rgb, t: Tone): (c: Rgb)
    requires InRange(accent)
    ensures InRange(c)
  {
    Quantise(FromHsl(Toned(accent, t)))
  }

  /** A tone keeps the hue of the accent. Its saturation is that of the tone for an accent at least half
      saturated, none for a grey, and in proportion between. */
  lemma TonesFollowTheAccent(accent: Rgb, t: Tone)
    requires InRange(accent)
    ensures var c, a := Toned(accent, t), ToHsl(accent);
            && c.h == a.h && c.l == t.l
            && (a.s >= 0.5 ==> c.s == t.s)
            && (a.s <= 0.5 ==> c.s * 0.5 == t.s * a.s)
    ensures accent.r == accent.g == accent.b ==> Tint(accent, t).r == Tint(accent, t).g == Tint(accent, t).b
  {
    ToHslIsUnit(accent);
    var s := ToHsl(accent).s;
    assert accent.r == accent.g == accent.b ==> s == 0.0;
    hide ToHsl;
    assert t.s * (s / 0.5) * 0.5 == t.s * s;
    assert s == 0.0 ==> t.s * (s / 0.5) == 0.0;
  }

  // -- How bright a colour can be --------------------------------------------------

  predicate Proper(c: Hsl) {
    Unit(c.h) && Unit(c.l) && Unit(c.s)
  }

  predicate ChannelsBetween(c: Rgb, lo: real, hi: real) {
    lo <= c.r <= hi && lo <= c.g <= hi && lo <= c.b <= hi
  }

  /** The channels lie between the extremes its lightness and saturation allow. */
  lemma ShadeBounds(c: Hsl)
    requires Proper(c)
    ensures var q := Brightest(c.l, c.s); ChannelsBetween(FromHsl(c), (2.0 * c.l - q) * 255.0, q * 255.0)
  {
    var y, q := c.h * 6.0, Brightest(c.l, c.s);
    if c.s == 0.0 {
      assert q == c.l;
    } else {
      FromHslIsCurve(y, c.l, c.s);
      ExtremesAreUnits(c.l, c.s);
      CurveStaysBetween(2.0 * c.l - q, q, y + 2.0);
      CurveStaysBetween(2.0 * c.l - q, q, y);
      CurveStaysBetween(2.0 * c.l - q, q, y - 2.0);
      hide Curve, Brightest, FromHsl;
    }
  }

  /** What rounding to the grid does to bounds. */
  lemma QuantisedBounds(c: Rgb, lo: real, hi: real)
    requires 0.0 <= lo <= hi <= 255.0 && ChannelsBetween(c, lo, hi)
    ensures ChannelsBetween(Quantise(c), lo - 0.5, hi + 0.5)
  {
  }

  lemma Times(a: real, b: real, c: real)
    requires a <= b && c >= 0.0
    ensures a * c <= b * c
  {
  }

  lemma ProductAtMost(x: real, hi: real, y: real, top: real) returns (p: real)
    requires 0.0 <= x <= hi && 0.0 <= y <= top
    ensures p == x * y && 0.0 <= p <= hi * top
  {
    p := x * y;
    Times(x, hi, y);
    Times(y, top, hi);
  }

  /** The brightest a channel of a dark colour gets. */
  lemma DarkSum(l: real, s: real, hi: real, top: real) returns (p: real)
    requires 0.0 <= l <= hi < 0.5 && 0.0 <= s <= top
    ensures 0.0 <= p <= hi * top && Brightest(l, s) == l + p
  {
    p := ProductAtMost(l, hi, s, top);
  }

  /** And of a light one. */
  lemma LightSum(l: real, s: real, hi: real, top: real) returns (p: real)
    requires 0.5 <= l <= 1.0 && 1.0 - l <= hi && 0.0 <= s <= top
    ensures 0.0 <= p <= hi * top && Brightest(l, s) == l + p
  {
    p := ProductAtMost(1.0 - l, hi, s, top);
    assert (1.0 - l) * s == s - l * s;
  }

  lemma DarkExtremes(l: real, s: real)
    requires 0.0 <= l <= 0.133 && 0.0 <= s <= 0.06
    ensures 0.0 <= 2.0 * l - Brightest(l, s) && Brightest(l, s) <= 0.141
  {
    ExtremesAreUnits(l, s);
    hide Brightest;
    var p := DarkSum(l, s, 0.133, 0.06);
  }

  lemma LightExtremes(l: real, s: real)
    requires 0.929 <= l <= 1.0 && 0.0 <= s <= 0.23
    ensures 0.912 <= 2.0 * l - Brightest(l, s) && Brightest(l, s) <= 1.0
  {
    ExtremesAreUnits(l, s);
    hide Brightest;
    var p := LightSum(l, s, 0.071, 0.23);
  }

  lemma BlackestExtremes(l: real, s: real)
    requires 0.0 <= l <= 0.01 && Unit(s)
    ensures 0.0 <= 2.0 * l - Brightest(l, s) && Brightest(l, s) <= 0.02
  {
    ExtremesAreUnits(l, s);
    hide Brightest;
    var p := DarkSum(l, s, 0.01, 1.0);
  }

  lemma WhitestExtremes(l: real, s: real)
    requires 0.99 <= l <= 1.0 && Unit(s)
    ensures 0.98 <= 2.0 * l - Brightest(l, s) && Brightest(l, s) <= 1.0
  {
    ExtremesAreUnits(l, s);
    hide Brightest;
    var p := LightSum(l, s, 0.01, 1.0);
  }

  // -- Luminance -----------------------------------------------------------------

  /** x^2.4 on [0, 1] lies between the cube and the square. */
  ghost predicate Between2And3(pow: Power) {
    IsPower(pow) && forall x :: Unit(x) ==> PowerBounds(x, pow(x))
  }

  predicate PowerBounds(x: real, y: real) {
    x * x * x <= y <= x * x
  }

  lemma SquareBelow(x: real, hi: real)
    requires 0.0 <= x <= hi
    ensures x * x <= hi * hi
  {
    Times(x, hi, x);
    Times(x, hi, hi);
  }

  lemma CubeAbove(x: real, lo: real)
    requires 0.0 <= lo <= x
    ensures lo * lo * lo <= x * x * x
  {
    SquareBelow(lo, x);
    Times(lo * lo, x * x, lo);
    Times(lo, x, x * x);
  }

  lemma DarkChannel(pow: Power, v: real)
    requires Between2And3(pow) && 0.0 <= v <= 36.5
    ensures 0.0 <= Linear(pow, v) <= 0.036
  {
    LinearIsUnit(pow, v);
    var x := (v / 255.0 + 0.055) / 1.055;
    if v / 255.0 > 0.03928 {
      assert x <= 0.1879;
      SquareBelow(x, 0.1879);
      assert PowerBounds(x, pow(x));
    }
  }

  lemma LightChannel(pow: Power, v: real)
    requires Between2And3(pow) && 232.0 <= v <= 255.0
    ensures 0.76 <= Linear(pow, v) <= 1.0
  {
    LinearIsUnit(pow, v);
    var x := (v / 255.0 + 0.055) / 1.055;
    assert x >= 0.914;
    CubeAbove(x, 0.914);
    assert PowerBounds(x, pow(x));
  }

  lemma BlackestChannel(pow: Power, v: real)
    requires Between2And3(pow) && 0.0 <= v <= 5.6
    ensures 0.0 <= Linear(pow, v) <= 0.002
  {
  }

  lemma WhitestChannel(pow: Power, v: real)
    requires Between2And3(pow) && 249.4 <= v <= 255.0
    ensures 0.93 <= Linear(pow, v) <= 1.0
  {
    LinearIsUnit(pow, v);
    var x := (v / 255.0 + 0.055) / 1.055;
    assert x >= 0.979;
    CubeAbove(x, 0.979);
    assert PowerBounds(x, pow(x));
  }

  lemma DarkLuminance(pow: Power, c: Rgb)
    requires Between2And3(pow) && InRange(c) && ChannelsBetween(c, 0.0, 36.5)
    ensures 0.0 <= RelativeLuminance(pow, c) <= 0.036
  {
    DarkChannel(pow, c.r);
    DarkChannel(pow, c.g);
    DarkChannel(pow, c.b);
    hide Linear;
  }

  lemma LightLuminance(pow: Power, c: Rgb)
    requires Between2And3(pow) && InRange(c) && ChannelsBetween(c, 232.0, 255.0)
    ensures 0.76 <= RelativeLuminance(pow, c) <= 1.0
  {
    LightChannel(pow, c.r);
    LightChannel(pow, c.g);
    LightChannel(pow, c.b);
    hide Linear;
  }

  lemma BlackestLuminance(pow: Power, c: Rgb)
    requires Between2And3(pow) && InRange(c) && ChannelsBetween(c, 0.0, 5.6)
    ensures 0.0 <= RelativeLuminance(pow, c) <= 0.002
  {
    BlackestChannel(pow, c.r);
    BlackestChannel(pow, c.g);
    BlackestChannel(pow, c.b);
    hide Linear;
  }

  lemma WhitestLuminance(pow: Power, c: Rgb)
    requires Between2And3(pow) && InRange(c) && ChannelsBetween(c, 249.4, 255.0)
    ensures 0.93 <= RelativeLuminance(pow, c) <= 1.0
  {
    WhitestChannel(pow, c.r);
    WhitestChannel(pow, c.g);
    WhitestChannel(pow, c.b);
    hide Linear;
  }

  lemma QuotientAtLeast(n: real, d: real, t: real)
    requires d > 0.0 && n >= t * d
    ensures n / d >= t
  {
    var x := n / d;
    assert x * d == n;
    if x < t {
      assert (t - x) * d > 0.0;
    }
  }

  lemma FarApart(la: real, lb: real)
    requires (0.0 <= la <= 0.036 && 0.93 <= lb <= 1.0) || (0.0 <= la <= 0.002 && 0.76 <= lb <= 1.0)
    ensures Ratio(la, lb) >= FG_TARGET && Ratio(lb, la) >= FG_TARGET
  {
    QuotientAtLeast(lb + 0.05, la + 0.05, 7.0);
  }

  lemma GreyOf200(pow: Power)
    requires Between2And3(pow)
    ensures 0.5 <= RelativeLuminance(pow, Rgb(200.0, 200.0, 200.0)) <= 0.634
  {
    GreysOfEightBits(pow, 200);
    var x := 214.025 / 269.025;
    assert 0.7955 <= x <= 0.7956;
    CubeAbove(x, 0.7955);
    SquareBelow(x, 0.7956);
    assert PowerBounds(x, pow(x));
    hide RelativeLuminance;
  }

  lemma ContrastIs(pow: Power, c: Rgb)
    requires IsPower(pow) && InRange(c)
    ensures Contrast(pow, c, BLACK) == 1.0 + 20.0 * RelativeLuminance(pow, c)
    ensures Contrast(pow, c, WHITE) * (RelativeLuminance(pow, c) + 0.05) == 1.05
  {
    BlackAndWhite(pow);
    LuminanceIsUnit(pow, c);
    RatiosMultiply(0.0, RelativeLuminance(pow, c), 1.0);
    RatiosMultiply(0.0, 0.0, RelativeLuminance(pow, c));
    hide RelativeLuminance;
  }

  /** Green is far brighter than red: white is readable on this red, and not on the green of its strength. */
  lemma InksOfRedAndGreen(pow: Power, accent: Rgb, ink: Rgb)
    requires Between2And3(pow) && InRange(ink)
    requires accent == Rgb(200.0, 0.0, 0.0) || accent == Rgb(0.0, 200.0, 0.0)
    requires IsInk(pow, accent, [WHITE], ink)
    ensures ink == if accent.r > 0.0 then WHITE else BLACK
  {
    GreyOf200(pow);
    ChannelsAddUp(pow, accent);
    ContrastIs(pow, accent);
    var l := RelativeLuminance(pow, accent);
    assert if accent.r > 0.0 then l <= 0.135 else 0.357 <= l <= 0.46;
    hide RelativeLuminance, Between2And3, Contrast;
    var w := Contrast(pow, accent, WHITE);
    assert l <= 0.135 ==> w >= 4.5 by {
      assert w < 4.5 && l <= 0.135 ==> w * (l + 0.05) < 4.5 * 0.185;
    }
    assert l >= 0.357 ==> w < 4.5 by {
      assert w >= 4.5 && l >= 0.357 ==> w * (l + 0.05) >= 4.5 * 0.407;
    }
    assert [WHITE][0] == WHITE;
  }

  // -- Grounds and late attempts ---------------------------------------------------

  predicate Ground(dark: bool, t: Tone) {
    if dark then 0.0 <= t.l <= 0.133 && 0.0 <= t.s <= 0.06 else 0.929 <= t.l <= 1.0 && 0.0 <= t.s <= 0.23
  }

  lemma GroundShade(c: Hsl, dark: bool)
    requires Proper(c) && Ground(dark, Tone(c.l, c.s))
    ensures if dark then ChannelsBetween(Quantise(FromHsl(c)), 0.0, 36.5)
            else ChannelsBetween(Quantise(FromHsl(c)), 232.0, 255.0)
  {
    hide Brightest, FromHsl, Quantise;
    ShadeBounds(c);
    if dark {
      DarkExtremes(c.l, c.s);
      QuantisedBounds(FromHsl(c), 0.0, 0.141 * 255.0);
    } else {
      LightExtremes(c.l, c.s);
      QuantisedBounds(FromHsl(c), 0.912 * 255.0, 255.0);
    }
  }

  lemma ScaledTone(accent: Rgb, dark: bool, t: Tone)
    requires InRange(accent) && Ground(dark, t)
    ensures var c := Toned(accent, t); Proper(c) && Ground(dark, Tone(c.l, c.s))
  {
    ToHslIsUnit(accent);
    hide ToHsl;
    var s := Share(t.s, Min(1.0, ToHsl(accent).s / 0.5));
  }

  /** A ground is near black in the dark scheme, near white in the light one, whatever the accent. */
  lemma GroundBounds(accent: Rgb, dark: bool, t: Tone)
    requires InRange(accent) && Ground(dark, t)
    ensures if dark then ChannelsBetween(Tint(accent, t), 0.0, 36.5) else ChannelsBetween(Tint(accent, t), 232.0, 255.0)
  {
    hide Toned, FromHsl, Quantise, Ground, Proper, ChannelsBetween;
    ScaledTone(accent, dark, t);
    GroundShade(Toned(accent, t), dark);
  }

  /** Attempt `k` is within two steps of white, or of black. */
  predicate NearTheEnd(startL: real, dark: bool, k: nat) {
    Reached(startL, dark, k) &&
    if dark then Lightness(startL, dark, k) >= 0.99 else Lightness(startL, dark, k) <= 0.01
  }

  lemma LateAttempt(base: Rgb, startL: real, dark: bool, k: nat)
    requires InRange(base) && NearTheEnd(startL, dark, k)
    ensures if dark then ChannelsBetween(Attempt(base, startL, dark, k), 249.4, 255.0)
            else ChannelsBetween(Attempt(base, startL, dark, k), 0.0, 5.6)
  {
    ToHslIsUnit(base);
    var hsl := ToHsl(base);
    hide ToHsl, FromHsl, Quantise, Brightest;
    var l := Lightness(startL, dark, k);
    var c := hsl.(l := l);
    ShadeBounds(c);
    if dark {
      WhitestExtremes(l, hsl.s);
      QuantisedBounds(FromHsl(c), 0.98 * 255.0, 255.0);
    } else {
      BlackestExtremes(l, hsl.s);
      QuantisedBounds(FromHsl(c), 0.0, 0.02 * 255.0);
    }
    AttemptInRange(base, startL, dark, k);
  }

  lemma AttemptInRange(base: Rgb, startL: real, dark: bool, k: nat)
    requires InRange(base)
    ensures ChannelsBetween(Attempt(base, startL, dark, k), 0.0, 255.0)
  {
    hide Quantise, ToHsl, FromHsl;
  }

  ghost predicate IsGround(accent: Rgb, dark: bool, g: Rgb)
    requires InRange(accent)
  {
    exists t :: Ground(dark, t) && g == Tint(accent, t)
  }

  ghost predicate Grounds(accent: Rgb, dark: bool, grounds: seq<Rgb>)
    requires InRange(accent)
  {
    forall i :: 0 <= i < |grounds| ==> IsGround(accent, dark, grounds[i])
  }

  lemma StandsOut(pow: Power, c: Rgb, ground: Rgb, dark: bool)
    requires Between2And3(pow) && InRange(c) && InRange(ground)
    requires if dark then ChannelsBetween(c, 249.4, 255.0) && ChannelsBetween(ground, 0.0, 36.5)
             else ChannelsBetween(c, 0.0, 5.6) && ChannelsBetween(ground, 232.0, 255.0)
    ensures Contrast(pow, c, ground) >= FG_TARGET
  {
    if dark {
      WhitestLuminance(pow, c);
      DarkLuminance(pow, ground);
      FarApart(RelativeLuminance(pow, ground), RelativeLuminance(pow, c));
    } else {
      LightLuminance(pow, ground);
      BlackestLuminance(pow, c);
      FarApart(RelativeLuminance(pow, c), RelativeLuminance(pow, ground));
    }
    hide RelativeLuminance, Ratio, Between2And3;
  }

  lemma LateAttemptClears(pow: Power, accent: Rgb, base: Rgb, startL: real, dark: bool, k: nat, target: real,
                          grounds: seq<Rgb>)
    requires Between2And3(pow) && InRange(accent) && InRange(base) && Displayable(pow, grounds)
    requires Grounds(accent, dark, grounds) && NearTheEnd(startL, dark, k) && target <= FG_TARGET
    ensures Clears(pow, Attempt(base, startL, dark, k), target, grounds)
  {
    var c := Attempt(base, startL, dark, k);
    LateAttempt(base, startL, dark, k);
    hide Attempt, Tint, NearTheEnd, Ground, Between2And3, Contrast, ChannelsBetween;
    forall i | 0 <= i < |grounds| ensures Contrast(pow, c, grounds[i]) >= target {
      assert IsGround(accent, dark, grounds[i]);
      var t :| Ground(dark, t) && grounds[i] == Tint(accent, t);
      GroundBounds(accent, dark, t);
      StandsOut(pow, c, grounds[i], dark);
    }
  }

  // -- The palettes --------------------------------------------------------------------

  /** The first attempt to clear the target on every ground. */
  ghost predicate FirstToClear(pow: Power, base: Rgb, startL: real, dark: bool, target: real, grounds: seq<Rgb>, c: Rgb)
    requires Displayable(pow, grounds) && InRange(base) && InRange(c)
  {
    Clears(pow, c, target, grounds) &&
    exists k: nat :: Reached(startL, dark, k) && c == Attempt(base, startL, dark, k)
                     && NoneClears(pow, base, startL, dark, target, grounds, k)
  }

  /** A search that comes near its end finds a colour. */
  method FitToGrounds(pow: Power, accent: Rgb, base: Rgb, startL: real, dark: bool, target: real, grounds: seq<Rgb>,
                      ghost late: nat)
    returns (c: Rgb)
    requires Between2And3(pow) && InRange(accent) && InRange(base) && Displayable(pow, grounds)
    requires Grounds(accent, dark, grounds) && NearTheEnd(startL, dark, late) && target <= FG_TARGET
    ensures InRange(c) && FirstToClear(pow, base, startL, dark, target, grounds, c)
  {
    LateAttemptClears(pow, accent, base, startL, dark, late, target, grounds);
    ghost var n, k, score;
    c, n, k, score := Fit(pow, base, startL, dark, target, grounds);
    hide Attempt, Clears, Lightness, Grounds, Between2And3;
  }

  function MutedStart(dark: bool): real {
    TonesOf(dark).muted.l
  }

  function FgStart(dark: bool): real {
    TonesOf(dark).fg.l
  }

  function EdgeStart(dark: bool): real {
    if dark then 0.40 else 0.62
  }

  function AccentStart(dark: bool): real {
    if dark then 0.55 else 0.50
  }

  /** With a step or more to spare. */
  lemma SearchesComeNear(dark: bool)
    ensures NearTheEnd(MutedStart(dark), dark, if dark then 75 else 78)
    ensures NearTheEnd(FgStart(dark), dark, if dark then 11 else 22)
    ensures NearTheEnd(EdgeStart(dark), dark, if dark then 119 else 123)
    ensures NearTheEnd(AccentStart(dark), dark, if dark then 89 else 99)
  {
  }

  lemma BothAreGrounds(base: Rgb, dark: bool)
    requires InRange(base)
    ensures Grounds(base, dark, [Tint(base, TonesOf(dark).bg), Tint(base, TonesOf(dark).surface)])
  {
    assert Ground(dark, TonesOf(dark).bg) && Ground(dark, TonesOf(dark).surface);
    hide Tint, Ground, TonesOf;
    assert IsGround(base, dark, Tint(base, TonesOf(dark).bg));
    assert IsGround(base, dark, Tint(base, TonesOf(dark).surface));
  }

  /** Whatever the accent, every text of the palette is readable on both of its grounds, the edge of a
      control is visible on them, and the label of a button is readable on the accent; each is the
      first lightness tried that is. */
  method PaletteFor(pow: Power, base: Rgb, dark: bool) returns (p: Palette)
    requires Between2And3(pow) && InRange(base)
    ensures p.bg == Tint(base, TonesOf(dark).bg) && p.surface == Tint(base, TonesOf(dark).surface)
    ensures p.line == Tint(base, TonesOf(dark).line) && p.wave == Tint(base, TonesOf(dark).wave)
    ensures InRange(p.muted) && InRange(p.fg) && InRange(p.edge) && InRange(p.accent) && InRange(p.ink)
    ensures var grounds := [p.bg, p.surface];
            && FirstToClear(pow, Tint(base, TonesOf(dark).muted), TonesOf(dark).muted.l, dark, 4.5, grounds, p.muted)
            && FirstToClear(pow, Tint(base, TonesOf(dark).fg), TonesOf(dark).fg.l, dark, 7.0, grounds, p.fg)
            && FirstToClear(pow, p.line, if dark then 0.40 else 0.62, dark, 3.0, grounds, p.edge)
            && FirstToClear(pow, base, if dark then 0.55 else 0.50, dark, 4.5, grounds, p.accent)
    ensures IsInk(pow, p.accent, [p.bg, WHITE], p.ink) && Contrast(pow, p.accent, p.ink) >= 4.5
  {
    hide Tint, Contrast, FirstToClear, NearTheEnd, Grounds;
    SearchesComeNear(dark);
    BothAreGrounds(base, dark);
    var tones := TonesOf(dark);
    var bg, surface, line := Tint(base, tones.bg), Tint(base, tones.surface), Tint(base, tones.line);
    var grounds := [bg, surface];
    ghost var mutedEnd, fgEnd: nat := if dark then 75 else 78, if dark then 11 else 22;
    ghost var edgeEnd, accentEnd: nat := if dark then 119 else 123, if dark then 89 else 99;
    var muted := FitToGrounds(pow, base, Tint(base, tones.muted), tones.muted.l, dark, CONTRAST_TARGET, grounds,
        mutedEnd);
    var fg := FitToGrounds(pow, base, Tint(base, tones.fg), tones.fg.l, dark, FG_TARGET, grounds, fgEnd);
    var edgeStart := 0.40;
    if !dark {
      edgeStart := 0.62;
    }
    var edge := FitToGrounds(pow, base, line, edgeStart, dark, EDGE_TARGET, grounds, edgeEnd);
    var startL := 0.55;
    if !dark {
      startL := 0.50;
    }
    var accent := FitToGrounds(pow, base, base, startL, dark, CONTRAST_TARGET, grounds, accentEnd);
    var ink := PickInk(pow, accent, [bg, WHITE]);
    p := Palette(bg, surface, line, edge, Tint(base, tones.wave), muted, fg, accent, ink);
  }
}
