/** The colour conversions of `MochiKit.Color`, over the reals. Components of a colour
    lie in [0,1]; a is the alpha component, which every conversion passes through. */
module Colour {
  import opened Basics

  datatype Rgb = Rgb(r: real, g: real, b: real, a: real)
  datatype Hsl = Hsl(h: real, s: real, l: real, a: real)
  datatype Hsv = Hsv(h: real, s: real, v: real, a: real)

  predicate Unit(x: real) { 0.0 <= x <= 1.0 }

  predicate UnitRgb(c: Rgb) { Unit(c.r) && Unit(c.g) && Unit(c.b) }

  function Max(x: real, y: real): real { if x < y then y else x }

  function Min(x: real, y: real): real { if y < x then y else x }

  function Most(c: Rgb): real { Max(Max(c.r, c.g), c.b) }

  function Least(c: Rgb): real { Min(Min(c.r, c.g), c.b) }

  // ---- from RGB ----

  /** The hue of a colour that is not grey, in sixths of a turn, before it is wrapped. */
  function Sector(c: Rgb): real
    requires Least(c) < Most(c)
  {
    var max, delta := Most(c), Most(c) - Least(c);
    if c.r == max then (c.g - c.b) / delta
    else if c.g == max then 2.0 + (c.b - c.r) / delta
    else 4.0 + (c.r - c.g) / delta
  }

  function Hue(c: Rgb): real
    requires Least(c) < Most(c)
  {
    var sixth := Sector(c) / 6.0;
    var up := if sixth < 0.0 then sixth + 1.0 else sixth;
    if up > 1.0 then up - 1.0 else up
  }

  function Saturation(max: real, min: real): real
    requires 0.0 <= min < max <= 1.0
  {
    if (max + min) / 2.0 <= 0.5 then (max - min) / (max + min) else (max - min) / (2.0 - max - min)
  }

  function RgbToHsl(c: Rgb): Hsl
    requires UnitRgb(c)
  {
    var max, min := Most(c), Least(c);
    var lightness, delta := (max + min) / 2.0, max - min;
    if delta == 0.0 then Hsl(0.0, 0.0, lightness, c.a)
    else Hsl(Hue(c), Saturation(max, min), lightness, c.a)
  }

  function RgbToHsv(c: Rgb): Hsv
    requires UnitRgb(c)
  {
    var max, min := Most(c), Least(c);
    if min == max then Hsv(0.0, 0.0, max, c.a)
    else Hsv(Hue(c), (max - min) / max, max, c.a)
  }

  // ---- to RGB ----

  function HslValue(n1: real, n2: real, hue: real): real {
    var h := if hue > 6.0 then hue - 6.0 else if hue < 0.0 then hue + 6.0 else hue;
    if h < 1.0 then n1 + (n2 - n1) * h
    else if h < 3.0 then n2
    else if h < 4.0 then n1 + (n2 - n1) * (4.0 - h)
    else n1
  }

  function Upper(s: real, l: real): real {
    if l <= 0.5 then l * (1.0 + s) else l + s - l * s
  }

  function HslToRgb(c: Hsl): Rgb {
    if c.s == 0.0 then Rgb(c.l, c.l, c.l, c.a)
    else
      var m2 := Upper(c.s, c.l);
      var m1 := 2.0 * c.l - m2;
      var h6 := c.h * 6.0;
      Rgb(HslValue(m1, m2, h6 + 2.0), HslValue(m1, m2, h6), HslValue(m1, m2, h6 - 2.0), c.a)
  }

  /** None: no case of the switch matches, and the components stay undefined. */
  function Switch(i: int, v: real, p: real, q: real, t: real, a: real): Option<Rgb> {
    if i == 1 then Some(Rgb(q, v, p, a))
    else if i == 2 then Some(Rgb(p, v, t, a))
    else if i == 3 then Some(Rgb(p, q, v, a))
    else if i == 4 then Some(Rgb(t, p, v, a))
    else if i == 5 then Some(Rgb(v, p, q, a))
    else if i == 6 || i == 0 then Some(Rgb(v, t, p, a))
    else None
  }

  function Sextant(h: real): int { (h * 6.0).Floor }

  function Fraction(h: real): real { h * 6.0 - Sextant(h) as real }

  function Sector6(v: real, s: real, i: int, f: real, a: real): Option<Rgb> {
    Switch(i, v, v * (1.0 - s), v * (1.0 - s * f), v * (1.0 - s * (1.0 - f)), a)
  }

  function HsvToRgb(c: Hsv): Option<Rgb> {
    if c.s == 0.0 then Some(Rgb(0.0, 0.0, 0.0, c.a))
    else
      Sector6(c.v, c.s, Sextant(c.h), Fraction(c.h), c.a)
  }

  // ---- the colour wheel ----

  /** What both pairs of conversions mean by a hue: the colour in sector k of six with the
      given least and greatest component, the middle one having moved by y. */
  ghost function Wheel(m: real, M: real, k: int, y: real, a: real): Rgb {
    if k == 0 then Rgb(M, m + y, m, a)
    else if k == 1 then Rgb(M - y, M, m, a)
    else if k == 2 then Rgb(m, M, m + y, a)
    else if k == 3 then Rgb(m, M - y, M, a)
    else if k == 4 then Rgb(m + y, m, M, a)
    else Rgb(M, m, M - y, a)
  }

  ghost function Moved(d: real, f: real): real { d * f }

  ghost function AtHue(m: real, M: real, h: real, a: real): Rgb {
    Wheel(m, M, Sextant(h), Moved(M - m, Fraction(h)), a)
  }

  lemma HslIsWheel(c: Hsl)
    requires c.s != 0.0 && 0.0 <= c.h < 1.0
    ensures HslToRgb(c) == AtHue(2.0 * c.l - Upper(c.s, c.l), Upper(c.s, c.l), c.h, c.a)
  {
    HslValueIsWheel(2.0 * c.l - Upper(c.s, c.l), Upper(c.s, c.l), c.h * 6.0, Sextant(c.h), Fraction(c.h), c.a);
  }

  lemma HslValueIsWheel(m: real, M: real, h6: real, k: int, f: real, a: real)
    requires 0 <= k < 6 && 0.0 <= f < 1.0 && h6 == k as real + f
    ensures Rgb(HslValue(m, M, h6 + 2.0), HslValue(m, M, h6), HslValue(m, M, h6 - 2.0), a)
        == Wheel(m, M, k, Moved(M - m, f), a)
  {
    assert (M - m) * (1.0 - f) == (M - m) - (M - m) * f;
    if f == 0.0 {
      assert (M - m) * f == 0.0;
    }
  }

  lemma Mix(v: real, s: real, f: real, p: real)
    requires p == v * (1.0 - s)
    ensures v * (1.0 - s * f) == v - Moved(v - p, f)
    ensures v * (1.0 - s * (1.0 - f)) == p + Moved(v - p, f)
  {
    assert v - p == v * s;
    assert v * (1.0 - s * f) == v - (v * s) * f;
    assert v * (1.0 - s * (1.0 - f)) == v * (1.0 - s) + (v * s) * f;
  }

  lemma SwitchIsWheel(p: real, v: real, y: real, k: int, a: real)
    requires 0 <= k < 6
    ensures Switch(k, v, p, v - y, p + y, a) == Some(Wheel(p, v, k, y, a))
  {
  }

  lemma SectorIsWheel(v: real, s: real, k: int, f: real, a: real, p: real)
    requires 0 <= k < 6 && p == v * (1.0 - s)
    ensures Sector6(v, s, k, f, a) == Some(Wheel(p, v, k, Moved(v - p, f), a))
  {
    Mix(v, s, f, p);
    SwitchIsWheel(p, v, Moved(v - p, f), k, a);
  }

  lemma HsvIsWheel(c: Hsv, p: real)
    requires c.s != 0.0 && 0.0 <= c.h < 1.0 && p == c.v * (1.0 - c.s)
    ensures HsvToRgb(c) == Some(AtHue(p, c.v, c.h, c.a))
  {
    SectorIsWheel(c.v, c.s, Sextant(c.h), Fraction(c.h), c.a, p);
  }

  lemma Sector6Starts(v: real, s: real, a: real, p: real)
    requires p == v * (1.0 - s)
    ensures Sector6(v, s, 6, 0.0, a) == Some(Rgb(v, p, p, a))
  {
  }

  lemma HsvFullTurn(c: Hsv, p: real)
    requires c.s != 0.0 && c.h == 1.0 && p == c.v * (1.0 - c.s)
    ensures HsvToRgb(c) == Some(Rgb(c.v, p, p, c.a))
  {
    assert Sextant(c.h) == 6 && Fraction(c.h) == 0.0;
    Sector6Starts(c.v, c.s, c.a, p);
  }

  // ---- what the hue of a colour is ----

  lemma Sign(x: real, d: real)
    requires d > 0.0
    ensures x < 0.0 <==> x * d < 0.0
    ensures x == 0.0 <==> x * d == 0.0
  {
  }

  lemma Scaled(x: real, d: real)
    requires d > 0.0
    ensures x < 0.0 <==> x * d < 0.0
    ensures x == 0.0 <==> x * d == 0.0
    ensures x < 1.0 <==> x * d < d
    ensures x == 1.0 <==> x * d == d
    ensures x < -1.0 <==> x * d < -d
    ensures x == -1.0 <==> x * d == -d
  {
    Sign(x, d);
    Sign(x - 1.0, d);
    Sign(x + 1.0, d);
    assert (x - 1.0) * d == x * d - d;
    assert (x + 1.0) * d == x * d + d;
  }

  lemma Quotient(n: real, d: real)
    requires d > 0.0 && -d <= n <= d
    ensures n / d * d == n
    ensures -1.0 <= n / d <= 1.0
    ensures n / d == 1.0 <==> n == d
    ensures n / d == -1.0 <==> n == -d
    ensures n / d < 0.0 <==> n < 0.0
  {
    var x := n / d;
    assert x * d == n;
    Scaled(x, d);
  }

  /** Where the hue stands: x is the signed fraction of a sector, from the middle of the
      two sectors in which a component is the greatest. */
  lemma HueInSector(c: Rgb) returns (x: real)
    requires Least(c) < Most(c)
    ensures -1.0 <= x <= 1.0
    ensures var d, h6 := Most(c) - Least(c), Hue(c) * 6.0;
      if c.r == Most(c) then x * d == c.g - c.b && h6 == (if x < 0.0 then x + 6.0 else x)
      else if c.g == Most(c) then -1.0 < x && x * d == c.b - c.r && h6 == x + 2.0
      else -1.0 < x < 1.0 && x * d == c.r - c.g && h6 == x + 4.0
  {
    var d := Most(c) - Least(c);
    var n := if c.r == Most(c) then c.g - c.b else if c.g == Most(c) then c.b - c.r else c.r - c.g;
    x := n / d;
    Quotient(n, d);
  }

  lemma HueRange(c: Rgb)
    requires Least(c) < Most(c)
    ensures 0.0 <= Hue(c) < 1.0
  {
    var x := HueInSector(c);
  }

  lemma SectorColour(c: Rgb, x: real, k: int, f: real)
    requires Least(c) < Most(c) && -1.0 <= x <= 1.0 && 0 <= k < 6 && 0.0 <= f < 1.0
    requires var d, h6 := Most(c) - Least(c), k as real + f;
      if c.r == Most(c) then x * d == c.g - c.b && h6 == (if x < 0.0 then x + 6.0 else x)
      else if c.g == Most(c) then -1.0 < x && x * d == c.b - c.r && h6 == x + 2.0
      else -1.0 < x < 1.0 && x * d == c.r - c.g && h6 == x + 4.0
    ensures c == Wheel(Least(c), Most(c), k, Moved(Most(c) - Least(c), f), c.a)
  {
    var d := Most(c) - Least(c);
    Scaled(x, d);
    assert d * (x + 1.0) == x * d + d;
  }

  /** Every colour that is not grey is the wheel's colour at its own hue. */
  lemma ColourIsWheel(c: Rgb)
    requires Least(c) < Most(c)
    ensures 0.0 <= Hue(c) < 1.0
    ensures c == AtHue(Least(c), Most(c), Hue(c), c.a)
  {
    var x := HueInSector(c);
    SectorColour(c, x, Sextant(Hue(c)), Fraction(Hue(c)));
  }

  /** ... and the wheel's colour at a hue has that hue, and the components asked for. */
  lemma WheelHasHue(m: real, M: real, h: real, a: real)
    requires m < M && 0.0 <= h < 1.0
    ensures var c := AtHue(m, M, h, a); Least(c) == m && Most(c) == M && Hue(c) == h
  {
    MovedBack(M - m, Fraction(h));
    WheelSector(m, M, Sextant(h), Moved(M - m, Fraction(h)), a);
    Unwrap(AtHue(m, M, h, a), h);
  }

  lemma MovedBack(d: real, f: real)
    requires d > 0.0 && 0.0 <= f < 1.0
    ensures 0.0 <= Moved(d, f) < d && Moved(d, f) / d == f
  {
    Sign(f, d);
    Sign(1.0 - f, d);
    assert (1.0 - f) * d == d - d * f;
    Ratio(d * f, d, f);
  }

  lemma Unwrap(c: Rgb, h: real)
    requires Least(c) < Most(c) && 0.0 <= h < 1.0
    requires Sector(c) == h * 6.0 || (h * 6.0 >= 5.0 && Sector(c) == h * 6.0 - 6.0)
    ensures Hue(c) == h
  {
  }

  lemma WheelSector(m: real, M: real, k: int, y: real, a: real)
    requires m < M && 0 <= k < 6 && 0.0 <= y < M - m
    ensures var c := Wheel(m, M, k, y, a);
      && Least(c) == m && Most(c) == M
      && Sector(c) == if k == 5 then y / (M - m) - 1.0 else k as real + y / (M - m)
  {
    var d, f := M - m, y / (M - m);
    Ratio(d, d, 1.0);
    Ratio(-y, d, -f);
    Ratio(d - y, d, 1.0 - f);
    Ratio(y - d, d, f - 1.0);
  }

  lemma Ratio(n: real, d: real, y: real)
    requires d > 0.0 && n == d * y
    ensures n / d == y
  {
  }

  // ---- saturation ----

  lemma UpperOf(sum: real, d: real, s: real, l: real)
    requires l == sum / 2.0
    requires if l <= 0.5 then s * sum == d else s * (2.0 - sum) == d
    ensures Upper(s, l) == (sum + d) / 2.0
  {
    if l <= 0.5 {
      assert l * (1.0 + s) == l + (s * sum) / 2.0;
    } else {
      assert l + s - l * s == l + (s * (2.0 - sum)) / 2.0;
    }
  }

  lemma Over(n: real, d: real)
    requires n > 0.0 && d > 0.0
    ensures n / d > 0.0 && n / d * d == n
  {
    Sign(n / d, d);
  }

  lemma SaturationMeans(M: real, m: real)
    requires 0.0 <= m < M <= 1.0
    ensures Saturation(M, m) > 0.0 && Upper(Saturation(M, m), (M + m) / 2.0) == M
  {
    var s, l := Saturation(M, m), (M + m) / 2.0;
    if l <= 0.5 {
      Over(M - m, M + m);
    } else {
      Over(M - m, 2.0 - M - m);
      assert s * (2.0 - (M + m)) == M - m;
    }
    UpperOf(M + m, M - m, s, l);
  }

  lemma HslMeans(c: Rgb)
    requires UnitRgb(c) && Least(c) < Most(c)
    ensures var hsl := RgbToHsl(c);
      && hsl.h == Hue(c) && hsl.a == c.a && hsl.s > 0.0
      && Upper(hsl.s, hsl.l) == Most(c) && 2.0 * hsl.l - Most(c) == Least(c)
  {
    SaturationMeans(Most(c), Least(c));
  }

  lemma HsvMeans(M: real, m: real, s: real)
    requires 0.0 <= m < M && s == (M - m) / M
    ensures s > 0.0 && m == M * (1.0 - s)
  {
    Over(M - m, M);
    assert M * (1.0 - s) == M - s * M;
  }

  lemma Spread(s: real, x: real) returns (e: real)
    requires 0.0 < s <= 1.0 && x > 0.0
    ensures e == s * x && 0.0 < e <= x && e / x == s && (2.0 * e) / (2.0 * x) == s
  {
    e := s * x;
    Sign(s, x);
    Sign(1.0 - s, x);
    assert (1.0 - s) * x == x - s * x;
    Ratio(e, x, s);
    Ratio(2.0 * e, 2.0 * x, s);
  }

  lemma UpperIs(s: real, l: real, e: real)
    requires e == if l <= 0.5 then s * l else s * (1.0 - l)
    ensures Upper(s, l) == l + e
  {
  }

  /** The spread of the components an HSL colour stands for, and its saturation again. */
  lemma HslSpread(s: real, l: real)
    requires 0.0 < s <= 1.0 && 0.0 < l < 1.0
    ensures var M := Upper(s, l); var m := 2.0 * l - M;
      && 0.0 <= m < M <= 1.0
      && s == if l <= 0.5 then (M - m) / (M + m) else (M - m) / (2.0 - M - m)
  {
    var x := if l <= 0.5 then l else 1.0 - l;
    var e := Spread(s, x);
    UpperIs(s, l, e);
    var M := Upper(s, l);
    var m := 2.0 * l - M;
    assert M - m == 2.0 * e && (if l <= 0.5 then M + m else 2.0 - M - m) == 2.0 * x;
  }

  /** The same for HSV. */
  lemma HsvSpread(s: real, v: real) returns (p: real)
    requires 0.0 < s <= 1.0 && Unit(v)
    ensures p == v * (1.0 - s) && 0.0 <= p <= v && (v > 0.0 ==> p < v && (v - p) / v == s)
  {
    p := v * (1.0 - s);
    if v > 0.0 {
      var e := Spread(s, v);
      assert p == v - e;
    }
  }

  /** Black, white and the full turn, which `hslToRGB` takes for hue 0. */
  lemma HslAtEdge(c: Hsl)
    requires c.h == 1.0 || (Unit(c.h) && (c.l == 0.0 || c.l == 1.0))
    requires 0.0 < c.s <= 1.0
    ensures var m, M := 2.0 * c.l - Upper(c.s, c.l), Upper(c.s, c.l);
      && (c.l == 0.0 ==> m == M == 0.0) && (c.l == 1.0 ==> m == M == 1.0)
      && (m == M ==> HslToRgb(c) == Rgb(m, m, m, c.a))
      && (m < M ==> HslToRgb(c) == Rgb(M, m, m, c.a))
  {
    var m, M := 2.0 * c.l - Upper(c.s, c.l), Upper(c.s, c.l);
    assert c.s * 0.0 == 0.0 && c.s * 1.0 == c.s;
    if m == M {
      assert forall h :: HslValue(m, M, h) == m;
    }
  }

  // ---- the four round trips ----

  /** Both conversions find the same hue, in [0,1). */
  lemma SameHue(c: Rgb)
    requires UnitRgb(c)
    ensures RgbToHsl(c).h == RgbToHsv(c).h && 0.0 <= RgbToHsl(c).h < 1.0
  {
    if Least(c) < Most(c) {
      HueRange(c);
    }
  }

  /** `hslToRGB` undoes `rgbToHSL` on every colour. */
  lemma HslUndoesRgb(c: Rgb)
    requires UnitRgb(c)
    ensures HslToRgb(RgbToHsl(c)) == c
  {
    if Least(c) < Most(c) {
      HslMeans(c);
      ColourIsWheel(c);
      HslIsWheel(RgbToHsl(c));
    }
  }

  lemma HsvGives(c: Rgb, m: real, M: real, hsv: Hsv)
    requires 0.0 <= m < M && 0.0 <= hsv.h < 1.0 && hsv.v == M && hsv.s == (M - m) / M
    requires c == AtHue(m, M, hsv.h, hsv.a)
    ensures HsvToRgb(hsv) == Some(c)
  {
    HsvMeans(M, m, hsv.s);
    HsvIsWheel(hsv, m);
  }

  /** `hsvToRGB` undoes `rgbToHSV` except on the greys other than black: saturation 0
      makes it return black, whatever the value is. */
  lemma HsvUndoesRgbIff(c: Rgb)
    requires UnitRgb(c)
    ensures HsvToRgb(RgbToHsv(c)) == Some(c) <==> Least(c) < Most(c) || Most(c) == 0.0
  {
    if Least(c) < Most(c) {
      ColourIsWheel(c);
      HsvGives(c, Least(c), Most(c), RgbToHsv(c));
    }
  }

  /** `rgbToHSL` undoes `hslToRGB` exactly where saturation and hue are not lost: the
      colour is saturated, neither black nor white, and the hue is not a full turn; or it
      is grey with hue 0. */
  lemma RgbUndoesHslIff(c: Hsl)
    requires Unit(c.h) && Unit(c.s) && Unit(c.l)
    ensures UnitRgb(HslToRgb(c))
    ensures RgbToHsl(HslToRgb(c)) == c
       <==> if c.s == 0.0 then c.h == 0.0 else 0.0 < c.l < 1.0 && c.h < 1.0
  {
    if c.s > 0.0 {
      if 0.0 < c.l < 1.0 && c.h < 1.0 {
        HslSpread(c.s, c.l);
        HslIsWheel(c);
        WheelHasHue(2.0 * c.l - Upper(c.s, c.l), Upper(c.s, c.l), c.h, c.a);
      } else {
        HslAtEdge(c);
        if 0.0 < c.l < 1.0 {
          HslSpread(c.s, c.l);
          SameHue(HslToRgb(c));
        }
      }
    }
  }

  /** `rgbToHSV` undoes `hsvToRGB` exactly on the saturated colours other than black whose
      hue is not a full turn, and on the plain black. */
  lemma RgbUndoesHsvIff(c: Hsv)
    requires Unit(c.h) && Unit(c.s) && Unit(c.v)
    ensures HsvToRgb(c).Some? && UnitRgb(HsvToRgb(c).value)
    ensures RgbToHsv(HsvToRgb(c).value) == c
       <==> if c.s == 0.0 then c.h == 0.0 && c.v == 0.0 else c.v > 0.0 && c.h < 1.0
  {
    if c.s > 0.0 {
      var p := HsvSpread(c.s, c.v);
      if c.h == 1.0 {
        HsvFullTurn(c, p);
        SameHue(Rgb(c.v, p, p, c.a));
      } else {
        HsvIsWheel(c, p);
        if c.v > 0.0 {
          WheelHasHue(p, c.v, c.h, c.a);
        } else {
          assert Moved(c.v - p, Fraction(c.h)) == 0.0;
        }
      }
    }
  }
}
