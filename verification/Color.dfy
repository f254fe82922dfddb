/** Colour conversion between RGB bytes and HSV, over exact reals. */
module Color {
  import opened Arithmetic

  datatype Rgb = Rgb(r: real, g: real, b: real)
  datatype Hsv = Hsv(h: real, s: real, v: real)

  /** The saturation that stands in for zero. */
  const TINY := 0.000001

  predicate Unit(x: real) {
    0.0 <= x <= 1.0
  }

  predicate InUnitCube(c: Rgb) {
    Unit(c.r) && Unit(c.g) && Unit(c.b)
  }

  function Max(a: real, b: real): real {
    if b > a then b else a
  }

  function Min(a: real, b: real): real {
    if b < a then b else a
  }

  function Brightest(c: Rgb): real {
    Max(Max(c.r, c.g), c.b)
  }

  function Darkest(c: Rgb): real {
    Min(Min(c.r, c.g), c.b)
  }

  /** The hue in sixths of the circle, before it is brought into range. */
  function Sixths(c: Rgb): real
    requires Darkest(c) < Brightest(c)
  {
    var delta := Brightest(c) - Darkest(c);
    if c.r == Brightest(c) then (c.g - c.b) / delta
    else if c.g == Brightest(c) then 2.0 + (c.b - c.r) / delta
    else 4.0 + (c.r - c.g) / delta
  }

  function Hue(c: Rgb): real
    requires Darkest(c) < Brightest(c)
  {
    var h := Sixths(c) * 60.0;
    if h < 0.0 then h + 360.0 else h
  }

  function HsvOf(c: Rgb): (hsv: Hsv)
    requires InUnitCube(c)
    ensures 0.0 <= hsv.h < 360.0
  {
    var max, min := Brightest(c), Darkest(c);
    var s := if max != 0.0 then (max - min) / max else 0.0;
    if s == 0.0 then Hsv(0.0, s, max)
    else
      HueInCircle(c);
      Hsv(Hue(c), s, max)
  }

  lemma HueInCircle(c: Rgb)
    requires Darkest(c) < Brightest(c)
    ensures 0.0 <= Hue(c) < 360.0
  {
    var delta := Brightest(c) - Darkest(c);
    Ratio(c.g - c.b, delta);
    Ratio(c.b - c.r, delta);
    Ratio(c.r - c.g, delta);
  }

  /** The darkest component, and those that fall and rise within a sector. */
  function Dark(s: real, v: real): real {
    v * (1.0 - s)
  }

  function Falling(s: real, v: real, f: real): real {
    v * (1.0 - s * f)
  }

  function Rising(s: real, v: real, f: real): real {
    v * (1.0 - s * (1.0 - f))
  }

  /** The sector of the colour wheel and the place within it; outside the six sectors it is black. */
  function Wheel(x: real, s: real, v: real): Rgb {
    var i := Cut(x);
    var f := x - i as real;
    var w, q, t := Dark(s, v), Falling(s, v, f), Rising(s, v, f);
    if i == 0 then Rgb(v, t, w)
    else if i == 1 then Rgb(q, v, w)
    else if i == 2 then Rgb(w, v, t)
    else if i == 3 then Rgb(w, q, v)
    else if i == 4 then Rgb(t, w, v)
    else if i == 5 then Rgb(v, w, q)
    else Rgb(0.0, 0.0, 0.0)
  }

  function RgbOf(c: Hsv): Rgb {
    var s := if c.s == 0.0 then TINY else c.s;
    var h := if c.h == 360.0 then 0.0 else c.h;
    Wheel(h / 60.0, s, c.v)
  }

  // ----- The round trip

  lemma Ratio(a: real, delta: real)
    requires 0.0 < delta
    ensures a / delta * delta == a
    ensures 0.0 <= a ==> 0.0 <= a / delta
    ensures a < 0.0 ==> a / delta < 0.0
    ensures a <= delta ==> a / delta <= 1.0
    ensures a < delta ==> a / delta < 1.0
    ensures -delta <= a ==> -1.0 <= a / delta
    ensures a == delta ==> a / delta == 1.0
  {
    var x := a / delta;
    assert x * delta == a;
    assert (x - 1.0) * delta == a - delta;
    assert (x + 1.0) * delta == a + delta;
  }

  /** Each of the three products of the wheel, for `s == delta / v`. */
  lemma Shades(v: real, s: real, delta: real, f: real)
    requires s * v == delta
    ensures v * (1.0 - s) == v - delta
    ensures v * (1.0 - s * f) == v - f * delta
    ensures v * (1.0 - s * (1.0 - f)) == v - delta + f * delta
  {
    assert v * (s * f) == f * delta by {
      assert v * (s * f) == (s * v) * f;
    }
    assert s * (1.0 - f) == s - s * f;
  }

  lemma FloorIs(x: real, i: int)
    requires i as real <= x < i as real + 1.0
    ensures x.Floor == i && (0 <= i ==> Cut(x) == i)
  {}

  /** The wheel undoes the hue: in every sector, boundaries included, each component comes back. */
  lemma WheelInvertsHue(c: Rgb, s: real)
    requires InUnitCube(c) && Darkest(c) < Brightest(c)
    requires s * Brightest(c) == Brightest(c) - Darkest(c)
    ensures 0.0 <= Hue(c) < 360.0
    ensures Wheel(Hue(c) / 60.0, s, Brightest(c)) == c
  {
    if c.r == Brightest(c) {
      RedSectors(c, s);
    } else if c.g == Brightest(c) {
      GreenSectors(c, s);
    } else {
      BlueSectors(c, s);
    }
  }

  lemma RedSectors(c: Rgb, s: real)
    requires Darkest(c) < Brightest(c) == c.r
    requires s * Brightest(c) == Brightest(c) - Darkest(c)
    ensures 0.0 <= Hue(c) < 360.0
    ensures Wheel(Hue(c) / 60.0, s, Brightest(c)) == c
  {
    var v, delta := Brightest(c), Brightest(c) - Darkest(c);
    var x := (c.g - c.b) / delta;
    Ratio(c.g - c.b, delta);
    if x < 0.0 {
      var f := x + 1.0;
      Shades(v, s, delta, f);
      assert f * delta == x * delta + delta;
      assert Hue(c) / 60.0 == 5.0 + f;
      FloorIs(5.0 + f, 5);
    } else if x < 1.0 {
      Shades(v, s, delta, x);
      assert Hue(c) / 60.0 == x;
      FloorIs(x, 0);
    } else {
      Shades(v, s, delta, 0.0);
      assert Hue(c) / 60.0 == 1.0;
      FloorIs(1.0, 1);
    }
  }

  lemma GreenSectors(c: Rgb, s: real)
    requires Darkest(c) < Brightest(c) == c.g && c.r < c.g
    requires s * Brightest(c) == Brightest(c) - Darkest(c)
    ensures 0.0 <= Hue(c) < 360.0
    ensures Wheel(Hue(c) / 60.0, s, Brightest(c)) == c
  {
    var v, delta := Brightest(c), Brightest(c) - Darkest(c);
    var x := (c.b - c.r) / delta;
    Ratio(c.b - c.r, delta);
    if x < 0.0 {
      var f := x + 1.0;
      Shades(v, s, delta, f);
      assert f * delta == x * delta + delta;
      assert Hue(c) / 60.0 == 1.0 + f;
      FloorIs(1.0 + f, 1);
    } else if x < 1.0 {
      Shades(v, s, delta, x);
      assert Hue(c) / 60.0 == 2.0 + x;
      FloorIs(2.0 + x, 2);
    } else {
      Shades(v, s, delta, 0.0);
      assert Hue(c) / 60.0 == 3.0;
      FloorIs(3.0, 3);
    }
  }

  lemma BlueSectors(c: Rgb, s: real)
    requires Darkest(c) < Brightest(c) == c.b && c.r < c.b && c.g < c.b
    requires s * Brightest(c) == Brightest(c) - Darkest(c)
    ensures 0.0 <= Hue(c) < 360.0
    ensures Wheel(Hue(c) / 60.0, s, Brightest(c)) == c
  {
    var v, delta := Brightest(c), Brightest(c) - Darkest(c);
    var x := (c.r - c.g) / delta;
    Ratio(c.r - c.g, delta);
    if x < 0.0 {
      var f := x + 1.0;
      Shades(v, s, delta, f);
      assert f * delta == x * delta + delta;
      assert Hue(c) / 60.0 == 3.0 + f;
      FloorIs(3.0 + f, 3);
    } else {
      Shades(v, s, delta, x);
      assert Hue(c) / 60.0 == 4.0 + x;
      FloorIs(4.0 + x, 4);
    }
  }

  /** Every colour that is not a gray survives the round trip exactly. */
  lemma RoundTripOfColours(c: Rgb)
    requires InUnitCube(c) && !(c.r == c.g == c.b)
    ensures RgbOf(HsvOf(c)) == c
  {
    hide Wheel, Hue;
    HueInCircle(c);
    var max, min := Brightest(c), Darkest(c);
    assert min < max;
    hide Brightest, Darkest;
    Ratio(max - min, max);
    WheelInvertsHue(c, (max - min) / max);
  }

  /** A gray keeps its red, and loses a millionth of its green and blue. */
  lemma RoundTripOfGrays(v: real)
    requires Unit(v)
    ensures RgbOf(HsvOf(Rgb(v, v, v))) == Rgb(v, v * (1.0 - 0.000001), v * (1.0 - 0.000001))
  {
    assert Cut(0.0 / 60.0) == 0;
  }

  // ----- The round trip the other way

  lemma Divided(a: real, q: real, delta: real)
    requires 0.0 < delta && a == q * delta
    ensures a / delta == q
  {
    Ratio(a, delta);
    SameQuotient(a / delta, q, delta);
  }

  lemma SameQuotient(p: real, q: real, delta: real)
    requires 0.0 < delta && p * delta == q * delta
    ensures p == q
  {
    assert (p - q) * delta == 0.0;
  }

  /** What lies between the darkest and the brightest component, as a part of the distance. */
  lemma Parts(f: real, part: real, delta: real)
    requires 0.0 <= f < 1.0 && 0.0 < delta && part == f * delta
    ensures 0.0 <= part < delta && (part == 0.0 ==> f == 0.0)
    ensures part / delta == f && (part - delta) / delta == f - 1.0 && (delta - part) / delta == 1.0 - f
    ensures delta / delta == 1.0
  {
    assert (f - 1.0) * delta == part - delta && (1.0 - f) * delta == delta - part;
    assert (1.0 - f) * delta > 0.0;
    Divided(part, f, delta);
    Divided(part - delta, f - 1.0, delta);
    Divided(delta - part, 1.0 - f, delta);
    Divided(delta, 1.0, delta);
  }

  lemma Distance(s: real, v: real, delta: real)
    requires 0.0 < s <= 1.0 && 0.0 < v && delta == s * v
    ensures 0.0 < delta <= v && delta / v == s
  {
    Divided(delta, s, v);
    assert (1.0 - s) * v == v - delta;
  }

  /** The wheel by distances from the darkest and the brightest component. */
  function Tones(i: int, v: real, delta: real, part: real): Rgb {
    var dark, falling, rising := v - delta, v - part, v - delta + part;
    if i == 0 then Rgb(v, rising, dark)
    else if i == 1 then Rgb(falling, v, dark)
    else if i == 2 then Rgb(dark, v, rising)
    else if i == 3 then Rgb(dark, falling, v)
    else if i == 4 then Rgb(rising, dark, v)
    else Rgb(v, dark, falling)
  }

  lemma WheelSector(i: int, f: real, s: real, v: real, delta: real, part: real)
    requires 0 <= i < 6 && 0.0 <= f < 1.0 && delta == s * v && part == f * delta
    ensures Wheel(i as real + f, s, v) == Tones(i, v, delta, part)
  {
    Shades(v, s, delta, f);
    FloorIs(i as real + f, i);
  }

  lemma SectorHue(i: int, f: real, v: real, delta: real, part: real)
    requires 0 <= i < 6 && 0.0 <= f < 1.0 && 0.0 < delta <= v && part == f * delta
    ensures
      var c := Tones(i, v, delta, part);
      && Darkest(c) == v - delta && Brightest(c) == v
      && Hue(c) == (i as real + f) * 60.0
  {
    Parts(f, part, delta);
  }

  lemma HueOfSector(i: int, f: real, s: real, v: real)
    requires 0 <= i < 6 && 0.0 <= f < 1.0 && 0.0 < s <= 1.0 && 0.0 < v <= 1.0
    ensures
      var c := Wheel(i as real + f, s, v);
      InUnitCube(c) && HsvOf(c) == Hsv((i as real + f) * 60.0, s, v)
  {
    hide Wheel, Tones, Hue, Brightest, Darkest, HsvOf;
    var delta := s * v;
    var part := f * delta;
    Distance(s, v, delta);
    SectorHue(i, f, v, delta, part);
    WheelSector(i, f, s, v, delta, part);
    ComponentsBetween(Wheel(i as real + f, s, v));
    HsvParts(Wheel(i as real + f, s, v), v, delta);
  }

  lemma HsvParts(c: Rgb, v: real, delta: real)
    requires InUnitCube(c) && Brightest(c) == v && Darkest(c) == v - delta && 0.0 < delta <= v
    ensures HsvOf(c) == Hsv(Hue(c), delta / v, v)
  {
    hide Hue, Brightest, Darkest;
    assert v - (v - delta) == delta;
    Ratio(delta, v);
  }

  lemma ComponentsBetween(c: Rgb)
    requires 0.0 <= Darkest(c) && Brightest(c) <= 1.0
    ensures InUnitCube(c)
  {}

  /** Hue, saturation and value come back from the components, wherever they are determined by them: in a
      colour that is neither gray nor black. The hue of the full circle is that of its beginning. */
  lemma HueInvertsWheel(h: real, s: real, v: real)
    requires 0.0 <= h <= 360.0 && 0.0 < s <= 1.0 && 0.0 < v <= 1.0
    ensures InUnitCube(RgbOf(Hsv(h, s, v)))
    ensures HsvOf(RgbOf(Hsv(h, s, v))) == Hsv(if h == 360.0 then 0.0 else h, s, v)
  {
    var x := (if h == 360.0 then 0.0 else h) / 60.0;
    HueOfSector(Cut(x), x - Cut(x) as real, s, v);
    hide Wheel, HsvOf;
  }

  // ----- On bytes

  /** A byte component as a fraction. */
  function Fraction(b: byte): (x: real)
    ensures Unit(x)
  {
    b as real / 255.0
  }

  /** Whether the conversion to a byte is defined. */
  predicate Convertible(x: real) {
    -1.0 < x * 255.0 < 256.0
  }

  predicate AllConvertible(c: Rgb) {
    Convertible(c.r) && Convertible(c.g) && Convertible(c.b)
  }

  /** The fraction back as a byte; the conversion cuts off what is behind the point. */
  function Truncated(x: real): (b: byte)
    requires Convertible(x)
  {
    Cut(x * 255.0)
  }

  lemma UnitConvertible(c: Rgb)
    requires InUnitCube(c)
    ensures AllConvertible(c)
  {}

  class VisColor {
    var r: byte
    var g: byte
    var b: byte
    var a: byte

    ghost function Components(): Rgb
      reads this
    {
      Rgb(Fraction(r), Fraction(g), Fraction(b))
    }

    method ToHsv() returns (h: real, s: real, v: real)
      ensures Hsv(h, s, v) == HsvOf(Components())
    {
      var fr, fg, fb := r as real / 255.0, g as real / 255.0, b as real / 255.0;
      var max := fr;
      if fg > max {
        max := fg;
      }
      if fb > max {
        max := fb;
      }
      var min := fr;
      if fg < min {
        min := fg;
      }
      if fb < min {
        min := fb;
      }
      v := max;
      if max != 0.0 {
        s := (max - min) / max;
      } else {
        s := 0.0;
      }
      if s == 0.0 {
        h := 0.0;
      } else {
        var delta := max - min;
        if fr == max {
          h := (fg - fb) / delta;
        } else if fg == max {
          h := 2.0 + (fb - fr) / delta;
        } else {
          h := 4.0 + (fr - fg) / delta;
        }
        h := h * 60.0;
        if h < 0.0 {
          h := h + 360.0;
        }
      }
    }

    method FromHsv(h0: real, s0: real, v: real)
      requires AllConvertible(RgbOf(Hsv(h0, s0, v)))
      modifies this
      ensures
        var c := RgbOf(Hsv(h0, s0, v));
        r == Truncated(c.r) && g == Truncated(c.g) && b == Truncated(c.b) && a == 255
    {
      var s, h := s0, h0;
      if s == 0.0 {
        s := 0.000001;
      }
      if h == 360.0 {
        h := 0.0;
      }
      h := h / 60.0;
      var fr, fg, fb := Sector(h, s, v);
      hide Wheel;
      r, g, b, a := Truncated(fr), Truncated(fg), Truncated(fb), 255;
    }

    static method Sector(h: real, s: real, v: real) returns (r: real, g: real, b: real)
      ensures Rgb(r, g, b) == Wheel(h, s, v)
    {
      var i := Cut(h);
      var f := h - i as real;
      hide Dark, Falling, Rising;
      var w := Dark(s, v);
      var q := Falling(s, v, f);
      var t := Rising(s, v, f);
      r, g, b := 0.0, 0.0, 0.0;
      match i {
        case 0 => r, g, b := v, t, w;
        case 1 => r, g, b := q, v, w;
        case 2 => r, g, b := w, v, t;
        case 3 => r, g, b := w, q, v;
        case 4 => r, g, b := t, w, v;
        case 5 => r, g, b := v, w, q;
        case _ =>
      }
    }

    /** Converting a colour to HSV and back leaves it as it is exactly when it is not a gray or is black;
        any other gray comes back with its green and blue one lower. */
    method RoundTrip()
      modifies this
      ensures
        var gray := old(r) == old(g) == old(b);
        && (r == old(r) && g == old(g) && b == old(b) <==> !gray || old(r) == 0)
        && (gray && old(r) != 0 ==> r == old(r) && g == b == old(g) - 1)
    {
      var c := Rgb(Fraction(r), Fraction(g), Fraction(b));
      var h, s, v := ToHsv();
      if r == g == b {
        RoundTripOfGrays(Fraction(r));
        GrayBytes(r);
      } else {
        RoundTripOfColours(c);
      }
      UnitConvertible(RgbOf(HsvOf(c)));
      BytesBack(r);
      BytesBack(g);
      BytesBack(b);
      FromHsv(h, s, v);
    }
  }

  /** With saturation and value in the unit interval and the hue not negative, the conversion is defined. */
  lemma WheelConvertible(c: Hsv)
    requires 0.0 <= c.h && Unit(c.s) && Unit(c.v)
    ensures InUnitCube(RgbOf(c)) && AllConvertible(RgbOf(c))
  {
    hide Wheel, Convertible;
    WheelInUnit((if c.h == 360.0 then 0.0 else c.h) / 60.0, if c.s == 0.0 then TINY else c.s, c.v);
    UnitConvertible(RgbOf(c));
  }

  lemma WheelInUnit(x: real, s: real, v: real)
    requires 0.0 <= x && Unit(s) && Unit(v)
    ensures InUnitCube(Wheel(x, s, v))
  {
    ShadesInUnit(s, v, x - Cut(x) as real);
  }

  /** A hue outside the circle by a sixth or more below it, or at all above it, is black. */
  lemma BlackOutside(c: Hsv)
    requires c.h <= -60.0 || 360.0 < c.h
    ensures RgbOf(c) == Rgb(0.0, 0.0, 0.0) && AllConvertible(RgbOf(c))
  {
    assert Cut(c.h / 60.0) < 0 || 6 <= Cut(c.h / 60.0);
  }

  lemma ShadesInUnit(s: real, v: real, f: real)
    requires Unit(s) && Unit(v) && 0.0 <= f < 1.0
    ensures Unit(v * (1.0 - s)) && Unit(v * (1.0 - s * f)) && Unit(v * (1.0 - s * (1.0 - f)))
  {
    Scaled(s, f);
    Scaled(s, 1.0 - f);
    Scaled(v, 1.0 - s);
    Scaled(v, 1.0 - s * f);
    Scaled(v, 1.0 - s * (1.0 - f));
  }

  lemma Scaled(x: real, y: real)
    requires 0.0 <= x && 0.0 <= y <= 1.0
    ensures 0.0 <= x * y <= x
  {
    assert x * (1.0 - y) >= 0.0;
    assert x * (1.0 - y) == x - x * y;
  }

  lemma BytesBack(b: byte)
    ensures Convertible(Fraction(b)) && Truncated(Fraction(b)) == b
  {
    assert Fraction(b) * 255.0 == b as real;
  }

  lemma GrayBytes(b: byte)
    ensures Unit(Fraction(b) * (1.0 - TINY)) && Convertible(Fraction(b) * (1.0 - TINY))
    ensures Truncated(Fraction(b) * (1.0 - TINY)) == if b == 0 then 0 else b - 1
  {
    var x := Fraction(b) * (1.0 - TINY);
    assert x * 255.0 == b as real * (1.0 - TINY) by {
      assert Fraction(b) * 255.0 == b as real;
    }
    if b == 0 {
      FloorIs(x * 255.0, 0);
    } else {
      FloorIs(x * 255.0, b - 1);
    }
  }
}
