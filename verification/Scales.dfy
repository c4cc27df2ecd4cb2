/** Layout and pixel rectangles of an output at a scale (tools/still/still.c: to_pixels, to_layout). */
module Scales {
  datatype Rect = Rect(x: int, y: int, w: int, h: int)

  /** a within b. */
  predicate Inside(a: Rect, b: Rect) {
    a.x >= b.x && a.y >= b.y && a.x + a.w <= b.x + b.w && a.y + a.h <= b.y + b.h
  }

  /** An output's place in the layout, its pixels, and its pixels to a layout unit each way. */
  datatype ScreenOf = Screen(lx: int, ly: int, width: nat, height: nat, sx: real, sy: real)

  type Screen = o: ScreenOf | o.sx > 0.0 && o.sy > 0.0 witness Screen(0, 0, 0, 0, 1.0, 1.0)

  function Floor(x: real): int {
    x.Floor
  }

  function Ceil(x: real): (n: int)
    ensures (n - 1) as real < x <= n as real
  {
    -(-x).Floor
  }

  /** A side in pixels: from and to, rounded outwards and cut to the output. */
  function SidePixels(from: int, to: int, scale: real, size: nat): (s: (int, int))
    ensures s.0 <= s.1
  {
    var x0 := Floor(from as real * scale);
    var x1 := Ceil(to as real * scale);
    var a := if x0 < 0 then 0 else x0;
    var b := if x1 > size then size else x1;
    (a, if b < a then a else b)
  }

  function ToPixels(o: Screen, r: Rect): Rect {
    var (x0, x1) := SidePixels(r.x - o.lx, r.x + r.w - o.lx, o.sx, o.width);
    var (y0, y1) := SidePixels(r.y - o.ly, r.y + r.h - o.ly, o.sy, o.height);
    Rect(x0, y0, x1 - x0, y1 - y0)
  }

  function ToLayout(o: Screen, p: Rect): Rect {
    var x0, y0 := o.lx + Floor(p.x as real / o.sx), o.ly + Floor(p.y as real / o.sy);
    var x1, y1 := o.lx + Ceil((p.x + p.w) as real / o.sx), o.ly + Ceil((p.y + p.h) as real / o.sy);
    Rect(x0, y0, x1 - x0, y1 - y0)
  }

  lemma TimesKeeps(a: real, b: real, k: real)
    requires a <= b && k > 0.0
    ensures a * k <= b * k
  {
  }

  lemma LowSide(from: int, scale: real)
    requires scale > 0.0
    ensures Floor(Floor(from as real / scale) as real * scale) <= from
  {
    var a := from as real / scale;
    var low := Floor(a) as real * scale;
    assert low <= from as real by {
      TimesKeeps(Floor(a) as real, a, scale);
      DivTimes(from as real, scale);
    }
  }

  lemma HighSide(to: int, scale: real)
    requires scale > 0.0
    ensures to <= Ceil(Ceil(to as real / scale) as real * scale)
  {
    var b := to as real / scale;
    var high := Ceil(b) as real * scale;
    assert to as real <= high by {
      TimesKeeps(b, Ceil(b) as real, scale);
      DivTimes(to as real, scale);
    }
  }

  /** A side of pixels, taken to the layout and back, is covered. */
  lemma SideCovered(from: int, to: int, scale: real, size: nat)
    requires scale > 0.0 && 0 <= from <= to <= size
    ensures var s := SidePixels(Floor(from as real / scale), Ceil(to as real / scale), scale, size);
      s.0 <= from && to <= s.1
  {
    LowSide(from, scale);
    HighSide(to, scale);
  }

  lemma DivTimes(x: real, k: real)
    requires k > 0.0
    ensures x / k * k == x
  {
  }

  /** A box of an output's pixels is covered by the pixels of its layout box, at any scale. */
  lemma BackCovers(o: Screen, p: Rect)
    requires 0 <= p.x && 0 <= p.w && p.x + p.w <= o.width && 0 <= p.y && 0 <= p.h && p.y + p.h <= o.height
    ensures Inside(p, ToPixels(o, ToLayout(o, p)))
  {
    SideCovered(p.x, p.x + p.w, o.sx, o.width);
    SideCovered(p.y, p.y + p.h, o.sy, o.height);
  }
}
