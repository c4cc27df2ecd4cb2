/** The marks drawn over the view: buffers cleared and damaged only where something was drawn
    (tools/peek/peek.c). */
module Marks {
  import opened Options

  // ---- Pixels ----

  /** A premultiplied pixel. */
  datatype Pixel = Pixel(a: nat, r: nat, g: nat, b: nat)

  datatype Color = Color(r: nat, g: nat, b: nat)

  const CLEAR := Pixel(0, 0, 0, 0)

  lemma NotLess(x: nat, y: nat)
    ensures x * y >= 0
  {
  }

  /** x of 255 parts of d, by whole division. */
  function Part(d: nat, x: nat): nat {
    NotLess(d, x);
    d * x / 255
  }

  /** A channel inked with a of c over d. */
  function Mix(c: nat, a: nat, d: nat): nat
    requires a <= 255
  {
    NotLess(c, a);
    NotLess(d, 255 - a);
    (c * a + d * (255 - a)) / 255
  }

  function Blend(p: Pixel, c: Color, alpha: int): Pixel {
    if alpha <= 0 then p
    else
      var a := if alpha > 255 then 255 else alpha;
      Pixel(a + Part(p.a, 255 - a), Mix(c.r, a, p.r), Mix(c.g, a, p.g), Mix(c.b, a, p.b))
  }

  predicate Bytes(c: Color) {
    c.r <= 255 && c.g <= 255 && c.b <= 255
  }

  /** Each colour is at most the opacity, which fits a byte. */
  predicate Premultiplied(p: Pixel) {
    p.r <= p.a && p.g <= p.a && p.b <= p.a && p.a <= 255
  }

  lemma Mixed(c: nat, a: nat, d: nat, da: nat)
    requires c <= 255 && a <= 255 && d <= da <= 255
    ensures Mix(c, a, d) <= a + Part(da, 255 - a) <= 255
  {
    var inv: nat := 255 - a;
    var ink, under, most := c * a, d * inv, da * inv;
    assert ink <= 255 * a by {
      Times(c, 255, a);
    }
    assert under <= most <= 255 * inv by {
      Times(d, da, inv);
      Times(da, 255, inv);
    }
    assert 0 <= ink + under by {
      NotLess(c, a);
      NotLess(d, inv);
    }
    Whole(a, most, ink + under);
  }

  lemma Whole(a: nat, x: int, y: int)
    requires 0 <= x <= 255 * (255 - a) && 0 <= y <= 255 * a + x
    ensures y / 255 <= a + x / 255 <= 255
  {
  }

  lemma Times(x: nat, y: nat, k: nat)
    requires x <= y
    ensures x * k <= y * k
  {
  }

  lemma BlendKeeps(p: Pixel, c: Color, alpha: int)
    requires Premultiplied(p) && Bytes(c)
    ensures Premultiplied(Blend(p, c, alpha))
  {
    if alpha > 0 {
      var a := if alpha > 255 then 255 else alpha;
      Mixed(c.r, a, p.r, p.a);
      Mixed(c.g, a, p.g, p.a);
      Mixed(c.b, a, p.b, p.a);
    }
  }

  /** Opacity a of 255: out is c over d, that many parts of the one and the rest of the other, less than one off. */
  predicate IsMix(out: int, c: int, a: int, d: int) {
    NotMore(255 * out, c * a + d * (255 - a)) && NotMore(c * a + d * (255 - a), 255 * out + 254)
  }

  predicate NotMore(x: int, y: int) {
    x <= y
  }

  /** What ink makes of a pixel: nothing, at no opacity; at full opacity its colour alone; in between each colour is
      mixed in, and what is covered adds to what was. */
  lemma BlendExactly(p: Pixel, c: Color, alpha: int)
    requires Premultiplied(p) && Bytes(c)
    ensures alpha <= 0 ==> Blend(p, c, alpha) == p
    ensures alpha >= 255 ==> Blend(p, c, alpha) == Pixel(255, c.r, c.g, c.b)
    ensures 0 < alpha < 255 ==>
      var q := Blend(p, c, alpha);
      IsMix(q.r, c.r, alpha, p.r) && IsMix(q.g, c.g, alpha, p.g) && IsMix(q.b, c.b, alpha, p.b)
      && IsMix(q.a, 255, alpha, p.a)
  {
    if alpha > 0 {
      var a := if alpha > 255 then 255 else alpha;
      MixIs(c.r, a, p.r);
      MixIs(c.g, a, p.g);
      MixIs(c.b, a, p.b);
      PartIs(a, p.a);
    }
  }

  lemma MixIs(c: nat, a: nat, d: nat)
    requires a <= 255
    ensures IsMix(Mix(c, a, d), c, a, d) && (a == 255 ==> Mix(c, a, d) == c)
  {
    var parts := c * a + d * (255 - a);
    assert parts >= 0 by {
      NotLess(c, a);
      NotLess(d, 255 - a);
    }
    assert 255 * (parts / 255) <= parts <= 255 * (parts / 255) + 254;
  }

  lemma PartIs(a: nat, d: nat)
    requires a <= 255
    ensures IsMix(a + Part(d, 255 - a), 255, a, d) && (a == 255 ==> Part(d, 255 - a) == 0)
  {
    var parts := d * (255 - a);
    assert parts >= 0 by {
      NotLess(d, 255 - a);
    }
    assert 255 * (parts / 255) <= parts <= 255 * (parts / 255) + 254;
    assert 255 * (a + parts / 255) == 255 * a + 255 * (parts / 255);
  }

  // ---- Drawing, as operations on an image ----

  /** How opaque a pixel's ink is: the same all over, or by its place. */
  datatype Ink = Flat(alpha: int) | Cover(cover: (int, int) -> int)

  /** A box of pixels inked. */
  datatype Op = Op(x0: int, y0: int, x1: int, y1: int, rgb: Color, ink: Ink)

  predicate InBox(op: Op, x: int, y: int) {
    op.x0 <= x < op.x1 && op.y0 <= y < op.y1
  }

  function AlphaAt(ink: Ink, x: int, y: int): int {
    match ink
    case Flat(alpha) => alpha
    case Cover(cover) => cover(x, y)
  }

  function Inked(p: Pixel, op: Op, x: int, y: int): Pixel {
    if InBox(op, x, y) then Blend(p, op.rgb, AlphaAt(op.ink, x, y)) else p
  }

  /** The pixel at a place once these operations are done on a blank image. */
  function At(ops: seq<Op>, x: int, y: int): Pixel {
    if ops == [] then CLEAR else Inked(At(ops[..|ops| - 1], x, y), ops[|ops| - 1], x, y)
  }

  ghost predicate Shows(d: array2<Pixel>, ops: seq<Op>)
    reads d
  {
    forall y, x | 0 <= y < d.Length0 && 0 <= x < d.Length1 :: d[y, x] == At(ops, x, y)
  }

  ghost predicate ColorsOk(ops: seq<Op>) {
    forall i | 0 <= i < |ops| :: Bytes(ops[i].rgb)
  }

  lemma {:induction false} AlwaysPremultiplied(ops: seq<Op>, x: int, y: int)
    requires ColorsOk(ops)
    ensures Premultiplied(At(ops, x, y))
  {
    if ops != [] {
      var n := |ops| - 1;
      AlwaysPremultiplied(ops[..n], x, y);
      BlendKeeps(At(ops[..n], x, y), ops[n].rgb, AlphaAt(ops[n].ink, x, y));
    }
  }

  // ---- The areas drawn ----

  const MAX_AREAS := 32

  datatype Area = Area(x: nat, y: nat, w: nat, h: nat)

  datatype Areas = Areas(list: seq<Area>, whole: bool)

  const NONE := Areas([], false)

  predicate InArea(a: Area, x: int, y: int) {
    a.x <= x < a.x + a.w && a.y <= y < a.y + a.h
  }

  predicate InAreas(areas: Areas, x: int, y: int) {
    areas.whole || exists i | 0 <= i < |areas.list| :: InArea(areas.list[i], x, y)
  }

  ghost predicate AreasOk(areas: Areas, w: nat, h: nat) {
    |areas.list| <= MAX_AREAS && forall i | 0 <= i < |areas.list| ::
      areas.list[i].x + areas.list[i].w <= w && areas.list[i].y + areas.list[i].h <= h
  }

  /** Every pixel of the image that is not blank is in the areas. */
  ghost predicate Noted(areas: Areas, ops: seq<Op>, w: nat, h: nat) {
    AreasOk(areas, w, h) && forall x, y | 0 <= x < w && 0 <= y < h && At(ops, x, y) != CLEAR :: InAreas(areas, x, y)
  }

  /** Note what is drawn, the box cut to the image. */
  method Touched(areas: Areas, x0: int, y0: int, x1: int, y1: int, ghost w: nat, ghost h: nat) returns (r: Areas)
    requires AreasOk(areas, w, h) && 0 <= x0 && 0 <= y0 && x1 <= w && y1 <= h
    ensures AreasOk(r, w, h)
    ensures forall x, y :: InAreas(areas, x, y) || (x0 <= x < x1 && y0 <= y < y1) ==> InAreas(r, x, y)
  {
    if x1 <= x0 || y1 <= y0 {
      return areas;
    }
    if |areas.list| == MAX_AREAS {
      return areas.(whole := true);
    }
    var a := Area(x0, y0, x1 - x0, y1 - y0);
    r := areas.(list := areas.list + [a]);
    forall x, y | InAreas(areas, x, y) || (x0 <= x < x1 && y0 <= y < y1)
      ensures InAreas(r, x, y)
    {
      if x0 <= x < x1 && y0 <= y < y1 {
        assert InArea(r.list[|areas.list|], x, y);
      } else if !areas.whole {
        var i :| 0 <= i < |areas.list| && InArea(areas.list[i], x, y);
        assert InArea(r.list[i], x, y);
      }
    }
  }

  // ---- Painting in place ----

  method PaintRow(d: array2<Pixel>, op: Op, y: nat, ghost ops: seq<Op>)
    requires y < d.Length0 && op.y0 <= y < op.y1
    requires forall u | 0 <= u < d.Length1 :: d[y, u] == At(ops, u, y)
    modifies d
    ensures forall v, u | 0 <= v < d.Length0 && 0 <= u < d.Length1 ::
      d[v, u] == if v == y then At(ops + [op], u, y) else old(d[v, u])
  {
    assert (ops + [op])[..|ops|] == ops;
    var x: nat := if op.x0 < 0 then 0 else op.x0;
    while x < op.x1 && x < d.Length1
      invariant forall u | 0 <= u < d.Length1 :: d[y, u] == At(if u < x then ops + [op] else ops, u, y)
      invariant forall v, u | 0 <= v < d.Length0 && 0 <= u < d.Length1 && v != y :: d[v, u] == old(d[v, u])
    {
      d[y, x] := Blend(d[y, x], op.rgb, AlphaAt(op.ink, x, y));
      x := x + 1;
    }
  }

  method Paint(d: array2<Pixel>, op: Op, ghost ops: seq<Op>)
    requires Shows(d, ops)
    modifies d
    ensures Shows(d, ops + [op])
  {
    assert (ops + [op])[..|ops|] == ops;
    var y: nat := if op.y0 < 0 then 0 else op.y0;
    while y < op.y1 && y < d.Length0
      invariant forall v, u | 0 <= v < d.Length0 && 0 <= u < d.Length1 ::
        d[v, u] == At(if v < y then ops + [op] else ops, u, v)
    {
      PaintRow(d, op, y, ops);
      y := y + 1;
    }
  }

  // ---- What is drawn ----

  /** Which pixels of a character's 8 by 8 glyph are set. */
  type Font = (char, nat, nat) -> bool

  /** A ring's box with each pixel's ink, or n characters of s on a plate. */
  datatype Shape =
    | Ring(x0: int, y0: int, x1: int, y1: int, rgb: Color, cover: (int, int) -> int)
    | Plate(x: int, y: int, s: string, n: nat, scale: nat, alpha: int)

  predicate ShapeOk(shape: Shape) {
    match shape
    case Ring(_, _, _, _, rgb, _) => Bytes(rgb)
    case Plate(_, _, s, n, scale, _) => n <= |s| && scale > 0
  }

  const ACCENT := Color(0xff, 0x3c, 0xc8)
  const DARK := Color(0x16, 0x16, 0x1e)
  const WHITE := Color(0xff, 0xff, 0xff)

  function RectOp(x: int, y: int, w: int, h: int, rgb: Color, alpha: int): Op {
    Op(x, y, x + w, y + h, rgb, Flat(alpha))
  }

  function PlateW(n: nat, scale: nat): int {
    n * 8 * scale + 10 * scale
  }

  function PlateH(scale: nat): int {
    14 * scale
  }

  /** The pixel at row and column of character i. */
  function DotOp(p: Shape, i: nat, row: nat, col: nat): Op
    requires p.Plate?
  {
    RectOp(p.x + 5 * p.scale + (i * 8 + col) * p.scale, p.y + 3 * p.scale + row * p.scale, p.scale, p.scale, WHITE,
      p.alpha)
  }

  function RowOps(p: Shape, i: nat, row: nat, cols: nat, font: Font): seq<Op>
    requires p.Plate? && i < |p.s|
  {
    if cols == 0 then []
    else RowOps(p, i, row, cols - 1, font) + if font(p.s[i], row, cols - 1) then [DotOp(p, i, row, cols - 1)] else []
  }

  function GlyphOps(p: Shape, i: nat, rows: nat, font: Font): seq<Op>
    requires p.Plate? && i < |p.s|
  {
    if rows == 0 then [] else GlyphOps(p, i, rows - 1, font) + RowOps(p, i, rows - 1, 8, font)
  }

  function TextOps(p: Shape, n: nat, font: Font): seq<Op>
    requires p.Plate? && n <= |p.s|
  {
    if n == 0 then [] else TextOps(p, n - 1, font) + CharOps(p, n - 1, font)
  }

  function CharOps(p: Shape, i: nat, font: Font): seq<Op>
    requires p.Plate? && i < |p.s|
  {
    if ' ' <= p.s[i] <= '~' then GlyphOps(p, i, 8, font) else []
  }

  function BackOps(p: Shape): seq<Op>
    requires p.Plate?
  {
    [RectOp(p.x, p.y, PlateW(p.n, p.scale), PlateH(p.scale), ACCENT, p.alpha),
     RectOp(p.x + 2, p.y + 2, PlateW(p.n, p.scale) - 4, PlateH(p.scale) - 4, DARK, p.alpha * 9 / 10)]
  }

  function ShapeOps(shape: Shape, font: Font): seq<Op>
    requires ShapeOk(shape)
  {
    match shape
    case Ring(x0, y0, x1, y1, rgb, cover) => [Op(x0, y0, x1, y1, rgb, Cover(cover))]
    case Plate(_, _, _, n, _, _) => BackOps(shape) + TextOps(shape, n, font)
  }

  predicate SceneOk(shapes: seq<Shape>) {
    forall i | 0 <= i < |shapes| :: ShapeOk(shapes[i])
  }

  function SceneOps(shapes: seq<Shape>, font: Font): seq<Op>
    requires SceneOk(shapes)
  {
    if shapes == [] then [] else SceneOps(shapes[..|shapes| - 1], font) + ShapeOps(shapes[|shapes| - 1], font)
  }

  // ---- Every operation stays in the box that is noted for it ----

  ghost predicate Within(ops: seq<Op>, x0: int, y0: int, x1: int, y1: int) {
    forall i | 0 <= i < |ops| :: x0 <= ops[i].x0 && ops[i].x1 <= x1 && y0 <= ops[i].y0 && ops[i].y1 <= y1
  }

  lemma {:induction false} OutOfBox(ops: seq<Op>, more: seq<Op>, x0: int, y0: int, x1: int, y1: int, x: int, y: int)
    requires Within(more, x0, y0, x1, y1) && !(x0 <= x < x1 && y0 <= y < y1)
    ensures At(ops + more, x, y) == At(ops, x, y)
    decreases |more|
  {
    if more == [] {
      assert ops + more == ops;
    } else {
      var n := |more| - 1;
      OutOfBox(ops, more[..n], x0, y0, x1, y1, x, y);
      assert (ops + more)[..|ops + more| - 1] == ops + more[..n];
    }
  }

  /** More drawn in a box, and the box noted. */
  lemma NotedOn(areas: Areas, areas': Areas, ops: seq<Op>, more: seq<Op>, x0: int, y0: int, x1: int, y1: int, w: nat,
                h: nat)
    requires Noted(areas, ops, w, h) && AreasOk(areas', w, h) && Within(more, x0, y0, x1, y1)
    requires forall x, y | 0 <= x < w && 0 <= y < h ::
      InAreas(areas, x, y) || (x0 <= x < x1 && y0 <= y < y1) ==> InAreas(areas', x, y)
    ensures Noted(areas', ops + more, w, h)
  {
    forall x, y | 0 <= x < w && 0 <= y < h && At(ops + more, x, y) != CLEAR
      ensures InAreas(areas', x, y)
    {
      if !(x0 <= x < x1 && y0 <= y < y1) {
        OutOfBox(ops, more, x0, y0, x1, y1, x, y);
      }
    }
  }

  lemma DotWithin(i: nat, n: nat, col: nat, row: nat, scale: nat)
    requires i < n && col < 8 && row < 8
    ensures 0 <= (i * 8 + col) * scale && (i * 8 + col) * scale + scale <= n * 8 * scale
    ensures 0 <= row * scale && row * scale + scale <= 8 * scale
  {
    Times(i * 8 + col + 1, n * 8, scale);
    Times(row + 1, 8, scale);
    NotLess(i * 8 + col, scale);
    NotLess(row, scale);
    assert (i * 8 + col + 1) * scale == (i * 8 + col) * scale + scale;
    assert (row + 1) * scale == row * scale + scale;
  }

  /** Every dot of the characters from 0 to n is in the box of w by h at the plate's place. */
  ghost predicate DotsIn(p: Shape, w: int, h: int)
    requires p.Plate?
  {
    forall i: nat, row: nat, col: nat | i < p.n && row < 8 && col < 8 :: InPlate(p, w, h, DotOp(p, i, row, col))
  }

  ghost predicate InPlate(p: Shape, w: int, h: int, op: Op)
    requires p.Plate?
  {
    p.x <= op.x0 && op.x1 <= p.x + w && p.y <= op.y0 && op.y1 <= p.y + h
  }

  lemma PlateHolds(p: Shape)
    requires p.Plate?
    ensures DotsIn(p, PlateW(p.n, p.scale), PlateH(p.scale))
  {
    forall i: nat, row: nat, col: nat | i < p.n && row < 8 && col < 8
      ensures InPlate(p, PlateW(p.n, p.scale), PlateH(p.scale), DotOp(p, i, row, col))
    {
      DotWithin(i, p.n, col, row, p.scale);
    }
  }

  lemma BothWithin(a: seq<Op>, b: seq<Op>, x0: int, y0: int, x1: int, y1: int)
    requires Within(a, x0, y0, x1, y1) && Within(b, x0, y0, x1, y1)
    ensures Within(a + b, x0, y0, x1, y1)
  {
  }

  lemma {:induction false} RowWithin(p: Shape, i: nat, row: nat, cols: nat, font: Font, w: int, h: int)
    requires p.Plate? && p.n <= |p.s| && i < p.n && row < 8 && cols <= 8 && DotsIn(p, w, h)
    ensures Within(RowOps(p, i, row, cols, font), p.x, p.y, p.x + w, p.y + h)
  {
    if cols > 0 {
      RowWithin(p, i, row, cols - 1, font, w, h);
      assert InPlate(p, w, h, DotOp(p, i, row, cols - 1));
    }
  }

  lemma {:induction false} GlyphWithin(p: Shape, i: nat, rows: nat, font: Font, w: int, h: int)
    requires p.Plate? && p.n <= |p.s| && i < p.n && rows <= 8 && DotsIn(p, w, h)
    ensures Within(GlyphOps(p, i, rows, font), p.x, p.y, p.x + w, p.y + h)
  {
    if rows > 0 {
      GlyphWithin(p, i, rows - 1, font, w, h);
      RowWithin(p, i, rows - 1, 8, font, w, h);
      BothWithin(GlyphOps(p, i, rows - 1, font), RowOps(p, i, rows - 1, 8, font), p.x, p.y, p.x + w, p.y + h);
    }
  }

  lemma {:induction false} TextWithin(p: Shape, n: nat, font: Font, w: int, h: int)
    requires p.Plate? && n <= p.n <= |p.s| && DotsIn(p, w, h)
    ensures Within(TextOps(p, n, font), p.x, p.y, p.x + w, p.y + h)
  {
    if n > 0 {
      TextWithin(p, n - 1, font, w, h);
      GlyphWithin(p, n - 1, 8, font, w, h);
      BothWithin(TextOps(p, n - 1, font), CharOps(p, n - 1, font), p.x, p.y, p.x + w, p.y + h);
    }
  }

  lemma PlateWithin(p: Shape, font: Font)
    requires p.Plate? && ShapeOk(p)
    ensures Within(ShapeOps(p, font), p.x, p.y, p.x + PlateW(p.n, p.scale), p.y + PlateH(p.scale))
  {
    PlateHolds(p);
    TextWithin(p, p.n, font, PlateW(p.n, p.scale), PlateH(p.scale));
  }

  // ---- Where a text's dots are ----

  /** A pixel is at that place counted from the first dot of a plate's text, in dots. */
  predicate InDot(p: Shape, x: int, y: int, col: int, row: int)
    requires p.Plate?
  {
    && p.x + 5 * p.scale + col * p.scale <= x < p.x + 5 * p.scale + col * p.scale + p.scale
    && p.y + 3 * p.scale + row * p.scale <= y < p.y + 3 * p.scale + row * p.scale + p.scale
  }

  /** No pixel is in two dots. */
  lemma OneDot(p: Shape, x: int, y: int, col: int, row: int, col': int, row': int)
    requires p.Plate? && InDot(p, x, y, col, row) && InDot(p, x, y, col', row')
    ensures col == col' && row == row'
  {
    SameStep(col, col', p.scale, x - p.x - 5 * p.scale);
    SameStep(row, row', p.scale, y - p.y - 3 * p.scale);
  }

  lemma SameStep(a: int, b: int, scale: nat, d: int)
    requires a * scale <= d < a * scale + scale && b * scale <= d < b * scale + scale
    ensures a == b
  {
    assert (a + 1) * scale == a * scale + scale && (b + 1) * scale == b * scale + scale;
    if a < b {
      TimesInt(a + 1, b, scale);
    } else if b < a {
      TimesInt(b + 1, a, scale);
    }
  }

  /** Of the first n characters, that at the column is one that is drawn, and its glyph is set at that row and that
      column of its eight. */
  predicate IsSet(p: Shape, n: nat, font: Font, col: int, row: int)
    requires p.Plate? && n <= |p.s|
  {
    0 <= row < 8 && 0 <= col && col / 8 < n && ' ' <= p.s[col / 8] <= '~' && font(p.s[col / 8], row, col % 8)
  }

  /** Of these operations one inks the pixel, white, when there is a dot; else none does. */
  ghost predicate Dots(more: seq<Op>, x: int, y: int, dot: bool, alpha: int) {
    if dot then exists k: nat :: OnlyDot(more, x, y, k, alpha) else forall j | 0 <= j < |more| :: !InBox(more[j], x, y)
  }

  ghost predicate OnlyDot(more: seq<Op>, x: int, y: int, k: nat, alpha: int) {
    && k < |more| && InBox(more[k], x, y) && more[k].rgb == WHITE && more[k].ink == Flat(alpha)
    && forall j | 0 <= j < |more| && j != k :: !InBox(more[j], x, y)
  }

  lemma DotsBoth(a: seq<Op>, b: seq<Op>, x: int, y: int, one: bool, two: bool, alpha: int)
    requires Dots(a, x, y, one, alpha) && Dots(b, x, y, two, alpha) && !(one && two)
    ensures Dots(a + b, x, y, one || two, alpha)
  {
    if one {
      var k: nat :| OnlyDot(a, x, y, k, alpha);
      assert OnlyDot(a + b, x, y, k, alpha);
    } else if two {
      var k: nat :| OnlyDot(b, x, y, k, alpha);
      assert OnlyDot(a + b, x, y, |a| + k, alpha);
    }
  }

  /** The image with them. */
  lemma {:induction false} DotsShow(ops: seq<Op>, more: seq<Op>, x: int, y: int, dot: bool, alpha: int)
    requires Dots(more, x, y, dot, alpha)
    ensures At(ops + more, x, y) == if dot then Blend(At(ops, x, y), WHITE, alpha) else At(ops, x, y)
    decreases |more|
  {
    if more == [] {
      assert ops + more == ops;
    } else {
      var n := |more| - 1;
      assert (ops + more)[..|ops + more| - 1] == ops + more[..n];
      if dot {
        var k: nat :| OnlyDot(more, x, y, k, alpha);
        assert k < n ==> OnlyDot(more[..n], x, y, k, alpha);
        DotsShow(ops, more[..n], x, y, k < n, alpha);
      } else {
        DotsShow(ops, more[..n], x, y, false, alpha);
      }
    }
  }

  /** That place is in the first columns of character i, and its glyph is set there. */
  predicate SetIn(p: Shape, i: nat, cols: nat, font: Font, col: int, row: int)
    requires p.Plate? && i < |p.s|
  {
    row >= 0 && i * 8 <= col < i * 8 + cols && font(p.s[i], row, col - i * 8)
  }

  lemma DotHere(p: Shape, i: nat, row: nat, col: nat, x: int, y: int, at: int, down: int)
    requires p.Plate? && InDot(p, x, y, at, down)
    ensures Dots([DotOp(p, i, row, col)], x, y, at == i * 8 + col && down == row, p.alpha)
  {
    var op := DotOp(p, i, row, col);
    if InBox(op, x, y) {
      OneDot(p, x, y, at, down, i * 8 + col, row);
      assert OnlyDot([op], x, y, 0, p.alpha);
    }
  }

  lemma {:induction false} RowDot(p: Shape, i: nat, row: nat, cols: nat, font: Font, x: int, y: int, col: int, at: int)
    requires p.Plate? && i < |p.s| && cols <= 8 && InDot(p, x, y, col, at)
    ensures Dots(RowOps(p, i, row, cols, font), x, y, at == row && SetIn(p, i, cols, font, col, at), p.alpha)
  {
    if cols > 0 {
      RowDot(p, i, row, cols - 1, font, x, y, col, at);
      if font(p.s[i], row, cols - 1) {
        DotHere(p, i, row, cols - 1, x, y, col, at);
        DotsBoth(RowOps(p, i, row, cols - 1, font), [DotOp(p, i, row, cols - 1)], x, y,
          at == row && SetIn(p, i, cols - 1, font, col, at), col == i * 8 + cols - 1 && at == row, p.alpha);
      } else {
        assert RowOps(p, i, row, cols - 1, font) + [] == RowOps(p, i, row, cols - 1, font);
      }
    }
  }

  lemma {:induction false} GlyphDot(p: Shape, i: nat, rows: nat, font: Font, x: int, y: int, col: int, at: int)
    requires p.Plate? && i < |p.s| && rows <= 8 && InDot(p, x, y, col, at)
    ensures Dots(GlyphOps(p, i, rows, font), x, y, at < rows && SetIn(p, i, 8, font, col, at), p.alpha)
  {
    if rows > 0 {
      GlyphDot(p, i, rows - 1, font, x, y, col, at);
      RowDot(p, i, rows - 1, 8, font, x, y, col, at);
      DotsBoth(GlyphOps(p, i, rows - 1, font), RowOps(p, i, rows - 1, 8, font), x, y,
        at < rows - 1 && SetIn(p, i, 8, font, col, at), at == rows - 1 && SetIn(p, i, 8, font, col, at), p.alpha);
    }
  }

  lemma CharDot(p: Shape, i: nat, font: Font, x: int, y: int, col: int, row: int)
    requires p.Plate? && i < |p.s| && InDot(p, x, y, col, row)
    ensures Dots(CharOps(p, i, font), x, y, col / 8 == i && IsSet(p, i + 1, font, col, row), p.alpha)
  {
    if ' ' <= p.s[i] <= '~' {
      GlyphDot(p, i, 8, font, x, y, col, row);
    }
  }

  /** A pixel of a plate's text is inked once, white, exactly when its dot is set. */
  lemma {:induction false} TextDot(p: Shape, n: nat, font: Font, x: int, y: int, col: int, row: int)
    requires p.Plate? && n <= |p.s| && InDot(p, x, y, col, row)
    ensures Dots(TextOps(p, n, font), x, y, IsSet(p, n, font, col, row), p.alpha)
  {
    if n > 0 {
      TextDot(p, n - 1, font, x, y, col, row);
      CharDot(p, n - 1, font, x, y, col, row);
      DotsBoth(TextOps(p, n - 1, font), CharOps(p, n - 1, font), x, y,
        IsSet(p, n - 1, font, col, row), col / 8 == n - 1 && IsSet(p, n, font, col, row), p.alpha);
    }
  }

  lemma TimesInt(x: int, y: int, k: nat)
    requires x <= y
    ensures x * k <= y * k
  {
  }

  lemma StepOf(d: int, scale: nat) returns (k: int)
    requires scale > 0
    ensures k * scale <= d < k * scale + scale && k == d / scale
  {
    k := d / scale;
    assert d == k * scale + d % scale;
  }

  /** A plate's ground at a pixel over what was there: in its box its edge's colour, and but for two pixels all round
      the dark one over it, nine tenths as opaque. */
  function Ground(p: Shape, under: Pixel, x: int, y: int): Pixel
    requires p.Plate?
  {
    var w, h := PlateW(p.n, p.scale), PlateH(p.scale);
    var edge := if p.x <= x < p.x + w && p.y <= y < p.y + h then Blend(under, ACCENT, p.alpha) else under;
    if p.x + 2 <= x < p.x + w - 2 && p.y + 2 <= y < p.y + h - 2 then Blend(edge, DARK, p.alpha * 9 / 10) else edge
  }

  /** So a plate at a pixel is its ground, and white where the dot of a character is set: of that of its n characters,
      each eight dots wide and eight high, five dots in and three down. */
  lemma PlatePixel(p: Shape, font: Font, ops: seq<Op>, x: int, y: int)
    requires p.Plate? && ShapeOk(p)
    ensures var col, row := (x - p.x - 5 * p.scale) / p.scale, (y - p.y - 3 * p.scale) / p.scale;
      At(ops + ShapeOps(p, font), x, y)
        == if IsSet(p, p.n, font, col, row) then Blend(Ground(p, At(ops, x, y), x, y), WHITE, p.alpha)
           else Ground(p, At(ops, x, y), x, y)
  {
    var col, row := DotAt(p, x, y);
    DotPixel(p, font, ops, x, y, col, row);
  }

  lemma DotAt(p: Shape, x: int, y: int) returns (col: int, row: int)
    requires p.Plate? && p.scale > 0
    ensures InDot(p, x, y, col, row)
    ensures col == (x - p.x - 5 * p.scale) / p.scale && row == (y - p.y - 3 * p.scale) / p.scale
  {
    col := StepOf(x - p.x - 5 * p.scale, p.scale);
    row := StepOf(y - p.y - 3 * p.scale, p.scale);
  }

  lemma DotPixel(p: Shape, font: Font, ops: seq<Op>, x: int, y: int, col: int, row: int)
    requires p.Plate? && ShapeOk(p) && InDot(p, x, y, col, row)
    ensures At(ops + ShapeOps(p, font), x, y)
      == if IsSet(p, p.n, font, col, row) then Blend(Ground(p, At(ops, x, y), x, y), WHITE, p.alpha)
         else Ground(p, At(ops, x, y), x, y)
  {
    var back, text := BackOps(p), TextOps(p, p.n, font);
    GroundIs(p, ops, x, y);
    TextDot(p, p.n, font, x, y, col, row);
    DotsShow(ops + back, text, x, y, IsSet(p, p.n, font, col, row), p.alpha);
    AtOn(ops, back, text);
  }

  lemma GroundIs(p: Shape, ops: seq<Op>, x: int, y: int)
    requires p.Plate?
    ensures At(ops + BackOps(p), x, y) == Ground(p, At(ops, x, y), x, y)
  {
    var one, two := ops + [BackOps(p)[0]], ops + BackOps(p);
    assert two[..|two| - 1] == one && one[..|one| - 1] == ops;
  }

  // ---- Shapes drawn in place, and noted ----

  function Max(a: int, b: int): int {
    if a < b then b else a
  }

  function Min(a: int, b: int): int {
    if a < b then a else b
  }

  lemma AtOn(a: seq<Op>, b: seq<Op>, c: seq<Op>)
    ensures (a + b) + c == a + (b + c)
  {
  }

  method DrawRow(d: array2<Pixel>, p: Shape, i: nat, row: nat, font: Font, ghost ops: seq<Op>)
    requires p.Plate? && i < |p.s| && Shows(d, ops)
    modifies d
    ensures Shows(d, ops + RowOps(p, i, row, 8, font))
  {
    assert ops + [] == ops;
    for col := 0 to 8
      invariant Shows(d, ops + RowOps(p, i, row, col, font))
    {
      if font(p.s[i], row, col) {
        Paint(d, DotOp(p, i, row, col), ops + RowOps(p, i, row, col, font));
        AtOn(ops, RowOps(p, i, row, col, font), [DotOp(p, i, row, col)]);
      } else {
        assert RowOps(p, i, row, col, font) + [] == RowOps(p, i, row, col, font);
      }
    }
  }

  method DrawGlyph(d: array2<Pixel>, p: Shape, i: nat, font: Font, ghost ops: seq<Op>)
    requires p.Plate? && i < |p.s| && Shows(d, ops)
    modifies d
    ensures Shows(d, ops + GlyphOps(p, i, 8, font))
  {
    assert ops + [] == ops;
    for row := 0 to 8
      invariant Shows(d, ops + GlyphOps(p, i, row, font))
    {
      DrawRow(d, p, i, row, font, ops + GlyphOps(p, i, row, font));
      AtOn(ops, GlyphOps(p, i, row, font), RowOps(p, i, row, 8, font));
    }
  }

  method DrawText(d: array2<Pixel>, p: Shape, font: Font, ghost ops: seq<Op>)
    requires p.Plate? && ShapeOk(p) && Shows(d, ops)
    modifies d
    ensures Shows(d, ops + TextOps(p, p.n, font))
  {
    assert ops + [] == ops;
    for i := 0 to p.n
      invariant Shows(d, ops + TextOps(p, i, font))
    {
      DrawChar(d, p, i, font, ops);
    }
  }

  method DrawChar(d: array2<Pixel>, p: Shape, i: nat, font: Font, ghost ops: seq<Op>)
    requires p.Plate? && i < |p.s| && Shows(d, ops + TextOps(p, i, font))
    modifies d
    ensures Shows(d, ops + TextOps(p, i + 1, font))
  {
    ghost var text := TextOps(p, i, font);
    if ' ' <= p.s[i] <= '~' {
      DrawGlyph(d, p, i, font, ops + text);
      AtOn(ops, text, GlyphOps(p, i, 8, font));
    } else {
      assert text + [] == text;
    }
  }

  method NotePlate(p: Shape, areas: Areas, font: Font, width: nat, height: nat, ghost ops: seq<Op>)
    returns (areas': Areas)
    requires p.Plate? && ShapeOk(p) && Noted(areas, ops, width, height)
    ensures Noted(areas', ops + ShapeOps(p, font), width, height)
  {
    var w, h := PlateW(p.n, p.scale), PlateH(p.scale);
    areas' := Touched(areas, Max(p.x, 0), Max(p.y, 0), Min(p.x + w, width), Min(p.y + h, height), width, height);
    PlateWithin(p, font);
    NotedOn(areas, areas', ops, ShapeOps(p, font), p.x, p.y, p.x + w, p.y + h, width, height);
  }

  /** n characters of s on a dark plate with an edge. */
  method DrawPlate(d: array2<Pixel>, p: Shape, areas: Areas, font: Font, ghost ops: seq<Op>) returns (areas': Areas)
    requires p.Plate? && ShapeOk(p) && Shows(d, ops) && Noted(areas, ops, d.Length1, d.Length0)
    modifies d
    ensures Shows(d, ops + ShapeOps(p, font)) && Noted(areas', ops + ShapeOps(p, font), d.Length1, d.Length0)
  {
    areas' := NotePlate(p, areas, font, d.Length1, d.Length0, ops);
    var back := BackOps(p);
    Paint(d, back[0], ops);
    Paint(d, back[1], ops + [back[0]]);
    assert ops + [back[0]] + [back[1]] == ops + back;
    DrawText(d, p, font, ops + back);
    AtOn(ops, back, TextOps(p, p.n, font));
  }

  /** A ring, its box cut to the image. */
  method DrawRing(d: array2<Pixel>, r: Shape, areas: Areas, font: Font, ghost ops: seq<Op>) returns (areas': Areas)
    requires r.Ring? && ShapeOk(r) && Shows(d, ops) && Noted(areas, ops, d.Length1, d.Length0)
    modifies d
    ensures Shows(d, ops + ShapeOps(r, font)) && Noted(areas', ops + ShapeOps(r, font), d.Length1, d.Length0)
  {
    areas' :=
      Touched(areas, Max(r.x0, 0), Max(r.y0, 0), Min(r.x1, d.Length1), Min(r.y1, d.Length0), d.Length1, d.Length0);
    var op := Op(r.x0, r.y0, r.x1, r.y1, r.rgb, Cover(r.cover));
    NotedOn(areas, areas', ops, [op], r.x0, r.y0, r.x1, r.y1, d.Length1, d.Length0);
    Paint(d, op, ops);
  }

  // ---- A buffer ----

  /** One of the two buffers, and what is drawn in it. */
  class Buffer {
    var d: array2<Pixel>
    var live: bool
    var busy: bool
    var drawn: Areas
    ghost var ops: seq<Op>

    ghost predicate Ok()
      reads this, d
    {
      Noted(drawn, ops, d.Length1, d.Length0) && (live ==> Shows(d, ops)) && (!live ==> drawn == NONE && ops == [])
    }

    constructor ()
      ensures Ok() && !live && !busy && fresh(d)
    {
      d := new Pixel[0, 0];
      live, busy, drawn, ops := false, false, NONE, [];
    }

    /** A row of an area made blank. */
    method ClearRow(a: Area, y: nat)
      requires a.x + a.w <= d.Length1 && a.y <= y < a.y + a.h && y < d.Length0
      modifies d
      ensures forall v, u | 0 <= v < d.Length0 && 0 <= u < d.Length1 ::
        d[v, u] == if v == y && a.x <= u < a.x + a.w then CLEAR else old(d[v, u])
    {
      for x := a.x to a.x + a.w
        invariant forall v, u | 0 <= v < d.Length0 && 0 <= u < d.Length1 ::
          d[v, u] == if v == y && a.x <= u < x then CLEAR else old(d[v, u])
      {
        d[y, x] := CLEAR;
      }
    }

    method ClearArea(a: Area)
      requires a.x + a.w <= d.Length1 && a.y + a.h <= d.Length0
      modifies d
      ensures forall v, u | 0 <= v < d.Length0 && 0 <= u < d.Length1 ::
        d[v, u] == if InArea(a, u, v) then CLEAR else old(d[v, u])
    {
      for y := a.y to a.y + a.h
        invariant forall v, u | 0 <= v < d.Length0 && 0 <= u < d.Length1 ::
          d[v, u] == if InArea(a, u, v) && v < y then CLEAR else old(d[v, u])
      {
        ClearRow(a, y);
      }
    }

    /** What was drawn made blank: nothing is left of it. */
    method Clear()
      requires Ok() && live
      modifies d
      ensures Shows(d, [])
    {
      if drawn.whole {
        for y := 0 to d.Length0
          invariant forall v, u | 0 <= v < y && 0 <= u < d.Length1 :: d[v, u] == CLEAR
        {
          ClearRow(Area(0, 0, d.Length1, d.Length0), y);
        }
        return;
      }
      for i := 0 to |drawn.list|
        invariant Clearing(drawn.list, i, ops)
      {
        ClearArea(drawn.list[i]);
      }
    }

    /** The first i areas are blank, and the rest as drawn. */
    ghost predicate Clearing(list: seq<Area>, i: nat, ops: seq<Op>)
      requires i <= |list|
      reads this, d
    {
      forall v, u | 0 <= v < d.Length0 && 0 <= u < d.Length1 ::
        d[v, u] == CLEAR || (d[v, u] == At(ops, u, v) && forall j | 0 <= j < i :: !InArea(list[j], u, v))
    }

    /** The shapes drawn on a blank image. */
    method Draw(shapes: seq<Shape>, font: Font)
      requires SceneOk(shapes) && live && Shows(d, [])
      modifies this`drawn, this`ops, d
      ensures Ok() && ops == SceneOps(shapes, font)
    {
      drawn, ops := NONE, [];
      for i := 0 to |shapes|
        invariant Shows(d, ops) && Noted(drawn, ops, d.Length1, d.Length0) && ops == SceneOps(shapes[..i], font)
      {
        assert shapes[..i + 1][..i] == shapes[..i];
        var shape := shapes[i];
        if shape.Ring? {
          drawn := DrawRing(d, shape, drawn, font, ops);
        } else {
          drawn := DrawPlate(d, shape, drawn, font, ops);
        }
        ops := ops + ShapeOps(shape, font);
      }
      assert shapes[..|shapes|] == shapes;
    }

    /** What was drawn cleared, and the shapes drawn. */
    method Repaint(shapes: seq<Shape>, font: Font)
      requires Ok() && live && SceneOk(shapes)
      modifies this`drawn, this`ops, d
      ensures Ok() && ops == SceneOps(shapes, font)
    {
      Clear();
      Draw(shapes, font);
    }

    /** The buffer made anew when it is not of this size; whether it was. */
    method Fit(w: nat, h: nat) returns (made: bool)
      requires Ok()
      modifies this
      ensures Ok() && live && d.Length1 == w && d.Length0 == h
      ensures made ==> fresh(d) && !busy && ops == []
      ensures !made ==> d == old(d) && old(live) && drawn == old(drawn) && ops == old(ops) && busy == old(busy)
    {
      made := !live || d.Length1 != w || d.Length0 != h;
      if made {
        d := new Pixel[h, w]((y, x) => CLEAR);
        live, busy, drawn, ops := true, false, NONE, [];
      }
    }

    /** A frame of this size: made anew or cleared, drawn, and with the compositor. What it had drawn is
        given back. */
    method Frame(shapes: seq<Shape>, w: nat, h: nat, font: Font) returns (made: bool, was: Areas)
      requires Ok() && SceneOk(shapes)
      modifies this, d
      ensures Ok() && live && busy && d.Length1 == w && d.Length0 == h && ops == SceneOps(shapes, font)
      ensures if made then fresh(d) else d == old(d) && was == old(drawn)
    {
      made := Fit(w, h);
      was := drawn;
      Repaint(shapes, font);
      busy := true;
    }
  }

  // ---- The marks' surface ----

  /** What of the surface is said to have changed. */
  datatype Damage = All | Only(shown: seq<Area>, drawn: seq<Area>)

  predicate InDamage(damage: Damage, x: int, y: int) {
    match damage
    case All => true
    case Only(shown, drawn) =>
      (exists i | 0 <= i < |shown| :: InArea(shown[i], x, y)) || (exists i | 0 <= i < |drawn| :: InArea(drawn[i], x, y))
  }

  class Marks {
    const one: Buffer
    const two: Buffer
    const font: Font
    var last: bool
    var mapped: bool

    ghost predicate Valid()
      reads this, one, two, one.d, two.d
    {
      one != two && one.d != two.d && one.Ok() && two.Ok() && (mapped ==> Last().live)
    }

    /** The buffer last drawn. */
    function Last(): Buffer
      reads this
    {
      if last then two else one
    }

    /** The pixel on the surface: of the buffer last drawn, while one is shown. */
    ghost function Seen(x: int, y: int): Pixel
      reads this, one, two, one.d, two.d
    {
      if mapped then InImage(Last().ops, Last().d.Length1, Last().d.Length0, x, y) else CLEAR
    }

    constructor (font: Font)
      ensures Valid() && !mapped && fresh(one) && fresh(two) && fresh(one.d) && fresh(two.d)
    {
      this.font := font;
      one := new Buffer();
      two := new Buffer();
      last, mapped := false, false;
    }

    /** The compositor is done with a buffer. */
    method Release(b: Buffer)
      requires Valid() && (b == one || b == two)
      modifies b`busy
      ensures Valid() && !b.busy
    {
      b.busy := false;
    }

    /** Nothing is on show: the surface is unmapped. */
    method Unmap()
      requires Valid()
      modifies this`mapped
      ensures Valid() && !mapped
    {
      mapped := false;
    }

    /** What is on show drawn in a free buffer, and shown; false when neither is free. */
    method Show(shapes: seq<Shape>, w: nat, h: nat) returns (done: bool, damage: Damage)
      requires Valid() && SceneOk(shapes)
      modifies this, one, two, one.d, two.d
      ensures Valid() && done == !(old(one.busy) && old(two.busy))
      ensures !done ==> last == old(last) && mapped == old(mapped) && one.d == old(one.d) && two.d == old(two.d)
      ensures !done ==> one.ops == old(one.ops) && two.ops == old(two.ops) && one.busy && two.busy
      ensures done ==> mapped && last == old(one.busy) && Last().busy && Last().d.Length1 == w && Last().d.Length0 == h
      ensures done ==> Shows(Last().d, SceneOps(shapes, font))
      ensures (old(one.busy) ==> unchanged(one) && unchanged(one.d))
        && (old(two.busy) ==> unchanged(two) && unchanged(two.d))
      ensures done ==> forall x, y | 0 <= x < w && 0 <= y < h && old(Seen(x, y)) != Seen(x, y) :: InDamage(damage, x, y)
    {
      if one.busy && two.busy {
        return false, All;
      }
      var whole, to := !mapped, one.busy;
      var shown := Last().drawn;
      ghost var before, bw, bh := Last().ops, Last().d.Length1, Last().d.Length0;
      var made, was := false, NONE;
      if to {
        made, was := two.Frame(shapes, w, h, font);
      } else {
        made, was := one.Frame(shapes, w, h, font);
      }
      if last == to {
        shown := was;
      }
      last, mapped, done := to, true, true;
      DamageCovers(whole || made, shown, before, bw, bh, Last().drawn, Last().ops, w, h);
      damage := if whole || made || shown.whole || Last().drawn.whole then All else Only(shown.list, Last().drawn.list);
    }
  }

  /** A pixel that the one image has otherwise than the other is in the areas of one of them. */
  lemma DamageCovers(whole: bool, shown: Areas, before: seq<Op>, bw: nat, bh: nat, drawn: Areas, ops: seq<Op>, w: nat,
                     h: nat)
    requires !whole ==> Noted(shown, before, bw, bh)
    requires Noted(drawn, ops, w, h)
    ensures forall x, y | 0 <= x < w && 0 <= y < h && InImage(before, bw, bh, x, y) != At(ops, x, y) ::
              InDamage(if whole || shown.whole || drawn.whole then All else Only(shown.list, drawn.list), x, y)
  {
  }

  /** The pixel of an image of this size; blank beyond it. */
  ghost function InImage(ops: seq<Op>, w: nat, h: nat, x: int, y: int): Pixel {
    if 0 <= x < w && 0 <= y < h then At(ops, x, y) else CLEAR
  }
}
