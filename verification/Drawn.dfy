/** Whether something is drawn over a window at a point (crates/omabox/src/drawn.rs: drawn_at). */
module Drawn {

  type Byte = b: int | 0 <= b < 256

  /** An RGB image: three bytes a pixel, row by row. */
  datatype Img = Img(w: nat, h: nat, px: seq<Byte>)

  datatype Rect = Rect(x: int, y: int, w: int, h: int) {
    predicate Holds(px: int, py: int) {
      px >= x && px < x + w && py >= y && py < y + h
    }
  }

  datatype Verdict = Here | NotHere | Unknown

  /** The cells of a cluster: its drawn cells' first and last column and row; x0 is MAX for none. */
  datatype Box = Box(x0: nat, y0: nat, x1: nat, y1: nat)

  const DRAWN := 24
  const STILL := 8
  const CELL := 4
  const GAP := 6
  const PAD := 2
  const MAX := 0xFFFF_FFFF_FFFF_FFFF

  function AbsDiff(a: int, b: int): nat { if a >= b then a - b else b - a }

  function MaxOf(a: nat, b: nat): nat { if a >= b then a else b }

  function MinOf(a: nat, b: nat): nat { if a <= b then a else b }

  function CeilDiv(n: nat): nat { (n + CELL - 1) / CELL }

  // ---- Cells by place, in a flat grid ----

  function X(gw: nat, c: nat): nat
    requires gw > 0
  {
    c % gw
  }

  function Y(gw: nat, c: nat): nat
    requires gw > 0
  {
    c / gw
  }

  lemma {:induction false} MulMonotone(a: nat, b: nat, c: nat)
    requires a <= b
    ensures a * c <= b * c
  {
    if a < b {
      MulMonotone(a, b - 1, c);
      assert b * c == (b - 1) * c + c;
    }
  }

  lemma DivUnique(c: nat, gw: nat, q: nat, r: nat)
    requires r < gw && c == q * gw + r
    ensures c / gw == q && c % gw == r
  {
    assert c == (c / gw) * gw + c % gw;
    if c / gw < q {
      MulMonotone(c / gw + 1, q, gw);
    } else if c / gw > q {
      MulMonotone(q + 1, c / gw, gw);
    }
  }

  lemma Flat(gw: nat, x: nat, y: nat)
    requires x < gw
    ensures X(gw, y * gw + x) == x && Y(gw, y * gw + x) == y
  {
    DivUnique(y * gw + x, gw, y, x);
  }

  lemma InGrid(gw: nat, gh: nat, x: nat, y: nat)
    requires x < gw && y < gh
    ensures y * gw + x < gw * gh
  {
    MulMonotone(y + 1, gh, gw);
  }

  lemma PlaceInGrid(gw: nat, gh: nat, c: nat)
    requires gw > 0 && c < gw * gh
    ensures X(gw, c) < gw && Y(gw, c) < gh && c == Y(gw, c) * gw + X(gw, c)
  {
    if Y(gw, c) >= gh {
      MulMonotone(gh, Y(gw, c), gw);
    }
  }

  // ---- What is drawn ----

  function Apart(a: seq<Byte>, b: seq<Byte>, i: nat): nat
    requires i + 3 <= |a| && i + 3 <= |b|
  {
    MaxOf(AbsDiff(a[i], b[i]), MaxOf(AbsDiff(a[i + 1], b[i + 1]), AbsDiff(a[i + 2], b[i + 2])))
  }

  /** The screen's pixels, the window's own before and after, and what is left out. */
  datatype Shots = Shots(scr: Img, own: Img, own2: Img, ignore: seq<Rect>) {
    predicate Matching() {
      && own.w == scr.w && own.h == scr.h && own2.w == scr.w && own2.h == scr.h
      && |scr.px| == |own.px| == |own2.px| == scr.w * scr.h * 3
    }

    function W(): nat { CeilDiv(scr.w) }

    function H(): nat { CeilDiv(scr.h) }

    predicate Ignored(x: nat, y: nat) {
      exists i | 0 <= i < |ignore| :: ignore[i].Holds(x, y)
    }

    /** The screen differs from the window's own pixel there, which itself held still. */
    predicate Differs(x: nat, y: nat)
      requires Matching() && x < scr.w && y < scr.h
    {
      InGrid(scr.w, scr.h, x, y);
      var i := (y * scr.w + x) * 3;
      Apart(scr.px, own.px, i) > DRAWN && Apart(own.px, own2.px, i) <= STILL && !Ignored(x, y)
    }

    ghost predicate CellDrawn(cx: nat, cy: nat)
      requires Matching()
    {
      exists x: nat, y: nat | x < scr.w && y < scr.h && x / CELL == cx && y / CELL == cy :: Differs(x, y)
    }
  }

  /** Drawn over: a channel of the screen's pixel is more than 24 from the window's own, none of the window's two shots
      is more than 8 from the other, and no rectangle left out has it. */
  lemma DiffersExactly(s: Shots, x: nat, y: nat)
    requires s.Matching() && x < s.scr.w && y < s.scr.h
    ensures var i := (y * s.scr.w + x) * 3;
      && i + 3 <= |s.scr.px|
      && (s.Differs(x, y) <==>
          && (exists j | i <= j < i + 3 :: !NoFurther(s.scr.px[j], s.own.px[j], 24))
          && (forall j | i <= j < i + 3 :: NoFurther(s.own.px[j], s.own2.px[j], 8))
          && forall r <- s.ignore :: !(r.x <= x < r.x + r.w && r.y <= y < r.y + r.h))
  {
    InGrid(s.scr.w, s.scr.h, x, y);
    var i := (y * s.scr.w + x) * 3;
    MaxApart(s.scr.px, s.own.px, i, 24);
    MaxApart(s.own.px, s.own2.px, i, 8);
    if s.Ignored(x, y) {
      var k :| 0 <= k < |s.ignore| && s.ignore[k].Holds(x, y);
      assert s.ignore[k] in s.ignore;
    }
  }

  /** a is n or less from b. */
  predicate NoFurther(a: int, b: int, n: int) {
    a - n <= b <= a + n
  }

  lemma MaxApart(a: seq<Byte>, b: seq<Byte>, i: nat, n: nat)
    requires i + 3 <= |a| && i + 3 <= |b|
    ensures Apart(a, b, i) <= n <==> forall j | i <= j < i + 3 :: NoFurther(a[j], b[j], n)
  {
    if forall j | i <= j < i + 3 :: NoFurther(a[j], b[j], n) {
      assert NoFurther(a[i], b[i], n) && NoFurther(a[i + 1], b[i + 1], n) && NoFurther(a[i + 2], b[i + 2], n);
    }
  }

  /** cells is the grid of the drawn cells. */
  ghost predicate IsCells(s: Shots, cells: seq<bool>)
    requires s.Matching()
  {
    && |cells| == s.W() * s.H()
    && (s.W() > 0 ==> forall c | 0 <= c < |cells| :: cells[c] == s.CellDrawn(X(s.W(), c), Y(s.W(), c)))
  }

  method MarkCells(s: Shots) returns (cell: array<bool>)
    requires s.Matching() && s.scr.w > 0
    ensures fresh(cell) && IsCells(s, cell[..])
  {
    var w, h, gw, gh := s.scr.w, s.scr.h, s.W(), s.H();
    cell := new bool[gw * gh](_ => false);
    for y := 0 to h
      invariant forall c | 0 <= c < cell.Length :: cell[c] <==>
        exists px: nat, py: nat | px < w && py < y && px / CELL == X(gw, c) && py / CELL == Y(gw, c) ::
          s.Differs(px, py)
    {
      for x := 0 to w
        invariant forall c | 0 <= c < cell.Length :: cell[c] <==>
          exists px: nat, py: nat |
            px < w && (py < y || (py == y && px < x)) && py < h && px / CELL == X(gw, c) && py / CELL == Y(gw, c) ::
            s.Differs(px, py)
      {
        if s.Differs(x, y) {
          Flat(gw, x / CELL, y / CELL);
          InGrid(gw, gh, x / CELL, y / CELL);
          cell[(y / CELL) * gw + x / CELL] := true;
        }
        forall c | 0 <= c < cell.Length && X(gw, c) == x / CELL && Y(gw, c) == y / CELL
          ensures c == (y / CELL) * gw + x / CELL
        {
          PlaceInGrid(gw, gh, c);
        }
      }
    }
  }

  // ---- Drawn cells' reach ----

  predicate Close(gw: nat, a: nat, b: nat, reach: nat)
    requires gw > 0
  {
    AbsDiff(X(gw, a), X(gw, b)) <= reach && AbsDiff(Y(gw, a), Y(gw, b)) <= reach
  }

  /** near is the grid of the cells GAP or less from a drawn one. */
  ghost predicate IsNear(gw: nat, cells: seq<bool>, near: seq<bool>)
    requires gw > 0
  {
    |near| == |cells| && forall c | 0 <= c < |near| :: near[c] == NearDrawn(gw, cells, |cells|, c)
  }

  /** c is GAP or less from one of the first n cells that is drawn. */
  ghost predicate NearDrawn(gw: nat, cells: seq<bool>, n: nat, c: nat)
    requires gw > 0 && n <= |cells|
  {
    exists d: nat | d < n :: cells[d] && Close(gw, d, c, GAP)
  }

  /** A drawn cell's reach set. */
  method Spread(near: array<bool>, gw: nat, gh: nat, cx: nat, cy: nat)
    requires gw > 0 && near.Length == gw * gh && cx < gw && cy < gh
    modifies near
    ensures forall c | 0 <= c < near.Length ::
      near[c] == (old(near[c]) || (AbsDiff(X(gw, c), cx) <= GAP && AbsDiff(Y(gw, c), cy) <= GAP))
  {
    var y0, y1 := if cy < GAP then 0 else cy - GAP, MinOf(cy + GAP + 1, gh);
    var x0, x1 := if cx < GAP then 0 else cx - GAP, MinOf(cx + GAP + 1, gw);
    for ny := y0 to y1
      invariant forall c | 0 <= c < near.Length ::
        near[c] == (old(near[c]) || (x0 <= X(gw, c) < x1 && y0 <= Y(gw, c) < ny))
    {
      for nx := x0 to x1
        invariant forall c | 0 <= c < near.Length :: near[c] == (old(near[c]) ||
                     (x0 <= X(gw, c) < x1 && y0 <= Y(gw, c) < ny) || (x0 <= X(gw, c) < nx && Y(gw, c) == ny))
      {
        Flat(gw, nx, ny);
        InGrid(gw, gh, nx, ny);
        forall c | 0 <= c < near.Length && X(gw, c) == nx && Y(gw, c) == ny
          ensures c == ny * gw + nx
        {
          PlaceInGrid(gw, gh, c);
        }
        near[ny * gw + nx] := true;
      }
    }
    forall c | 0 <= c < near.Length
      ensures X(gw, c) < gw && Y(gw, c) < gh
    {
      PlaceInGrid(gw, gh, c);
    }
  }

  lemma NearDrawnStep(gw: nat, cells: seq<bool>, n: nat)
    requires gw > 0 && n < |cells|
    ensures forall c: nat ::
      NearDrawn(gw, cells, n + 1, c) == (NearDrawn(gw, cells, n, c) || (cells[n] && Close(gw, n, c, GAP)))
  {
  }

  ghost predicate NearSoFar(near: array<bool>, gw: nat, cells: seq<bool>, n: nat)
    requires gw > 0 && n <= |cells|
    reads near
  {
    forall c | 0 <= c < near.Length :: near[c] == NearDrawn(gw, cells, n, c)
  }

  method DilateCell(cell: array<bool>, near: array<bool>, gw: nat, gh: nat, cx: nat, cy: nat)
    requires cx < gw && cy < gh && cell.Length == near.Length == gw * gh && cell != near
    requires cy * gw + cx < cell.Length && NearSoFar(near, gw, cell[..], cy * gw + cx)
    modifies near
    ensures NearSoFar(near, gw, cell[..], cy * gw + cx + 1)
  {
    Flat(gw, cx, cy);
    NearDrawnStep(gw, cell[..], cy * gw + cx);
    if cell[cy * gw + cx] {
      Spread(near, gw, gh, cx, cy);
    }
  }

  method Dilate(cell: array<bool>, gw: nat, gh: nat) returns (near: array<bool>)
    requires gw > 0 && cell.Length == gw * gh
    ensures fresh(near) && IsNear(gw, cell[..], near[..])
  {
    near := new bool[gw * gh](_ => false);
    for cy := 0 to gh
      invariant cy * gw <= cell.Length && cell[..] == old(cell[..])
      invariant NearSoFar(near, gw, cell[..], cy * gw)
    {
      MulMonotone(cy + 1, gh, gw);
      assert (cy + 1) * gw == cy * gw + gw;
      for cx := 0 to gw
        invariant cell[..] == old(cell[..]) && NearSoFar(near, gw, cell[..], cy * gw + cx)
      {
        DilateCell(cell, near, gw, gh, cx, cy);
      }
    }
  }

  // ---- Clusters: the cells linked by side-by-side steps through near ones ----

  predicate Adjacent(gw: nat, n: nat, a: nat, b: nat)
    requires gw > 0
  {
    || (X(gw, a) > 0 && b == a - 1)
    || (X(gw, a) + 1 < gw && b == a + 1)
    || (a >= gw && b == a - gw)
    || (a + gw < n && b == a + gw)
  }

  ghost predicate IsPath(near: seq<bool>, gw: nat, p: seq<nat>)
    requires gw > 0
  {
    && |p| > 0
    && (forall i | 0 <= i < |p| :: p[i] < |near| && near[p[i]])
    && (forall i | 0 <= i < |p| - 1 :: Adjacent(gw, |near|, p[i], p[i + 1]))
  }

  ghost predicate Linked(near: seq<bool>, gw: nat, a: nat, b: nat)
    requires gw > 0
  {
    exists p: seq<nat> :: IsPath(near, gw, p) && p[0] == a && p[|p| - 1] == b
  }

  lemma LinkedSelf(near: seq<bool>, gw: nat, a: nat)
    requires gw > 0 && a < |near| && near[a]
    ensures Linked(near, gw, a, a)
  {
    assert IsPath(near, gw, [a]);
  }

  lemma LinkedStep(near: seq<bool>, gw: nat, a: nat, b: nat, c: nat)
    requires gw > 0 && Linked(near, gw, a, b) && c < |near| && near[c] && Adjacent(gw, |near|, b, c)
    ensures Linked(near, gw, a, c)
  {
    var p: seq<nat> :| IsPath(near, gw, p) && p[0] == a && p[|p| - 1] == b;
    assert IsPath(near, gw, p + [c]);
    assert (p + [c])[0] == a && (p + [c])[|p + [c]| - 1] == c;
  }

  lemma LinkedTrans(near: seq<bool>, gw: nat, a: nat, b: nat, c: nat)
    requires gw > 0 && Linked(near, gw, a, b) && Linked(near, gw, b, c)
    ensures Linked(near, gw, a, c)
  {
    var p: seq<nat> :| IsPath(near, gw, p) && p[0] == a && p[|p| - 1] == b;
    var q: seq<nat> :| IsPath(near, gw, q) && q[0] == b && q[|q| - 1] == c;
    var r := p + q[1..];
    forall i | 0 <= i < |r| - 1
      ensures Adjacent(gw, |near|, r[i], r[i + 1])
    {
      if i < |p| - 1 {
        assert r[i] == p[i] && r[i + 1] == p[i + 1];
      } else {
        assert r[i] == q[i - (|p| - 1)] && r[i + 1] == q[i - (|p| - 1) + 1];
      }
    }
    assert IsPath(near, gw, r);
    assert r[|r| - 1] == c;
  }

  lemma AdjacentSym(gw: nat, n: nat, a: nat, b: nat)
    requires gw > 0 && a < n && b < n && Adjacent(gw, n, a, b)
    ensures Adjacent(gw, n, b, a)
  {
    if X(gw, a) > 0 && b == a - 1 {
      DivUnique(b, gw, Y(gw, a), X(gw, a) - 1);
    } else if X(gw, a) + 1 < gw && b == a + 1 {
      DivUnique(b, gw, Y(gw, a), X(gw, a) + 1);
    }
  }

  ghost function Backwards(p: seq<nat>): seq<nat> {
    seq(|p|, i requires 0 <= i < |p| => p[|p| - 1 - i])
  }

  lemma LinkedSym(near: seq<bool>, gw: nat, a: nat, b: nat)
    requires gw > 0 && Linked(near, gw, a, b)
    ensures Linked(near, gw, b, a)
  {
    var p: seq<nat> :| IsPath(near, gw, p) && p[0] == a && p[|p| - 1] == b;
    var q := Backwards(p);
    forall i | 0 <= i < |q| - 1
      ensures Adjacent(gw, |near|, q[i], q[i + 1])
    {
      var k := |p| - 2 - i;
      assert p[k] == q[i + 1] && p[k + 1] == q[i];
      AdjacentSym(gw, |near|, p[k], p[k + 1]);
    }
    assert IsPath(near, gw, q);
  }

  ghost function Cluster(near: seq<bool>, gw: nat, a: nat): set<nat>
    requires gw > 0
  {
    set c: nat | c < |near| && Linked(near, gw, a, c)
  }

  lemma ClusterOf(near: seq<bool>, gw: nat, a: nat, c: nat)
    requires gw > 0
    ensures c in Cluster(near, gw, a) <==> Linked(near, gw, a, c)
    ensures Linked(near, gw, a, c) ==> c < |near| && near[c]
  {
    if Linked(near, gw, a, c) {
      var p: seq<nat> :| IsPath(near, gw, p) && p[0] == a && p[|p| - 1] == c;
      assert near[p[|p| - 1]];
    }
  }

  // ---- A cluster's box ----

  const NO_BOX := Box(MAX, MAX, 0, 0)

  /** Side k of a box, and where a cell is along it: first column, first row, last column, last row. */
  function BoxSide(b: Box, k: int): nat {
    if k == 0 then b.x0 else if k == 1 then b.y0 else if k == 2 then b.x1 else b.y1
  }

  function CellSide(gw: nat, c: nat, k: int): nat
    requires gw > 0
  {
    if k == 0 || k == 2 then X(gw, c) else Y(gw, c)
  }

  ghost predicate BoxHolds(b: Box, gw: nat, c: nat)
    requires gw > 0
  {
    b.x0 <= X(gw, c) <= b.x1 && b.y0 <= Y(gw, c) <= b.y1
  }

  ghost predicate SideReached(b: Box, cells: seq<bool>, gw: nat, members: set<nat>, k: int)
    requires gw > 0
  {
    exists c <- members :: c < |cells| && cells[c] && CellSide(gw, c, k) == BoxSide(b, k)
  }

  ghost predicate AnyDrawn(cells: seq<bool>, members: set<nat>) {
    exists c <- members :: c < |cells| && cells[c]
  }

  /** b is the least box around the drawn cells among the members. */
  ghost predicate TightBox(b: Box, cells: seq<bool>, gw: nat, members: set<nat>)
    requires gw > 0
  {
    && (forall c <- members | c < |cells| && cells[c] :: BoxHolds(b, gw, c))
    && if AnyDrawn(cells, members) then forall k | 0 <= k < 4 :: SideReached(b, cells, gw, members, k) else b == NO_BOX
  }

  function GrowBox(b: Box, cx: nat, cy: nat): Box {
    Box(MinOf(b.x0, cx), MinOf(b.y0, cy), MaxOf(b.x1, cx), MaxOf(b.y1, cy))
  }

  lemma PlaceSmall(gw: nat, c: nat)
    requires gw > 0
    ensures X(gw, c) <= c && Y(gw, c) <= c
  {
    MulMonotone(1, gw, Y(gw, c));
  }

  lemma GrowTight(b: Box, cells: seq<bool>, gw: nat, members: set<nat>, c: nat)
    requires gw > 0 && c < |cells| < MAX && TightBox(b, cells, gw, members)
    ensures TightBox(if cells[c] then GrowBox(b, X(gw, c), Y(gw, c)) else b, cells, gw, members + {c})
  {
    var all := members + {c};
    PlaceSmall(gw, c);
    assert AnyDrawn(cells, members) ==> AnyDrawn(cells, all);
    if cells[c] {
      var b' := GrowBox(b, X(gw, c), Y(gw, c));
      forall k | 0 <= k < 4
        ensures SideReached(b', cells, gw, all, k)
      {
        if AnyDrawn(cells, members) && BoxSide(b', k) == BoxSide(b, k) {
          assert SideReached(b, cells, gw, members, k);
        } else {
          assert c in all && CellSide(gw, c, k) == BoxSide(b', k);
        }
      }
    } else if AnyDrawn(cells, members) {
      forall k | 0 <= k < 4
        ensures SideReached(b, cells, gw, all, k)
      {
        assert SideReached(b, cells, gw, members, k);
      }
    }
  }

  // ---- Filling one cluster ----

  const NONE := -1

  /** The clusters numbered under id are whole: no near cell beside one of their cells is outside it. */
  ghost predicate Closed(part: seq<int>, near: seq<bool>, gw: nat, id: nat)
    requires gw > 0 && |part| == |near|
  {
    forall a, b | 0 <= a < |part| && 0 <= b < |part| && 0 <= part[a] < id && near[b] && Adjacent(gw, |near|, a, b) ::
      part[b] == part[a]
  }

  /** What a fill has reached: cells numbered id, some still on the stack, the rest done; all the near
      cells beside one looked around are reached. */
  ghost predicate Filling(near: seq<bool>, gw: nat, before: seq<int>, part: seq<int>, start: nat, id: nat,
                          stack: seq<nat>, done: set<nat>, looked: set<nat>)
    requires gw > 0
  {
    && |part| == |before| == |near| && start < |near|
    && (forall c | 0 <= c < |part| :: part[c] == (if c in done || c in stack then id else before[c]))
    && (forall c | c in done || c in stack :: c < |near| && near[c] && before[c] == NONE && Linked(near, gw, start, c))
    && (forall i, j | 0 <= i < j < |stack| :: stack[i] != stack[j])
    && (forall c <- stack :: c !in done)
    && (start in done || start in stack)
    && (forall a, b: nat | a in looked && b < |near| && near[b] && Adjacent(gw, |near|, a, b) ::
      b in done || b in stack)
  }

  ghost function Unreached(near: seq<bool>, part: seq<int>): set<nat>
    requires |near| == |part|
  {
    set c: nat | c < |near| && near[c] && part[c] == NONE
  }

  /** A near cell beside the one looked around, not reached before, onto the stack. */
  method Push(near: array<bool>, part: array<int>, stack: seq<nat>, n: nat, id: nat, ghost gw: nat,
              ghost before: seq<int>, ghost start: nat, ghost done: set<nat>, ghost looked: set<nat>, ghost from: nat)
    returns (stack': seq<nat>)
    requires gw > 0 && n < near.Length == part.Length
    requires Filling(near[..], gw, before, part[..], start, id, stack, done, looked)
    requires from in done && Adjacent(gw, near.Length, from, n)
    modifies part
    ensures Filling(near[..], gw, before, part[..], start, id, stack', done, looked)
    ensures near[n] && before[n] == NONE ==> n in done || n in stack'
    ensures forall c <- stack :: c in stack'
    ensures Unreached(near[..], part[..]) <= old(Unreached(near[..], part[..]))
    ensures stack' == stack || Unreached(near[..], part[..]) < old(Unreached(near[..], part[..]))
  {
    stack' := stack;
    if near[n] && part[n] == NONE {
      ghost var was := part[..];
      LinkedStep(near[..], gw, start, from, n);
      part[n] := id;
      stack' := stack' + [n];
      assert part[..] == was[n := id as int];
      assert n in Unreached(near[..], was) && n !in Unreached(near[..], part[..]);
    }
  }

  /** A cell beside one just numbered was in no earlier cluster. */
  lemma FreshNeighbour(near: seq<bool>, gw: nat, before: seq<int>, id: nat, a: nat, b: nat)
    requires gw > 0 && |before| == |near| && Closed(before, near, gw, id)
    requires forall c | 0 <= c < |before| :: NONE <= before[c] < id
    requires a < |near| && b < |near| && near[a] && near[b] && before[a] == NONE && Adjacent(gw, |near|, a, b)
    ensures before[b] == NONE
  {
    AdjacentSym(gw, |near|, a, b);
  }

  /** Up, down and right of a cell stay in the grid just when its row and column allow. */
  lemma BesideInGrid(gw: nat, gh: nat, c: nat)
    requires gw > 0 && c < gw * gh
    ensures c / gw > 0 <==> c >= gw
    ensures c / gw + 1 < gh <==> c + gw < gw * gh
    ensures c % gw + 1 < gw ==> c + 1 < gw * gh
  {
    PlaceInGrid(gw, gh, c);
    MulMonotone(1, if c / gw == 0 then 1 else c / gw, gw);
    if c / gw + 1 < gh {
      MulMonotone(c / gw + 2, gh, gw);
      assert (c / gw + 2) * gw == (c / gw) * gw + 2 * gw;
    } else {
      assert gh == c / gw + 1;
      assert gh * gw == (c / gw) * gw + gw;
    }
  }

  /** The cells beside c, left, right, up and down of it. */
  function Beside(gw: nat, gh: nat, c: nat): (r: seq<nat>)
    requires gw > 0 && c < gw * gh
    ensures forall b: nat :: b in r <==> b < gw * gh && Adjacent(gw, gw * gh, c, b)
    ensures forall k | 0 <= k < |r| :: r[k] < gw * gh
  {
    BesideInGrid(gw, gh, c);
    PlaceSmall(gw, c);
    var cx, cy := c % gw, c / gw;
    (if cx > 0 then [c - 1] else []) + (if cx + 1 < gw then [c + 1] else []) +
    (if cy > 0 then [c - gw] else []) + (if cy + 1 < gh then [c + gw] else [])
  }

  /** The cells beside c, those near and not reached onto the stack. */
  method LookAround(near: array<bool>, part: array<int>, stack: seq<nat>, beside: seq<nat>, id: nat, ghost gw: nat,
                    ghost c: nat, ghost before: seq<int>, ghost start: nat, ghost done: set<nat>,
                    ghost looked: set<nat>)
    returns (stack': seq<nat>)
    requires gw > 0 && c < near.Length == part.Length
    requires forall b: nat :: b in beside <==> b < near.Length && Adjacent(gw, near.Length, c, b)
    requires forall k | 0 <= k < |beside| :: beside[k] < near.Length
    requires Filling(near[..], gw, before, part[..], start, id, stack, done, looked)
    requires c in done && done == looked + {c}
    requires Closed(before, near[..], gw, id) && forall k | 0 <= k < |before| :: NONE <= before[k] < id
    modifies part
    ensures Filling(near[..], gw, before, part[..], start, id, stack', done, done)
    ensures stack' == stack || Unreached(near[..], part[..]) < old(Unreached(near[..], part[..]))
  {
    ghost var grid := near[..];
    stack' := stack;
    for i := 0 to |beside|
      invariant near[..] == grid && Filling(grid, gw, before, part[..], start, id, stack', done, looked)
      invariant forall k | 0 <= k < i && grid[beside[k]] && before[beside[k]] == NONE ::
        beside[k] in done || beside[k] in stack'
      invariant Unreached(grid, part[..]) <= old(Unreached(near[..], part[..]))
      invariant stack' == stack || Unreached(grid, part[..]) < old(Unreached(near[..], part[..]))
    {
      assert beside[i] in beside;
      stack' := Push(near, part, stack', beside[i], id, gw, before, start, done, looked, c);
    }
    AllReached(grid, gw, before, part[..], start, id, stack', done, looked, c, beside);
  }

  lemma AllReached(near: seq<bool>, gw: nat, before: seq<int>, part: seq<int>, start: nat, id: nat,
                   stack: seq<nat>, done: set<nat>, looked: set<nat>, c: nat, beside: seq<nat>)
    requires gw > 0 && c in done && done == looked + {c}
    requires Filling(near, gw, before, part, start, id, stack, done, looked)
    requires Closed(before, near, gw, id) && forall k | 0 <= k < |before| :: NONE <= before[k] < id
    requires forall b: nat :: b in beside <==> b < |near| && Adjacent(gw, |near|, c, b)
    requires forall k | 0 <= k < |beside| :: beside[k] < |near|
    requires forall k | 0 <= k < |beside| && near[beside[k]] && before[beside[k]] == NONE ::
      beside[k] in done || beside[k] in stack
    ensures Filling(near, gw, before, part, start, id, stack, done, done)
  {
    forall b: nat | b < |near| && near[b] && Adjacent(gw, |near|, c, b)
      ensures b in done || b in stack
    {
      FreshNeighbour(near, gw, before, id, c, b);
      assert b in beside;
    }
  }

  lemma Popped(near: seq<bool>, gw: nat, before: seq<int>, part: seq<int>, start: nat, id: nat, stack: seq<nat>,
               done: set<nat>)
    requires gw > 0 && stack != [] && Filling(near, gw, before, part, start, id, stack, done, done)
    ensures stack[|stack| - 1] < |near|
    ensures Filling(near, gw, before, part, start, id, stack[..|stack| - 1], done + {stack[|stack| - 1]}, done)
  {
    var c, rest := stack[|stack| - 1], stack[..|stack| - 1];
    assert stack == rest + [c];
    assert c in stack && forall k <- rest :: k in stack;
    forall k <- rest
      ensures k != c
    {
      var i :| 0 <= i < |rest| && rest[i] == k;
      assert stack[i] != stack[|stack| - 1];
    }
  }

  /** The last cell on the stack taken off it and done: into the box when it is drawn, and what is beside it onto
      the stack. */
  method TakeLast(cell: array<bool>, near: array<bool>, part: array<int>, stack: seq<nat>, b: Box, gw: nat, gh: nat,
                  id: nat, ghost before: seq<int>, ghost start: nat, ghost done: set<nat>)
    returns (stack': seq<nat>, b': Box, ghost done': set<nat>)
    requires gw > 0 && cell.Length == near.Length == part.Length == gw * gh < MAX && stack != []
    requires Filling(near[..], gw, before, part[..], start, id, stack, done, done) && TightBox(b, cell[..], gw, done)
    requires Closed(before, near[..], gw, id) && forall k | 0 <= k < |before| :: NONE <= before[k] < id
    modifies part
    ensures Filling(near[..], gw, before, part[..], start, id, stack', done', done')
      && TightBox(b', cell[..], gw, done')
    ensures Unreached(near[..], part[..]) < old(Unreached(near[..], part[..]))
      || (part[..] == old(part[..]) && |stack'| < |stack|)
  {
    var c := stack[|stack| - 1];
    Popped(near[..], gw, before, part[..], start, id, stack, done);
    GrowTight(b, cell[..], gw, done, c);
    b' := if cell[c] then GrowBox(b, c % gw, c / gw) else b;
    done' := done + {c};
    var beside := Beside(gw, gh, c);
    stack' := LookAround(near, part, stack[..|stack| - 1], beside, id, gw, c, before, start, done', done);
  }

  /** The cluster of start numbered id, and its box. */
  method Fill(cell: array<bool>, near: array<bool>, part: array<int>, gw: nat, gh: nat, start: nat, id: nat)
    returns (b: Box)
    requires gw > 0 && cell.Length == near.Length == part.Length == gw * gh < MAX
    requires start < near.Length && near[start] && part[start] == NONE
    requires Closed(part[..], near[..], gw, id) && forall c | 0 <= c < part.Length :: NONE <= part[c] < id
    modifies part
    ensures forall c | 0 <= c < part.Length :: part[c] == if Linked(near[..], gw, start, c) then id else old(part[c])
    ensures forall c: nat | Linked(near[..], gw, start, c) :: c < part.Length && old(part[..])[c] == NONE
    ensures TightBox(b, cell[..], gw, Cluster(near[..], gw, start))
  {
    ghost var before := part[..];
    ghost var grid, cells := near[..], cell[..];
    b := NO_BOX;
    var stack: seq<nat> := [start];
    part[start] := id;
    ghost var done: set<nat> := {};
    LinkedSelf(grid, gw, start);
    while stack != []
      invariant near[..] == grid && cell[..] == cells
      invariant Filling(grid, gw, before, part[..], start, id, stack, done, done)
      invariant TightBox(b, cells, gw, done)
      decreases Unreached(grid, part[..]), |stack|
    {
      stack, b, done := TakeLast(cell, near, part, stack, b, gw, gh, id, before, start, done);
    }
    FilledAll(grid, gw, before, part[..], start, id, done);
  }

  lemma FilledAll(near: seq<bool>, gw: nat, before: seq<int>, part: seq<int>, start: nat, id: nat, done: set<nat>)
    requires gw > 0 && Filling(near, gw, before, part, start, id, [], done, done)
    ensures done == Cluster(near, gw, start)
    ensures forall c: nat :: c in done <==> Linked(near, gw, start, c)
  {
    forall c: nat | Linked(near, gw, start, c)
      ensures c in done
    {
      var p: seq<nat> :| IsPath(near, gw, p) && p[0] == start && p[|p| - 1] == c;
      PathDone(near, gw, before, part, start, id, done, p, |p| - 1);
    }
    forall c: nat
      ensures c in done <==> c in Cluster(near, gw, start)
    {
      ClusterOf(near, gw, start, c);
    }
  }

  lemma {:induction false} PathDone(near: seq<bool>, gw: nat, before: seq<int>, part: seq<int>, start: nat, id: nat,
                                    done: set<nat>, p: seq<nat>, i: nat)
    requires gw > 0 && Filling(near, gw, before, part, start, id, [], done, done)
    requires IsPath(near, gw, p) && p[0] == start && i < |p|
    ensures p[i] in done
  {
    if i > 0 {
      PathDone(near, gw, before, part, start, id, done, p, i - 1);
    }
  }

  // ---- All the clusters, in the order of their first cells ----

  /** The clusters of near, each by its first cell, in order, with their boxes. */
  ghost predicate Items(cells: seq<bool>, near: seq<bool>, gw: nat, seeds: seq<nat>, boxes: seq<Box>)
    requires gw > 0
  {
    && |seeds| == |boxes|
    && (forall k | 0 <= k < |seeds| :: seeds[k] < |near| && near[seeds[k]])
    && (forall j, k | 0 <= j < k < |seeds| :: seeds[j] < seeds[k])
    && (forall k, c: nat | 0 <= k < |seeds| && Linked(near, gw, seeds[k], c) :: seeds[k] <= c)
    && (forall k | 0 <= k < |boxes| :: TightBox(boxes[k], cells, gw, Cluster(near, gw, seeds[k])))
    && (forall c | 0 <= c < |near| && near[c] :: SeedOf(near, gw, seeds, c))
  }

  ghost predicate SeedOf(near: seq<bool>, gw: nat, seeds: seq<nat>, c: nat)
    requires gw > 0
  {
    exists k | 0 <= k < |seeds| :: Linked(near, gw, seeds[k], c)
  }

  /** The labels while the grid is gone through: the clusters of the seeds, whole, and no others. */
  ghost predicate Labelled(part: seq<int>, near: seq<bool>, gw: nat, seeds: seq<nat>)
    requires gw > 0
  {
    && |part| == |near|
    && (forall c | 0 <= c < |part| :: NONE <= part[c] < |seeds|)
    && (forall c | 0 <= c < |part| && part[c] >= 0 :: Linked(near, gw, seeds[part[c]], c))
    && (forall k, c: nat | 0 <= k < |seeds| && Linked(near, gw, seeds[k], c) && c < |part| :: part[c] == k)
  }

  lemma LabelledClosed(part: seq<int>, near: seq<bool>, gw: nat, seeds: seq<nat>)
    requires gw > 0 && Labelled(part, near, gw, seeds)
    ensures Closed(part, near, gw, |seeds|)
  {
    forall a, b | 0 <= a < |part| && 0 <= b < |part| && 0 <= part[a] < |seeds| && near[b] && Adjacent(gw, |near|, a, b)
      ensures part[b] == part[a]
    {
      LinkedStep(near, gw, seeds[part[a]], a, b);
    }
  }

  /** The grid gone through up to a cell: every cluster that has one of the cells before it. */
  ghost predicate GoneThrough(cells: seq<bool>, near: seq<bool>, gw: nat, seeds: seq<nat>, boxes: seq<Box>,
                              part: seq<int>, start: nat)
    requires gw > 0
  {
    && Labelled(part, near, gw, seeds) && |boxes| == |seeds|
    && (forall k | 0 <= k < |seeds| :: seeds[k] < start && seeds[k] < |near| && near[seeds[k]])
    && (forall j, k | 0 <= j < k < |seeds| :: seeds[j] < seeds[k])
    && (forall k, c: nat | 0 <= k < |seeds| && Linked(near, gw, seeds[k], c) :: seeds[k] <= c)
    && (forall k | 0 <= k < |boxes| :: TightBox(boxes[k], cells, gw, Cluster(near, gw, seeds[k])))
    && (forall c | 0 <= c < start && c < |near| && near[c] :: part[c] != NONE)
  }

  lemma ItemAdded(cells: seq<bool>, near: seq<bool>, gw: nat, seeds: seq<nat>, boxes: seq<Box>, before: seq<int>,
                  part: seq<int>, start: nat, b: Box)
    requires gw > 0 && GoneThrough(cells, near, gw, seeds, boxes, before, start) && |part| == |before|
    requires start < |near| && near[start] && before[start] == NONE
    requires forall c | 0 <= c < |part| :: part[c] == if Linked(near, gw, start, c) then |seeds| else before[c]
    requires forall c: nat | Linked(near, gw, start, c) :: c < |before| && before[c] == NONE
    requires TightBox(b, cells, gw, Cluster(near, gw, start))
    ensures GoneThrough(cells, near, gw, seeds + [start], boxes + [b], part, start + 1)
  {
    LinkedSelf(near, gw, start);
    var next, more := seeds + [start], boxes + [b];
    forall k, c: nat | 0 <= k < |next| && Linked(near, gw, next[k], c)
      ensures next[k] <= c && (c < |part| ==> part[c] == k)
    {
      ClusterOf(near, gw, next[k], c);
      if k < |seeds| {
        assert next[k] == seeds[k] && before[c] == k;
      }
    }
    forall k | 0 <= k < |more|
      ensures TightBox(more[k], cells, gw, Cluster(near, gw, next[k]))
    {
      if k < |seeds| {
        assert next[k] == seeds[k] && more[k] == boxes[k];
      }
    }
  }

  lemma ReadyToFill(cells: seq<bool>, near: seq<bool>, gw: nat, seeds: seq<nat>, boxes: seq<Box>, part: seq<int>,
                    start: nat)
    requires gw > 0 && GoneThrough(cells, near, gw, seeds, boxes, part, start)
    ensures |boxes| == |seeds| && |part| == |near|
    ensures Closed(part, near, gw, |boxes|) && forall c | 0 <= c < |part| :: NONE <= part[c] < |boxes|
  {
    LabelledClosed(part, near, gw, seeds);
  }

  lemma NothingNew(cells: seq<bool>, near: seq<bool>, gw: nat, seeds: seq<nat>, boxes: seq<Box>, part: seq<int>,
                   start: nat)
    requires gw > 0 && GoneThrough(cells, near, gw, seeds, boxes, part, start)
    requires start < |near| == |part| && !(near[start] && part[start] == NONE)
    ensures GoneThrough(cells, near, gw, seeds, boxes, part, start + 1)
  {
  }

  lemma AllGoneThrough(cells: seq<bool>, near: seq<bool>, gw: nat, seeds: seq<nat>, boxes: seq<Box>, part: seq<int>)
    requires gw > 0 && GoneThrough(cells, near, gw, seeds, boxes, part, |near|)
    ensures Items(cells, near, gw, seeds, boxes)
  {
    forall c | 0 <= c < |near| && near[c]
      ensures SeedOf(near, gw, seeds, c)
    {
      assert part[c] >= 0 && Linked(near, gw, seeds[part[c]], c);
    }
  }

  /** The cluster of the next cell, when it is near and in none so far. */
  method LabelNext(cell: array<bool>, near: array<bool>, part: array<int>, gw: nat, gh: nat, start: nat,
                   boxes: seq<Box>, ghost seeds: seq<nat>)
    returns (boxes': seq<Box>, ghost seeds': seq<nat>)
    requires gw > 0 && cell.Length == near.Length == part.Length == gw * gh < MAX && start < gw * gh
    requires GoneThrough(cell[..], near[..], gw, seeds, boxes, part[..], start)
    modifies part
    ensures GoneThrough(cell[..], near[..], gw, seeds', boxes', part[..], start + 1)
  {
    ghost var cells, grid, before := cell[..], near[..], part[..];
    if near[start] && part[start] == NONE {
      ReadyToFill(cells, grid, gw, seeds, boxes, before, start);
      var b := Fill(cell, near, part, gw, gh, start, |boxes|);
      ItemAdded(cells, grid, gw, seeds, boxes, before, part[..], start, b);
      boxes', seeds' := boxes + [b], seeds + [start];
    } else {
      NothingNew(cells, grid, gw, seeds, boxes, before, start);
      boxes', seeds' := boxes, seeds;
    }
  }

  /** Every cluster, in the order of their first cells, numbered so in part. */
  method LabelAll(cell: array<bool>, near: array<bool>, gw: nat, gh: nat)
    returns (boxes: seq<Box>, ghost seeds: seq<nat>, part: array<int>)
    requires gw > 0 && cell.Length == near.Length == gw * gh < MAX
    ensures Items(cell[..], near[..], gw, seeds, boxes)
    ensures fresh(part) && Labelled(part[..], near[..], gw, seeds)
  {
    ghost var grid, cells := near[..], cell[..];
    part := new int[gw * gh](_ => NONE);
    boxes, seeds := [], [];
    for start := 0 to gw * gh
      invariant near[..] == grid && cell[..] == cells
      invariant GoneThrough(cells, grid, gw, seeds, boxes, part[..], start)
    {
      boxes, seeds := LabelNext(cell, near, part, gw, gh, start, boxes, seeds);
    }
    AllGoneThrough(cells, grid, gw, seeds, boxes, part[..]);
  }

  // ---- The verdict ----

  /** The point's cell is in the box, or PAD or less from it. */
  predicate Covers(b: Box, cx: nat, cy: nat) {
    b.x0 != MAX && cx + PAD >= b.x0 && cx <= b.x1 + PAD && cy + PAD >= b.y0 && cy <= b.y1 + PAD
  }

  predicate Everywhere(b: Box, gw: nat, gh: nat) {
    b.x0 <= 1 && b.y0 <= 1 && b.x1 + 2 >= gw && b.y1 + 2 >= gh && gw > 2 * GAP && gh > 2 * GAP
  }

  /** What the clusters' boxes say of the point's cell: the first that covers it decides. */
  function Judge(boxes: seq<Box>, cx: nat, cy: nat, gw: nat, gh: nat): Verdict {
    if boxes == [] then NotHere
    else if Covers(boxes[0], cx, cy) then (if Everywhere(boxes[0], gw, gh) then Unknown else Here)
    else Judge(boxes[1..], cx, cy, gw, gh)
  }

  predicate Askable(s: Shots, px: int, py: int) {
    s.Matching() && 0 <= px < s.scr.w && 0 <= py < s.scr.h
  }

  /** What drawn_at answers, said by the clusters. */
  ghost predicate IsVerdict(s: Shots, px: int, py: int, v: Verdict) {
    if !Askable(s, px, py) then v == Unknown
    else exists cells, near, seeds, boxes ::
      && IsCells(s, cells) && IsNear(s.W(), cells, near) && Items(cells, near, s.W(), seeds, boxes)
      && v == Judge(boxes, px / CELL, py / CELL, s.W(), s.H())
  }

  method DrawnAt(s: Shots, px: int, py: int) returns (v: Verdict)
    requires |s.scr.px| < MAX
    ensures IsVerdict(s, px, py, v)
  {
    if !s.Matching() || px < 0 || py < 0 || px >= s.scr.w || py >= s.scr.h {
      return Unknown;
    }
    var gw, gh := s.W(), s.H();
    CellsFit(s);
    var cell := MarkCells(s);
    var near := Dilate(cell, gw, gh);
    var boxes, seeds, part := LabelAll(cell, near, gw, gh);
    var cx, cy := px / CELL, py / CELL;
    var i := 0;
    while i < |boxes| && !Covers(boxes[i], cx, cy)
      invariant i <= |boxes| && Judge(boxes[i..], cx, cy, gw, gh) == Judge(boxes, cx, cy, gw, gh)
    {
      i := i + 1;
    }
    if i == |boxes| {
      return NotHere;
    }
    v := if Everywhere(boxes[i], gw, gh) then Unknown else Here;
  }

  lemma CellsFit(s: Shots)
    requires s.Matching() && s.scr.w > 0 && s.scr.h > 0
    ensures s.W() * s.H() <= |s.scr.px|
  {
    MulMonotone(s.W(), s.scr.w, s.H());
    MulMonotone(s.H(), s.scr.h, s.scr.w);
  }

  // ---- One answer ----

  lemma TightUnique(a: Box, b: Box, cells: seq<bool>, gw: nat, members: set<nat>)
    requires gw > 0 && TightBox(a, cells, gw, members) && TightBox(b, cells, gw, members)
    ensures a == b
  {
    if AnyDrawn(cells, members) {
      forall k | 0 <= k < 4
        ensures BoxSide(a, k) == BoxSide(b, k)
      {
        assert SideReached(a, cells, gw, members, k) && SideReached(b, cells, gw, members, k);
        var c :| c in members && c < |cells| && cells[c] && CellSide(gw, c, k) == BoxSide(a, k);
        var d :| d in members && d < |cells| && cells[d] && CellSide(gw, d, k) == BoxSide(b, k);
        assert BoxHolds(b, gw, c) && BoxHolds(a, gw, d);
      }
      assert BoxSide(a, 0) == BoxSide(b, 0) && BoxSide(a, 1) == BoxSide(b, 1) && BoxSide(a, 2) == BoxSide(b, 2)
        && BoxSide(a, 3) == BoxSide(b, 3);
    }
  }

  lemma {:induction false} IncreasingUnique(a: seq<nat>, b: seq<nat>)
    requires forall i, j | 0 <= i < j < |a| :: a[i] < a[j]
    requires forall i, j | 0 <= i < j < |b| :: b[i] < b[j]
    requires forall c :: c in a <==> c in b
    ensures a == b
    decreases |a|
  {
    assert b != [] ==> b[0] in b;
    if a != [] {
      assert a[0] in b && b[0] in a;
      forall c
        ensures c in a[1..] <==> c in b[1..]
      {
        assert c in a <==> c == a[0] || c in a[1..];
        assert c in b <==> c == b[0] || c in b[1..];
      }
      IncreasingUnique(a[1..], b[1..]);
    }
  }

  lemma SeedIsLeast(cells: seq<bool>, near: seq<bool>, gw: nat, seeds: seq<nat>, boxes: seq<Box>, c: nat)
    requires gw > 0 && Items(cells, near, gw, seeds, boxes)
    ensures c in seeds <==> c < |near| && near[c] && forall d: nat | Linked(near, gw, c, d) :: c <= d
  {
    if c < |near| && near[c] && forall d: nat | Linked(near, gw, c, d) :: c <= d {
      assert SeedOf(near, gw, seeds, c);
      var k :| 0 <= k < |seeds| && Linked(near, gw, seeds[k], c);
      LinkedSym(near, gw, seeds[k], c);
      assert c == seeds[k];
    }
  }

  lemma ItemsUnique(cells: seq<bool>, near: seq<bool>, gw: nat, seeds: seq<nat>, boxes: seq<Box>, seeds': seq<nat>,
                    boxes': seq<Box>)
    requires gw > 0 && Items(cells, near, gw, seeds, boxes) && Items(cells, near, gw, seeds', boxes')
    ensures seeds == seeds' && boxes == boxes'
  {
    forall c: nat
      ensures c in seeds <==> c in seeds'
    {
      SeedIsLeast(cells, near, gw, seeds, boxes, c);
      SeedIsLeast(cells, near, gw, seeds', boxes', c);
    }
    IncreasingUnique(seeds, seeds');
    forall k | 0 <= k < |boxes|
      ensures boxes[k] == boxes'[k]
    {
      TightUnique(boxes[k], boxes'[k], cells, gw, Cluster(near, gw, seeds[k]));
    }
  }

  /** The clusters leave one verdict. */
  lemma VerdictUnique(s: Shots, px: int, py: int, v: Verdict, v': Verdict)
    requires IsVerdict(s, px, py, v) && IsVerdict(s, px, py, v')
    ensures v == v'
  {
    if Askable(s, px, py) {
      var cells, near, seeds, boxes :| IsCells(s, cells) && IsNear(s.W(), cells, near)
        && Items(cells, near, s.W(), seeds, boxes)
        && v == Judge(boxes, px / CELL, py / CELL, s.W(), s.H());
      var cells', near', seeds', boxes' :| IsCells(s, cells') && IsNear(s.W(), cells', near')
        && Items(cells', near', s.W(), seeds', boxes')
        && v' == Judge(boxes', px / CELL, py / CELL, s.W(), s.H());
      assert cells == cells';
      assert near == near';
      ItemsUnique(cells, near, s.W(), seeds, boxes, seeds', boxes');
    }
  }

  // ---- What a cluster is ----

  ghost predicate NearAt(near: seq<bool>, gw: nat, x: nat, y: nat) {
    y * gw + x < |near| && near[y * gw + x]
  }

  ghost predicate LinkedAt(near: seq<bool>, gw: nat, x: nat, y: nat, x': nat, y': nat)
    requires gw > 0
  {
    Linked(near, gw, y * gw + x, y' * gw + x')
  }

  /** Two cells of a row with every cell between them near are linked. */
  lemma {:induction false} RowLinked(near: seq<bool>, gw: nat, y: nat, x0: nat, x1: nat)
    requires gw > 0 && x0 <= x1 < gw
    requires forall x | x0 <= x <= x1 :: NearAt(near, gw, x, y)
    ensures LinkedAt(near, gw, x0, y, x1, y)
    decreases x1
  {
    assert NearAt(near, gw, x1, y);
    if x0 == x1 {
      LinkedSelf(near, gw, y * gw + x0);
    } else {
      RowLinked(near, gw, y, x0, x1 - 1);
      Flat(gw, x1 - 1, y);
      LinkedStep(near, gw, y * gw + x0, y * gw + (x1 - 1), y * gw + x1);
    }
  }

  lemma {:induction false} ColumnLinked(near: seq<bool>, gw: nat, gh: nat, x: nat, y0: nat, y1: nat)
    requires gw > 0 && x < gw && y0 <= y1 < gh && |near| == gw * gh
    requires forall y | y0 <= y <= y1 :: NearAt(near, gw, x, y)
    ensures LinkedAt(near, gw, x, y0, x, y1)
    decreases y1
  {
    assert NearAt(near, gw, x, y1);
    if y0 == y1 {
      LinkedSelf(near, gw, y0 * gw + x);
    } else {
      assert NearAt(near, gw, x, y1 - 1);
      ColumnLinked(near, gw, gh, x, y0, y1 - 1);
      assert y1 * gw + x == ((y1 - 1) * gw + x) + gw;
      LinkedStep(near, gw, y0 * gw + x, (y1 - 1) * gw + x, y1 * gw + x);
    }
  }

  lemma ReachNear(cells: seq<bool>, near: seq<bool>, gw: nat, gh: nat, dx: nat, dy: nat, x: nat, y: nat)
    requires gw > 0 && |cells| == gw * gh && IsNear(gw, cells, near) && dx < gw && dy < gh && x < gw && y < gh
    requires NearAt(cells, gw, dx, dy) && AbsDiff(dx, x) <= GAP && AbsDiff(dy, y) <= GAP
    ensures NearAt(near, gw, x, y)
  {
    InGrid(gw, gh, x, y);
    Flat(gw, x, y);
    Flat(gw, dx, dy);
    assert Close(gw, dy * gw + dx, y * gw + x, GAP);
  }

  /** Everything in a drawn cell's reach is linked to it: along its row, then along the column. */
  lemma ReachLinked(cells: seq<bool>, near: seq<bool>, gw: nat, gh: nat, dx: nat, dy: nat, x: nat, y: nat)
    requires gw > 0 && |cells| == gw * gh && IsNear(gw, cells, near) && dx < gw && dy < gh && x < gw && y < gh
    requires NearAt(cells, gw, dx, dy) && AbsDiff(dx, x) <= GAP && AbsDiff(dy, y) <= GAP
    ensures LinkedAt(near, gw, dx, dy, x, y)
  {
    forall a: nat | a < gw && AbsDiff(dx, a) <= GAP
      ensures NearAt(near, gw, a, dy)
    {
      ReachNear(cells, near, gw, gh, dx, dy, a, dy);
    }
    forall b: nat | b < gh && AbsDiff(dy, b) <= GAP
      ensures NearAt(near, gw, x, b)
    {
      ReachNear(cells, near, gw, gh, dx, dy, x, b);
    }
    if dx <= x {
      RowLinked(near, gw, dy, dx, x);
    } else {
      RowLinked(near, gw, dy, x, dx);
      LinkedSym(near, gw, dy * gw + x, dy * gw + dx);
    }
    if dy <= y {
      ColumnLinked(near, gw, gh, x, dy, y);
    } else {
      ColumnLinked(near, gw, gh, x, y, dy);
      LinkedSym(near, gw, y * gw + x, dy * gw + x);
    }
    LinkedTrans(near, gw, dy * gw + dx, dy * gw + x, y * gw + x);
  }

  /** Drawn cells twice GAP apart or less, across and down, are in one cluster. */
  lemma CloseDrawnTogether(cells: seq<bool>, near: seq<bool>, gw: nat, gh: nat, c: nat, d: nat)
    requires gw > 0 && |cells| == gw * gh && IsNear(gw, cells, near)
    requires c < |cells| && d < |cells| && cells[c] && cells[d] && Close(gw, c, d, 2 * GAP)
    ensures Linked(near, gw, c, d)
  {
    PlaceInGrid(gw, gh, c);
    PlaceInGrid(gw, gh, d);
    var x, y := (X(gw, c) + X(gw, d)) / 2, (Y(gw, c) + Y(gw, d)) / 2;
    ReachLinked(cells, near, gw, gh, X(gw, c), Y(gw, c), x, y);
    ReachLinked(cells, near, gw, gh, X(gw, d), Y(gw, d), x, y);
    LinkedSym(near, gw, d, y * gw + x);
    LinkedTrans(near, gw, c, y * gw + x, d);
  }

  /** Near enough to be one item: the reaches of two cells overlap or lie side by side. */
  predicate Joins(gw: nat, a: nat, b: nat)
    requires gw > 0
  {
    var x, y := AbsDiff(X(gw, a), X(gw, b)), AbsDiff(Y(gw, a), Y(gw, b));
    x <= 2 * GAP + 1 && y <= 2 * GAP + 1 && (x <= 2 * GAP || y <= 2 * GAP)
  }

  /** Drawn cells, each near enough to the next. */
  ghost predicate IsChain(cells: seq<bool>, gw: nat, p: seq<nat>)
    requires gw > 0
  {
    && |p| > 0
    && (forall i | 0 <= i < |p| :: p[i] < |cells| && cells[p[i]])
    && (forall i | 0 <= i < |p| - 1 :: Joins(gw, p[i], p[i + 1]))
  }

  ghost predicate Chained(cells: seq<bool>, gw: nat, a: nat, b: nat)
    requires gw > 0
  {
    exists p: seq<nat> :: IsChain(cells, gw, p) && p[0] == a && p[|p| - 1] == b
  }

  lemma ChainedStep(cells: seq<bool>, gw: nat, a: nat, b: nat, c: nat)
    requires gw > 0 && Chained(cells, gw, a, b) && c < |cells| && cells[c] && Joins(gw, b, c)
    ensures Chained(cells, gw, a, c)
  {
    var p: seq<nat> :| IsChain(cells, gw, p) && p[0] == a && p[|p| - 1] == b;
    assert IsChain(cells, gw, p + [c]);
    assert (p + [c])[0] == a && (p + [c])[|p + [c]| - 1] == c;
  }

  /** Reaches side by side across: the one's last cell and the other's first are neighbours. */
  lemma MeetAcross(cells: seq<bool>, near: seq<bool>, gw: nat, gh: nat, c: nat, d: nat)
    requires gw > 0 && |cells| == gw * gh && IsNear(gw, cells, near)
    requires c < |cells| && d < |cells| && cells[c] && cells[d]
    requires X(gw, d) == X(gw, c) + 2 * GAP + 1 && AbsDiff(Y(gw, c), Y(gw, d)) <= 2 * GAP
    ensures Linked(near, gw, c, d)
  {
    PlaceInGrid(gw, gh, c);
    PlaceInGrid(gw, gh, d);
    var x, y := X(gw, c) + GAP, (Y(gw, c) + Y(gw, d)) / 2;
    ReachLinked(cells, near, gw, gh, X(gw, c), Y(gw, c), x, y);
    ReachLinked(cells, near, gw, gh, X(gw, d), Y(gw, d), x + 1, y);
    ReachNear(cells, near, gw, gh, X(gw, d), Y(gw, d), x + 1, y);
    Flat(gw, x, y);
    LinkedStep(near, gw, c, y * gw + x, y * gw + (x + 1));
    LinkedSym(near, gw, d, y * gw + (x + 1));
    LinkedTrans(near, gw, c, y * gw + (x + 1), d);
  }

  lemma MeetDown(cells: seq<bool>, near: seq<bool>, gw: nat, gh: nat, c: nat, d: nat)
    requires gw > 0 && |cells| == gw * gh && IsNear(gw, cells, near)
    requires c < |cells| && d < |cells| && cells[c] && cells[d]
    requires Y(gw, d) == Y(gw, c) + 2 * GAP + 1 && AbsDiff(X(gw, c), X(gw, d)) <= 2 * GAP
    ensures Linked(near, gw, c, d)
  {
    PlaceInGrid(gw, gh, c);
    PlaceInGrid(gw, gh, d);
    var x, y := (X(gw, c) + X(gw, d)) / 2, Y(gw, c) + GAP;
    ReachLinked(cells, near, gw, gh, X(gw, c), Y(gw, c), x, y);
    ReachLinked(cells, near, gw, gh, X(gw, d), Y(gw, d), x, y + 1);
    ReachNear(cells, near, gw, gh, X(gw, d), Y(gw, d), x, y + 1);
    assert (y + 1) * gw + x == (y * gw + x) + gw;
    LinkedStep(near, gw, c, y * gw + x, (y + 1) * gw + x);
    LinkedSym(near, gw, d, (y + 1) * gw + x);
    LinkedTrans(near, gw, c, (y + 1) * gw + x, d);
  }

  lemma JoinsLinked(cells: seq<bool>, near: seq<bool>, gw: nat, gh: nat, c: nat, d: nat)
    requires gw > 0 && |cells| == gw * gh && IsNear(gw, cells, near)
    requires c < |cells| && d < |cells| && cells[c] && cells[d] && Joins(gw, c, d)
    ensures Linked(near, gw, c, d)
  {
    if Close(gw, c, d, 2 * GAP) {
      CloseDrawnTogether(cells, near, gw, gh, c, d);
    } else if X(gw, d) == X(gw, c) + 2 * GAP + 1 {
      MeetAcross(cells, near, gw, gh, c, d);
    } else if X(gw, c) == X(gw, d) + 2 * GAP + 1 {
      MeetAcross(cells, near, gw, gh, d, c);
      LinkedSym(near, gw, d, c);
    } else if Y(gw, d) == Y(gw, c) + 2 * GAP + 1 {
      MeetDown(cells, near, gw, gh, c, d);
    } else {
      MeetDown(cells, near, gw, gh, d, c);
      LinkedSym(near, gw, d, c);
    }
  }

  /** Neighbours are one apart, across or down. */
  lemma AdjacentPlaces(gw: nat, n: nat, a: nat, b: nat)
    requires gw > 0 && a < n && b < n && Adjacent(gw, n, a, b)
    ensures AbsDiff(X(gw, a), X(gw, b)) + AbsDiff(Y(gw, a), Y(gw, b)) == 1
  {
    if X(gw, a) > 0 && b == a - 1 {
      DivUnique(b, gw, Y(gw, a), X(gw, a) - 1);
    } else if X(gw, a) + 1 < gw && b == a + 1 {
      DivUnique(b, gw, Y(gw, a), X(gw, a) + 1);
    } else if a >= gw && b == a - gw {
      DivUnique(a, gw, Y(gw, b) + 1, X(gw, b));
    } else {
      DivUnique(b, gw, Y(gw, a) + 1, X(gw, a));
    }
  }

  /** What reaches neighbours is near enough to be one item. */
  lemma ReachesJoin(gw: nat, n: nat, a: nat, b: nat, e: nat, d: nat)
    requires gw > 0 && a < n && b < n && Adjacent(gw, n, a, b) && Close(gw, e, a, GAP) && Close(gw, d, b, GAP)
    ensures Joins(gw, e, d)
  {
    AdjacentPlaces(gw, n, a, b);
  }

  /** Along a path of near cells from a drawn one, the drawn cells in reach are chained to it. */
  lemma {:induction false} PathChains(cells: seq<bool>, near: seq<bool>, gw: nat, p: seq<nat>, d: nat)
    requires gw > 0 && IsNear(gw, cells, near) && IsPath(near, gw, p) && p[0] < |cells| && cells[p[0]]
    requires d < |cells| && cells[d] && Close(gw, d, p[|p| - 1], GAP)
    ensures Chained(cells, gw, p[0], d)
    decreases |p|
  {
    var n := |p| - 1;
    if n == 0 {
      assert IsChain(cells, gw, [p[0], d]);
    } else {
      assert near[p[n - 1]];
      var e: nat :| e < |cells| && cells[e] && Close(gw, e, p[n - 1], GAP);
      PathChains(cells, near, gw, p[..n], e);
      ReachesJoin(gw, |near|, p[n - 1], p[n], e, d);
      ChainedStep(cells, gw, p[0], e, d);
    }
  }

  lemma {:induction false} ChainLinks(cells: seq<bool>, near: seq<bool>, gw: nat, gh: nat, p: seq<nat>)
    requires gw > 0 && |cells| == gw * gh && IsNear(gw, cells, near) && IsChain(cells, gw, p)
    ensures Linked(near, gw, p[0], p[|p| - 1])
  {
    var n := |p| - 1;
    if n == 0 {
      JoinsLinked(cells, near, gw, gh, p[0], p[0]);
    } else {
      ChainLinks(cells, near, gw, gh, p[..n]);
      JoinsLinked(cells, near, gw, gh, p[n - 1], p[n]);
      LinkedTrans(near, gw, p[0], p[n - 1], p[n]);
    }
  }

  /** Drawn cells are one item exactly when drawn cells lead from the one to the other by steps of at most
      twice GAP one way and at most one more the other. */
  lemma DrawnTogetherExactly(cells: seq<bool>, near: seq<bool>, gw: nat, gh: nat, c: nat, d: nat)
    requires gw > 0 && |cells| == gw * gh && IsNear(gw, cells, near)
    requires c < |cells| && d < |cells| && cells[c] && cells[d]
    ensures Linked(near, gw, c, d) <==> Chained(cells, gw, c, d)
  {
    if Linked(near, gw, c, d) {
      var p: seq<nat> :| IsPath(near, gw, p) && p[0] == c && p[|p| - 1] == d;
      PathChains(cells, near, gw, p, d);
    }
    if Chained(cells, gw, c, d) {
      var p: seq<nat> :| IsChain(cells, gw, p) && p[0] == c && p[|p| - 1] == d;
      ChainLinks(cells, near, gw, gh, p);
    }
  }

  /** Every cluster has a drawn cell, so its box is one. */
  lemma ClusterHasDrawn(cells: seq<bool>, near: seq<bool>, gw: nat, gh: nat, c: nat)
    requires gw > 0 && |cells| == gw * gh && IsNear(gw, cells, near) && c < |near| && near[c]
    ensures exists d: nat :: d < |cells| && cells[d] && Linked(near, gw, c, d)
    ensures AnyDrawn(cells, Cluster(near, gw, c))
  {
    var d: nat :| d < |cells| && cells[d] && Close(gw, d, c, GAP);
    PlaceInGrid(gw, gh, c);
    PlaceInGrid(gw, gh, d);
    ReachLinked(cells, near, gw, gh, X(gw, d), Y(gw, d), X(gw, c), Y(gw, c));
    LinkedSym(near, gw, d, c);
    ClusterOf(near, gw, c, d);
  }

  // ---- Not here ----

  lemma {:induction false} JudgeNotHere(boxes: seq<Box>, cx: nat, cy: nat, gw: nat, gh: nat)
    ensures Judge(boxes, cx, cy, gw, gh) == NotHere <==> forall k | 0 <= k < |boxes| :: !Covers(boxes[k], cx, cy)
  {
    if boxes != [] {
      JudgeNotHere(boxes[1..], cx, cy, gw, gh);
      assert boxes == [boxes[0]] + boxes[1..];
    }
  }

  /** The cluster of a near cell has the box of its seed's. */
  lemma ClusterBox(cells: seq<bool>, near: seq<bool>, gw: nat, seeds: seq<nat>, boxes: seq<Box>, c: nat, b: Box)
    requires gw > 0 && Items(cells, near, gw, seeds, boxes)
    requires c < |near| && near[c] && TightBox(b, cells, gw, Cluster(near, gw, c))
    ensures b in boxes
  {
    assert SeedOf(near, gw, seeds, c);
    var k :| 0 <= k < |seeds| && Linked(near, gw, seeds[k], c);
    SameCluster(near, gw, seeds[k], c);
    TightUnique(b, boxes[k], cells, gw, Cluster(near, gw, c));
  }

  lemma SameCluster(near: seq<bool>, gw: nat, a: nat, b: nat)
    requires gw > 0 && Linked(near, gw, a, b)
    ensures Cluster(near, gw, a) == Cluster(near, gw, b)
  {
    LinkedSym(near, gw, a, b);
    forall c: nat
      ensures c in Cluster(near, gw, a) <==> c in Cluster(near, gw, b)
    {
      ClusterOf(near, gw, a, c);
      ClusterOf(near, gw, b, c);
      if Linked(near, gw, a, c) {
        LinkedTrans(near, gw, b, a, c);
      }
      if Linked(near, gw, b, c) {
        LinkedTrans(near, gw, a, b, c);
      }
    }
  }

  /** The least box around some cluster's drawn cells covers the point. */
  ghost predicate SomeClusterCovers(cells: seq<bool>, near: seq<bool>, gw: nat, cx: nat, cy: nat)
    requires gw > 0
  {
    exists c: nat, b: Box | c < |near| && near[c] && TightBox(b, cells, gw, Cluster(near, gw, c)) :: Covers(b, cx, cy)
  }

  /** Not here, exactly when the point is PAD away from the box of every cluster. */
  lemma NotHereExactly(s: Shots, px: int, py: int, cells: seq<bool>, near: seq<bool>, v: Verdict)
    requires IsVerdict(s, px, py, v) && Askable(s, px, py) && IsCells(s, cells) && IsNear(s.W(), cells, near)
    ensures v == NotHere <==> !SomeClusterCovers(cells, near, s.W(), px / CELL, py / CELL)
  {
    var gw, cx, cy := s.W(), px / CELL, py / CELL;
    var cells', near', seeds, boxes :| IsCells(s, cells') && IsNear(gw, cells', near')
      && Items(cells', near', gw, seeds, boxes)
      && v == Judge(boxes, cx, cy, gw, s.H());
    assert cells == cells';
    assert near == near';
    JudgeNotHere(boxes, cx, cy, gw, s.H());
    if SomeClusterCovers(cells, near, gw, cx, cy) {
      var c: nat, b: Box :| c < |near| && near[c] && TightBox(b, cells, gw, Cluster(near, gw, c)) && Covers(b, cx, cy);
      ClusterBox(cells, near, gw, seeds, boxes, c, b);
    }
    if k :| 0 <= k < |boxes| && Covers(boxes[k], cx, cy) {
      assert TightBox(boxes[k], cells, gw, Cluster(near, gw, seeds[k]));
    }
  }

  // ---- Each verdict, by the drawn cells ----

  predicate IsDrawn(cells: seq<bool>, d: nat) {
    d < |cells| && cells[d]
  }

  /** The drawn cells of c's cluster lie around the point's cell, or PAD or less from it, across and down: one of
      them no further right, one no further left, one no lower and one no higher. */
  ghost predicate Around(cells: seq<bool>, near: seq<bool>, gw: nat, c: nat, cx: nat, cy: nat)
    requires gw > 0
  {
    var cluster := Cluster(near, gw, c);
    && (exists d <- cluster :: IsDrawn(cells, d) && X(gw, d) <= cx + PAD)
    && (exists d <- cluster :: IsDrawn(cells, d) && cx <= X(gw, d) + PAD)
    && (exists d <- cluster :: IsDrawn(cells, d) && Y(gw, d) <= cy + PAD)
    && (exists d <- cluster :: IsDrawn(cells, d) && cy <= Y(gw, d) + PAD)
  }

  /** Drawn cells of c's cluster are at all four edges of a large grid, or one cell from them. */
  ghost predicate Fills(cells: seq<bool>, near: seq<bool>, gw: nat, gh: nat, c: nat)
    requires gw > 0
  {
    var cluster := Cluster(near, gw, c);
    && gw > 2 * GAP && gh > 2 * GAP
    && (exists d <- cluster :: IsDrawn(cells, d) && X(gw, d) <= 1)
    && (exists d <- cluster :: IsDrawn(cells, d) && gw <= X(gw, d) + 2)
    && (exists d <- cluster :: IsDrawn(cells, d) && Y(gw, d) <= 1)
    && (exists d <- cluster :: IsDrawn(cells, d) && gh <= Y(gw, d) + 2)
  }

  /** c is the first near cell whose cluster lies around the point. */
  ghost predicate Decides(cells: seq<bool>, near: seq<bool>, gw: nat, c: nat, cx: nat, cy: nat)
    requires gw > 0
  {
    && c < |near| && near[c] && Around(cells, near, gw, c, cx, cy)
    && forall d: nat | d < c && near[d] :: !Around(cells, near, gw, d, cx, cy)
  }

  lemma BoxReaches(b: Box, cells: seq<bool>, gw: nat, members: set<nat>, k: int) returns (d: nat)
    requires gw > 0 && TightBox(b, cells, gw, members) && AnyDrawn(cells, members) && 0 <= k < 4
    ensures d in members && IsDrawn(cells, d) && CellSide(gw, d, k) == BoxSide(b, k) && BoxHolds(b, gw, d)
  {
    assert SideReached(b, cells, gw, members, k);
    d :| d in members && d < |cells| && cells[d] && CellSide(gw, d, k) == BoxSide(b, k);
  }

  lemma CoversIsAround(cells: seq<bool>, near: seq<bool>, gw: nat, c: nat, b: Box, cx: nat, cy: nat)
    requires gw > 0 && |cells| < MAX && TightBox(b, cells, gw, Cluster(near, gw, c))
    ensures Covers(b, cx, cy) <==> Around(cells, near, gw, c, cx, cy)
  {
    var cluster := Cluster(near, gw, c);
    if AnyDrawn(cells, cluster) {
      BoxIsReal(b, cells, gw, cluster);
      var l := BoxReaches(b, cells, gw, cluster, 0);
      var t := BoxReaches(b, cells, gw, cluster, 1);
      var r := BoxReaches(b, cells, gw, cluster, 2);
      var d := BoxReaches(b, cells, gw, cluster, 3);
    }
  }

  lemma EverywhereFills(cells: seq<bool>, near: seq<bool>, gw: nat, gh: nat, c: nat, b: Box)
    requires gw > 0 && TightBox(b, cells, gw, Cluster(near, gw, c)) && AnyDrawn(cells, Cluster(near, gw, c))
    ensures Everywhere(b, gw, gh) <==> Fills(cells, near, gw, gh, c)
  {
    var cluster := Cluster(near, gw, c);
    var l := BoxReaches(b, cells, gw, cluster, 0);
    var t := BoxReaches(b, cells, gw, cluster, 1);
    var r := BoxReaches(b, cells, gw, cluster, 2);
    var d := BoxReaches(b, cells, gw, cluster, 3);
  }

  /** The first box that covers the point's cell judges. */
  lemma {:induction false} JudgeFirst(boxes: seq<Box>, cx: nat, cy: nat, gw: nat, gh: nat) returns (k: nat)
    requires Judge(boxes, cx, cy, gw, gh) != NotHere
    ensures k < |boxes| && Covers(boxes[k], cx, cy) && forall j | 0 <= j < k :: !Covers(boxes[j], cx, cy)
    ensures Judge(boxes, cx, cy, gw, gh) == if Everywhere(boxes[k], gw, gh) then Unknown else Here
  {
    if Covers(boxes[0], cx, cy) {
      k := 0;
    } else {
      k := JudgeFirst(boxes[1..], cx, cy, gw, gh);
      k := k + 1;
    }
  }

  /** The first cluster whose box covers the point's cell is the first that lies around it. */
  lemma FirstDecides(cells: seq<bool>, near: seq<bool>, gw: nat, seeds: seq<nat>, boxes: seq<Box>, k: nat, cx: nat,
                     cy: nat)
    requires gw > 0 && |cells| < MAX && Items(cells, near, gw, seeds, boxes)
    requires k < |boxes| && Covers(boxes[k], cx, cy) && forall j | 0 <= j < k :: !Covers(boxes[j], cx, cy)
    ensures Decides(cells, near, gw, seeds[k], cx, cy)
  {
    CoversIsAround(cells, near, gw, seeds[k], boxes[k], cx, cy);
    forall d: nat | d < seeds[k] && near[d]
      ensures !Around(cells, near, gw, d, cx, cy)
    {
      var j := ItemOf(cells, near, gw, seeds, boxes, d);
      CoversIsAround(cells, near, gw, d, boxes[j], cx, cy);
    }
  }

  /** A near cell's cluster is one of those in order, and its box is that one's; it begins no later than the cell. */
  lemma ItemOf(cells: seq<bool>, near: seq<bool>, gw: nat, seeds: seq<nat>, boxes: seq<Box>, d: nat) returns (j: nat)
    requires gw > 0 && Items(cells, near, gw, seeds, boxes) && d < |near| && near[d]
    ensures j < |boxes| == |seeds| && seeds[j] <= d && TightBox(boxes[j], cells, gw, Cluster(near, gw, d))
  {
    assert SeedOf(near, gw, seeds, d);
    j :| 0 <= j < |seeds| && Linked(near, gw, seeds[j], d);
    SameCluster(near, gw, seeds[j], d);
  }

  /** There is one that does. */
  lemma OneDecides(cells: seq<bool>, near: seq<bool>, gw: nat, a: nat, b: nat, cx: nat, cy: nat)
    requires gw > 0 && Decides(cells, near, gw, a, cx, cy) && Decides(cells, near, gw, b, cx, cy)
    ensures a == b
  {
  }

  /** The verdict, by the drawn cells alone: not here, when no cluster lies around the point; else the first that does
      decides: unknown when it fills the grid, here when not. */
  lemma VerdictExactly(s: Shots, px: int, py: int, cells: seq<bool>, near: seq<bool>, v: Verdict)
    requires |s.scr.px| < MAX
    requires IsVerdict(s, px, py, v) && Askable(s, px, py) && IsCells(s, cells) && IsNear(s.W(), cells, near)
    ensures v == NotHere <==> forall c: nat | c < |near| && near[c] ::
      !Around(cells, near, s.W(), c, px / CELL, py / CELL)
    ensures v == Unknown <==> exists c: nat ::
      Decides(cells, near, s.W(), c, px / CELL, py / CELL) && Fills(cells, near, s.W(), s.H(), c)
    ensures v == Here <==> exists c: nat ::
      Decides(cells, near, s.W(), c, px / CELL, py / CELL) && !Fills(cells, near, s.W(), s.H(), c)
  {
    var gw, cx, cy := s.W(), px / CELL, py / CELL;
    var cells', near', seeds, boxes :| IsCells(s, cells') && IsNear(gw, cells', near')
      && Items(cells', near', gw, seeds, boxes)
      && v == Judge(boxes, cx, cy, gw, s.H());
    assert cells == cells';
    assert near == near';
    CellsFit(s);
    if v != NotHere {
      var k := JudgeFirst(boxes, cx, cy, gw, s.H());
      FirstDecides(cells, near, gw, seeds, boxes, k, cx, cy);
      EverywhereFills(cells, near, gw, s.H(), seeds[k], boxes[k]);
      forall c: nat | Decides(cells, near, gw, c, cx, cy)
        ensures c == seeds[k]
      {
        OneDecides(cells, near, gw, c, seeds[k], cx, cy);
      }
    } else {
      JudgeNotHere(boxes, cx, cy, gw, s.H());
      NoneAround(cells, near, gw, seeds, boxes, cx, cy);
    }
  }

  lemma NoneAround(cells: seq<bool>, near: seq<bool>, gw: nat, seeds: seq<nat>, boxes: seq<Box>, cx: nat, cy: nat)
    requires gw > 0 && |cells| < MAX && Items(cells, near, gw, seeds, boxes)
    requires forall k | 0 <= k < |boxes| :: !Covers(boxes[k], cx, cy)
    ensures forall c: nat | c < |near| && near[c] :: !Around(cells, near, gw, c, cx, cy)
  {
    forall c: nat | c < |near| && near[c]
      ensures !Around(cells, near, gw, c, cx, cy)
    {
      var j := ItemOf(cells, near, gw, seeds, boxes, c);
      CoversIsAround(cells, near, gw, c, boxes[j], cx, cy);
    }
  }

  // ---- Leaving more out ----

  ghost predicate Fewer(a: seq<bool>, b: seq<bool>) {
    |a| == |b| && forall c | 0 <= c < |a| && a[c] :: b[c]
  }

  lemma LinkedMore(near: seq<bool>, more: seq<bool>, gw: nat, a: nat, b: nat)
    requires gw > 0 && Fewer(near, more) && Linked(near, gw, a, b)
    ensures Linked(more, gw, a, b)
  {
    var p: seq<nat> :| IsPath(near, gw, p) && p[0] == a && p[|p| - 1] == b;
    assert IsPath(more, gw, p);
  }

  /** With fewer cells drawn, a cluster's box lies in the box of the cluster it was part of. */
  lemma BoxShrinks(cells: seq<bool>, near: seq<bool>, more: seq<bool>, nearMore: seq<bool>, gw: nat, c: nat, b: Box,
                   b': Box)
    requires gw > 0 && Fewer(cells, more) && Fewer(near, nearMore)
    requires TightBox(b, cells, gw, Cluster(near, gw, c)) && TightBox(b', more, gw, Cluster(nearMore, gw, c))
    requires AnyDrawn(cells, Cluster(near, gw, c))
    ensures b'.x0 <= b.x0 && b'.y0 <= b.y0 && b.x1 <= b'.x1 && b.y1 <= b'.y1
  {
    forall k | 0 <= k < 4
      ensures exists d: nat :: BoxHolds(b', gw, d) && CellSide(gw, d, k) == BoxSide(b, k)
    {
      assert SideReached(b, cells, gw, Cluster(near, gw, c), k);
      var d :| d in Cluster(near, gw, c) && d < |cells| && cells[d] && CellSide(gw, d, k) == BoxSide(b, k);
      ClusterOf(near, gw, c, d);
      LinkedMore(near, nearMore, gw, c, d);
      ClusterOf(nearMore, gw, c, d);
      assert BoxHolds(b', gw, d);
    }
    assert BoxSide(b, 0) == b.x0 && BoxSide(b, 1) == b.y0 && BoxSide(b, 2) == b.x1 && BoxSide(b, 3) == b.y1;
  }

  lemma IgnoredMore(s: Shots, s': Shots, x: nat, y: nat)
    requires s.Ignored(x, y) && forall r <- s.ignore :: r in s'.ignore
    ensures s'.Ignored(x, y)
  {
    var i :| 0 <= i < |s.ignore| && s.ignore[i].Holds(x, y);
    assert s.ignore[i] in s.ignore;
    var j :| 0 <= j < |s'.ignore| && s'.ignore[j] == s.ignore[i];
  }

  lemma CellsLess(s: Shots, s': Shots, cells: seq<bool>, near: seq<bool>, cells': seq<bool>, near': seq<bool>)
    requires s.Matching() && s.scr.w > 0 && s' == s.(ignore := s'.ignore)
    requires forall r <- s.ignore :: r in s'.ignore
    requires IsCells(s, cells) && IsNear(s.W(), cells, near) && IsCells(s', cells') && IsNear(s.W(), cells', near')
    ensures Fewer(cells', cells) && Fewer(near', near)
  {
    forall x: nat, y: nat | s.Ignored(x, y)
      ensures s'.Ignored(x, y)
    {
      IgnoredMore(s, s', x, y);
    }
    forall c | 0 <= c < |cells| && cells'[c]
      ensures cells[c]
    {
      var x: nat, y: nat :| x < s.scr.w && y < s.scr.h && x / CELL == X(s.W(), c) && y / CELL == Y(s.W(), c)
        && s'.Differs(x, y);
      assert s.Differs(x, y);
    }
  }

  lemma BoxIsReal(b: Box, cells: seq<bool>, gw: nat, members: set<nat>)
    requires gw > 0 && TightBox(b, cells, gw, members) && AnyDrawn(cells, members) && |cells| < MAX
    ensures b.x0 != MAX
  {
    assert SideReached(b, cells, gw, members, 0);
    var c :| c in members && c < |cells| && cells[c] && CellSide(gw, c, 0) == BoxSide(b, 0);
    PlaceSmall(gw, c);
  }

  /** Where a cluster of fewer drawn cells covers a point, so does the cluster it was part of. */
  lemma CoversMore(cells: seq<bool>, near: seq<bool>, more: seq<bool>, nearMore: seq<bool>, gw: nat, gh: nat,
                   seeds: seq<nat>, boxes: seq<Box>, cx: nat, cy: nat)
    requires gw > 0 && |cells| == gw * gh < MAX && Fewer(cells, more) && Fewer(near, nearMore)
    requires IsNear(gw, cells, near) && IsNear(gw, more, nearMore) && Items(more, nearMore, gw, seeds, boxes)
    requires SomeClusterCovers(cells, near, gw, cx, cy)
    ensures SomeClusterCovers(more, nearMore, gw, cx, cy)
  {
    var c: nat, b: Box :| c < |near| && near[c] && TightBox(b, cells, gw, Cluster(near, gw, c)) && Covers(b, cx, cy);
    ClusterHasDrawn(cells, near, gw, gh, c);
    ClusterHasDrawn(more, nearMore, gw, gh, c);
    assert SeedOf(nearMore, gw, seeds, c);
    var k :| 0 <= k < |seeds| && Linked(nearMore, gw, seeds[k], c);
    SameCluster(nearMore, gw, seeds[k], c);
    BoxShrinks(cells, near, more, nearMore, gw, c, b, boxes[k]);
    BoxIsReal(boxes[k], more, gw, Cluster(nearMore, gw, c));
    assert Covers(boxes[k], cx, cy);
  }

  /** A point nothing is drawn at stays one when more of the screen is left out. */
  lemma NotHereStays(s: Shots, s': Shots, px: int, py: int, v: Verdict, v': Verdict)
    requires |s.scr.px| < MAX
    requires s' == s.(ignore := s'.ignore) && forall r <- s.ignore :: r in s'.ignore
    requires IsVerdict(s, px, py, v) && IsVerdict(s', px, py, v')
    requires v == NotHere
    ensures v' == NotHere
  {
    var gw, cx, cy := s.W(), px / CELL, py / CELL;
    var cells, near, seeds, boxes :| IsCells(s, cells) && IsNear(gw, cells, near)
      && Items(cells, near, gw, seeds, boxes)
      && v == Judge(boxes, cx, cy, gw, s.H());
    var cells', near', seeds', boxes' :| IsCells(s', cells') && IsNear(gw, cells', near')
      && Items(cells', near', gw, seeds', boxes')
      && v' == Judge(boxes', cx, cy, gw, s.H());
    CellsFit(s);
    CellsLess(s, s', cells, near, cells', near');
    NotHereExactly(s, px, py, cells, near, v);
    NotHereExactly(s', px, py, cells', near', v');
    if SomeClusterCovers(cells', near', gw, cx, cy) {
      CoversMore(cells', near', cells, near, gw, s.H(), seeds, boxes, cx, cy);
    }
  }
}
