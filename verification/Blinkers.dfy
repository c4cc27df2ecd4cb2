/** Which changes of the screen count: carets that blink in place and spots that come back to earlier
    looks do not (tools/still/still.c: grow, is_caret, spot_set, blinks, compare). */
module Blinkers {
  import opened Options
  import opened Scales

  const THIN := 4
  const CARET_LONG := 40
  const CARETS := 4
  const BLINK_SIDE := 48
  const BLINK_LOOKS := 16
  const BLINK_RETURNS := 3
  const SPOTS := 8

  // ---- Boxes around pixels ----

  datatype Pixel = Pixel(x: int, y: int)

  predicate Has(r: Rect, q: Pixel) {
    r.x <= q.x < r.x + r.w && r.y <= q.y < r.y + r.h
  }

  /** The box grown to hold a pixel. */
  function Grow(b: Option<Rect>, q: Pixel): Option<Rect> {
    if b.None? then Some(Rect(q.x, q.y, 1, 1))
    else
      var r := b.value;
      var (x, w) :=
        if q.x < r.x then (q.x, r.w + r.x - q.x) else (r.x, if q.x >= r.x + r.w then q.x - r.x + 1 else r.w);
      var (y, h) :=
        if q.y < r.y then (q.y, r.h + r.y - q.y) else (r.y, if q.y >= r.y + r.h then q.y - r.y + 1 else r.h);
      Some(Rect(x, y, w, h))
  }

  /** The box around the pixels. */
  function Bound(qs: seq<Pixel>): Option<Rect> {
    if qs == [] then None else Grow(Bound(qs[..|qs| - 1]), qs[|qs| - 1])
  }

  /** A box holds the pixels, and each of its sides has one. */
  ghost predicate Tight(r: Rect, qs: seq<Pixel>) {
    && (forall i | 0 <= i < |qs| :: Has(r, qs[i]))
    && (exists i | 0 <= i < |qs| :: qs[i].x == r.x) && (exists i | 0 <= i < |qs| :: qs[i].x == r.x + r.w - 1)
    && (exists i | 0 <= i < |qs| :: qs[i].y == r.y) && (exists i | 0 <= i < |qs| :: qs[i].y == r.y + r.h - 1)
  }

  lemma {:induction false} BoundIsTight(qs: seq<Pixel>)
    ensures Bound(qs).None? <==> qs == []
    ensures Bound(qs).Some? ==> Tight(Bound(qs).value, qs)
  {
    if qs != [] {
      var n := |qs| - 1;
      BoundIsTight(qs[..n]);
      assert qs[n] == qs[|qs| - 1];
      if n > 0 {
        TightOn(Bound(qs[..n]).value, qs, n);
      }
    }
  }

  lemma TightOn(r: Rect, qs: seq<Pixel>, n: nat)
    requires n == |qs| - 1 && Tight(r, qs[..n])
    ensures Tight(Grow(Some(r), qs[n]).value, qs)
  {
    var init, q := qs[..n], qs[n];
    var g := Grow(Some(r), q).value;
    var l: nat :| l < n && init[l].x == r.x;
    var k: nat :| k < n && init[k].x == r.x + r.w - 1;
    var t: nat :| t < n && init[t].y == r.y;
    var b: nat :| b < n && init[b].y == r.y + r.h - 1;
    assert qs[l] == init[l] && qs[k] == init[k] && qs[t] == init[t] && qs[b] == init[b];
    assert qs[if q.x < r.x then n else l].x == g.x && qs[if q.x >= r.x + r.w then n else k].x == g.x + g.w - 1;
    assert qs[if q.y < r.y then n else t].y == g.y && qs[if q.y >= r.y + r.h then n else b].y == g.y + g.h - 1;
    forall i | 0 <= i < |qs|
      ensures Has(g, qs[i])
    {
      assert i < n ==> Has(r, init[i]);
    }
  }

  // ---- Carets ----

  datatype Carets = Carets(boxes: seq<Rect>, next: nat)

  predicate CaretsOk(c: Carets) {
    |c.boxes| <= CARETS && c.next < CARETS && (|c.boxes| < CARETS ==> c.next == |c.boxes|)
  }

  predicate CaretShaped(s: Rect) {
    (s.w <= THIN && s.h <= CARET_LONG) || (s.h <= THIN && s.w <= CARET_LONG)
  }

  predicate Nested(a: Rect, b: Rect) {
    Inside(a, b) || Inside(b, a)
  }

  /** The first caret that holds s or that s holds. */
  function CaretAt(boxes: seq<Rect>, s: Rect): (i: Option<nat>)
    ensures i.Some? ==> i.value < |boxes| && Nested(s, boxes[i.value])
    ensures i.None? ==> forall j | 0 <= j < |boxes| :: !Nested(s, boxes[j])
  {
    if boxes == [] then None
    else
      var before := CaretAt(boxes[..|boxes| - 1], s);
      if before.Some? then before else if Nested(s, boxes[|boxes| - 1]) then Some(|boxes| - 1) else None
  }

  /** Whether a change is a caret's, and the carets remembered after it. */
  function CaretStep(c: Carets, s: Rect): (r: (bool, Carets))
    requires CaretsOk(c)
    ensures CaretsOk(r.1)
  {
    if !CaretShaped(s) then (false, Carets([], 0))
    else
      var i := CaretAt(c.boxes, s);
      if i.Some? then (true, if Inside(s, c.boxes[i.value]) then c else c.(boxes := c.boxes[i.value := s]))
      else (c.boxes == [],
        Carets(if |c.boxes| < CARETS then c.boxes + [s] else c.boxes[c.next := s], (c.next + 1) % CARETS))
  }

  /** A caret holds this box. */
  ghost predicate Held(c: Carets, b: Rect) {
    exists i | 0 <= i < |c.boxes| :: Inside(b, c.boxes[i])
  }

  /** A change inside a box that a caret holds is a caret's, and the box stays held. */
  lemma CaretStays(c: Carets, b: Rect, s: Rect)
    requires CaretsOk(c) && Held(c, b) && CaretShaped(s) && Inside(s, b)
    ensures CaretStep(c, s).0 && Held(CaretStep(c, s).1, b)
  {
    var k :| 0 <= k < |c.boxes| && Inside(b, c.boxes[k]);
    assert Nested(s, c.boxes[k]);
    var c' := CaretStep(c, s).1;
    assert Inside(b, c'.boxes[k]);
  }

  /** The first caret-shaped change since one of another shape is a caret's, and held. */
  lemma CaretComes(c: Carets, s: Rect)
    requires CaretsOk(c) && CaretShaped(s) && (c.boxes == [] || Held(c, s))
    ensures CaretStep(c, s).0 && Held(CaretStep(c, s).1, s)
  {
    if c.boxes == [] {
      assert CaretStep(c, s).1.boxes[0] == s;
    } else {
      CaretStays(c, s, s);
    }
  }

  // ---- Spots ----

  /** What a place looks like in a frame. */
  type Look = int

  /** A frame, as the looks of its places. */
  type Frame = Rect -> Look

  /** A place that changed a little: its last looks, and how often it came back to one. */
  datatype Spot = Spot(r: Rect, pr: Rect, looks: seq<Look>, next: nat, returned: nat)

  predicate SpotOk(sp: Spot) {
    |sp.looks| <= BLINK_LOOKS && sp.next < BLINK_LOOKS && (|sp.looks| < BLINK_LOOKS ==> sp.next == |sp.looks|)
  }

  function Remember(sp: Spot, h: Look): (r: Spot)
    requires SpotOk(sp)
    ensures SpotOk(r)
  {
    sp.(looks := if |sp.looks| < BLINK_LOOKS then sp.looks + [h] else sp.looks[sp.next := h],
        next := (sp.next + 1) % BLINK_LOOKS)
  }

  predicate IsBlinker(x: Option<Spot>) {
    x.Some? && x.value.returned >= BLINK_RETURNS
  }

  predicate SpotsOk(spots: seq<Option<Spot>>) {
    |spots| == SPOTS && forall i | 0 <= i < SPOTS :: spots[i].Some? ==> SpotOk(spots[i].value)
  }

  /** The ring holds the last looks remembered: all of them, or the last sixteen, oldest at next. */
  ghost predicate Ring(sp: Spot, history: seq<Look>) {
    && SpotOk(sp)
    && if |history| < BLINK_LOOKS then sp.looks == history
       else |sp.looks| == BLINK_LOOKS && sp.looks[sp.next..] + sp.looks[..sp.next] == Last(history)
  }

  function Last(history: seq<Look>): seq<Look> {
    if |history| <= BLINK_LOOKS then history else history[|history| - BLINK_LOOKS..]
  }

  lemma RingKnows(sp: Spot, history: seq<Look>, h: Look)
    requires Ring(sp, history)
    ensures h in sp.looks <==> h in Last(history)
  {
    assert sp.looks == sp.looks[..sp.next] + sp.looks[sp.next..];
  }

  lemma LastOn(history: seq<Look>, h: Look)
    requires |history| >= BLINK_LOOKS
    ensures Last(history + [h]) == Last(history)[1..] + [h]
  {
  }

  /** A full ring turned by one: the oldest makes room for the newest. */
  lemma Turned(looks: seq<Look>, n: nat, h: Look)
    requires |looks| == BLINK_LOOKS && n < BLINK_LOOKS
    ensures var looks' := looks[n := h]; var m := (n + 1) % BLINK_LOOKS;
      looks'[m..] + looks'[..m] == (looks[n..] + looks[..n])[1..] + [h]
  {
    if n + 1 < BLINK_LOOKS {
      TurnedOn(looks, n, h);
    } else {
      TurnedRound(looks, h);
    }
  }

  lemma TurnedOn(looks: seq<Look>, n: nat, h: Look)
    requires n + 1 < |looks|
    ensures looks[n := h][n + 1..] + looks[n := h][..n + 1] == (looks[n..] + looks[..n])[1..] + [h]
  {
    var a, b := looks[..n], looks[n + 1..];
    assert looks[n..] == [looks[n]] + b;
    OldestOut(looks[n], b, a);
    Split(looks, n, h);
    Halves(a + [h], b);
    assert b + (a + [h]) == b + a + [h];
  }

  lemma TurnedRound(looks: seq<Look>, h: Look)
    requires looks != []
    ensures var n := |looks| - 1;
      looks[n := h][0..] + looks[n := h][..0] == (looks[n..] + looks[..n])[1..] + [h]
  {
    var n := |looks| - 1;
    var a := looks[..n];
    OldestOut(looks[n], [], a);
    assert looks[n..] == [looks[n]] + [] && [] + a == a;
    assert looks[n := h] == a + [h];
  }

  lemma Split(looks: seq<Look>, n: nat, h: Look)
    requires n < |looks|
    ensures looks[n := h] == looks[..n] + [h] + looks[n + 1..]
  {
  }

  lemma OldestOut(x: Look, b: seq<Look>, a: seq<Look>)
    ensures ([x] + b + a)[1..] == b + a
  {
  }

  lemma Halves(a: seq<Look>, b: seq<Look>)
    ensures (a + b)[|a|..] == b && (a + b)[..|a|] == a && (a + b)[0..] == a + b
  {
  }

  lemma RingOn(sp: Spot, history: seq<Look>, h: Look)
    requires Ring(sp, history)
    ensures Ring(Remember(sp, h), history + [h])
  {
    if |history| >= BLINK_LOOKS {
      Turned(sp.looks, sp.next, h);
      LastOn(history, h);
    } else if |history| == BLINK_LOOKS - 1 {
      var sp' := Remember(sp, h);
      assert sp'.looks[0..] + sp'.looks[..0] == history + [h];
    }
  }

  // ---- Blinkers ----

  /** What an output remembers of its changes. */
  datatype Eye = Eye(carets: Carets, spots: seq<Option<Spot>>, next: nat)

  predicate EyeOk(e: Eye) {
    CaretsOk(e.carets) && SpotsOk(e.spots) && e.next < SPOTS
  }

  /** A place afresh: its look before the change and after. */
  function SpotSet(o: Screen, s: Rect, before: Frame, after: Frame): (sp: Spot)
    ensures SpotOk(sp)
  {
    var pr := ToPixels(o, s);
    var sp := Remember(Spot(s, pr, [], 0, 0), before(pr));
    if after(pr) in sp.looks then sp else Remember(sp, after(pr))
  }

  /** A place, no blinker yet, that s is in or that is in s. */
  predicate Takes(x: Option<Spot>, s: Rect) {
    x.Some? && !IsBlinker(x) && Nested(s, x.value.r)
  }

  /** The first of those. */
  function SpotAt(spots: seq<Option<Spot>>, s: Rect): (i: Option<nat>)
    ensures i.Some? ==> i.value < |spots| && spots[i.value].Some?
  {
    if spots == [] then None
    else
      var before, x := SpotAt(spots[..|spots| - 1], s), spots[|spots| - 1];
      if before.Some? then before
      else if Takes(x, s) then Some(|spots| - 1) else None
  }

  function FirstFree(spots: seq<Option<Spot>>): (i: Option<nat>)
    ensures i.Some? ==> i.value < |spots|
  {
    if spots == [] then None
    else
      var before := FirstFree(spots[..|spots| - 1]);
      if before.Some? then before else if spots[|spots| - 1].None? then Some(|spots| - 1) else None
  }

  /** The next place from k on that is no blinker, of n; else k. */
  function NextNone(spots: seq<Option<Spot>>, k: nat, n: nat): (i: nat)
    requires |spots| == SPOTS && k < SPOTS && n <= SPOTS
    ensures i < SPOTS
    decreases n
  {
    if n == 0 then k
    else
      var at := (k + SPOTS - n) % SPOTS;
      if !IsBlinker(spots[at]) then at else NextNone(spots, k, n - 1)
  }

  /** Where a new place goes: a free spot, else the next that is no blinker, else the next. */
  function NewSpot(spots: seq<Option<Spot>>, next: nat): (i: nat)
    requires |spots| == SPOTS && next < SPOTS
    ensures i < SPOTS
  {
    var free := FirstFree(spots);
    if free.Some? then free.value else NextNone(spots, next, SPOTS)
  }

  lemma {:induction false} FirstFreeIs(spots: seq<Option<Spot>>)
    ensures var f := FirstFree(spots);
      if f.None? then forall i | 0 <= i < |spots| :: spots[i].Some?
      else spots[f.value].None? && forall i | 0 <= i < f.value :: spots[i].Some?
  {
    if spots != [] {
      FirstFreeIs(spots[..|spots| - 1]);
    }
  }

  /** The spot j on from k, round the eight. */
  function Onward(k: nat, j: nat): (i: nat)
    ensures i < SPOTS
  {
    (k + j) % SPOTS
  }

  lemma {:induction false} NextNoneIs(spots: seq<Option<Spot>>, k: nat, n: nat) returns (m: nat)
    requires |spots| == SPOTS && k < SPOTS && n <= SPOTS
    ensures SPOTS - n <= m <= SPOTS && NextNone(spots, k, n) == Onward(k, m)
    ensures m < SPOTS ==> !IsBlinker(spots[Onward(k, m)])
    ensures forall j: nat | SPOTS - n <= j < m :: IsBlinker(spots[Onward(k, j)])
    decreases n
  {
    if n == 0 {
      m := SPOTS;
    } else if !IsBlinker(spots[Onward(k, SPOTS - n)]) {
      m := SPOTS - n;
    } else {
      m := NextNoneIs(spots, k, n - 1);
    }
  }

  /** A new place goes into the first spot that is free. */
  lemma FreeSpotIs(spots: seq<Option<Spot>>, next: nat)
    requires |spots| == SPOTS && next < SPOTS && exists i | 0 <= i < SPOTS :: spots[i].None?
    ensures var k := NewSpot(spots, next); spots[k].None? && forall i | 0 <= i < k :: spots[i].Some?
  {
    FirstFreeIs(spots);
  }

  /** With none free it goes into the next that is no blinker, from the one after the last taken on and round; among
      blinkers only, into that one itself. */
  lemma NewSpotIs(spots: seq<Option<Spot>>, next: nat) returns (m: nat)
    requires |spots| == SPOTS && next < SPOTS && forall i | 0 <= i < SPOTS :: spots[i].Some?
    ensures m <= SPOTS && NewSpot(spots, next) == Onward(next, m)
    ensures m < SPOTS ==> !IsBlinker(spots[NewSpot(spots, next)])
    ensures forall j: nat | j < m :: IsBlinker(spots[Onward(next, j)])
  {
    FirstFreeIs(spots);
    m := NextNoneIs(spots, next, SPOTS);
  }

  /** Whether a change that is no caret's is a blinker's, and what is remembered after it. */
  function BlinkStep(o: Screen, e: Eye, s: Rect, before: Frame, after: Frame): (r: (bool, Eye))
    requires EyeOk(e)
    ensures EyeOk(r.1)
  {
    if s.w > BLINK_SIDE || s.h > BLINK_SIDE then (false, e)
    else
      var i := SpotAt(e.spots, s);
      if i.None? then
        var k := NewSpot(e.spots, e.next);
        (false, e.(spots := e.spots[k := Some(SpotSet(o, s, before, after))], next := (k + 1) % SPOTS))
      else
        var sp := e.spots[i.value].value;
        if !Inside(s, sp.r) then (false, e.(spots := e.spots[i.value := Some(SpotSet(o, s, before, after))]))
        else if after(sp.pr) !in sp.looks
          then (false, e.(spots := e.spots[i.value := Some(Remember(sp, after(sp.pr)))]))
        else
          (sp.returned + 1 >= BLINK_RETURNS, e.(spots := e.spots[i.value := Some(sp.(returned := sp.returned + 1))]))
  }

  // ---- Comparing two frames ----

  predicate Covers(x: Option<Spot>, q: Pixel) {
    IsBlinker(x) && Has(x.value.pr, q)
  }

  /** The first blinker a pixel is in. */
  function InBlinker(spots: seq<Option<Spot>>, q: Pixel): (i: Option<nat>)
    ensures i.Some? ==> i.value < |spots| && spots[i.value].Some?
  {
    if spots == [] then None
    else
      var before, x := InBlinker(spots[..|spots| - 1], q), spots[|spots| - 1];
      if before.Some? then before else if Covers(x, q) then Some(|spots| - 1) else None
  }

  /** The blinkers the pixels are in. */
  function Tags(spots: seq<Option<Spot>>, qs: seq<Pixel>): (t: seq<Option<nat>>)
    ensures |t| == |qs| && forall i | 0 <= i < |qs| :: t[i] == InBlinker(spots, qs[i])
  {
    seq(|qs|, i requires 0 <= i < |qs| => InBlinker(spots, qs[i]))
  }

  /** Those of the pixels with this tag. */
  function Tagged(qs: seq<Pixel>, tags: seq<Option<nat>>, j: Option<nat>): seq<Pixel>
    requires |tags| == |qs|
  {
    if qs == [] then []
    else
      var n := |qs| - 1;
      Tagged(qs[..n], tags[..n], j) + if tags[n] == j then [qs[n]] else []
  }

  /** Those of the pixels that are in blinker j, or in none. */
  function Those(spots: seq<Option<Spot>>, qs: seq<Pixel>, j: Option<nat>): seq<Pixel> {
    Tagged(qs, Tags(spots, qs), j)
  }

  /** A blinker that changed to a look it never had is forgotten, and its change counts with the rest. */
  function Woken(spots: seq<Option<Spot>>, qs: seq<Pixel>, rest: Option<Rect>, after: Frame, n: nat)
    : (r: (Option<Rect>, seq<Option<Spot>>))
    requires SpotsOk(spots) && n <= SPOTS
    ensures SpotsOk(r.1)
  {
    if n == 0 then (rest, spots)
    else
      var (s, left) := Woken(spots, qs, rest, after, n - 1);
      var b := Bound(Those(spots, qs, Some(n - 1)));
      if b.None? || spots[n - 1].None? || after(spots[n - 1].value.pr) in spots[n - 1].value.looks then (s, left)
      else
        var r := b.value;
        (Grow(Grow(s, Pixel(r.x, r.y)), Pixel(r.x + r.w - 1, r.y + r.h - 1)), left[n - 1 := None])
  }

  /** Whether a changed box that is no known blinker's counts: not a caret's, nor that of a spot that is a
      blinker by now. */
  function Judged(o: Screen, e: Eye, b: Rect, before: Frame, after: Frame): (r: (bool, Eye))
    requires EyeOk(e)
    ensures EyeOk(r.1)
  {
    var s := ToLayout(o, b);
    var (caret, carets) := CaretStep(e.carets, s);
    if caret then (false, e.(carets := carets))
    else
      var (blinks, e') := BlinkStep(o, e.(carets := carets), s, before, after);
      (!blinks, e')
  }

  /** Whether the pixels that changed between two frames are a significant change, and what is remembered
      after it. */
  function Compared(o: Screen, strict: bool, e: Eye, qs: seq<Pixel>, before: Frame, after: Frame): (r: (bool, Eye))
    requires EyeOk(e)
    ensures EyeOk(r.1)
  {
    if strict then (qs != [], e)
    else
      var (b, left) := Woken(e.spots, qs, Bound(Those(e.spots, qs, None)), after, SPOTS);
      if b.None? then (false, e.(spots := left)) else Judged(o, e.(spots := left), b.value, before, after)
  }

  // ---- Rectangles left out, and an output's first frame ----

  /** A rectangle of pixels left out: the cursor's, or one masked. */
  datatype Ignored = Ignored(r: Rect, masked: bool)

  /** The first of them that a pixel is in. */
  function FirstIgnore(ignores: seq<Ignored>, q: Pixel): (i: Option<nat>)
    ensures i.Some? ==> i.value < |ignores| && Has(ignores[i.value].r, q)
    ensures i.None? ==> forall k | 0 <= k < |ignores| :: !Has(ignores[k].r, q)
  {
    if ignores == [] then None
    else
      var n := |ignores| - 1;
      var before := FirstIgnore(ignores[..n], q);
      if before.Some? then before else if Has(ignores[n].r, q) then Some(n) else None
  }

  /** Strictly, only a masked one leaves a pixel out, when it is the first the pixel is in. */
  predicate LeftOut(ignores: seq<Ignored>, strict: bool, q: Pixel) {
    var i := FirstIgnore(ignores, q);
    i.Some? && (strict ==> ignores[i.value].masked)
  }

  function Shown(ignores: seq<Ignored>, strict: bool, qs: seq<Pixel>): (r: seq<Pixel>)
    ensures forall q :: q in r <==> q in qs && !LeftOut(ignores, strict, q)
  {
    if qs == [] then []
    else
      var n := |qs| - 1;
      var before := Shown(ignores, strict, qs[..n]);
      if LeftOut(ignores, strict, qs[n]) then before else before + [qs[n]]
  }

  /** An output's frame: its first, or the first where it is now, counts when it is in the region watched, and
      what was remembered is forgotten; any other, as what changed that is not left out. */
  function Taken(o: Screen, strict: bool, first: bool, watched: bool, ignores: seq<Ignored>, e: Eye, qs: seq<Pixel>,
                 before: Frame, after: Frame)
    : (r: (bool, Eye))
    requires EyeOk(e)
    ensures EyeOk(r.1)
  {
    if first then (watched, Nothing())
    else Compared(o, strict, e, Shown(ignores, strict, qs), before, after)
  }

  /** Nothing remembered. */
  function Nothing(): (e: Eye)
    ensures EyeOk(e) && Blank(e) && e.carets.boxes == []
  {
    Eye(Carets([], 0), seq(SPOTS, _ => None), 0)
  }

  lemma {:induction false} ShownNone(ignores: seq<Ignored>, strict: bool, qs: seq<Pixel>)
    requires forall i | 0 <= i < |qs| :: LeftOut(ignores, strict, qs[i])
    ensures Shown(ignores, strict, qs) == []
  {
    if qs != [] {
      ShownNone(ignores, strict, qs[..|qs| - 1]);
    }
  }

  /** What lies wholly in rectangles left out never counts, and nothing is remembered of it. */
  lemma LeftOutNever(o: Screen, strict: bool, ignores: seq<Ignored>, e: Eye, qs: seq<Pixel>, before: Frame,
                     after: Frame)
    requires EyeOk(e) && forall i | 0 <= i < |qs| :: LeftOut(ignores, strict, qs[i])
    ensures Taken(o, strict, false, true, ignores, e, qs, before, after) == (false, e)
  {
    ShownNone(ignores, strict, qs);
    forall j: Option<nat>
      ensures Those(e.spots, [], j) == []
    {
    }
    NoneWoken(e.spots, [], None, after, SPOTS);
  }

  // ---- One place that changes ----

  /** What is known of a place: nothing yet, or the looks remembered of it since it was learnt, and how often
      it came back to one of the last. */
  datatype Place = New | Learnt(history: seq<Look>, returned: nat)

  function Afresh(was: Look, now: Look): Place {
    Learnt(if now == was then [was] else [was, now], 0)
  }

  /** Whether the place's change to a look counts. */
  predicate Counts(p: Place, now: Look) {
    p.New? || now !in Last(p.history) || p.returned + 1 < BLINK_RETURNS
  }

  function Next(p: Place, was: Look, now: Look): Place {
    if p.New? then Afresh(was, now)
    else if now in Last(p.history) then (if p.returned >= BLINK_RETURNS then p else p.(returned := p.returned + 1))
    else if p.returned >= BLINK_RETURNS then Afresh(was, now)
    else p.(history := p.history + [now])
  }

  /** A box of an output's pixels that is a place: no caret's shape, and small. */
  predicate IsPlace(o: Screen, b: Rect) {
    var r := ToLayout(o, b);
    && 0 <= b.x && 0 < b.w && b.x + b.w <= o.width && 0 <= b.y && 0 < b.h && b.y + b.h <= o.height
    && !CaretShaped(r) && r.w <= BLINK_SIDE && r.h <= BLINK_SIDE
  }

  predicate Meets(a: Rect, b: Rect) {
    a.x < b.x + b.w && b.x < a.x + a.w && a.y < b.y + b.h && b.y < a.y + a.h
  }

  /** Another place of an output, which a change of pixels b, box s in the layout, is not taken for: a blinker
      elsewhere, or a place neither in s nor around it. */
  predicate Apart(x: Option<Spot>, s: Rect, b: Rect) {
    x.Some? ==> if IsBlinker(x) then !Meets(b, x.value.pr) else !Nested(s, x.value.r)
  }

  /** The output remembers this place, in one of its spots, and others apart from it. */
  ghost predicate KnowsAt(o: Screen, e: Eye, b: Rect, p: Place, at: nat) {
    && EyeOk(e) && at < SPOTS
    && (forall i | 0 <= i < SPOTS && (p.New? || i != at) :: Apart(e.spots[i], ToLayout(o, b), b))
    && (p.Learnt? ==> e.spots[at].Some? && Learns(o, e.spots[at].value, b, p))
  }

  ghost predicate Knows(o: Screen, e: Eye, b: Rect, p: Place) {
    exists at :: KnowsAt(o, e, b, p, at)
  }

  ghost predicate Learns(o: Screen, sp: Spot, b: Rect, p: Place)
    requires p.Learnt?
  {
    sp.r == ToLayout(o, b) && sp.pr == ToPixels(o, sp.r) && sp.returned == p.returned && Ring(sp, p.history)
  }

  lemma SpotSetLearns(o: Screen, b: Rect, before: Frame, after: Frame)
    ensures var pr := ToPixels(o, ToLayout(o, b));
      Learns(o, SpotSet(o, ToLayout(o, b), before, after), b, Afresh(before(pr), after(pr)))
  {
    var pr := ToPixels(o, ToLayout(o, b));
    var sp := Spot(ToLayout(o, b), pr, [], 0, 0);
    RingOn(sp, [], before(pr));
    assert [] + [before(pr)] == [before(pr)];
    RingOn(Remember(sp, before(pr)), [before(pr)], after(pr));
    assert [before(pr)] + [after(pr)] == [before(pr), after(pr)];
  }

  /** With no other spot that takes it, what the searches find. */
  lemma {:induction false} SpotAtIs(spots: seq<Option<Spot>>, s: Rect, at: nat)
    requires forall i | 0 <= i < |spots| && i != at :: !Takes(spots[i], s)
    ensures SpotAt(spots, s) == if at < |spots| && Takes(spots[at], s) then Some(at) else None
  {
    if spots != [] {
      SpotAtIs(spots[..|spots| - 1], s, at);
    }
  }

  lemma {:induction false} InBlinkerIs(spots: seq<Option<Spot>>, q: Pixel, at: nat)
    requires forall i | 0 <= i < |spots| && i != at :: !Covers(spots[i], q)
    ensures InBlinker(spots, q) == if at < |spots| && Covers(spots[at], q) then Some(at) else None
  {
    if spots != [] {
      InBlinkerIs(spots[..|spots| - 1], q, at);
    }
  }

  lemma {:induction false} AllTagged(qs: seq<Pixel>, tags: seq<Option<nat>>, j: Option<nat>)
    requires |tags| == |qs| && forall i | 0 <= i < |qs| :: tags[i] == j
    ensures Tagged(qs, tags, j) == qs
  {
    if qs != [] {
      var n := |qs| - 1;
      AllTagged(qs[..n], tags[..n], j);
      assert qs == qs[..n] + [qs[n]];
    }
  }

  lemma {:induction false} NoneTagged(qs: seq<Pixel>, tags: seq<Option<nat>>, j: Option<nat>)
    requires |tags| == |qs| && forall i | 0 <= i < |qs| :: tags[i] != j
    ensures Tagged(qs, tags, j) == []
  {
    if qs != [] {
      NoneTagged(qs[..|qs| - 1], tags[..|qs| - 1], j);
    }
  }

  lemma {:induction false} NoneWoken(spots: seq<Option<Spot>>, qs: seq<Pixel>, rest: Option<Rect>, after: Frame, n: nat)
    requires SpotsOk(spots) && n <= SPOTS && forall j: nat | j < n :: Those(spots, qs, Some(j)) == []
    ensures Woken(spots, qs, rest, after, n) == (rest, spots)
  {
    if n > 0 {
      NoneWoken(spots, qs, rest, after, n - 1);
    }
  }

  lemma {:induction false} OneWoken(spots: seq<Option<Spot>>, qs: seq<Pixel>, rest: Option<Rect>, after: Frame,
                                    at: nat, n: nat)
    requires SpotsOk(spots) && at < n <= SPOTS && forall j: nat | j < n && j != at :: Those(spots, qs, Some(j)) == []
    ensures Woken(spots, qs, rest, after, n) == Woken(spots, qs, rest, after, at + 1)
  {
    if n > at + 1 {
      OneWoken(spots, qs, rest, after, at, n - 1);
    }
  }

  lemma Corners(r: Rect)
    requires r.w > 0 && r.h > 0
    ensures Grow(Grow(None, Pixel(r.x, r.y)), Pixel(r.x + r.w - 1, r.y + r.h - 1)) == Some(r)
  {
  }

  /** Where a place's pixels are counted: in its spot, once it is a blinker, else with the rest. */
  function TagOf(p: Place, at: nat): Option<nat> {
    if p.Learnt? && p.returned >= BLINK_RETURNS then Some(at) else None
  }

  lemma PixelTag(o: Screen, e: Eye, b: Rect, p: Place, at: nat, q: Pixel)
    requires IsPlace(o, b) && KnowsAt(o, e, b, p, at) && Has(b, q)
    ensures InBlinker(e.spots, q) == TagOf(p, at)
  {
    BackCovers(o, b);
    forall i | 0 <= i < SPOTS && (p.New? || i != at)
      ensures !Covers(e.spots[i], q)
    {
      assert Apart(e.spots[i], ToLayout(o, b), b);
    }
    InBlinkerIs(e.spots, q, at);
  }

  lemma PlacePixels(o: Screen, e: Eye, b: Rect, p: Place, at: nat, qs: seq<Pixel>)
    requires IsPlace(o, b) && KnowsAt(o, e, b, p, at) && Bound(qs) == Some(b)
    ensures Those(e.spots, qs, TagOf(p, at)) == qs
      && forall j: Option<nat> | j != TagOf(p, at) :: Those(e.spots, qs, j) == []
  {
    BoundIsTight(qs);
    forall i | 0 <= i < |qs|
      ensures InBlinker(e.spots, qs[i]) == TagOf(p, at)
    {
      PixelTag(o, e, b, p, at, qs[i]);
    }
    AllTagged(qs, Tags(e.spots, qs), TagOf(p, at));
    forall j: Option<nat> | j != TagOf(p, at)
      ensures Those(e.spots, qs, j) == []
    {
      NoneTagged(qs, Tags(e.spots, qs), j);
    }
  }

  /** A change of the place, when nothing is to be woken. */
  lemma PlainChange(o: Screen, e: Eye, b: Rect, p: Place, at: nat, before: Frame, after: Frame)
    requires IsPlace(o, b) && KnowsAt(o, e, b, p, at) && (p.Learnt? ==> p.returned < BLINK_RETURNS)
    ensures var pr := ToPixels(o, ToLayout(o, b)); var (blinks, e') := BlinkStep(o, e, ToLayout(o, b), before, after);
      !blinks == Counts(p, after(pr)) && Knows(o, e', b, Next(p, before(pr), after(pr)))
  {
    var s := ToLayout(o, b);
    var e' := BlinkStep(o, e, s, before, after).1;
    forall i | 0 <= i < SPOTS && (p.New? || i != at)
      ensures !Takes(e.spots[i], s)
    {
      assert Apart(e.spots[i], s, b);
    }
    SpotAtIs(e.spots, s, at);
    SpotSetLearns(o, b, before, after);
    if p.Learnt? {
      var sp := e.spots[at].value;
      RingKnows(sp, p.history, after(sp.pr));
      RingOn(sp, p.history, after(sp.pr));
      assert KnowsAt(o, e', b, Next(p, before(sp.pr), after(sp.pr)), at);
    } else {
      var pr := ToPixels(o, s);
      assert KnowsAt(o, e', b, Next(p, before(pr), after(pr)), NewSpot(e.spots, e.next));
    }
  }

  /** The blinkers dealt with, the rest of a change goes to the spots, unless it is a caret's. */
  lemma ComparedRest(o: Screen, e: Eye, qs: seq<Pixel>, before: Frame, after: Frame, b: Rect, left: seq<Option<Spot>>)
    requires EyeOk(e) && Woken(e.spots, qs, Bound(Those(e.spots, qs, None)), after, SPOTS) == (Some(b), left)
    requires !CaretShaped(ToLayout(o, b))
    ensures SpotsOk(left)
    ensures var (blinks, e') := BlinkStep(o, Eye(Carets([], 0), left, e.next), ToLayout(o, b), before, after);
      Compared(o, false, e, qs, before, after) == (!blinks, e')
  {
  }

  /** A blinker that changes to a look it knows does not count; one that does not is learnt afresh. */
  lemma BlinkerStep(o: Screen, e: Eye, b: Rect, p: Place, at: nat, qs: seq<Pixel>, before: Frame, after: Frame)
    requires IsPlace(o, b) && KnowsAt(o, e, b, p, at) && Bound(qs) == Some(b) && p.Learnt?
      && p.returned >= BLINK_RETURNS
    ensures var pr := ToPixels(o, ToLayout(o, b)); var (counts, e') := Compared(o, false, e, qs, before, after);
      counts == Counts(p, after(pr)) && Knows(o, e', b, Next(p, before(pr), after(pr)))
  {
    var sp := e.spots[at].value;
    PlacePixels(o, e, b, p, at, qs);
    RingKnows(sp, p.history, after(sp.pr));
    OneWoken(e.spots, qs, None, after, at, SPOTS);
    NoneWoken(e.spots, qs, None, after, at);
    OneIs(e.spots, qs, after, at, b);
    if after(sp.pr) in sp.looks {
      assert KnowsAt(o, e, b, p, at);
    } else {
      var left := e.spots[at := None];
      ComparedRest(o, e, qs, before, after, b, left);
      PlainChange(o, Eye(Carets([], 0), left, e.next), b, New, at, before, after);
    }
  }

  lemma OneIs(spots: seq<Option<Spot>>, qs: seq<Pixel>, after: Frame, at: nat, b: Rect)
    requires SpotsOk(spots) && at < SPOTS && spots[at].Some? && Those(spots, qs, Some(at)) == qs
      && Bound(qs) == Some(b) && b.w > 0 && b.h > 0
    requires Woken(spots, qs, None, after, at) == (None, spots)
    ensures var known := after(spots[at].value.pr) in spots[at].value.looks;
      Woken(spots, qs, None, after, at + 1) == if known then (None, spots) else (Some(b), spots[at := None])
  {
    Corners(b);
  }

  /** Every change of a place counts as the place's own history says, whatever other places apart from it the
      output remembers. */
  lemma PlaceStep(o: Screen, e: Eye, b: Rect, p: Place, qs: seq<Pixel>, before: Frame, after: Frame)
    requires IsPlace(o, b) && Knows(o, e, b, p) && Bound(qs) == Some(b)
    ensures var pr := ToPixels(o, ToLayout(o, b)); var (counts, e') := Compared(o, false, e, qs, before, after);
      counts == Counts(p, after(pr)) && Knows(o, e', b, Next(p, before(pr), after(pr)))
  {
    var at :| KnowsAt(o, e, b, p, at);
    if p.Learnt? && p.returned >= BLINK_RETURNS {
      BlinkerStep(o, e, b, p, at, qs, before, after);
    } else {
      PlacePixels(o, e, b, p, at, qs);
      NoneWoken(e.spots, qs, Some(b), after, SPOTS);
      ComparedRest(o, e, qs, before, after, b, e.spots);
      PlainChange(o, Eye(Carets([], 0), e.spots, e.next), b, p, at, before, after);
    }
  }

  // ---- Parts of a place, and more than it ----

  /** A change inside a place that is no blinker yet, and that no other place takes, goes by the place's look. */
  lemma PartChange(o: Screen, e: Eye, b: Rect, p: Place, at: nat, s: Rect, before: Frame, after: Frame)
    requires KnowsAt(o, e, b, p, at) && p.Learnt? && p.returned < BLINK_RETURNS && Inside(s, ToLayout(o, b))
    requires s.w <= BLINK_SIDE && s.h <= BLINK_SIDE && forall i | 0 <= i < SPOTS && i != at :: !Takes(e.spots[i], s)
    ensures var pr := ToPixels(o, ToLayout(o, b)); var (blinks, e') := BlinkStep(o, e, s, before, after);
      !blinks == Counts(p, after(pr)) && KnowsAt(o, e', b, Next(p, before(pr), after(pr)), at)
  {
    SpotAtIs(e.spots, s, at);
    var sp := e.spots[at].value;
    RingKnows(sp, p.history, after(sp.pr));
    RingOn(sp, p.history, after(sp.pr));
  }

  /** A change that a place is part of, and that is no part of it, is significant, and is the place from then on. */
  lemma PlaceGrows(o: Screen, e: Eye, at: nat, b: Rect, before: Frame, after: Frame)
    requires EyeOk(e) && at < SPOTS && e.spots[at].Some? && !IsBlinker(e.spots[at])
    requires var s := ToLayout(o, b); Inside(e.spots[at].value.r, s) && !Inside(s, e.spots[at].value.r)
    requires ToLayout(o, b).w <= BLINK_SIDE && ToLayout(o, b).h <= BLINK_SIDE
    requires forall i | 0 <= i < SPOTS && i != at :: !Takes(e.spots[i], ToLayout(o, b))
    ensures var pr := ToPixels(o, ToLayout(o, b)); var (blinks, e') := BlinkStep(o, e, ToLayout(o, b), before, after);
      !blinks && e'.spots[at].Some? && Learns(o, e'.spots[at].value, b, Afresh(before(pr), after(pr)))
  {
    SpotAtIs(e.spots, ToLayout(o, b), at);
    SpotSetLearns(o, b, before, after);
  }

  // ---- Runs ----

  /** Frames of an output; between each and the next the pixels that changed, and whether that counted; and
      what was remembered before each change and after the last. */
  datatype Film = Film(frames: seq<Frame>, changes: seq<seq<Pixel>>, counts: seq<bool>, eyes: seq<Eye>)

  ghost predicate Sized(f: Film) {
    |f.frames| == |f.changes| + 1 == |f.counts| + 1 == |f.eyes| && forall i | 0 <= i < |f.eyes| :: EyeOk(f.eyes[i])
  }

  ghost predicate Follows(o: Screen, f: Film, i: nat)
    requires Sized(f) && i < |f.changes|
  {
    (f.counts[i], f.eyes[i + 1]) == Compared(o, false, f.eyes[i], f.changes[i], f.frames[i], f.frames[i + 1])
  }

  /** What the comparisons made of the frames, one after the other. */
  ghost predicate IsFilm(o: Screen, f: Film) {
    Sized(f) && forall i: nat {:trigger Follows(o, f, i)} | i < |f.changes| :: Follows(o, f, i)
  }

  // ---- Runs of one place ----

  /** The place, as it was first, after the first n changes. */
  function PlaceAfter(p: Place, looks: seq<Look>, n: nat): Place
    requires n < |looks|
  {
    if n == 0 then p else Next(PlaceAfter(p, looks, n - 1), looks[n - 1], looks[n])
  }

  /** An output with no spots yet. */
  predicate Blank(e: Eye) {
    EyeOk(e) && forall i | 0 <= i < SPOTS :: e.spots[i].None?
  }

  /** To it every place is new. */
  lemma BlankKnows(o: Screen, e: Eye, b: Rect)
    requires Blank(e)
    ensures Knows(o, e, b, New)
  {
    assert KnowsAt(o, e, b, New, 0);
  }

  /** A film of an output in which one place changes, all of it each time; what is known of it at first, beside
      others apart from it; and its looks. */
  ghost predicate PlaceFilm(o: Screen, f: Film, b: Rect, p: Place, looks: seq<Look>) {
    && IsFilm(o, f) && Knows(o, f.eyes[0], b, p) && IsPlace(o, b) && |looks| == |f.frames|
    && (forall i | 0 <= i < |f.changes| :: Bound(f.changes[i]) == Some(b))
    && forall i | 0 <= i < |looks| :: looks[i] == f.frames[i](ToPixels(o, ToLayout(o, b)))
  }

  lemma ChangeStep(o: Screen, e: Eye, b: Rect, p: Place, qs: seq<Pixel>, before: Frame, after: Frame, was: Look,
                   now: Look, r: (bool, Eye))
    requires IsPlace(o, b) && Knows(o, e, b, p) && Bound(qs) == Some(b) && r == Compared(o, false, e, qs, before, after)
    requires was == before(ToPixels(o, ToLayout(o, b))) && now == after(ToPixels(o, ToLayout(o, b)))
    ensures r.0 == Counts(p, now) && Knows(o, r.1, b, Next(p, was, now))
  {
    PlaceStep(o, e, b, p, qs, before, after);
  }

  lemma FilmStep(o: Screen, f: Film, b: Rect, p: Place, looks: seq<Look>, n: nat, q: Place)
    requires PlaceFilm(o, f, b, p, looks) && n < |f.changes| && Knows(o, f.eyes[n], b, q)
    ensures f.counts[n] == Counts(q, looks[n + 1]) && Knows(o, f.eyes[n + 1], b, Next(q, looks[n], looks[n + 1]))
  {
    assert Follows(o, f, n);
    ChangeStep(o, f.eyes[n], b, q, f.changes[n], f.frames[n], f.frames[n + 1], looks[n], looks[n + 1],
      (f.counts[n], f.eyes[n + 1]));
  }

  ghost predicate KnownAt(o: Screen, f: Film, b: Rect, p: Place, looks: seq<Look>, n: nat) {
    n < |f.eyes| && n < |looks| && Knows(o, f.eyes[n], b, PlaceAfter(p, looks, n))
  }

  lemma KnownOn(o: Screen, f: Film, b: Rect, p: Place, looks: seq<Look>, n: nat)
    requires PlaceFilm(o, f, b, p, looks) && n < |f.changes| && KnownAt(o, f, b, p, looks, n)
    ensures KnownAt(o, f, b, p, looks, n + 1)
  {
    FilmStep(o, f, b, p, looks, n, PlaceAfter(p, looks, n));
  }

  lemma {:induction false} FilmKnows(o: Screen, f: Film, b: Rect, p: Place, looks: seq<Look>, n: nat)
    requires PlaceFilm(o, f, b, p, looks) && n <= |f.changes|
    ensures KnownAt(o, f, b, p, looks, n)
  {
    if n == 0 {
      KnownFirst(o, f, b, p, looks);
    } else {
      FilmKnows(o, f, b, p, looks, n - 1);
      KnownOn(o, f, b, p, looks, n - 1);
    }
  }

  lemma KnownFirst(o: Screen, f: Film, b: Rect, p: Place, looks: seq<Look>)
    requires PlaceFilm(o, f, b, p, looks)
    ensures KnownAt(o, f, b, p, looks, 0)
  {
    assert PlaceAfter(p, looks, 0) == p;
  }

  /** A run's changes count as the place's own history says. */
  lemma FilmIsPlace(o: Screen, f: Film, b: Rect, p: Place, looks: seq<Look>, n: nat)
    requires PlaceFilm(o, f, b, p, looks) && n < |f.changes|
    ensures f.counts[n] == Counts(PlaceAfter(p, looks, n), looks[n + 1])
  {
    FilmKnows(o, f, b, p, looks, n);
    FilmStep(o, f, b, p, looks, n, PlaceAfter(p, looks, n));
  }

  /** What is remembered of a place is among these. */
  ghost predicate Past(p: Place, past: seq<Look>) {
    p.Learnt? ==> forall i | 0 <= i < |p.history| :: p.history[i] in past
  }

  lemma PastOn(p: Place, past: seq<Look>, was: Look, now: Look)
    requires Past(p, past) && was in past
    ensures Past(Next(p, was, now), past + [now])
  {
  }

  /** What is remembered of a new place are looks it had. */
  lemma HistoryIsPast(looks: seq<Look>, n: nat)
    requires n < |looks|
    ensures Past(PlaceAfter(New, looks, n), looks[..n + 1])
  {
    for i := 0 to n
      invariant Past(PlaceAfter(New, looks, i), looks[..i + 1])
    {
      var past, was, now := looks[..i + 1], looks[i], looks[i + 1];
      assert past[i] == was && looks[..i + 2] == past + [now];
      PastOn(PlaceAfter(New, looks, i), past, was, now);
    }
  }

  lemma LastIn(history: seq<Look>, h: Look)
    requires h in Last(history)
    ensures exists i | 0 <= i < |history| :: history[i] == h
  {
    var k :| 0 <= k < |Last(history)| && Last(history)[k] == h;
    assert history[if |history| <= BLINK_LOOKS then k else |history| - BLINK_LOOKS + k] == h;
  }

  /** A look that is not among the last remembered of the place, or one that a new place never had. */
  predicate Unseen(p: Place, looks: seq<Look>, n: nat)
    requires n + 1 < |looks|
  {
    var q := PlaceAfter(p, looks, n);
    (q.Learnt? && looks[n + 1] !in Last(q.history)) || (p.New? && looks[n + 1] !in looks[..n + 1])
  }

  lemma NewLookCounts(p: Place, looks: seq<Look>, n: nat)
    requires n + 1 < |looks| && Unseen(p, looks, n)
    ensures Counts(PlaceAfter(p, looks, n), looks[n + 1])
  {
    var q := PlaceAfter(p, looks, n);
    if p.New? {
      HistoryIsPast(looks, n);
      forall h | q.Learnt? && h in Last(q.history)
        ensures h in looks[..n + 1]
      {
        LastIn(q.history, h);
      }
    }
  }

  /** A change of a place to a look that is not among the last it remembers is significant; so is, of one that
      was new, a change to a look it never had, always. */
  lemma NewLooksCount(o: Screen, f: Film, b: Rect, p: Place, looks: seq<Look>, n: nat)
    requires PlaceFilm(o, f, b, p, looks) && n < |f.changes| && Unseen(p, looks, n)
    ensures f.counts[n]
  {
    FilmIsPlace(o, f, b, p, looks, n);
    NewLookCounts(p, looks, n);
  }

  /** Looks that go round, and round again, through different ones. */
  ghost predicate GoesRound(looks: seq<Look>, ring: seq<Look>) {
    && 2 <= |ring| && (forall i, j | 0 <= i < j < |ring| :: ring[i] != ring[j])
    && (forall i | 0 <= i < |looks| && i < |ring| :: looks[i] == ring[i])
    && forall i, j | 0 <= i < j < |looks| && j == i + |ring| :: looks[j] == looks[i]
  }

  lemma {:induction false} RoundIn(looks: seq<Look>, ring: seq<Look>, i: nat)
    requires GoesRound(looks, ring) && i < |looks|
    ensures looks[i] in ring
  {
    if i >= |ring| {
      RoundIn(looks, ring, i - |ring|);
      assert looks[i] == looks[i - |ring|];
    } else {
      assert looks[i] == ring[i];
    }
  }

  /** Looks less than a round apart differ. */
  lemma {:induction false} RoundApart(looks: seq<Look>, ring: seq<Look>, i: nat, j: nat)
    requires GoesRound(looks, ring) && i < j < |looks| && j < i + |ring|
    ensures looks[i] != looks[j]
  {
    var m := |ring|;
    if i >= m {
      RoundApart(looks, ring, i - m, j - m);
      assert looks[i] == looks[i - m] && looks[j] == looks[j - m];
    } else if j >= m {
      assert looks[j] == looks[j - m] == ring[j - m] && looks[i] == ring[i];
    } else {
      assert looks[i] == ring[i] && looks[j] == ring[j];
    }
  }

  /** What is remembered of a new place that goes round, after n changes: with more looks than are remembered,
      all it had, and no return. */
  function RoundPlace(looks: seq<Look>, ring: seq<Look>, n: nat): Place
    requires 0 < n < |looks|
  {
    var m := |ring|;
    if m > BLINK_LOOKS then Learnt(looks[..n + 1], 0)
    else if n < m then Learnt(ring[..n + 1], 0)
    else Learnt(ring, if n - m + 1 < BLINK_RETURNS then n - m + 1 else BLINK_RETURNS)
  }

  lemma {:induction false} RoundAfter(looks: seq<Look>, ring: seq<Look>, n: nat)
    requires GoesRound(looks, ring) && 1 <= n < |looks|
    ensures PlaceAfter(New, looks, n) == RoundPlace(looks, ring, n)
  {
    if n == 1 {
      assert PlaceAfter(New, looks, 0) == New && looks[0] == ring[0] && looks[1] == ring[1] && ring[0] != ring[1];
      assert ring[..2] == [ring[0], ring[1]] && looks[..2] == [looks[0], looks[1]];
    } else {
      RoundAfter(looks, ring, n - 1);
      RoundIn(looks, ring, n);
      RoundStep(looks, ring, n);
    }
  }

  lemma RoundStep(looks: seq<Look>, ring: seq<Look>, n: nat)
    requires GoesRound(looks, ring) && 2 <= n < |looks| && looks[n] in ring
    ensures Next(RoundPlace(looks, ring, n - 1), looks[n - 1], looks[n]) == RoundPlace(looks, ring, n)
  {
    if |ring| > BLINK_LOOKS {
      LongRound(looks, ring, n);
      assert looks[..n + 1] == looks[..n] + [looks[n]];
    } else if n < |ring| {
      assert looks[n] == ring[n] && ring[n] !in ring[..n];
      assert ring[..n + 1] == ring[..n] + [ring[n]];
    } else if n == |ring| {
      assert ring[..n] == ring;
    }
  }

  /** In a round of more looks than are remembered, the next is never one of those. */
  lemma LongRound(looks: seq<Look>, ring: seq<Look>, n: nat)
    requires GoesRound(looks, ring) && |ring| > BLINK_LOOKS && 1 <= n < |looks|
    ensures looks[n] !in Last(looks[..n])
  {
    var last, from := Last(looks[..n]), if n <= BLINK_LOOKS then 0 else n - BLINK_LOOKS;
    forall k | 0 <= k < |last|
      ensures last[k] != looks[n]
    {
      RoundApart(looks, ring, from + k, n);
    }
  }

  lemma LoopCounts(looks: seq<Look>, ring: seq<Look>, n: nat)
    requires GoesRound(looks, ring) && n + 1 < |looks|
    ensures Counts(PlaceAfter(New, looks, n), looks[n + 1]) <==> n < |ring| + 1 || |ring| > BLINK_LOOKS
  {
    if n > 0 {
      RoundAfter(looks, ring, n);
      RoundIn(looks, ring, n + 1);
      assert ring[..|ring|] == ring;
      if |ring| > BLINK_LOOKS {
        LongRound(looks, ring, n + 1);
      }
    }
  }

  /** A new place that goes round through m looks, two or more but no more than are remembered, is significant
      for its first m + 1 changes, and no more: it has then come back three times. With more looks than that it
      is significant for ever. */
  lemma LoopingStops(o: Screen, f: Film, b: Rect, looks: seq<Look>, ring: seq<Look>, n: nat)
    requires PlaceFilm(o, f, b, New, looks) && n < |f.changes| && GoesRound(looks, ring)
    ensures f.counts[n] <==> n < |ring| + 1 || |ring| > BLINK_LOOKS
  {
    FilmIsPlace(o, f, b, New, looks, n);
    LoopCounts(looks, ring, n);
  }

  // ---- A caret that blinks ----

  /** No blinker's pixels meet these. */
  predicate NoBlinkerAt(spots: seq<Option<Spot>>, b: Rect) {
    forall i | 0 <= i < |spots| && IsBlinker(spots[i]) :: !Meets(b, spots[i].value.pr)
  }

  lemma {:induction false} InNoBlinker(spots: seq<Option<Spot>>, b: Rect, q: Pixel)
    requires NoBlinkerAt(spots, b) && Has(b, q)
    ensures InBlinker(spots, q).None?
  {
    if spots != [] {
      InNoBlinker(spots[..|spots| - 1], b, q);
    }
  }

  lemma TagsNone(spots: seq<Option<Spot>>, qs: seq<Pixel>, b: Rect)
    requires NoBlinkerAt(spots, b) && Bound(qs) == Some(b)
    ensures forall i | 0 <= i < |qs| :: Tags(spots, qs)[i].None?
  {
    BoundIsTight(qs);
    forall i | 0 <= i < |qs|
      ensures InBlinker(spots, qs[i]).None?
    {
      InNoBlinker(spots, b, qs[i]);
    }
  }

  /** Then none is woken, and the box of the change is its own. */
  lemma NoneThere(spots: seq<Option<Spot>>, qs: seq<Pixel>, after: Frame, b: Rect)
    requires SpotsOk(spots) && NoBlinkerAt(spots, b) && Bound(qs) == Some(b)
    ensures Woken(spots, qs, Bound(Those(spots, qs, None)), after, SPOTS) == (Some(b), spots)
  {
    TagsNone(spots, qs, b);
    AllTagged(qs, Tags(spots, qs), None);
    forall j: nat | j < SPOTS
      ensures Those(spots, qs, Some(j)) == []
    {
      NoneTagged(qs, Tags(spots, qs), Some(j));
    }
    NoneWoken(spots, qs, Some(b), after, SPOTS);
  }

  /** A caret-shaped change in a box that a caret holds, or the first of its shape, does not count, whatever
      blinkers there are elsewhere. */
  lemma CaretChange(o: Screen, e: Eye, qs: seq<Pixel>, before: Frame, after: Frame, b: Rect, c: Rect)
    requires EyeOk(e) && NoBlinkerAt(e.spots, b) && Bound(qs) == Some(b)
    requires CaretShaped(ToLayout(o, b)) && Inside(ToLayout(o, b), c)
    requires Held(e.carets, c) || (e.carets.boxes == [] && c == ToLayout(o, b))
    ensures var (counts, e') := Compared(o, false, e, qs, before, after);
      !counts && e'.spots == e.spots && Held(e'.carets, c)
  {
    NoneThere(e.spots, qs, after, b);
    if Held(e.carets, c) {
      CaretStays(e.carets, c, ToLayout(o, b));
    } else {
      CaretComes(e.carets, c);
    }
  }

  /** A film of one caret: a first box of its shape, and then boxes of its shape inside that; no caret of
      another place is remembered, or one that holds it; and no blinker is there. */
  ghost predicate CaretFilm(o: Screen, f: Film, boxes: seq<Rect>) {
    && IsFilm(o, f) && |boxes| == |f.changes| > 0
    && (forall i | 0 <= i < |boxes| :: NoBlinkerAt(f.eyes[0].spots, boxes[i]))
    && (f.eyes[0].carets.boxes == [] || Held(f.eyes[0].carets, ToLayout(o, boxes[0])))
    && forall i | 0 <= i < |f.changes| ::
         Bound(f.changes[i]) == Some(boxes[i]) && CaretShaped(ToLayout(o, boxes[i]))
           && Inside(ToLayout(o, boxes[i]), ToLayout(o, boxes[0]))
  }

  lemma {:induction false} CaretHeld(o: Screen, f: Film, boxes: seq<Rect>, n: nat)
    requires CaretFilm(o, f, boxes) && n < |f.changes|
    ensures !f.counts[n] && f.eyes[n + 1].spots == f.eyes[0].spots && Held(f.eyes[n + 1].carets, ToLayout(o, boxes[0]))
  {
    if n > 0 {
      CaretHeld(o, f, boxes, n - 1);
    }
    assert Follows(o, f, n);
    CaretChange(o, f.eyes[n], f.changes[n], f.frames[n], f.frames[n + 1], boxes[n], ToLayout(o, boxes[0]));
  }

  /** A caret blinking in place, in whole or in part, is never significant. */
  lemma CaretsDoNotCount(o: Screen, f: Film, boxes: seq<Rect>)
    requires CaretFilm(o, f, boxes)
    ensures forall n | 0 <= n < |f.changes| :: !f.counts[n]
  {
    forall n | 0 <= n < |f.changes|
      ensures !f.counts[n]
    {
      CaretHeld(o, f, boxes, n);
    }
  }

  // ---- What always counts ----

  /** A pixel that a strict comparison leaves out: the first rectangle it is in is a mask. */
  predicate Masked(ignores: seq<Ignored>, q: Pixel) {
    exists i | 0 <= i < |ignores| && Has(ignores[i].r, q) ::
      ignores[i].masked && forall j | 0 <= j < i :: !Has(ignores[j].r, q)
  }

  predicate InAny(ignores: seq<Ignored>, q: Pixel) {
    exists i | 0 <= i < |ignores| :: Has(ignores[i].r, q)
  }

  lemma {:induction false} FirstIgnoreIs(ignores: seq<Ignored>, q: Pixel)
    ensures FirstIgnore(ignores, q).None? <==> !InAny(ignores, q)
    ensures FirstIgnore(ignores, q).Some? ==> forall j | 0 <= j < FirstIgnore(ignores, q).value :: !Has(ignores[j].r, q)
  {
    if ignores != [] {
      var n := |ignores| - 1;
      FirstIgnoreIs(ignores[..n], q);
      if i :| 0 <= i < n && Has(ignores[..n][i].r, q) {
        assert Has(ignores[i].r, q);
      }
    }
  }

  lemma LeftOutIs(ignores: seq<Ignored>, q: Pixel)
    ensures LeftOut(ignores, true, q) <==> Masked(ignores, q)
    ensures LeftOut(ignores, false, q) <==> InAny(ignores, q)
  {
    FirstIgnoreIs(ignores, q);
    var f := FirstIgnore(ignores, q);
    if f.Some? {
      forall i | 0 <= i < |ignores| && Has(ignores[i].r, q) && forall j | 0 <= j < i :: !Has(ignores[j].r, q)
        ensures i == f.value
      {
      }
    }
  }

  /** Strictly, any pixel that changed and is not masked is a significant change, and nothing is learnt. */
  lemma StrictCounts(o: Screen, ignores: seq<Ignored>, e: Eye, all: seq<Pixel>, before: Frame, after: Frame)
    requires EyeOk(e)
    ensures Taken(o, true, false, true, ignores, e, all, before, after)
      == (exists k | 0 <= k < |all| :: !Masked(ignores, all[k]), e)
  {
    var qs := Shown(ignores, true, all);
    forall q
      ensures LeftOut(ignores, true, q) <==> Masked(ignores, q)
    {
      LeftOutIs(ignores, q);
    }
    if qs != [] {
      assert qs[0] in qs;
    }
    if k :| 0 <= k < |all| && !Masked(ignores, all[k]) {
      assert all[k] in qs;
    }
  }

  lemma GrowHas(b: Option<Rect>, q: Pixel, a: Pixel)
    requires b.Some? && Has(b.value, a)
    ensures Grow(b, q).Some? && Has(Grow(b, q).value, a)
  {
  }

  lemma {:induction false} BoundHas(qs: seq<Pixel>, a: Pixel)
    requires a in qs
    ensures Bound(qs).Some? && Has(Bound(qs).value, a)
  {
    BoundIsTight(qs);
    var i :| 0 <= i < |qs| && qs[i] == a;
  }

  lemma {:induction false} WokenHas(spots: seq<Option<Spot>>, qs: seq<Pixel>, rest: Option<Rect>, after: Frame, n: nat,
                                    a: Pixel)
    requires SpotsOk(spots) && n <= SPOTS && rest.Some? && Has(rest.value, a)
    ensures var b := Woken(spots, qs, rest, after, n).0; b.Some? && Has(b.value, a)
  {
    if n > 0 {
      WokenHas(spots, qs, rest, after, n - 1, a);
      var b, s := Bound(Those(spots, qs, Some(n - 1))), Woken(spots, qs, rest, after, n - 1).0;
      if b.Some? {
        var r := b.value;
        GrowHas(s, Pixel(r.x, r.y), a);
        GrowHas(Grow(s, Pixel(r.x, r.y)), Pixel(r.x + r.w - 1, r.y + r.h - 1), a);
      }
    }
  }

  lemma {:induction false} TaggedHas(qs: seq<Pixel>, tags: seq<Option<nat>>, k: nat)
    requires |tags| == |qs| && k < |qs|
    ensures qs[k] in Tagged(qs, tags, tags[k])
  {
    var n := |qs| - 1;
    if k < n {
      TaggedHas(qs[..n], tags[..n], k);
    }
  }

  lemma {:induction false} InNone(spots: seq<Option<Spot>>, q: Pixel)
    requires forall i | 0 <= i < |spots| :: !Covers(spots[i], q)
    ensures InBlinker(spots, q).None?
  {
    if spots != [] {
      InNone(spots[..|spots| - 1], q);
    }
  }

  /** Pixels farther apart than a spot is wide, on a side of the layout. */
  predicate FarApart(o: Screen, a: Pixel, b: Pixel) {
    || (b.x + 1 - a.x) as real / o.sx > BLINK_SIDE as real
    || (b.y + 1 - a.y) as real / o.sy > BLINK_SIDE as real
  }

  lemma FarIsLarge(o: Screen, r: Rect, a: Pixel, b: Pixel)
    requires Has(r, a) && Has(r, b) && FarApart(o, a, b)
    ensures ToLayout(o, r).w > BLINK_SIDE || ToLayout(o, r).h > BLINK_SIDE
  {
    WideSide(r.x, r.w, b.x + 1 - a.x, o.sx);
    WideSide(r.y, r.h, b.y + 1 - a.y, o.sy);
  }

  lemma WideSide(from: int, size: int, least: int, scale: real)
    requires scale > 0.0 && least <= size
    ensures least as real / scale <= (Ceil((from + size) as real / scale) - Floor(from as real / scale)) as real
  {
    var a, b := from as real / scale, (from + size) as real / scale;
    assert b - a == size as real / scale;
    assert least as real / scale <= size as real / scale by {
      DivKeeps(least as real, size as real, scale);
    }
  }

  lemma DivKeeps(x: real, y: real, k: real)
    requires x <= y && k > 0.0
    ensures x / k <= y / k
  {
  }

  /** A change that a place is too small for, of pixels that are in no rectangle left out and no known blinker, is
      significant, whatever was remembered; and no caret is remembered after it. */
  lemma LargeCounts(o: Screen, ignores: seq<Ignored>, e: Eye, all: seq<Pixel>, before: Frame, after: Frame, a: Pixel,
                    b: Pixel)
    requires EyeOk(e) && a in all && b in all && FarApart(o, a, b)
    requires !InAny(ignores, a) && !InAny(ignores, b)
    requires forall i | 0 <= i < SPOTS :: !Covers(e.spots[i], a) && !Covers(e.spots[i], b)
    ensures var (counts, e') := Taken(o, false, false, true, ignores, e, all, before, after);
      counts && e'.carets.boxes == []
  {
    var qs := Shown(ignores, false, all);
    LeftOutIs(ignores, a);
    LeftOutIs(ignores, b);
    RestHas(e.spots, qs, after, a);
    RestHas(e.spots, qs, after, b);
    var (box, left) := Woken(e.spots, qs, Bound(Those(e.spots, qs, None)), after, SPOTS);
    FarIsLarge(o, box.value, a, b);
  }

  lemma RestHas(spots: seq<Option<Spot>>, qs: seq<Pixel>, after: Frame, a: Pixel)
    requires SpotsOk(spots) && a in qs && forall i | 0 <= i < SPOTS :: !Covers(spots[i], a)
    ensures var b := Woken(spots, qs, Bound(Those(spots, qs, None)), after, SPOTS).0; b.Some? && Has(b.value, a)
  {
    var k :| 0 <= k < |qs| && qs[k] == a;
    InNone(spots, a);
    TaggedHas(qs, Tags(spots, qs), k);
    BoundHas(Those(spots, qs, None), a);
    WokenHas(spots, qs, Bound(Those(spots, qs, None)), after, SPOTS, a);
  }

  /** A change of a caret's shape, apart from every caret remembered when there is one, and from every place, is
      significant; and it is remembered. */
  lemma OtherCaretCounts(o: Screen, e: Eye, qs: seq<Pixel>, before: Frame, after: Frame, b: Rect)
    requires EyeOk(e) && NoBlinkerAt(e.spots, b) && Bound(qs) == Some(b) && CaretShaped(ToLayout(o, b))
    requires e.carets.boxes != [] && forall i | 0 <= i < |e.carets.boxes| :: !Nested(ToLayout(o, b), e.carets.boxes[i])
    requires forall i | 0 <= i < SPOTS :: !Takes(e.spots[i], ToLayout(o, b))
    ensures var (counts, e') := Compared(o, false, e, qs, before, after);
      counts && Held(e'.carets, ToLayout(o, b))
  {
    NoneThere(e.spots, qs, after, b);
    var s := ToLayout(o, b);
    SpotAtIs(e.spots, s, SPOTS);
    var c := CaretStep(e.carets, s).1;
    assert c.boxes[if |e.carets.boxes| < CARETS then |e.carets.boxes| else e.carets.next] == s;
  }

  // ---- The comparison ----

  class Output {
    const o: Screen
    var eye: Eye

    constructor (o: Screen)
      ensures this.o == o && Blank(eye) && eye.carets.boxes == []
    {
      this.o, eye := o, Nothing();
    }

    /** Whether a change is a caret's; and what carets are remembered. */
    method IsCaret(s: Rect) returns (caret: bool)
      requires EyeOk(eye)
      modifies this
      ensures (caret, eye) == (CaretStep(old(eye).carets, s).0, old(eye).(carets := CaretStep(old(eye).carets, s).1))
    {
      if !((s.w <= THIN && s.h <= CARET_LONG) || (s.h <= THIN && s.w <= CARET_LONG)) {
        eye := eye.(carets := Carets([], 0));
        return false;
      }
      var c := eye.carets;
      for i := 0 to |c.boxes|
        invariant CaretAt(c.boxes[..i], s).None? && eye == old(eye) && c == eye.carets
      {
        assert c.boxes[..i + 1][..i] == c.boxes[..i];
        if Nested(s, c.boxes[i]) {
          CaretFirst(c.boxes, s, i);
          if !Inside(s, c.boxes[i]) {
            eye := eye.(carets := c.(boxes := c.boxes[i := s]));
          }
          return true;
        }
      }
      assert c.boxes[..|c.boxes|] == c.boxes;
      caret := c.boxes == [];
      eye := eye.(carets :=
        Carets(if |c.boxes| < CARETS then c.boxes + [s] else c.boxes[c.next := s], (c.next + 1) % CARETS));
    }

    /** A change that is no caret's: whether it is a blinker's; and what places are remembered. */
    method Blinks(s: Rect, before: Frame, after: Frame) returns (blinks: bool)
      requires EyeOk(eye)
      modifies this
      ensures (blinks, eye) == BlinkStep(o, old(eye), s, before, after)
    {
      if s.w > BLINK_SIDE || s.h > BLINK_SIDE {
        return false;
      }
      var i := SpotAt(eye.spots, s);
      if i.None? {
        var k := NewSpot(eye.spots, eye.next);
        Set(k, SpotSet(o, s, before, after));
        eye := eye.(next := (k + 1) % SPOTS);
        return false;
      }
      var sp := eye.spots[i.value].value;
      if !Inside(s, sp.r) {
        Set(i.value, SpotSet(o, s, before, after));
        return false;
      }
      var h := after(sp.pr);
      if h !in sp.looks {
        Set(i.value, Remember(sp, h));
        return false;
      }
      Set(i.value, sp.(returned := sp.returned + 1));
      blinks := sp.returned + 1 >= BLINK_RETURNS;
    }

    method Set(i: nat, sp: Spot)
      requires EyeOk(eye) && i < SPOTS && SpotOk(sp)
      modifies this
      ensures eye == old(eye).(spots := old(eye).spots[i := Some(sp)]) && EyeOk(eye)
    {
      eye := eye.(spots := eye.spots[i := Some(sp)]);
    }

    /** The boxes of the changed pixels: of those in no blinker, and of those in each. */
    method Boxes(qs: seq<Pixel>) returns (rest: Option<Rect>, blinkers: seq<Option<Rect>>)
      requires EyeOk(eye)
      ensures Boxed(rest, blinkers, qs, Tags(eye.spots, qs))
    {
      ghost var tags := Tags(eye.spots, qs);
      rest, blinkers := None, seq(SPOTS, _ => None);
      for i := 0 to |qs|
        invariant Boxed(rest, blinkers, qs[..i], tags[..i])
      {
        var j := InBlinker(eye.spots, qs[i]);
        BoxedOn(rest, blinkers, qs[..i], tags[..i], qs[i], j);
        assert qs[..i + 1] == qs[..i] + [qs[i]] && tags[..i + 1] == tags[..i] + [j];
        if j.Some? {
          blinkers := blinkers[j.value := Grow(blinkers[j.value], qs[i])];
        } else {
          rest := Grow(rest, qs[i]);
        }
      }
      assert qs[..|qs|] == qs && tags[..|qs|] == tags;
    }

    /** The blinkers that changed to a look they never had, forgotten. */
    method Wake(qs: seq<Pixel>, rest: Option<Rect>, blinkers: seq<Option<Rect>>, after: Frame) returns (b: Option<Rect>)
      requires EyeOk(eye) && Boxed(rest, blinkers, qs, Tags(eye.spots, qs))
      modifies this
      ensures EyeOk(eye) && eye == old(eye).(spots := eye.spots)
      ensures (b, eye.spots) == Woken(old(eye).spots, qs, rest, after, SPOTS)
    {
      b := rest;
      var spots := eye.spots;
      for j := 0 to SPOTS
        invariant (b, spots) == Woken(eye.spots, qs, rest, after, j) && eye == old(eye)
      {
        if blinkers[j].Some? && eye.spots[j].Some? {
          var sp, r := eye.spots[j].value, blinkers[j].value;
          if after(sp.pr) !in sp.looks {
            b := Grow(Grow(b, Pixel(r.x, r.y)), Pixel(r.x + r.w - 1, r.y + r.h - 1));
            spots := spots[j := None];
          }
        }
      }
      eye := eye.(spots := spots);
    }

    /** Whether a changed box counts. */
    method Judge(b: Rect, before: Frame, after: Frame) returns (counts: bool)
      requires EyeOk(eye)
      modifies this
      ensures (counts, eye) == Judged(o, old(eye), b, before, after)
    {
      var s := ToLayout(o, b);
      var caret := IsCaret(s);
      if caret {
        return false;
      }
      var blinks := Blinks(s, before, after);
      counts := !blinks;
    }

    /** Those of the pixels that are not left out. */
    method Keep(ignores: seq<Ignored>, strict: bool, all: seq<Pixel>) returns (qs: seq<Pixel>)
      ensures qs == Shown(ignores, strict, all)
    {
      qs := [];
      for i := 0 to |all|
        invariant qs == Shown(ignores, strict, all[..i])
      {
        assert all[..i + 1][..i] == all[..i];
        if !LeftOut(ignores, strict, all[i]) {
          qs := qs + [all[i]];
        }
      }
      assert all[..|all|] == all;
    }

    /** Whether a frame, in which these pixels changed, is a significant change; first: the output's first, or
        the first where it is now. */
    method Compare(strict: bool, first: bool, watched: bool, ignores: seq<Ignored>, all: seq<Pixel>, before: Frame,
                   after: Frame)
      returns (counts: bool)
      requires EyeOk(eye)
      modifies this
      ensures (counts, eye) == Taken(o, strict, first, watched, ignores, old(eye), all, before, after)
      ensures first ==> counts == watched && Blank(eye) && eye.carets.boxes == []
      ensures strict && !first ==>
        counts == (exists k | 0 <= k < |all| :: !Masked(ignores, all[k])) && eye == old(eye)
    {
      StrictCounts(o, ignores, eye, all, before, after);
      if first {
        eye := Nothing();
        return watched;
      }
      var qs := Keep(ignores, strict, all);
      if strict {
        return qs != [];
      }
      var rest, blinkers := Boxes(qs);
      var b := Wake(qs, rest, blinkers, after);
      if b.None? {
        return false;
      }
      counts := Judge(b.value, before, after);
    }
  }

  /** These are the boxes of the pixels by their tags. */
  ghost predicate Boxed(rest: Option<Rect>, blinkers: seq<Option<Rect>>, qs: seq<Pixel>, tags: seq<Option<nat>>)
    requires |tags| == |qs|
  {
    && |blinkers| == SPOTS && rest == Bound(Tagged(qs, tags, None))
    && forall j: nat | j < SPOTS :: blinkers[j] == Bound(Tagged(qs, tags, Some(j)))
  }

  lemma TaggedOn(qs: seq<Pixel>, tags: seq<Option<nat>>, q: Pixel, tag: Option<nat>, j: Option<nat>)
    requires |tags| == |qs|
    ensures Bound(Tagged(qs + [q], tags + [tag], j))
      == if tag == j then Grow(Bound(Tagged(qs, tags, j)), q) else Bound(Tagged(qs, tags, j))
  {
    assert (qs + [q])[..|qs|] == qs && (tags + [tag])[..|qs|] == tags;
    var t := Tagged(qs, tags, j);
    assert (t + [q])[..|t|] == t && t + [] == t;
  }

  lemma BoxedOn(rest: Option<Rect>, blinkers: seq<Option<Rect>>, qs: seq<Pixel>, tags: seq<Option<nat>>, q: Pixel,
                tag: Option<nat>)
    requires |tags| == |qs| && Boxed(rest, blinkers, qs, tags) && (tag.Some? ==> tag.value < SPOTS)
    ensures if tag.Some? then Boxed(rest, blinkers[tag.value := Grow(blinkers[tag.value], q)], qs + [q], tags + [tag])
            else Boxed(Grow(rest, q), blinkers, qs + [q], tags + [tag])
  {
    TaggedOn(qs, tags, q, tag, None);
    forall j: nat | j < SPOTS
      ensures Bound(Tagged(qs + [q], tags + [tag], Some(j)))
        == if tag == Some(j) then Grow(blinkers[j], q) else blinkers[j]
    {
      TaggedOn(qs, tags, q, tag, Some(j));
    }
  }

  lemma {:induction false} CaretFirst(boxes: seq<Rect>, s: Rect, i: nat)
    requires i < |boxes| && Nested(s, boxes[i]) && CaretAt(boxes[..i], s).None?
    ensures CaretAt(boxes, s) == Some(i)
    decreases |boxes|
  {
    var n := |boxes| - 1;
    if i < n {
      assert boxes[..n][..i] == boxes[..i];
      CaretFirst(boxes[..n], s, i);
    }
  }
}
