/** The walk over an accessibility tree and the choice of the point to click
    (tools/tree/tree.c, with --click). */
module TreeWalk {
  import opened Options

  const BUDGET := 4000
  const MAX_CHILDREN := 500
  const MAX_DEPTH := 64

  // ---- Rectangles ----

  datatype Rect = Rect(x: int, y: int, w: int, h: int)

  predicate InRect(r: Rect, x: int, y: int) {
    r.x <= x < r.x + r.w && r.y <= y < r.y + r.h
  }

  function Max(a: int, b: int): int {
    if a < b then b else a
  }

  function Min(a: int, b: int): int {
    if a < b then a else b
  }

  /** The overlap of two rectangles. */
  function Meet(a: Rect, b: Rect): (o: Rect)
    ensures forall x, y :: InRect(o, x, y) <==> InRect(a, x, y) && InRect(b, x, y)
    ensures o.w >= 0 && o.h >= 0
  {
    var x0, y0, x1, y1 := Max(a.x, b.x), Max(a.y, b.y), Min(a.x + a.w, b.x + b.w), Min(a.y + a.h, b.y + b.h);
    Rect(x0, y0, Max(x1 - x0, 0), Max(y1 - y0, 0))
  }

  // ---- What the tree answers ----

  type Node = nat

  /** An application's bus name and a node's path in it. */
  type Key = string

  /** How a node's name goes with the one looked for. */
  datatype Fits = Not | Partly | Exactly

  /** What a node says of itself when it is read. said: what stands for it in the lines of what is under it. */
  datatype Info = Info(key: Option<Key>, popup: bool, window: Option<Rect>, screen: Option<Rect>, hides: bool,
                       called: string, said: string, fits: Fits, caption: bool, disabled: bool, line: string,
                       children: seq<Option<Node>>)

  /** What a node answers when that many were read before it: the tree may change. repeats: whether, under a
      parent of that name, it is a label that says no more; printed: whether it has a line of its own there. */
  datatype Answers = Answers(told: (Node, nat) -> Info, repeats: (Node, nat, string) -> bool,
                             printed: (Node, nat, string) -> bool)

  /** A line: the printed nodes on the way, of which the first, the window, is not said; its own words; its
      bounds. */
  datatype Line = Line(path: seq<string>, own: string, bounds: Option<Rect>)

  /** A node found. */
  datatype Hit = Hit(line: Line, exact: bool, caption: bool, hidden: bool, disabled: bool, hasb: bool,
                     vis: Option<Rect>)

  // ---- Trails: the nodes a node was come to through ----

  /** A node read, after that many others, under a parent of that name. */
  datatype Step = Step(node: Node, at: nat, parent: string)

  /** From the window down to a node. */
  datatype Trail = Start | At(up: Trail, last: Step)

  function Depth(t: Trail): nat {
    if t.Start? then 0 else Depth(t.up) + 1
  }

  /** Whether a trail goes through where another ends. */
  predicate Through(t: Trail, u: Trail) {
    t.At? && u.At? && (u == t || Through(t.up, u))
  }

  function Told(info: Answers, t: Trail): Info
    requires t.At?
  {
    info.told(t.last.node, t.last.at)
  }

  /** Whether a node has a line of its own where it is read. */
  predicate Shown(info: Answers, t: Trail)
    requires t.At?
  {
    info.printed(t.last.node, t.last.at, t.last.parent)
  }

  predicate Mute(info: Answers, t: Trail)
    requires t.At?
  {
    info.repeats(t.last.node, t.last.at, t.last.parent)
  }

  /** The name what is under a node is read with. */
  function Called(info: Answers, t: Trail): string
    requires t.At?
  {
    if Shown(info, t) then Told(info, t).called else t.last.parent
  }

  /** A node lists another, which is then read with that name. */
  predicate Lists(info: Answers, t: Trail, a: Node, parent: string)
    requires t.At?
  {
    var x := Told(info, t);
    && !Mute(info, t) && parent == Called(info, t)
    && exists c | 0 <= c < Min(|x.children|, MAX_CHILDREN) :: x.children[c] == Some(a)
  }

  /** Each node is listed by the one before it, from the window on. */
  ghost predicate IsTrail(info: Answers, top: Node, t: Trail) {
    match t
    case Start => false
    case At(Start, s) => s.node == top && s.parent == ""
    case At(up, s) => IsTrail(info, top, up) && Lists(info, up, s.node, s.parent) && up.last.at < s.at
  }

  /** The window's place on the screen. */
  function FrameOf(info: Answers, t: Trail): Option<Rect>
    requires t.At?
  {
    if t.up.At? then FrameOf(info, t.up)
    else if Told(info, t).window.None? then None
    else Told(info, t).screen
  }

  /** What a node's bounds are measured from: the window, or the last popup on the way that says 0,0. */
  function OffsetOf(info: Answers, t: Trail): (int, int) {
    if t.Start? then (0, 0)
    else
      var x, f := Told(info, t), FrameOf(info, t);
      if x.window.None? then OffsetOf(info, t.up)
      else if t.up.Start? then (0, 0)
      else if x.window.value.x == 0 && x.window.value.y == 0 && f.Some? && x.popup && x.screen.Some?
      then (x.screen.value.x - f.value.x, x.screen.value.y - f.value.y)
      else OffsetOf(info, t.up)
  }

  /** A node's bounds in the window, when it has some. */
  function Bounds(info: Answers, t: Trail): Option<Rect>
    requires t.At?
  {
    var w, o := Told(info, t).window, OffsetOf(info, t);
    if w.Some? && w.value.w > 0 && w.value.h > 0
      then Some(Rect(w.value.x + o.0, w.value.y + o.1, w.value.w, w.value.h)) else None
  }

  /** What is in view there: the window, when its size is known, cut by the bounds of each node on the way. */
  function View(info: Answers, window: Option<Rect>, t: Trail): Option<Rect> {
    if t.Start? then window
    else
      var c, b := View(info, window, t.up), Bounds(info, t);
      if b.None? then c
      else Some(if c.Some? then Meet(b.value, c.value) else b.value)
  }

  /** A point is in view there exactly when it is in the window and in the bounds of every node on the way. */
  lemma {:induction false} ViewIsOverlap(info: Answers, window: Option<Rect>, t: Trail, x: int, y: int)
    ensures var v := View(info, window, t);
            (v.Some? ==> InRect(v.value, x, y)) <==>
              (window.Some? ==> InRect(window.value, x, y)) && InBounds(info, t, x, y)
  {
    if t.At? {
      ViewIsOverlap(info, window, t.up, x, y);
      assert Through(t, t);
      assert forall u | Through(t.up, u) :: Through(t, u);
    }
  }

  ghost predicate InBounds(info: Answers, t: Trail, x: int, y: int) {
    forall u | Through(t, u) :: Bounds(info, u).Some? ==> InRect(Bounds(info, u).value, x, y)
  }

  /** Whether a node, or one it is in but for the window, is not showing. */
  predicate Hides(info: Answers, t: Trail) {
    t.At? && t.up.At? && (Hides(info, t.up) || Told(info, t).hides)
  }

  /** That is so exactly when one of them says so. */
  lemma {:induction false} HidesExactly(info: Answers, t: Trail)
    ensures Hides(info, t) <==> exists u | Through(t, u) :: u.up.At? && Told(info, u).hides
  {
    if t.At? {
      HidesExactly(info, t.up);
      assert Through(t, t);
      assert forall u | Through(t.up, u) :: Through(t, u);
    }
  }

  /** A popup that says 0,0, not the window, whose place on the screen is known and the window's too. */
  predicate IsPopup(info: Answers, u: Trail) {
    u.At? && u.up.At? && var x := Told(info, u);
    x.popup && x.screen.Some? && FrameOf(info, u).Some?
    && x.window.Some? && x.window.value.x == 0 && x.window.value.y == 0
  }

  /** The window a trail comes from is where its places are measured from. */
  lemma {:induction false} FrameIs(info: Answers, t: Trail, w: Trail)
    requires Through(t, w) && w.up.Start?
    ensures FrameOf(info, t) == if Told(info, w).window.None? then None else Told(info, w).screen
  {
    if t != w {
      FrameIs(info, t.up, w);
    }
  }

  /** Bounds are as a node says them when no such popup is on the way to it. */
  lemma {:induction false} NoOffset(info: Answers, t: Trail)
    requires forall u | Through(t, u) :: !IsPopup(info, u)
    ensures OffsetOf(info, t) == (0, 0)
  {
    if t.At? {
      assert Through(t, t);
      assert forall u | Through(t.up, u) :: Through(t, u);
      NoOffset(info, t.up);
    }
  }

  /** Else they are moved by the place on the screen of the last one, from the window's. */
  lemma {:induction false} OffsetIs(info: Answers, t: Trail, u: Trail)
    requires Through(t, u) && IsPopup(info, u) && forall w | Through(t, w) && IsPopup(info, w) :: Through(u, w)
    ensures
      var a, f := Told(info, u).screen.value, FrameOf(info, u).value;
      OffsetOf(info, t) == (a.x - f.x, a.y - f.y)
  {
    if t != u {
      if IsPopup(info, t) {
        assert Through(t, t);
        NotBelow(t, u);
        NotBelow(u, t);
      }
      assert forall w | Through(t.up, w) :: Through(t, w);
      OffsetIs(info, t.up, u);
    }
  }

  lemma {:induction false} NotBelow(t: Trail, u: Trail)
    requires Through(t, u)
    ensures Depth(u) <= Depth(t) && (Depth(u) == Depth(t) ==> u == t)
  {
    if u != t {
      NotBelow(t.up, u);
    }
  }

  /** The printed nodes on the way, the first MAX_DEPTH of them. */
  function PathOf(info: Answers, t: Trail): (p: seq<string>)
    ensures |p| <= MAX_DEPTH
  {
    if t.Start? then []
    else
      var p := PathOf(info, t.up);
      if Shown(info, t) && |p| < MAX_DEPTH then p + [Told(info, t).said] else p
  }

  /** How many printed nodes there are from the window on. */
  function Printed(info: Answers, t: Trail): nat {
    if t.Start? then 0 else Printed(info, t.up) + if Shown(info, t) then 1 else 0
  }

  /** Each printed node on the way is said after those before it, the first MAX_DEPTH of them. */
  lemma {:induction false} PathIs(info: Answers, t: Trail)
    ensures |PathOf(info, t)| == Min(Printed(info, t), MAX_DEPTH)
    ensures forall u | Through(t, u) && Shown(info, u) && Printed(info, u) <= MAX_DEPTH ::
      Printed(info, u) <= |PathOf(info, t)| && PathOf(info, t)[Printed(info, u) - 1] == Told(info, u).said
  {
    if t.At? {
      PathIs(info, t.up);
      forall u | Through(t, u) && Shown(info, u) && Printed(info, u) <= MAX_DEPTH
        ensures Printed(info, u) <= |PathOf(info, t)| && PathOf(info, t)[Printed(info, u) - 1] == Told(info, u).said
      {
        if u != t {
          assert Through(t.up, u);
        }
      }
    }
  }

  /** What is in view of a node. */
  function InSight(info: Answers, window: Option<Rect>, t: Trail): Option<Rect>
    requires t.At?
  {
    var c := View(info, window, t);
    if Bounds(info, t).Some? && c.Some? && c.value.w > 0 && c.value.h > 0 then c else None
  }

  /** A node with a line of its own that is named so. */
  predicate Found(info: Answers, t: Trail) {
    t.At? && !Mute(info, t) && Shown(info, t) && Told(info, t).fits != Not
  }

  function HitOf(info: Answers, window: Option<Rect>, t: Trail): Hit
    requires t.At?
  {
    var x, p := Told(info, t), PathOf(info, t.up);
    Hit(Line(p, x.line, Bounds(info, t)), x.fits == Exactly, x.caption, Hides(info, t), x.disabled,
        Bounds(info, t).Some?, InSight(info, window, t))
  }

  // ---- What was read ----

  /** The nodes read, the last one outside. */
  datatype Log = Nothing | Read(before: Log, trail: Trail)

  function Count(read: Log): nat {
    if read.Nothing? then 0 else Count(read.before) + 1
  }

  /** What was read at some time. */
  predicate Early(was: Log, read: Log) {
    was == read || (read.Read? && Early(was, read.before))
  }

  lemma {:induction false} EarlyBoth(a: Log, b: Log, c: Log)
    requires Early(a, b) && Early(b, c)
    ensures Early(a, c) && Count(a) <= Count(b)
    decreases c, b
  {
    if b != c {
      EarlyBoth(a, b, c.before);
    } else if a != b {
      EarlyBoth(a, b.before, b.before);
    }
  }

  lemma {:induction false} EarlyOf(a: Log, b: Log, c: Log)
    requires Early(a, c) && Early(b, c) && Count(a) <= Count(b)
    ensures Early(a, b)
  {
    if b != c {
      if a == c {
        EarlyBoth(b, c.before, c);
      } else {
        EarlyOf(a, b, c.before);
      }
    }
  }

  /** The nodes found among those read. */
  function Finds(info: Answers, read: Log): seq<Trail> {
    if read.Nothing? then [] else FindsOn(info, Finds(info, read.before), read.trail)
  }

  function FindsOn(info: Answers, found: seq<Trail>, t: Trail): seq<Trail> {
    if Found(info, t) then found + [t] else found
  }

  /** What is kept of the nodes found. */
  ghost predicate HitsAre(info: Answers, window: Option<Rect>, hits: seq<Hit>, found: seq<Trail>) {
    |hits| == |found| && forall i | 0 <= i < |hits| :: found[i].At? && hits[i] == HitOf(info, window, found[i])
  }

  predicate WasRead(read: Log, t: Trail) {
    read.Read? && (read.trail == t || WasRead(read.before, t))
  }

  /** The nodes found are those read that are to be found. */
  lemma {:induction false} FindsAre(info: Answers, read: Log, t: Trail)
    ensures t in Finds(info, read) <==> WasRead(read, t) && Found(info, t)
  {
    if read.Read? {
      FindsAre(info, read.before, t);
    }
  }

  /** Who they say they are. */
  function Keys(info: Answers, read: Log): set<Key> {
    if read.Nothing? then {} else KeysOn(info, Keys(info, read.before), read.trail)
  }

  function KeysOn(info: Answers, keys: set<Key>, t: Trail): set<Key> {
    if t.Start? || Told(info, t).key.None? then keys else keys + {Told(info, t).key.value}
  }

  /** A node that does not say who it is, or was not read yet. */
  predicate IsNew(info: Answers, keys: set<Key>, t: Trail) {
    t.Start? || Told(info, t).key.None? || Told(info, t).key.value !in keys
  }

  /** Each was read by a trail from the window, and none that says who it is twice. */
  ghost predicate ReadOk(info: Answers, top: Node, read: Log) {
    read.Nothing? || (
      && ReadOk(info, top, read.before) && IsTrail(info, top, read.trail) && read.trail.last.at == Count(read.before)
      && IsNew(info, Keys(info, read.before), read.trail))
  }

  /** A node come to has been seen to: read on that way, or known from before. */
  ghost predicate Done(info: Answers, read: Log, t: Trail, a: Node, parent: string) {
    exists p | Early(p, read) :: SeenTo(info, read, p, t, Step(a, Count(p), parent))
  }

  ghost predicate SeenTo(info: Answers, read: Log, p: Log, t: Trail, s: Step) {
    var key := info.told(s.node, s.at).key;
    (key.Some? && key.value in Keys(info, p)) || Early(Read(p, At(t, s)), read)
  }

  /** All a node read lists has been seen to. */
  ghost predicate AllDone(info: Answers, read: Log, t: Trail)
    requires t.At?
  {
    forall a, parent | Lists(info, t, a, parent) :: Done(info, read, t, a, parent)
  }

  lemma DoneOn(info: Answers, read: Log, more: Log, t: Trail, a: Node, parent: string)
    requires Early(read, more) && Done(info, read, t, a, parent)
    ensures Done(info, more, t, a, parent)
  {
    var p :| Early(p, read) && SeenTo(info, read, p, t, Step(a, Count(p), parent));
    var q := Read(p, At(t, Step(a, Count(p), parent)));
    EarlyBoth(p, read, more);
    if Early(q, read) {
      EarlyBoth(q, read, more);
    }
    assert SeenTo(info, more, p, t, Step(a, Count(p), parent));
  }

  /** The first n listed by the node t leads to have been seen to. */
  ghost predicate FirstDone(info: Answers, read: Log, t: Trail, n: nat)
    requires t.At? && n <= |Told(info, t).children|
  {
    var children := Told(info, t).children;
    forall c | 0 <= c < n && children[c].Some? :: Done(info, read, t, children[c].value, Called(info, t))
  }

  lemma OneMoreDone(info: Answers, was: Log, read: Log, t: Trail, n: nat)
    requires t.At? && n < |Told(info, t).children| && Early(was, read) && FirstDone(info, was, t, n)
    requires var c := Told(info, t).children[n]; c.Some? ==> Done(info, read, t, c.value, Called(info, t))
    ensures FirstDone(info, read, t, n + 1)
  {
    var children := Told(info, t).children;
    forall c | 0 <= c < n && children[c].Some?
      ensures Done(info, read, t, children[c].value, Called(info, t))
    {
      DoneOn(info, was, read, t, children[c].value, Called(info, t));
    }
  }

  /** What says no more than what it is in lists nothing that is seen to. */
  lemma MuteDone(info: Answers, read: Log)
    requires read.Read? && read.trail.At? && Mute(info, read.trail)
    ensures AllDone(info, read, read.trail) && DoneFrom(info, read, Count(read))
    ensures Finds(info, read) == Finds(info, read.before)
  {
    DoneNone(info, read);
  }

  lemma ListedDone(info: Answers, read: Log, t: Trail, n: nat)
    requires t.At? && n == Min(|Told(info, t).children|, MAX_CHILDREN) && FirstDone(info, read, t, n)
    ensures AllDone(info, read, t)
  {
    forall a: Node, parent: string | Lists(info, t, a, parent)
      ensures Done(info, read, t, a, parent)
    {
      var c :| 0 <= c < n && Told(info, t).children[c] == Some(a);
    }
  }

  lemma AllDoneOn(info: Answers, read: Log, more: Log, t: Trail)
    requires t.At? && Early(read, more) && AllDone(info, read, t)
    ensures AllDone(info, more, t)
  {
    forall a, parent | Lists(info, t, a, parent)
      ensures Done(info, more, t, a, parent)
    {
      DoneOn(info, read, more, t, a, parent);
    }
  }

  /** Of the nodes read from the n-th on, everything they list has been seen to. */
  ghost predicate DoneFrom(info: Answers, read: Log, n: nat) {
    forall l | Since(l, read, n) :: AllDone(info, read, l.trail)
  }

  predicate Since(l: Log, read: Log, n: nat) {
    Early(l, read) && n < Count(l) && l.trail.At?
  }

  lemma DoneBoth(info: Answers, read: Log, more: Log, n: nat)
    requires Early(read, more) && DoneFrom(info, read, n) && DoneFrom(info, more, Count(read))
    ensures DoneFrom(info, more, n)
  {
    forall l | Since(l, more, n)
      ensures AllDone(info, more, l.trail)
    {
      if Count(l) <= Count(read) {
        EarlyOf(l, read, more);
        assert Since(l, read, n);
        AllDoneOn(info, read, more, l.trail);
      } else {
        assert Since(l, more, Count(read));
      }
    }
  }

  lemma DoneBefore(info: Answers, read: Log, t: Trail, s: Step)
    requires info.told(s.node, s.at).key.Some? && info.told(s.node, s.at).key.value in Keys(info, read)
      && s.at == Count(read)
    ensures Done(info, read, t, s.node, s.parent)
  {
    assert SeenTo(info, read, read, t, s);
  }

  lemma DoneBy(info: Answers, was: Log, read: Log, t: Trail, s: Step)
    requires Early(Read(was, At(t, s)), read) && s.at == Count(was)
    ensures Early(was, read) && Done(info, read, t, s.node, s.parent)
  {
    EarlyBoth(was, Read(was, At(t, s)), read);
    assert SeenTo(info, read, was, t, s);
  }

  lemma DoneNone(info: Answers, read: Log)
    ensures DoneFrom(info, read, Count(read))
  {
    forall l | Since(l, read, Count(read))
      ensures false
    {
      EarlyBoth(l, read, read);
    }
  }

  /** With one node more, and all it lists seen to. */
  lemma DoneOne(info: Answers, was: Log, t: Trail, read: Log)
    requires Early(Read(was, t), read) && (t.At? ==> AllDone(info, read, t)) && DoneFrom(info, read, Count(was) + 1)
    ensures DoneFrom(info, read, Count(was))
  {
    forall l | Since(l, read, Count(was))
      ensures AllDone(info, read, l.trail)
    {
      if Count(l) == Count(was) + 1 {
        EarlyOf(l, Read(was, t), read);
        EarlySame(l, Read(was, t));
      } else {
        assert Since(l, read, Count(was) + 1);
      }
    }
  }

  lemma EarlySame(a: Log, b: Log)
    requires Early(a, b) && Count(a) == Count(b)
    ensures a == b
  {
    if a != b {
      EarlyBoth(a, b.before, b.before);
    }
  }

  // ---- The walk ----

  class Walker {
    const info: Answers
    const top: Node
    const window: Option<Rect>
    var nodes: nat
    var truncated: bool
    var hidden: bool
    var clip: Option<Rect>
    var offX: int
    var offY: int
    var frame: Option<Rect>
    var path: seq<string>
    var seen: set<Key>
    var hits: seq<Hit>
    ghost var read: Log

    /** What the walk holds for a node comes from the nodes it came through. */
    ghost predicate Holds(t: Trail)
      reads this`clip, this`hidden, this`offX, this`offY, this`frame
    {
      && clip == View(info, window, t) && hidden == Hides(info, t) && (offX, offY) == OffsetOf(info, t)
      && (t.At? ==> frame == FrameOf(info, t))
    }

    /** What it holds of the nodes read. */
    ghost predicate OfRead()
      reads this`nodes, this`read, this`seen
    {
      nodes == Count(read) <= BUDGET && ReadOk(info, top, read) && seen == Keys(info, read)
    }

    /** Between the children of the node that t leads to. */
    ghost predicate Valid(t: Trail)
      reads this
    {
      Holds(t) && OfRead() && path == PathOf(info, t) && HitsAre(info, window, hits, Finds(info, read))
    }

    constructor (info: Answers, top: Node, window: Option<Rect>)
      ensures Valid(Start) && this.info == info && this.top == top && this.window == window && read.Nothing?
        && frame == None
    {
      this.info, this.top, this.window := info, top, window;
      nodes, truncated, hidden, clip, offX, offY, frame := 0, false, false, window, 0, 0, None;
      path, seen, hits, read := [], {}, [], Nothing;
    }

    /** A node's bounds in the window: a popup's contents are measured from the popup. */
    method Extents(x: Info, depth: nat, ghost t: Trail) returns (b: Option<Rect>)
      requires t.At? && x == Told(info, t) && depth + 1 == Depth(t)
      requires (offX, offY) == OffsetOf(info, t.up) && frame == if t.up.Start? then None else FrameOf(info, t.up)
      modifies this`offX, this`offY, this`frame
      ensures (offX, offY) == OffsetOf(info, t) && frame == FrameOf(info, t)
      ensures (if b.Some? && b.value.w > 0 && b.value.h > 0 then b else None) == Bounds(info, t)
    {
      if x.window.None? {
        return None;
      }
      var r := x.window.value;
      if depth == 0 {
        frame, offX, offY := x.screen, 0, 0;
      } else if r.x == 0 && r.y == 0 && frame.Some? && x.popup && x.screen.Some? {
        offX, offY := x.screen.value.x - frame.value.x, x.screen.value.y - frame.value.y;
      }
      b := Some(Rect(r.x + offX, r.y + offY, r.w, r.h));
    }

    /** Coming to a node: its bounds cut what is in view, and it may hide what is under it. */
    method Enter(x: Info, depth: nat, ghost t: Trail) returns (b: Option<Rect>, vis: Option<Rect>)
      requires t.At? && Holds(t.up) && (t.up.Start? ==> frame.None?) && x == Told(info, t) && depth + 1 == Depth(t)
      modifies this`offX, this`offY, this`frame, this`clip, this`hidden
      ensures Holds(t) && b == Bounds(info, t) && vis == InSight(info, window, t)
    {
      var e := Extents(x, depth, t);
      b, vis := None, None;
      if e.Some? && e.value.w > 0 && e.value.h > 0 {
        b := e;
        var v := if clip.Some? then Meet(b.value, clip.value) else b.value;
        if v.w > 0 && v.h > 0 {
          vis := Some(v);
        }
        clip := Some(v);
      }
      if depth > 0 && x.hides {
        hidden := true;
      }
    }

    /** A node with a line of its own: found, when it is named so, and on the path of what is under it when
        there is room. */
    method Print(x: Info, b: Option<Rect>, vis: Option<Rect>, ghost t: Trail, ghost found: seq<Trail>)
      returns (pushed: bool)
      requires t.At? && x == Told(info, t) && Shown(info, t) && !Mute(info, t)
      requires b == Bounds(info, t) && vis == InSight(info, window, t) && hidden == Hides(info, t)
      requires path == PathOf(info, t.up) && HitsAre(info, window, hits, found)
      modifies this`hits, this`path
      ensures HitsAre(info, window, hits, FindsOn(info, found, t))
      ensures path == PathOf(info, t) && path == if pushed then old(path) + [x.said] else old(path)
    {
      if x.fits != Not {
        hits := hits + [Hit(Line(path, x.line, b), x.fits == Exactly, x.caption, hidden, x.disabled, b.Some?, vis)];
      }
      pushed := |path| < MAX_DEPTH;
      if pushed {
        path := path + [x.said];
      }
    }

    /** A node, come to through t, and what is under it, each once, until the budget is spent: then the walk
        is back where it was, and unless the budget is spent everything listed by what was read has been
        seen to. */
    method Walk(a: Node, depth: nat, parent: string, ghost t: Trail)
      requires Valid(t) && Comes(t, a, depth, parent)
      modifies this
      ensures Valid(t) && Early(old(read), read) && old(nodes) <= nodes
      ensures offX == old(offX) && offY == old(offY) && hidden == old(hidden) && clip == old(clip) && path == old(path)
      ensures nodes < BUDGET ==> Done(info, read, t, a, parent) && DoneFrom(info, read, Count(old(read)))
      ensures t.Start? && nodes < BUDGET ==> read.Read?
      decreases BUDGET - nodes, 1
    {
      if nodes >= BUDGET {
        truncated := true;
        return;
      }
      var x := info.told(a, nodes);
      if x.key.Some? && x.key.value in seen {
        DoneBefore(info, read, t, Step(a, nodes, parent));
        DoneNone(info, read);
        return;
      }
      ReadNode(x, depth, Step(a, nodes, parent), t);
    }

    /** A node that was not read before, read; and what is under it. */
    method ReadNode(x: Info, depth: nat, s: Step, ghost t: Trail)
      requires Valid(t) && Comes(t, s.node, depth, s.parent) && s.at == nodes < BUDGET && x == info.told(s.node, s.at)
      requires x.key.Some? ==> x.key.value !in seen
      modifies this
      ensures Valid(t) && Early(old(read), read) && old(nodes) <= nodes && read.Read?
      ensures nodes < BUDGET ==> Done(info, read, t, s.node, s.parent) && DoneFrom(info, read, Count(old(read)))
      decreases BUDGET - nodes, 0
    {
      ghost var was, u := read, At(t, s);
      seen := if x.key.Some? then seen + {x.key.value} else seen;
      nodes, read := nodes + 1, Read(read, u);
      Visit(x, depth, s, u);
      EarlyBoth(was, Read(was, u), read);
      if nodes < BUDGET {
        DoneBy(info, was, read, t, s);
        DoneOne(info, was, u, read);
      }
    }

    /** A node just read, and what is under it; a popup's offset, what is in view and what hides it hold no
        further. */
    method Visit(x: Info, depth: nat, s: Step, ghost t: Trail)
      requires t.At? && Holds(t.up) && OfRead() && IsTrail(info, top, t) && (t.up.Start? ==> frame.None?)
      requires x == Told(info, t) && s == t.last && depth + 1 == Depth(t) && read.Read? && read.trail == t
      requires path == PathOf(info, t.up) && HitsAre(info, window, hits, Finds(info, read.before))
      modifies this
      ensures Valid(t.up) && Early(old(read), read) && old(nodes) <= nodes
      ensures nodes < BUDGET ==> AllDone(info, read, t) && DoneFrom(info, read, Count(old(read)))
      decreases BUDGET - nodes, 5
    {
      var ox, oy, wasHidden, wasClip := offX, offY, hidden, clip;
      var b, vis := Enter(x, depth, t);
      if info.repeats(s.node, s.at, s.parent) {
        MuteDone(info, read);
      } else {
        Below(x, depth, s, b, vis, t);
      }
      offX, offY, hidden, clip := ox, oy, wasHidden, wasClip;
    }

    /** A node's own line, and its children; what it put on the path comes off it again. */
    method Below(x: Info, depth: nat, s: Step, b: Option<Rect>, vis: Option<Rect>, ghost t: Trail)
      requires t.At? && Holds(t) && OfRead() && IsTrail(info, top, t) && !Mute(info, t)
      requires x == Told(info, t) && s == t.last && depth + 1 == Depth(t) && read.Read? && read.trail == t
      requires b == Bounds(info, t) && vis == InSight(info, window, t)
      requires path == PathOf(info, t.up) && HitsAre(info, window, hits, Finds(info, read.before))
      modifies this
      ensures Holds(t) && OfRead() && path == old(path) && HitsAre(info, window, hits, Finds(info, read))
      ensures Early(old(read), read) && old(nodes) <= nodes
      ensures nodes < BUDGET ==> AllDone(info, read, t) && DoneFrom(info, read, Count(old(read)))
      decreases BUDGET - nodes, 4
    {
      var printed, pushed := info.printed(s.node, s.at, s.parent), false;
      if printed {
        pushed := Print(x, b, vis, t, Finds(info, read.before));
      }
      WalkChildren(x.children, depth + 1, if printed then x.called else s.parent, t);
      if |x.children| > MAX_CHILDREN {
        truncated := true;
      }
      if pushed {
        path := path[..|path| - 1];
      }
    }

    method WalkChildren(children: seq<Option<Node>>, depth: nat, parent: string, ghost t: Trail)
      requires Valid(t) && t.At? && depth == Depth(t) && IsTrail(info, top, t) && t.last.at < nodes
      requires children == Told(info, t).children && !Mute(info, t) && parent == Called(info, t)
      modifies this
      ensures Valid(t) && Early(old(read), read) && old(nodes) <= nodes
      ensures nodes < BUDGET ==> AllDone(info, read, t) && DoneFrom(info, read, Count(old(read)))
      decreases BUDGET - nodes, 3
    {
      ghost var was := read;
      DoneNone(info, read);
      var i := 0;
      while i < |children| && i < MAX_CHILDREN && nodes < BUDGET
        invariant 0 <= i <= Min(|children|, MAX_CHILDREN) && Valid(t) && Early(was, read) && old(nodes) <= nodes
        invariant nodes < BUDGET ==> DoneFrom(info, read, Count(was)) && FirstDone(info, read, t, i)
      {
        WalkChild(children[i], depth, parent, t, i, was);
        i := i + 1;
      }
      if nodes < BUDGET {
        ListedDone(info, read, t, i);
      }
    }

    /** The i-th of a node's children, when it is there; `since` is what was read before the first. */
    method WalkChild(child: Option<Node>, depth: nat, parent: string, ghost t: Trail, ghost i: nat, ghost since: Log)
      requires Valid(t) && t.At? && depth == Depth(t) && IsTrail(info, top, t) && t.last.at < nodes < BUDGET
      requires i < Min(|Told(info, t).children|, MAX_CHILDREN) && child == Told(info, t).children[i]
      requires !Mute(info, t) && parent == Called(info, t) && Early(since, read)
      requires DoneFrom(info, read, Count(since)) && FirstDone(info, read, t, i)
      modifies this
      ensures Valid(t) && Early(since, read) && old(nodes) <= nodes
      ensures nodes < BUDGET ==> DoneFrom(info, read, Count(since)) && FirstDone(info, read, t, i + 1)
      decreases BUDGET - nodes, 2
    {
      if child.Some? {
        ghost var was := read;
        Walk(child.value, depth, parent, t);
        EarlyBoth(since, was, read);
        if nodes < BUDGET {
          DoneBoth(info, was, read, Count(since));
          OneMoreDone(info, was, read, t, i);
        }
      }
    }

    /** The whole tree under a window, and the node in it to click: the index-th in view, or the only one. */
    method Click(index: nat, layerX: int, layerY: int) returns (r: Picked)
      requires Valid(Start) && read.Nothing? && frame.None?
      modifies this
      ensures Valid(Start) && r == Pick(hits, index, layerX, layerY)
      ensures r.Point? ==> SomeClicked(info, top, window, read, hits, index, r.x - layerX, r.y - layerY, r.line)
      ensures nodes < BUDGET ==> read.Read? && DoneFrom(info, read, 0)
    {
      Walk(top, 0, "", Start);
      r := Picking(hits, index, layerX, layerY);
      PointIsInView(info, top, window, read, hits, index, layerX, layerY, r);
    }

    /** A node the walk comes to: the window, or one listed by the node it is at. */
    ghost predicate Comes(t: Trail, a: Node, depth: nat, parent: string)
      reads this
    {
      && depth == Depth(t)
      && if t.Start? then a == top && parent == "" && read.Nothing? && frame.None?
         else IsTrail(info, top, t) && t.last.at < nodes && Lists(info, t, a, parent)
    }
  }

  // ---- The choice of the point ----

  /** What the choice comes to: a point, or why there is none. */
  datatype Picked =
    Nowhere | Several(lines: seq<Line>) | NotInView | Disabled(line: Line) | Point(x: int, y: int, line: Line)

  predicate AnyExact(hits: seq<Hit>) {
    exists h | h in hits :: h.exact
  }

  /** Whether a node found is one of those meant: the exact ones, when there are any. */
  predicate Meant(h: Hit, exact: bool) {
    h.exact || !exact
  }

  predicate AnyOther(hits: seq<Hit>) {
    exists h | h in hits :: Meant(h, AnyExact(hits)) && !h.caption
  }

  /** Whether it can be clicked: in view, and no label when there are others. */
  predicate CanBe(h: Hit, exact: bool, other: bool) {
    Meant(h, exact) && !(other && h.caption) && !h.hidden && h.vis.Some?
  }

  /** Those of the hits that can be. */
  function InView(hits: seq<Hit>, exact: bool, other: bool): (v: seq<Hit>)
    ensures forall k | 0 <= k < |v| :: CanBe(v[k], exact, other) && v[k] in hits
  {
    if hits == [] then []
    else
      InView(hits[..|hits| - 1], exact, other)
      + if CanBe(hits[|hits| - 1], exact, other) then [hits[|hits| - 1]] else []
  }

  function Lines(v: seq<Hit>): seq<Line> {
    seq(|v|, i requires 0 <= i < |v| => v[i].line)
  }

  function Pointed(h: Hit, layerX: int, layerY: int): Picked
    requires h.vis.Some?
  {
    if h.disabled then Disabled(h.line)
    else Point(h.vis.value.x + h.vis.value.w / 2 + layerX, h.vis.value.y + h.vis.value.h / 2 + layerY, h.line)
  }

  /** The choice among those in view; none: whether nothing is named so at all. */
  function Choice(v: seq<Hit>, none: bool, index: nat, layerX: int, layerY: int): Picked
    requires forall k | 0 <= k < |v| :: v[k].vis.Some?
  {
    if none then Nowhere
    else if index > |v| then Several(Lines(v))
    else if index > 0 then Pointed(v[index - 1], layerX, layerY)
    else if |v| == 1 then Pointed(v[0], layerX, layerY)
    else if |v| > 1 then Several(Lines(v))
    else NotInView
  }

  function Pick(hits: seq<Hit>, index: nat, layerX: int, layerY: int): Picked {
    Choice(InView(hits, AnyExact(hits), AnyOther(hits)), hits == [], index, layerX, layerY)
  }

  // ---- The nodes that can be clicked ----

  /** Of the nodes found the i-th can be clicked: it and all it is in but the window are showing; it has bounds, and
      some point of the window is in them and in the bounds of all it is in; its name is the one looked for, unless none
      found has that; and it is no label, unless all whose names go as well are. */
  ghost predicate Clickable(info: Answers, window: Option<Rect>, found: seq<Trail>, i: nat)
    requires i < |found| && forall j | 0 <= j < |found| :: found[j].At?
  {
    var t := found[i];
    && (forall u | Through(t, u) && u.up.At? :: !Told(info, u).hides)
    && Bounds(info, t).Some? && HasPoint(info, window, t)
    && (Told(info, t).fits == Exactly || forall j | 0 <= j < |found| :: Told(info, found[j]).fits != Exactly)
    && (!Told(info, t).caption
        || forall j | 0 <= j < |found| && (Told(info, t).fits == Exactly ==> Told(info, found[j]).fits == Exactly) ::
             Told(info, found[j]).caption)
  }

  ghost predicate HasPoint(info: Answers, window: Option<Rect>, t: Trail) {
    exists x, y :: (window.Some? ==> InRect(window.value, x, y)) && InBounds(info, t, x, y)
  }

  lemma SightIsPoint(info: Answers, window: Option<Rect>, t: Trail)
    requires t.At?
    ensures InSight(info, window, t).Some? <==> Bounds(info, t).Some? && HasPoint(info, window, t)
  {
    forall x, y
      ensures var v := View(info, window, t);
        (v.Some? ==> InRect(v.value, x, y)) <==>
          (window.Some? ==> InRect(window.value, x, y)) && InBounds(info, t, x, y)
    {
      ViewIsOverlap(info, window, t, x, y);
    }
    if Bounds(info, t).Some? {
      var v := View(info, window, t).value;
      assert v.w > 0 && v.h > 0 ==> InRect(v, v.x, v.y);
    }
  }

  /** What is kept of the nodes found says so. */
  lemma UsableByNodes(info: Answers, window: Option<Rect>, hits: seq<Hit>, found: seq<Trail>, i: nat)
    requires HitsAre(info, window, hits, found) && i < |hits|
    ensures Usable(hits, i) <==> Clickable(info, window, found, i)
  {
    SightIsPoint(info, window, found[i]);
    HidesExactly(info, found[i]);
  }

  // ---- The choice, by the hits alone ----

  /** Hit i can be clicked: showing and in view; an exact match, unless nothing is one; and no label, unless all that
      match as well as it are. */
  predicate Usable(hits: seq<Hit>, i: nat)
    requires i < |hits|
  {
    && !hits[i].hidden && hits[i].vis.Some?
    && (hits[i].exact || NoneExact(hits)) && (!hits[i].caption || OnlyLabels(hits, hits[i].exact))
  }

  predicate NoneExact(hits: seq<Hit>) {
    forall j | 0 <= j < |hits| :: !hits[j].exact
  }

  /** All hits, or all that are exact, are labels. */
  predicate OnlyLabels(hits: seq<Hit>, exact: bool) {
    forall j | 0 <= j < |hits| && (exact ==> hits[j].exact) :: hits[j].caption
  }

  /** How many of the first n can be. */
  function Ahead(hits: seq<Hit>, n: nat): nat
    requires n <= |hits|
  {
    if n == 0 then 0 else Ahead(hits, n - 1) + if Usable(hits, n - 1) then 1 else 0
  }

  lemma UsableIs(hits: seq<Hit>, i: nat)
    requires i < |hits|
    ensures Usable(hits, i) <==> CanBe(hits[i], AnyExact(hits), AnyOther(hits))
  {
  }

  lemma {:induction false} AheadGrows(hits: seq<Hit>, i: nat, n: nat)
    requires i < n <= |hits|
    ensures Ahead(hits, i) + (if Usable(hits, i) then 1 else 0) <= Ahead(hits, n)
  {
    if i < n - 1 {
      AheadGrows(hits, i, n - 1);
    }
  }

  /** The list gone through has those that can be, each where as many are before it. */
  lemma {:induction false} InViewAre(hits: seq<Hit>, n: nat)
    requires n <= |hits|
    ensures |InView(hits[..n], AnyExact(hits), AnyOther(hits))| == Ahead(hits, n)
    ensures forall i | 0 <= i < n && Usable(hits, i) ::
      Ahead(hits, i) < Ahead(hits, n) && InView(hits[..n], AnyExact(hits), AnyOther(hits))[Ahead(hits, i)] == hits[i]
  {
    if n > 0 {
      InViewAre(hits, n - 1);
      UsableIs(hits, n - 1);
      assert hits[..n][..n - 1] == hits[..n - 1];
    }
  }

  /** The hit an index asks for: the index-th of those that can be clicked, or, without an index, the only one. */
  predicate Chosen(hits: seq<Hit>, index: nat, i: nat) {
    && i < |hits| && Usable(hits, i)
    && if index > 0 then Ahead(hits, i) + 1 == index else Ahead(hits, |hits|) == 1
  }

  /** Which hit is clicked and where: the one asked for, in the middle of what is in view of it, unless it is
      disabled. */
  lemma PickChosen(hits: seq<Hit>, index: nat, i: nat, layerX: int, layerY: int)
    requires Chosen(hits, index, i)
    ensures
      var v := hits[i].vis.value;
      Pick(hits, index, layerX, layerY)
        == if hits[i].disabled then Disabled(hits[i].line)
           else Point(v.x + v.w / 2 + layerX, v.y + v.h / 2 + layerY, hits[i].line)
  {
    PickIs(hits, index, i, layerX, layerY);
  }

  lemma PickIs(hits: seq<Hit>, index: nat, i: nat, layerX: int, layerY: int)
    requires Chosen(hits, index, i)
    ensures Pick(hits, index, layerX, layerY) == Pointed(hits[i], layerX, layerY)
  {
    var v := InView(hits, AnyExact(hits), AnyOther(hits));
    assert |v| == Ahead(hits, |hits|) && v[Ahead(hits, i)] == hits[i] by {
      InViewAre(hits, |hits|);
      assert hits[..|hits|] == hits;
    }
    AheadGrows(hits, i, |hits|);
  }

  /** And why there is none: no hit at all; none that can be clicked, or, without an index, more than one; or fewer than
      the index. */
  lemma PickExactly(hits: seq<Hit>, index: nat, layerX: int, layerY: int)
    ensures Pick(hits, index, layerX, layerY).Nowhere? <==> hits == []
    ensures Pick(hits, index, layerX, layerY).NotInView? <==> hits != [] && index == 0 && Ahead(hits, |hits|) == 0
    ensures Pick(hits, index, layerX, layerY).Several? <==>
      hits != [] && if index == 0 then Ahead(hits, |hits|) > 1 else index > Ahead(hits, |hits|)
    ensures Pick(hits, index, layerX, layerY).Point? || Pick(hits, index, layerX, layerY).Disabled? <==>
      exists i: nat :: Chosen(hits, index, i)
  {
    InViewAre(hits, |hits|);
    assert hits[..|hits|] == hits;
    if i: nat :| Chosen(hits, index, i) {
      PickIs(hits, index, i, layerX, layerY);
    } else if hits != [] {
      NoneChosen(hits, index);
    }
  }

  /** Then those there are are told, in order. */
  lemma PickTold(hits: seq<Hit>, index: nat, layerX: int, layerY: int)
    requires Pick(hits, index, layerX, layerY).Several?
    ensures TellsAll(hits, Pick(hits, index, layerX, layerY).lines)
  {
    InViewAre(hits, |hits|);
    assert hits[..|hits|] == hits;
  }

  lemma NoneChosen(hits: seq<Hit>, index: nat)
    requires !exists i: nat :: Chosen(hits, index, i)
    ensures if index == 0 then Ahead(hits, |hits|) != 1 else Ahead(hits, |hits|) < index
  {
    var n := Ahead(hits, |hits|);
    if n > 0 && (if index == 0 then n == 1 else index <= n) {
      var i := NthUsable(hits, |hits|, if index == 0 then 0 else index - 1);
      assert Chosen(hits, index, i);
    }
  }

  /** The lines of all hits that can be clicked, in order. */
  predicate TellsAll(hits: seq<Hit>, lines: seq<Line>) {
    && |lines| == Ahead(hits, |hits|)
    && forall i | 0 <= i < |hits| && Usable(hits, i) ::
         Ahead(hits, i) < |lines| && lines[Ahead(hits, i)] == hits[i].line
  }

  /** There is an m-th of those that can be. */
  lemma {:induction false} NthUsable(hits: seq<Hit>, n: nat, m: nat) returns (i: nat)
    requires n <= |hits| && m < Ahead(hits, n)
    ensures i < n && Usable(hits, i) && Ahead(hits, i) == m
  {
    if m < Ahead(hits, n - 1) {
      i := NthUsable(hits, n - 1, m);
    } else {
      i := n - 1;
    }
  }

  method FindExact(hits: seq<Hit>) returns (exact: bool)
    ensures exact == AnyExact(hits)
  {
    exact := false;
    for i := 0 to |hits|
      invariant exact == exists j | 0 <= j < i :: hits[j].exact
    {
      exact := exact || hits[i].exact;
    }
  }

  method FindMeant(hits: seq<Hit>, exact: bool) returns (meant: bool, other: bool)
    requires exact == AnyExact(hits)
    ensures meant == (hits != []) && other == AnyOther(hits)
  {
    meant, other := false, false;
    for i := 0 to |hits|
      invariant meant == exists j | 0 <= j < i :: Meant(hits[j], exact)
      invariant other == exists j | 0 <= j < i :: Meant(hits[j], exact) && !hits[j].caption
    {
      if Meant(hits[i], exact) {
        meant, other := true, other || !hits[i].caption;
      }
    }
    SomeMeant(hits);
  }

  /** The choice made by going through the hits. */
  method Picking(hits: seq<Hit>, index: nat, layerX: int, layerY: int) returns (r: Picked)
    ensures r == Pick(hits, index, layerX, layerY)
  {
    var exact := FindExact(hits);
    var meant, other := FindMeant(hits, exact);
    var v := [];
    for i := 0 to |hits|
      invariant v == InView(hits[..i], exact, other)
    {
      assert hits[..i + 1][..i] == hits[..i];
      if CanBe(hits[i], exact, other) {
        v := v + [hits[i]];
      }
    }
    assert hits[..|hits|] == hits;
    r := Choice(v, !meant, index, layerX, layerY);
  }

  /** When anything is named so, something is meant. */
  lemma SomeMeant(hits: seq<Hit>)
    ensures hits == [] || exists j | 0 <= j < |hits| :: Meant(hits[j], AnyExact(hits))
  {
    if hits != [] && !AnyExact(hits) {
      assert Meant(hits[0], false);
    }
  }

  /** A node read is clicked at a point: it is found, enabled and showing, an exact match when there is one,
      the line is its own, and the point is in the window, in its bounds, and in the bounds of every node it
      was come to through. */
  ghost predicate Clicked(info: Answers, top: Node, window: Option<Rect>, hits: seq<Hit>, t: Trail, x: int, y: int,
                          line: Line) {
    && IsTrail(info, top, t) && Found(info, t) && line == HitOf(info, window, t).line
    && !Told(info, t).disabled && (Told(info, t).fits == Exactly || !AnyExact(hits))
    && (window.Some? ==> InRect(window.value, x, y)) && Bounds(info, t).Some?
    && InBounds(info, t, x, y)
    && (forall u | Through(t, u) :: u.up.At? ==> !Told(info, u).hides)
  }

  /** The node clicked is the one the index asks for among those found. */
  ghost predicate SomeClicked(info: Answers, top: Node, window: Option<Rect>, read: Log, hits: seq<Hit>, index: nat,
                              x: int, y: int, line: Line) {
    exists i: nat | Chosen(hits, index, i) && i < |Finds(info, read)| ::
      WasRead(read, Finds(info, read)[i]) && Clicked(info, top, window, hits, Finds(info, read)[i], x, y, line)
  }

  lemma {:induction false} ShowingAll(info: Answers, t: Trail, u: Trail)
    requires !Hides(info, t) && Through(t, u) && u.up.At?
    ensures !Told(info, u).hides
  {
    if u != t {
      ShowingAll(info, t.up, u);
    }
  }

  lemma {:induction false} ReadAll(info: Answers, top: Node, read: Log, t: Trail)
    requires ReadOk(info, top, read) && WasRead(read, t)
    ensures IsTrail(info, top, t)
  {
    if t != read.trail {
      ReadAll(info, top, read.before, t);
    }
  }

  lemma PointIsInView(info: Answers, top: Node, window: Option<Rect>, read: Log, hits: seq<Hit>, index: nat,
                      layerX: int, layerY: int, p: Picked)
    requires ReadOk(info, top, read) && HitsAre(info, window, hits, Finds(info, read))
    requires p == Pick(hits, index, layerX, layerY)
    ensures p.Point? ==> SomeClicked(info, top, window, read, hits, index, p.x - layerX, p.y - layerY, p.line)
  {
    if p.Point? {
      var i := PickedIs(hits, index, layerX, layerY);
      HitIsClicked(info, top, window, read, hits, i, p.x - layerX, p.y - layerY);
    }
  }

  lemma HitIsClicked(info: Answers, top: Node, window: Option<Rect>, read: Log, hits: seq<Hit>, i: nat, x: int, y: int)
    requires ReadOk(info, top, read) && HitsAre(info, window, hits, Finds(info, read)) && i < |hits|
    requires CanBe(hits[i], AnyExact(hits), AnyOther(hits)) && !hits[i].disabled
    requires var v := hits[i].vis.value; x == v.x + v.w / 2 && y == v.y + v.h / 2
    ensures WasRead(read, Finds(info, read)[i])
    ensures Clicked(info, top, window, hits, Finds(info, read)[i], x, y, hits[i].line)
  {
    var t := Finds(info, read)[i];
    FindsAre(info, read, t);
    ReadAll(info, top, read, t);
    ClickedAt(info, top, window, hits, t, hits[i], x, y);
  }

  lemma PickedIs(hits: seq<Hit>, index: nat, layerX: int, layerY: int) returns (i: nat)
    requires Pick(hits, index, layerX, layerY).Point?
    ensures Chosen(hits, index, i) && CanBe(hits[i], AnyExact(hits), AnyOther(hits)) && !hits[i].disabled
    ensures Pick(hits, index, layerX, layerY) == Pointed(hits[i], layerX, layerY)
  {
    PickExactly(hits, index, layerX, layerY);
    i :| Chosen(hits, index, i);
    PickIs(hits, index, i, layerX, layerY);
    UsableIs(hits, i);
  }

  lemma ClickedAt(info: Answers, top: Node, window: Option<Rect>, hits: seq<Hit>, t: Trail, h: Hit, x: int, y: int)
    requires IsTrail(info, top, t) && Found(info, t) && h == HitOf(info, window, t)
    requires CanBe(h, AnyExact(hits), AnyOther(hits)) && !h.disabled
    requires x == h.vis.value.x + h.vis.value.w / 2 && y == h.vis.value.y + h.vis.value.h / 2
    ensures Clicked(info, top, window, hits, t, x, y, h.line)
  {
    MiddleIsIn(info, window, t);
    forall u | Through(t, u) && u.up.At?
      ensures !Told(info, u).hides
    {
      ShowingAll(info, t, u);
    }
  }

  lemma MiddleIsIn(info: Answers, window: Option<Rect>, t: Trail)
    requires t.At? && InSight(info, window, t).Some?
    ensures var v := InSight(info, window, t).value;
            var x, y := v.x + v.w / 2, v.y + v.h / 2;
            (window.Some? ==> InRect(window.value, x, y)) && Bounds(info, t).Some? && InBounds(info, t, x, y)
  {
    var v := InSight(info, window, t).value;
    ViewIsOverlap(info, window, t, v.x + v.w / 2, v.y + v.h / 2);
  }

  /** With one node in view that is meant and enabled, it is clicked: the middle of it, as far as it is in
      view. */
  lemma OneInView(hits: seq<Hit>, i: nat, layerX: int, layerY: int)
    requires i < |hits| && !hits[i].disabled && hits[i].vis.Some?
    requires forall j | 0 <= j < |hits| :: CanBe(hits[j], AnyExact(hits), AnyOther(hits)) == (j == i)
    ensures Pick(hits, 0, layerX, layerY) == Pointed(hits[i], layerX, layerY) && Pick(hits, 0, layerX, layerY).Point?
  {
    OneIs(hits, i, AnyExact(hits), AnyOther(hits));
  }

  lemma {:induction false} OneIs(hits: seq<Hit>, i: nat, exact: bool, other: bool)
    requires forall j | 0 <= j < |hits| :: CanBe(hits[j], exact, other) == (j == i)
    ensures InView(hits, exact, other) == if i < |hits| then [hits[i]] else []
  {
    if hits != [] {
      OneIs(hits[..|hits| - 1], i, exact, other);
    }
  }
}
