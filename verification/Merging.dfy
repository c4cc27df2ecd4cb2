/** Merging the parts of a difference mask (share/check.py: merge, regions). */
module Merging {

  /** A rectangle by its corners: x0,y0 its first pixel, x1,y1 one past its last. */
  datatype Rect = Rect(x0: int, y0: int, x1: int, y1: int)

  /** A rectangle and the pixels counted in it. */
  datatype Blob = Blob(r: Rect, area: int)

  predicate WellFormed(r: Rect) {
    r.x0 <= r.x1 && r.y0 <= r.y1
  }

  predicate Near(a: Rect, b: Rect, gap: int) {
    && b.x0 <= a.x1 + gap && a.x0 <= b.x1 + gap
    && b.y0 <= a.y1 + gap && a.y0 <= b.y1 + gap
  }

  predicate Within(a: Rect, b: Rect) {
    b.x0 <= a.x0 && a.x1 <= b.x1 && b.y0 <= a.y0 && a.y1 <= b.y1
  }

  function Min(a: int, b: int): int { if a <= b then a else b }

  function Max(a: int, b: int): int { if a >= b then a else b }

  function Hull(a: Rect, b: Rect): Rect {
    Rect(Min(a.x0, b.x0), Min(a.y0, b.y0), Max(a.x1, b.x1), Max(a.y1, b.y1))
  }

  // ---- What merging promises ----

  ghost predicate Fits(r: Rect, family: set<Rect>) {
    exists f <- family :: Within(r, f)
  }

  ghost function Rects(s: seq<Blob>): set<Rect> {
    set b <- s :: b.r
  }

  /** A family of rectangles that holds every input and whose members are more than gap apart. */
  ghost predicate Separates(family: set<Rect>, input: seq<Blob>, gap: int) {
    && (forall b {:trigger Fits(b.r, family)} | b in input :: Fits(b.r, family))
    && (forall f <- family, g <- family :: f == g || !Near(f, g, gap))
  }

  /** One of a rectangle's four sides. */
  function Side(r: Rect, k: int): int {
    if k == 0 then r.x0 else if k == 1 then r.y0 else if k == 2 then r.x1 else r.y1
  }

  /** r is the smallest rectangle around the inputs it holds: one of them reaches each side. */
  ghost predicate Tight(r: Rect, input: seq<Blob>) {
    forall k | 0 <= k < 4 :: Reached(r, input, k)
  }

  ghost predicate Reached(r: Rect, input: seq<Blob>, k: int) {
    exists b <- input :: Within(b.r, r) && Side(b.r, k) == Side(r, k)
  }

  /** The pixels of the inputs inside r. */
  ghost function AreaIn(r: Rect, input: seq<Blob>): int {
    if input == [] then 0
    else (if Within(input[0].r, r) then input[0].area else 0) + AreaIn(r, input[1..])
  }

  /** The order of a report: by row, then by column, of the first corner. */
  predicate Before(a: Rect, b: Rect) {
    a.y0 < b.y0 || (a.y0 == b.y0 && a.x0 < b.x0)
  }

  /** What merge returns for an input: the finest family that separates it, each member tight, with
      its inputs' pixels, in report order, no two at the same corner. */
  ghost predicate IsMerged(input: seq<Blob>, output: seq<Blob>, gap: int) {
    && (forall b {:trigger Fits(b.r, Rects(output))} | b in input :: Fits(b.r, Rects(output)))
    && (forall i, j | 0 <= i < j < |output| :: !Near(output[i].r, output[j].r, gap))
    && (forall i, j | 0 <= i < j < |output| :: Before(output[i].r, output[j].r))
    && (forall o <- output :: Tight(o.r, input) && o.area == AreaIn(o.r, input))
    && (forall family: set<Rect> | Separates(family, input, gap) ::
          forall o {:trigger Fits(o.r, family)} | o in output :: Fits(o.r, family))
  }

  // ---- Groups: the boxes of a pass with the inputs each has taken in ----

  datatype Group = Group(blob: Blob, members: seq<Blob>)

  ghost function Sum(s: seq<Blob>): int {
    if s == [] then 0 else s[0].area + Sum(s[1..])
  }

  /** The pixels inside r of the inputs taken in by any group. */
  ghost function TotalIn(r: Rect, gs: seq<Group>): int {
    if gs == [] then 0 else AreaIn(r, gs[0].members) + TotalIn(r, gs[1..])
  }

  /** A group's box is the hull of its members and its area their sum. */
  ghost predicate GroupOk(g: Group) {
    && WellFormed(g.blob.r)
    && (forall m <- g.members :: WellFormed(m.r) && Within(m.r, g.blob.r))
    && Tight(g.blob.r, g.members)
    && g.blob.area == Sum(g.members)
  }

  ghost predicate AllOk(gs: seq<Group>) {
    forall i | 0 <= i < |gs| :: GroupOk(gs[i])
  }

  ghost predicate FinerThan(gs: seq<Group>, family: set<Rect>) {
    forall i {:trigger Fits(gs[i].blob.r, family)} | 0 <= i < |gs| :: Fits(gs[i].blob.r, family)
  }

  /** The groups hold the inputs, and nothing else. */
  ghost predicate Holds(gs: seq<Group>, input: seq<Blob>) {
    && (forall b <- input :: InGroup(gs, b))
    && (forall i, m | 0 <= i < |gs| && m in gs[i].members :: m in input)
  }

  ghost predicate InGroup(gs: seq<Group>, b: Blob) {
    exists i | 0 <= i < |gs| :: b in gs[i].members
  }

  /** Each input is counted once. */
  ghost predicate CountsOnce(gs: seq<Group>, input: seq<Blob>) {
    forall r :: TotalIn(r, gs) == AreaIn(r, input)
  }

  ghost predicate Finest(gs: seq<Group>, input: seq<Blob>, gap: int) {
    forall family: set<Rect> | Separates(family, input, gap) :: FinerThan(gs, family)
  }

  ghost predicate Grouping(gs: seq<Group>, input: seq<Blob>, gap: int) {
    AllOk(gs) && Holds(gs, input) && CountsOnce(gs, input) && Finest(gs, input, gap)
  }

  function Join(a: Group, b: Group): Group {
    Group(Fuse(a.blob, b.blob), a.members + b.members)
  }

  /** gs with group j taken into group k. */
  function Absorb(gs: seq<Group>, k: nat, j: nat): seq<Group>
    requires k < j < |gs|
  {
    gs[k := Join(gs[k], gs[j])][..j] + gs[j + 1..]
  }

  lemma {:induction false} AreaInConcat(r: Rect, a: seq<Blob>, b: seq<Blob>)
    ensures AreaIn(r, a + b) == AreaIn(r, a) + AreaIn(r, b)
  {
    if a == [] {
      assert a + b == b;
    } else {
      assert (a + b)[1..] == a[1..] + b;
      AreaInConcat(r, a[1..], b);
    }
  }

  lemma {:induction false} TotalInUpdate(r: Rect, gs: seq<Group>, k: nat, g: Group)
    requires k < |gs|
    ensures TotalIn(r, gs[k := g]) == TotalIn(r, gs) - AreaIn(r, gs[k].members) + AreaIn(r, g.members)
  {
    if k == 0 {
      assert gs[k := g][1..] == gs[1..];
    } else {
      assert gs[k := g][1..] == gs[1..][k - 1 := g];
      TotalInUpdate(r, gs[1..], k - 1, g);
    }
  }

  lemma {:induction false} TotalInRemove(r: Rect, gs: seq<Group>, j: nat)
    requires j < |gs|
    ensures TotalIn(r, gs[..j] + gs[j + 1..]) == TotalIn(r, gs) - AreaIn(r, gs[j].members)
  {
    if j == 0 {
      assert gs[..j] + gs[j + 1..] == gs[1..];
    } else {
      assert (gs[..j] + gs[j + 1..])[1..] == gs[1..][..j - 1] + gs[1..][j..];
      TotalInRemove(r, gs[1..], j - 1);
    }
  }

  lemma {:induction false} SumConcat(a: seq<Blob>, b: seq<Blob>)
    ensures Sum(a + b) == Sum(a) + Sum(b)
  {
    if a == [] {
      assert a + b == b;
    } else {
      assert (a + b)[1..] == a[1..] + b;
      SumConcat(a[1..], b);
    }
  }

  lemma AbsorbTotal(r: Rect, gs: seq<Group>, k: nat, j: nat)
    requires k < j < |gs|
    ensures TotalIn(r, Absorb(gs, k, j)) == TotalIn(r, gs)
  {
    var joined := gs[k := Join(gs[k], gs[j])];
    TotalInUpdate(r, gs, k, joined[k]);
    TotalInRemove(r, joined, j);
    AreaInConcat(r, gs[k].members, gs[j].members);
  }

  lemma TightHull(a: Group, b: Group)
    requires GroupOk(a) && GroupOk(b)
    ensures GroupOk(Join(a, b))
  {
    var r, m := Join(a, b).blob.r, Join(a, b).members;
    SumConcat(a.members, b.members);
    forall k | 0 <= k < 4
      ensures Reached(r, m, k)
    {
      var from := if Side(a.blob.r, k) == Side(r, k) then a else b;
      assert Reached(from.blob.r, from.members, k);
      var x :| x in from.members && Within(x.r, from.blob.r) && Side(x.r, k) == Side(from.blob.r, k);
      assert x in m;
    }
  }

  lemma AbsorbHolds(gs: seq<Group>, k: nat, j: nat, input: seq<Blob>)
    requires k < j < |gs| && Holds(gs, input)
    ensures Holds(Absorb(gs, k, j), input)
  {
    var next := Absorb(gs, k, j);
    forall b <- input
      ensures InGroup(next, b)
    {
      assert InGroup(gs, b);
      var i :| 0 <= i < |gs| && b in gs[i].members;
      assert b in next[if i == j then k else if i < j then i else i - 1].members;
    }
    forall i, m | 0 <= i < |next| && m in next[i].members
      ensures m in input
    {
      assert next[i] == if i == k then Join(gs[k], gs[j]) else gs[if i < j then i else i + 1];
      assert i == k ==> m in gs[k].members || m in gs[j].members;
    }
  }

  lemma AbsorbFinest(gs: seq<Group>, k: nat, j: nat, input: seq<Blob>, gap: int)
    requires k < j < |gs| && Finest(gs, input, gap) && Near(gs[k].blob.r, gs[j].blob.r, gap)
    ensures Finest(Absorb(gs, k, j), input, gap)
  {
    var next := Absorb(gs, k, j);
    forall family: set<Rect> | Separates(family, input, gap)
      ensures FinerThan(next, family)
    {
      assert FinerThan(gs, family) && Fits(gs[k].blob.r, family) && Fits(gs[j].blob.r, family);
      var f :| f in family && Within(gs[k].blob.r, f);
      var g :| g in family && Within(gs[j].blob.r, g);
      assert Near(f, g, gap);
      assert Within(Join(gs[k], gs[j]).blob.r, f);
      forall i | 0 <= i < |next|
        ensures Fits(next[i].blob.r, family)
      {
        var from := if i < j then i else i + 1;
        assert next[i] == if i == k then Join(gs[k], gs[j]) else gs[from];
        assert i != k ==> Fits(gs[from].blob.r, family);
      }
    }
  }

  /** Taking one box into another near it keeps the grouping: the join of two near boxes still fits
      inside one member of every family that separates the input. */
  lemma AbsorbKeeps(gs: seq<Group>, k: nat, j: nat, input: seq<Blob>, gap: int)
    requires k < j < |gs| && Grouping(gs, input, gap)
    requires Near(gs[k].blob.r, gs[j].blob.r, gap)
    ensures Grouping(Absorb(gs, k, j), input, gap)
  {
    AbsorbHolds(gs, k, j, input);
    AbsorbFinest(gs, k, j, input, gap);
    TightHull(gs[k], gs[j]);
    forall r
      ensures TotalIn(r, Absorb(gs, k, j)) == AreaIn(r, input)
    {
      AbsorbTotal(r, gs, k, j);
    }
  }

  // ---- A pass that merged nothing: the boxes left are the answer ----

  ghost predicate Apart(gs: seq<Group>, gap: int) {
    forall i, j | 0 <= i < j < |gs| :: !Near(gs[i].blob.r, gs[j].blob.r, gap)
  }

  lemma {:induction false} AreaOwn(r: Rect, members: seq<Blob>)
    requires forall m <- members :: Within(m.r, r)
    ensures AreaIn(r, members) == Sum(members)
  {
    if members != [] {
      AreaOwn(r, members[1..]);
    }
  }

  lemma {:induction false} AreaNone(r: Rect, members: seq<Blob>)
    requires forall m <- members :: !Within(m.r, r)
    ensures AreaIn(r, members) == 0
  {
    if members != [] {
      AreaNone(r, members[1..]);
    }
  }

  lemma {:induction false} AreaOthers(r: Rect, gs: seq<Group>, gap: int)
    requires gap >= 0
    requires AllOk(gs) && forall i | 0 <= i < |gs| :: !Near(r, gs[i].blob.r, gap)
    ensures TotalIn(r, gs) == 0
  {
    if gs != [] {
      AreaNone(r, gs[0].members);
      AreaOthers(r, gs[1..], gap);
    }
  }

  /** Once the boxes are apart, a group's area is that of the inputs its box holds. */
  lemma {:induction false} AreaOfGroup(r: Rect, gs: seq<Group>, k: nat, gap: int)
    requires gap >= 0 && k < |gs| && r == gs[k].blob.r && AllOk(gs)
    requires forall i | 0 <= i < |gs| && i != k :: !Near(r, gs[i].blob.r, gap)
    ensures TotalIn(r, gs) == Sum(gs[k].members)
  {
    if k == 0 {
      AreaOwn(r, gs[0].members);
      AreaOthers(r, gs[1..], gap);
    } else {
      AreaNone(r, gs[0].members);
      AreaOfGroup(r, gs[1..], k - 1, gap);
    }
  }

  // ---- sorted(boxes, key=corner) ----

  predicate InOrder(s: seq<Blob>) {
    forall i, j | 0 <= i < j < |s| :: !Before(s[j].r, s[i].r)
  }

  function Insert(b: Blob, s: seq<Blob>): seq<Blob> {
    if s == [] || !Before(s[0].r, b.r) then [b] + s else [s[0]] + Insert(b, s[1..])
  }

  function SortByCorner(s: seq<Blob>): seq<Blob> {
    if s == [] then [] else Insert(s[0], SortByCorner(s[1..]))
  }

  lemma {:induction false} InsertSorts(b: Blob, s: seq<Blob>)
    requires InOrder(s)
    ensures InOrder(Insert(b, s)) && multiset(Insert(b, s)) == multiset{b} + multiset(s)
  {
    if s != [] && Before(s[0].r, b.r) {
      InsertSorts(b, s[1..]);
      assert s == [s[0]] + s[1..];
      forall x <- Insert(b, s[1..])
        ensures !Before(x.r, s[0].r)
      {
        assert x in multiset(Insert(b, s[1..]));
        assert x == b || x in s[1..];
      }
    }
  }

  ghost predicate ApartList(s: seq<Blob>, gap: int) {
    forall i, j | 0 <= i < j < |s| :: !Near(s[i].r, s[j].r, gap)
  }

  lemma {:induction false} InsertApart(b: Blob, s: seq<Blob>, gap: int)
    requires ApartList(s, gap) && forall i | 0 <= i < |s| :: !Near(b.r, s[i].r, gap)
    ensures ApartList(Insert(b, s), gap)
    ensures forall x <- Insert(b, s) :: x == b || x in s
  {
    if s != [] && Before(s[0].r, b.r) {
      InsertApart(b, s[1..], gap);
      forall x <- Insert(b, s[1..])
        ensures !Near(s[0].r, x.r, gap)
      {
        assert x == b || x in s[1..];
      }
    }
  }

  lemma {:induction false} SortApart(s: seq<Blob>, gap: int)
    requires ApartList(s, gap)
    ensures ApartList(SortByCorner(s), gap)
  {
    if s != [] {
      SortApart(s[1..], gap);
      SortSorts(s[1..]);
      forall i | 0 <= i < |SortByCorner(s[1..])|
        ensures !Near(s[0].r, SortByCorner(s[1..])[i].r, gap)
      {
        assert SortByCorner(s[1..])[i] in multiset(s[1..]);
        assert SortByCorner(s[1..])[i] in s[1..];
      }
      InsertApart(s[0], SortByCorner(s[1..]), gap);
    }
  }

  lemma {:induction false} SortSorts(s: seq<Blob>)
    ensures InOrder(SortByCorner(s)) && multiset(SortByCorner(s)) == multiset(s)
  {
    if s != [] {
      SortSorts(s[1..]);
      InsertSorts(s[0], SortByCorner(s[1..]));
      assert s == [s[0]] + s[1..];
    }
  }

  // ---- The answer ----

  ghost function Blobs(gs: seq<Group>): seq<Blob> {
    seq(|gs|, i requires 0 <= i < |gs| => gs[i].blob)
  }

  lemma MembersReach(gs: seq<Group>, i: nat, input: seq<Blob>, gap: int)
    requires i < |gs| && Grouping(gs, input, gap)
    ensures Tight(gs[i].blob.r, input)
  {
    var g := gs[i];
    assert GroupOk(g) && g in gs;
    forall k | 0 <= k < 4
      ensures Reached(g.blob.r, input, k)
    {
      assert Reached(g.blob.r, g.members, k);
      var m :| m in g.members && Within(m.r, g.blob.r) && Side(m.r, k) == Side(g.blob.r, k);
      assert m in input;
    }
  }

  lemma AnswerIsMerged(gs: seq<Group>, input: seq<Blob>, gap: int)
    requires gap >= 0 && Grouping(gs, input, gap) && Apart(gs, gap)
    ensures IsMerged(input, SortByCorner(Blobs(gs)), gap)
  {
    var s := Blobs(gs);
    var output := SortByCorner(s);
    SortSorts(s);
    SortApart(s, gap);
    forall b <- input
      ensures Fits(b.r, Rects(output))
    {
      assert InGroup(gs, b);
      var k :| 0 <= k < |gs| && b in gs[k].members;
      assert GroupOk(gs[k]) && s[k] in multiset(s);
      assert s[k].r in Rects(output) && Within(b.r, s[k].r);
    }
    forall o <- output
      ensures WellFormed(o.r)
    {
      assert o in multiset(s);
      var k :| 0 <= k < |s| && s[k] == o;
      assert GroupOk(gs[k]);
    }
    forall i, j | 0 <= i < j < |output|
      ensures Before(output[i].r, output[j].r)
    {
      assert output[i] in output && output[j] in output;
      assert !Near(output[i].r, output[j].r, gap) && !Before(output[j].r, output[i].r);
    }
    forall o <- output
      ensures Tight(o.r, input) && o.area == AreaIn(o.r, input)
      ensures forall family: set<Rect> | Separates(family, input, gap) :: Fits(o.r, family)
    {
      assert o in multiset(s);
      var k :| 0 <= k < |s| && s[k] == o;
      assert gs[k].blob == o;
      MembersReach(gs, k, input, gap);
      AreaOfGroup(gs[k].blob.r, gs, k, gap);
    }
  }

  // ---- The passes, on values ----

  /** The place of the first box kept that is near b, or |out|. */
  function FirstNear(out: seq<Blob>, b: Blob, gap: int): (k: nat)
    ensures k <= |out| && (forall m | 0 <= m < k :: !Near(b.r, out[m].r, gap))
    ensures k < |out| ==> Near(b.r, out[k].r, gap)
  {
    if out == [] || Near(b.r, out[0].r, gap) then 0 else 1 + FirstNear(out[1..], b, gap)
  }

  function Fuse(a: Blob, b: Blob): Blob {
    Blob(Hull(a.r, b.r), a.area + b.area)
  }

  /** b into the first box kept that is near it, else kept itself. */
  function Place(out: seq<Blob>, b: Blob, gap: int): seq<Blob> {
    var k := FirstNear(out, b, gap);
    if k < |out| then out[k := Fuse(out[k], b)] else out + [b]
  }

  function Pass(out: seq<Blob>, rest: seq<Blob>, gap: int): (s: seq<Blob>)
    ensures |s| <= |out| + |rest|
    decreases |rest|
  {
    if rest == [] then out else Pass(Place(out, rest[0], gap), rest[1..], gap)
  }

  function Merged(s: seq<Blob>, gap: int): seq<Blob>
    decreases |s|
  {
    var next := Pass([], s, gap);
    if |next| < |s| then Merged(next, gap) else SortByCorner(next)
  }

  lemma PlaceGroup(head: seq<Group>, rest: seq<Group>, input: seq<Blob>, gap: int) returns (next: seq<Group>)
    requires rest != [] && Grouping(head + rest, input, gap)
    ensures Grouping(next + rest[1..], input, gap) && Blobs(next) == Place(Blobs(head), rest[0].blob, gap)
    ensures |next| <= |head| + 1
    ensures |next| == |head| + 1 && Apart(head, gap) ==> Apart(next, gap)
  {
    var k := FirstNear(Blobs(head), rest[0].blob, gap);
    if k < |head| {
      next := head[k := Join(head[k], rest[0])];
      AbsorbKeeps(head + rest, k, |head|, input, gap);
      assert Absorb(head + rest, k, |head|) == next + rest[1..];
    } else {
      next := head + [rest[0]];
      assert head + rest == next + rest[1..];
      forall i, j | Apart(head, gap) && 0 <= i < j < |next|
        ensures !Near(next[i].blob.r, next[j].blob.r, gap)
      {
        if j == |head| {
          assert !Near(rest[0].blob.r, Blobs(head)[i].r, gap);
        }
      }
    }
  }

  /** A pass keeps a grouping, and one that merges nothing leaves the boxes apart. */
  lemma {:induction false} PassKeeps(head: seq<Group>, rest: seq<Group>, input: seq<Blob>, gap: int)
    returns (gs: seq<Group>)
    requires Grouping(head + rest, input, gap)
    ensures Grouping(gs, input, gap) && Blobs(gs) == Pass(Blobs(head), Blobs(rest), gap)
    ensures |gs| <= |head| + |rest|
    ensures |gs| == |head| + |rest| && Apart(head, gap) ==> Apart(gs, gap)
    decreases |rest|
  {
    if rest == [] {
      assert head + rest == head;
      gs := head;
    } else {
      var next := PlaceGroup(head, rest, input, gap);
      assert Blobs(rest)[1..] == Blobs(rest[1..]);
      gs := PassKeeps(next, rest[1..], input, gap);
    }
  }

  lemma {:induction false} MergedFrom(gs: seq<Group>, input: seq<Blob>, gap: int)
    requires gap >= 0 && Grouping(gs, input, gap)
    ensures IsMerged(input, Merged(Blobs(gs), gap), gap)
    decreases |gs|
  {
    assert [] + gs == gs && Blobs([]) == [];
    var next := PassKeeps([], gs, input, gap);
    if |next| < |gs| {
      MergedFrom(next, input, gap);
    } else {
      AnswerIsMerged(next, input, gap);
    }
  }

  // ---- One group to an input, at the start ----

  ghost function Singles(s: seq<Blob>): seq<Group> {
    seq(|s|, i requires 0 <= i < |s| => Group(s[i], [s[i]]))
  }

  lemma {:induction false} SinglesTotal(r: Rect, s: seq<Blob>)
    ensures TotalIn(r, Singles(s)) == AreaIn(r, s)
  {
    if s != [] {
      assert Singles(s)[1..] == Singles(s[1..]);
      SinglesTotal(r, s[1..]);
      assert AreaIn(r, [s[0]]) == if Within(s[0].r, r) then s[0].area else 0;
    }
  }

  lemma SinglesGroup(s: seq<Blob>, gap: int)
    requires forall b <- s :: WellFormed(b.r)
    ensures Grouping(Singles(s), s, gap)
  {
    var gs := Singles(s);
    forall r
      ensures TotalIn(r, gs) == AreaIn(r, s)
    {
      SinglesTotal(r, s);
    }
    forall b <- s
      ensures InGroup(gs, b)
    {
      var k :| 0 <= k < |s| && s[k] == b;
      assert b in gs[k].members;
    }
    forall k | 0 <= k < |gs|
      ensures GroupOk(gs[k])
    {
      assert gs[k].members == [s[k]] && s[k] in s;
      assert forall side | 0 <= side < 4 :: Reached(gs[k].blob.r, gs[k].members, side);
    }
    forall family: set<Rect> | Separates(family, s, gap)
      ensures FinerThan(gs, family)
    {
      assert forall i | 0 <= i < |gs| :: gs[i].blob in s;
    }
  }

  /** For every list of well-formed boxes, the merging is the finest separation of it. */
  lemma MergedIsMerged(s: seq<Blob>, gap: int)
    requires gap >= 0 && forall b <- s :: WellFormed(b.r)
    ensures IsMerged(s, Merged(s, gap), gap)
  {
    SinglesGroup(s, gap);
    assert Blobs(Singles(s)) == s;
    MergedFrom(Singles(s), s, gap);
  }

  // ---- The loops, on boxes grown in place ----

  /** A box of the list: its corners and its area. */
  class Box {
    var blob: Blob

    constructor (blob: Blob)
      ensures this.blob == blob
    {
      this.blob := blob;
    }
  }

  function Vals(boxes: seq<Box>): (s: seq<Blob>)
    reads boxes
    ensures |s| == |boxes| && forall i | 0 <= i < |s| :: s[i] == boxes[i].blob
  {
    seq(|boxes|, i requires 0 <= i < |boxes| reads boxes => boxes[i].blob)
  }

  predicate Distinct(boxes: seq<Box>) {
    forall i, j | 0 <= i < j < |boxes| :: boxes[i] != boxes[j]
  }

  method FindNear(out: seq<Box>, b: Box, gap: int) returns (k: nat)
    ensures k == FirstNear(Vals(out), b.blob, gap)
  {
    k := 0;
    while k < |out| && !Near(b.blob.r, out[k].blob.r, gap)
      invariant k <= |out|
      invariant forall m | 0 <= m < k :: !Near(b.blob.r, out[m].blob.r, gap)
    {
      k := k + 1;
    }
  }

  /** The loop's body: b into the first box kept that is near it, else kept itself. */
  method MergeInto(out: seq<Box>, b: Box, gap: int) returns (out': seq<Box>, merged: bool)
    requires Distinct(out) && b !in out
    modifies out
    ensures Vals(out') == Place(old(Vals(out)), old(b.blob), gap)
    ensures if merged then out' == out else |out'| == |out| + 1 && out' == out + [b]
  {
    var k := FindNear(out, b, gap);
    merged := k < |out|;
    if merged {
      out[k].blob := Fuse(out[k].blob, b.blob);
      out' := out;
      assert Vals(out') == old(Vals(out))[k := Fuse(old(out[k].blob), b.blob)];
    } else {
      out' := out + [b];
      assert Vals(out') == Vals(out) + [b.blob];
    }
  }

  /** One pass over the boxes: what is kept of them, and whether any merged. */
  method MergePass(boxes: seq<Box>, gap: int, ghost objects: set<Box>) returns (out: seq<Box>, merged: bool)
    requires Distinct(boxes) && forall i | 0 <= i < |boxes| :: boxes[i] in objects
    modifies objects
    ensures Vals(out) == Pass([], old(Vals(boxes)), gap)
    ensures Distinct(out) && forall i | 0 <= i < |out| :: out[i] in objects
    ensures if merged then |out| < |boxes| else |out| == |boxes|
  {
    out, merged := [], false;
    var rest := boxes;
    ghost var done: set<Box> := {};
    while rest != []
      invariant Distinct(out) && Distinct(rest) && |out| + |rest| <= |boxes|
      invariant forall i | 0 <= i < |out| :: out[i] in objects && out[i] in done
      invariant forall i | 0 <= i < |rest| :: rest[i] in objects && rest[i] !in done
      invariant Pass(Vals(out), Vals(rest), gap) == Pass([], old(Vals(boxes)), gap)
      invariant merged <==> |out| + |rest| < |boxes|
      decreases |rest|
    {
      var b := rest[0];
      var next, one := MergeInto(out, b, gap);
      assert Vals(rest[1..]) == Vals(rest)[1..];
      merged := merged || one;
      out, rest, done := next, rest[1..], done + {b};
    }
  }

  /** Boxes gap apart or less as one, their areas added: passes until one merges nothing, then in
      report order. The boxes given are grown in place. */
  method Merge(given: seq<Box>, gap: int) returns (result: seq<Blob>)
    requires gap >= 0 && Distinct(given)
    requires forall b <- given :: WellFormed(b.blob.r)
    modifies given
    ensures IsMerged(old(Vals(given)), result, gap)
    ensures forall i, j | 0 <= i < j < |result| :: !Reaches(result[i].r, result[j].r, gap)
    ensures forall b <- old(Vals(given)) :: exists o <- result :: Inside(b.r, o.r)
    ensures forall i, j | 0 <= i < j < |result| ::
      result[i].r.y0 < result[j].r.y0 || (result[i].r.y0 == result[j].r.y0 && result[i].r.x0 < result[j].r.x0)
  {
    ghost var objects := set b <- given;
    ghost var input := Vals(given);
    MergedIsMerged(input, gap);
    var boxes, merged := given, true;
    while merged
      invariant Distinct(boxes) && forall i | 0 <= i < |boxes| :: boxes[i] in objects
      invariant if merged then Merged(Vals(boxes), gap) == Merged(input, gap)
                else SortByCorner(Vals(boxes)) == Merged(input, gap)
      decreases |boxes|, merged
    {
      boxes, merged := MergePass(boxes, gap, objects);
    }
    result := SortByCorner(Vals(boxes));
    MergedByPoints(input, result, gap);
  }

  // ---- Said by points ----

  /** A point of the rectangle, its edges included. */
  predicate HasPoint(r: Rect, x: int, y: int) {
    r.x0 <= x <= r.x1 && r.y0 <= y <= r.y1
  }

  /** A point of a and one of b are gap or less apart, across and down. */
  ghost predicate Reaches(a: Rect, b: Rect, gap: int) {
    exists x, y, u, v :: HasPoint(a, x, y) && HasPoint(b, u, v) && -gap <= x - u <= gap && -gap <= y - v <= gap
  }

  /** Every point of a is one of b. */
  ghost predicate Inside(a: Rect, b: Rect) {
    forall x, y | HasPoint(a, x, y) :: HasPoint(b, x, y)
  }

  /** Rectangles are near exactly when a point of one is gap or less from a point of the other, both ways. */
  lemma NearByPoints(a: Rect, b: Rect, gap: int)
    requires WellFormed(a) && WellFormed(b) && gap >= 0
    ensures Near(a, b, gap) <==> Reaches(a, b, gap)
  {
    if Near(a, b, gap) {
      var (x, u) := Closest(a.x0, a.x1, b.x0, b.x1);
      var (y, v) := Closest(a.y0, a.y1, b.y0, b.y1);
      assert HasPoint(a, x, y) && HasPoint(b, u, v);
    }
  }

  /** Of two spans, a place in each, the closest. */
  function Closest(a0: int, a1: int, b0: int, b1: int): (int, int) {
    if a1 < b0 then (a1, b0) else if b1 < a0 then (a0, b1) else (Max(a0, b0), Max(a0, b0))
  }

  /** One is within another exactly when every point of it is in the other. */
  lemma WithinByPoints(a: Rect, b: Rect)
    requires WellFormed(a)
    ensures Within(a, b) <==> Inside(a, b)
  {
    if Inside(a, b) {
      assert HasPoint(a, a.x0, a.y0) && HasPoint(a, a.x1, a.y1);
    }
  }

  /** What is merged: no point of a box is gap or less from one of another, both ways; every input is in one. */
  lemma MergedByPoints(input: seq<Blob>, output: seq<Blob>, gap: int)
    requires gap >= 0 && (forall b <- input :: WellFormed(b.r)) && IsMerged(input, output, gap)
    ensures forall i, j | 0 <= i < j < |output| :: !Reaches(output[i].r, output[j].r, gap)
    ensures forall b <- input :: exists o <- output :: Inside(b.r, o.r)
  {
    forall i, j | 0 <= i < j < |output|
      ensures !Reaches(output[i].r, output[j].r, gap)
    {
      TightIsFormed(output[i].r, input);
      TightIsFormed(output[j].r, input);
      NearByPoints(output[i].r, output[j].r, gap);
    }
    forall b <- input
      ensures exists o <- output :: Inside(b.r, o.r)
    {
      assert Fits(b.r, Rects(output));
      var f :| f in Rects(output) && Within(b.r, f);
      var o :| o in output && o.r == f;
      WithinByPoints(b.r, o.r);
    }
  }

  /** A box merged is the least: a rectangle that has the inputs in it has the box. */
  lemma LeastByPoints(input: seq<Blob>, output: seq<Blob>, gap: int, o: Blob, q: Rect)
    requires (forall b <- input :: WellFormed(b.r)) && IsMerged(input, output, gap) && o in output
    requires forall b <- input | Inside(b.r, o.r) :: Inside(b.r, q)
    ensures Inside(o.r, q)
  {
    forall k | 0 <= k < 4
      ensures if k < 2 then Side(q, k) <= Side(o.r, k) else Side(o.r, k) <= Side(q, k)
    {
      assert Reached(o.r, input, k);
      var b :| b in input && Within(b.r, o.r) && Side(b.r, k) == Side(o.r, k);
      WithinByPoints(b.r, o.r);
      WithinByPoints(b.r, q);
    }
    assert Side(q, 0) <= Side(o.r, 0) && Side(q, 1) <= Side(o.r, 1);
    assert Side(o.r, 2) <= Side(q, 2) && Side(o.r, 3) <= Side(q, 3);
  }

  lemma TightIsFormed(r: Rect, input: seq<Blob>)
    requires Tight(r, input) && forall b <- input :: WellFormed(b.r)
    ensures WellFormed(r)
  {
    assert Reached(r, input, 0);
  }

  // ---- One answer for every order of the input ----

  lemma AreaInWithout(r: Rect, s: seq<Blob>, k: nat)
    requires k < |s|
    ensures AreaIn(r, s) == AreaIn(r, s[..k] + s[k + 1..]) + AreaIn(r, [s[k]])
    ensures multiset(s) == multiset(s[..k] + s[k + 1..]) + multiset{s[k]}
  {
    assert s == s[..k] + ([s[k]] + s[k + 1..]);
    AreaInConcat(r, s[..k], [s[k]] + s[k + 1..]);
    AreaInConcat(r, [s[k]], s[k + 1..]);
    AreaInConcat(r, s[..k], s[k + 1..]);
  }

  lemma AreaInFirst(r: Rect, s: seq<Blob>)
    requires s != []
    ensures AreaIn(r, s) == AreaIn(r, s[1..]) + AreaIn(r, [s[0]]) && multiset(s) == multiset(s[1..]) + multiset{s[0]}
  {
    assert s == [s[0]] + s[1..];
    AreaInConcat(r, [s[0]], s[1..]);
  }

  lemma {:induction false} AreaInPermuted(r: Rect, a: seq<Blob>, b: seq<Blob>)
    requires multiset(a) == multiset(b)
    ensures AreaIn(r, a) == AreaIn(r, b)
  {
    if a == [] {
      assert |multiset(b)| == 0;
    } else {
      assert a[0] in multiset(b);
      var k :| 0 <= k < |b| && b[k] == a[0];
      var a', b' := a[1..], b[..k] + b[k + 1..];
      AreaInFirst(r, a);
      AreaInWithout(r, b, k);
      assert multiset(a') == multiset(a) - multiset{a[0]} && multiset(b') == multiset(b) - multiset{b[k]};
      AreaInPermuted(r, a', b');
    }
  }

  lemma MergedSeparates(input: seq<Blob>, output: seq<Blob>, gap: int)
    requires IsMerged(input, output, gap)
    ensures Separates(Rects(output), input, gap)
  {
    forall f <- Rects(output), g <- Rects(output)
      ensures f == g || !Near(f, g, gap)
    {
      var i :| 0 <= i < |output| && output[i].r == f;
      var j :| 0 <= j < |output| && output[j].r == g;
      if i < j {
        assert !Near(output[i].r, output[j].r, gap);
      } else if j < i {
        assert !Near(output[j].r, output[i].r, gap);
      }
    }
  }

  lemma SeparatesPermuted(family: set<Rect>, a: seq<Blob>, b: seq<Blob>, gap: int)
    requires multiset(a) == multiset(b) && Separates(family, a, gap)
    ensures Separates(family, b, gap)
  {
    forall x <- b
      ensures Fits(x.r, family)
    {
      assert x in multiset(a);
      assert x in a;
    }
  }

  /** A result of one order is a result of the other: each fits inside the other's. */
  lemma SameResult(input: seq<Blob>, input': seq<Blob>, output: seq<Blob>, output': seq<Blob>, gap: int, o: Blob)
    requires gap >= 0 && multiset(input) == multiset(input') && forall b <- input :: WellFormed(b.r)
    requires IsMerged(input, output, gap) && IsMerged(input', output', gap)
    requires o in output
    ensures o in output'
  {
    MergedSeparates(input, output, gap);
    MergedSeparates(input', output', gap);
    SeparatesPermuted(Rects(output'), input', input, gap);
    SeparatesPermuted(Rects(output), input, input', gap);
    assert Fits(o.r, Rects(output'));
    var f :| f in Rects(output') && Within(o.r, f);
    var p :| p in output' && p.r == f;
    assert Fits(p.r, Rects(output));
    var g :| g in Rects(output) && Within(p.r, g);
    InsideIsSame(input, output, gap, o, g);
    AreaInPermuted(o.r, input, input');
  }

  lemma InsideIsSame(input: seq<Blob>, output: seq<Blob>, gap: int, o: Blob, g: Rect)
    requires gap >= 0 && IsMerged(input, output, gap) && forall b <- input :: WellFormed(b.r)
    requires o in output && g in Rects(output) && Within(o.r, g)
    ensures o.r == g
  {
    assert Tight(o.r, input) && Reached(o.r, input, 0);
    var b :| b in input && Within(b.r, o.r);
    assert Near(o.r, g, gap);
    MergedSeparates(input, output, gap);
    assert o.r in Rects(output);
  }

  lemma InOrderUnique(a: seq<Blob>, b: seq<Blob>)
    requires forall x :: x in a <==> x in b
    requires forall i, j | 0 <= i < j < |a| :: Before(a[i].r, a[j].r)
    requires forall i, j | 0 <= i < j < |b| :: Before(b[i].r, b[j].r)
    ensures a == b
    decreases |a|
  {
    assert b != [] ==> b[0] in b;
    if a != [] {
      assert a[0] in b;
      var j :| 0 <= j < |b| && b[j] == a[0];
      assert b[0] in b;
      var i :| 0 <= i < |a| && a[i] == b[0];
      assert i == 0 && j == 0;
      forall x
        ensures x in a[1..] <==> x in b[1..]
      {
        assert x in a <==> x == a[0] || x in a[1..];
        assert x in b <==> x == b[0] || x in b[1..];
      }
      InOrderUnique(a[1..], b[1..]);
    }
  }

  /** Whatever the order of the boxes, the merging is the same list. */
  lemma MergeOrderFree(input: seq<Blob>, input': seq<Blob>, gap: int)
    requires gap >= 0 && multiset(input) == multiset(input') && forall b <- input :: WellFormed(b.r)
    ensures Merged(input, gap) == Merged(input', gap)
  {
    forall b <- input'
      ensures WellFormed(b.r)
    {
      assert b in multiset(input);
    }
    MergedIsMerged(input, gap);
    MergedIsMerged(input', gap);
    var a, b := Merged(input, gap), Merged(input', gap);
    forall x
      ensures x in a <==> x in b
    {
      if x in a { SameResult(input, input', a, b, gap, x); }
      if x in b { SameResult(input', input, b, a, gap, x); }
    }
    InOrderUnique(a, b);
  }

  /** What merge promises determines its answer. */
  lemma MergedIsUnique(input: seq<Blob>, output: seq<Blob>, gap: int)
    requires gap >= 0 && (forall b <- input :: WellFormed(b.r)) && IsMerged(input, output, gap)
    ensures output == Merged(input, gap)
  {
    MergedIsMerged(input, gap);
    forall x
      ensures x in output <==> x in Merged(input, gap)
    {
      if x in output { SameResult(input, input, output, Merged(input, gap), gap, x); }
      if x in Merged(input, gap) { SameResult(input, input, Merged(input, gap), output, gap, x); }
    }
    InOrderUnique(output, Merged(input, gap));
  }

  // ---- Areas: what is merged is counted, what is a speck is counted apart ----

  lemma {:induction false} SumUpdate(s: seq<Blob>, k: nat, b: Blob)
    requires k < |s|
    ensures Sum(s[k := b]) == Sum(s) - s[k].area + b.area
  {
    if k == 0 {
      assert s[k := b][1..] == s[1..];
    } else {
      assert s[k := b][1..] == s[1..][k - 1 := b];
      SumUpdate(s[1..], k - 1, b);
    }
  }

  lemma {:induction false} PassSum(out: seq<Blob>, rest: seq<Blob>, gap: int)
    ensures Sum(Pass(out, rest, gap)) == Sum(out) + Sum(rest)
    decreases |rest|
  {
    if rest != [] {
      var k := FirstNear(out, rest[0], gap);
      if k < |out| {
        SumUpdate(out, k, Fuse(out[k], rest[0]));
      } else {
        SumConcat(out, [rest[0]]);
      }
      PassSum(Place(out, rest[0], gap), rest[1..], gap);
    }
  }

  lemma {:induction false} InsertSum(b: Blob, s: seq<Blob>)
    ensures Sum(Insert(b, s)) == b.area + Sum(s)
  {
    if s != [] && Before(s[0].r, b.r) {
      InsertSum(b, s[1..]);
    }
  }

  lemma {:induction false} SortSum(s: seq<Blob>)
    ensures Sum(SortByCorner(s)) == Sum(s)
  {
    if s != [] {
      SortSum(s[1..]);
      InsertSum(s[0], SortByCorner(s[1..]));
    }
  }

  /** Merging loses no pixel and invents none. */
  lemma {:induction false} MergedSum(s: seq<Blob>, gap: int)
    ensures Sum(Merged(s, gap)) == Sum(s)
    decreases |s|
  {
    PassSum([], s, gap);
    var next := Pass([], s, gap);
    if |next| < |s| {
      MergedSum(next, gap);
    } else {
      SortSum(next);
    }
  }

  function NotSpecks(s: seq<Blob>, speck: int): seq<Blob> {
    if s == [] then []
    else (if s[0].area < speck then [] else [s[0]]) + NotSpecks(s[1..], speck)
  }

  lemma {:induction false} NotSpecksStep(s: seq<Blob>, i: nat, speck: int)
    requires i < |s|
    ensures NotSpecks(s[..i + 1], speck) == NotSpecks(s[..i], speck) + if s[i].area < speck then [] else [s[i]]
    ensures Sum(s[..i + 1]) == Sum(s[..i]) + s[i].area
  {
    if i == 0 {
      assert s[..1][1..] == [];
    } else {
      assert s[..i + 1][1..] == s[1..][..i] && s[..i][1..] == s[1..][..i - 1];
      NotSpecksStep(s[1..], i - 1, speck);
    }
  }

  /** The first i of the blobs counted: those kept, and how many the others are, their pixels and the largest. */
  ghost predicate Counted(given: seq<Blob>, i: nat, speck: int, kept: seq<Blob>, specks: nat, speckPixels: int,
                          largest: int) {
    && i <= |given| && kept == NotSpecks(given[..i], speck)
    && specks + |kept| == i && Sum(kept) + speckPixels == Sum(given[..i])
    && largest >= 0 && (forall m | 0 <= m < i && given[m].area < speck :: given[m].area <= largest)
    && (largest == 0 || exists m | 0 <= m < i :: given[m].area < speck && given[m].area == largest)
  }

  lemma CountedOn(given: seq<Blob>, i: nat, speck: int, kept: seq<Blob>, specks: nat, speckPixels: int, largest: int)
    requires Counted(given, i, speck, kept, specks, speckPixels, largest) && i < |given|
    ensures var a := given[i].area;
      if a < speck
        then Counted(given, i + 1, speck, kept, specks + 1, speckPixels + a, if a > largest then a else largest)
      else Counted(given, i + 1, speck, kept + [given[i]], specks, speckPixels, largest)
  {
    NotSpecksStep(given, i, speck);
    SumConcat(kept, [given[i]]);
    assert kept + [] == kept;
    var a := given[i].area;
    if a >= speck || a <= largest {
      if m :| 0 <= m < i && given[m].area < speck && given[m].area == largest {
        assert m < i + 1;
      }
    }
  }

  /** Boxes, all different, of the first i of these. */
  predicate PickedFrom(boxes: seq<Box>, parts: seq<Box>, i: nat) {
    Distinct(boxes) && i <= |parts| && forall m | 0 <= m < |boxes| :: boxes[m] in parts[..i]
  }

  lemma PickedOn(boxes: seq<Box>, parts: seq<Box>, i: nat)
    requires PickedFrom(boxes, parts, i) && Distinct(parts) && i < |parts|
    ensures PickedFrom(boxes, parts, i + 1) && PickedFrom(boxes + [parts[i]], parts, i + 1)
  {
    assert parts[..i + 1] == parts[..i] + [parts[i]];
  }

  /** The parts of a listing under speck pixels counted, the rest kept. */
  method SplitSpecks(parts: seq<Box>, speck: int)
    returns (boxes: seq<Box>, specks: nat, speckPixels: int, largest: int)
    requires Distinct(parts) && forall i | 0 <= i < |parts| :: parts[i].blob.area >= 0
    ensures Counted(Vals(parts), |parts|, speck, Vals(boxes), specks, speckPixels, largest)
    ensures Vals(boxes) == NotSpecks(Vals(parts), speck)
    ensures Distinct(boxes) && forall i | 0 <= i < |boxes| :: boxes[i] in parts
  {
    ghost var given := Vals(parts);
    boxes, specks, speckPixels, largest := [], 0, 0, 0;
    ghost var kept: seq<Blob> := [];
    for i := 0 to |parts|
      invariant kept == Vals(boxes) && Counted(given, i, speck, kept, specks, speckPixels, largest)
      invariant PickedFrom(boxes, parts, i)
    {
      var b := parts[i];
      CountedOn(given, i, speck, kept, specks, speckPixels, largest);
      PickedOn(boxes, parts, i);
      if b.blob.area < speck {
        specks, speckPixels := specks + 1, speckPixels + b.blob.area;
        if b.blob.area > largest {
          largest := b.blob.area;
        }
      } else {
        kept := kept + [b.blob];
        boxes := boxes + [b];
      }
    }
    assert given[..|parts|] == given;
  }

  /** The regions of a difference: its specks counted, the rest merged. Every pixel is in a region or
      in a speck. */
  method Regions(parts: seq<Box>, speck: int, gap: int)
    returns (regions: seq<Blob>, specks: nat, speckPixels: int, largest: int)
    requires gap >= 0 && Distinct(parts)
    requires forall i | 0 <= i < |parts| :: WellFormed(parts[i].blob.r) && parts[i].blob.area >= 0
    modifies parts
    ensures IsMerged(NotSpecks(old(Vals(parts)), speck), regions, gap)
    ensures Sum(regions) + speckPixels == Sum(old(Vals(parts)))
    ensures specks + |NotSpecks(old(Vals(parts)), speck)| == |parts|
    ensures forall m | 0 <= m < |parts| && old(Vals(parts))[m].area < speck :: old(Vals(parts))[m].area <= largest
    ensures largest == 0
      || exists m | 0 <= m < |parts| :: old(Vals(parts))[m].area < speck && old(Vals(parts))[m].area == largest
  {
    var boxes;
    boxes, specks, speckPixels, largest := SplitSpecks(parts, speck);
    ghost var kept := Vals(boxes);
    assert Vals(parts)[..|parts|] == Vals(parts);
    MergedSum(kept, gap);
    regions := Merge(boxes, gap);
    MergedIsUnique(kept, regions, gap);
  }
}
