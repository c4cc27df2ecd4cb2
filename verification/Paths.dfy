/** Paths as text and as parts (crates/omabox/src/bwrap.rs: lexical, and the tests' oracle for it). */
module Paths {
  /** A byte string, a character to a byte. */
  type Bytes = string

  /** The pieces of p between its slashes. */
  function Split(p: Bytes): (s: seq<Bytes>)
    ensures |s| > 0
  {
    if p == "" then [""]
    else
      var rest := Split(p[1..]);
      if p[0] == '/' then [""] + rest else [[p[0]] + rest[0]] + rest[1..]
  }

  /** One more piece of a path: "." and nothing leave it as it is, ".." takes a part back. */
  function Step(parts: seq<Bytes>, c: Bytes): seq<Bytes> {
    if c == "" || c == "." then parts
    else if c == ".." then (if parts == [] then [] else parts[..|parts| - 1])
    else parts + [c]
  }

  function Steps(parts: seq<Bytes>, cs: seq<Bytes>): seq<Bytes> {
    if cs == [] then parts else Step(Steps(parts, cs[..|cs| - 1]), cs[|cs| - 1])
  }

  function Parts(p: Bytes): seq<Bytes> {
    Steps([], Split(p))
  }

  predicate IsPart(c: Bytes) {
    c != "" && c != "." && c != ".." && '/' !in c
  }

  predicate AreParts(parts: seq<Bytes>) {
    forall i | 0 <= i < |parts| :: IsPart(parts[i])
  }

  function Join(parts: seq<Bytes>): Bytes {
    if parts == [] then "" else "/" + parts[0] + Join(parts[1..])
  }

  function Lex(p: Bytes): Bytes {
    if Parts(p) == [] then "/" else Join(Parts(p))
  }

  /** A path made absolute, without links followed. */
  method Lexical(p: Bytes) returns (out: Bytes)
    ensures out == Lex(p)
  {
    var parts, cs := [], Split(p);
    for i := 0 to |cs|
      invariant parts == Steps([], cs[..i])
    {
      assert cs[..i + 1][..i] == cs[..i];
      var c := cs[i];
      if c == "" || c == "." {
      } else if c == ".." {
        parts := if parts == [] then [] else parts[..|parts| - 1];
      } else {
        parts := parts + [c];
      }
    }
    assert cs[..|cs|] == cs;
    out := "";
    for i := 0 to |parts|
      invariant out + Join(parts[i..]) == Join(parts)
    {
      assert parts[i..][1..] == parts[i + 1..];
      out := out + "/" + parts[i];
    }
    if out == "" {
      JoinEmpty(parts);
      out := "/";
    }
  }

  lemma JoinEmpty(parts: seq<Bytes>)
    ensures Join(parts) == "" <==> parts == []
  {
  }

  // ---- The parts of a path ----

  lemma {:induction false} SplitPlain(p: Bytes)
    ensures forall i | 0 <= i < |Split(p)| :: '/' !in Split(p)[i]
  {
    if p != "" {
      SplitPlain(p[1..]);
    }
  }

  lemma {:induction false} StepsPlain(cs: seq<Bytes>)
    requires forall i | 0 <= i < |cs| :: '/' !in cs[i]
    ensures AreParts(Steps([], cs))
  {
    if cs != [] {
      StepsPlain(cs[..|cs| - 1]);
    }
  }

  lemma PartsPlain(p: Bytes)
    ensures AreParts(Parts(p))
  {
    SplitPlain(p);
    StepsPlain(Split(p));
  }

  lemma {:induction false} SplitOn(x: Bytes, t: Bytes)
    requires '/' !in x
    ensures Split(x + t) == [x + Split(t)[0]] + Split(t)[1..]
  {
    if x == "" {
      assert x + t == t && "" + Split(t)[0] == Split(t)[0];
    } else {
      SplitOn(x[1..], t);
      assert (x + t)[1..] == x[1..] + t;
      assert [x[0]] + (x[1..] + Split(t)[0]) == x + Split(t)[0];
    }
  }

  lemma SplitFirst(x: Bytes, t: Bytes, rest: seq<Bytes>)
    requires '/' !in x && Split(t) == [""] + rest
    ensures Split("/" + x + t) == [""] + [x] + rest
  {
    var p := "/" + x + t;
    assert p[1..] == x + t && p[0] == '/';
    SplitOn(x, t);
    assert x + "" == x && ([""] + rest)[1..] == rest;
  }

  lemma {:induction false} SplitJoin(parts: seq<Bytes>)
    requires AreParts(parts)
    ensures Split(Join(parts)) == [""] + parts
  {
    if parts != [] {
      SplitJoin(parts[1..]);
      SplitFirst(parts[0], Join(parts[1..]), parts[1..]);
      assert [""] + [parts[0]] + parts[1..] == [""] + parts;
    }
  }

  lemma {:induction false} StepsOn(parts: seq<Bytes>)
    requires AreParts(parts)
    ensures Steps([], [""] + parts) == parts
  {
    var cs := [""] + parts;
    if parts != [] {
      var n := |parts| - 1;
      StepsOn(parts[..n]);
      assert cs[..|cs| - 1] == [""] + parts[..n];
      assert parts == parts[..n] + [parts[n]];
    } else {
      assert cs[..|cs| - 1] == [];
    }
  }

  lemma PartsOfJoin(parts: seq<Bytes>)
    requires AreParts(parts)
    ensures Parts(Join(parts)) == parts
  {
    SplitJoin(parts);
    StepsOn(parts);
  }

  /** A path's parts are those of its plain form, which is a plain form once and for all. */
  lemma LexKeeps(p: Bytes)
    ensures Parts(Lex(p)) == Parts(p) && Lex(Lex(p)) == Lex(p)
  {
    PartsPlain(p);
    if Parts(p) == [] {
      assert "/"[1..] == "";
      assert Split("/") == ["", ""];
      assert Steps([], ["", ""]) == Step(Steps([], [""]), "") by {
        assert ["", ""][..1] == [""];
      }
    } else {
      PartsOfJoin(Parts(p));
    }
  }

  // ---- What a path's parts are ----

  /** A path ends, or goes on, at a slash. */
  predicate Ends(t: Bytes) {
    t == "" || t[0] == '/'
  }

  lemma {:induction false} SplitAt(p: Bytes, t: Bytes)
    ensures Split(p + "/" + t) == Split(p) + Split(t)
  {
    var all := p + "/" + t;
    if p == "" {
      assert all[0] == '/' && all[1..] == t;
    } else {
      SplitAt(p[1..], t);
      assert all[0] == p[0] && all[1..] == p[1..] + "/" + t;
      SplitHead(p[0], Split(p[1..]), Split(t));
    }
  }

  lemma SplitHead(c: char, a: seq<Bytes>, b: seq<Bytes>)
    requires a != []
    ensures [""] + (a + b) == ([""] + a) + b
    ensures [[c] + (a + b)[0]] + (a + b)[1..] == ([[c] + a[0]] + a[1..]) + b
  {
  }

  lemma SplitPiece(c: Bytes)
    requires '/' !in c
    ensures Split(c) == [c]
  {
    SplitOn(c, "");
    assert c + "" == c && [c] + [] == [c];
  }

  lemma {:induction false} StepsBoth(parts: seq<Bytes>, a: seq<Bytes>, b: seq<Bytes>)
    ensures Steps(parts, a + b) == Steps(Steps(parts, a), b)
    decreases |b|
  {
    if b == [] {
      assert a + b == a;
    } else {
      StepsBoth(parts, a, b[..|b| - 1]);
      assert (a + b)[..|a + b| - 1] == a + b[..|b| - 1];
    }
  }

  lemma StepsOne(parts: seq<Bytes>, c: Bytes)
    ensures Steps(parts, [c]) == Step(parts, c)
  {
    assert [c][..0] == [];
  }

  /** One more piece of a path is one more step. */
  lemma PieceOn(p: Bytes, c: Bytes)
    requires '/' !in c
    ensures Parts(p + "/" + c) == Step(Parts(p), c)
  {
    SplitAt(p, c);
    SplitPiece(c);
    StepsBoth([], Split(p), [c]);
    StepsOne(Parts(p), c);
  }

  /** Paths to one folder go on to the same. */
  lemma GoesOn(p: Bytes, q: Bytes, t: Bytes)
    requires Parts(p) == Parts(q) && Ends(t)
    ensures Parts(p + t) == Parts(q + t)
  {
    if t == "" {
      assert p + t == p && q + t == q;
    } else {
      GoesFrom(p, t);
      GoesFrom(q, t);
    }
  }

  lemma GoesFrom(p: Bytes, t: Bytes)
    requires t != "" && t[0] == '/'
    ensures Parts(p + t) == Steps(Parts(p), Split(t[1..]))
  {
    assert p + t == p + "/" + t[1..];
    SplitAt(p, t[1..]);
    StepsBoth([], Split(p), Split(t[1..]));
  }

  /** A name under a folder is one more part. */
  lemma PartOn(p: Bytes, c: Bytes)
    requires IsPart(c)
    ensures Parts(p + "/" + c) == Parts(p) + [c]
  {
    PieceOn(p, c);
  }

  /** Into a folder and back out is no way at all, wherever in a path. */
  lemma BackOut(p: Bytes, c: Bytes, t: Bytes)
    requires IsPart(c) && Ends(t)
    ensures Parts(p + "/" + c + "/.." + t) == Parts(p + t) && Lex(p + "/" + c + "/.." + t) == Lex(p + t)
  {
    PartOn(p, c);
    PieceOn(p + "/" + c, "..");
    assert p + "/" + c + "/" + ".." == p + "/" + c + "/..";
    GoesOn(p + "/" + c + "/..", p, t);
  }

  /** There is nothing over the root. */
  lemma OverRoot(t: Bytes)
    requires Ends(t)
    ensures Parts("/.." + t) == Parts(t)
  {
    EmptyParts();
    PieceOn("", "..");
    assert "" + "/" + ".." == "/..";
    GoesOn("/..", "", t);
    assert "" + t == t;
  }

  lemma EmptyParts()
    ensures Parts("") == []
  {
    StepsOne([], "");
  }

  /** Slashes one after the other, or at the end, and "." lead nowhere. */
  lemma StaysThere(p: Bytes, c: Bytes, t: Bytes)
    requires (c == "" || c == ".") && Ends(t)
    ensures Parts(p + "/" + c + t) == Parts(p + t)
  {
    PieceOn(p, c);
    GoesOn(p + "/" + c, p, t);
  }

  /** A path not from the root is taken from there. */
  lemma FromRoot(p: Bytes)
    ensures Parts("/" + p) == Parts(p)
  {
    SplitAt("", p);
    assert "" + "/" + p == "/" + p;
    StepsBoth([], [""], Split(p));
    StepsOne([], "");
  }

  /** A reading of paths as parts: from the root, a name goes on, "." and nothing stay, ".." goes back. */
  ghost predicate ReadsPaths(f: Bytes -> seq<Bytes>) {
    && f("") == [] && (forall p: Bytes :: f("/" + p) == f(p))
    && (forall p, c: Bytes | IsPart(c) :: f(p + "/" + c) == f(p) + [c])
    && (forall p, c: Bytes | c == "" || c == "." :: f(p + "/" + c) == f(p))
    && (forall p: Bytes :: f(p + "/..") == if f(p) == [] then [] else f(p)[..|f(p)| - 1])
  }

  /** The parts are such a reading. */
  lemma PartsRead()
    ensures ReadsPaths(Parts)
  {
    EmptyParts();
    forall p: Bytes
      ensures Parts("/" + p) == Parts(p)
    {
      FromRoot(p);
    }
    forall p: Bytes, c: Bytes | IsPart(c)
      ensures Parts(p + "/" + c) == Parts(p) + [c]
    {
      PartOn(p, c);
    }
    forall p: Bytes, c: Bytes | c == "" || c == "."
      ensures Parts(p + "/" + c) == Parts(p)
    {
      PieceOn(p, c);
    }
    forall p: Bytes
      ensures Parts(p + "/..") == if Parts(p) == [] then [] else Parts(p)[..|Parts(p)| - 1]
    {
      PieceOn(p, "..");
      assert p + "/" + ".." == p + "/..";
    }
  }

  /** And there is no other. */
  lemma {:induction false} OneReading(f: Bytes -> seq<Bytes>, p: Bytes)
    requires ReadsPaths(f)
    ensures f(p) == Parts(p)
    decreases |p|
  {
    EmptyParts();
    if p != "" {
      var q, c := LastPiece(p);
      PieceOn(q, c);
      if q + "/" + c == p {
        OneReading(f, q);
      } else {
        FromRoot(p);
        assert "" + "/" + c == "/" + p;
      }
      if c == ".." {
        assert q + "/" + c == q + "/..";
      }
    }
  }

  /** What is before the last slash, and after it. */
  lemma {:induction false} LastPiece(p: Bytes) returns (q: Bytes, c: Bytes)
    ensures '/' !in c && (q + "/" + c == p || (q == "" && c == p))
  {
    if p == "" {
      q, c := "", "";
    } else {
      q, c := LastPiece(p[1..]);
      if q + "/" + c == p[1..] {
        q := [p[0]] + q;
        assert q + "/" + c == p;
      } else if p[0] == '/' {
        assert "" + "/" + c == p;
      } else {
        c := p;
      }
    }
  }

  // ---- A prefix of the text is a prefix of the parts ----

  /** Two texts' first parts are the same when each ends at a slash or its text's end. */
  lemma FirstSame(x: Bytes, u: Bytes, y: Bytes, v: Bytes)
    requires '/' !in x && '/' !in y && "/" <= u && (v == "" || "/" <= v)
    ensures x + u <= y + v <==> x == y && u <= v
  {
    var s, t := x + u, y + v;
    if |x| < |y| {
      assert s[|x|] == '/' && t[|x|] == y[|x|];
    } else if |y| < |x| {
      assert s[|y|] == x[|y|] && (v != "" ==> t[|y|] == '/');
    } else if s <= t {
      assert x == s[..|x|] == t[..|x|] == y;
      assert u == s[|x|..] && v == t[|x|..];
    }
  }

  lemma FirstPrefix(x: Bytes, u: Bytes, y: Bytes, v: Bytes)
    requires '/' !in x && '/' !in y && (u == "" || "/" <= u) && (v == "" || "/" <= v)
    ensures "/" + x + u + "/" <= "/" + y + v <==> x == y && u + "/" <= v
  {
    FirstSame(x, u + "/", y, v);
    Under1("/", x + (u + "/"), y + v);
    assert "/" + (x + (u + "/")) == "/" + x + u + "/" && "/" + (y + v) == "/" + y + v;
  }

  /** One path's text, and a slash, starts another's exactly when its parts properly start the other's. */
  lemma {:induction false} JoinPrefix(a: seq<Bytes>, b: seq<Bytes>)
    requires AreParts(a) && AreParts(b)
    ensures Join(a) + "/" <= Join(b) <==> a < b
  {
    if a == [] {
      assert Join(a) + "/" == "/";
    } else if b != [] {
      FirstPrefix(a[0], Join(a[1..]), b[0], Join(b[1..]));
      JoinPrefix(a[1..], b[1..]);
      HeadPrefix(a, b);
    }
  }

  lemma HeadPrefix<T>(a: seq<T>, b: seq<T>)
    requires a != [] && b != []
    ensures a < b <==> a[0] == b[0] && a[1..] < b[1..]
  {
    assert a == [a[0]] + a[1..] && b == [b[0]] + b[1..];
    if a < b {
      assert a[1..] == b[..|a|][1..] == b[1..][..|a| - 1];
    }
  }

  lemma Under1(h: Bytes, s: Bytes, t: Bytes)
    ensures h + s <= h + t <==> s <= t
  {
    if h + s <= h + t {
      assert s == (h + s)[|h|..] && t == (h + t)[|h|..];
      assert (h + t)[..|h + s|] == h + s;
    }
  }

  lemma JoinSame(a: seq<Bytes>, b: seq<Bytes>)
    requires AreParts(a) && AreParts(b)
    ensures Join(a) == Join(b) <==> a == b
  {
    if Join(a) == Join(b) {
      SplitJoin(a);
      SplitJoin(b);
      assert a == ([""] + a)[1..] && b == ([""] + b)[1..];
    }
  }

  /** p is root or in it, by their texts. */
  predicate IsIn(p: Bytes, root: Bytes) {
    p == root || root + "/" <= p
  }

  /** Text and parts agree on what is in a folder other than /. */
  lemma InByParts(p: Bytes, root: Bytes)
    requires Parts(root) != []
    ensures IsIn(Lex(p), Lex(root)) <==> Parts(root) <= Parts(p)
  {
    PartsPlain(p);
    PartsPlain(root);
    var a, b := Parts(root), Parts(p);
    JoinPrefix(a, b);
    JoinSame(a, b);
    if b == [] {
      NotSlash(a);
    }
  }

  lemma NotSlash(a: seq<Bytes>)
    requires AreParts(a) && a != []
    ensures |Join(a)| > 1
  {
  }

  /** Nothing but / itself is in / by text. */
  lemma InSlash(p: Bytes)
    ensures IsIn(Lex(p), "/") <==> Parts(p) == []
  {
    PartsPlain(p);
    var b := Parts(p);
    if b != [] {
      assert Join(b)[1] == b[0][0];
      assert ("/" + "/")[1] == '/';
    }
  }

  /** A folder holds a path, by their texts. */
  predicate HoldsText(p: Bytes, x: Bytes) {
    p == "/" || p + "/" <= x
  }

  lemma HoldsByParts(p: Bytes, x: seq<Bytes>)
    requires AreParts(x) && x != []
    ensures HoldsText(Lex(p), Join(x)) <==> Parts(p) < x
  {
    PartsPlain(p);
    JoinPrefix(Parts(p), x);
    if Parts(p) != [] {
      NotSlash(Parts(p));
    }
  }
}
