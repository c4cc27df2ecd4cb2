/** The nearest word to a mistyped one (crates/omabox/src/args.rs: dist, did_you_mean). */
module EditDistance {
  import opened Options

  /** One step of turning a word into another, at its end: a character kept, one replaced, put in or
      left out, or the last two swapped. */
  datatype Edit = Keep | Replace | PutIn | LeaveOut | Swap

  /** The steps, in order, turn a into b. */
  ghost predicate Turns(script: seq<Edit>, a: string, b: string) {
    if script == [] then a == [] && b == []
    else
      var rest, n, m := script[..|script| - 1], |a|, |b|;
      match script[|script| - 1]
      case Keep => n > 0 && m > 0 && a[n - 1] == b[m - 1] && Turns(rest, a[..n - 1], b[..m - 1])
      case Replace => n > 0 && m > 0 && Turns(rest, a[..n - 1], b[..m - 1])
      case PutIn => m > 0 && Turns(rest, a, b[..m - 1])
      case LeaveOut => n > 0 && Turns(rest, a[..n - 1], b)
      case Swap => n > 1 && m > 1 && a[n - 1] == b[m - 2] && a[n - 2] == b[m - 1] && Turns(rest, a[..n - 2], b[..m - 2])
  }

  function Cost(script: seq<Edit>): nat {
    if script == [] then 0
    else Cost(script[..|script| - 1]) + if script[|script| - 1] == Keep then 0 else 1
  }

  /** d edits turn a into b, and no fewer do. */
  ghost predicate Least(d: nat, a: string, b: string) {
    && (exists script :: Turns(script, a, b) && Cost(script) == d)
    && (forall script | Turns(script, a, b) :: d <= Cost(script))
  }

  function Min(a: nat, b: nat): nat { if a <= b then a else b }

  function Max(a: nat, b: nat): nat { if a >= b then a else b }

  // ---- The table ----

  /** The table's entry for the first i characters of a and the first j of b. */
  function Entry(a: string, b: string, i: nat, j: nat): nat
    requires i <= |a| && j <= |b|
  {
    if i == 0 then j
    else if j == 0 then i
    else
      var x := Min(Min(Entry(a, b, i - 1, j) + 1, Entry(a, b, i, j - 1) + 1),
                   Entry(a, b, i - 1, j - 1) + if a[i - 1] != b[j - 1] then 1 else 0);
      if i > 1 && j > 1 && a[i - 1] == b[j - 2] && a[i - 2] == b[j - 1] then Min(x, Entry(a, b, i - 2, j - 2) + 1)
        else x
  }

  lemma CostLast(script: seq<Edit>, e: Edit)
    ensures Cost(script + [e]) == Cost(script) + if e == Keep then 0 else 1
  {
    assert (script + [e])[..|script|] == script;
  }

  lemma TurnsLast(script: seq<Edit>, e: Edit, a: string, b: string)
    ensures Turns(script + [e], a, b) <==>
              var n, m := |a|, |b|;
              match e
              case Keep => n > 0 && m > 0 && a[n - 1] == b[m - 1] && Turns(script, a[..n - 1], b[..m - 1])
              case Replace => n > 0 && m > 0 && Turns(script, a[..n - 1], b[..m - 1])
              case PutIn => m > 0 && Turns(script, a, b[..m - 1])
              case LeaveOut => n > 0 && Turns(script, a[..n - 1], b)
              case Swap =>
                n > 1 && m > 1 && a[n - 1] == b[m - 2] && a[n - 2] == b[m - 1] && Turns(script, a[..n - 2], b[..m - 2])
  {
    assert (script + [e])[..|script|] == script;
  }

  /** A last step e turns the first p characters of a and q of b, done, into the first i and j, done. */
  predicate Applies(e: Edit, a: string, b: string, i: nat, j: nat, p: nat, q: nat)
    requires i <= |a| && j <= |b|
  {
    match e
    case Keep => i == p + 1 && j == q + 1 && a[p] == b[q]
    case Replace => i == p + 1 && j == q + 1
    case PutIn => i == p && j == q + 1
    case LeaveOut => i == p + 1 && j == q
    case Swap => i == p + 2 && j == q + 2 && a[p + 1] == b[q] && a[p] == b[q + 1]
  }

  lemma TurnsOn(script: seq<Edit>, e: Edit, a: string, b: string, i: nat, j: nat, p: nat, q: nat)
    requires i <= |a| && j <= |b| && Applies(e, a, b, i, j, p, q) && Turns(script, a[..p], b[..q])
    ensures Turns(script + [e], a[..i], b[..j])
  {
    assert a[..i][..p] == a[..p] && b[..j][..q] == b[..q];
    TurnsLast(script, e, a[..i], b[..j]);
  }

  /** The step an entry was got by. */
  lemma EntryStep(a: string, b: string, i: nat, j: nat) returns (e: Edit, p: nat, q: nat)
    requires i <= |a| && j <= |b| && i + j > 0
    ensures Applies(e, a, b, i, j, p, q) && p + q < i + j
    ensures Entry(a, b, i, j) == Entry(a, b, p, q) + if e == Keep then 0 else 1
  {
    if i == 0 {
      e, p, q := PutIn, i, j - 1;
    } else if j == 0 {
      e, p, q := LeaveOut, i - 1, j;
    } else if Entry(a, b, i, j) == Entry(a, b, i - 1, j) + 1 {
      e, p, q := LeaveOut, i - 1, j;
    } else if Entry(a, b, i, j) == Entry(a, b, i, j - 1) + 1 {
      e, p, q := PutIn, i, j - 1;
    } else if Entry(a, b, i, j) == Entry(a, b, i - 1, j - 1) + if a[i - 1] != b[j - 1] then 1 else 0 {
      e, p, q := if a[i - 1] != b[j - 1] then Replace else Keep, i - 1, j - 1;
    } else {
      e, p, q := Swap, i - 2, j - 2;
    }
  }

  /** Some script has the entry's cost. */
  lemma {:induction false} EntryReached(a: string, b: string, i: nat, j: nat) returns (script: seq<Edit>)
    requires i <= |a| && j <= |b|
    ensures Turns(script, a[..i], b[..j]) && Cost(script) == Entry(a, b, i, j)
    decreases i + j
  {
    script := [];
    if i + j > 0 {
      var e, p, q := EntryStep(a, b, i, j);
      var rest := EntryReached(a, b, p, q);
      script := rest + [e];
      CostLast(rest, e);
      TurnsOn(rest, e, a, b, i, j, p, q);
    }
  }

  /** No script costs less. */
  lemma {:induction false} EntryLeast(a: string, b: string, i: nat, j: nat, script: seq<Edit>)
    requires i <= |a| && j <= |b| && Turns(script, a[..i], b[..j])
    ensures Entry(a, b, i, j) <= Cost(script)
    decreases |script|
  {
    if script != [] {
      var rest, e := script[..|script| - 1], script[|script| - 1];
      var p := match e
        case Keep => i - 1
        case Replace => i - 1
        case PutIn => i
        case LeaveOut => i - 1
        case Swap => i - 2;
      var q := match e
        case Keep => j - 1
        case Replace => j - 1
        case PutIn => j - 1
        case LeaveOut => j
        case Swap => j - 2;
      Shorter(a, i, p);
      Shorter(b, j, q);
      EntryLeast(a, b, p, q, rest);
      EntryBound(a, b, i, j);
    }
  }

  lemma Shorter(s: string, i: nat, p: nat)
    requires p <= i <= |s|
    ensures s[..i][..p] == s[..p]
  {
  }

  /** An entry beside another is at most one more. */
  lemma EntryBound(a: string, b: string, i: nat, j: nat)
    requires i <= |a| && j <= |b|
    ensures i > 0 ==> Entry(a, b, i, j) <= Entry(a, b, i - 1, j) + 1
    ensures j > 0 ==> Entry(a, b, i, j) <= Entry(a, b, i, j - 1) + 1
    ensures i > 0 && j > 0 ==> Entry(a, b, i, j) <= Entry(a, b, i - 1, j - 1) + if a[i - 1] != b[j - 1] then 1 else 0
  {
  }

  lemma EntryIsLeast(a: string, b: string)
    ensures Least(Entry(a, b, |a|, |b|), a, b)
  {
    assert a[..|a|] == a && b[..|b|] == b;
    var script := EntryReached(a, b, |a|, |b|);
    forall script | Turns(script, a, b)
      ensures Entry(a, b, |a|, |b|) <= Cost(script)
    {
      EntryLeast(a, b, |a|, |b|, script);
    }
  }

  /** The entry at i, j from those before it. */
  method Fill(d: array2<nat>, a: string, b: string, i: nat, j: nat)
    requires d.Length0 == |a| + 1 && d.Length1 == |b| + 1 && 0 < i <= |a| && 0 < j <= |b|
    requires d[i - 1, j] == Entry(a, b, i - 1, j) && d[i, j - 1] == Entry(a, b, i, j - 1)
    requires d[i - 1, j - 1] == Entry(a, b, i - 1, j - 1)
    requires i > 1 && j > 1 ==> d[i - 2, j - 2] == Entry(a, b, i - 2, j - 2)
    modifies d
    ensures d[i, j] == Entry(a, b, i, j)
    ensures forall k, m | 0 <= k <= |a| && 0 <= m <= |b| && (k != i || m != j) :: d[k, m] == old(d[k, m])
  {
    var x := Min(d[i - 1, j] + 1, d[i, j - 1] + 1);
    x := Min(x, d[i - 1, j - 1] + if a[i - 1] != b[j - 1] then 1 else 0);
    if i > 1 && j > 1 && a[i - 1] == b[j - 2] && a[i - 2] == b[j - 1] {
      x := Min(x, d[i - 2, j - 2] + 1);
    }
    d[i, j] := x;
  }

  /** The first i rows of the table filled, the first j entries of the next, and the first column. */
  ghost predicate Filled(d: array2<nat>, a: string, b: string, i: nat, j: nat)
    requires d.Length0 == |a| + 1 && d.Length1 == |b| + 1
    reads d
  {
    forall k, m | 0 <= k <= |a| && 0 <= m <= |b| && (k < i || m == 0 || (k == i && m < j)) ::
      d[k, m] == Entry(a, b, k, m)
  }

  /** The least number of edits, a swap of two neighbours one of them. */
  method Distance(a: string, b: string) returns (r: nat)
    ensures r == Entry(a, b, |a|, |b|) && Least(r, a, b)
  {
    var la, lb := |a|, |b|;
    var d := new nat[la + 1, lb + 1]((_, _) => 0);
    for i := 0 to la + 1
      invariant forall k | 0 <= k < i :: d[k, 0] == k
    {
      d[i, 0] := i;
    }
    for j := 0 to lb + 1
      invariant forall k | 0 < k <= la :: d[k, 0] == k
      invariant d[0, 0] == 0 && forall k | 0 <= k < j :: d[0, k] == k
    {
      d[0, j] := j;
    }
    for i := 1 to la + 1
      invariant Filled(d, a, b, i, 0)
    {
      for j := 1 to lb + 1
        invariant Filled(d, a, b, i, j)
      {
        Fill(d, a, b, i, j);
      }
    }
    EntryIsLeast(a, b);
    r := d[la, lb];
  }

  // ---- What the distance is like ----

  function Flip(script: seq<Edit>): (r: seq<Edit>)
    ensures |r| == |script|
  {
    seq(|script|,
      i requires 0 <= i < |script| => match script[i] case PutIn => LeaveOut case LeaveOut => PutIn case e => e)
  }

  lemma {:induction false} FlipTurns(script: seq<Edit>, a: string, b: string)
    requires Turns(script, a, b)
    ensures Turns(Flip(script), b, a) && Cost(Flip(script)) == Cost(script)
    decreases |script|
  {
    if script != [] {
      var rest, e, n, m := script[..|script| - 1], script[|script| - 1], |a|, |b|;
      assert Flip(script)[..|script| - 1] == Flip(rest);
      match e
      case Keep => FlipTurns(rest, a[..n - 1], b[..m - 1]);
      case Replace => FlipTurns(rest, a[..n - 1], b[..m - 1]);
      case PutIn => FlipTurns(rest, a, b[..m - 1]);
      case LeaveOut => FlipTurns(rest, a[..n - 1], b);
      case Swap => FlipTurns(rest, a[..n - 2], b[..m - 2]);
    }
  }

  lemma LeastSymmetric(d: nat, a: string, b: string)
    requires Least(d, a, b)
    ensures Least(d, b, a)
  {
    var script :| Turns(script, a, b) && Cost(script) == d;
    FlipTurns(script, a, b);
    forall back | Turns(back, b, a)
      ensures d <= Cost(back)
    {
      FlipTurns(back, b, a);
    }
  }

  lemma {:induction false} FreeMeansSame(script: seq<Edit>, a: string, b: string)
    requires Turns(script, a, b) && Cost(script) == 0
    ensures a == b
    decreases |script|
  {
    if script != [] {
      assert script[|script| - 1] == Keep;
      FreeMeansSame(script[..|script| - 1], a[..|a| - 1], b[..|b| - 1]);
      assert a == a[..|a| - 1] + [a[|a| - 1]] && b == b[..|b| - 1] + [b[|b| - 1]];
    }
  }

  lemma {:induction false} SameIsFree(a: string) returns (script: seq<Edit>)
    ensures Turns(script, a, a) && Cost(script) == 0
    decreases |a|
  {
    script := [];
    if a != [] {
      var rest := SameIsFree(a[..|a| - 1]);
      script := rest + [Keep];
      CostLast(rest, Keep);
      TurnsLast(rest, Keep, a, a);
    }
  }

  /** Nothing to edit, exactly between equal words. */
  lemma ZeroIffSame(d: nat, a: string, b: string)
    requires Least(d, a, b)
    ensures d == 0 <==> a == b
  {
    if d == 0 {
      var script :| Turns(script, a, b) && Cost(script) == d;
      FreeMeansSame(script, a, b);
    }
    if a == b {
      var script := SameIsFree(a);
    }
  }

  lemma {:induction false} CostOfLengths(script: seq<Edit>, a: string, b: string)
    requires Turns(script, a, b)
    ensures |a| <= |b| + Cost(script) && |b| <= |a| + Cost(script)
    decreases |script|
  {
    if script != [] {
      var rest, n, m := script[..|script| - 1], |a|, |b|;
      match script[|script| - 1]
      case Keep => CostOfLengths(rest, a[..n - 1], b[..m - 1]);
      case Replace => CostOfLengths(rest, a[..n - 1], b[..m - 1]);
      case PutIn => CostOfLengths(rest, a, b[..m - 1]);
      case LeaveOut => CostOfLengths(rest, a[..n - 1], b);
      case Swap => CostOfLengths(rest, a[..n - 2], b[..m - 2]);
    }
  }

  lemma {:induction false} EntryUpper(a: string, b: string, i: nat, j: nat)
    requires i <= |a| && j <= |b|
    ensures Entry(a, b, i, j) <= Max(i, j)
    decreases i + j
  {
    if i > 0 && j > 0 {
      EntryUpper(a, b, i - 1, j - 1);
      EntryBound(a, b, i, j);
    }
  }

  /** Between the difference of the lengths and the longer of them. */
  lemma LeastBounds(d: nat, a: string, b: string)
    requires Least(d, a, b)
    ensures |a| - |b| <= d && |b| - |a| <= d <= Max(|a|, |b|)
  {
    var script :| Turns(script, a, b) && Cost(script) == d;
    CostOfLengths(script, a, b);
    EntryIsLeast(a, b);
    EntryUpper(a, b, |a|, |b|);
  }

  // ---- One typo ----

  /** Between the same beginning and end, a letter wrong, one extra or missing, or two neighbours swapped. */
  predicate TypoAt(p: string, x: char, y: char, s: string, a: string, b: string) {
    || (x != y && a == p + [x] + s && b == p + [y] + s)
    || (a == p + [x] + s && b == p + s)
    || (a == p + s && b == p + [x] + s)
    || (x != y && a == p + [x, y] + s && b == p + [y, x] + s)
  }

  lemma TypoOn(p: string, x: char, y: char, s: string, a: string, b: string, c: char)
    requires TypoAt(p, x, y, s, a, b)
    ensures TypoAt(p, x, y, s + [c], a + [c], b + [c])
  {
    assert p + [x] + s + [c] == p + [x] + (s + [c]) && p + [y] + s + [c] == p + [y] + (s + [c]);
    assert p + s + [c] == p + (s + [c]);
    assert p + [x, y] + s + [c] == p + [x, y] + (s + [c]) && p + [y, x] + s + [c] == p + [y, x] + (s + [c]);
  }

  lemma TypoLast(e: Edit, p: string, a: string, b: string) returns (x: char, y: char)
    requires e != Keep && Applies(e, a, b, |a|, |b|, |p|, |p|) && p <= a && p <= b && a != b
    ensures TypoAt(p, x, y, "", a, b)
  {
    x, y := 'x', 'x';
    var n := |p|;
    assert forall t: string :: t + "" == t;
    if e == PutIn {
      x := b[n];
      assert b == p + [x] && a == p;
    } else if e == LeaveOut {
      x := a[n];
      assert a == p + [x] && b == p;
    } else if e == Replace {
      x, y := a[n], b[n];
      assert a == p + [x] && b == p + [y];
    } else {
      x, y := a[n], a[n + 1];
      assert a == p + [x, y] && b == p + [y, x];
    }
  }

  /** What one edit does. */
  lemma {:induction false} OneEditIs(script: seq<Edit>, a: string, b: string)
    returns (p: string, x: char, y: char, s: string)
    requires Turns(script, a, b) && Cost(script) == 1 && a != b
    ensures TypoAt(p, x, y, s, a, b)
    decreases |script|
  {
    var rest, e, n, m := script[..|script| - 1], script[|script| - 1], |a|, |b|;
    if e == Keep {
      assert a == a[..n - 1] + [a[n - 1]] && b == b[..m - 1] + [b[m - 1]];
      p, x, y, s := OneEditIs(rest, a[..n - 1], b[..m - 1]);
      TypoOn(p, x, y, s, a[..n - 1], b[..m - 1], a[n - 1]);
      s := s + [a[n - 1]];
    } else {
      var i := if e == PutIn then n else if e == Swap then n - 2 else n - 1;
      var j := if e == LeaveOut then m else if e == Swap then m - 2 else m - 1;
      assert a[..n] == a && b[..m] == b;
      FreeMeansSame(rest, a[..i], b[..j]);
      p, s := a[..i], "";
      x, y := TypoLast(e, p, a, b);
    }
  }

  lemma {:induction false} KeepsOn(script: seq<Edit>, a: string, b: string, s: string) returns (r: seq<Edit>)
    requires Turns(script, a, b)
    ensures Turns(r, a + s, b + s) && Cost(r) == Cost(script)
    decreases |s|
  {
    if s == "" {
      r := script;
      assert a + s == a && b + s == b;
    } else {
      var n, c := |s| - 1, s[|s| - 1];
      r := KeepsOn(script, a, b, s[..n]);
      assert (a + s)[..|a + s| - 1] == a + s[..n] && (b + s)[..|b + s| - 1] == b + s[..n];
      TurnsLast(r, Keep, a + s, b + s);
      CostLast(r, Keep);
      r := r + [Keep];
    }
  }

  lemma TypoIsEdit(p: string, x: char, y: char, s: string, a: string, b: string) returns (script: seq<Edit>)
    requires TypoAt(p, x, y, s, a, b)
    ensures Turns(script, a, b) && Cost(script) == 1 && a != b
  {
    var free := SameIsFree(p);
    var e := if |a| < |b| then PutIn else if |a| > |b| then LeaveOut
             else if a == p + [x] + s then Replace else Swap;
    var i := |p| + if e == PutIn then 0 else if e == Swap then 2 else 1;
    var j := |p| + if e == LeaveOut then 0 else if e == Swap then 2 else 1;
    assert a[..i][..|p|] == p && b[..j][..|p|] == p;
    TurnsLast(free, e, a[..i], b[..j]);
    CostLast(free, e);
    script := KeepsOn(free + [e], a[..i], b[..j], s);
    assert a[..i] + s == a && b[..j] + s == b;
    if e == Replace {
      assert a[|p|] == x && b[|p|] == y;
    } else if e == Swap {
      assert a[|p|] == x && b[|p|] == y;
    }
  }

  /** Words are one edit apart exactly when one is the other with one typo. */
  lemma OneTypo(a: string, b: string)
    ensures Least(1, a, b) <==> exists p, x, y, s :: TypoAt(p, x, y, s, a, b)
  {
    if Least(1, a, b) {
      var script :| Turns(script, a, b) && Cost(script) == 1;
      ZeroIffSame(1, a, b);
      var p, x, y, s := OneEditIs(script, a, b);
    }
    if p, x, y, s :| TypoAt(p, x, y, s, a, b) {
      var script := TypoIsEdit(p, x, y, s, a, b);
      forall other | Turns(other, a, b)
        ensures 1 <= Cost(other)
      {
        if Cost(other) == 0 {
          FreeMeansSame(other, a, b);
        }
      }
    }
  }

  // ---- The word meant ----

  /** The candidates in their order, empty ones and repeats left out. */
  function Choices(candidates: seq<string>): seq<string> {
    if candidates == [] then []
    else
      var before, k := Choices(candidates[..|candidates| - 1]), candidates[|candidates| - 1];
      if k == "" || k in before then before else before + [k]
  }

  lemma {:induction false} ChoicesApart(candidates: seq<string>)
    ensures forall i, j | 0 <= i < j < |Choices(candidates)| :: Choices(candidates)[i] != Choices(candidates)[j]
    ensures forall k :: k in Choices(candidates) <==> k in candidates && k != ""
  {
    if candidates != [] {
      var before := candidates[..|candidates| - 1];
      ChoicesApart(before);
      assert candidates == before + [candidates[|candidates| - 1]];
    }
  }

  function TrimDashes(s: string): string {
    if s != [] && s[0] == '-' then TrimDashes(s[1..]) else s
  }

  /** k is a candidate that the word, two characters or more after its dashes, is the start of. */
  predicate StartedBy(lw: string, candidates: seq<string>, k: string) {
    |TrimDashes(lw)| >= 2 && k in candidates && k != "" && lw <= k && k != lw
  }

  /** The only candidate the word is the start of. */
  ghost predicate OnlyStart(lw: string, candidates: seq<string>, k: string) {
    StartedBy(lw, candidates, k) && forall m | StartedBy(lw, candidates, m) :: m == k
  }

  /** The candidate goes on where the word ends, and no other candidate does. */
  lemma StartIs(lw: string, candidates: seq<string>, k: string)
    ensures OnlyStart(lw, candidates, k) <==>
      |TrimDashes(lw)| >= 2 && k in candidates && GoesOn(lw, k) && forall m | m in candidates && GoesOn(lw, m) :: m == k
  {
    forall m
      ensures StartedBy(lw, candidates, m) <==> |TrimDashes(lw)| >= 2 && m in candidates && GoesOn(lw, m)
    {
      if lw <= m && m != lw {
        assert m == lw + m[|lw|..];
      }
    }
  }

  ghost predicate GoesOn(word: string, k: string) {
    exists t: string | t != "" :: k == word + t
  }

  /** How many typos a word may hold. */
  function Typos(n: nat): nat {
    if n <= 4 then 1 else if n <= 10 then 2 else 3
  }

  function Away(lw: string, k: string): nat {
    Entry(lw, k, |lw|, |k|)
  }

  /** The one candidate nearest the word, at least one typo away and no more than it may hold. */
  ghost predicate OnlyNearest(lw: string, candidates: seq<string>, k: string) {
    && k in candidates && k != "" && 1 <= Away(lw, k) <= Typos(|lw|)
    && forall m | m in candidates && m != "" && m != k :: Away(lw, m) > Away(lw, k)
  }

  /** The candidate is d edits from the word: one, or, past four letters, two, or, past ten, three; and all others are
      further. */
  ghost predicate NearestAt(d: nat, lw: string, candidates: seq<string>, k: string) {
    && k in candidates && k != "" && Least(d, lw, k)
    && 1 <= d <= 3 && (|lw| <= 10 ==> d <= 2) && (|lw| <= 4 ==> d == 1)
    && forall m, e: nat | m in candidates && m != "" && m != k && Least(e, lw, m) :: d < e
  }

  lemma NearestIs(lw: string, candidates: seq<string>, k: string)
    ensures OnlyNearest(lw, candidates, k) <==> exists d: nat :: NearestAt(d, lw, candidates, k)
  {
    EntryIsLeast(lw, k);
    forall m
      ensures Least(Away(lw, m), lw, m)
    {
      EntryIsLeast(lw, m);
    }
    forall m, d: nat | Least(d, lw, m)
      ensures d == Away(lw, m)
    {
      OneLeast(d, Away(lw, m), lw, m);
    }
    if OnlyNearest(lw, candidates, k) {
      assert NearestAt(Away(lw, k), lw, candidates, k);
    }
  }

  lemma OneLeast(d: nat, e: nat, a: string, b: string)
    requires Least(d, a, b) && Least(e, a, b)
    ensures d == e
  {
  }

  /** A word without the dashes it begins with. */
  lemma {:induction false} TrimIs(s: string) returns (dashes: string)
    ensures s == dashes + TrimDashes(s) && forall i | 0 <= i < |dashes| :: dashes[i] == '-'
    ensures TrimDashes(s) == "" || TrimDashes(s)[0] != '-'
  {
    dashes := "";
    if s != [] && s[0] == '-' {
      var rest := TrimIs(s[1..]);
      dashes := ['-'] + rest;
      assert s == ['-'] + s[1..];
    }
  }

  method CollectChoices(candidates: seq<string>) returns (c: seq<string>)
    ensures c == Choices(candidates)
  {
    c := [];
    for i := 0 to |candidates|
      invariant c == Choices(candidates[..i])
    {
      assert candidates[..i + 1][..i] == candidates[..i];
      if candidates[i] != "" && candidates[i] !in c {
        c := c + [candidates[i]];
      }
    }
    assert candidates[..|candidates|] == candidates;
  }

  /** Those of the candidates that the word is the start of, and is not. */
  function Started(lw: string, c: seq<string>): seq<string> {
    if c == [] then []
    else
      var before, k := Started(lw, c[..|c| - 1]), c[|c| - 1];
      if lw <= k && k != lw then before + [k] else before
  }

  lemma {:induction false} StartedAre(lw: string, c: seq<string>)
    ensures forall k :: k in Started(lw, c) <==> k in c && lw <= k && k != lw
  {
    if c != [] {
      StartedAre(lw, c[..|c| - 1]);
      assert c == c[..|c| - 1] + [c[|c| - 1]];
    }
  }

  lemma {:induction false} StartedApart(lw: string, c: seq<string>)
    requires forall i, j | 0 <= i < j < |c| :: c[i] != c[j]
    ensures forall i, j | 0 <= i < j < |Started(lw, c)| :: Started(lw, c)[i] != Started(lw, c)[j]
  {
    if c != [] {
      var before := c[..|c| - 1];
      StartedApart(lw, before);
      StartedAre(lw, before);
      assert c[|c| - 1] !in before;
    }
  }

  /** The candidate a start names, when only one does. */
  method ByStart(lw: string, candidates: seq<string>, c: seq<string>) returns (one: Option<string>)
    requires c == Choices(candidates) && |TrimDashes(lw)| >= 2
    ensures one.Some? ==> OnlyStart(lw, candidates, one.value)
    ensures one.None? ==> forall k :: !OnlyStart(lw, candidates, k)
  {
    var starts: seq<string> := [];
    for i := 0 to |c|
      invariant starts == Started(lw, c[..i])
    {
      assert c[..i + 1][..i] == c[..i];
      if lw <= c[i] && c[i] != lw {
        starts := starts + [c[i]];
      }
    }
    assert c[..|c|] == c;
    OnlyStarted(lw, candidates, starts);
    one := if |starts| == 1 then Some(starts[0]) else None;
  }

  lemma OnlyStarted(lw: string, candidates: seq<string>, starts: seq<string>)
    requires starts == Started(lw, Choices(candidates)) && |TrimDashes(lw)| >= 2
    ensures |starts| == 1 ==> OnlyStart(lw, candidates, starts[0])
    ensures |starts| != 1 ==> forall k :: !OnlyStart(lw, candidates, k)
  {
    ChoicesApart(candidates);
    StartedAre(lw, Choices(candidates));
    StartedApart(lw, Choices(candidates));
    assert forall k :: StartedBy(lw, candidates, k) <==> k in starts;
    if |starts| >= 2 {
      assert starts[0] in starts && starts[1] in starts && starts[0] != starts[1];
    }
  }

  /** The nearest candidate, when it is the only one as near and near enough. */
  method ByDistance(lw: string, candidates: seq<string>, c: seq<string>) returns (one: Option<string>)
    requires c == Choices(candidates)
    ensures one.Some? ==> OnlyNearest(lw, candidates, one.value)
    ensures one.None? ==> forall k :: !OnlyNearest(lw, candidates, k)
  {
    ChoicesApart(candidates);
    var t := Typos(|lw|);
    var best, bk, ties := t + 1, "", 0;
    for i := 0 to |c|
      invariant Nearest(lw, c, i, t, best, bk, ties)
    {
      NearestOn(lw, c, i, t, best, bk, ties);
      var d := Distance(lw, c[i]);
      if d < best {
        best, bk, ties := d, c[i], 0;
      } else if d == best {
        ties := ties + 1;
      }
    }
    NearestOnly(lw, candidates, t, best, bk, ties);
    one := if best <= t && best > 0 && ties == 0 then Some(bk) else None;
  }

  /** Of the first i candidates, apart, the best within t, and how many more are as near. */
  ghost predicate Nearest(lw: string, c: seq<string>, i: nat, t: nat, best: nat, bk: string, ties: nat)
    requires i <= |c|
  {
    && (forall j, k | 0 <= j < k < |c| :: c[j] != c[k])
    && best <= t + 1 && (forall m | 0 <= m < i :: Away(lw, c[m]) >= best)
    && (best <= t ==> (exists m | 0 <= m < i :: c[m] == bk) && Away(lw, bk) == best)
    && (best <= t && ties == 0 ==> forall m | 0 <= m < i && c[m] != bk :: Away(lw, c[m]) > best)
    && (best <= t && ties > 0 ==> exists m | 0 <= m < i :: c[m] != bk && Away(lw, c[m]) == best)
  }

  lemma NearestOn(lw: string, c: seq<string>, i: nat, t: nat, best: nat, bk: string, ties: nat)
    requires i < |c| && Nearest(lw, c, i, t, best, bk, ties)
    ensures var d := Away(lw, c[i]);
      if d < best then Nearest(lw, c, i + 1, t, d, c[i], 0)
      else if d == best then Nearest(lw, c, i + 1, t, best, bk, ties + 1)
      else Nearest(lw, c, i + 1, t, best, bk, ties)
  {
    var d := Away(lw, c[i]);
    if d == best && best <= t {
      assert c[i] != bk;
    }
  }

  lemma NearestOnly(lw: string, candidates: seq<string>, t: nat, best: nat, bk: string, ties: nat)
    requires t == Typos(|lw|) && Nearest(lw, Choices(candidates), |Choices(candidates)|, t, best, bk, ties)
    ensures best <= t && best > 0 && ties == 0 ==> OnlyNearest(lw, candidates, bk)
    ensures !(best <= t && best > 0 && ties == 0) ==> forall k :: !OnlyNearest(lw, candidates, k)
  {
    var c := Choices(candidates);
    ChoicesApart(candidates);
    assert forall k | k in c :: Away(lw, k) >= best;
    if best <= t && ties > 0 {
      var m :| 0 <= m < |c| && c[m] != bk && Away(lw, c[m]) == best;
      assert c[m] in c && bk in c;
    }
  }

  /** The candidate meant by a word: the only one it is the start of, or the only one nearest and near
      enough. `lower` is the language's own lower case. */
  method DidYouMean(word: string, candidates: seq<string>, lower: string -> string) returns (one: Option<string>)
    ensures word == "" ==> one == None
    ensures word != "" ==> forall k | OnlyStart(lower(word), candidates, k) :: one == Some(k)
    ensures word != "" && (forall k :: !OnlyStart(lower(word), candidates, k)) ==>
              match one
              case Some(k) => OnlyNearest(lower(word), candidates, k)
              case None => forall k :: !OnlyNearest(lower(word), candidates, k)
  {
    if word == "" || |candidates| == 0 {
      return None;
    }
    var c := CollectChoices(candidates);
    var lw := lower(word);
    if |TrimDashes(lw)| >= 2 {
      one := ByStart(lw, candidates, c);
      if one.Some? {
        return one;
      }
    }
    one := ByDistance(lw, candidates, c);
  }
}
