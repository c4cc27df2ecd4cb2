/** The keys of an accessibility tree, and the part of a tree a crop keeps (share/check.py: load,
    crop_tree). */
module TreeKeys {
  import opened Options

  datatype Bounds = Bounds(x: int, y: int, w: int, h: int)

  /** An element of a dump: its depth and role, its bounds if it has some, its other fields; `key` is
      there in a crop's dump only, and `crop` on the roots of one. */
  datatype Node = Node(key: Option<string>, depth: nat, role: string, bounds: Option<Bounds>,
                       crop: Option<Bounds>, fields: string)

  // ---- Where an element is, said of the list alone ----

  predicate Plain(n: Node) {
    n.key.None?
  }

  /** The last of the first i elements at depth e or above it, or -1. */
  function LastUpTo(nodes: seq<Node>, i: nat, e: nat): (j: int)
    requires i <= |nodes|
    ensures -1 <= j < i
    ensures j >= 0 ==> Plain(nodes[j]) && nodes[j].depth <= e
    ensures forall k | j < k < i :: Plain(nodes[k]) ==> nodes[k].depth > e
  {
    if i == 0 then -1
    else if Plain(nodes[i - 1]) && nodes[i - 1].depth <= e then i - 1
    else LastUpTo(nodes, i - 1, e)
  }

  /** How many of the first i elements are at depth d with this role, since the last one above d. */
  function Count(nodes: seq<Node>, i: nat, d: nat, role: string): nat
    requires i <= |nodes|
  {
    if i == 0 then 0
    else if !Plain(nodes[i - 1]) then Count(nodes, i - 1, d, role)
    else if nodes[i - 1].depth < d then 0
    else Count(nodes, i - 1, d, role) + if nodes[i - 1].depth == d && nodes[i - 1].role == role then 1 else 0
  }

  /** An earlier element among the first i that is a child of the same parent as one that comes now at depth d, with
      this role: none since is nearer the root. */
  predicate IsBefore(nodes: seq<Node>, i: nat, d: nat, role: string, j: nat)
    requires i <= |nodes|
  {
    && j < i && Plain(nodes[j]) && nodes[j].depth == d && nodes[j].role == role
    && forall m | j < m < i && Plain(nodes[m]) :: nodes[m].depth >= d
  }

  ghost function Earlier(nodes: seq<Node>, i: nat, d: nat, role: string): set<nat>
    requires i <= |nodes|
  {
    set j: nat | j < i && IsBefore(nodes, i, d, role, j)
  }

  /** The count is how many there are. */
  lemma {:induction false} CountIs(nodes: seq<Node>, i: nat, d: nat, role: string)
    requires i <= |nodes|
    ensures Count(nodes, i, d, role) == |Earlier(nodes, i, d, role)|
  {
    if i > 0 {
      CountIs(nodes, i - 1, d, role);
      if Plain(nodes[i - 1]) && nodes[i - 1].depth < d {
        EarlierNone(nodes, i - 1, d, role);
      } else if Plain(nodes[i - 1]) && nodes[i - 1].depth == d && nodes[i - 1].role == role {
        EarlierOne(nodes, i - 1, d, role);
      } else {
        EarlierSame(nodes, i - 1, d, role);
      }
    } else {
      assert Earlier(nodes, 0, d, role) == {};
    }
  }

  lemma EarlierNone(nodes: seq<Node>, n: nat, d: nat, role: string)
    requires n < |nodes| && Plain(nodes[n]) && nodes[n].depth < d
    ensures Earlier(nodes, n + 1, d, role) == {}
  {
    assert Earlier(nodes, n + 1, d, role) == {};
  }

  lemma EarlierOne(nodes: seq<Node>, n: nat, d: nat, role: string)
    requires n < |nodes| && Plain(nodes[n]) && nodes[n].depth == d && nodes[n].role == role
    ensures Earlier(nodes, n + 1, d, role) == Earlier(nodes, n, d, role) + {n}
  {
    forall j: nat
      ensures j in Earlier(nodes, n + 1, d, role) <==> j in Earlier(nodes, n, d, role) || j == n
    {
      StillBefore(nodes, n, d, role, j);
    }
  }

  lemma EarlierSame(nodes: seq<Node>, n: nat, d: nat, role: string)
    requires n < |nodes| && (Plain(nodes[n]) ==> nodes[n].depth >= d && !(nodes[n].depth == d && nodes[n].role == role))
    ensures Earlier(nodes, n + 1, d, role) == Earlier(nodes, n, d, role)
  {
    forall j: nat
      ensures j in Earlier(nodes, n + 1, d, role) <==> j in Earlier(nodes, n, d, role)
    {
      StillBefore(nodes, n, d, role, j);
    }
  }

  lemma StillBefore(nodes: seq<Node>, n: nat, d: nat, role: string, j: nat)
    requires n < |nodes| && (Plain(nodes[n]) ==> nodes[n].depth >= d)
    ensures j < n ==> (IsBefore(nodes, n + 1, d, role, j) <==> IsBefore(nodes, n, d, role, j))
  {
  }

  function Digit(n: nat): char
    requires n < 10
  {
    "0123456789"[n]
  }

  function Decimal(n: nat): string {
    if n < 10 then [Digit(n)] else Decimal(n / 10) + [Digit(n % 10)]
  }

  function Label(role: string, n: nat): string {
    role + "#" + Decimal(n)
  }

  /** An element's own part of its key: its role, and its number among its parent's children of it. */
  function Part(nodes: seq<Node>, i: nat): string
    requires i < |nodes|
  {
    Label(nodes[i].role, Count(nodes, i, nodes[i].depth, nodes[i].role) + 1)
  }

  /** What stands at depth e above element i: its ancestor's part, or "?" where the list skips one. */
  function Above(nodes: seq<Node>, i: nat, e: nat): string
    requires i <= |nodes|
  {
    var j := LastUpTo(nodes, i, e);
    if j >= 0 && nodes[j].depth == e then Part(nodes, j) else "?"
  }

  function Path(nodes: seq<Node>, i: nat): seq<string>
    requires i < |nodes|
  {
    seq(nodes[i].depth, e requires 0 <= e => Above(nodes, i, e)) + [Part(nodes, i)]
  }

  function Join(parts: seq<string>): string {
    if |parts| == 0 then ""
    else if |parts| == 1 then parts[0]
    else parts[0] + "/" + Join(parts[1..])
  }

  function KeyOf(nodes: seq<Node>, i: nat): string
    requires i < |nodes|
  {
    if Plain(nodes[i]) then Join(Path(nodes, i)) else nodes[i].key.value
  }

  function Keys(nodes: seq<Node>): seq<string> {
    seq(|nodes|, i requires 0 <= i < |nodes| => KeyOf(nodes, i))
  }

  /** The dictionary: a later element with the key of an earlier one takes its place. */
  function Table(keys: seq<string>, nodes: seq<Node>, n: nat): map<string, Node>
    requires n <= |nodes| == |keys|
  {
    if n == 0 then map[] else Table(keys, nodes, n - 1)[keys[n - 1] := nodes[n - 1]]
  }

  /** Its order: each key where it was first put in. */
  function Order(keys: seq<string>, n: nat): seq<string>
    requires n <= |keys|
  {
    if n == 0 then []
    else Order(keys, n - 1) + if keys[n - 1] in keys[..n - 1] then [] else [keys[n - 1]]
  }

  // ---- The loop ----

  /** The numbers of the children seen so far at each open depth. */
  ghost predicate Counted(counts: seq<map<string, nat>>, nodes: seq<Node>, i: nat)
    requires i <= |nodes|
  {
    && (forall d, role | 0 <= d < |counts| :: Number(counts[d], role) == Count(nodes, i, d, role))
    && (forall d: nat, role | d >= |counts| :: Count(nodes, i, d, role) == 0)
  }

  /** The stack is the path of the last element without a key. */
  ghost predicate Stacked(stack: seq<string>, nodes: seq<Node>, i: nat)
    requires i <= |nodes|
  {
    && (forall e | 0 <= e < |stack| :: stack[e] == Above(nodes, i, e))
    && (forall e: nat | e >= |stack| :: Above(nodes, i, e) == "?")
  }

  /** The stack cut or filled with "?" to the depth of the next element. */
  method Reach(stack: seq<string>, d: nat) returns (r: seq<string>)
    ensures |r| == d && forall e | 0 <= e < d :: r[e] == if e < |stack| then stack[e] else "?"
  {
    r := if |stack| > d then stack[..d] else stack;
    while |r| < d
      invariant |r| <= d && forall e | 0 <= e < |r| :: r[e] == if e < |stack| then stack[e] else "?"
    {
      r := r + ["?"];
    }
  }

  /** The counts of the depths below the next element dropped, those it opens started. */
  method Recount(counts: seq<map<string, nat>>, d: nat) returns (r: seq<map<string, nat>>)
    ensures |r| == d + 1 && forall e | 0 <= e <= d :: r[e] == if e < |counts| then counts[e] else map[]
  {
    r := if |counts| > d + 1 then counts[..d + 1] else counts;
    while |r| <= d
      invariant |r| <= d + 1 && forall e | 0 <= e < |r| :: r[e] == if e < |counts| then counts[e] else map[]
    {
      r := r + [map[]];
    }
  }

  function Number(counts: map<string, nat>, role: string): nat {
    if role in counts then counts[role] else 0
  }

  lemma CountedStep(counts: seq<map<string, nat>>, nodes: seq<Node>, i: nat, next: seq<map<string, nat>>)
    requires i < |nodes| && Plain(nodes[i]) && Counted(counts, nodes, i)
    requires var d := nodes[i].depth;
      && |next| == d + 1
      && (forall e | 0 <= e < d :: next[e] == if e < |counts| then counts[e] else map[])
      && (forall role :: Number(next[d], role) ==
            (if d < |counts| then Number(counts[d], role) else 0) + if role == nodes[i].role then 1 else 0)
    ensures Counted(next, nodes, i + 1)
  {
    var d := nodes[i].depth;
    forall e, role | 0 <= e < |next|
      ensures Number(next[e], role) == Count(nodes, i + 1, e, role)
    {
      if e < |counts| {
        assert Number(counts[e], role) == Count(nodes, i, e, role);
      } else {
        assert Count(nodes, i, e, role) == 0;
      }
    }
  }

  lemma StackedStep(stack: seq<string>, nodes: seq<Node>, i: nat, next: seq<string>)
    requires i < |nodes| && Plain(nodes[i]) && Stacked(stack, nodes, i)
    requires var d := nodes[i].depth;
      && |next| == d + 1 && next[d] == Part(nodes, i)
      && (forall e | 0 <= e < d :: next[e] == if e < |stack| then stack[e] else "?")
    ensures next == Path(nodes, i) && Stacked(next, nodes, i + 1)
  {
    forall e: nat | e < nodes[i].depth
      ensures next[e] == Above(nodes, i, e) == Above(nodes, i + 1, e)
    {
      if e >= |stack| {
        assert Above(nodes, i, e) == "?";
      }
    }
    var after := i + 1;
    forall e: nat | e > nodes[i].depth
      ensures Above(nodes, after, e) == "?"
    {
      assert LastUpTo(nodes, after, e) == i;
    }
  }

  lemma KeyedStep(stack: seq<string>, counts: seq<map<string, nat>>, nodes: seq<Node>, i: nat)
    requires i < |nodes| && !Plain(nodes[i]) && Stacked(stack, nodes, i) && Counted(counts, nodes, i)
    ensures Stacked(stack, nodes, i + 1) && Counted(counts, nodes, i + 1)
  {
    var after := i + 1;
    forall e: nat
      ensures Above(nodes, after, e) == Above(nodes, i, e)
    {
      assert LastUpTo(nodes, after, e) == LastUpTo(nodes, i, e);
    }
    forall e: nat | e >= |stack|
      ensures Above(nodes, after, e) == "?"
    {
      assert Above(nodes, i, e) == "?";
    }
    forall d: nat, role
      ensures Count(nodes, after, d, role) == Count(nodes, i, d, role)
    {
    }
    forall d: nat, role | d >= |counts|
      ensures Count(nodes, after, d, role) == 0
    {
      assert Count(nodes, i, d, role) == 0;
    }
    forall d, role | 0 <= d < |counts|
      ensures Number(counts[d], role) == Count(nodes, after, d, role)
    {
      assert Number(counts[d], role) == Count(nodes, i, d, role);
    }
  }

  /** The key of an element without one, and the stack and counts after it. */
  method Place(stack: seq<string>, counts: seq<map<string, nat>>, n: Node, ghost nodes: seq<Node>, ghost i: nat)
    returns (key: string, stack': seq<string>, counts': seq<map<string, nat>>)
    requires i < |nodes| && nodes[i] == n && Plain(n) && Stacked(stack, nodes, i) && Counted(counts, nodes, i)
    ensures key == KeyOf(nodes, i) && Stacked(stack', nodes, i + 1) && Counted(counts', nodes, i + 1)
  {
    var d := n.depth;
    var open := Reach(stack, d);
    var nums := Recount(counts, d);
    assert Number(nums[d], n.role) == Count(nodes, i, d, n.role) by {
      if d < |counts| {
        assert Number(counts[d], n.role) == Count(nodes, i, d, n.role);
      }
    }
    var number := Number(nums[d], n.role) + 1;
    counts' := nums[d := nums[d][n.role := number]];
    stack' := open + [Label(n.role, number)];
    CountedStep(counts, nodes, i, counts');
    StackedStep(stack, nodes, i, stack');
    key := Join(stack');
  }

  /** The tree by its elements' places: an element's key is its path from the root. */
  method Load(nodes: seq<Node>) returns (tree: map<string, Node>, order: seq<string>)
    ensures tree == Table(Keys(nodes), nodes, |nodes|)
    ensures order == Order(Keys(nodes), |nodes|)
  {
    tree, order := map[], [];
    var stack: seq<string> := [];
    var counts: seq<map<string, nat>> := [];
    ghost var keys := Keys(nodes);
    for i := 0 to |nodes|
      invariant tree == Table(keys, nodes, i) && order == Order(keys, i)
      invariant forall k :: k in tree <==> k in keys[..i]
      invariant Counted(counts, nodes, i) && Stacked(stack, nodes, i)
    {
      var n := nodes[i];
      var key;
      if n.key.Some? {
        key := n.key.value;
        KeyedStep(stack, counts, nodes, i);
      } else {
        key, stack, counts := Place(stack, counts, n, nodes, i);
      }
      assert key == keys[i] && keys[..i + 1] == keys[..i] + [key];
      if key !in tree {
        order := order + [key];
      }
      tree := tree[key := n];
    }
  }

  // ---- Distinct elements have distinct keys ----

  predicate NoSlash(s: string) {
    '/' !in s
  }

  lemma {:induction false} DecimalDigits(n: nat)
    ensures |Decimal(n)| >= 1 && '#' !in Decimal(n) && NoSlash(Decimal(n))
  {
    if n >= 10 {
      DecimalDigits(n / 10);
    }
  }

  lemma DecimalLast(m: nat)
    ensures |Decimal(m)| >= 1 && Decimal(m)[|Decimal(m)| - 1] == Digit(m % 10)
    ensures Decimal(m)[..|Decimal(m)| - 1] == if m < 10 then "" else Decimal(m / 10)
    ensures |Decimal(m)| == 1 <==> m < 10
  {
    DecimalDigits(m / 10);
  }

  lemma {:induction false} DecimalInjective(m: nat, n: nat)
    requires Decimal(m) == Decimal(n)
    ensures m == n
  {
    DecimalLast(m);
    DecimalLast(n);
    if m >= 10 {
      DecimalInjective(m / 10, n / 10);
    }
  }

  lemma LastHash(r: string, m: nat)
    ensures Label(r, m)[|r|] == '#'
    ensures forall k | |r| < k < |Label(r, m)| :: Label(r, m)[k] != '#'
  {
    DecimalDigits(m);
    forall k | |r| < k < |Label(r, m)|
      ensures Label(r, m)[k] != '#'
    {
      assert Label(r, m)[k] == Decimal(m)[k - |r| - 1];
    }
  }

  lemma LabelInjective(r: string, m: nat, s: string, n: nat)
    requires Label(r, m) == Label(s, n)
    ensures r == s && m == n
  {
    var a := Label(r, m);
    LastHash(r, m);
    LastHash(s, n);
    assert r == a[..|r|] && s == a[..|s|];
    assert Decimal(m) == a[|r| + 1..] && Decimal(n) == a[|s| + 1..];
    DecimalInjective(m, n);
  }

  lemma {:induction false} JoinInjective(a: seq<string>, b: seq<string>)
    requires |a| >= 1 && |b| >= 1 && Join(a) == Join(b)
    requires (forall p <- a :: NoSlash(p)) && (forall p <- b :: NoSlash(p))
    ensures a == b
  {
    var s := Join(a);
    assert |a| > 1 ==> s[|a[0]|] == '/' && s[|a[0]| + 1..] == Join(a[1..]);
    assert |b| > 1 ==> s[|b[0]|] == '/' && s[|b[0]| + 1..] == Join(b[1..]);
    assert s[..|a[0]|] == a[0] && s[..|b[0]|] == b[0];
    assert forall k | 0 <= k < |a[0]| :: s[k] == a[0][k];
    assert forall k | 0 <= k < |b[0]| :: s[k] == b[0][k];
    assert a[0] in a && b[0] in b;
    assert |a[0]| == |b[0]|;
    if |a| > 1 && |b| > 1 {
      JoinInjective(a[1..], b[1..]);
      assert a == [a[0]] + a[1..] && b == [b[0]] + b[1..];
    }
  }

  /** The number of an element's role grows past it until the list leaves its parent. */
  lemma {:induction false} CountGrows(nodes: seq<Node>, i: nat, j: nat)
    requires i < j <= |nodes| && Plain(nodes[i])
    requires forall k | i < k < j && Plain(nodes[k]) :: nodes[k].depth >= nodes[i].depth
    ensures Count(nodes, j, nodes[i].depth, nodes[i].role) >= Count(nodes, i, nodes[i].depth, nodes[i].role) + 1
  {
    if j > i + 1 {
      CountGrows(nodes, i, j - 1);
    }
  }

  /** The least depth between two places of the list, when it is under d. */
  lemma {:induction false} LeastBetween(nodes: seq<Node>, i: nat, j: nat, d: nat) returns (e: nat)
    requires i <= j <= |nodes|
    requires exists k | i <= k < j :: Plain(nodes[k]) && nodes[k].depth < d
    ensures e < d && (forall k | i <= k < j && Plain(nodes[k]) :: nodes[k].depth >= e)
    ensures exists k | i <= k < j :: Plain(nodes[k]) && nodes[k].depth == e
    decreases j - i
  {
    if exists k | i <= k < j - 1 :: Plain(nodes[k]) && nodes[k].depth < d {
      e := LeastBetween(nodes, i, j - 1, d);
      if Plain(nodes[j - 1]) && nodes[j - 1].depth < e {
        e := nodes[j - 1].depth;
      }
    } else {
      e := nodes[j - 1].depth;
    }
  }

  lemma PartsApart(nodes: seq<Node>, i: nat, j: nat)
    requires i < j < |nodes| && Plain(nodes[i]) && Plain(nodes[j]) && nodes[i].depth == nodes[j].depth
    requires forall k | i < k < j && Plain(nodes[k]) :: nodes[k].depth >= nodes[i].depth
    ensures Part(nodes, i) != Part(nodes, j)
  {
    CountGrows(nodes, i, j);
    if Part(nodes, i) == Part(nodes, j) {
      LabelInjective(nodes[i].role, Count(nodes, i, nodes[i].depth, nodes[i].role) + 1,
                     nodes[j].role, Count(nodes, j, nodes[j].depth, nodes[j].role) + 1);
    }
  }

  lemma PathsApart(nodes: seq<Node>, i: nat, j: nat)
    requires i < j < |nodes| && Plain(nodes[i]) && Plain(nodes[j])
    ensures Path(nodes, i) != Path(nodes, j)
  {
    var d := nodes[i].depth;
    if nodes[j].depth != d {
      assert |Path(nodes, i)| != |Path(nodes, j)|;
    } else if exists k | i + 1 <= k < j :: Plain(nodes[k]) && nodes[k].depth < d {
      var e := LeastBetween(nodes, i + 1, j, d);
      var k, k0 := LastUpTo(nodes, j, e), LastUpTo(nodes, i, e);
      assert Path(nodes, j)[e] == Above(nodes, j, e) == Part(nodes, k);
      assert Path(nodes, i)[e] == Above(nodes, i, e);
      if k0 >= 0 && nodes[k0].depth == e {
        PartsApart(nodes, k0, k);
      } else {
        DecimalDigits(Count(nodes, k, e, nodes[k].role) + 1);
        assert |Part(nodes, k)| > 1;
      }
    } else {
      PartsApart(nodes, i, j);
      assert Path(nodes, i)[d] == Part(nodes, i) && Path(nodes, j)[d] == Part(nodes, j);
    }
  }

  predicate PlainRoles(nodes: seq<Node>) {
    forall i | 0 <= i < |nodes| :: Plain(nodes[i]) && NoSlash(nodes[i].role)
  }

  lemma PathNoSlash(nodes: seq<Node>, i: nat)
    requires i < |nodes| && PlainRoles(nodes)
    ensures forall p <- Path(nodes, i) :: NoSlash(p)
  {
    forall e | 0 <= e < |Path(nodes, i)|
      ensures NoSlash(Path(nodes, i)[e])
    {
      var j := if e == nodes[i].depth then i else LastUpTo(nodes, i, e);
      if j >= 0 {
        DecimalDigits(Count(nodes, j, nodes[j].depth, nodes[j].role) + 1);
      }
    }
  }

  /** No two elements of a dump share a key, whatever depths it skips. */
  lemma KeysApart(nodes: seq<Node>, i: nat, j: nat)
    requires PlainRoles(nodes) && i < |nodes| && j < |nodes| && i != j
    ensures KeyOf(nodes, i) != KeyOf(nodes, j)
  {
    if KeyOf(nodes, i) == KeyOf(nodes, j) {
      PathNoSlash(nodes, i);
      PathNoSlash(nodes, j);
      JoinInjective(Path(nodes, i), Path(nodes, j));
      PathsApart(nodes, if i < j then i else j, if i < j then j else i);
    }
  }

  ghost predicate AllApart(keys: seq<string>) {
    forall i, j | 0 <= i < j < |keys| :: keys[i] != keys[j]
  }

  lemma {:induction false} TableEntry(keys: seq<string>, nodes: seq<Node>, n: nat, i: nat)
    requires AllApart(keys) && i < n <= |nodes| == |keys|
    ensures keys[i] in Table(keys, nodes, n) && Table(keys, nodes, n)[keys[i]] == nodes[i]
  {
    if i < n - 1 {
      TableEntry(keys, nodes, n - 1, i);
    }
  }

  lemma {:induction false} TableKeys(keys: seq<string>, nodes: seq<Node>, n: nat)
    requires n <= |nodes| == |keys|
    ensures forall k :: k in Table(keys, nodes, n) <==> k in keys[..n]
  {
    if n > 0 {
      TableKeys(keys, nodes, n - 1);
      assert keys[..n] == keys[..n - 1] + [keys[n - 1]];
    }
  }

  lemma {:induction false} OrderKeys(keys: seq<string>, n: nat)
    requires AllApart(keys) && n <= |keys|
    ensures Order(keys, n) == keys[..n]
  {
    if n > 0 {
      OrderKeys(keys, n - 1);
      assert keys[..n] == keys[..n - 1] + [keys[n - 1]];
    }
  }

  lemma LoadedKeysApart(nodes: seq<Node>)
    requires PlainRoles(nodes)
    ensures AllApart(Keys(nodes))
  {
    forall i, j | 0 <= i < j < |nodes|
      ensures Keys(nodes)[i] != Keys(nodes)[j]
    {
      KeysApart(nodes, i, j);
    }
  }

  /** So a loaded dump has every element, at its place, in the dump's order. */
  lemma LoadKeepsAll(nodes: seq<Node>)
    requires PlainRoles(nodes)
    ensures AllApart(Keys(nodes)) && Order(Keys(nodes), |nodes|) == Keys(nodes)
    ensures forall k :: k in Table(Keys(nodes), nodes, |nodes|) <==> k in Keys(nodes)
    ensures forall i | 0 <= i < |nodes| :: Keys(nodes)[i] in Table(Keys(nodes), nodes, |nodes|)
    ensures forall i | 0 <= i < |nodes| :: Table(Keys(nodes), nodes, |nodes|)[Keys(nodes)[i]] == nodes[i]
  {
    var keys := Keys(nodes);
    LoadedKeysApart(nodes);
    OrderKeys(keys, |keys|);
    TableKeys(keys, nodes, |nodes|);
    assert keys[..|keys|] == keys;
    forall i | 0 <= i < |nodes|
      ensures keys[i] in Table(keys, nodes, |nodes|) && Table(keys, nodes, |nodes|)[keys[i]] == nodes[i]
    {
      TableEntry(keys, nodes, |nodes|, i);
    }
  }

  /** A role that holds a slash can take another element's key: a dump of a, its child b, and an element of
      role "a#1/b". */
  function Slashed(): seq<Node> {
    [Node(None, 0, "a", None, None, ""), Node(None, 1, "b", None, None, ""), Node(None, 0, "a#1/b", None, None, "")]
  }

  lemma SlashedFirst()
    ensures Path(Slashed(), 1) == ["a#1", "b#1"]
  {
    var nodes := Slashed();
    assert Count(nodes, 0, 0, "a") == 0 && Count(nodes, 1, 1, "b") == 0;
    assert Part(nodes, 0) == "a#1" && Part(nodes, 1) == "b#1" && Above(nodes, 1, 0) == "a#1";
  }

  lemma SlashedSecond()
    ensures Path(Slashed(), 2) == ["a#1/b#1"]
  {
    var nodes := Slashed();
    assert Count(nodes, 1, 0, "a#1/b") == 0;
    assert Count(nodes, 2, 0, "a#1/b") == 0;
    assert Part(nodes, 2) == "a#1/b#1";
  }

  /** One of them is lost. */
  lemma SlashedRolesCollide()
    ensures |Slashed()| == 3 && (forall n <- Slashed() :: Plain(n)) && KeyOf(Slashed(), 1) == KeyOf(Slashed(), 2)
  {
    SlashedFirst();
    SlashedSecond();
    JoinTwo("a#1", "b#1");
    assert Join(["a#1/b#1"]) == "a#1/b#1";
  }

  lemma JoinTwo(a: string, b: string)
    ensures Join([a, b]) == a + "/" + b
  {
    assert [a, b][1..] == [b];
  }

  // ---- One role with slashes ----

  /** A text's parts between its slashes. */
  function Pieces(s: string): (r: seq<string>)
    ensures |r| >= 1
  {
    if s == "" then [""]
    else
      var rest := Pieces(s[1..]);
      if s[0] == '/' then [""] + rest else [[s[0]] + rest[0]] + rest[1..]
  }

  lemma {:induction false} PiecesJoin(s: string)
    ensures Join(Pieces(s)) == s && forall p <- Pieces(s) :: NoSlash(p)
  {
    if s != "" {
      var rest := Pieces(s[1..]);
      PiecesJoin(s[1..]);
      assert s == [s[0]] + s[1..];
      if s[0] == '/' {
        assert ([""] + rest)[1..] == rest && "" + "/" + Join(rest) == s;
      } else {
        var first := [s[0]] + rest[0];
        assert rest[0] in rest;
        assert ([first] + rest[1..])[1..] == rest[1..];
        assert |rest| > 1 ==> Join(rest) == rest[0] + "/" + Join(rest[1..]);
        assert |rest| > 1 ==> [s[0]] + (rest[0] + "/" + Join(rest[1..])) == first + "/" + Join(rest[1..]);
      }
    }
  }

  lemma PiecesOfJoin(parts: seq<string>)
    requires |parts| >= 1 && forall p <- parts :: NoSlash(p)
    ensures Pieces(Join(parts)) == parts
  {
    PiecesJoin(Join(parts));
    JoinInjective(Pieces(Join(parts)), parts);
  }

  /** The parts between the slashes of each of the texts, in order. */
  function AllPieces(parts: seq<string>): seq<string> {
    if parts == [] then [] else Pieces(parts[0]) + AllPieces(parts[1..])
  }

  lemma {:induction false} JoinBoth(a: seq<string>, b: seq<string>)
    requires a != [] && b != []
    ensures Join(a + b) == Join(a) + "/" + Join(b)
  {
    assert (a + b)[..|a|] == a && (a + b)[|a|..] == b;
    JoinSplit(a + b, |a|);
  }

  /** Joined texts have the pieces of each. */
  lemma {:induction false} JoinPieces(parts: seq<string>)
    requires parts != []
    ensures Join(AllPieces(parts)) == Join(parts) && AllPieces(parts) != []
    ensures forall p <- AllPieces(parts) :: NoSlash(p)
  {
    PiecesJoin(parts[0]);
    if |parts| == 1 {
      assert Pieces(parts[0]) + [] == Pieces(parts[0]);
    } else {
      JoinPieces(parts[1..]);
      JoinBoth(Pieces(parts[0]), AllPieces(parts[1..]));
    }
  }

  /** What stands in a key for an element of a slash-free role, or for a level skipped. */
  ghost predicate IsPiece(p: string) {
    p == "?" || exists s, n: nat | n >= 1 && NoSlash(s) :: p == Label(s, n)
  }

  /** A part of a key, with the one role that has slashes. */
  ghost predicate IsPart(x: string, ps: seq<string>, q: string) {
    IsPiece(x) || exists n: nat :: n >= 1 && x == Label(Join(ps + [q]), n)
  }

  /** The role's last piece gets the number. */
  lemma LabelPieces(ps: seq<string>, q: string, n: nat)
    requires ps != [] && NoSlash(q) && forall p <- ps :: NoSlash(p)
    ensures Label(Join(ps + [q]), n) == Join(ps + [Label(q, n)])
    ensures Pieces(Label(Join(ps + [q]), n)) == ps + [Label(q, n)]
  {
    JoinBoth(ps, [q]);
    JoinBoth(ps, [Label(q, n)]);
    DecimalDigits(n);
    assert Label(Join(ps + [q]), n) == Join(ps) + "/" + Label(q, n);
    PiecesOfJoin(ps + [Label(q, n)]);
  }

  lemma PieceAlone(p: string)
    requires IsPiece(p)
    ensures NoSlash(p) && Pieces(p) == [p]
  {
    if p != "?" {
      var s, n: nat :| n >= 1 && NoSlash(s) && p == Label(s, n);
      DecimalDigits(n);
    }
    assert Join([p]) == p;
    PiecesOfJoin([p]);
  }

  /** k is the first of the pieces that can stand for no element of another role. */
  ghost predicate FirstOdd(ps: seq<string>, k: nat) {
    k < |ps| && !IsPiece(ps[k]) && forall i | 0 <= i < k :: IsPiece(ps[i])
  }

  /** No key parts but the role's own begin with its pieces up to that one. */
  lemma {:induction false} NoOther(zs: seq<string>, ps: seq<string>, q: string, k: nat, t: nat)
    requires FirstOdd(ps, k) && NoSlash(q) && (forall p <- ps :: NoSlash(p)) && t <= k
    requires forall z <- zs :: IsPart(z, ps, q)
    requires |AllPieces(zs)| > k - t && forall i | t <= i <= k :: AllPieces(zs)[i - t] == ps[i]
    requires t == 0 ==> zs != [] && IsPiece(zs[0])
    ensures false
    decreases |zs|
  {
    assert zs != [];
    assert zs[0] in zs;
    if IsPiece(zs[0]) {
      PieceAlone(zs[0]);
      var rest := AllPieces(zs[1..]);
      assert AllPieces(zs) == [zs[0]] + rest;
      assert AllPieces(zs)[t - t] == ps[t];
      if t < k {
        forall i | t + 1 <= i <= k
          ensures rest[i - (t + 1)] == ps[i]
        {
          assert AllPieces(zs)[i - t] == ps[i];
        }
        NoOther(zs[1..], ps, q, k, t + 1);
      }
    } else {
      var n: nat :| n >= 1 && zs[0] == Label(Join(ps + [q]), n);
      LabelPieces(ps, q, n);
      assert false;
    }
  }

  lemma OwnPieces(x: string, ps: seq<string>, q: string) returns (n: nat)
    requires ps != [] && NoSlash(q) && (forall p <- ps :: NoSlash(p)) && IsPart(x, ps, q) && !IsPiece(x)
    ensures x == Label(Join(ps + [q]), n) && Pieces(x) == ps + [Label(q, n)]
  {
    n :| n >= 1 && x == Label(Join(ps + [q]), n);
    LabelPieces(ps, q, n);
  }

  /** With a piece that can stand for nothing else, the pieces of a key's parts tell the parts. */
  lemma {:induction false} PartsTold(xs: seq<string>, ys: seq<string>, ps: seq<string>, q: string, k: nat)
    requires FirstOdd(ps, k) && NoSlash(q) && (forall p <- ps :: NoSlash(p))
    requires (forall x <- xs :: IsPart(x, ps, q)) && (forall y <- ys :: IsPart(y, ps, q))
    requires AllPieces(xs) == AllPieces(ys)
    ensures xs == ys
    decreases |xs|
  {
    if xs == [] || ys == [] {
      assert xs == [] && ys == [];
    } else {
      assert xs[0] in xs && ys[0] in ys;
      FirstTold(xs, ys, ps, q, k);
      assert AllPieces(xs)[|Pieces(xs[0])|..] == AllPieces(xs[1..]);
      assert AllPieces(ys)[|Pieces(ys[0])|..] == AllPieces(ys[1..]);
      PartsTold(xs[1..], ys[1..], ps, q, k);
      assert xs == [xs[0]] + xs[1..] && ys == [ys[0]] + ys[1..];
    }
  }

  /** The first part of the one is the role's own only if that of the other is. */
  lemma OwnTold(xs: seq<string>, ys: seq<string>, ps: seq<string>, q: string, k: nat)
    requires FirstOdd(ps, k) && NoSlash(q) && (forall p <- ps :: NoSlash(p)) && xs != [] && ys != []
    requires (forall x <- xs :: IsPart(x, ps, q)) && (forall y <- ys :: IsPart(y, ps, q))
    requires AllPieces(xs) == AllPieces(ys) && IsPiece(ys[0])
    ensures IsPiece(xs[0])
  {
    if !IsPiece(xs[0]) {
      assert xs[0] in xs;
      var n := OwnPieces(xs[0], ps, q);
      assert ps <= AllPieces(xs);
      NoOther(ys, ps, q, k, 0);
    }
  }

  lemma FirstTold(xs: seq<string>, ys: seq<string>, ps: seq<string>, q: string, k: nat)
    requires FirstOdd(ps, k) && NoSlash(q) && (forall p <- ps :: NoSlash(p)) && xs != [] && ys != []
    requires (forall x <- xs :: IsPart(x, ps, q)) && (forall y <- ys :: IsPart(y, ps, q))
    requires AllPieces(xs) == AllPieces(ys)
    ensures xs[0] == ys[0]
  {
    if IsPiece(xs[0]) || IsPiece(ys[0]) {
      if IsPiece(ys[0]) {
        OwnTold(xs, ys, ps, q, k);
      } else {
        OwnTold(ys, xs, ps, q, k);
      }
      PieceAlone(xs[0]);
      PieceAlone(ys[0]);
      assert AllPieces(xs)[0] == xs[0] && AllPieces(ys)[0] == ys[0];
    } else {
      OwnSame(xs, ys, ps, q);
    }
  }

  lemma OwnSame(xs: seq<string>, ys: seq<string>, ps: seq<string>, q: string)
    requires ps != [] && NoSlash(q) && (forall p <- ps :: NoSlash(p)) && xs != [] && ys != []
    requires IsPart(xs[0], ps, q) && IsPart(ys[0], ps, q) && !IsPiece(xs[0]) && !IsPiece(ys[0])
    requires AllPieces(xs) == AllPieces(ys)
    ensures xs[0] == ys[0]
  {
    var m := OwnPieces(xs[0], ps, q);
    var n := OwnPieces(ys[0], ps, q);
    assert AllPieces(xs)[|ps|] == Label(q, m) && AllPieces(ys)[|ps|] == Label(q, n);
    LabelInjective(q, m, q, n);
  }

  /** A dump whose roles have no slash, but for this one. */
  predicate OneSlashed(nodes: seq<Node>, role: string) {
    forall i | 0 <= i < |nodes| :: Plain(nodes[i]) && (NoSlash(nodes[i].role) || nodes[i].role == role)
  }

  lemma PathIsParts(nodes: seq<Node>, i: nat, ps: seq<string>, q: string)
    requires i < |nodes| && OneSlashed(nodes, Join(ps + [q]))
    ensures forall x <- Path(nodes, i) :: IsPart(x, ps, q)
  {
    forall e | 0 <= e < |Path(nodes, i)|
      ensures IsPart(Path(nodes, i)[e], ps, q)
    {
      var j := if e == nodes[i].depth then i else LastUpTo(nodes, i, e);
      if j >= 0 {
        var n := Count(nodes, j, nodes[j].depth, nodes[j].role) + 1;
        assert Part(nodes, j) == Label(nodes[j].role, n);
      }
    }
  }

  /** With one role that has slashes, a piece of which before its last slash can stand for nothing else, keys are
      apart all the same. */
  lemma SlashedApart(nodes: seq<Node>, ps: seq<string>, q: string, k: nat, i: nat, j: nat)
    requires FirstOdd(ps, k) && NoSlash(q) && (forall p <- ps :: NoSlash(p)) && OneSlashed(nodes, Join(ps + [q]))
    requires i < j < |nodes|
    ensures KeyOf(nodes, i) != KeyOf(nodes, j)
  {
    if KeyOf(nodes, i) == KeyOf(nodes, j) {
      PathIsParts(nodes, i, ps, q);
      PathIsParts(nodes, j, ps, q);
      JoinPieces(Path(nodes, i));
      JoinPieces(Path(nodes, j));
      JoinInjective(AllPieces(Path(nodes, i)), AllPieces(Path(nodes, j)));
      PartsTold(Path(nodes, i), Path(nodes, j), ps, q, k);
      PathsApart(nodes, i, j);
    }
  }

  // ---- And else not ----

  /** What is before an element does not depend on what is after it. */
  lemma {:induction false} UpToSame(nodes: seq<Node>, more: seq<Node>, i: nat, e: nat)
    requires nodes <= more && i <= |nodes|
    ensures LastUpTo(more, i, e) == LastUpTo(nodes, i, e)
  {
    if i > 0 {
      UpToSame(nodes, more, i - 1, e);
    }
  }

  lemma {:induction false} CountSame(nodes: seq<Node>, more: seq<Node>, i: nat, d: nat, role: string)
    requires nodes <= more && i <= |nodes|
    ensures Count(more, i, d, role) == Count(nodes, i, d, role)
  {
    if i > 0 {
      CountSame(nodes, more, i - 1, d, role);
    }
  }

  lemma AboveBefore(nodes: seq<Node>, more: seq<Node>, e: nat)
    requires nodes <= more
    ensures Above(more, |nodes|, e) == Above(nodes, |nodes|, e)
  {
    UpToSame(nodes, more, |nodes|, e);
    var j := LastUpTo(nodes, |nodes|, e);
    if j >= 0 {
      CountSame(nodes, more, j, nodes[j].depth, nodes[j].role);
    }
  }

  /** Elements of one role and depth, one after the other. */
  function Copies(d: nat, role: string, n: nat): seq<Node> {
    seq(n, _ => Node(None, d, role, None, None, ""))
  }

  lemma {:induction false} CountCopies(nodes: seq<Node>, d: nat, role: string, n: nat, i: nat)
    requires i <= n && forall m | 0 <= m < |nodes| :: nodes[m].depth < d && Plain(nodes[m])
    ensures Count(nodes + Copies(d, role, n), |nodes| + i, d, role) == i
  {
    if i > 0 {
      CountCopies(nodes, d, role, n, i - 1);
      assert (nodes + Copies(d, role, n))[|nodes| + i - 1] == Copies(d, role, n)[i - 1];
    }
  }

  /** A dump, of slash-free roles, at the end of which these pieces stand above. */
  ghost predicate Ends(nodes: seq<Node>, ps: seq<string>) {
    && (forall m | 0 <= m < |nodes| :: Plain(nodes[m]) && NoSlash(nodes[m].role) && nodes[m].depth < |ps|)
    && forall e | 0 <= e < |ps| :: Above(nodes, |nodes|, e) == ps[e]
  }

  /** There is one for any pieces that can stand for elements or levels skipped. */
  lemma {:induction false} DumpOf(ps: seq<string>) returns (nodes: seq<Node>)
    requires forall p <- ps :: IsPiece(p)
    ensures Ends(nodes, ps)
    decreases |ps|
  {
    if ps == [] {
      nodes := [];
    } else {
      var d := |ps| - 1;
      assert ps[d] in ps;
      nodes := DumpOf(ps[..d]);
      if ps[d] == "?" {
        SkipOn(nodes, ps);
      } else {
        var s, n: nat :| n >= 1 && NoSlash(s) && ps[d] == Label(s, n);
        CopiesOn(nodes, ps, s, n);
        nodes := nodes + Copies(d, s, n);
      }
    }
  }

  lemma SkipOn(nodes: seq<Node>, ps: seq<string>)
    requires ps != [] && Ends(nodes, ps[..|ps| - 1]) && ps[|ps| - 1] == "?"
    ensures Ends(nodes, ps)
  {
    forall e | 0 <= e < |ps| - 1
      ensures Above(nodes, |nodes|, e) == ps[e]
    {
      assert ps[..|ps| - 1][e] == ps[e];
    }
  }

  lemma CopiesOn(nodes: seq<Node>, ps: seq<string>, s: string, n: nat)
    requires ps != [] && Ends(nodes, ps[..|ps| - 1]) && n >= 1 && NoSlash(s) && ps[|ps| - 1] == Label(s, n)
    ensures Ends(nodes + Copies(|ps| - 1, s, n), ps)
  {
    var d := |ps| - 1;
    var more := nodes + Copies(d, s, n);
    var last := |more| - 1;
    forall e | 0 <= e < d
      ensures Above(more, |more|, e) == ps[e]
    {
      assert ps[..d][e] == ps[e];
      AboveBefore(nodes, more, e);
      AboveSame(more, |nodes|, |more|, e);
    }
    CountCopies(nodes, d, s, n, n - 1);
    assert more[last] == Copies(d, s, n)[n - 1];
    assert LastUpTo(more, |more|, d) == last;
  }

  lemma {:induction false} NoneCounted(nodes: seq<Node>, i: nat, d: nat, role: string)
    requires i <= |nodes| && forall m | 0 <= m < i :: nodes[m].role != role
    ensures Count(nodes, i, d, role) == 0
  {
    if i > 0 {
      NoneCounted(nodes, i - 1, d, role);
    }
  }

  /** An element of this role at this depth, and after it one at the top of the role that has slashes. */
  function Pair(ps: seq<string>, q: string): seq<Node> {
    [Node(None, |ps|, q, None, None, ""), Node(None, 0, Join(ps + [q]), None, None, "")]
  }

  lemma PairFirst(before: seq<Node>, ps: seq<string>, q: string)
    requires Ends(before, ps) && NoSlash(q)
    ensures Path(before + Pair(ps, q), |before|) == ps + [Label(q, 1)]
  {
    var nodes := before + Pair(ps, q);
    var n := |before|;
    forall e | 0 <= e < |ps|
      ensures Above(nodes, n, e) == ps[e]
    {
      AboveBefore(before, nodes, e);
    }
    assert nodes[n] == Pair(ps, q)[0];
    NoneDeep(nodes, n, |ps|, q);
  }

  /** No element is as deep. */
  lemma {:induction false} NoneDeep(nodes: seq<Node>, i: nat, d: nat, role: string)
    requires i <= |nodes| && forall m | 0 <= m < i :: nodes[m].depth < d
    ensures Count(nodes, i, d, role) == 0
  {
    if i > 0 {
      NoneDeep(nodes, i - 1, d, role);
    }
  }

  lemma PairSecond(before: seq<Node>, ps: seq<string>, q: string)
    requires Ends(before, ps) && NoSlash(q) && ps != []
    ensures Path(before + Pair(ps, q), |before| + 1) == [Label(Join(ps + [q]), 1)]
  {
    var nodes := before + Pair(ps, q);
    var role := Join(ps + [q]);
    RoleHasSlash(ps, q);
    assert nodes[|before|] == Pair(ps, q)[0] && nodes[|before| + 1] == Pair(ps, q)[1];
    forall m | 0 <= m <= |before|
      ensures nodes[m].role != role
    {
      assert m < |before| ==> nodes[m] == before[m];
    }
    TopAlone(nodes, |before| + 1);
  }

  lemma RoleHasSlash(ps: seq<string>, q: string)
    requires ps != []
    ensures !NoSlash(Join(ps + [q]))
  {
    JoinBoth(ps, [q]);
    assert (Join(ps) + "/" + Join([q]))[|Join(ps)|] == '/';
  }

  /** The first element of its role at the top. */
  lemma TopAlone(nodes: seq<Node>, i: nat)
    requires i < |nodes| && nodes[i].depth == 0 && forall m | 0 <= m < i :: nodes[m].role != nodes[i].role
    ensures Path(nodes, i) == [Label(nodes[i].role, 1)]
  {
    NoneCounted(nodes, i, 0, nodes[i].role);
  }

  /** With every piece before the last slash one of those, a dump in which two elements have one key. */
  lemma SlashedCollide(ps: seq<string>, q: string) returns (nodes: seq<Node>)
    requires ps != [] && NoSlash(q) && forall p <- ps :: IsPiece(p)
    ensures OneSlashed(nodes, Join(ps + [q])) && |nodes| >= 2 && KeyOf(nodes, |nodes| - 2) == KeyOf(nodes, |nodes| - 1)
  {
    forall p <- ps
      ensures NoSlash(p)
    {
      PieceAlone(p);
    }
    var before := DumpOf(ps);
    nodes := before + Pair(ps, q);
    PairFirst(before, ps, q);
    PairSecond(before, ps, q);
    LabelPieces(ps, q, 1);
    assert Join([Label(Join(ps + [q]), 1)]) == Label(Join(ps + [q]), 1);
  }

  /** So with one role that has slashes beside others without, every dump's keys are apart exactly when a piece of
      it, before the last slash, is neither "?" nor a role and a number. */
  lemma SlashedExactly(ps: seq<string>, q: string)
    requires ps != [] && NoSlash(q) && forall p <- ps :: NoSlash(p)
    ensures (forall nodes | OneSlashed(nodes, Join(ps + [q])) :: AllApart(Keys(nodes))) <==>
      exists p <- ps :: !IsPiece(p)
  {
    if p :| p in ps && !IsPiece(p) {
      var k := OddOne(ps, |ps|);
      forall nodes | OneSlashed(nodes, Join(ps + [q]))
        ensures AllApart(Keys(nodes))
      {
        forall i, j | 0 <= i < j < |nodes|
          ensures Keys(nodes)[i] != Keys(nodes)[j]
        {
          SlashedApart(nodes, ps, q, k, i, j);
        }
      }
    } else {
      var nodes := SlashedCollide(ps, q);
      var n := |nodes|;
      assert Keys(nodes)[n - 2] == Keys(nodes)[n - 1];
      assert !AllApart(Keys(nodes));
    }
  }

  lemma {:induction false} OddOne(ps: seq<string>, n: nat) returns (k: nat)
    requires n <= |ps| && exists i :: 0 <= i < n && !IsPiece(ps[i])
    ensures FirstOdd(ps, k)
  {
    if exists i :: 0 <= i < n - 1 && !IsPiece(ps[i]) {
      k := OddOne(ps, n - 1);
    } else {
      k := n - 1;
    }
  }

  /** Every role with a slash has such pieces. */
  lemma RolePieces(role: string) returns (ps: seq<string>, q: string)
    requires !NoSlash(role)
    ensures ps != [] && NoSlash(q) && (forall p <- ps :: NoSlash(p)) && role == Join(ps + [q])
  {
    var all := Pieces(role);
    PiecesJoin(role);
    assert all[0] in all;
    assert |all| > 1;
    ps, q := all[..|all| - 1], all[|all| - 1];
    assert ps + [q] == all && q in all;
  }

  // ---- A crop's tree ----

  predicate Overlaps(a: Bounds, b: Bounds) {
    a.x < b.x + b.w && b.x < a.x + a.w && a.y < b.y + b.h && b.y < a.y + a.h
  }

  /** They do when a pixel is in both, when both have some. */
  lemma OverlapIs(a: Bounds, b: Bounds)
    requires a.w > 0 && a.h > 0 && b.w > 0 && b.h > 0
    ensures Overlaps(a, b) <==> exists x, y :: IsIn(a, x, y) && IsIn(b, x, y)
  {
    if Overlaps(a, b) {
      var x, y := if a.x < b.x then b.x else a.x, if a.y < b.y then b.y else a.y;
      assert IsIn(a, x, y) && IsIn(b, x, y);
    }
  }

  predicate IsIn(a: Bounds, x: int, y: int) {
    a.x <= x < a.x + a.w && a.y <= y < a.y + a.h
  }

  /** a is an ancestor's key of key: what stands before one of its slashes. */
  predicate IsAncestor(a: string, key: string) {
    |a| < |key| && key[..|a|] == a && key[|a|] == '/'
  }

  /** The parent's key: what stands before the last slash. */
  function Parent(key: string): string {
    if key == "" then "" else if key[|key| - 1] == '/' then key[..|key| - 1] else Parent(key[..|key| - 1])
  }

  /** An element that is in a crop by itself: a root, one whose bounds touch the crop, or one without
      bounds whose parent, listed before it, is in. */
  ghost predicate Seed(order: seq<string>, tree: map<string, Node>, crop: Bounds, i: nat)
    requires i < |order| && forall k <- order :: k in tree
    decreases i
  {
    var key := order[i];
    NoSlash(key)
    || match tree[key].bounds
       case Some(b) => Overlaps(b, crop)
       case None => exists j: nat | j < i :: order[j] == Parent(key) && Seed(order, tree, crop, j)
  }

  /** What a crop keeps: the elements in it by themselves, and every ancestor of one. */
  ghost predicate Kept(order: seq<string>, tree: map<string, Node>, crop: Bounds, key: string)
    requires forall k <- order :: k in tree
  {
    exists i: nat | i < |order| :: Seed(order, tree, crop, i) && (key == order[i] || IsAncestor(key, order[i]))
  }

  /** An element as a crop's dump has it: with its key in the whole tree; a root says the crop. */
  function Marked(key: string, n: Node, crop: Bounds): Node {
    n.(key := Some(key), crop := if NoSlash(key) then Some(crop) else n.crop)
  }

  ghost function KeptKeys(order: seq<string>, tree: map<string, Node>, crop: Bounds, n: nat): seq<string>
    requires n <= |order| && forall k <- order :: k in tree
  {
    if n == 0 then []
    else KeptKeys(order, tree, crop, n - 1) + if Kept(order, tree, crop, order[n - 1]) then [order[n - 1]] else []
  }

  function Marks(keys: seq<string>, tree: map<string, Node>, crop: Bounds): seq<Node>
    requires forall k <- keys :: k in tree
  {
    seq(|keys|, i requires 0 <= i < |keys| => Marked(keys[i], tree[keys[i]], crop))
  }

  lemma {:induction false} KeptKeysAre(order: seq<string>, tree: map<string, Node>, crop: Bounds, n: nat)
    requires AllApart(order) && n <= |order| && forall k <- order :: k in tree
    ensures AllApart(KeptKeys(order, tree, crop, n))
    ensures forall k :: k in KeptKeys(order, tree, crop, n) <==> k in order[..n] && Kept(order, tree, crop, k)
  {
    if n > 0 {
      KeptKeysAre(order, tree, crop, n - 1);
      assert order[..n] == order[..n - 1] + [order[n - 1]];
      assert order[n - 1] !in order[..n - 1];
    }
  }

  /** What a crop's dump is: the elements kept, in order, each with its key in the whole tree. */
  ghost predicate IsCrop(keep: seq<Node>, order: seq<string>, tree: map<string, Node>, crop: Bounds)
    requires forall k <- order :: k in tree
  {
    exists keys: seq<string> ::
      keys == KeptKeys(order, tree, crop, |order|) && (forall k <- keys :: k in tree) && keep == Marks(keys, tree, crop)
  }

  /** Which elements are in the crop by themselves. */
  method Seeds(order: seq<string>, tree: map<string, Node>, crop: Bounds) returns (inside: map<string, bool>)
    requires AllApart(order) && forall k <- order :: k in tree
    ensures forall k :: k in inside <==> k in order
    ensures forall i | 0 <= i < |order| :: inside[order[i]] == Seed(order, tree, crop, i)
  {
    inside := map[];
    for i := 0 to |order|
      invariant forall k :: k in inside <==> k in order[..i]
      invariant forall j | 0 <= j < i :: order[j] in order[..i] && inside[order[j]] == Seed(order, tree, crop, j)
    {
      var key := order[i];
      var here;
      if NoSlash(key) {
        here := true;
      } else {
        var b := tree[key].bounds;
        var parent := Parent(key);
        if b.Some? {
          here := Overlaps(b.value, crop);
        } else {
          here := parent in inside && inside[parent];
        }
      }
      assert here == Seed(order, tree, crop, i);
      assert order[..i + 1] == order[..i] + [key];
      inside := inside[key := here];
    }
  }

  /** Every ancestor of a key put inside. */
  method KeepAncestors(inside: map<string, bool>, key: string) returns (more: map<string, bool>)
    ensures forall k :: k in more <==> k in inside || IsAncestor(k, key)
    ensures forall k <- more :: more[k] == (IsAncestor(k, key) || (k in inside && inside[k]))
  {
    more := inside;
    for m := 0 to |key|
      invariant forall k :: k in more <==> k in inside || (|k| < m && IsAncestor(k, key))
      invariant forall k <- more :: more[k] == ((|k| < m && IsAncestor(k, key)) || (k in inside && inside[k]))
    {
      if key[m] == '/' {
        more := more[key[..m] := true];
      }
    }
  }

  ghost predicate SeedKey(order: seq<string>, tree: map<string, Node>, crop: Bounds, key: string)
    requires forall k <- order :: k in tree
  {
    exists j: nat | j < |order| :: order[j] == key && Seed(order, tree, crop, j)
  }

  /** key stands above one of the first i elements, one that is in the crop by itself. */
  ghost predicate AboveSeed(order: seq<string>, tree: map<string, Node>, crop: Bounds, key: string, i: nat)
    requires i <= |order| && forall k <- order :: k in tree
  {
    exists j: nat | j < i :: Seed(order, tree, crop, j) && IsAncestor(key, order[j])
  }

  lemma AncestorOfAncestor(a: string, b: string, c: string)
    requires IsAncestor(a, b) && IsAncestor(b, c)
    ensures IsAncestor(a, c)
  {
    assert c[..|a|] == b[..|a|];
  }

  lemma AboveSeedStep(order: seq<string>, tree: map<string, Node>, crop: Bounds, key: string, i: nat)
    requires i < |order| && AllApart(order) && forall k <- order :: k in tree
    ensures AboveSeed(order, tree, crop, key, i + 1) <==>
              AboveSeed(order, tree, crop, key, i)
              || (IsAncestor(key, order[i])
                && (SeedKey(order, tree, crop, order[i]) || AboveSeed(order, tree, crop, order[i], i)))
  {
    if IsAncestor(key, order[i]) && AboveSeed(order, tree, crop, order[i], i) {
      var j: nat :| j < i && Seed(order, tree, crop, j) && IsAncestor(order[i], order[j]);
      AncestorOfAncestor(key, order[i], order[j]);
    }
  }

  /** The ancestors of what is inside, inside too. */
  method Close(order: seq<string>, tree: map<string, Node>, crop: Bounds, seeds: map<string, bool>)
    returns (inside: map<string, bool>)
    requires AllApart(order) && forall k <- order :: k in tree
    requires forall k :: k in seeds <==> k in order
    requires forall k <- seeds :: seeds[k] == SeedKey(order, tree, crop, k)
    ensures forall k <- order :: k in inside && inside[k] == Kept(order, tree, crop, k)
  {
    inside := seeds;
    for i := 0 to |order|
      invariant forall k <- order :: k in inside
      invariant forall k <- inside :: inside[k] == (SeedKey(order, tree, crop, k) || AboveSeed(order, tree, crop, k, i))
    {
      ghost var was := inside;
      if inside[order[i]] {
        inside := KeepAncestors(inside, order[i]);
      }
      forall k <- inside
        ensures inside[k] == (SeedKey(order, tree, crop, k) || AboveSeed(order, tree, crop, k, i + 1))
      {
        AboveSeedStep(order, tree, crop, k, i);
        if k !in was {
          assert IsAncestor(k, order[i]) && inside[k];
        }
      }
    }
  }

  /** A window's tree for a crop of it. */
  method CropTree(nodes: seq<Node>, crop: Bounds) returns (keep: seq<Node>)
    ensures var keys := Keys(nodes);
      && (forall k <- Order(keys, |keys|) :: k in Table(keys, nodes, |keys|))
      && IsCrop(keep, Order(keys, |keys|), Table(keys, nodes, |keys|), crop)
  {
    ghost var keys := Keys(nodes);
    var tree, order := Load(nodes);
    TableKeys(keys, nodes, |keys|);
    OrderApart(keys, |keys|);
    var seeds := Seeds(order, tree, crop);
    forall k <- seeds
      ensures seeds[k] == SeedKey(order, tree, crop, k)
    {
      var i :| 0 <= i < |order| && order[i] == k;
      assert seeds[order[i]] == Seed(order, tree, crop, i);
    }
    var inside := Close(order, tree, crop, seeds);
    KeptKeysAre(order, tree, crop, |order|);
    keep := KeepInside(order, tree, crop, inside);
  }

  method KeepInside(order: seq<string>, tree: map<string, Node>, crop: Bounds, inside: map<string, bool>)
    returns (keep: seq<Node>)
    requires AllApart(order) && forall k <- order :: k in tree
    requires forall k <- order :: k in inside && inside[k] == Kept(order, tree, crop, k)
    ensures IsCrop(keep, order, tree, crop)
  {
    keep := [];
    ghost var keys: seq<string> := [];
    for i := 0 to |order|
      invariant keys == KeptKeys(order, tree, crop, i) && (forall k <- keys :: k in tree)
      invariant keep == Marks(keys, tree, crop)
    {
      var key := order[i];
      if inside[key] {
        keep := keep + [Marked(key, tree[key], crop)];
        keys := keys + [key];
      }
    }
  }

  lemma {:induction false} OrderApart(keys: seq<string>, n: nat)
    requires n <= |keys|
    ensures AllApart(Order(keys, n)) && forall k :: k in Order(keys, n) <==> k in keys[..n]
  {
    if n > 0 {
      OrderApart(keys, n - 1);
      assert keys[..n] == keys[..n - 1] + [keys[n - 1]];
    }
  }

  // ---- What a crop's tree is ----

  ghost predicate TreeOrder(order: seq<string>, tree: map<string, Node>) {
    AllApart(order) && forall k <- order :: k in tree
  }

  /** Loading a crop's dump gives the elements kept, at the keys they have in the whole tree. */
  lemma ReloadCrop(keep: seq<Node>, order: seq<string>, tree: map<string, Node>, crop: Bounds)
    requires TreeOrder(order, tree) && IsCrop(keep, order, tree, crop)
    ensures var again := Table(Keys(keep), keep, |keep|);
      && (forall k :: k in again <==> k in order && Kept(order, tree, crop, k))
      && (forall k <- again :: k in tree && again[k] == Marked(k, tree[k], crop))
  {
    var keys := KeptKeys(order, tree, crop, |order|);
    var again := Table(Keys(keep), keep, |keep|);
    KeptKeysAre(order, tree, crop, |order|);
    assert order[..|order|] == order;
    assert Keys(keep) == keys;
    TableKeys(keys, keep, |keep|);
    assert keys[..|keep|] == keys;
    forall k <- again
      ensures k in tree && again[k] == Marked(k, tree[k], crop)
    {
      var i :| 0 <= i < |keys| && keys[i] == k;
      TableEntry(keys, keep, |keep|, i);
    }
  }

  // ---- A dump lists parents first, so an element without bounds goes with its parent ----

  lemma {:induction false} JoinLast(parts: seq<string>)
    requires |parts| >= 2
    ensures Join(parts) == Join(parts[..|parts| - 1]) + "/" + parts[|parts| - 1]
  {
    if |parts| > 2 {
      JoinLast(parts[1..]);
      assert parts[1..][..|parts| - 2] == parts[..|parts| - 1][1..];
      assert Join(parts[..|parts| - 1]) == parts[0] + "/" + Join(parts[..|parts| - 1][1..]);
    }
  }

  lemma {:induction false} ParentOfTail(s: string, last: string)
    requires NoSlash(last)
    ensures Parent(s + "/" + last) == s
  {
    var whole := s + "/" + last;
    if last == "" {
      assert whole[..|whole| - 1] == s;
    } else {
      var shorter := last[..|last| - 1];
      assert whole[..|whole| - 1] == s + "/" + shorter;
      assert whole[|whole| - 1] == last[|last| - 1];
      ParentOfTail(s, shorter);
    }
  }

  /** The element right above another, when the list does not skip its depth: its path is the other's
      less the last part. */
  lemma PathAbove(nodes: seq<Node>, i: nat) returns (k: nat)
    requires i < |nodes| && Plain(nodes[i]) && nodes[i].depth > 0 && Path(nodes, i)[nodes[i].depth - 1] != "?"
    ensures k < i && Plain(nodes[k]) && nodes[k].depth == nodes[i].depth - 1
    ensures k == LastUpTo(nodes, i, nodes[i].depth - 1) && Path(nodes, k) == Path(nodes, i)[..nodes[i].depth]
  {
    var p, d := Path(nodes, i), nodes[i].depth;
    assert p[d - 1] == Above(nodes, i, d - 1);
    k := LastUpTo(nodes, i, d - 1);
    forall e | 0 <= e < d - 1
      ensures Path(nodes, k)[e] == p[e]
    {
      AboveSame(nodes, k, i, e);
    }
  }

  lemma PartIsNoFiller(nodes: seq<Node>, i: nat)
    requires i < |nodes|
    ensures Part(nodes, i) != "?"
  {
    DecimalDigits(Count(nodes, i, nodes[i].depth, nodes[i].role) + 1);
    assert |Part(nodes, i)| > 1;
  }

  /** The parent an element's key names is the last element before it that is nearer the root, and one level
      up, when it is one at all. */
  lemma ParentBefore(nodes: seq<Node>, i: nat, j: nat)
    requires PlainRoles(nodes) && i < |nodes| && j < |nodes|
    requires nodes[i].depth > 0 && KeyOf(nodes, j) == Parent(KeyOf(nodes, i))
    ensures j == LastUpTo(nodes, i, nodes[i].depth - 1) && nodes[j].depth == nodes[i].depth - 1
  {
    var p, d := Path(nodes, i), nodes[i].depth;
    PathNoSlash(nodes, i);
    PathNoSlash(nodes, j);
    assert p[d] in p;
    JoinLast(p);
    ParentOfTail(Join(p[..d]), p[d]);
    JoinInjective(Path(nodes, j), p[..d]);
    assert p[d - 1] == Path(nodes, j)[d - 1] == Part(nodes, j);
    PartIsNoFiller(nodes, j);
    var k := PathAbove(nodes, i);
    if k != j {
      KeysApart(nodes, k, j);
    }
  }

  lemma {:induction false} AboveSame(nodes: seq<Node>, k: nat, i: nat, e: nat)
    requires k <= i <= |nodes|
    requires forall m | k <= m < i && Plain(nodes[m]) :: nodes[m].depth > e
    ensures Above(nodes, k, e) == Above(nodes, i, e)
    decreases i
  {
    if k < i {
      AboveSame(nodes, k, i - 1, e);
    }
  }

  // ---- Ancestors in the dump and in the keys ----

  /** j is above i: before it, nearer the root, with nothing as near between. */
  predicate Over(nodes: seq<Node>, j: nat, i: nat) {
    j < i < |nodes| && nodes[j].depth < nodes[i].depth && forall k | j < k < i :: nodes[k].depth > nodes[j].depth
  }

  lemma {:induction false} JoinSplit(parts: seq<string>, n: nat)
    requires 0 < n < |parts|
    ensures Join(parts) == Join(parts[..n]) + "/" + Join(parts[n..])
  {
    if n > 1 {
      JoinSplit(parts[1..], n - 1);
      assert parts[1..][..n - 1] == parts[..n][1..] && parts[1..][n - 1..] == parts[n..];
    }
  }

  /** A text of parts before a slash of a longer one's is that of its first parts. */
  lemma {:induction false} PrefixParts(a: seq<string>, b: seq<string>)
    requires |a| >= 1 && |b| >= 1 && IsAncestor(Join(a), Join(b))
    requires (forall p <- a :: NoSlash(p)) && (forall p <- b :: NoSlash(p))
    ensures |a| < |b| && b[..|a|] == a
  {
    var s, t := Join(a), Join(b);
    assert t[..|s|] == s && t[|s|] == '/';
    assert |a| > 1 ==> s[|a[0]|] == '/' && s[|a[0]| + 1..] == Join(a[1..]);
    assert |b| > 1 ==> t[|b[0]|] == '/' && t[|b[0]| + 1..] == Join(b[1..]);
    assert s[..|a[0]|] == a[0] && t[..|b[0]|] == b[0];
    assert forall k | 0 <= k < |a[0]| :: t[k] == s[k] == a[0][k];
    assert forall k | 0 <= k < |b[0]| :: t[k] == b[0][k];
    assert t[|a[0]|] == '/' && a[0] in a && b[0] in b;
    if |b| == 1 {
      assert false;
    }
    assert |a[0]| == |b[0]|;
    if |a| > 1 {
      assert Join(b[1..])[..|Join(a[1..])|] == t[|a[0]| + 1..|s|] == Join(a[1..]);
      PrefixParts(a[1..], b[1..]);
      FirstParts(a, b);
    } else {
      assert b[..1] == [b[0]] == a;
    }
  }

  lemma FirstParts(a: seq<string>, b: seq<string>)
    requires 1 <= |a| <= |b| && a[0] == b[0] && b[1..][..|a| - 1] == a[1..]
    ensures b[..|a|] == a
  {
    forall k | 1 <= k < |a|
      ensures b[k] == a[k]
    {
      assert b[k] == b[1..][..|a| - 1][k - 1] == a[1..][k - 1];
    }
  }

  /** The keys' ancestors are the dump's, whatever levels it skips. */
  lemma AncestorsAre(nodes: seq<Node>, j: nat, i: nat)
    requires PlainRoles(nodes) && i < |nodes| && j < |nodes|
    ensures IsAncestor(KeyOf(nodes, j), KeyOf(nodes, i)) <==> Over(nodes, j, i)
  {
    var p, q, d := Path(nodes, j), Path(nodes, i), nodes[j].depth;
    PathNoSlash(nodes, i);
    PathNoSlash(nodes, j);
    if IsAncestor(KeyOf(nodes, j), KeyOf(nodes, i)) {
      PrefixParts(p, q);
      assert q[d] == p[d] == Part(nodes, j) && q[d] == Above(nodes, i, d);
      PartIsNoFiller(nodes, j);
      var k := LastUpTo(nodes, i, d);
      PathTo(nodes, k, i);
      if k != j {
        KeysApart(nodes, k, j);
      }
    }
    if Over(nodes, j, i) {
      assert LastUpTo(nodes, i, d) == j;
      PathTo(nodes, j, i);
      JoinSplit(q, d + 1);
    }
  }

  lemma PathTo(nodes: seq<Node>, k: nat, i: nat)
    requires PlainRoles(nodes) && Over(nodes, k, i)
    ensures Path(nodes, i)[..nodes[k].depth + 1] == Path(nodes, k)
  {
    assert LastUpTo(nodes, i, nodes[k].depth) == k;
    forall e | 0 <= e < nodes[k].depth
      ensures Path(nodes, k)[e] == Path(nodes, i)[e]
    {
      AboveSame(nodes, k, i, e);
    }
  }

  // ---- What is in a crop, said of the dump ----

  /** An element of a whole dump is in the crop by itself. */
  ghost predicate Within(nodes: seq<Node>, crop: Bounds, i: nat)
    requires i < |nodes|
    decreases i
  {
    nodes[i].depth == 0
    || match nodes[i].bounds
       case Some(b) => Overlaps(b, crop)
       case None => exists j: nat | j < i :: KeyOf(nodes, j) == Parent(KeyOf(nodes, i)) && Within(nodes, crop, j)
  }

  /** A loaded dump: every element at its key. */
  ghost predicate TreeOf(nodes: seq<Node>, tree: map<string, Node>) {
    TreeOrder(Keys(nodes), tree) && forall i | 0 <= i < |nodes| :: tree[Keys(nodes)[i]] == nodes[i]
  }

  lemma {:induction false} SeedIsWithin(nodes: seq<Node>, tree: map<string, Node>, crop: Bounds, i: nat)
    requires PlainRoles(nodes) && i < |nodes| && TreeOf(nodes, tree)
    ensures Seed(Keys(nodes), tree, crop, i) <==> Within(nodes, crop, i)
    decreases i
  {
    RootKey(nodes, i);
    assert Keys(nodes)[i] == KeyOf(nodes, i) && tree[Keys(nodes)[i]] == nodes[i];
    if nodes[i].depth > 0 && nodes[i].bounds.None? {
      forall j: nat | j < i
        ensures Seed(Keys(nodes), tree, crop, j) <==> Within(nodes, crop, j)
        ensures Keys(nodes)[j] == KeyOf(nodes, j)
      {
        SeedIsWithin(nodes, tree, crop, j);
      }
    }
  }

  /** A crop of a dump, read again: the elements in it by themselves and all above them, and no others, each
      at its key in the whole dump. So what is above one kept is kept, and every root and whatever touches
      the crop. */
  lemma CropIsPart(nodes: seq<Node>, crop: Bounds, keep: seq<Node>)
    requires PlainRoles(nodes)
    requires var keys := Keys(nodes);
      && (forall k <- Order(keys, |keys|) :: k in Table(keys, nodes, |keys|))
      && IsCrop(keep, Order(keys, |keys|), Table(keys, nodes, |keys|), crop)
    ensures var whole, part := Table(Keys(nodes), nodes, |nodes|), Table(Keys(keep), keep, |keep|);
      && (forall k <- part :: k in whole && part[k] == Marked(k, whole[k], crop))
      && (forall i | 0 <= i < |nodes| :: KeyOf(nodes, i) in part <==> OverWithin(nodes, crop, i))
      && (forall j, i | 0 <= j && Over(nodes, j, i) && KeyOf(nodes, i) in part :: KeyOf(nodes, j) in part)
      && (forall i | 0 <= i < |nodes| && Touches(nodes[i], crop) :: KeyOf(nodes, i) in part)
  {
    var keys := Keys(nodes);
    var tree, part := Table(keys, nodes, |nodes|), Table(Keys(keep), keep, |keep|);
    LoadKeepsAll(nodes);
    ReloadCrop(keep, keys, tree, crop);
    forall i | 0 <= i < |nodes|
      ensures KeyOf(nodes, i) in part <==> OverWithin(nodes, crop, i)
    {
      KeptIs(nodes, tree, crop, i);
    }
    forall j, i | 0 <= j && Over(nodes, j, i) && KeyOf(nodes, i) in part
      ensures KeyOf(nodes, j) in part
    {
      OverUp(nodes, crop, j, i);
    }
    forall i | 0 <= i < |nodes| && Touches(nodes[i], crop)
      ensures KeyOf(nodes, i) in part
    {
      TouchingOver(nodes, crop, i);
    }
  }

  /** A root, or an element whose bounds touch the crop. */
  predicate Touches(n: Node, crop: Bounds) {
    n.depth == 0 || (n.bounds.Some? && Overlaps(n.bounds.value, crop))
  }

  ghost predicate OverWithin(nodes: seq<Node>, crop: Bounds, i: nat) {
    exists m: nat | m < |nodes| :: Within(nodes, crop, m) && (m == i || Over(nodes, i, m))
  }

  lemma OverUp(nodes: seq<Node>, crop: Bounds, j: nat, i: nat)
    requires Over(nodes, j, i) && OverWithin(nodes, crop, i)
    ensures OverWithin(nodes, crop, j)
  {
    var m: nat :| m < |nodes| && Within(nodes, crop, m) && (m == i || Over(nodes, i, m));
    assert Over(nodes, j, m);
  }

  lemma TouchingOver(nodes: seq<Node>, crop: Bounds, i: nat)
    requires i < |nodes| && Touches(nodes[i], crop)
    ensures OverWithin(nodes, crop, i)
  {
    assert Within(nodes, crop, i);
  }

  lemma RootKey(nodes: seq<Node>, i: nat)
    requires PlainRoles(nodes) && i < |nodes|
    ensures NoSlash(KeyOf(nodes, i)) <==> nodes[i].depth == 0
  {
    var p := Path(nodes, i);
    if nodes[i].depth == 0 {
      PathNoSlash(nodes, i);
      assert p[0] in p;
    } else {
      JoinLast(p);
    }
  }

  lemma KeptIs(nodes: seq<Node>, tree: map<string, Node>, crop: Bounds, i: nat)
    requires PlainRoles(nodes) && i < |nodes| && TreeOf(nodes, tree)
    ensures Kept(Keys(nodes), tree, crop, KeyOf(nodes, i)) <==> OverWithin(nodes, crop, i)
  {
    forall m: nat | m < |nodes|
      ensures Seed(Keys(nodes), tree, crop, m) <==> Within(nodes, crop, m)
      ensures KeyOf(nodes, i) == Keys(nodes)[m] || IsAncestor(KeyOf(nodes, i), Keys(nodes)[m]) <==>
        m == i || Over(nodes, i, m)
    {
      SeedIsWithin(nodes, tree, crop, m);
      AncestorsAre(nodes, i, m);
      if i != m {
        KeysApart(nodes, i, m);
      }
    }
  }

  // ---- An element without bounds, and the nearest above it that has some ----

  /** The element right above another in the dump, or -1. */
  function Upper(nodes: seq<Node>, i: nat): (j: int)
    requires i < |nodes|
    ensures j < i
  {
    if nodes[i].depth == 0 then -1 else LastUpTo(nodes, i, nodes[i].depth - 1)
  }

  predicate Settled(n: Node) {
    n.depth == 0 || n.bounds.Some?
  }

  /** The nearest at or above an element that has bounds, or the root when none has, or -1. */
  function Anchor(nodes: seq<Node>, i: nat): (a: int)
    requires i < |nodes|
    ensures a <= i && (a >= 0 ==> Settled(nodes[a]))
  {
    if Settled(nodes[i]) then i else if Upper(nodes, i) < 0 then -1 else Anchor(nodes, Upper(nodes, i))
  }

  /** No level is skipped on the way there. */
  predicate Unbroken(nodes: seq<Node>, i: nat)
    requires i < |nodes|
  {
    Settled(nodes[i]) || (
      var j := Upper(nodes, i);
      j >= 0 && nodes[j].depth + 1 == nodes[i].depth && Unbroken(nodes, j))
  }

  /** An element without bounds is in the crop by itself exactly when no level is skipped up to the nearest
      above it that has bounds, or the root, and that one is in. */
  lemma {:induction false} BoundlessExactly(nodes: seq<Node>, crop: Bounds, i: nat)
    requires PlainRoles(nodes) && i < |nodes|
    ensures Unbroken(nodes, i) ==> Anchor(nodes, i) >= 0
    ensures Within(nodes, crop, i) <==> Unbroken(nodes, i) && Within(nodes, crop, Anchor(nodes, i))
  {
    if !Settled(nodes[i]) {
      var j := Upper(nodes, i);
      if j >= 0 && nodes[j].depth + 1 == nodes[i].depth {
        UpperKey(nodes, i);
        BoundlessExactly(nodes, crop, j);
        OnlyParent(nodes, i, j);
      } else {
        NoParent(nodes, i);
      }
    }
  }

  lemma OnlyParent(nodes: seq<Node>, i: nat, j: nat)
    requires PlainRoles(nodes) && i < |nodes| && j < |nodes| && KeyOf(nodes, j) == Parent(KeyOf(nodes, i))
    ensures forall k | 0 <= k < |nodes| && KeyOf(nodes, k) == Parent(KeyOf(nodes, i)) :: k == j
  {
    forall k | 0 <= k < |nodes| && KeyOf(nodes, k) == Parent(KeyOf(nodes, i))
      ensures k == j
    {
      if k != j {
        KeysApart(nodes, k, j);
      }
    }
  }

  /** With a level skipped right above it, an element has none at its parent's key. */
  lemma NoParent(nodes: seq<Node>, i: nat)
    requires PlainRoles(nodes) && i < |nodes| && nodes[i].depth > 0
    requires Upper(nodes, i) >= 0 ==> nodes[Upper(nodes, i)].depth + 1 != nodes[i].depth
    ensures forall k | 0 <= k < |nodes| :: KeyOf(nodes, k) != Parent(KeyOf(nodes, i))
  {
    forall k | 0 <= k < |nodes|
      ensures KeyOf(nodes, k) != Parent(KeyOf(nodes, i))
    {
      if KeyOf(nodes, k) == Parent(KeyOf(nodes, i)) {
        ParentBefore(nodes, i, k);
      }
    }
  }

  /** Without a skipped level, the element right above is at the parent's key. */
  lemma UpperKey(nodes: seq<Node>, i: nat)
    requires PlainRoles(nodes) && i < |nodes| && Upper(nodes, i) >= 0
      && nodes[Upper(nodes, i)].depth + 1 == nodes[i].depth
    ensures KeyOf(nodes, Upper(nodes, i)) == Parent(KeyOf(nodes, i))
  {
    var p := Path(nodes, i);
    PathTo(nodes, Upper(nodes, i), i);
    PathNoSlash(nodes, i);
    assert p[|p| - 1] in p;
    JoinLast(p);
    ParentOfTail(Join(p[..|p| - 1]), p[|p| - 1]);
  }

  /** Whether an element without bounds goes with that one, as it is meant to. */
  ghost predicate Goes(nodes: seq<Node>, crop: Bounds, i: nat)
    requires PlainRoles(nodes) && i < |nodes|
  {
    var a := Anchor(nodes, i);
    a >= 0 ==> (Within(nodes, crop, i) <==> Within(nodes, crop, a))
  }

  /** It does in every crop exactly when no level is skipped on the way; else it is left out of each crop that
      the other is in. */
  lemma GoesExactly(nodes: seq<Node>, i: nat)
    requires PlainRoles(nodes) && i < |nodes|
    ensures (forall crop: Bounds :: Goes(nodes, crop, i)) <==> Anchor(nodes, i) < 0 || Unbroken(nodes, i)
    ensures forall crop: Bounds ::
      Goes(nodes, crop, i) <==> Anchor(nodes, i) < 0 || Unbroken(nodes, i) || !Within(nodes, crop, Anchor(nodes, i))
  {
    forall crop: Bounds
      ensures Goes(nodes, crop, i) <==>
        Anchor(nodes, i) < 0 || Unbroken(nodes, i) || !Within(nodes, crop, Anchor(nodes, i))
    {
      BoundlessExactly(nodes, crop, i);
    }
    var a := Anchor(nodes, i);
    if a >= 0 && !Unbroken(nodes, i) {
      var crop := if nodes[a].bounds.Some? then Around(nodes[a].bounds.value) else Bounds(0, 0, 0, 0);
      assert Within(nodes, crop, a) && !Goes(nodes, crop, i);
    }
  }

  /** A crop that any bounds of that size touch. */
  function Around(b: Bounds): (crop: Bounds)
    ensures Overlaps(b, crop)
  {
    var m := (if b.w < 0 then -b.w else b.w) + (if b.h < 0 then -b.h else b.h) + 1;
    Bounds(b.x - m, b.y - m, 2 * m, 2 * m)
  }

  /** A dump that starts with a root and goes down one level at a time. */
  predicate NoSkips(nodes: seq<Node>) {
    (nodes != [] ==> nodes[0].depth == 0) && forall i | 0 < i < |nodes| :: nodes[i].depth <= nodes[i - 1].depth + 1
  }

  /** In such a dump every element without bounds goes with the nearest above it that has some, and is in
      when only the root is left. */
  lemma {:induction false} BoundlessGoesWithAnchor(nodes: seq<Node>, crop: Bounds, i: nat)
    requires PlainRoles(nodes) && NoSkips(nodes) && i < |nodes|
    ensures Unbroken(nodes, i) && Anchor(nodes, i) >= 0
    ensures Within(nodes, crop, i) <==> Within(nodes, crop, Anchor(nodes, i))
    ensures nodes[Anchor(nodes, i)].depth == 0 ==> Within(nodes, crop, i)
  {
    BoundlessExactly(nodes, crop, i);
    if !Settled(nodes[i]) {
      var j := Upper(nodes, i);
      assert nodes[j + 1].depth <= nodes[j].depth + 1;
      BoundlessGoesWithAnchor(nodes, crop, j);
    }
  }

  /** With a level skipped it need not: a window, an element with bounds in it, and one without, two levels
      under that, which stays out of a crop that the one with bounds is in. */
  lemma SkippedLevelLeft()
    ensures exists nodes: seq<Node>, crop: Bounds ::
      |nodes| == 3 && PlainRoles(nodes) && nodes[2].bounds.None? && Anchor(nodes, 2) == 1
                && Within(nodes, crop, 1) && !Within(nodes, crop, 2)
  {
    var b := Bounds(0, 0, 1, 1);
    var nodes :=
      [Node(None, 0, "w", None, None, ""), Node(None, 1, "a", Some(b), None, ""), Node(None, 3, "c", None, None, "")];
    assert LastUpTo(nodes, 2, 2) == 1;
    assert Anchor(nodes, 2) == 1;
    BoundlessExactly(nodes, b, 2);
    assert Within(nodes, b, 1) && !Within(nodes, b, 2);
  }
}
