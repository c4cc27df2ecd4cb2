/** A jail's policy read from its bwrap command line (crates/omabox/src/broker_side.rs: policy_of). */
module JailPolicy {
  import opened Options
  import opened BwrapLines
  import opened Paths

  function Trim(p: Bytes): Bytes {
    if p != "" && p[|p| - 1] == '/' then p[..|p| - 1] else p
  }

  /** p lies in the folder r, and is not r. */
  predicate InDir(p: Bytes, r: Bytes) {
    r + "/" <= p
  }

  predicate AtOrAbove(d: Bytes, p: Bytes) {
    d + "/" <= p + "/"
  }

  /** A later mount covers the folder of mount k. */
  ghost predicate Hidden(mounts: seq<Mount<Bytes>>, k: nat)
    requires k < |mounts|
  {
    exists j | k < j < |mounts| :: AtOrAbove(Trim(mounts[j].dest), Trim(mounts[k].dest))
  }

  /** A later mount lies inside the folder of mount k. */
  ghost predicate Masked(mounts: seq<Mount<Bytes>>, k: nat)
    requires k < |mounts|
  {
    exists j | k < j < |mounts| :: InDir(Trim(mounts[j].dest), Trim(mounts[k].dest))
  }

  type Resolve = Bytes -> Option<Bytes>

  // ---- bwrap's options ----

  predicate Digits(n: Bytes) {
    n != "" && forall c | c in n :: '0' <= c <= '9'
  }

  const NET_OFF := ["--unshare-net", "--unshare-all"]
  const FLAGS := [
    "--unshare-user", "--unshare-user-try", "--unshare-ipc", "--unshare-pid", "--unshare-uts", "--unshare-cgroup",
    "--unshare-cgroup-try", "--die-with-parent", "--as-pid-1", "--new-session", "--clearenv", "--disable-userns",
    "--assert-userns-disabled", "--level-prefix"]
  const MAKES_ONE := ["--tmpfs", "--dev", "--proc", "--mqueue", "--dir", "--tmp-overlay", "--ro-overlay"]
  const TAKES_ONE := [
    "--remount-ro", "--chdir", "--hostname", "--unsetenv", "--perms", "--size", "--uid", "--gid", "--userns",
    "--userns2", "--pidns", "--seccomp", "--add-seccomp-fd", "--exec-label", "--file-label", "--block-fd",
    "--userns-block-fd", "--info-fd", "--json-status-fd", "--lock-file", "--sync-fd", "--cap-add", "--cap-drop",
    "--argv0", "--overlay-src"]
  const BINDS := ["--bind", "--bind-try", "--dev-bind", "--dev-bind-try", "--ro-bind", "--ro-bind-try"]
  const MAKES_TWO := ["--symlink", "--file", "--bind-data", "--ro-bind-data", "--bind-fd", "--ro-bind-fd"]
  const TAKES_TWO := ["--setenv", "--chmod"]

  /** How many words an option takes, and what it does. */
  function OptionOf(op: Bytes): Option<Kind> {
    if op in NET_OFF then Some(Kind(0, NetOff))
    else if op == "--share-net" then Some(Kind(0, NetOn))
    else if op in FLAGS then Some(Kind(0, Nothing))
    else if op in MAKES_ONE then Some(Kind(1, Dest(0)))
    else if op in TAKES_ONE then Some(Kind(1, Nothing))
    else if op in BINDS then Some(Kind(2, Bind))
    else if op in MAKES_TWO then Some(Kind(2, Dest(1)))
    else if op in TAKES_TWO then Some(Kind(2, Nothing))
    else if op == "--overlay" then Some(Kind(3, Dest(2)))
    else None
  }

  const BWRAP := Lang("--", "--args", Digits, OptionOf)

  // ---- What the mounts leave of the host ----

  predicate Below(ks: seq<nat>, n: nat) {
    forall i | 0 <= i < |ks| :: ks[i] < n
  }

  ghost predicate Keeps(mounts: seq<Mount<Bytes>>, resolve: Resolve, k: nat)
    requires k < |mounts|
  {
    !Hidden(mounts, k) && resolve(Trim(mounts[k].dest)).Some?
  }

  /** Those of the binds that no later mount covers, and whose folder is there. */
  ghost function Kept(mounts: seq<Mount<Bytes>>, resolve: Resolve, binds: seq<nat>): (s: seq<nat>)
    requires Below(binds, |mounts|)
    ensures Below(s, |mounts|)
  {
    if binds == [] then []
    else
      var k := binds[|binds| - 1];
      Kept(mounts, resolve, binds[..|binds| - 1]) + if Keeps(mounts, resolve, k) then [k] else []
  }

  datatype Root = Root(path: Bytes, masked: bool)

  datatype Policy = Policy(net: bool, roots: seq<Root>, masks: seq<Bytes>)

  ghost function RootOf(mounts: seq<Mount<Bytes>>, resolve: Resolve, k: nat): Root
    requires k < |mounts| && Keeps(mounts, resolve, k)
  {
    Root(resolve(Trim(mounts[k].dest)).value, Masked(mounts, k))
  }

  /** The parts of a text between its newlines, none empty. */
  function Lines(m: Bytes, line: Bytes): seq<Bytes> {
    if m == "" then (if line == "" then [] else [line])
    else if m[0] == '\n' then (if line == "" then [] else [line]) + Lines(m[1..], "")
    else Lines(m[1..], line + [m[0]])
  }

  /** A kept folder: its path in the jail, and the host's. */
  datatype Folder = Folder(l: Bytes, r: Bytes)

  /** The first kept folder that d lies in. */
  function Holder(kept: seq<Folder>, d: Bytes): (f: Option<Folder>)
    ensures f.Some? ==> f.value in kept && InDir(d, f.value.l)
    ensures f.None? ==> forall k | k in kept :: !InDir(d, k.l)
  {
    if kept == [] then None else if InDir(d, kept[0].l) then Some(kept[0]) else Holder(kept[1..], d)
  }

  /** What mount m hides in the host's folders: nothing, or its path there. */
  function MaskOf(m: Mount<Bytes>, kept: seq<Folder>): seq<Bytes> {
    var d := Trim(m.dest);
    var f := Holder(kept, d);
    if m.same || f.None? then [] else Lines(f.value.r + d[|f.value.l|..], "")
  }

  function Masks(mounts: seq<Mount<Bytes>>, kept: seq<Folder>): seq<Bytes> {
    if mounts == [] then [] else Masks(mounts[..|mounts| - 1], kept) + MaskOf(mounts[|mounts| - 1], kept)
  }

  ghost predicate FoldersOf(kept: seq<Folder>, roots: seq<Root>, mounts: seq<Mount<Bytes>>, resolve: Resolve,
                            ks: seq<nat>)
    requires Below(ks, |mounts|)
  {
    && |kept| == |roots| == |ks|
    && forall m | 0 <= m < |ks| ::
         Keeps(mounts, resolve, ks[m]) && roots[m] == RootOf(mounts, resolve, ks[m])
         && kept[m] == Folder(Trim(mounts[ks[m]].dest), roots[m].path)
  }

  /** What a mount sequence leaves the jail of the host: the folders kept and what is hidden in them. */
  ghost predicate Summarises(roots: seq<Root>, masks: seq<Bytes>, mounts: seq<Mount<Bytes>>, resolve: Resolve) {
    Below(Sames(mounts), |mounts|) &&
    exists kept ::
      FoldersOf(kept, roots, mounts, resolve, Kept(mounts, resolve, Sames(mounts))) && masks == Masks(mounts, kept)
  }

  // ---- The policy is computed ----

  method Roots(dests: seq<Bytes>, binds: seq<nat>, resolve: Resolve, ghost mounts: seq<Mount<Bytes>>)
    returns (roots: seq<Root>, kept: seq<Folder>)
    requires Listed(dests, binds, mounts)
    requires Below(binds, |mounts|)
    ensures FoldersOf(kept, roots, mounts, resolve, Kept(mounts, resolve, binds))
  {
    roots, kept := [], [];
    for b := 0 to |binds|
      invariant FoldersOf(kept, roots, mounts, resolve, Kept(mounts, resolve, binds[..b]))
    {
      var k := binds[b];
      var r := Trim(dests[k]);
      var masked, hidden := Later(dests, k, mounts);
      KeptOn(mounts, resolve, binds, b);
      var rr := resolve(r);
      if !hidden && rr.Some? {
        FoldersOn(kept, roots, mounts, resolve, Kept(mounts, resolve, binds[..b]), k);
        roots := roots + [Root(rr.value, masked)];
        kept := kept + [Folder(r, rr.value)];
      }
    }
    assert binds[..|binds|] == binds;
  }

  lemma KeptOn(mounts: seq<Mount<Bytes>>, resolve: Resolve, binds: seq<nat>, b: nat)
    requires Below(binds, |mounts|) && b < |binds|
    ensures Kept(mounts, resolve, binds[..b + 1])
         == Kept(mounts, resolve, binds[..b]) + if Keeps(mounts, resolve, binds[b]) then [binds[b]] else []
  {
    assert binds[..b + 1][..b] == binds[..b];
  }

  lemma FoldersOn(kept: seq<Folder>, roots: seq<Root>, mounts: seq<Mount<Bytes>>, resolve: Resolve, ks: seq<nat>,
                  k: nat)
    requires Below(ks, |mounts|) && FoldersOf(kept, roots, mounts, resolve, ks) && k < |mounts|
      && Keeps(mounts, resolve, k)
    ensures Below(ks + [k], |mounts|)
    ensures var r := RootOf(mounts, resolve, k);
      FoldersOf(kept + [Folder(Trim(mounts[k].dest), r.path)], roots + [r], mounts, resolve, ks + [k])
  {
  }

  /** A mount from lo to hi is at or above l; one is inside it. */
  ghost predicate SomeCover(mounts: seq<Mount<Bytes>>, lo: nat, hi: nat, l: Bytes)
    requires hi <= |mounts|
  {
    lo < hi && (SomeCover(mounts, lo, hi - 1, l) || AtOrAbove(Trim(mounts[hi - 1].dest), l))
  }

  ghost predicate SomeInside(mounts: seq<Mount<Bytes>>, lo: nat, hi: nat, l: Bytes)
    requires hi <= |mounts|
  {
    lo < hi && (SomeInside(mounts, lo, hi - 1, l) || InDir(Trim(mounts[hi - 1].dest), l))
  }

  lemma {:induction false} CoverAmong(mounts: seq<Mount<Bytes>>, lo: nat, hi: nat, l: Bytes)
    requires hi <= |mounts|
    ensures SomeCover(mounts, lo, hi, l) <==> exists j | lo <= j < hi :: AtOrAbove(Trim(mounts[j].dest), l)
  {
    if lo < hi {
      CoverAmong(mounts, lo, hi - 1, l);
    }
  }

  lemma {:induction false} InsideAmong(mounts: seq<Mount<Bytes>>, lo: nat, hi: nat, l: Bytes)
    requires hi <= |mounts|
    ensures SomeInside(mounts, lo, hi, l) <==> exists j | lo <= j < hi :: InDir(Trim(mounts[j].dest), l)
  {
    if lo < hi {
      InsideAmong(mounts, lo, hi - 1, l);
    }
  }

  /** Whether a later mount is inside the folder of mount k, and whether one covers it. */
  method Later(dests: seq<Bytes>, k: nat, ghost mounts: seq<Mount<Bytes>>) returns (masked: bool, hidden: bool)
    requires |dests| == |mounts| && k < |dests| && forall j | 0 <= j < |dests| :: dests[j] == mounts[j].dest
    ensures masked == Masked(mounts, k) && hidden == Hidden(mounts, k)
  {
    var r := Trim(dests[k]);
    masked, hidden := false, false;
    for j := k + 1 to |dests|
      invariant masked == SomeInside(mounts, k + 1, j, r) && hidden == SomeCover(mounts, k + 1, j, r)
    {
      var d := Trim(dests[j]);
      hidden := hidden || AtOrAbove(d, r);
      masked := masked || InDir(d, r);
    }
    LaterAre(mounts, k);
  }

  lemma LaterAre(mounts: seq<Mount<Bytes>>, k: nat)
    requires k < |mounts|
    ensures SomeInside(mounts, k + 1, |mounts|, Trim(mounts[k].dest)) <==> Masked(mounts, k)
    ensures SomeCover(mounts, k + 1, |mounts|, Trim(mounts[k].dest)) <==> Hidden(mounts, k)
  {
    CoverAmong(mounts, k + 1, |mounts|, Trim(mounts[k].dest));
    InsideAmong(mounts, k + 1, |mounts|, Trim(mounts[k].dest));
  }

  /** The paths hidden in the kept folders. */
  method MasksIn(dests: seq<Bytes>, binds: seq<nat>, kept: seq<Folder>, ghost mounts: seq<Mount<Bytes>>)
    returns (masks: seq<Bytes>)
    requires Listed(dests, binds, mounts)
    ensures masks == Masks(mounts, kept)
  {
    SamesAre(mounts);
    masks := [];
    for j := 0 to |dests|
      invariant masks == Masks(mounts[..j], kept)
    {
      assert mounts[..j + 1][..j] == mounts[..j];
      var d := Trim(dests[j]);
      var f := Holder(kept, d);
      if j !in binds && f.Some? {
        masks := masks + Lines(f.value.r + d[|f.value.l|..], "");
      }
    }
    assert mounts[..|dests|] == mounts;
  }

  /** A jail's policy, from its bwrap command line: read gives the words of an --args, and resolve a
      path's real one, when it is there. */
  method PolicyOf(line: seq<Bytes>, read: Bytes -> Option<seq<Bytes>>, resolve: Resolve)
    returns (r: Result<Policy, Bytes>, ghost items: seq<Item<Bytes>>)
    ensures r.Success? ==> HasOptions(line, items, read, BWRAP) && ItemsOk(items, BWRAP)
    ensures r.Success? ==>
      r.value.net == Net(items, BWRAP) && Summarises(r.value.roots, r.value.masks, Mounts(items, BWRAP), resolve)
    ensures r.Failure? ==> Unreadable(line, read, BWRAP)
  {
    var got;
    got, items := ReadLine(line, read, BWRAP);
    if got.Failure? {
      return Failure(got.error), items;
    }
    var (net, dests, binds) := got.value;
    ghost var mounts := Mounts(items, BWRAP);
    SamesAre(mounts);
    var roots, kept := Roots(dests, binds, resolve, mounts);
    var masks := MasksIn(dests, binds, kept, mounts);
    r := Success(Policy(net, roots, masks));
  }

  // ---- What a policy's roots and masks promise ----

  lemma {:induction false} SamesAre<W>(mounts: seq<Mount<W>>)
    ensures forall k :: k in Sames(mounts) <==> 0 <= k < |mounts| && mounts[k].same
    ensures Below(Sames(mounts), |mounts|)
  {
    if mounts != [] {
      SamesAre(mounts[..|mounts| - 1]);
    }
  }

  lemma {:induction false} KeptAre(mounts: seq<Mount<Bytes>>, resolve: Resolve, binds: seq<nat>)
    requires Below(binds, |mounts|)
    ensures forall k :: k in Kept(mounts, resolve, binds) <==> k in binds && Keeps(mounts, resolve, k)
  {
    if binds != [] {
      KeptAre(mounts, resolve, binds[..|binds| - 1]);
      assert binds == binds[..|binds| - 1] + [binds[|binds| - 1]];
    }
  }

  /** Mount k is a bind of the host's folder r that the jail keeps. */
  ghost predicate Holds(mounts: seq<Mount<Bytes>>, resolve: Resolve, k: nat, r: Root) {
    k < |mounts| && mounts[k].same && Keeps(mounts, resolve, k) && r == RootOf(mounts, resolve, k)
  }

  /** The roots are the folders the jail keeps, no more and no less. */
  lemma RootsAre(roots: seq<Root>, masks: seq<Bytes>, mounts: seq<Mount<Bytes>>, resolve: Resolve)
    requires Summarises(roots, masks, mounts, resolve)
    ensures forall r :: r in roots <==> exists k: nat :: Holds(mounts, resolve, k, r)
  {
    SamesAre(mounts);
    KeptAre(mounts, resolve, Sames(mounts));
    var ks := Kept(mounts, resolve, Sames(mounts));
    forall r | r in roots
      ensures exists k: nat :: Holds(mounts, resolve, k, r)
    {
      var m :| 0 <= m < |roots| && roots[m] == r;
      assert ks[m] in ks;
      assert Holds(mounts, resolve, ks[m], r);
    }
    forall r, k: nat | Holds(mounts, resolve, k, r)
      ensures r in roots
    {
      var m :| 0 <= m < |ks| && ks[m] == k;
      assert roots[m] == r;
    }
  }

  lemma {:induction false} LinesOne(m: Bytes, line: Bytes)
    requires '\n' !in m && line + m != ""
    ensures Lines(m, line) == [line + m]
    decreases |m|
  {
    if m != "" {
      LinesOne(m[1..], line + [m[0]]);
      assert line + [m[0]] + m[1..] == line + m;
    } else {
      assert line + m == line;
    }
  }

  // ---- Kept folders, where the real paths are not the jail's ----

  /** The jail keeps mount k: a bind at its own path. */
  ghost predicate Held(mounts: seq<Mount<Bytes>>, resolve: Resolve, k: nat) {
    k < |mounts| && mounts[k].same && Keeps(mounts, resolve, k)
  }

  function At(mounts: seq<Mount<Bytes>>, k: nat): Bytes
    requires k < |mounts|
  {
    Trim(mounts[k].dest)
  }

  /** The host's folder of a mount kept. */
  ghost function Real(mounts: seq<Mount<Bytes>>, resolve: Resolve, k: nat): Bytes
    requires Held(mounts, resolve, k)
  {
    resolve(At(mounts, k)).value
  }

  /** Where something in the folder of mount k is in the host's folder. */
  ghost function Placed(mounts: seq<Mount<Bytes>>, resolve: Resolve, k: nat, p: Bytes): Bytes
    requires Held(mounts, resolve, k) && |At(mounts, k)| <= |p|
  {
    Real(mounts, resolve, k) + p[|At(mounts, k)|..]
  }

  /** k1 is the first folder kept that the folder of mount k is in. */
  ghost predicate FirstOver(mounts: seq<Mount<Bytes>>, resolve: Resolve, k: nat, k1: nat) {
    && k1 < k < |mounts| && Held(mounts, resolve, k1) && InDir(At(mounts, k), At(mounts, k1))
    && forall i | 0 <= i < k1 && Held(mounts, resolve, i) :: !InDir(At(mounts, k), At(mounts, i))
  }

  /** k is the first folder kept that d is in. */
  ghost predicate FirstWith(mounts: seq<Mount<Bytes>>, resolve: Resolve, k: nat, d: Bytes) {
    && Held(mounts, resolve, k) && InDir(d, At(mounts, k))
    && forall i: nat | i < k && Held(mounts, resolve, i) :: !InDir(d, At(mounts, i))
  }

  /** The first folder kept that a folder is in leads to the same place of the host. */
  ghost predicate Straight(mounts: seq<Mount<Bytes>>, resolve: Resolve, k: nat)
    requires Held(mounts, resolve, k)
  {
    forall k1 | FirstOver(mounts, resolve, k, k1) ::
      Placed(mounts, resolve, k1, At(mounts, k)) == Real(mounts, resolve, k)
  }

  /** A real path begins at the root. */
  ghost predicate Absolute(resolve: Resolve) {
    forall p :: resolve(p).Some? ==> "/" <= resolve(p).value
  }

  ghost predicate Ascending(ks: seq<nat>) {
    forall m, n | 0 <= m < n < |ks| :: ks[m] < ks[n]
  }

  lemma {:induction false} SamesAscend<W>(mounts: seq<Mount<W>>)
    ensures Ascending(Sames(mounts)) && Below(Sames(mounts), |mounts|)
  {
    if mounts != [] {
      SamesAscend(mounts[..|mounts| - 1]);
    }
  }

  lemma {:induction false} KeptAscend(mounts: seq<Mount<Bytes>>, resolve: Resolve, binds: seq<nat>)
    requires Below(binds, |mounts|) && Ascending(binds)
    ensures Ascending(Kept(mounts, resolve, binds)) && forall k | k in Kept(mounts, resolve, binds) :: k in binds
  {
    if binds != [] {
      var before := binds[..|binds| - 1];
      KeptAscend(mounts, resolve, before);
      assert binds == before + [binds[|binds| - 1]];
      var rest := Kept(mounts, resolve, before);
      forall n | 0 <= n < |rest|
        ensures rest[n] < binds[|binds| - 1]
      {
        assert rest[n] in rest;
        var m :| 0 <= m < |before| && before[m] == rest[n];
        assert binds[m] == rest[n];
      }
    }
  }

  /** The folders kept, in order. */
  lemma FoldersAre(roots: seq<Root>, masks: seq<Bytes>, mounts: seq<Mount<Bytes>>, resolve: Resolve)
    returns (kept: seq<Folder>, ks: seq<nat>)
    requires Summarises(roots, masks, mounts, resolve)
    ensures masks == Masks(mounts, kept) && Ascending(ks) && |ks| == |kept|
    ensures forall k :: k in ks <==> Held(mounts, resolve, k)
    ensures forall m | 0 <= m < |ks| ::
      Held(mounts, resolve, ks[m]) && kept[m] == Folder(At(mounts, ks[m]), Real(mounts, resolve, ks[m]))
  {
    ks := Kept(mounts, resolve, Sames(mounts));
    SamesAre(mounts);
    SamesAscend(mounts);
    KeptAre(mounts, resolve, Sames(mounts));
    KeptAscend(mounts, resolve, Sames(mounts));
    kept :| FoldersOf(kept, roots, mounts, resolve, ks) && masks == Masks(mounts, kept);
    forall m | 0 <= m < |ks|
      ensures Held(mounts, resolve, ks[m])
    {
      assert ks[m] in ks;
    }
  }

  lemma {:induction false} HolderFirst(kept: seq<Folder>, d: Bytes) returns (m: nat)
    requires Holder(kept, d).Some?
    ensures m < |kept| && Holder(kept, d).value == kept[m] && forall i | 0 <= i < m :: !InDir(d, kept[i].l)
  {
    if InDir(d, kept[0].l) {
      m := 0;
    } else {
      m := HolderFirst(kept[1..], d);
      m := m + 1;
    }
  }

  lemma InBoth(d: Bytes, l: Bytes, l1: Bytes)
    requires InDir(d, l) && InDir(l, l1)
    ensures InDir(d, l1)
  {
  }

  /** A mount in a kept folder is reported in the first kept folder over that one, or in it. */
  lemma HeldBy(mounts: seq<Mount<Bytes>>, resolve: Resolve, kept: seq<Folder>, ks: seq<nat>, k: nat, d: Bytes)
    returns (k1: nat)
    requires Ascending(ks) && |ks| == |kept| && (forall i :: i in ks <==> Held(mounts, resolve, i))
    requires forall m | 0 <= m < |ks| ::
      Held(mounts, resolve, ks[m]) && kept[m] == Folder(At(mounts, ks[m]), Real(mounts, resolve, ks[m]))
    requires Held(mounts, resolve, k) && InDir(d, At(mounts, k))
    ensures Held(mounts, resolve, k1) && Holder(kept, d) == Some(Folder(At(mounts, k1), Real(mounts, resolve, k1)))
    ensures FirstWith(mounts, resolve, k1, d)
    ensures k1 == k || FirstOver(mounts, resolve, k, k1)
    ensures forall i | FirstOver(mounts, resolve, k, i) :: i == k1
  {
    var n :| 0 <= n < |ks| && ks[n] == k;
    assert kept[n] in kept;
    var m := HolderFirst(kept, d);
    k1 := ks[m];
    assert m <= n;
    forall i: nat | i < k1 && Held(mounts, resolve, i)
      ensures !InDir(d, At(mounts, i))
    {
      var o :| 0 <= o < |ks| && ks[o] == i;
      assert o < m;
    }
    if k1 < k {
      assert !AtOrAbove(At(mounts, k), At(mounts, k1));
      Nested(At(mounts, k), At(mounts, k1), d);
      forall i: nat | i < k1 && Held(mounts, resolve, i)
        ensures !InDir(At(mounts, k), At(mounts, i))
      {
        if InDir(At(mounts, k), At(mounts, i)) {
          InBoth(d, At(mounts, k), At(mounts, i));
        }
      }
    }
    forall i | FirstOver(mounts, resolve, k, i)
      ensures i == k1
    {
      InBoth(d, At(mounts, k), At(mounts, i));
    }
  }

  lemma InDirIsAbove(d: Bytes, l: Bytes)
    requires InDir(d, l)
    ensures AtOrAbove(l, d) && d == l + d[|l|..] && |l| < |d|
  {
  }

  /** The place of something in a folder by way of a folder over it is its own place exactly when the folder's
      is. */
  lemma SamePlace(mounts: seq<Mount<Bytes>>, resolve: Resolve, k: nat, k1: nat, d: Bytes)
    requires Held(mounts, resolve, k) && Held(mounts, resolve, k1) && InDir(At(mounts, k), At(mounts, k1))
      && InDir(d, At(mounts, k))
    ensures |At(mounts, k1)| <= |d|
    ensures Placed(mounts, resolve, k1, d) == Placed(mounts, resolve, k, d) <==>
      Placed(mounts, resolve, k1, At(mounts, k)) == Real(mounts, resolve, k)
  {
    var l, l1 := At(mounts, k), At(mounts, k1);
    var rest := d[|l|..];
    assert d[|l1|..] == l[|l1|..] + rest;
    var a, b := Placed(mounts, resolve, k1, l), Real(mounts, resolve, k);
    assert Placed(mounts, resolve, k1, d) == a + rest && Placed(mounts, resolve, k, d) == b + rest;
    if a + rest == b + rest {
      assert a == (a + rest)[..|a + rest| - |rest|] == (b + rest)[..|b + rest| - |rest|] == b;
    }
  }

  lemma {:induction false} MaskListed(mounts: seq<Mount<Bytes>>, kept: seq<Folder>, j: nat, d: Bytes)
    requires j < |mounts| && d in MaskOf(mounts[j], kept)
    ensures d in Masks(mounts, kept)
  {
    if j < |mounts| - 1 {
      MaskListed(mounts[..|mounts| - 1], kept, j, d);
    }
  }

  lemma {:induction false} MaskSource(mounts: seq<Mount<Bytes>>, kept: seq<Folder>, d: Bytes) returns (j: nat)
    requires d in Masks(mounts, kept)
    ensures j < |mounts| && d in MaskOf(mounts[j], kept)
  {
    if d in MaskOf(mounts[|mounts| - 1], kept) {
      j := |mounts| - 1;
    } else {
      j := MaskSource(mounts[..|mounts| - 1], kept, d);
    }
  }

  /** What of the jail's own is mounted in a kept folder is reported at its place in the first kept folder it is in,
      a line each; that is its place in the host's folder exactly when that folder is straight. So a place without a
      newline is reported itself exactly then. */
  lemma MasksAre(roots: seq<Root>, masks: seq<Bytes>, mounts: seq<Mount<Bytes>>, resolve: Resolve, k: nat, j: nat)
    returns (kept: seq<Folder>, k1: nat)
    requires Summarises(roots, masks, mounts, resolve)
    requires Held(mounts, resolve, k) && j < |mounts| && !mounts[j].same && InDir(At(mounts, j), At(mounts, k))
    ensures masks == Masks(mounts, kept) && FirstWith(mounts, resolve, k1, At(mounts, j))
    ensures MaskOf(mounts[j], kept) == Lines(Placed(mounts, resolve, k1, At(mounts, j)), "")
    ensures forall d <- MaskOf(mounts[j], kept) :: d in masks
    ensures Placed(mounts, resolve, k1, At(mounts, j)) == Placed(mounts, resolve, k, At(mounts, j)) <==>
      Straight(mounts, resolve, k)
    ensures Absolute(resolve) && '\n' !in Placed(mounts, resolve, k, At(mounts, j)) ==>
      (MaskOf(mounts[j], kept) == [Placed(mounts, resolve, k, At(mounts, j))] <==> Straight(mounts, resolve, k))
  {
    var ks;
    kept, ks := FoldersAre(roots, masks, mounts, resolve);
    var d := At(mounts, j);
    k1 := HeldBy(mounts, resolve, kept, ks, k, d);
    InDirIsAbove(d, At(mounts, k1));
    if k1 != k {
      SamePlace(mounts, resolve, k, k1, d);
    }
    forall l <- MaskOf(mounts[j], kept)
      ensures l in masks
    {
      MaskListed(mounts, kept, j, l);
    }
    if Absolute(resolve) && '\n' !in Placed(mounts, resolve, k, d) {
      PlaceAlone(mounts, resolve, k, k1, d);
    }
  }

  /** A place that is reported as one text without a newline is that text. */
  lemma PlaceAlone(mounts: seq<Mount<Bytes>>, resolve: Resolve, k: nat, k1: nat, d: Bytes)
    requires Held(mounts, resolve, k) && Held(mounts, resolve, k1) && Absolute(resolve)
    requires InDir(d, At(mounts, k)) && InDir(d, At(mounts, k1)) && '\n' !in Placed(mounts, resolve, k, d)
    ensures Lines(Placed(mounts, resolve, k1, d), "") == [Placed(mounts, resolve, k, d)] <==>
      Placed(mounts, resolve, k1, d) == Placed(mounts, resolve, k, d)
  {
    var own, place := Placed(mounts, resolve, k, d), Placed(mounts, resolve, k1, d);
    assert own[|own| - 1] == d[|d| - 1] == place[|place| - 1];
    assert place[0] == '/';
    if Lines(place, "") == [own] {
      LinesTell(place, "");
    }
    if place == own {
      LinesOne(place, "");
    }
    assert "" + place == place;
  }

  /** A text that neither begins nor ends in a newline is several lines, or one that is itself. */
  lemma {:induction false} LinesTell(m: Bytes, line: Bytes)
    requires m != "" && m[|m| - 1] != '\n' && (line == "" ==> m[0] != '\n')
    ensures |Lines(m, line)| > 1 || Lines(m, line) == [line + m]
    decreases |m|
  {
    if m[0] == '\n' {
      SomeLine(m[1..], "");
    } else if |m| > 1 {
      LinesTell(m[1..], line + [m[0]]);
      assert line + [m[0]] + m[1..] == line + m;
    } else {
      assert m[1..] == "" && line + [m[0]] == line + m;
    }
  }

  lemma {:induction false} SomeLine(m: Bytes, line: Bytes)
    requires m != "" && m[|m| - 1] != '\n'
    ensures |Lines(m, line)| > 0
    decreases |m|
  {
    if |m| > 1 {
      SomeLine(m[1..], if m[0] == '\n' then "" else line + [m[0]]);
    } else {
      assert m[1..] == "";
    }
  }

  /** Every mask is a line of such a place: that of something of the jail's, in the first kept folder it is in. */
  lemma MasksOnly(roots: seq<Root>, masks: seq<Bytes>, mounts: seq<Mount<Bytes>>, resolve: Resolve, d: Bytes)
    returns (j: nat, k: nat)
    requires Summarises(roots, masks, mounts, resolve) && d in masks
    ensures j < |mounts| && !mounts[j].same && FirstWith(mounts, resolve, k, At(mounts, j))
    ensures d in Lines(Placed(mounts, resolve, k, At(mounts, j)), "")
  {
    var kept, ks := FoldersAre(roots, masks, mounts, resolve);
    j := MaskSource(mounts, kept, d);
    var m := HolderFirst(kept, At(mounts, j));
    k := ks[m];
    assert kept[m] in kept;
    InDirIsAbove(At(mounts, j), At(mounts, k));
    forall i: nat | i < k && Held(mounts, resolve, i)
      ensures !InDir(At(mounts, j), At(mounts, i))
    {
      var o :| 0 <= o < |ks| && ks[o] == i;
      assert o < m && kept[o].l == At(mounts, i);
    }
  }

  // ---- The mount table: at a path, the last mount at or above it is what is seen ----

  ghost predicate SeenAt(mounts: seq<Mount<Bytes>>, j: nat, p: Bytes) {
    && j < |mounts| && AtOrAbove(Trim(mounts[j].dest), p)
    && forall i | j < i < |mounts| :: !AtOrAbove(Trim(mounts[i].dest), p)
  }

  lemma {:induction false} SomethingSeen(mounts: seq<Mount<Bytes>>, k: nat, p: Bytes)
    requires k < |mounts| && AtOrAbove(Trim(mounts[k].dest), p)
    ensures exists j: nat :: k <= j && SeenAt(mounts, j, p)
    decreases |mounts| - k
  {
    if i: nat :| k < i < |mounts| && AtOrAbove(Trim(mounts[i].dest), p) {
      SomethingSeen(mounts, i, p);
    } else {
      assert SeenAt(mounts, k, p);
    }
  }

  /** Of two folders at or above a path, one is at or above the other. */
  lemma Nested(d: Bytes, l: Bytes, p: Bytes)
    requires AtOrAbove(d, p) && AtOrAbove(l, p) && !AtOrAbove(d, l)
    ensures InDir(d, l)
  {
    var q := p + "/";
    if |d| > |l| {
      assert d + "/" == q[..|d| + 1] && l + "/" == q[..|l| + 1];
      assert d == q[..|d|] && q[..|d|][..|l| + 1] == q[..|l| + 1];
    }
  }

  /** A mount after a kept folder's own, at or above a path in it, is inside the folder. */
  lemma LaterIsInside(mounts: seq<Mount<Bytes>>, resolve: Resolve, k: nat, j: nat, p: Bytes)
    requires Held(mounts, resolve, k) && k < j < |mounts| && AtOrAbove(At(mounts, k), p) && AtOrAbove(At(mounts, j), p)
    ensures InDir(At(mounts, j), At(mounts, k))
  {
    assert !AtOrAbove(At(mounts, j), At(mounts, k));
    Nested(At(mounts, j), At(mounts, k), p);
  }

  /** Above a path in a folder, in the jail, is above its place, in the host. */
  lemma AbovePlace(mounts: seq<Mount<Bytes>>, resolve: Resolve, k: nat, d: Bytes, p: Bytes)
    requires Held(mounts, resolve, k) && InDir(d, At(mounts, k)) && AtOrAbove(d, p)
    ensures |At(mounts, k)| <= |d| && |At(mounts, k)| <= |p|
      && AtOrAbove(Placed(mounts, resolve, k, d), Placed(mounts, resolve, k, p))
  {
    var l := At(mounts, k);
    var q, r := p + "/", Real(mounts, resolve, k);
    assert d + "/" == q[..|d| + 1];
    assert d[|l|..] + "/" == (d + "/")[|l|..] == q[..|d| + 1][|l|..];
    assert p[|l|..] + "/" == q[|l|..];
    assert d[|l|..] + "/" <= p[|l|..] + "/";
    assert Placed(mounts, resolve, k, d) + "/" == r + (d[|l|..] + "/");
    assert Placed(mounts, resolve, k, p) + "/" == r + (p[|l|..] + "/");
  }

  /** What of the jail's own is seen at a path in a straight folder is reported at or above the path's place, unless
      its own place has a newline. */
  lemma ReportedAbove(roots: seq<Root>, masks: seq<Bytes>, mounts: seq<Mount<Bytes>>, resolve: Resolve, k: nat, j: nat,
                      p: Bytes)
    returns (d: Bytes)
    requires Summarises(roots, masks, mounts, resolve)
    requires Held(mounts, resolve, k) && Straight(mounts, resolve, k)
    requires j < |mounts| && !mounts[j].same && InDir(At(mounts, j), At(mounts, k)) && AtOrAbove(At(mounts, j), p)
    requires '\n' !in Placed(mounts, resolve, k, At(mounts, j))
    ensures |At(mounts, k)| <= |p| && d in masks && AtOrAbove(d, Placed(mounts, resolve, k, p))
  {
    AbovePlace(mounts, resolve, k, At(mounts, j), p);
    d := Placed(mounts, resolve, k, At(mounts, j));
    var kept, k1 := MasksAre(roots, masks, mounts, resolve, k, j);
    LinesOne(d, "");
    assert "" + d == d;
  }

  /** p is in the folder of mount k, and no mask is at or above its place in the host's folder. */
  ghost predicate Unmasked(mounts: seq<Mount<Bytes>>, resolve: Resolve, masks: seq<Bytes>, k: nat, p: Bytes)
    requires Held(mounts, resolve, k)
  {
    && AtOrAbove(At(mounts, k), p) && |At(mounts, k)| <= |p|
    && forall d <- masks :: !AtOrAbove(d, Placed(mounts, resolve, k, p))
  }

  /** What the jail sees at p is no file of its own: a bind of the host's folder at its own path. */
  ghost predicate HostsAt(mounts: seq<Mount<Bytes>>, p: Bytes) {
    exists j: nat :: j < |mounts| && SeenAt(mounts, j, p) && mounts[j].same
  }

  /** Something of the jail's own in the folder of mount k, seen where it is, at a place that has a newline. */
  ghost predicate InLines(mounts: seq<Mount<Bytes>>, resolve: Resolve, k: nat, j: nat)
    requires Held(mounts, resolve, k)
  {
    && j < |mounts| && !mounts[j].same && InDir(At(mounts, j), At(mounts, k)) && SeenAt(mounts, j, At(mounts, j))
    && '\n' in Placed(mounts, resolve, k, At(mounts, j))
  }

  /** In a straight folder, what is seen where no mask is at or above is the host's, or something of the jail's own
      whose place has a newline. */
  lemma SeenUnmasked(roots: seq<Root>, masks: seq<Bytes>, mounts: seq<Mount<Bytes>>, resolve: Resolve, k: nat, p: Bytes)
    returns (j: nat)
    requires Summarises(roots, masks, mounts, resolve)
    requires Held(mounts, resolve, k) && Straight(mounts, resolve, k) && Unmasked(mounts, resolve, masks, k, p)
    ensures SeenAt(mounts, j, p)
    ensures mounts[j].same || (InLines(mounts, resolve, k, j) && Unmasked(mounts, resolve, masks, k, At(mounts, j)))
  {
    SomethingSeen(mounts, k, p);
    j :| k <= j && SeenAt(mounts, j, p);
    if !mounts[j].same {
      LaterIsInside(mounts, resolve, k, j, p);
      if '\n' !in Placed(mounts, resolve, k, At(mounts, j)) {
        var d := ReportedAbove(roots, masks, mounts, resolve, k, j, p);
      } else {
        SeenThere(mounts, j, p);
        AbovePlace(mounts, resolve, k, At(mounts, j), p);
        forall d <- masks
          ensures !AtOrAbove(d, Placed(mounts, resolve, k, At(mounts, j)))
        {
          if AtOrAbove(d, Placed(mounts, resolve, k, At(mounts, j))) {
            AboveBoth(d, Placed(mounts, resolve, k, At(mounts, j)), Placed(mounts, resolve, k, p));
          }
        }
      }
    }
  }

  lemma AboveBoth(a: Bytes, b: Bytes, c: Bytes)
    requires AtOrAbove(a, b) && AtOrAbove(b, c)
    ensures AtOrAbove(a, c)
  {
  }

  /** A mount seen at a path is seen at its own. */
  lemma SeenThere(mounts: seq<Mount<Bytes>>, j: nat, p: Bytes)
    requires SeenAt(mounts, j, p)
    ensures SeenAt(mounts, j, At(mounts, j))
  {
    forall i | j < i < |mounts|
      ensures !AtOrAbove(At(mounts, i), At(mounts, j))
    {
      if AtOrAbove(At(mounts, i), At(mounts, j)) {
        AboveBoth(At(mounts, i), At(mounts, j), p);
      }
    }
  }

  /** What a jail sees in a straight folder it keeps, wherever no mask reported is at or above the path's place in the
      host's folder, is the host's, exactly when such a mask is at or above everything of the jail's own there whose
      place has a newline. */
  lemma RootIsTheHosts(roots: seq<Root>, masks: seq<Bytes>, mounts: seq<Mount<Bytes>>, resolve: Resolve, k: nat)
    requires Summarises(roots, masks, mounts, resolve) && Held(mounts, resolve, k) && Straight(mounts, resolve, k)
    ensures (forall p | Unmasked(mounts, resolve, masks, k, p) :: HostsAt(mounts, p)) <==>
      forall j | InLines(mounts, resolve, k, j) :: !Unmasked(mounts, resolve, masks, k, At(mounts, j))
  {
    if forall j | InLines(mounts, resolve, k, j) :: !Unmasked(mounts, resolve, masks, k, At(mounts, j)) {
      forall p | Unmasked(mounts, resolve, masks, k, p)
        ensures HostsAt(mounts, p)
      {
        var j := SeenUnmasked(roots, masks, mounts, resolve, k, p);
      }
    } else {
      var j: nat :| InLines(mounts, resolve, k, j) && Unmasked(mounts, resolve, masks, k, At(mounts, j));
      assert !HostsAt(mounts, At(mounts, j));
    }
  }

  /** In a folder reported without masks, the mount seen everywhere is that folder's own bind. */
  lemma UnmaskedIsWhole(roots: seq<Root>, masks: seq<Bytes>, mounts: seq<Mount<Bytes>>, resolve: Resolve, k: nat,
                        p: Bytes)
    requires Summarises(roots, masks, mounts, resolve)
    requires Held(mounts, resolve, k) && !RootOf(mounts, resolve, k).masked && AtOrAbove(At(mounts, k), p)
    ensures RootOf(mounts, resolve, k) in roots && SeenAt(mounts, k, p)
  {
    RootsAre(roots, masks, mounts, resolve);
    assert Holds(mounts, resolve, k, RootOf(mounts, resolve, k));
    forall i | k < i < |mounts|
      ensures !AtOrAbove(At(mounts, i), p)
    {
      if AtOrAbove(At(mounts, i), p) {
        LaterIsInside(mounts, resolve, k, i, p);
      }
    }
  }

  /** The folders bound are their own real paths. */
  ghost predicate Plain(mounts: seq<Mount<Bytes>>, resolve: Resolve) {
    forall k: nat | Held(mounts, resolve, k) :: Real(mounts, resolve, k) == At(mounts, k)
  }

  /** Then every folder kept is straight. */
  lemma PlainIsStraight(mounts: seq<Mount<Bytes>>, resolve: Resolve, k: nat)
    requires Plain(mounts, resolve) && Held(mounts, resolve, k)
    ensures Straight(mounts, resolve, k)
  {
    forall k1 | FirstOver(mounts, resolve, k, k1)
      ensures Placed(mounts, resolve, k1, At(mounts, k)) == Real(mounts, resolve, k)
    {
      InDirIsAbove(At(mounts, k), At(mounts, k1));
    }
  }

  lemma AboveSplits(l: Bytes, p: Bytes)
    requires AtOrAbove(l, p)
    ensures |l| <= |p| && p == l + p[|l|..]
  {
    assert l == (l + "/")[..|l|] == (p + "/")[..|l|];
  }

  /** So under a reported folder, with no reported mask at or above it, a path is the host's, or what is seen there
      is something of the jail's own with a newline in its path. */
  lemma PlainRootIsTheHosts(roots: seq<Root>, masks: seq<Bytes>, mounts: seq<Mount<Bytes>>, resolve: Resolve, r: Root,
                            p: Bytes)
    requires Summarises(roots, masks, mounts, resolve) && Plain(mounts, resolve)
    requires r in roots && AtOrAbove(r.path, p) && forall d <- masks :: !AtOrAbove(d, p)
    ensures exists j: nat :: SeenAt(mounts, j, p) && (mounts[j].same || '\n' in At(mounts, j))
  {
    RootsAre(roots, masks, mounts, resolve);
    var k: nat :| Holds(mounts, resolve, k, r);
    assert Held(mounts, resolve, k) && r.path == At(mounts, k);
    AboveSplits(r.path, p);
    PlainIsStraight(mounts, resolve, k);
    var j := SeenUnmasked(roots, masks, mounts, resolve, k, p);
    if !mounts[j].same {
      InDirIsAbove(At(mounts, j), At(mounts, k));
    }
  }

  // ---- A mount with a newline in its path ----

  function TwoLines(): seq<Mount<Bytes>> {
    [Mount("/a", true), Mount("/a/b\nc", false)]
  }

  function Itself(p: Bytes): Option<Bytes> {
    Some(p)
  }

  /** It is reported as two paths, neither at or above its own, where the jail sees it. */
  lemma MaskInLines()
    ensures Summarises([Root("/a", true)], ["/a/b", "c"], TwoLines(), Itself)
    ensures Held(TwoLines(), Itself, 0) && Straight(TwoLines(), Itself, 0)
    ensures Unmasked(TwoLines(), Itself, ["/a/b", "c"], 0, "/a/b\nc") && !HostsAt(TwoLines(), "/a/b\nc")
  {
    TwoLinesHeld();
    TwoLinesKept();
    TwoLinesMasks();
    TwoLinesFolders();
    TwoLinesSeen();
  }

  lemma TwoLinesFolders()
    requires At(TwoLines(), 0) == "/a" && Held(TwoLines(), Itself, 0) && Masked(TwoLines(), 0)
    ensures FoldersOf([Folder("/a", "/a")], [Root("/a", true)], TwoLines(), Itself, [0])
  {
    assert RootOf(TwoLines(), Itself, 0) == Root("/a", true);
  }

  lemma TwoLinesHeld()
    ensures At(TwoLines(), 0) == "/a" && At(TwoLines(), 1) == "/a/b\nc"
    ensures Held(TwoLines(), Itself, 0) && Masked(TwoLines(), 0)
  {
    assert At(TwoLines(), 0) == "/a" && At(TwoLines(), 1) == "/a/b\nc" && InDir("/a/b\nc", "/a");
    assert !AtOrAbove("/a/b\nc", "/a");
  }

  lemma TwoLinesSeen()
    requires At(TwoLines(), 0) == "/a" && At(TwoLines(), 1) == "/a/b\nc" && Held(TwoLines(), Itself, 0)
    ensures Unmasked(TwoLines(), Itself, ["/a/b", "c"], 0, "/a/b\nc") && !HostsAt(TwoLines(), "/a/b\nc")
  {
    assert InDir("/a/b\nc", "/a") && "/a" + "/a/b\nc"[2..] == "/a/b\nc";
    var p := "/a/b\nc";
    assert ("/a/b" + "/")[4] == '/' && (p + "/")[4] == '\n' && ("c" + "/")[0] == 'c' && (p + "/")[0] == '/';
    assert !AtOrAbove("/a/b", p) && !AtOrAbove("c", p);
    assert SeenAt(TwoLines(), 1, "/a/b\nc");
  }

  lemma TwoLinesKept()
    requires Held(TwoLines(), Itself, 0)
    ensures Sames(TwoLines()) == [0] && Kept(TwoLines(), Itself, [0]) == [0]
  {
    var one := [Mount("/a", true)];
    assert TwoLines()[..1] == one && one[..0] == [] && [0][..0] == [];
    assert Sames(one) == [0];
  }

  lemma TwoLinesMasks()
    ensures Masks(TwoLines(), [Folder("/a", "/a")]) == ["/a/b", "c"]
  {
    var one := [Mount("/a", true)];
    assert TwoLines()[..1] == one && one[..0] == [] && Masks(one, [Folder("/a", "/a")]) == [];
    TwoLinesMask();
  }

  lemma TwoLinesMask()
    ensures MaskOf(TwoLines()[1], [Folder("/a", "/a")]) == ["/a/b", "c"]
  {
    var f := [Folder("/a", "/a")];
    assert InDir("/a/b\nc", "/a") && Holder(f, "/a/b\nc") == Some(f[0]);
    assert "/a" + "/a/b\nc"[2..] == "/a/b" + "\n" + "c";
    LinesTwo("/a/b", "", "c");
    assert "" + "/a/b" == "/a/b";
  }

  lemma {:induction false} LinesTwo(a: Bytes, line: Bytes, b: Bytes)
    requires '\n' !in a && '\n' !in b && line + a != "" && b != ""
    ensures Lines(a + "\n" + b, line) == [line + a, b]
    decreases |a|
  {
    if a == "" {
      assert (a + "\n" + b)[1..] == b && line + a == line && "" + b == b;
      LinesOne(b, "");
    } else {
      assert (a + "\n" + b)[1..] == a[1..] + "\n" + b && line + [a[0]] + a[1..] == line + a;
      LinesTwo(a[1..], line + [a[0]], b);
    }
  }

  // ---- A folder that is not straight ----

  /** /a, a link to /x; /a/b, a link to /y; and something of the jail's on /a/b/c. */
  function Crooked(): seq<Mount<Bytes>> {
    [Mount("/a", true), Mount("/a/b", true), Mount("/a/b/c", false)]
  }

  function Links(p: Bytes): Option<Bytes> {
    if p == "/a" then Some("/x") else if p == "/a/b" then Some("/y") else None
  }

  /** It is reported in /x only: /y is a folder of the host's, no mask is at or above /y/c, and there the jail
      sees its own. */
  lemma MaskLost()
    ensures Summarises([Root("/x", true), Root("/y", true)], ["/x/b/c"], Crooked(), Links)
    ensures Held(Crooked(), Links, 1) && !Straight(Crooked(), Links, 1)
      && Placed(Crooked(), Links, 1, "/a/b/c") == "/y/c"
    ensures SeenAt(Crooked(), 2, "/a/b/c") && !Crooked()[2].same && !AtOrAbove("/x/b/c", "/y/c")
  {
    CrookedHeld();
    CrookedIsNot();
    CrookedSummary();
    assert "/y" + "/a/b/c"[4..] == "/y/c";
  }

  lemma CrookedSummary()
    requires Held(Crooked(), Links, 0) && Held(Crooked(), Links, 1) && Masked(Crooked(), 0) && Masked(Crooked(), 1)
    ensures Summarises([Root("/x", true), Root("/y", true)], ["/x/b/c"], Crooked(), Links)
  {
    CrookedSames();
    CrookedKept();
    CrookedMasks();
    CrookedFolders();
  }

  lemma CrookedFolders()
    requires Held(Crooked(), Links, 0) && Held(Crooked(), Links, 1) && Masked(Crooked(), 0) && Masked(Crooked(), 1)
    ensures FoldersOf(CROOKED_FOLDERS, [Root("/x", true), Root("/y", true)], Crooked(), Links, [0, 1])
  {
    assert RootOf(Crooked(), Links, 0) == Root("/x", true) && RootOf(Crooked(), Links, 1) == Root("/y", true);
  }

  lemma CrookedIsNot()
    requires Held(Crooked(), Links, 0) && Held(Crooked(), Links, 1) && InDir("/a/b", "/a")
    ensures !Straight(Crooked(), Links, 1)
  {
    assert FirstOver(Crooked(), Links, 1, 0) && "/x" + "/a/b"[2..] == "/x/b";
  }

  const CROOKED_FOLDERS := [Folder("/a", "/x"), Folder("/a/b", "/y")]

  lemma CrookedHeld()
    ensures Held(Crooked(), Links, 0) && Held(Crooked(), Links, 1) && Masked(Crooked(), 0) && Masked(Crooked(), 1)
    ensures At(Crooked(), 0) == "/a" && At(Crooked(), 1) == "/a/b" && At(Crooked(), 2) == "/a/b/c"
    ensures InDir("/a/b", "/a") && SeenAt(Crooked(), 2, "/a/b/c")
  {
    var mounts := Crooked();
    assert At(mounts, 0) == "/a" && At(mounts, 1) == "/a/b" && At(mounts, 2) == "/a/b/c";
    assert !AtOrAbove("/a/b", "/a") && !AtOrAbove("/a/b/c", "/a") && !AtOrAbove("/a/b/c", "/a/b");
    assert InDir("/a/b/c", "/a/b") && InDir("/a/b", "/a");
  }

  lemma CrookedSames()
    ensures Sames(Crooked()) == [0, 1]
  {
    var one, two := [Mount("/a", true)], [Mount("/a", true), Mount("/a/b", true)];
    assert Crooked()[..2] == two && two[..1] == one && one[..0] == [];
    assert Sames(one) == [0];
    assert Sames(two) == Sames(one) + [1];
  }

  lemma CrookedKept()
    requires Held(Crooked(), Links, 0) && Held(Crooked(), Links, 1)
    ensures Kept(Crooked(), Links, [0, 1]) == [0, 1]
  {
    assert [0, 1][..1] == [0] && [0][..0] == [];
    assert Kept(Crooked(), Links, [0]) == [0];
  }

  lemma CrookedMasks()
    ensures Masks(Crooked(), CROOKED_FOLDERS) == ["/x/b/c"]
  {
    var one, two := [Mount("/a", true)], [Mount("/a", true), Mount("/a/b", true)];
    assert Crooked()[..2] == two && two[..1] == one && one[..0] == [];
    assert Masks(one, CROOKED_FOLDERS) == [];
    assert Masks(two, CROOKED_FOLDERS) == [];
    CrookedMask();
  }

  lemma CrookedMask()
    ensures MaskOf(Crooked()[2], CROOKED_FOLDERS) == ["/x/b/c"]
  {
    assert InDir("/a/b/c", "/a") && "/x" + "/a/b/c"[2..] == "/x/b/c";
    LinesOne("/x/b/c", "");
    assert "" + "/x/b/c" == "/x/b/c";
  }
}
