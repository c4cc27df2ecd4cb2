/** Reading a bwrap command line: its options, and the mounts they make
    (crates/omabox/src/broker_side.rs: policy_of's first loop). The words are of any type. */
module BwrapLines {
  import opened Options

  /** What one of bwrap's options does, as far as a policy goes: Dest(k) mounts something at its word k. */
  datatype Effect = NetOff | NetOn | Bind | Dest(k: nat) | Nothing

  datatype KindOf = Kind(arity: nat, effect: Effect)

  type Kind = k: KindOf | (k.effect.Bind? ==> k.arity == 2) && (k.effect.Dest? ==> k.effect.k < k.arity)
    witness Kind(0, Nothing)

  /** The words of a command line, as far as reading one goes: the one that ends the options, the one
      that brings in more, which words are numbers, and what the options are and do. */
  datatype Lang<!W> = Lang(end: W, args: W, number: W -> bool, table: W -> Option<Kind>)

  datatype Refusal<W> = ArgsTwice | ArgsCutShort | ArgsUnreadable | Unknown(op: W) | CutShort(op: W) | NoCommand

  datatype Result<T, W> = Success(value: T) | Failure(error: Refusal<W>)

  // ---- Command lines ----

  /** An option with its words. */
  datatype Item<W> = Item(op: W, args: seq<W>)

  predicate ItemOk<W(!new, ==)>(t: Item<W>, lang: Lang<W>) {
    t.op != lang.end && t.op != lang.args && lang.table(t.op).Some? && |t.args| == lang.table(t.op).value.arity
  }

  predicate ItemsOk<W(!new, ==)>(items: seq<Item<W>>, lang: Lang<W>) {
    forall i | 0 <= i < |items| :: ItemOk(items[i], lang)
  }

  /** The option t stands at place i of a line. */
  predicate ItemAt<W(!new, ==)>(line: seq<W>, i: nat, t: Item<W>, lang: Lang<W>) {
    ItemOk(t, lang) && i + |t.args| < |line| && line[i] == t.op && line[i + 1..i + 1 + |t.args|] == t.args
  }

  /** A line's words from i to j are these options. */
  ghost predicate Reads<W(!new)>(line: seq<W>, i: nat, items: seq<Item<W>>, j: nat, lang: Lang<W>)
    decreases |items|
  {
    if items == [] then i == j <= |line|
    else ItemAt(line, i, items[0], lang) && Reads(line, i + 1 + |items[0].args|, items[1..], j, lang)
  }

  /** A place of the line's options has an --args whose words are to be had: read is None when there is
      no jail to read them from, or they cannot be. */
  ghost predicate ArgsAt<W(!new)>(line: seq<W>, i: nat, read: W -> Option<seq<W>>, lang: Lang<W>) {
    i + 1 < |line| && line[i] == lang.args && lang.number(line[i + 1]) && read(line[i + 1]).Some?
  }

  /** The line with those words in place of the --args. */
  ghost function Spliced<W(!new)>(line: seq<W>, i: nat, read: W -> Option<seq<W>>, lang: Lang<W>): seq<W>
    requires ArgsAt(line, i, read, lang)
  {
    line[..i] + read(line[i + 1]).value + line[i + 2..]
  }

  /** What a line is read as: itself, or with the words of the --args among its options, once. */
  ghost predicate Expands<W(!new)>(line: seq<W>, full: seq<W>, read: W -> Option<seq<W>>, lang: Lang<W>) {
    full == line || exists items, i: nat ::
      Reads(line, 1, items, i, lang) && ArgsAt(line, i, read, lang) && full == Spliced(line, i, read, lang)
  }

  /** A line's options, after its program's name and up to the -- before its command. */
  ghost predicate HasOptions<W(!new)>(line: seq<W>, items: seq<Item<W>>, read: W -> Option<seq<W>>, lang: Lang<W>) {
    exists full, i: nat ::
      Expands(line, full, read, lang) && Reads(full, 1, items, i, lang) && i < |full| && full[i] == lang.end
  }

  // ---- Mounts ----

  /** Something mounted at a place; `same` when it is a bind of the host's folder of that path. */
  datatype Mount<W> = Mount(dest: W, same: bool)

  function MountOf<W(!new, ==)>(t: Item<W>, lang: Lang<W>): seq<Mount<W>>
    requires ItemOk(t, lang)
  {
    match lang.table(t.op).value.effect
    case Bind => [Mount(t.args[1], t.args[0] == t.args[1])]
    case Dest(k) => [Mount(t.args[k], false)]
    case _ => []
  }

  function Mounts<W(!new, ==)>(items: seq<Item<W>>, lang: Lang<W>): seq<Mount<W>>
    requires ItemsOk(items, lang)
  {
    if items == [] then []
    else Mounts(items[..|items| - 1], lang) + MountOf(items[|items| - 1], lang)
  }

  /** Whether the jail has the host's network: what the last option about it said. */
  function Net<W(!new, ==)>(items: seq<Item<W>>, lang: Lang<W>): bool
    requires ItemsOk(items, lang)
  {
    if items == [] then true
    else
      match lang.table(items[|items| - 1].op).value.effect
      case NetOff => false
      case NetOn => true
      case _ => Net(items[..|items| - 1], lang)
  }

  // ---- A line's options are read one way ----

  /** No option stands at i. */
  predicate Blocked<W(!new, ==)>(line: seq<W>, i: nat, lang: Lang<W>) {
    i >= |line| || line[i] == lang.end || line[i] == lang.args || lang.table(line[i]).None?
      || i + lang.table(line[i]).value.arity >= |line|
  }

  lemma {:induction false} OneReading<W(!new)>(line: seq<W>, i: nat, a: seq<Item<W>>, j: nat, b: seq<Item<W>>, k: nat,
                                               lang: Lang<W>)
    requires Reads(line, i, a, j, lang) && Reads(line, i, b, k, lang) && Blocked(line, j, lang)
      && Blocked(line, k, lang)
    ensures a == b && j == k
    decreases |a|
  {
    if a != [] && b != [] {
      OneReading(line, i + 1 + |a[0].args|, a[1..], j, b[1..], k, lang);
      assert a == [a[0]] + a[1..] && b == [b[0]] + b[1..];
    }
  }

  lemma {:induction false} ReadsOn<W(!new)>(line: seq<W>, i: nat, items: seq<Item<W>>, j: nat, t: Item<W>,
                                            lang: Lang<W>)
    requires Reads(line, i, items, j, lang) && ItemAt(line, j, t, lang)
    ensures Reads(line, i, items + [t], j + 1 + |t.args|, lang)
    decreases |items|
  {
    if items != [] {
      assert (items + [t])[1..] == items[1..] + [t];
      ReadsOn(line, i + 1 + |items[0].args|, items[1..], j, t, lang);
    }
  }

  lemma {:induction false} ReadsBounds<W(!new)>(line: seq<W>, i: nat, items: seq<Item<W>>, j: nat, lang: Lang<W>)
    requires Reads(line, i, items, j, lang)
    ensures i <= j <= |line| && ItemsOk(items, lang)
    decreases |items|
  {
    if items != [] {
      ReadsBounds(line, i + 1 + |items[0].args|, items[1..], j, lang);
      assert items == [items[0]] + items[1..];
    }
  }

  /** Another line with the same words up to j reads the same there. */
  lemma {:induction false} ReadsSame<W(!new)>(line: seq<W>, line': seq<W>, i: nat, items: seq<Item<W>>, j: nat,
                                              lang: Lang<W>)
    requires j <= |line| && j <= |line'| && line'[..j] == line[..j] && Reads(line, i, items, j, lang)
    ensures Reads(line', i, items, j, lang)
    decreases |items|
  {
    if items != [] {
      var t, n := items[0], |items[0].args|;
      ReadsBounds(line, i + 1 + n, items[1..], j, lang);
      assert line'[i] == line'[..j][i];
      assert line'[i + 1..i + 1 + n] == line'[..j][i + 1..i + 1 + n] == line[..j][i + 1..i + 1 + n]
        == line[i + 1..i + 1 + n];
      ReadsSame(line, line', i + 1 + n, items[1..], j, lang);
    }
  }

  // ---- Reading a line ----

  /** A line read up to i: its options so far, and what they say. */
  ghost predicate ReadTo<W(!new)>(line: seq<W>, i: nat, items: seq<Item<W>>, net: bool, dests: seq<W>, binds: seq<nat>,
                                  lang: Lang<W>) {
    && Reads(line, 1, items, i, lang) && i <= |line| && ItemsOk(items, lang)
    && net == Net(items, lang) && Listed(dests, binds, Mounts(items, lang))
  }

  /** dests and binds are the mounts' places, and which of them are binds at their own path. */
  ghost predicate Listed<W(!new)>(dests: seq<W>, binds: seq<nat>, mounts: seq<Mount<W>>) {
    && |dests| == |mounts| && (forall j | 0 <= j < |dests| :: dests[j] == mounts[j].dest)
    && binds == Sames(mounts)
  }

  function WithBind(binds: seq<nat>, same: bool, n: nat): seq<nat> {
    if same then binds + [n] else binds
  }

  function Sames<W>(mounts: seq<Mount<W>>): (s: seq<nat>)
  {
    if mounts == [] then []
    else Sames(mounts[..|mounts| - 1]) + if mounts[|mounts| - 1].same then [|mounts| - 1] else []
  }

  lemma ListedOne<W(!new)>(dests: seq<W>, binds: seq<nat>, mounts: seq<Mount<W>>, m: Mount<W>)
    requires Listed(dests, binds, mounts)
    ensures Listed(dests + [m.dest], WithBind(binds, m.same, |dests|), mounts + [m])
  {
    assert (mounts + [m])[..|mounts|] == mounts;
  }

  lemma NetMore<W(!new)>(items: seq<Item<W>>, t: Item<W>, lang: Lang<W>)
    requires ItemsOk(items, lang) && ItemOk(t, lang) && ItemsOk(items + [t], lang)
    ensures Net(items + [t], lang) == NetAfter(lang.table(t.op).value, Net(items, lang))
  {
    assert (items + [t])[..|items|] == items;
  }

  lemma MountsOn<W(!new)>(items: seq<Item<W>>, t: Item<W>, lang: Lang<W>)
    requires ItemsOk(items, lang) && ItemOk(t, lang)
    ensures ItemsOk(items + [t], lang)
    ensures Mounts(items + [t], lang) == Mounts(items, lang) + MountOf(t, lang)
  {
    assert (items + [t])[..|items|] == items;
  }

  function NetAfter(k: Kind, net: bool): bool {
    if k.effect.NetOff? then false else if k.effect.NetOn? then true else net
  }

  lemma ListedOn<W(!new)>(items: seq<Item<W>>, t: Item<W>, dests: seq<W>, binds: seq<nat>, lang: Lang<W>, m: Mount<W>)
    requires ItemsOk(items, lang) && ItemOk(t, lang) && Listed(dests, binds, Mounts(items, lang))
      && MountOf(t, lang) == [m]
    ensures ItemsOk(items + [t], lang)
    ensures Listed(dests + [m.dest], WithBind(binds, m.same, |dests|), Mounts(items + [t], lang))
  {
    MountsOn(items, t, lang);
    var mounts, mounts' := Mounts(items, lang), Mounts(items + [t], lang);
    assert mounts' == mounts + [m];
    ListedOne(dests, binds, mounts, m);
  }

  lemma TookMount<W(!new)>(a: seq<W>, i: nat, k: Kind, net: bool, dests: seq<W>, binds: seq<nat>, lang: Lang<W>,
                           items: seq<Item<W>>, t: Item<W>, m: Mount<W>)
    requires ReadTo(a, i, items, net, dests, binds, lang) && ItemAt(a, i, t, lang) && lang.table(a[i]) == Some(k)
    requires MountOf(t, lang) == [m]
    ensures ReadTo(a, i + k.arity + 1, items + [t], NetAfter(k, net), dests + [m.dest],
      WithBind(binds, m.same, |dests|), lang)
  {
    ReadsOn(a, 1, items, i, t, lang);
    ListedOn(items, t, dests, binds, lang, m);
    NetMore(items, t, lang);
  }

  lemma TookOther<W(!new)>(a: seq<W>, i: nat, k: Kind, net: bool, dests: seq<W>, binds: seq<nat>, lang: Lang<W>,
                           items: seq<Item<W>>, t: Item)
    requires ReadTo(a, i, items, net, dests, binds, lang) && ItemAt(a, i, t, lang) && lang.table(a[i]) == Some(k)
    requires MountOf(t, lang) == []
    ensures ReadTo(a, i + k.arity + 1, items + [t], NetAfter(k, net), dests, binds, lang)
  {
    ReadsOn(a, 1, items, i, t, lang);
    MountsOn(items, t, lang);
    NetMore(items, t, lang);
    assert Mounts(items, lang) + [] == Mounts(items, lang);
  }

  lemma TookOption<W(!new)>(a: seq<W>, i: nat, k: Kind, net: bool, dests: seq<W>, binds: seq<nat>, lang: Lang<W>,
                            items: seq<Item<W>>, t: Item<W>, mount: Option<Mount<W>>, s: Spot<W>)
    requires ReadTo(a, i, items, net, dests, binds, lang) && ItemAt(a, i, t, lang) && lang.table(a[i]) == Some(k)
    requires MountOf(t, lang) == if mount.Some? then [mount.value] else []
    requires s.i == i + k.arity + 1 && s.net == NetAfter(k, net)
    requires s.dests == if mount.Some? then dests + [mount.value.dest] else dests
    requires s.binds == if mount.Some? then WithBind(binds, mount.value.same, |dests|) else binds
    ensures ReadTo(a, s.i, items + [t], s.net, s.dests, s.binds, lang)
  {
    if mount.Some? {
      TookMount(a, i, k, net, dests, binds, lang, items, t, mount.value);
    } else {
      TookOther(a, i, k, net, dests, binds, lang, items, t);
    }
  }

  /** Where the reading of a line is: its words, the place reached, and what has been said so far. */
  datatype Spot<W> = Spot(a: seq<W>, i: nat, net: bool, dests: seq<W>, binds: seq<nat>, expanded: bool)

  /** What the option at i mounts. */
  function MountAt<W(==)>(a: seq<W>, i: nat, k: Kind): Option<Mount<W>>
    requires i + k.arity < |a|
  {
    match k.effect
    case Bind => Some(Mount(a[i + 2], a[i + 1] == a[i + 2]))
    case Dest(n) => Some(Mount(a[i + 1 + n], false))
    case _ => None
  }

  lemma MountAtIs<W(!new)>(a: seq<W>, i: nat, k: Kind, t: Item<W>, lang: Lang<W>)
    requires ItemAt(a, i, t, lang) && lang.table(a[i]) == Some(k)
    ensures var m := MountAt(a, i, k); MountOf(t, lang) == if m.Some? then [m.value] else []
  {
  }

  /** One option taken in: the network, the mounts. */
  method TakeOption<W(!new, ==)>(s: Spot<W>, k: Kind, lang: Lang<W>, ghost line: seq<W>, ghost sp: Splice<W>,
                                 ghost items: seq<Item<W>>, ghost read: W -> Option<seq<W>>)
    returns (s': Spot<W>, ghost items': seq<Item<W>>)
    requires ReadingAt(line, s, sp, items, read, lang) && s.i < |s.a| && s.a[s.i] != lang.end && s.a[s.i] != lang.args
    requires lang.table(s.a[s.i]) == Some(k) && s.i + k.arity < |s.a|
    ensures ReadingAt(line, s', sp, items', read, lang) && Later(s, s')
  {
    ghost var t := Item(s.a[s.i], s.a[s.i + 1..s.i + 1 + k.arity]);
    items' := items + [t];
    s' := s.(i := s.i + k.arity + 1, net := NetAfter(k, s.net));
    var mount := MountAt(s.a, s.i, k);
    MountAtIs(s.a, s.i, k, t, lang);
    if mount.Some? {
      s' := s'.(dests := s.dests + [mount.value.dest], binds := WithBind(s.binds, mount.value.same, |s.dests|));
    }
    TookOption(s.a, s.i, k, s.net, s.dests, s.binds, lang, items, t, mount, s');
  }

  /** Whether a line was read as given, or with the words of its --args, at place i after these options. */
  datatype Splice<W> = Whole | At(items: seq<Item<W>>, i: nat)

  ghost predicate SplicedBy<W(!new)>(sp: Splice<W>, line: seq<W>, full: seq<W>, read: W -> Option<seq<W>>,
                                     lang: Lang<W>) {
    match sp
    case Whole => full == line
    case At(items, i) =>
      Reads(line, 1, items, i, lang) && ArgsAt(line, i, read, lang) && full == Spliced(line, i, read, lang)
  }

  lemma SplicedExpands<W(!new)>(sp: Splice<W>, line: seq<W>, full: seq<W>, read: W -> Option<seq<W>>, lang: Lang<W>)
    requires SplicedBy(sp, line, full, read, lang)
    ensures Expands(line, full, read, lang)
  {
  }

  /** The line stops at a word that is no -- and no --args whose words are to be had. */
  ghost predicate Stuck<W(!new)>(sp: Splice<W>, full: seq<W>, i: nat, read: W -> Option<seq<W>>, lang: Lang<W>) {
    Blocked(full, i, lang) && (i < |full| ==> full[i] != lang.end) && (sp.Whole? ==> !ArgsAt(full, i, read, lang))
  }

  /** A line that gets stuck has no options to read. */
  lemma NoOptions<W(!new)>(sp: Splice<W>, line: seq<W>, full: seq<W>, items: seq<Item<W>>, i: nat,
                           read: W -> Option<seq<W>>, lang: Lang<W>)
    requires lang.end != lang.args
    requires SplicedBy(sp, line, full, read, lang) && Reads(full, 1, items, i, lang) && Stuck(sp, full, i, read, lang)
    ensures Unreadable(line, read, lang)
  {
    forall items' | HasOptions(line, items', read, lang)
      ensures false
    {
      var full', i': nat :| Expands(line, full', read, lang) && Reads(full', 1, items', i', lang) && i' < |full'|
        && full'[i'] == lang.end;
      OtherSplice(sp, line, full, items, i, full', items', i', read, lang);
      OneReading(full, 1, items, i, items', i', lang);
    }
  }

  /** What a line expands to, when that has options, is what it was spliced to. */
  lemma OtherSplice<W(!new)>(sp: Splice<W>, line: seq<W>, full: seq<W>, items: seq<Item<W>>, i: nat, full': seq<W>,
                             items': seq<Item<W>>, i': nat, read: W -> Option<seq<W>>, lang: Lang<W>)
    requires lang.end != lang.args
    requires SplicedBy(sp, line, full, read, lang) && Reads(full, 1, items, i, lang) && Stuck(sp, full, i, read, lang)
    requires Expands(line, full', read, lang) && Reads(full', 1, items', i', lang) && i' < |full'|
      && full'[i'] == lang.end
    ensures full' == full
  {
    if full' == line {
      if sp.At? {
        OneReading(line, 1, items', i', sp.items, sp.i, lang);
      }
    } else {
      var its, k: nat :| Reads(line, 1, its, k, lang) && ArgsAt(line, k, read, lang)
        && full' == Spliced(line, k, read, lang);
      if sp.Whole? {
        OneReading(line, 1, items, i, its, k, lang);
      } else {
        OneReading(line, 1, its, k, sp.items, sp.i, lang);
      }
    }
  }

  /** A line has its options in one way. */
  lemma OptionsUnique<W(!new)>(line: seq<W>, a: seq<Item<W>>, b: seq<Item<W>>, read: W -> Option<seq<W>>, lang: Lang<W>)
    requires lang.end != lang.args && HasOptions(line, a, read, lang) && HasOptions(line, b, read, lang)
    ensures a == b
  {
    var f, i: nat :| Expands(line, f, read, lang) && Reads(f, 1, a, i, lang) && i < |f| && f[i] == lang.end;
    var g, j: nat :| Expands(line, g, read, lang) && Reads(g, 1, b, j, lang) && j < |g| && g[j] == lang.end;
    if f == line && g != line {
      EndIsNoSplice(line, a, i, g, read, lang);
    } else if g == line && f != line {
      EndIsNoSplice(line, b, j, f, read, lang);
    } else if f != line {
      var its, k: nat :| Reads(line, 1, its, k, lang) && ArgsAt(line, k, read, lang)
        && f == Spliced(line, k, read, lang);
      var its', k': nat :| Reads(line, 1, its', k', lang) && ArgsAt(line, k', read, lang)
        && g == Spliced(line, k', read, lang);
      OneReading(line, 1, its, k, its', k', lang);
    }
    OneReading(f, 1, a, i, b, j, lang);
  }

  /** A line whose own options end at a -- has no --args among them. */
  lemma EndIsNoSplice<W(!new)>(line: seq<W>, items: seq<Item<W>>, i: nat, full: seq<W>, read: W -> Option<seq<W>>,
                               lang: Lang<W>)
    requires lang.end != lang.args && Reads(line, 1, items, i, lang) && i < |line| && line[i] == lang.end
    requires Expands(line, full, read, lang)
    ensures full == line
  {
    forall its, k: nat | Reads(line, 1, its, k, lang) && ArgsAt(line, k, read, lang)
      ensures false
    {
      OneReading(line, 1, items, i, its, k, lang);
    }
  }

  /** The words --args at i names. */
  method ArgsWords<W(!new, ==)>(a: seq<W>, i: nat, read: W -> Option<seq<W>>, lang: Lang<W>)
    returns (r: Result<seq<W>, W>)
    requires i < |a|
    requires a[i] == lang.args
    ensures r.Success? <==> ArgsAt(a, i, read, lang)
    ensures r.Success? ==> read(a[i + 1]) == Some(r.value)
  {
    if i + 1 >= |a| || !lang.number(a[i + 1]) {
      return Failure(ArgsCutShort);
    }
    var words := read(a[i + 1]);
    r := if words.Some? then Success(words.value) else Failure(ArgsUnreadable);
  }

  lemma SpliceIn<W(!new)>(line: seq<W>, i: nat, items: seq<Item<W>>, full: seq<W>, read: W -> Option<seq<W>>,
                          lang: Lang<W>)
    requires Reads(line, 1, items, i, lang) && ArgsAt(line, i, read, lang) && full == Spliced(line, i, read, lang)
    ensures SplicedBy(At(items, i), line, full, read, lang) && Reads(full, 1, items, i, lang) && i <= |full|
  {
    ReadsSame(line, full, 1, items, i, lang);
  }

  /** What is known while a line is read. */
  ghost predicate Reading<W(!new)>(line: seq<W>, sp: Splice<W>, a: seq<W>, i: nat, items: seq<Item<W>>, net: bool,
                                   dests: seq<W>, binds: seq<nat>, read: W -> Option<seq<W>>, lang: Lang<W>) {
    ReadTo(a, i, items, net, dests, binds, lang) && SplicedBy(sp, line, a, read, lang)
  }

  /** What a line's options come to. */
  ghost predicate ReadAs<W(!new)>(line: seq<W>, items: seq<Item<W>>, net: bool, dests: seq<W>, binds: seq<nat>,
                                  read: W -> Option<seq<W>>, lang: Lang<W>) {
    && HasOptions(line, items, read, lang) && ItemsOk(items, lang)
    && net == Net(items, lang) && Listed(dests, binds, Mounts(items, lang))
  }

  lemma ReadToEnd<W(!new)>(line: seq<W>, sp: Splice<W>, a: seq<W>, i: nat, items: seq<Item<W>>, net: bool,
                           dests: seq<W>, binds: seq<nat>, read: W -> Option<seq<W>>, lang: Lang<W>)
    requires Reading(line, sp, a, i, items, net, dests, binds, read, lang) && i < |a| && a[i] == lang.end
    ensures ReadAs(line, items, net, dests, binds, read, lang)
  {
    SplicedExpands(sp, line, a, read, lang);
  }

  lemma ReadPastArgs<W(!new)>(line: seq<W>, a: seq<W>, i: nat, items: seq<Item<W>>, net: bool, dests: seq<W>,
                              binds: seq<nat>, full: seq<W>, read: W -> Option<seq<W>>, lang: Lang<W>)
    requires Reading(line, Whole, a, i, items, net, dests, binds, read, lang) && ArgsAt(a, i, read, lang)
      && full == Spliced(a, i, read, lang)
    ensures Reading(line, At(items, i), full, i, items, net, dests, binds, read, lang)
  {
    SpliceIn(line, i, items, full, read, lang);
  }

  ghost predicate ReadingAt<W(!new)>(line: seq<W>, s: Spot<W>, sp: Splice<W>, items: seq<Item<W>>,
                                     read: W -> Option<seq<W>>, lang: Lang<W>) {
    Reading(line, sp, s.a, s.i, items, s.net, s.dests, s.binds, read, lang) && s.expanded == sp.At?
  }

  /** The line has no options that end at a --. */
  ghost predicate Unreadable<W(!new)>(line: seq<W>, read: W -> Option<seq<W>>, lang: Lang<W>) {
    forall items :: !HasOptions(line, items, read, lang)
  }

  ghost predicate Later<W>(s: Spot<W>, s': Spot<W>) {
    (s.expanded ==> s'.expanded) && (s.expanded == s'.expanded ==> |s'.a| - s'.i < |s.a| - s.i)
  }

  /** The --args at the place reached, taken in. */
  method TakeArgs<W(!new, ==)>(s: Spot<W>, read: W -> Option<seq<W>>, lang: Lang<W>, ghost line: seq<W>,
                               ghost sp: Splice<W>, ghost items: seq<Item<W>>)
    returns (r: Result<Spot<W>, W>, ghost sp': Splice<W>)
    requires lang.end != lang.args && ReadingAt(line, s, sp, items, read, lang) && s.i < |s.a| && s.a[s.i] == lang.args
    ensures r.Success? ==> ReadingAt(line, r.value, sp', items, read, lang) && !s.expanded && r.value.expanded
    ensures r.Failure? ==> Unreadable(line, read, lang)
  {
    sp' := sp;
    if s.expanded {
      NoOptions(sp, line, s.a, items, s.i, read, lang);
      return Failure(ArgsTwice), sp;
    }
    var got := ArgsWords(s.a, s.i, read, lang);
    if got.Failure? {
      NoOptions(sp, line, s.a, items, s.i, read, lang);
      return Failure(got.error), sp;
    }
    var full := s.a[..s.i] + got.value + s.a[s.i + 2..];
    ReadPastArgs(line, s.a, s.i, items, s.net, s.dests, s.binds, full, read, lang);
    return Success(s.(a := full, expanded := true)), At(items, s.i);
  }

  /** The word at the place reached, which does not end the options, taken in. */
  method TakeWord<W(!new, ==)>(s: Spot<W>, read: W -> Option<seq<W>>, lang: Lang<W>, ghost line: seq<W>,
                               ghost sp: Splice<W>, ghost items: seq<Item<W>>)
    returns (r: Result<Spot<W>, W>, ghost sp': Splice<W>, ghost items': seq<Item<W>>)
    requires lang.end != lang.args && ReadingAt(line, s, sp, items, read, lang) && s.i < |s.a| && s.a[s.i] != lang.end
    ensures r.Success? ==> ReadingAt(line, r.value, sp', items', read, lang) && Later(s, r.value)
    ensures r.Failure? ==> Unreadable(line, read, lang)
  {
    var op := s.a[s.i];
    sp', items' := sp, items;
    if op == lang.args {
      r, sp' := TakeArgs(s, read, lang, line, sp, items);
      return;
    }
    var kind := lang.table(op);
    if kind.None? || s.i + kind.value.arity >= |s.a| {
      NoOptions(sp, line, s.a, items, s.i, read, lang);
      return Failure(if kind.None? then Unknown(op) else CutShort(op)), sp, items;
    }
    var s';
    s', items' := TakeOption(s, kind.value, lang, line, sp, items, read);
    r := Success(s');
  }

  /** The options of a bwrap line, its --args words taken in once: the network and the mounts, or why it
      cannot be read. */
  method ReadLine<W(!new, ==)>(line: seq<W>, read: W -> Option<seq<W>>, lang: Lang<W>)
    returns (r: Result<(bool, seq<W>, seq<nat>), W>, ghost items: seq<Item<W>>)
    requires lang.end != lang.args
    ensures r.Success? ==> ReadAs(line, items, r.value.0, r.value.1, r.value.2, read, lang)
    ensures r.Failure? ==> Unreadable(line, read, lang)
  {
    items := [];
    if |line| == 0 {
      NothingIn(line, read, lang);
      return Failure(NoCommand), items;
    }
    var s := Spot(line, 1, true, [], [], false);
    ghost var sp := Whole;
    while s.i < |s.a| && s.a[s.i] != lang.end
      invariant ReadingAt(line, s, sp, items, read, lang)
      decreases !s.expanded, |s.a| - s.i
    {
      var next: Result<Spot<W>, W>;
      next, sp, items := TakeWord(s, read, lang, line, sp, items);
      if next.Failure? {
        return Failure(next.error), items;
      }
      s := next.value;
    }
    if s.i >= |s.a| {
      NoOptions(sp, line, s.a, items, s.i, read, lang);
      return Failure(NoCommand), items;
    }
    ReadToEnd(line, sp, s.a, s.i, items, s.net, s.dests, s.binds, read, lang);
    r := Success((s.net, s.dests, s.binds));
  }

  lemma NothingIn<W(!new)>(line: seq<W>, read: W -> Option<seq<W>>, lang: Lang<W>)
    requires |line| == 0
    ensures Unreadable(line, read, lang)
  {
    forall full, items: seq<Item<W>>, i: nat | Reads(full, 1, items, i, lang)
      ensures full != []
    {
      ReadsBounds(full, 1, items, i, lang);
    }
  }
}
