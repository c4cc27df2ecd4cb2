/** What the options of bwrap do to a jail, option by option, and what the tests for folders say of plain paths
    (crates/omabox/src/broker_side.rs: arity, starts_dir, policy_of's match). */
module JailOptions {
  import opened Options
  import opened BwrapLines
  import opened JailPolicy
  import opened Paths
  import BindBuilder

  predicate Begins(w: Bytes, a: char, b: char) {
    |w| >= 4 && w[2] == a && w[3] == b
  }

  lemma NoWordsBegin()
    ensures forall j | 0 <= j < |NET_OFF| :: |NET_OFF[j]| > 8 && NoWord(NET_OFF[j])
    ensures forall j | 0 <= j < |FLAGS| :: |FLAGS[j]| > 8 && NoWord(FLAGS[j])
  {
  }

  predicate NoWord(w: Bytes) {
    || (|w| > 5 && Begins(w, 'u', 'n') && w[5] == 'h') || Begins(w, 'd', 'i') || Begins(w, 'a', 's')
    || Begins(w, 'n', 'e') || Begins(w, 'c', 'l') || Begins(w, 'l', 'e')
  }

  lemma MakesOneBegin()
    ensures forall j | 0 <= j < |MAKES_ONE| :: MakesPlace(MAKES_ONE[j])
  {
  }

  predicate MakesPlace(w: Bytes) {
    || Begins(w, 't', 'm') || Begins(w, 'p', 'r') || Begins(w, 'm', 'q')
    || (|w| == 5 && (Begins(w, 'd', 'e') || Begins(w, 'd', 'i')))
    || (|w| > 5 && Begins(w, 'r', 'o') && w[5] == 'o')
  }

  lemma TakesOneBegin()
    ensures forall j | 0 <= j < |TAKES_ONE| :: TakesWord(TAKES_ONE[j])
  {
  }

  predicate TakesWord(w: Bytes) {
    && |w| > 4 && !Begins(w, 'b', 'i') && !Begins(w, 'd', 'e') && !Begins(w, 'r', 'o')
    && (Begins(w, 's', 'y') ==> w[4] == 'n') && (Begins(w, 'f', 'i') ==> |w| > 6) && (Begins(w, 'o', 'v') ==> |w| > 9)
  }

  lemma BindsBegin()
    ensures forall j | 0 <= j < |BINDS| :: BindWord(BINDS[j])
  {
  }

  predicate BindWord(w: Bytes) {
    |w| > 5 && (Begins(w, 'b', 'i') || Begins(w, 'd', 'e') || (Begins(w, 'r', 'o') && w[5] == 'b'))
  }

  lemma MakesTwoBegin()
    ensures forall j | 0 <= j < |MAKES_TWO| :: MakesSecond(MAKES_TWO[j]) && MAKES_TWO[j] !in BINDS
  {
  }

  predicate MakesSecond(w: Bytes) {
    |w| > 5 && ((Begins(w, 's', 'y') && w[4] == 'm') || (|w| == 6 && Begins(w, 'f', 'i')) || Begins(w, 'b', 'i')
      || (Begins(w, 'r', 'o') && w[5] == 'b'))
  }

  function EffectOf(op: Bytes): Option<Effect> {
    if OptionOf(op).Some? then Some(OptionOf(op).value.effect) else None
  }

  predicate TakesNet(op: Bytes) {
    op == "--unshare-net" || op == "--unshare-all"
  }

  predicate GivesNet(op: Bytes) {
    op == "--share-net"
  }

  /** The options that take the host's network away, and the one that gives it. */
  lemma NetOptions(op: Bytes)
    ensures EffectOf(op) == Some(NetOff) <==> TakesNet(op)
    ensures EffectOf(op) == Some(NetOn) <==> GivesNet(op)
  {
    NoWordsBegin();
    assert NET_OFF[0] == "--unshare-net" && NET_OFF[1] == "--unshare-all";
    assert Begins("--share-net", 's', 'h');
  }

  /** The options that bind a path at another, the word after it. */
  lemma BindOptions(op: Bytes)
    ensures EffectOf(op) == Some(Bind) <==>
      || op == "--bind" || op == "--bind-try" || op == "--dev-bind" || op == "--dev-bind-try" || op == "--ro-bind"
      || op == "--ro-bind-try"
  {
    BindsAre(op);
    if op in BINDS {
      BindsApart(op);
    }
  }

  lemma BindsAre(op: Bytes)
    ensures op in BINDS <==>
      || op == "--bind" || op == "--bind-try" || op == "--dev-bind" || op == "--dev-bind-try" || op == "--ro-bind"
      || op == "--ro-bind-try"
  {
    assert BINDS[0] == "--bind" && BINDS[1] == "--bind-try" && BINDS[2] == "--dev-bind" && BINDS[3] == "--dev-bind-try";
    assert BINDS[4] == "--ro-bind" && BINDS[5] == "--ro-bind-try";
  }

  lemma BindsApart(op: Bytes)
    requires op in BINDS
    ensures op !in NET_OFF && op != "--share-net" && op !in FLAGS && op !in MAKES_ONE && op !in TAKES_ONE
  {
    NoWordsBegin();
    MakesOneBegin();
    TakesOneBegin();
    BindsBegin();
    assert Begins("--share-net", 's', 'h');
  }

  /** Those that mount something else at the word after them. */
  lemma FirstOptions(op: Bytes)
    ensures EffectOf(op) == Some(Dest(0)) <==>
      || op == "--tmpfs" || op == "--dev" || op == "--proc" || op == "--mqueue" || op == "--dir"
      || op == "--tmp-overlay" || op == "--ro-overlay"
  {
    NoWordsBegin();
    MakesOneBegin();
    assert MAKES_ONE[0] == "--tmpfs" && MAKES_ONE[1] == "--dev" && MAKES_ONE[2] == "--proc";
    assert MAKES_ONE[3] == "--mqueue";
    assert MAKES_ONE[4] == "--dir" && MAKES_ONE[5] == "--tmp-overlay" && MAKES_ONE[6] == "--ro-overlay";
    assert Begins("--share-net", 's', 'h');
  }

  /** Or at the second. */
  lemma SecondOptions(op: Bytes)
    ensures EffectOf(op) == Some(Dest(1)) <==>
      || op == "--symlink" || op == "--file" || op == "--bind-data" || op == "--ro-bind-data" || op == "--bind-fd"
      || op == "--ro-bind-fd"
  {
    SecondsAre(op);
    if op in MAKES_TWO {
      SecondsApart(op);
    }
  }

  lemma SecondsAre(op: Bytes)
    ensures op in MAKES_TWO <==>
      || op == "--symlink" || op == "--file" || op == "--bind-data" || op == "--ro-bind-data" || op == "--bind-fd"
      || op == "--ro-bind-fd"
  {
    assert MAKES_TWO[0] == "--symlink" && MAKES_TWO[1] == "--file" && MAKES_TWO[2] == "--bind-data";
    assert MAKES_TWO[3] == "--ro-bind-data" && MAKES_TWO[4] == "--bind-fd" && MAKES_TWO[5] == "--ro-bind-fd";
  }

  lemma SecondsApart(op: Bytes)
    requires op in MAKES_TWO
    ensures op !in NET_OFF && op != "--share-net" && op !in FLAGS && op !in MAKES_ONE && op !in TAKES_ONE
    ensures op !in BINDS
  {
    NoWordsBegin();
    MakesOneBegin();
    TakesOneBegin();
    MakesTwoBegin();
    assert Begins("--share-net", 's', 'h');
  }

  /** Or at the third. */
  lemma ThirdOption(op: Bytes)
    ensures EffectOf(op) == Some(Dest(2)) <==> op == "--overlay"
  {
    var w := "--overlay";
    NoWordsBegin();
    MakesOneBegin();
    TakesOneBegin();
    BindsBegin();
    MakesTwoBegin();
    assert Begins(w, 'o', 'v') && |w| == 9 && Begins("--share-net", 's', 'h');
    assert TAKES_TWO[0] != w && TAKES_TWO[1] != w;
  }

  lemma TakesOrGives(op: Bytes)
    ensures !(TakesNet(op) && GivesNet(op))
  {
    assert "--share-net"[2] == 's' && "--unshare-net"[2] == 'u' && "--unshare-all"[2] == 'u';
  }

  /** After every option that takes the network away comes one that gives it. */
  predicate Given(items: seq<Item<Bytes>>) {
    forall k | 0 <= k < |items| && TakesNet(items[k].op) :: exists m | k < m < |items| :: GivesNet(items[m].op)
  }

  lemma GivenOn(items: seq<Item<Bytes>>)
    requires items != []
    ensures var n := |items| - 1;
      Given(items) <==> GivesNet(items[n].op) || (!TakesNet(items[n].op) && Given(items[..n]))
  {
    var n := |items| - 1;
    var before := items[..n];
    TakesOrGives(items[n].op);
    if Given(items) && !GivesNet(items[n].op) {
      assert !TakesNet(items[n].op);
      forall k | 0 <= k < n && TakesNet(before[k].op)
        ensures exists m | k < m < n :: GivesNet(before[m].op)
      {
        assert items[k].op == before[k].op;
        var m :| k < m < |items| && GivesNet(items[m].op);
        assert GivesNet(before[m].op);
      }
    }
    if !TakesNet(items[n].op) && Given(before) {
      forall k | 0 <= k < |items| && TakesNet(items[k].op)
        ensures exists m | k < m < |items| :: GivesNet(items[m].op)
      {
        assert before[k].op == items[k].op;
        var m :| k < m < n && GivesNet(before[m].op);
        assert GivesNet(items[m].op);
      }
    }
  }

  /** A language whose options about the network are those. */
  ghost predicate NetWords(lang: Lang<Bytes>) {
    forall op | lang.table(op).Some? ::
      && (lang.table(op).value.effect.NetOff? <==> TakesNet(op))
      && (lang.table(op).value.effect.NetOn? <==> GivesNet(op))
  }

  lemma {:induction false} NetIsGiven(items: seq<Item<Bytes>>, lang: Lang<Bytes>)
    requires ItemsOk(items, lang) && NetWords(lang)
    ensures Net(items, lang) <==> Given(items)
  {
    if items != [] {
      var n := |items| - 1;
      NetIsGiven(items[..n], lang);
      GivenOn(items);
      TakesOrGives(items[n].op);
      assert ItemOk(items[n], lang);
    }
  }

  /** The jail has the host's network exactly when after every option that takes it away comes one that gives it. */
  lemma NetExactly(items: seq<Item<Bytes>>)
    requires ItemsOk(items, BWRAP)
    ensures Net(items, BWRAP) <==> Given(items)
  {
    forall op | BWRAP.table(op).Some?
      ensures (BWRAP.table(op).value.effect.NetOff? <==> TakesNet(op))
      ensures (BWRAP.table(op).value.effect.NetOn? <==> GivesNet(op))
    {
      NetOptions(op);
    }
    NetIsGiven(items, BWRAP);
  }

  // ---- The other table of bwrap's options ----

  lemma OnesHere(w: Bytes)
    requires w in BindBuilder.ONES
    ensures w in MAKES_ONE || w in TAKES_ONE
  {
  }

  lemma FlagsHere(w: Bytes)
    requires w in BindBuilder.FLAGS
    ensures w in NET_OFF || w == "--share-net" || w in FLAGS
  {
  }

  lemma BindsHere(w: Bytes)
    requires w in BindBuilder.TWO_BINDS
    ensures w in BINDS
  {
  }

  lemma TwosHere(w: Bytes)
    requires w in BindBuilder.TWOS
    ensures w in MAKES_TWO || w in TAKES_TWO
  {
  }

  lemma TakersBegin()
    ensures forall j | 0 <= j < |TAKES_ONE| :: !NoWord(TAKES_ONE[j]) && !Begins(TAKES_ONE[j], 's', 'h')
    ensures forall j | 0 <= j < |TAKES_TWO| :: !NoWord(TAKES_TWO[j]) && !Begins(TAKES_TWO[j], 's', 'h')
  {
  }

  /** No option that takes a word, or two, is one that takes none. */
  lemma WordsApart(w: Bytes)
    requires w in MAKES_ONE || w in TAKES_ONE || w in TAKES_TWO
    ensures w !in NET_OFF && w != "--share-net" && w !in FLAGS
  {
    NoWordsBegin();
    MakesOneBegin();
    TakersBegin();
    assert Begins("--share-net", 's', 'h');
  }

  lemma SetApart(w: Bytes)
    requires w in TAKES_TWO
    ensures w !in MAKES_ONE && w !in TAKES_ONE && w !in BINDS && w !in MAKES_TWO
  {
    assert w == "--setenv" || w == "--chmod";
  }

  lemma OverlaysHere()
    ensures OptionOf("--overlay-src") == Some(Kind(1, Effect.Nothing))
    ensures OptionOf("--tmp-overlay") == Some(Kind(1, Dest(0))) && OptionOf("--ro-overlay") == Some(Kind(1, Dest(0)))
  {
    assert MAKES_ONE[5] == "--tmp-overlay" && MAKES_ONE[6] == "--ro-overlay" && TAKES_ONE[24] == "--overlay-src";
    WordsApart("--overlay-src");
    WordsApart("--tmp-overlay");
    WordsApart("--ro-overlay");
    FirstOptions("--overlay-src");
  }

  /** Every option a box's command is read back with is one a jail's policy knows, with as many words; what binds there
      binds here; and an overlay is one at its place. */
  lemma TablesAgree(w: Bytes)
    requires BindBuilder.Bwraps(w).Some?
    ensures var k := BindBuilder.Bwraps(w).value;
      && OptionOf(w).Some? && OptionOf(w).value.arity == k.n && (OptionOf(w).value.effect.Bind? <==> k.makes.Both?)
      && (k.makes.Place? ==> OptionOf(w).value.effect == Dest(0))
      && (k.makes.Source? ==> OptionOf(w).value.effect.Nothing?)
  {
    if w in BindBuilder.TWO_BINDS {
      BindsHere(w);
      BindsApart(w);
    } else if w == "--overlay-src" || w == "--tmp-overlay" || w == "--ro-overlay" {
      OverlaysHere();
    } else if w in BindBuilder.TWOS {
      TwosHere(w);
      if w in MAKES_TWO {
        SecondsApart(w);
      } else {
        WordsApart(w);
        SetApart(w);
      }
    } else if w in BindBuilder.ONES {
      OnesHere(w);
      WordsApart(w);
    } else {
      FlagsHere(w);
    }
  }

  // ---- The tests for folders ----

  lemma SlashPrefix(p: Bytes, q: Bytes)
    ensures p + "/" <= q + "/" <==> p == q || p + "/" <= q
  {
    var s, t := p + "/", q + "/";
    if s <= t && p != q {
      assert p == s[..|p|] == t[..|p|];
      assert |p| != |q|;
      assert s == t[..|p| + 1] == q[..|p| + 1];
    }
    if s <= q {
      assert s == q[..|s|] == t[..|s|];
    }
  }

  /** One slash is taken off the end of a path, and no more. */
  lemma TrimIs(p: Bytes)
    ensures Trim(p + "/") == p && (p == "" || p[|p| - 1] != '/' ==> Trim(p) == p)
  {
    assert (p + "/")[..|p|] == p;
  }

  /** Of plain paths the text tests for being in a folder, and for being at or above a path, are those of the parts. */
  lemma AboveByParts(a: seq<Bytes>, b: seq<Bytes>)
    requires AreParts(a) && AreParts(b)
    ensures InDir(Join(b), Join(a)) <==> a < b
    ensures AtOrAbove(Join(a), Join(b)) <==> a <= b
  {
    JoinPrefix(a, b);
    JoinSame(a, b);
    SlashPrefix(Join(a), Join(b));
    assert a <= b <==> a < b || a == b;
  }
}
