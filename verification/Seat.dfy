/** The seat's paths, which no box gets (crates/omabox/src/bwrap.rs: seat_path, holds_seat, DevNode,
    and the tests' oracle, touches_seat). */
module Seat {
  import opened Options
  import opened Paths

  datatype Why = CardNode | Input | Seatd | Bus | Runtime

  predicate Digits(n: Bytes) {
    n != "" && forall c | c in n :: '0' <= c <= '9'
  }

  /** pre and a number. */
  predicate Numbered(p: Bytes, pre: Bytes) {
    pre <= p && Digits(p[|pre|..])
  }

  // ---- By text, as the box's binds are checked ----

  predicate CardText(q: Bytes) {
    "/dev/dri/card" <= q && Digits(Split(q[|"/dev/dri/card"|..])[0])
  }

  /** Why p is the seat's: at or under one of its paths. */
  function SeatPath(p: Bytes, runtime: Bytes): Option<Why> {
    var q := Lex(p);
    if CardText(q) then Some(CardNode)
    else if IsIn(q, "/dev/input") then Some(Input)
    else if IsIn(q, "/run/seatd.sock") then Some(Seatd)
    else if IsIn(q, "/run/dbus") then Some(Bus)
    else if runtime != "" && IsIn(q, Lex(runtime)) then Some(Runtime)
    else None
  }

  /** Why p holds one of the seat's paths. */
  function HoldsSeat(p: Bytes, runtime: Bytes): Option<Why> {
    var q := Lex(p);
    if HoldsText(q, "/dev/dri/card0") then Some(CardNode)
    else if HoldsText(q, "/dev/input") then Some(Input)
    else if HoldsText(q, "/run/seatd.sock") then Some(Seatd)
    else if HoldsText(q, "/run/dbus") then Some(Bus)
    else if runtime != "" && HoldsText(q, Lex(runtime)) then Some(Runtime)
    else None
  }

  predicate IsSeats(p: Bytes, runtime: Bytes) {
    SeatPath(p, runtime).Some? || HoldsSeat(p, runtime).Some?
  }

  // ---- By parts, as the tests' oracle has it ----

  const DRI := ["dev", "dri"]
  const INPUT := ["dev", "input"]
  const SEATD := ["run", "seatd.sock"]
  const BUS := ["run", "dbus"]

  predicate CardParts(c: seq<Bytes>) {
    |c| >= 3 && c[..2] == DRI && Numbered(c[2], "card")
  }

  predicate Along(a: seq<Bytes>, b: seq<Bytes>) {
    a <= b || b <= a
  }

  /** Whether these parts are at, under or above one of the seat's fixed paths. */
  predicate TouchesFixed(c: seq<Bytes>) {
    CardParts(c) || c <= DRI || Along(c, INPUT) || Along(c, SEATD) || Along(c, BUS)
  }

  predicate TouchesSeat(p: Bytes, runtime: Bytes) {
    TouchesFixed(Parts(p)) || (runtime != "" && Along(Parts(p), Parts(runtime)))
  }

  // ---- They agree ----

  lemma Texts()
    ensures AreParts(DRI) && AreParts(INPUT) && AreParts(SEATD) && AreParts(BUS) && AreParts(DRI + ["card0"])
    ensures Join(DRI) == "/dev/dri" && Join(INPUT) == "/dev/input" && Join(SEATD) == "/run/seatd.sock"
      && Join(BUS) == "/run/dbus"
    ensures Join(DRI + ["card0"]) == "/dev/dri/card0"
  {
    FixedTexts();
    JoinThree("dev", "dri", "card0");
    assert DRI + ["card0"] == ["dev", "dri", "card0"];
  }

  lemma FixedTexts()
    ensures Join(DRI) == "/dev/dri" && Join(INPUT) == "/dev/input" && Join(SEATD) == "/run/seatd.sock"
      && Join(BUS) == "/run/dbus"
  {
    JoinTwo("dev", "dri");
    JoinTwo("dev", "input");
    JoinTwo("run", "seatd.sock");
    JoinTwo("run", "dbus");
  }

  lemma JoinTwo(x: Bytes, y: Bytes)
    ensures Join([x, y]) == "/" + x + "/" + y
  {
    assert [x, y][1..] == [y] && [y][1..] == [];
    assert Join([y]) == "/" + y;
    assert "/" + x + ("/" + y) == "/" + x + "/" + y;
  }

  lemma JoinThree(x: Bytes, y: Bytes, z: Bytes)
    ensures Join([x, y, z]) == "/" + x + "/" + y + "/" + z
  {
    assert [x, y, z][1..] == [y, z];
    JoinTwo(y, z);
    assert "/" + x + ("/" + y + "/" + z) == "/" + x + "/" + y + "/" + z;
  }

  lemma AtRoot(p: Bytes, root: seq<Bytes>)
    requires AreParts(root) && root != []
    ensures IsIn(Lex(p), Join(root)) || HoldsText(Lex(p), Join(root)) <==> Along(Parts(p), root)
  {
    PartsOfJoin(root);
    InByParts(p, Join(root));
    HoldsByParts(p, root);
  }

  /** A text without slashes starts a part and what follows it when it starts the part. */
  lemma StartsPart(x: Bytes, y: Bytes, v: Bytes)
    requires '/' !in x && (v == "" || "/" <= v)
    ensures x <= y + v <==> x <= y
  {
    var t := y + v;
    if |x| <= |y| {
      assert t[..|x|] == y[..|x|];
    } else if v != "" {
      assert t[|y|] == '/' && x[|y|] in x;
    }
  }

  lemma CardByParts(p: Bytes)
    ensures CardText(Lex(p)) <==> CardParts(Parts(p))
  {
    PartsPlain(p);
    Texts();
    var c := Parts(p);
    JoinPrefix(DRI, c);
    if DRI < c {
      JoinRest(c);
      CardRest(Join(c), c[2], Join(c[3..]), c[3..]);
    } else {
      assert "/dev/dri" + "/" == "/dev/dri/card"[..9];
    }
  }

  lemma JoinRest(c: seq<Bytes>)
    requires DRI < c
    ensures Join(c) == "/dev/dri" + "/" + c[2] + Join(c[3..])
  {
    var d := c[1..];
    var e := d[1..];
    assert c[0] == "dev" && d[0] == "dri" && e[0] == c[2] && e[1..] == c[3..];
    assert Join(c) == "/" + "dev" + Join(d) && Join(d) == "/" + "dri" + Join(e) && Join(e) == "/" + c[2] + Join(c[3..]);
    Regroup(c[2], Join(c[3..]));
  }

  lemma Regroup(n: Bytes, v: Bytes)
    ensures "/" + "dev" + ("/" + "dri" + ("/" + n + v)) == "/dev/dri" + "/" + n + v
  {
  }

  lemma CardRest(q: Bytes, n: Bytes, v: Bytes, rest: seq<Bytes>)
    requires q == "/dev/dri" + "/" + n + v && v == Join(rest) && '/' !in n && AreParts(rest)
    ensures CardText(q) <==> Numbered(n, "card")
  {
    assert q == "/dev/dri/" + (n + v) && "/dev/dri/" + "card" == "/dev/dri/card";
    Under1("/dev/dri/", "card", n + v);
    StartsPart("card", n, v);
    if "card" <= n {
      var m := n[4..];
      assert q[|"/dev/dri/card"|..] == m + v;
      SplitOn(m, v);
      SplitJoin(rest);
      assert m + "" == m;
    }
  }

  /** The text check and the parts agree on a path, with no runtime folder or one other than /. */
  lemma SeatByParts(p: Bytes, runtime: Bytes)
    requires runtime == "" || Parts(runtime) != []
    ensures IsSeats(p, runtime) <==> TouchesSeat(p, runtime)
  {
    FixedByParts(p);
    RuntimeApart(p, runtime);
    if runtime != "" {
      PartsPlain(runtime);
      AtRoot(p, Parts(runtime));
    }
  }

  lemma RuntimeApart(p: Bytes, runtime: Bytes)
    ensures IsSeats(p, runtime) <==>
      IsSeats(p, "") || (runtime != "" && (IsIn(Lex(p), Lex(runtime)) || HoldsText(Lex(p), Lex(runtime))))
  {
    RuntimePath(p, runtime);
    RuntimeHeld(p, runtime);
  }

  lemma RuntimePath(p: Bytes, runtime: Bytes)
    ensures SeatPath(p, runtime).Some? <==> SeatPath(p, "").Some? || (runtime != "" && IsIn(Lex(p), Lex(runtime)))
  {
  }

  lemma RuntimeHeld(p: Bytes, runtime: Bytes)
    ensures HoldsSeat(p, runtime).Some? <==>
      HoldsSeat(p, "").Some? || (runtime != "" && HoldsText(Lex(p), Lex(runtime)))
  {
  }

  lemma FixedByParts(p: Bytes)
    ensures IsSeats(p, "") <==> TouchesFixed(Parts(p))
  {
    Texts();
    CardByParts(p);
    HoldsByParts(p, DRI + ["card0"]);
    AtRoot(p, INPUT);
    AtRoot(p, SEATD);
    AtRoot(p, BUS);
    var c, three := Parts(p), DRI + ["card0"];
    assert three[..2] == DRI && three[2] == "card0";
    assert c < three <==> c <= DRI;
  }

  /** With a runtime folder that comes to /, the text check sees no more than without one, where the
      parts have every path the seat's. */
  lemma SlashRuntime(p: Bytes, runtime: Bytes)
    requires runtime != "" && Parts(runtime) == []
    ensures IsSeats(p, runtime) <==> TouchesSeat(p, "")
    ensures TouchesSeat(p, runtime)
  {
    FixedByParts(p);
    RuntimeApart(p, runtime);
    InSlash(p);
    PartsPlain(p);
    if Parts(p) != [] {
      assert |Lex(p) + "/"| > 1;
    }
  }

  /** Nothing outside /dev and /run is the seat's. */
  lemma Elsewhere(c: seq<Bytes>)
    requires c != [] && c[0] != "dev" && c[0] != "run"
    ensures !TouchesFixed(c)
  {
    assert DRI[0] == "dev" && INPUT[0] == "dev" && SEATD[0] == "run" && BUS[0] == "run";
    if |c| >= 2 {
      assert c[..2][0] == c[0];
    }
  }

  /** The two checks agree on all paths exactly when the runtime folder is not /. */
  lemma SeatCheckExact(runtime: Bytes)
    ensures (forall p :: IsSeats(p, runtime) <==> TouchesSeat(p, runtime)) <==> (runtime == "" || Parts(runtime) != [])
  {
    if runtime == "" || Parts(runtime) != [] {
      forall p
        ensures IsSeats(p, runtime) <==> TouchesSeat(p, runtime)
      {
        SeatByParts(p, runtime);
      }
    } else {
      var p := Join(["usr"]);
      PartsOfJoin(["usr"]);
      SlashRuntime(p, runtime);
      assert "usr"[0] != "dev"[0] && "usr"[0] != "run"[0];
      Elsewhere(["usr"]);
    }
  }

  /** A name such as card0. */
  ghost predicate IsCard(x: Bytes) {
    exists n | n != "" && x == "card" + n :: forall i | 0 <= i < |n| :: n[i] in "0123456789"
  }

  /** What the text checks refuse without a runtime folder, path by path: /, /dev, /run and /dev/dri, and at or
      under /dev/input, /run/seatd.sock, /run/dbus and the card nodes. */
  lemma RefusedAre(p: Bytes)
    ensures IsSeats(p, "") <==>
      var c := Parts(p);
      || c == [] || c == ["dev"] || c == ["run"] || c == ["dev", "dri"]
      || (|c| >= 2 && c[0] == "dev" && c[1] == "input")
      || (|c| >= 2 && c[0] == "run" && (c[1] == "seatd.sock" || c[1] == "dbus"))
      || (|c| >= 3 && c[0] == "dev" && c[1] == "dri" && IsCard(c[2]))
  {
    FixedByParts(p);
    var c := Parts(p);
    if |c| >= 2 {
      FirstTwo(c);
    } else if |c| == 1 {
      OneRefused(c);
    }
  }

  lemma OneRefused(c: seq<Bytes>)
    requires |c| == 1
    ensures TouchesFixed(c) <==> c == ["dev"] || c == ["run"]
  {
    assert c == [c[0]];
    assert DRI[..1] == ["dev"] && INPUT[..1] == ["dev"] && SEATD[..1] == ["run"] && BUS[..1] == ["run"];
    assert forall r: seq<Bytes> | |r| == 2 :: Along(c, r) <==> r[..1] == c;
    assert c <= DRI <==> DRI[..1] == c;
  }

  lemma CardsAre(x: Bytes)
    ensures Numbered(x, "card") <==> IsCard(x)
  {
    if Numbered(x, "card") {
      var n := x[4..];
      assert x == "card" + n;
      forall i | 0 <= i < |n|
        ensures n[i] in "0123456789"
      {
        assert n[i] in n;
        DigitIn(n[i]);
      }
    }
    if IsCard(x) {
      var n :| n != "" && x == "card" + n && forall i | 0 <= i < |n| :: n[i] in "0123456789";
      assert x[4..] == n;
      forall c | c in n
        ensures '0' <= c <= '9'
      {
        DigitIn(c);
      }
    }
  }

  lemma DigitIn(c: char)
    ensures c in "0123456789" <==> '0' <= c <= '9'
  {
    var d := "0123456789";
    assert forall i | 0 <= i < 10 :: d[i] == '0' + i as char;
    if '0' <= c <= '9' {
      assert d[(c - '0') as int] == c;
    }
  }

  lemma FirstTwo(c: seq<Bytes>)
    requires |c| >= 2
    ensures c <= DRI <==> c == ["dev", "dri"]
    ensures Along(c, INPUT) <==> c[0] == "dev" && c[1] == "input"
    ensures Along(c, SEATD) <==> c[0] == "run" && c[1] == "seatd.sock"
    ensures Along(c, BUS) <==> c[0] == "run" && c[1] == "dbus"
    ensures CardParts(c) <==> |c| >= 3 && c[0] == "dev" && c[1] == "dri" && IsCard(c[2])
  {
    assert c[..2] == [c[0], c[1]];
    AlongTwo(c, "dev", "input");
    AlongTwo(c, "run", "seatd.sock");
    AlongTwo(c, "run", "dbus");
    if |c| >= 3 {
      CardsAre(c[2]);
    }
  }

  lemma AlongTwo(c: seq<Bytes>, x: Bytes, y: Bytes)
    requires |c| >= 2
    ensures Along(c, [x, y]) <==> c[0] == x && c[1] == y
  {
    assert c[..2] == [c[0], c[1]];
  }

  /** A way into a folder and back out of it hides nothing from the checks. */
  lemma DetoursSeen(p: Bytes, name: Bytes, t: Bytes, runtime: Bytes)
    requires IsPart(name) && Ends(t)
    ensures SeatPath(p + "/" + name + "/.." + t, runtime) == SeatPath(p + t, runtime)
    ensures HoldsSeat(p + "/" + name + "/.." + t, runtime) == HoldsSeat(p + t, runtime)
  {
    BackOut(p, name, t);
  }

  /** What is in a folder that is no part of the seat's fixed paths is not either. */
  lemma InsideUntouched(own: seq<Bytes>, s: seq<Bytes>)
    requires own <= s && !TouchesFixed(own)
    ensures !TouchesFixed(s)
  {
    AlongInside(own, s, INPUT);
    AlongInside(own, s, SEATD);
    AlongInside(own, s, BUS);
  }

  lemma AlongInside(own: seq<Bytes>, s: seq<Bytes>, r: seq<Bytes>)
    requires own <= s && !Along(own, r)
    ensures !Along(s, r)
  {
  }

  // ---- Device nodes ----

  /** A device a box may have. */
  predicate IsDev(p: Bytes) {
    Numbered(p, "/dev/dri/renderD") || Numbered(p, "/dev/nvidia") || p == "/dev/nvidiactl" || p == "/dev/nvidia-uvm"
  }

  type DevNode = p: Bytes | IsDev(p) witness "/dev/nvidiactl"

  lemma DigitsAfter(pre: Bytes, p: Bytes)
    requires Numbered(p, pre) && '/' !in pre && |pre| > 2
    ensures IsPart(p)
  {
    assert p == pre + p[|pre|..];
  }

  /** A device a box may have is no part of the seat. */
  lemma DevIsNoSeats(p: Bytes)
    requires IsDev(p)
    ensures !TouchesFixed(Parts(p))
  {
    if Numbered(p, "/dev/dri/renderD") {
      var n := p[9..];
      assert n[7..] == p[16..] && "renderD" == "/dev/dri/renderD"[9..];
      assert Numbered(n, "renderD");
      DigitsAfter("renderD", n);
      JoinThree("dev", "dri", n);
      assert p == "/dev/dri/renderD"[..9] + n;
      assert "/" + "dev" + "/" + "dri" + "/" + n == p;
      PartsOfJoin(["dev", "dri", n]);
      NotCard(n);
      assert "dev"[0] != "run"[0] && "dri"[0] != "input"[0];
    } else {
      NvidiaIsNoSeats(p);
    }
  }

  lemma NotCard(n: Bytes)
    requires "renderD" <= n
    ensures !("card" <= n)
  {
    assert n[0] == "renderD"[0] && "card"[0] == 'c';
  }

  lemma NvidiaIsNoSeats(p: Bytes)
    requires Numbered(p, "/dev/nvidia") || p == "/dev/nvidiactl" || p == "/dev/nvidia-uvm"
    ensures !TouchesFixed(Parts(p))
  {
    var n := p[5..];
    assert p[..5] == "/dev/";
    assert p == "/dev/" + n;
    if Numbered(p, "/dev/nvidia") {
      assert n[6..] == p[11..] && "nvidia" == "/dev/nvidia"[5..];
      assert Numbered(n, "nvidia");
      DigitsAfter("nvidia", n);
    } else {
      assert n == "nvidiactl" || n == "nvidia-uvm";
    }
    assert n[0] == 'n';
    JoinTwo("dev", n);
    assert "/" + "dev" + "/" + n == p;
    PartsOfJoin(["dev", n]);
    assert "dev"[0] != "run"[0] && n[0] != "dri"[0] && n[0] != "input"[0];
  }
}
