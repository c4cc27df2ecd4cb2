/** The box's bwrap command, built only through methods that check each mount
    (crates/omabox/src/bwrap.rs: Bwrap, and the tests' oracle that reads the words back). */
module BindBuilder {
  import opened Options
  import opened Paths
  import opened Seat

  // ---- What is put in a command ----

  datatype How = Ro | Rw | Dev

  /** One call's words. */
  datatype Entry =
    | Words(ws: seq<Bytes>)
    | Hostname(name: Bytes)
    | Setenv(k: Bytes, v: Bytes)
    | Bind(how: How, src: Bytes, dest: Bytes)
    | Cgroup
    | Card(file: Bytes, dest: Bytes)
    | TmpOverlay(p: Bytes)
    | EtcOverlay(etc: Bytes)

  function HowWord(how: How): Bytes {
    match how
    case Ro => "--ro-bind"
    case Rw => "--bind"
    case Dev => "--dev-bind"
  }

  function Flat1(e: Entry): seq<Bytes> {
    match e
    case Words(ws) => ws
    case Hostname(name) => ["--hostname", name]
    case Setenv(k, v) => ["--setenv", k, v]
    case Bind(how, src, dest) => [HowWord(how), src, dest]
    case Cgroup => ["--bind", "@CGROUP@", "/sys/fs/cgroup"]
    case Card(file, dest) => ["--ro-bind", file, dest]
    case TmpOverlay(p) => ["--overlay-src", p, "--tmp-overlay", p]
    case EtcOverlay(etc) => ["--overlay-src", "/etc", "--overlay-src", etc, "--ro-overlay", "/etc"]
  }

  function Flat(log: seq<Entry>): seq<Bytes> {
    if log == [] then [] else Flat(log[..|log| - 1]) + Flat1(log[|log| - 1])
  }

  // ---- What a box may have ----

  /** The user's runtime folder, the box's own, its writable ones, and where omabox's files may be. */
  datatype Box = Box(runtime: Bytes, own: Bytes, rw: seq<Bytes>, roots: seq<Bytes>)

  /** The box's own folder is a plain path that is no part of the seat's fixed ones, and does not hold
      the runtime folder. */
  ghost predicate BoxOk(box: Box) {
    && Lex(box.own) == box.own && Parts(box.own) != [] && !TouchesFixed(Parts(box.own))
    && (box.runtime != "" ==> !(Parts(box.own) <= Parts(box.runtime)))
  }

  /** The runtime folder as far as the text checks guard it: not when it comes to /. */
  function Guarded(runtime: Bytes): Bytes {
    if Parts(runtime) == [] then "" else runtime
  }

  ghost predicate InOwn(src: Bytes, box: Box) {
    Parts(box.own) <= Parts(src)
  }

  /** The rule for one mount: its source no part of the seat, but in the box's own folder; its place none. */
  ghost predicate Passes(src: Bytes, dest: Bytes, box: Box) {
    (InOwn(src, box) || !TouchesSeat(src, Guarded(box.runtime))) && !TouchesFixed(Parts(dest))
  }

  ghost predicate HowOk(how: How, src: Bytes, dest: Bytes, box: Box) {
    (how.Rw? ==> Lex(src) in box.rw) && (how.Dev? ==> src == dest && IsDev(src))
  }

  ghost predicate Allowed(e: Entry, box: Box, host: Host) {
    match e
    case Words(ws) => !(exists w | w in ws :: IsBind(w))
    case Bind(how, src, dest) => Passes(src, dest, box) && HowOk(how, src, dest, box)
    case Card(file, dest) =>
      Parts(box.own) < Parts(file) && host.emptyFile(Lex(file)) && Numbered(dest, "/dev/dri/card")
    case TmpOverlay(p) => Passes(p, p, box)
    case EtcOverlay(etc) => Passes("/etc", "/etc", box) && Passes(etc, "/etc", box)
    case _ => true
  }

  ghost predicate AllAllowed(log: seq<Entry>, box: Box, host: Host) {
    forall i | 0 <= i < |log| :: Allowed(log[i], box, host)
  }

  const BINDS := [
    "--bind", "--ro-bind", "--dev-bind", "--bind-try", "--ro-bind-try", "--dev-bind-try", "--bind-fd", "--ro-bind-fd",
    "--overlay-src", "--overlay", "--ro-overlay", "--tmp-overlay", "--bind-data", "--ro-bind-data", "--file", "--args"]

  /** A word of bwrap's that puts a host path or a file's content in the box. */
  predicate IsBind(w: Bytes) {
    w in BINDS
  }

  // ---- The checks ----

  lemma SeatGuarded(p: Bytes, runtime: Bytes)
    ensures IsSeats(p, runtime) <==> TouchesSeat(p, Guarded(runtime))
  {
    if runtime != "" && Parts(runtime) == [] {
      SlashRuntime(p, runtime);
    } else {
      SeatByParts(p, runtime);
      EmptyParts();
    }
  }

  lemma OwnByParts(src: Bytes, box: Box)
    requires BoxOk(box)
    ensures IsIn(Lex(src), box.own) <==> InOwn(src, box)
  {
    InByParts(src, box.own);
  }

  /** Whether a bind is let by: as the text of its paths has it, and so as their parts have it. */
  function CheckBind(src: Bytes, dest: Bytes, box: Box): (ok: bool)
    requires BoxOk(box)
    ensures ok <==> Passes(src, dest, box)
  {
    LexKeeps(src);
    LexKeeps(dest);
    OwnByParts(src, box);
    SeatGuarded(Lex(src), box.runtime);
    FixedByParts(Lex(dest));
    (IsIn(Lex(src), box.own) || !IsSeats(Lex(src), box.runtime)) && !IsSeats(Lex(dest), "")
  }

  /** Why a folder cannot be the box's own: as written, or as it resolves. */
  predicate AtOrAbove(x: Bytes, y: Bytes) {
    x == "/" || y == x || x + "/" <= y
  }

  function Canon(p: Bytes, resolve: Bytes -> Option<Bytes>): seq<Bytes> {
    var c := resolve(p);
    if c.Some? && Lex(c.value) != Lex(p) then [Lex(p), Lex(c.value)] else [Lex(p)]
  }

  predicate OwnRefused(own: Bytes, runtime: Bytes, home: Bytes, resolve: Bytes -> Option<Bytes>) {
    || own == "/"
    || (runtime != "" && exists r | r in Canon(runtime, resolve) :: AtOrAbove(own, r))
    || (home != "" && exists h | h in Canon(home, resolve) :: AtOrAbove(own, h))
    || IsSeats(own, "")
  }

  predicate BoxDirRefused(d: Bytes, runtime: Bytes, home: Bytes, resolve: Bytes -> Option<Bytes>) {
    exists own | own in Canon(d, resolve) :: OwnRefused(own, runtime, home, resolve)
  }

  function AllLex(ps: seq<Bytes>): seq<Bytes> {
    seq(|ps|, i requires 0 <= i < |ps| => Lex(ps[i]))
  }

  lemma NotRefused(d: Bytes, runtime: Bytes, home: Bytes, resolve: Bytes -> Option<Bytes>, rw: seq<Bytes>,
                   roots: seq<Bytes>)
    requires !BoxDirRefused(d, runtime, home, resolve)
    ensures BoxOk(Box(runtime, Lex(d), rw, roots))
  {
    var own := Lex(d);
    assert own in Canon(d, resolve) && !OwnRefused(own, runtime, home, resolve);
    LexKeeps(d);
    FixedByParts(own);
    if runtime != "" {
      assert Lex(runtime) in Canon(runtime, resolve);
      if Parts(runtime) != [] {
        InByParts(runtime, d);
      }
    }
  }

  // ---- The builder ----

  /** What is asked of the host: the rules for what a user may name, and which files are empty. */
  datatype Host = Host(refuseSrc: Bytes -> bool, refuseDest: Bytes -> bool, emptyFile: Bytes -> bool)

  const SYS_RO := ["/usr", "/etc", "/sys"]

  class Bwrap {
    const box: Box
    const host: Host
    var args: seq<Bytes>
    ghost var log: seq<Entry>

    ghost predicate Valid()
      reads this
    {
      BoxOk(box) && args == Flat(log) && AllAllowed(log, box, host)
    }

    constructor (box: Box, host: Host)
      requires BoxOk(box)
      ensures Valid() && this.box == box && this.host == host && log == []
    {
      this.box, this.host, args, log := box, host, [], [];
    }

    /** A builder, unless the box's folder would let the seat, HOME or the runtime folder in. */
    static method New(runtime: Bytes, d: Bytes, rw: seq<Bytes>, roots: seq<Bytes>, host: Host, home: Bytes,
      resolve: Bytes -> Option<Bytes>)
      returns (b: Option<Bwrap>)
      ensures b.Some? <==> !BoxDirRefused(d, runtime, home, resolve)
      ensures b.Some? ==> fresh(b.value) && b.value.Valid() && b.value.log == [] && b.value.host == host
      ensures b.Some? ==> b.value.box == Box(runtime, Lex(d), AllLex(rw), AllLex(roots))
    {
      if BoxDirRefused(d, runtime, home, resolve) {
        return None;
      }
      NotRefused(d, runtime, home, resolve, AllLex(rw), AllLex(roots));
      var made := new Bwrap(Box(runtime, Lex(d), AllLex(rw), AllLex(roots)), host);
      b := Some(made);
    }

    /** The command's words: read back as bwrap reads them, their mounts are those asked for, and all keep
        the rules. */
    method IntoArgs() returns (words: seq<Bytes>)
      requires Valid()
      ensures words == args
      ensures Readable(log, Bwraps) || IsUpLog(log) ==> ReadMounts(words, Bwraps) == Some(AllMounts(log))
      ensures Guarded(box.runtime) == box.runtime ==> forall m | m in AllMounts(log) :: MountOk(m, box, host)
      ensures forall m | m in AllMounts(log) && m.src.Some? && m.src.value != "@CGROUP@" :: OffSeat(m.src.value, box)
    {
      if IsUpLog(log) {
        UpLogIsSafe(log, box, host);
      } else if Readable(log, Bwraps) {
        LogReads(log, box, host);
      }
      if Guarded(box.runtime) == box.runtime {
        MountsOk(log, box, host);
      }
      NoSeatSource(log, box, host);
      words := args;
    }

    /** One call's words at the end. */
    method Push(e: Entry)
      requires Valid() && Allowed(e, box, host)
      modifies this
      ensures Valid() && log == old(log) + [e]
    {
      log := log + [e];
      assert log[..|log| - 1] == old(log);
      args := args + Flat1(e);
    }

    method PushBind(how: How, src: Bytes, dest: Bytes) returns (ok: bool)
      requires Valid() && HowOk(how, src, dest, box)
      modifies this
      ensures Valid() && ok == Passes(src, dest, box) && log == old(log) + if ok then [Bind(how, src, dest)] else []
    {
      ok := CheckBind(src, dest, box);
      if ok {
        Push(Bind(how, src, dest));
      }
    }

    /** Plain words, never a bind. */
    method AddWords(ws: seq<Bytes>) returns (ok: bool)
      requires Valid()
      modifies this
      ensures Valid() && ok == !(exists w | w in ws :: IsBind(w)) && log == old(log) + if ok then [Words(ws)] else []
    {
      ok := !(exists w | w in ws :: IsBind(w));
      if ok {
        Push(Words(ws));
      }
    }

    method AddHostname(name: Bytes)
      requires Valid()
      modifies this
      ensures Valid() && log == old(log) + [Hostname(name)]
    {
      Push(Hostname(name));
    }

    method AddSetenv(k: Bytes, v: Bytes)
      requires Valid()
      modifies this
      ensures Valid() && log == old(log) + [Setenv(k, v)]
    {
      Push(Setenv(k, v));
    }

    /** One of the system's folders, read-only at its own path. */
    method SysRo(p: Bytes) returns (ok: bool)
      requires Valid()
      modifies this
      ensures Valid() && ok == (p in SYS_RO && Passes(p, p, box))
        && log == old(log) + if ok then [Bind(Ro, p, p)] else []
    {
      if p !in SYS_RO {
        return false;
      }
      ok := PushBind(Ro, p, p);
    }

    /** One of omabox's own files, read-only. */
    method OwnRo(src: Bytes, dest: Bytes) returns (ok: bool)
      requires Valid()
      modifies this
      ensures Valid() && log == old(log) + if ok then [Bind(Ro, src, dest)] else []
      ensures ok == ((InOwn(src, box) || exists r | r in box.roots :: IsIn(Lex(src), r)) && Passes(src, dest, box))
    {
      OwnByParts(src, box);
      if !((exists r | r in box.roots :: IsIn(Lex(src), r)) || IsIn(Lex(src), box.own)) {
        return false;
      }
      ok := PushBind(Ro, src, dest);
    }

    /** What a user, a repository or a desk names, read-only. */
    method UserRo(src: Bytes, dest: Bytes) returns (ok: bool)
      requires Valid()
      modifies this
      ensures Valid() && log == old(log) + if ok then [Bind(Ro, src, dest)] else []
      ensures ok == (!host.refuseSrc(src) && !host.refuseDest(dest) && Passes(src, dest, box))
    {
      if host.refuseSrc(src) || host.refuseDest(dest) {
        return false;
      }
      ok := PushBind(Ro, src, dest);
    }

    /** A read-only bind under a rule of its own. */
    method CheckedRo(src: Bytes, dest: Bytes) returns (ok: bool)
      requires Valid()
      modifies this
      ensures Valid() && log == old(log) + if ok then [Bind(Ro, src, dest)] else []
      ensures ok == ((InOwn(src, box) || !host.refuseSrc(src)) && Passes(src, dest, box))
    {
      OwnByParts(src, box);
      if !IsIn(Lex(src), box.own) && host.refuseSrc(src) {
        return false;
      }
      ok := PushBind(Ro, src, dest);
    }

    /** The box's own runtime folder or HOME, writable. */
    method OwnRw(src: Bytes, dest: Bytes) returns (ok: bool)
      requires Valid()
      modifies this
      ensures Valid() && log == old(log) + if ok then [Bind(Rw, src, dest)] else []
      ensures ok == (Lex(src) in box.rw && Passes(src, dest, box))
    {
      if Lex(src) !in box.rw {
        return false;
      }
      ok := PushBind(Rw, src, dest);
    }

    method CgroupRw()
      requires Valid()
      modifies this
      ensures Valid() && log == old(log) + [Cgroup]
    {
      Push(Cgroup);
    }

    /** A device node: none of them is the seat's, so only the runtime folder can stand in its way. */
    method AddDev(n: DevNode) returns (ok: bool)
      requires Valid()
      modifies this
      ensures Valid() && log == old(log) + if ok then [Bind(Dev, n, n)] else []
      ensures ok == (InOwn(n, box) || Guarded(box.runtime) == "" || !Along(Parts(n), Parts(box.runtime)))
    {
      DevIsNoSeats(n);
      ok := PushBind(Dev, n, n);
    }

    /** An empty file of the box's where a card node would be. */
    method CardPlaceholder(file: Bytes, dest: Bytes) returns (ok: bool)
      requires Valid()
      modifies this
      ensures Valid() && log == old(log) + if ok then [Card(file, dest)] else []
      ensures ok == (Numbered(dest, "/dev/dri/card") && Parts(box.own) < Parts(file) && host.emptyFile(Lex(file)))
    {
      StrictlyIn(file, box);
      ok := Numbered(dest, "/dev/dri/card") && box.own + "/" <= Lex(file) && host.emptyFile(Lex(file));
      if ok {
        Push(Card(file, dest));
      }
    }

    /** A folder at its own path whose writes are thrown away. */
    method AddTmpOverlay(p: Bytes) returns (ok: bool)
      requires Valid()
      modifies this
      ensures Valid() && log == old(log) + if ok then [TmpOverlay(p)] else []
      ensures ok == (!host.refuseSrc(p) && !host.refuseDest(p) && Passes(p, p, box))
    {
      ok := !host.refuseSrc(p) && !host.refuseDest(p) && CheckBind(p, p, box);
      if ok {
        Push(TmpOverlay(p));
      }
    }

    /** /etc with the box's own files on top, read-only. */
    method AddEtcOverlay(etc: Bytes) returns (ok: bool)
      requires Valid()
      modifies this
      ensures Valid() && log == old(log) + if ok then [EtcOverlay(etc)] else []
      ensures ok == (Passes("/etc", "/etc", box) && Passes(etc, "/etc", box))
    {
      ok := CheckBind("/etc", "/etc", box) && CheckBind(etc, "/etc", box);
      if ok {
        Push(EtcOverlay(etc));
      }
    }

    /** One of the box's /etc files over the host's. */
    method EtcFile(src: Bytes, dest: Bytes) returns (ok: bool)
      requires Valid()
      modifies this
      ensures Valid() && log == old(log) + if ok then [Bind(Ro, src, dest)] else []
      ensures ok == (box.own + "/etc/" <= Lex(src) && "/etc/" <= dest && Passes(src, dest, box))
    {
      if !(box.own + "/etc/" <= Lex(src)) || !("/etc/" <= dest) {
        return false;
      }
      ok := PushBind(Ro, src, dest);
    }

    /** A resolver file under /run, at its own path. */
    method Resolv(p: Bytes) returns (ok: bool)
      requires Valid()
      modifies this
      ensures Valid() && log == old(log) + if ok then [Bind(Ro, p, p)] else []
      ensures ok == ("/run/" <= p && Passes(p, p, box))
    {
      if !("/run/" <= p) {
        return false;
      }
      ok := PushBind(Ro, p, p);
    }
  }

  lemma StrictlyIn(file: Bytes, box: Box)
    requires BoxOk(box)
    ensures box.own + "/" <= Lex(file) <==> Parts(box.own) < Parts(file)
  {
    PartsPlain(file);
    PartsPlain(box.own);
    JoinPrefix(Parts(box.own), Parts(file));
    if Parts(file) == [] {
      NotSlash(Parts(box.own));
    }
  }

  // ---- The words read back, as bwrap reads them ----

  /** A mount read from the words: an overlay's source has no place yet, and its place no source. */
  datatype Mount = Mount(how: Bytes, src: Option<Bytes>, dest: Bytes)

  const FLAGS := [
    "--unshare-user", "--unshare-user-try", "--unshare-pid", "--unshare-ipc", "--unshare-uts", "--unshare-net",
    "--unshare-cgroup", "--unshare-cgroup-try", "--unshare-all", "--share-net", "--die-with-parent", "--new-session",
    "--as-pid-1", "--clearenv", "--disable-userns", "--assert-userns-disabled", "--level-prefix"]
  const ONES := [
    "--info-fd", "--block-fd", "--sync-fd", "--json-status-fd", "--userns-block-fd", "--hostname", "--uid", "--gid",
    "--unsetenv", "--cap-add", "--cap-drop", "--perms", "--size", "--exec-label", "--file-label", "--argv0",
    "--seccomp",
    "--add-seccomp-fd", "--proc", "--dev", "--tmpfs", "--mqueue", "--dir", "--remount-ro", "--chdir", "--lock-file"]
  const TWOS := ["--setenv", "--symlink", "--chmod"]
  const TWO_BINDS := ["--bind", "--ro-bind", "--dev-bind", "--bind-try", "--ro-bind-try", "--dev-bind-try"]

  /** What an option's words mount: nothing, a source at a place, or an overlay's source or place. */
  datatype Makes = Nothing | Both | Source | Place

  datatype Kind = Kind(n: nat, makes: Makes)

  type Table = Bytes -> Option<Kind>

  function Bwraps(w: Bytes): Option<Kind> {
    if w in TWO_BINDS then Some(Kind(2, Both))
    else if w == "--overlay-src" then Some(Kind(1, Source))
    else if w == "--tmp-overlay" || w == "--ro-overlay" then Some(Kind(1, Place))
    else if w in TWOS then Some(Kind(2, Nothing))
    else if w in ONES then Some(Kind(1, Nothing))
    else if w in FLAGS then Some(Kind(0, Nothing))
    else None
  }

  function MountHere(w: Bytes, makes: Makes, args: seq<Bytes>): seq<Mount> {
    if makes.Both? && |args| == 2 then [Mount(w, Some(args[0]), args[1])]
    else if makes.Source? && |args| == 1 then [Mount(w, Some(args[0]), "")]
    else if makes.Place? && |args| == 1 then [Mount(w, None, args[0])]
    else []
  }

  /** Every mount in the words, up to the command; None for words that are cut short or not known. */
  function ReadMounts(args: seq<Bytes>, t: Table): Option<seq<Mount>> {
    if args == [] then Some([])
    else
      match t(args[0])
      case None => if "--" <= args[0] then None else Some([])
      case Some(k) =>
        if k.n >= |args| then None
        else
          var rest := ReadMounts(args[k.n + 1..], t);
          if rest.None? then None else Some(MountHere(args[0], k.makes, args[1..k.n + 1]) + rest.value)
  }

  /** A table has the options the builder writes, and every other one that mounts is a bind word. */
  ghost predicate Knows(t: Table) {
    && t("--hostname") == Some(Kind(1, Nothing)) && t("--setenv") == Some(Kind(2, Nothing))
    && (forall how :: t(HowWord(how)) == Some(Kind(2, Both)))
    && t("--overlay-src") == Some(Kind(1, Source)) && t("--tmp-overlay") == Some(Kind(1, Place))
      && t("--ro-overlay") == Some(Kind(1, Place))
    && forall w :: t(w).Some? && !t(w).value.makes.Nothing? ==> IsBind(w)
  }

  lemma BwrapsKnows()
    ensures Knows(Bwraps)
  {
    BwrapsWords();
    BwrapsBinds();
  }

  lemma BwrapsBinds()
    ensures forall w :: Bwraps(w).Some? && !Bwraps(w).value.makes.Nothing? ==> IsBind(w)
  {
  }

  lemma BwrapsWords()
    ensures Bwraps("--hostname") == Some(Kind(1, Nothing)) && Bwraps("--setenv") == Some(Kind(2, Nothing))
    ensures forall how :: Bwraps(HowWord(how)) == Some(Kind(2, Both))
    ensures Bwraps("--overlay-src") == Some(Kind(1, Source)) && Bwraps("--tmp-overlay") == Some(Kind(1, Place))
    ensures Bwraps("--ro-overlay") == Some(Kind(1, Place))
  {
    BwrapsHow();
    BwrapsOverlays();
    BwrapsPlain();
  }

  lemma BwrapsHow()
    ensures forall how :: Bwraps(HowWord(how)) == Some(Kind(2, Both))
  {
    assert TWO_BINDS[0] == "--bind" && TWO_BINDS[1] == "--ro-bind" && TWO_BINDS[2] == "--dev-bind";
  }

  lemma BwrapsOverlays()
    ensures Bwraps("--overlay-src") == Some(Kind(1, Source)) && Bwraps("--tmp-overlay") == Some(Kind(1, Place))
    ensures Bwraps("--ro-overlay") == Some(Kind(1, Place))
  {
    assert "--overlay-src"[2] == 'o' && "--tmp-overlay"[2] == 't' && "--ro-overlay"[5] == 'o';
    assert "--ro-bind"[5] == 'b' && "--bind"[2] == 'b' && "--dev-bind"[2] == 'd';
  }

  lemma BwrapsPlain()
    ensures Bwraps("--hostname") == Some(Kind(1, Nothing)) && Bwraps("--setenv") == Some(Kind(2, Nothing))
  {
    assert TWOS[0] == "--setenv" && ONES[5] == "--hostname";
    assert "--hostname"[2] == 'h' && "--setenv"[2] == 's' && TWOS[1][2] == 's' && TWOS[2][2] == 'c';
    assert forall i | 0 <= i < 6 :: TWO_BINDS[i][2] in "brd";
  }

  /** What one call mounts. */
  function MountsIn(e: Entry): seq<Mount> {
    match e
    case Bind(how, src, dest) => [Mount(HowWord(how), Some(src), dest)]
    case Cgroup => [Mount("--bind", Some("@CGROUP@"), "/sys/fs/cgroup")]
    case Card(file, dest) => [Mount("--ro-bind", Some(file), dest)]
    case TmpOverlay(p) => [Mount("--overlay-src", Some(p), ""), Mount("--tmp-overlay", None, p)]
    case EtcOverlay(etc) =>
      [Mount("--overlay-src", Some("/etc"), ""), Mount("--overlay-src", Some(etc), ""),
        Mount("--ro-overlay", None, "/etc")]
    case _ => []
  }

  function AllMounts(log: seq<Entry>): seq<Mount> {
    if log == [] then [] else AllMounts(log[..|log| - 1]) + MountsIn(log[|log| - 1])
  }

  /** Plain words that are whole options. */
  ghost predicate Whole(ws: seq<Bytes>, t: Table) {
    ws == [] || (t(ws[0]).Some? && t(ws[0]).value.n < |ws| && Whole(ws[t(ws[0]).value.n + 1..], t))
  }

  ghost predicate AllWhole(log: seq<Entry>, t: Table) {
    forall i | 0 <= i < |log| :: log[i].Words? ==> Whole(log[i].ws, t)
  }

  /** Words that bwrap takes for the program to run: its options end at them. */
  predicate IsCommand(ws: seq<Bytes>, t: Table) {
    ws == [] || (t(ws[0]).None? && !("--" <= ws[0]))
  }

  /** Whole options, and then a program, if any. */
  ghost predicate Closed(ws: seq<Bytes>, t: Table) {
    IsCommand(ws, t) || (t(ws[0]).Some? && t(ws[0]).value.n < |ws| && Closed(ws[t(ws[0]).value.n + 1..], t))
  }

  /** Plain words all along are whole options, and the last of a command may be its program. */
  ghost predicate Readable(log: seq<Entry>, t: Table) {
    log == [] || (
      var n := |log| - 1;
      AllWhole(log[..n], t) && (log[n].Words? ==> Closed(log[n].ws, t)))
  }

  function Then(ms: seq<Mount>, rest: Option<seq<Mount>>): Option<seq<Mount>> {
    if rest.None? then None else Some(ms + rest.value)
  }

  lemma ReadOption(w: Bytes, k: Kind, args: seq<Bytes>, rest: seq<Bytes>, t: Table)
    requires t(w) == Some(k) && k.n == |args|
    ensures ReadMounts([w] + args + rest, t) == Then(MountHere(w, k.makes, args), ReadMounts(rest, t))
  {
    var all := [w] + args + rest;
    assert all[0] == w && all[1..|args| + 1] == args && all[|args| + 1..] == rest;
  }

  lemma ThenThen(a: seq<Mount>, b: seq<Mount>, rest: Option<seq<Mount>>)
    ensures Then(a, Then(b, rest)) == Then(a + b, rest)
  {
    if rest.Some? {
      assert a + (b + rest.value) == a + b + rest.value;
    }
  }

  lemma ThenNone(rest: Option<seq<Mount>>)
    ensures Then([], rest) == rest
  {
    if rest.Some? {
      assert [] + rest.value == rest.value;
    }
  }

  lemma ReadWord(ws: seq<Bytes>, rest: seq<Bytes>, t: Table)
    requires ws != [] && t(ws[0]).Some? && t(ws[0]).value.n < |ws| && t(ws[0]).value.makes.Nothing?
    ensures ReadMounts(ws + rest, t) == ReadMounts(ws[t(ws[0]).value.n + 1..] + rest, t)
  {
    var all, n := ws + rest, t(ws[0]).value.n;
    assert all[0] == ws[0] && all[n + 1..] == ws[n + 1..] + rest;
    assert MountHere(all[0], Nothing, all[1..n + 1]) == [];
    ThenNone(ReadMounts(all[n + 1..], t));
  }

  lemma {:induction false} ReadWords(ws: seq<Bytes>, rest: seq<Bytes>, t: Table)
    requires Whole(ws, t) && Knows(t) && !(exists w | w in ws :: IsBind(w))
    ensures ReadMounts(ws + rest, t) == ReadMounts(rest, t)
    decreases |ws|
  {
    if ws == [] {
      assert ws + rest == rest;
    } else {
      assert ws[0] in ws;
      ReadWord(ws, rest, t);
      ReadWords(ws[t(ws[0]).value.n + 1..], rest, t);
    }
  }

  lemma ReadEntry(e: Entry, rest: seq<Bytes>, box: Box, host: Host, t: Table)
    requires Allowed(e, box, host) && Knows(t) && (e.Words? ==> Whole(e.ws, t))
    ensures ReadMounts(Flat1(e) + rest, t) == Then(MountsIn(e), ReadMounts(rest, t))
  {
    match e
    case Words(ws) =>
      ReadWords(ws, rest, t);
      ThenNone(ReadMounts(rest, t));
    case Hostname(name) => ReadOption("--hostname", Kind(1, Nothing), [name], rest, t);
    case Setenv(k, v) => ReadThree("--setenv", k, v, Nothing, rest, t);
    case Bind(how, src, dest) => ReadThree(HowWord(how), src, dest, Both, rest, t);
    case Cgroup => ReadThree(HowWord(Rw), "@CGROUP@", "/sys/fs/cgroup", Both, rest, t);
    case Card(file, dest) => ReadThree(HowWord(Ro), file, dest, Both, rest, t);
    case TmpOverlay(p) => ReadTmp(p, rest, t);
    case EtcOverlay(etc) => ReadEtc(etc, rest, t);
  }

  lemma ReadThree(w: Bytes, x: Bytes, y: Bytes, makes: Makes, rest: seq<Bytes>, t: Table)
    requires t(w) == Some(Kind(2, makes))
    ensures ReadMounts([w, x, y] + rest, t) == Then(MountHere(w, makes, [x, y]), ReadMounts(rest, t))
  {
    ReadOption(w, Kind(2, makes), [x, y], rest, t);
    assert [w, x, y] + rest == [w] + [x, y] + rest;
  }

  lemma ReadTwo(w: Bytes, x: Bytes, makes: Makes, rest: seq<Bytes>, t: Table)
    requires t(w) == Some(Kind(1, makes))
    ensures ReadMounts([w, x] + rest, t) == Then(MountHere(w, makes, [x]), ReadMounts(rest, t))
  {
    ReadOption(w, Kind(1, makes), [x], rest, t);
    assert [w, x] + rest == [w] + [x] + rest;
  }

  lemma ReadTmp(p: Bytes, rest: seq<Bytes>, t: Table)
    requires Knows(t)
    ensures ReadMounts(Flat1(TmpOverlay(p)) + rest, t) == Then(MountsIn(TmpOverlay(p)), ReadMounts(rest, t))
  {
    var place, c := ["--tmp-overlay", p], [Mount("--tmp-overlay", None, p)];
    ReadTwo("--tmp-overlay", p, Place, rest, t);
    ReadSource(p, place, c, rest, t);
    TmpWords(p);
  }

  lemma TmpWords(p: Bytes)
    ensures Flat1(TmpOverlay(p)) == ["--overlay-src", p] + ["--tmp-overlay", p]
    ensures MountsIn(TmpOverlay(p)) == [Mount("--overlay-src", Some(p), "")] + [Mount("--tmp-overlay", None, p)]
  {
  }

  /** An overlay's source, and what follows it. */
  lemma ReadSource(p: Bytes, words: seq<Bytes>, mounts: seq<Mount>, rest: seq<Bytes>, t: Table)
    requires Knows(t) && ReadMounts(words + rest, t) == Then(mounts, ReadMounts(rest, t))
    ensures ReadMounts(["--overlay-src", p] + words + rest, t)
      == Then([Mount("--overlay-src", Some(p), "")] + mounts, ReadMounts(rest, t))
  {
    ReadTwo("--overlay-src", p, Source, words + rest, t);
    Onto(["--overlay-src", p], words, rest);
    ThenThen([Mount("--overlay-src", Some(p), "")], mounts, ReadMounts(rest, t));
  }

  lemma ReadEtc(etc: Bytes, rest: seq<Bytes>, t: Table)
    requires Knows(t)
    ensures ReadMounts(Flat1(EtcOverlay(etc)) + rest, t) == Then(MountsIn(EtcOverlay(etc)), ReadMounts(rest, t))
  {
    var place, c := ["--ro-overlay", "/etc"], [Mount("--ro-overlay", None, "/etc")];
    var own, b := ["--overlay-src", etc] + place, [Mount("--overlay-src", Some(etc), "")] + c;
    ReadTwo("--ro-overlay", "/etc", Place, rest, t);
    ReadSource(etc, place, c, rest, t);
    ReadSource("/etc", own, b, rest, t);
    EtcWords(etc);
  }

  lemma EtcWords(etc: Bytes)
    ensures Flat1(EtcOverlay(etc)) == ["--overlay-src", "/etc"] + (["--overlay-src", etc] + ["--ro-overlay", "/etc"])
    ensures MountsIn(EtcOverlay(etc)) == [Mount("--overlay-src", Some("/etc"), "")]
                                       + ([Mount("--overlay-src", Some(etc), "")]
                                         + [Mount("--ro-overlay", None, "/etc")])
  {
  }

  lemma Onto(a: seq<Bytes>, b: seq<Bytes>, rest: seq<Bytes>)
    ensures (a + b) + rest == a + (b + rest)
  {
  }

  /** The words a builder has made are read back as the mounts that were asked for, in order. */
  lemma {:induction false} ReadsBack(log: seq<Entry>, rest: seq<Bytes>, box: Box, host: Host, t: Table)
    requires AllAllowed(log, box, host) && Knows(t) && AllWhole(log, t)
    ensures ReadMounts(Flat(log) + rest, t) == Then(AllMounts(log), ReadMounts(rest, t))
    decreases |log|
  {
    if log == [] {
      assert Flat(log) + rest == rest;
      ThenNone(ReadMounts(rest, t));
    } else {
      var init, e := log[..|log| - 1], log[|log| - 1];
      var more := Flat1(e) + rest;
      ReadEntry(e, rest, box, host, t);
      ReadsBack(init, more, box, host, t);
      ThenThen(AllMounts(init), MountsIn(e), ReadMounts(rest, t));
      Onto(Flat(init), Flat1(e), rest);
    }
  }

  // ---- What a box gets of the host ----

  /** The tests' rule for a mount: no source of the seat's but in the box's folder or its cgroup, no place
      of the seat's but a card node's for a file of the box's, and devices only at their own path. */
  ghost predicate SeatOk(m: Mount, box: Box, host: Host) {
    && (m.src.Some? ==>
          || (m.src.value == "@CGROUP@" && m.how == "--bind" && m.dest == "/sys/fs/cgroup")
          || InOwn(m.src.value, box) || !TouchesSeat(m.src.value, box.runtime))
    && (m.how != "--overlay-src" ==> PlaceOk(m, box, host))
  }

  ghost predicate PlaceOk(m: Mount, box: Box, host: Host) {
    && (PlaceheldCard(m, box, host) || !TouchesFixed(Parts(m.dest)))
    && ("--dev-bind" <= m.how ==> m.src == Some(m.dest) && IsDev(m.dest))
  }

  ghost predicate PlaceheldCard(m: Mount, box: Box, host: Host) {
    && m.how == "--ro-bind" && m.src.Some? && InOwn(m.src.value, box) && host.emptyFile(Lex(m.src.value))
    && |Parts(m.dest)| == 3 && Parts(m.dest)[..2] == DRI && "card" <= Parts(m.dest)[2]
  }

  ghost predicate MountOk(m: Mount, box: Box, host: Host) {
    SeatOk(m, box, host)
      && (m.how == "--bind" ==> m.src.Some? && (m.src.value == "@CGROUP@" || Lex(m.src.value) in box.rw))
  }

  lemma CardPlace(dest: Bytes)
    requires Numbered(dest, "/dev/dri/card")
    ensures |Parts(dest)| == 3 && Parts(dest)[..2] == DRI && "card" <= Parts(dest)[2]
  {
    var n := dest[9..];
    assert n[4..] == dest[13..] && "card" == "/dev/dri/card"[9..];
    assert Numbered(n, "card");
    DigitsAfter("card", n);
    JoinThree("dev", "dri", n);
    assert dest == "/dev/dri/card"[..9] + n;
    assert "/" + "dev" + "/" + "dri" + "/" + n == dest;
    PartsOfJoin(["dev", "dri", n]);
  }

  lemma HowWords(how: How)
    ensures ("--dev-bind" <= HowWord(how)) == how.Dev? && (HowWord(how) == "--bind") == how.Rw?
      && HowWord(how) != "--overlay-src"
  {
    assert "--ro-bind"[2] == 'r' && "--bind"[2] == 'b' && "--dev-bind"[2] == 'd' && "--overlay-src"[2] == 'o';
  }

  lemma EntryOk(e: Entry, box: Box, host: Host)
    requires Allowed(e, box, host) && Guarded(box.runtime) == box.runtime
    ensures forall m | m in MountsIn(e) :: MountOk(m, box, host)
  {
    match e
    case Bind(how, src, dest) => BindOk(how, src, dest, box, host);
    case Card(file, dest) => CardOk(file, dest, box, host);
    case Cgroup => CgroupOk(box, host);
    case TmpOverlay(p) => OverlayOk(p, p, "--tmp-overlay", box, host);
    case EtcOverlay(etc) =>
      OverlayOk("/etc", "/etc", "--ro-overlay", box, host);
      OverlayOk(etc, "/etc", "--ro-overlay", box, host);
    case _ =>
  }

  lemma BindOk(how: How, src: Bytes, dest: Bytes, box: Box, host: Host)
    requires Passes(src, dest, box) && HowOk(how, src, dest, box) && Guarded(box.runtime) == box.runtime
    ensures MountOk(Mount(HowWord(how), Some(src), dest), box, host)
  {
    HowWords(how);
  }

  lemma CardOk(file: Bytes, dest: Bytes, box: Box, host: Host)
    requires Allowed(Card(file, dest), box, host)
    ensures MountOk(Mount("--ro-bind", Some(file), dest), box, host)
  {
    CardPlace(dest);
    HowWords(Ro);
  }

  lemma CgroupOk(box: Box, host: Host)
    ensures MountOk(Mount("--bind", Some("@CGROUP@"), "/sys/fs/cgroup"), box, host)
  {
    HowWords(Rw);
    CgroupPlace();
  }

  lemma OverlayOk(src: Bytes, dest: Bytes, w: Bytes, box: Box, host: Host)
    requires Passes(src, dest, box) && Guarded(box.runtime) == box.runtime
      && (w == "--tmp-overlay" || w == "--ro-overlay")
    ensures MountOk(Mount("--overlay-src", Some(src), ""), box, host) && MountOk(Mount(w, None, dest), box, host)
  {
    OverlayWords();
  }

  lemma OverlayWords()
    ensures !("--dev-bind" <= "--overlay-src") && "--overlay-src" != "--bind"
    ensures !("--dev-bind" <= "--tmp-overlay") && "--tmp-overlay" != "--bind"
    ensures !("--dev-bind" <= "--ro-overlay") && "--ro-overlay" != "--bind"
  {
    assert "--overlay-src"[2] == 'o' && "--tmp-overlay"[2] == 't' && "--ro-overlay"[2] == 'r' && "--dev-bind"[2] == 'd';
  }

  lemma CgroupPlace()
    ensures !TouchesFixed(Parts("/sys/fs/cgroup"))
  {
    JoinThree("sys", "fs", "cgroup");
    assert "/" + "sys" + "/" + "fs" + "/" + "cgroup" == "/sys/fs/cgroup";
    PartsOfJoin(["sys", "fs", "cgroup"]);
    assert "sys"[0] != "dev"[0] && "sys"[0] != "run"[0];
    Elsewhere(["sys", "fs", "cgroup"]);
  }

  lemma {:induction false} MountsOk(log: seq<Entry>, box: Box, host: Host)
    requires AllAllowed(log, box, host) && Guarded(box.runtime) == box.runtime
    ensures forall m | m in AllMounts(log) :: MountOk(m, box, host)
  {
    if log != [] {
      MountsOk(log[..|log| - 1], box, host);
      EntryOk(log[|log| - 1], box, host);
    }
  }

  /** Whatever was called, the finished command's mounts, as bwrap reads them up to its program, all keep the
      rules. */
  lemma LogIsSafe(log: seq<Entry>, box: Box, host: Host)
    requires AllAllowed(log, box, host) && Readable(log, Bwraps) && Guarded(box.runtime) == box.runtime
    ensures ReadMounts(Flat(log), Bwraps) == Some(AllMounts(log))
    ensures forall m | m in AllMounts(log) :: MountOk(m, box, host)
  {
    LogReads(log, box, host);
    MountsOk(log, box, host);
  }

  lemma LogReads(log: seq<Entry>, box: Box, host: Host)
    requires AllAllowed(log, box, host) && Readable(log, Bwraps)
    ensures ReadMounts(Flat(log), Bwraps) == Some(AllMounts(log))
  {
    if log != [] {
      var init, e := log[..|log| - 1], log[|log| - 1];
      BwrapsKnows();
      LastReads(e, box, host, Bwraps);
      ReadsBack(init, Flat1(e), box, host, Bwraps);
    }
  }

  /** The last call's words, which nothing follows. */
  lemma LastReads(e: Entry, box: Box, host: Host, t: Table)
    requires Allowed(e, box, host) && Knows(t) && (e.Words? ==> Closed(e.ws, t))
    ensures ReadMounts(Flat1(e), t) == Some(MountsIn(e))
  {
    if e.Words? {
      ClosedReads(e.ws, t);
    } else {
      ReadEntry(e, [], box, host, t);
      assert Flat1(e) + [] == Flat1(e) && MountsIn(e) + [] == MountsIn(e);
    }
  }

  lemma {:induction false} ClosedReads(ws: seq<Bytes>, t: Table)
    requires Closed(ws, t) && Knows(t) && !(exists w | w in ws :: IsBind(w))
    ensures ReadMounts(ws, t) == Some([])
    decreases |ws|
  {
    if !IsCommand(ws, t) {
      assert ws[0] in ws;
      ReadWord(ws, [], t);
      var rest := ws[t(ws[0]).value.n + 1..];
      assert ws + [] == ws && rest + [] == rest;
      ClosedReads(rest, t);
    }
  }

  // ---- The command of a box ----

  const SESSION := ["/opt/omabox/share/session.sh"]

  /** The plain words that a box's command has before its program. */
  const UP_WORDS := [
    ["--info-fd", "3", "--unshare-pid", "--unshare-ipc", "--unshare-uts"],
    ["--proc", "/proc", "--dev", "/dev"],
    ["--perms", "0755", "--dir", "/var", "--perms", "01777", "--tmpfs", "/var/tmp", "--perms", "0755", "--dir",
     "/var/lib", "--perms", "0755", "--dir", "/run", "--perms", "0755", "--dir", "/run/user"],
    ["--unshare-cgroup"],
    ["--dir", "/run/systemd/system"],
    ["--block-fd", "4"]]

  /** One of those; an empty folder put over one; or a link into /usr. */
  predicate IsUp(ws: seq<Bytes>) {
    || ws in UP_WORDS
    || (|ws| == 2 && ws[0] == "--tmpfs")
    || (|ws| == 3 && ws[0] == "--symlink")
  }

  /** The calls a box's command is made with: any, with those words, and the session at the end. */
  predicate IsUpLog(log: seq<Entry>) {
    && log != [] && log[|log| - 1] == Words(SESSION)
    && forall i | 0 <= i < |log| - 1 && log[i].Words? :: IsUp(log[i].ws)
  }

  lemma TablesDashed()
    ensures forall w | Bwraps(w).Some? :: "--" <= w
  {
    assert forall i | 0 <= i < |TWO_BINDS| :: "--" <= TWO_BINDS[i];
    assert forall i | 0 <= i < |TWOS| :: "--" <= TWOS[i];
    assert forall i | 0 <= i < |ONES| :: "--" <= ONES[i];
    assert forall i | 0 <= i < |FLAGS| :: "--" <= FLAGS[i];
  }

  lemma OneWord(w: Bytes)
    requires w in ONES
    ensures Bwraps(w) == Some(Kind(1, Nothing))
  {
  }

  const UNSHARES := ["--unshare-pid", "--unshare-ipc", "--unshare-uts", "--unshare-cgroup"]

  predicate Unshares(w: Bytes) {
    |w| > 5 && w[2] == 'u' && w[3] == 'n' && w[5] == 'h'
  }

  /** No other option starts as these do. */
  lemma OnlyFlagsUnshare()
    ensures forall i | 0 <= i < |TWO_BINDS| :: !Unshares(TWO_BINDS[i])
    ensures forall i | 0 <= i < |TWOS| :: !Unshares(TWOS[i])
    ensures forall i | 0 <= i < |ONES| :: !Unshares(ONES[i])
    ensures !Unshares("--overlay-src") && !Unshares("--tmp-overlay") && !Unshares("--ro-overlay")
  {
  }

  lemma UnshareWord(w: Bytes)
    requires w in UNSHARES
    ensures Bwraps(w) == Some(Kind(0, Nothing))
  {
    UnsharesAre(w);
    OnlyFlagsUnshare();
  }

  lemma UnsharesAre(w: Bytes)
    requires w in UNSHARES
    ensures Unshares(w) && w in FLAGS
  {
    assert UNSHARES == [FLAGS[2], FLAGS[3], FLAGS[4], FLAGS[6]];
  }

  lemma SymlinkWord()
    ensures Bwraps("--symlink") == Some(Kind(2, Nothing))
  {
  }

  /** Options of one word each. */
  lemma {:induction false} PairsWhole(ws: seq<Bytes>)
    requires |ws| % 2 == 0 && forall i | 0 <= i < |ws| && i % 2 == 0 :: ws[i] in ONES
    ensures Whole(ws, Bwraps)
  {
    if ws != [] {
      OneWord(ws[0]);
      PairsWhole(ws[2..]);
    }
  }

  lemma {:induction false} UnsharesWhole(ws: seq<Bytes>)
    requires forall i | 0 <= i < |ws| :: ws[i] in UNSHARES
    ensures Whole(ws, Bwraps)
  {
    if ws != [] {
      UnshareWord(ws[0]);
      UnsharesWhole(ws[1..]);
    }
  }

  /** The words of the program's own calls are whole options. */
  lemma UpWhole(ws: seq<Bytes>)
    requires IsUp(ws)
    ensures Whole(ws, Bwraps)
  {
    if ws == UP_WORDS[0] {
      OneWord(ws[0]);
      UnsharesWhole(ws[2..]);
    } else if ws == UP_WORDS[3] {
      UnsharesWhole(ws);
    } else if |ws| == 3 && ws[0] == "--symlink" {
      SymlinkWord();
      assert ws[3..] == [];
    } else {
      PairsWhole(ws);
    }
  }

  /** The session is a program to bwrap, and no option. */
  lemma SessionIsCommand()
    ensures IsCommand(SESSION, Bwraps) && !Whole(SESSION, Bwraps)
  {
    TablesDashed();
    assert SESSION[0][0] == '/';
  }

  /** So whatever a box's command is made with, bwrap reads back exactly the mounts asked for, and all keep the
      rules. */
  lemma UpLogIsSafe(log: seq<Entry>, box: Box, host: Host)
    requires AllAllowed(log, box, host) && IsUpLog(log)
    ensures Readable(log, Bwraps) && ReadMounts(Flat(log), Bwraps) == Some(AllMounts(log))
    ensures Guarded(box.runtime) == box.runtime ==> forall m | m in AllMounts(log) :: MountOk(m, box, host)
  {
    forall i | 0 <= i < |log| - 1 && log[i].Words?
      ensures Whole(log[i].ws, Bwraps)
    {
      UpWhole(log[i].ws);
    }
    SessionIsCommand();
    LogReads(log, box, host);
    if Guarded(box.runtime) == box.runtime {
      MountsOk(log, box, host);
    }
  }

  /** No part of the seat: at, under or above no fixed path of it, and not at or above the runtime folder. */
  ghost predicate OffSeat(src: Bytes, box: Box) {
    !TouchesFixed(Parts(src)) && (box.runtime != "" ==> !(Parts(src) <= Parts(box.runtime)))
  }

  /** Whatever was called, no source is the seat's, in the box's folder or not, because of what that folder may
      be; whatever the runtime folder comes to. */
  lemma {:induction false} NoSeatSource(log: seq<Entry>, box: Box, host: Host)
    requires BoxOk(box) && AllAllowed(log, box, host)
    ensures forall m | m in AllMounts(log) && m.src.Some? && m.src.value != "@CGROUP@" :: OffSeat(m.src.value, box)
  {
    if log != [] {
      NoSeatSource(log[..|log| - 1], box, host);
      EntryOff(log[|log| - 1], box, host);
    }
  }

  lemma EntryOff(e: Entry, box: Box, host: Host)
    requires BoxOk(box) && Allowed(e, box, host)
    ensures forall m | m in MountsIn(e) && m.src.Some? && m.src.value != "@CGROUP@" :: OffSeat(m.src.value, box)
  {
    match e
    case Bind(how, src, dest) => PassesOff(src, dest, box);
    case Card(file, dest) => OwnOff(file, box);
    case TmpOverlay(p) => PassesOff(p, p, box);
    case EtcOverlay(etc) =>
      PassesOff("/etc", "/etc", box);
      PassesOff(etc, "/etc", box);
    case _ =>
  }

  lemma OwnOff(src: Bytes, box: Box)
    requires BoxOk(box) && InOwn(src, box)
    ensures OffSeat(src, box)
  {
    InsideUntouched(Parts(box.own), Parts(src));
  }

  lemma PassesOff(src: Bytes, dest: Bytes, box: Box)
    requires BoxOk(box) && Passes(src, dest, box)
    ensures OffSeat(src, box)
  {
    if InOwn(src, box) {
      OwnOff(src, box);
    }
  }
}
