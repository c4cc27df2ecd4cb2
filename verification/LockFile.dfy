/** The lock file a holder may remove (crates/omabox/src/boxes.rs: lock_file): processes that open the
    path, lock what they opened, and try again when the path is no longer that file. */
module LockFile {
  import opened Options

  type Ino = nat

  /** Where a process is in its call, or after it. */
  datatype Proc =
    | Idle
    | Opening
    | Trying(ino: Ino)
    | Locked(ino: Ino)
    | Seen(ino: Ino, held: Option<Ino>)
    | Compared(ino: Ino, same: bool)
    | Returned(ino: Ino, unlinked: bool)

  /** The file at the path, if any, and the processes. */
  datatype State = State(path: Option<Ino>, procs: seq<Proc>)

  /** What is relied on: that a locker compares the file it locked with the path's, that its look at its own
      file succeeds, and that a holder removes the path at most once. */
  datatype Rules = Rules(compare: bool, fstat: bool, once: bool)

  const SOURCE := Rules(true, true, true)

  datatype Act = Call | Create(ino: Ino) | Flock | GiveUp | Fstat(ok: bool) | Lstat | Go | Skip | Unlink | Release | Die

  predicate IsOpen(x: Proc) {
    x.Trying? || HasLock(x)
  }

  predicate HasLock(x: Proc) {
    x.Locked? || x.Seen? || x.Compared? || x.Returned?
  }

  predicate InUse(s: State, ino: Ino) {
    s.path == Some(ino) || exists x | x in s.procs :: IsOpen(x) && x.ino == ino
  }

  predicate Taken(s: State, ino: Ino) {
    exists x | x in s.procs :: HasLock(x) && x.ino == ino
  }

  predicate May(r: Rules, s: State, x: Proc, act: Act) {
    match act
    case Call => x.Idle?
    case Create(ino) => x.Opening? && (s.path == Some(ino) || (s.path.None? && !InUse(s, ino)))
    case Flock => x.Trying? && !Taken(s, x.ino)
    case GiveUp => x.Opening? || x.Trying?
    case Fstat(ok) => x.Locked? && (r.fstat ==> ok)
    case Lstat => x.Seen?
    case Go => x.Compared?
    case Skip => x.Locked? && !r.compare
    case Unlink => x.Returned? && (r.once ==> !x.unlinked)
    case Release => x.Returned?
    case Die => !x.Idle?
  }

  /** Where the process is then. */
  function Moved(r: Rules, s: State, x: Proc, act: Act): Proc
    requires May(r, s, x, act)
  {
    match act
    case Call => Opening
    case Create(ino) => Trying(ino)
    case Flock => Locked(x.ino)
    case GiveUp => Idle
    case Fstat(ok) => Seen(x.ino, if ok then Some(x.ino) else None)
    case Lstat => Compared(x.ino, x.held == s.path)
    case Go => if x.same then Returned(x.ino, false) else Opening
    case Skip => Returned(x.ino, false)
    case Unlink => Returned(x.ino, true)
    case Release => Idle
    case Die => Idle
  }

  function PathAfter(path: Option<Ino>, act: Act): Option<Ino> {
    match act
    case Create(ino) => Some(ino)
    case Unlink => None
    case _ => path
  }

  function Do(r: Rules, s: State, p: nat, act: Act): Option<State> {
    if p < |s.procs| && May(r, s, s.procs[p], act)
    then Some(State(PathAfter(s.path, act), s.procs[p := Moved(r, s, s.procs[p], act)]))
    else None
  }

  type Move = (nat, Act)

  /** The state after these moves, of any processes in any order; None when one of them may not be. */
  function Run(r: Rules, s: State, moves: seq<Move>): Option<State> {
    if moves == [] then Some(s)
    else
      var before := Run(r, s, moves[..|moves| - 1]);
      var (p, act) := moves[|moves| - 1];
      if before.None? then None else Do(r, before.value, p, act)
  }

  predicate Fresh(s: State) {
    forall x | x in s.procs :: x == Idle
  }

  // ---- Mutual exclusion ----

  predicate Holder(x: Proc) {
    x.Returned? && !x.unlinked
  }

  /** At most one process has returned and neither removed the path nor let go; the path is its file. */
  predicate Safe(s: State) {
    && (forall p, q | 0 <= p < |s.procs| && 0 <= q < |s.procs| :: Holder(s.procs[p]) && Holder(s.procs[q]) ==> p == q)
    && (forall p | 0 <= p < |s.procs| :: Holder(s.procs[p]) ==> s.path == Some(s.procs[p].ino))
  }

  /** A process that the path is known to stay put for. */
  predicate Sure(x: Proc) {
    Holder(x) || (x.Compared? && x.same)
  }

  ghost predicate Kept(s: State) {
    && (forall p, q | 0 <= p < q < |s.procs| ::
          HasLock(s.procs[p]) && HasLock(s.procs[q]) ==> s.procs[p].ino != s.procs[q].ino)
    && (forall p | 0 <= p < |s.procs| :: Sure(s.procs[p]) ==> s.path == Some(s.procs[p].ino))
    && (forall p | 0 <= p < |s.procs| :: s.procs[p].Seen? ==> s.procs[p].held == Some(s.procs[p].ino))
  }

  lemma KeptOn(s: State, p: nat, act: Act)
    requires Kept(s) && Do(SOURCE, s, p, act).Some?
    ensures Kept(Do(SOURCE, s, p, act).value)
  {
    var x, s' := s.procs[p], Do(SOURCE, s, p, act).value;
    forall q | 0 <= q < |s.procs| && q != p
      ensures HasLock(s'.procs[p]) && HasLock(s'.procs[q]) ==> s'.procs[p].ino != s'.procs[q].ino
      ensures Sure(s'.procs[q]) ==> s'.path == Some(s'.procs[q].ino)
    {
      assert s.procs[q] in s.procs;
    }
  }

  /** In every interleaving of any number of processes, the lock has one holder at most, and the path is the
      file it locked. */
  lemma {:induction false} OneHolder(s: State, moves: seq<Move>)
    requires Fresh(s) && Run(SOURCE, s, moves).Some?
    ensures Kept(Run(SOURCE, s, moves).value) && Safe(Run(SOURCE, s, moves).value)
  {
    if moves == [] {
      forall p | 0 <= p < |s.procs|
        ensures s.procs[p] == Idle
      {
        assert s.procs[p] in s.procs;
      }
    } else {
      var n := |moves| - 1;
      OneHolder(s, moves[..n]);
      KeptOn(Run(SOURCE, s, moves[..n]).value, moves[n].0, moves[n].1);
    }
  }

  /** While there is a holder, a newcomer opens its file and cannot lock it. */
  lemma NewcomerWaits(s: State, p: nat, q: nat, ino: Ino, s': State)
    requires Kept(s) && p < |s.procs| && Holder(s.procs[p]) && q < |s.procs| && p != q
    requires Do(SOURCE, s, q, Create(ino)) == Some(s')
    ensures Do(SOURCE, s', q, Flock).None?
  {
    assert s'.procs[p] in s'.procs && HasLock(s'.procs[p]);
  }

  // ---- Each of the rules is needed ----

  /** Safe in every run of any number of processes. */
  ghost predicate AlwaysSafe(r: Rules) {
    forall s, moves :: Fresh(s) && Run(r, s, moves).Some? ==> Safe(Run(r, s, moves).value)
  }

  /** One more move of a run. */
  lemma Play(r: Rules, start: State, moves: seq<Move>, s: State, p: nat, act: Act)
    returns (moves': seq<Move>, s': State)
    requires Run(r, start, moves) == Some(s) && p < |s.procs| && May(r, s, s.procs[p], act)
    ensures moves' == moves + [(p, act)]
    ensures Run(r, start, moves') == Some(s')
      && s' == State(PathAfter(s.path, act), s.procs[p := Moved(r, s, s.procs[p], act)])
  {
    moves', s' := moves + [(p, act)], Do(r, s, p, act).value;
    assert moves'[..|moves|] == moves;
  }

  /** p, which has the path's file or makes it, goes through its whole call. */
  lemma PlayCall(r: Rules, start: State, moves: seq<Move>, s: State, p: nat, ino: Ino)
    returns (moves': seq<Move>, s': State)
    requires Run(r, start, moves) == Some(s) && p < |s.procs| && s.procs[p] == Idle
    requires (s.path == Some(ino) || (s.path.None? && !InUse(s, ino))) && !Taken(s, ino)
    ensures Run(r, start, moves') == Some(s') && s' == State(Some(ino), s.procs[p := Returned(ino, false)])
  {
    var m, t := Play(r, start, moves, s, p, Call);
    Others(s, p, Opening, ino);
    m, t := Play(r, start, m, t, p, Create(ino));
    Others(s, p, Trying(ino), ino);
    assert t == State(Some(ino), s.procs[p := Trying(ino)]);
    m, t := Locks(r, start, m, t, p);
    moves', s' := Play(r, start, m, t, p, Go);
  }

  lemma Others(s: State, p: nat, x: Proc, ino: Ino)
    requires p < |s.procs| && !HasLock(x)
    ensures Taken(State(s.path, s.procs[p := x]), ino) ==> Taken(s, ino)
    ensures Taken(State(Some(ino), s.procs[p := x]), ino) ==> Taken(s, ino)
    ensures InUse(State(s.path, s.procs[p := x]), ino) ==> InUse(s, ino) || (IsOpen(x) && x.ino == ino)
  {
    forall q | 0 <= q < |s.procs| && q != p
      ensures s.procs[q] in s.procs
    {
    }
  }

  /** A holder and a waiter on its file, which the holder then removes and lets go of. */
  lemma RemovedUnderAWaiter(r: Rules) returns (start: State, moves: seq<Move>, s: State)
    ensures Fresh(start) && Run(r, start, moves) == Some(s) && s == State(None, [Idle, Trying(1)])
  {
    start := State(None, [Idle, Idle]);
    moves, s := PlayCall(r, start, [], start, 0, 1);
    moves, s := Play(r, start, moves, s, 1, Call);
    moves, s := Play(r, start, moves, s, 1, Create(1));
    moves, s := Play(r, start, moves, s, 0, Unlink);
    moves, s := Play(r, start, moves, s, 0, Release);
  }

  /** Without the comparison, the waiter holds a file that is gone, beside another holder. */
  lemma CompareNeeded(r: Rules)
    requires !r.compare
    ensures !AlwaysSafe(r)
  {
    var start, moves, s := RemovedUnderAWaiter(r);
    moves, s := PlayCall(r, start, moves, s, 0, 2);
    moves, s := Play(r, start, moves, s, 1, Flock);
    moves, s := Play(r, start, moves, s, 1, Skip);
    assert Holder(s.procs[0]) && Holder(s.procs[1]);
  }

  /** When a locker's look at its own file may fail, no file and no file compare as the same. */
  lemma FstatNeeded(r: Rules)
    requires !r.fstat
    ensures !AlwaysSafe(r)
  {
    var start, moves, s := RemovedUnderAWaiter(r);
    moves, s := Play(r, start, moves, s, 1, Flock);
    moves, s := Play(r, start, moves, s, 1, Fstat(false));
    moves, s := Play(r, start, moves, s, 1, Lstat);
    moves, s := Play(r, start, moves, s, 1, Go);
    assert Holder(s.procs[1]) && s.path == None;
  }

  /** A holder that removes the path twice can remove the next holder's file. */
  lemma OnceNeeded(r: Rules)
    requires !r.once
    ensures !AlwaysSafe(r)
  {
    var start := State(None, [Idle, Idle]);
    var moves, s := PlayCall(r, start, [], start, 0, 1);
    moves, s := Play(r, start, moves, s, 0, Unlink);
    moves, s := PlayCall(r, start, moves, s, 1, 2);
    moves, s := Play(r, start, moves, s, 0, Unlink);
    assert Holder(s.procs[1]) && s.path == None;
  }

  /** The lock is safe in every run exactly when all three rules are kept. */
  lemma SafeExactly(r: Rules)
    ensures AlwaysSafe(r) <==> r == SOURCE
  {
    if r == SOURCE {
      forall s, moves | Fresh(s) && Run(r, s, moves).Some?
        ensures Safe(Run(r, s, moves).value)
      {
        OneHolder(s, moves);
      }
    } else if !r.compare {
      CompareNeeded(r);
    } else if !r.fstat {
      FstatNeeded(r);
    } else {
      OnceNeeded(r);
    }
  }

  // ---- A call gets through when it is left alone ----

  predicate By(moves: seq<Move>, p: nat) {
    forall i | 0 <= i < |moves| :: moves[i].0 == p
  }

  /** From wherever a call is, with no one else holding a lock, its own steps end in its return: at most one
      file is found to be gone. */
  lemma GetsThrough(s: State, p: nat) returns (moves: seq<Move>)
    requires p < |s.procs| && (s.procs[p].Opening? || s.procs[p].Trying?)
    requires forall q | 0 <= q < |s.procs| && q != p :: !HasLock(s.procs[q])
    ensures |moves| <= 9 && By(moves, p)
    ensures Run(SOURCE, s, moves).Some? && Holder(Run(SOURCE, s, moves).value.procs[p])
  {
    var t := s;
    moves := [];
    if s.procs[p].Trying? {
      moves, t := Locks(SOURCE, s, moves, t, p);
      moves, t := Play(SOURCE, s, moves, t, p, Go);
    }
    if !Holder(t.procs[p]) {
      moves, t := OpensAnew(s, moves, t, p);
    }
  }

  lemma OpensAnew(start: State, moves: seq<Move>, s: State, p: nat) returns (moves': seq<Move>, s': State)
    requires Run(SOURCE, start, moves) == Some(s) && p < |s.procs| && s.procs[p].Opening?
    requires forall q | 0 <= q < |s.procs| && q != p :: !HasLock(s.procs[q])
    ensures Run(SOURCE, start, moves') == Some(s') && |s'.procs| == |s.procs| && Holder(s'.procs[p])
    ensures |moves'| == |moves| + 5 && (By(moves, p) ==> By(moves', p))
  {
    var ino := if s.path.Some? then s.path.value else Unused(s);
    moves', s' := Play(SOURCE, start, moves, s, p, Create(ino));
    moves', s' := Locks(SOURCE, start, moves', s', p);
    moves', s' := Play(SOURCE, start, moves', s', p, Go);
  }

  /** A file opened is locked and compared with the path's. */
  lemma Locks(r: Rules, start: State, moves: seq<Move>, s: State, p: nat) returns (moves': seq<Move>, s': State)
    requires Run(r, start, moves) == Some(s) && p < |s.procs| && s.procs[p].Trying? && !Taken(s, s.procs[p].ino)
    ensures Run(r, start, moves') == Some(s')
    ensures s' == State(s.path, s.procs[p := Compared(s.procs[p].ino, s.path == Some(s.procs[p].ino))])
    ensures moves' == moves + [(p, Flock), (p, Fstat(true)), (p, Lstat)]
  {
    moves', s' := Play(r, start, moves, s, p, Flock);
    moves', s' := Play(r, start, moves', s', p, Fstat(true));
    moves', s' := Play(r, start, moves', s', p, Lstat);
  }

  /** A number no file has that is at the path or open. */
  function Unused(s: State): (ino: Ino)
    ensures !InUse(s, ino)
  {
    AboveAll(s.procs);
    Above(s.procs) + if s.path.Some? then s.path.value + 1 else 0
  }

  function Above(procs: seq<Proc>): nat {
    if procs == [] then 0
    else
      var x := procs[|procs| - 1];
      Above(procs[..|procs| - 1]) + if IsOpen(x) then x.ino + 1 else 0
  }

  lemma {:induction false} AboveAll(procs: seq<Proc>)
    ensures forall x | x in procs :: IsOpen(x) ==> x.ino < Above(procs)
  {
    if procs != [] {
      AboveAll(procs[..|procs| - 1]);
    }
  }
}
