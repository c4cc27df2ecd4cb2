/** The wait for a screen that holds still or changes: its loop over several outputs
    (tools/still/still.c). Times are milliseconds since the first frames; whether a frame is a
    significant change comes with the frame. */
module StillWait {
  import opened Options

  datatype Mode = Still | Change | Settle

  datatype ConfigOf = Config(mode: Mode, quiet: nat, start: nat, timeout: nat, first: nat)

  /** What was asked for: every time is at least one. */
  type Config = c: ConfigOf | c.quiet >= 1 && c.start >= 1 && c.timeout >= 1 && c.first >= 1
    witness Config(Still, 1, 1, 1, 1)

  // ---- The state ----

  /** An output's frame: asked for at a time, plain or with damage; come, a significant change or not; or
      refused. */
  datatype Frame = NoFrame | Asked(plain: bool, at: nat) | Come(plain: bool, at: nat, sig: bool) | Failed

  /** An output. copied: when the plain copy of this round that was compared was asked for. */
  datatype Output = Output(watched: bool, frame: Frame, copied: Option<nat>)

  datatype Answer = Satisfied | Unsatisfied | Unknown

  /** A verification round: when its copies were asked for, the deadline then, how many significant changes
      there were and the last of them, and whether a copy was refused in it. */
  datatype Round = Round(since: nat, due: nat, sigs: nat, last: Option<nat>, refused: bool)

  datatype State = State(outs: seq<Output>, verifying: bool, failures: nat, first: Option<nat>, last: Option<nat>,
                         round: Round, now: nat, rounds: nat, sigs: nat, end: Option<Answer>)

  function Ended(s: State, a: Answer): State {
    s.(end := Some(a))
  }

  /** The time of the last significant change, or of the first frames. */
  function Since(last: Option<nat>): nat {
    if last.Some? then last.value else 0
  }

  /** The condition as it stands at time t. */
  predicate Met(c: Config, last: Option<nat>, t: nat) {
    match c.mode
    case Change => last.Some?
    case Still => t - Since(last) >= c.quiet
    case Settle => last.Some? && t - last.value >= c.quiet
  }

  function Least(a: nat, b: nat): nat {
    if a < b then a else b
  }

  /** When the answer can next change without a new frame. */
  function Deadline(c: Config, last: Option<nat>): nat {
    if c.mode.Still? || (c.mode.Settle? && last.Some?) then Least(c.timeout, Since(last) + c.quiet)
    else if c.mode.Settle? then Least(c.timeout, c.start)
    else c.timeout
  }

  function Significant(s: State, t: nat): State {
    s.(first := if s.first.None? then Some(t) else s.first, last := Some(t), sigs := s.sigs + 1)
  }

  /** Frames asked for of every watched output. */
  function AskAll(outs: seq<Output>, plain: bool, at: nat): seq<Output> {
    seq(|outs|, i requires 0 <= i < |outs| =>
      if outs[i].watched then outs[i].(frame := Asked(plain, at), copied := if plain then None else outs[i].copied)
        else outs[i])
  }

  function Start(n: nat): State {
    State(AskAll(seq(n, _ => Output(true, NoFrame, None)), false, 0), false, 0, None, None,
      Round(0, 0, 0, None, false), 0, 0, 0, None)
  }

  // ---- A pass over the outputs ----

  function WithFrame(s: State, i: nat, frame: Frame): State
    requires i < |s.outs|
  {
    s.(outs := s.outs[i := s.outs[i].(frame := frame)])
  }

  /** Output i's frame taken in at time t: a refused one is asked for again, plainly; one that came is
      compared, and while verifying it is the output's last until all are in. */
  function TakeIn(c: Config, s: State, i: nat, t: nat): State
    requires i < |s.outs|
  {
    var o := s.outs[i];
    if s.end.Some? || !o.watched then s
    else if o.frame.Failed? then
      var s' := s.(failures := s.failures + 1, round := if s.verifying then s.round.(refused := true) else s.round);
      if s'.failures > 3 then Ended(s', Unknown) else WithFrame(s', i, Asked(true, t))
    else if o.frame.Come? then
      var s' := if o.frame.sig then Significant(s, t) else s;
      var s'' := s'.(failures := 0,
                     outs := s.outs[i := o.(frame := if s.verifying || (c.mode.Change? && s'.last.Some?) then NoFrame
                                                     else Asked(false, t),
                                            copied := if s.verifying && o.frame.plain then Some(o.frame.at)
                                                      else o.copied)]);
      if c.mode.Change? && s'.last.Some? then Ended(s'', Satisfied) else s''
    else s
  }

  /** The first n outputs' frames taken in. */
  function TakeAll(c: Config, s: State, n: nat, t: nat): (r: State)
    requires n <= |s.outs|
    ensures |r.outs| == |s.outs|
  {
    if n == 0 then s else TakeIn(c, TakeAll(c, s, n - 1, t), n - 1, t)
  }

  predicate Arrived(s: State) {
    exists i | 0 <= i < |s.outs| :: s.outs[i].watched && (s.outs[i].frame.Come? || s.outs[i].frame.Failed?)
  }

  predicate Pending(s: State) {
    exists i | 0 <= i < |s.outs| :: s.outs[i].watched && s.outs[i].frame.Asked?
  }

  /** The end of a verification round at time t: an answer, or the watch goes on. */
  function Concluded(c: Config, s: State, t: nat): State {
    var s' := s.(verifying := false);
    if Met(c, s.last, t) then Ended(s', Satisfied)
    else if t >= c.timeout || (c.mode.Settle? && s.last.None? && t >= c.start) then Ended(s', Unsatisfied)
    else s'.(outs := AskAll(s.outs, false, t))
  }

  /** Before an answer of no change: a plain copy of each output is asked for, at time u. */
  function Begun(c: Config, s: State, u: nat): State {
    s.(verifying := true, outs := AskAll(s.outs, true, u),
      round := Round(u, Deadline(c, s.last), s.sigs, s.last, false), rounds := s.rounds + 1)
  }

  /** One turn of the loop at time t; u is when copies are asked for, if they are. */
  function Turned(c: Config, s: State, t: nat, u: nat): State {
    var s' := TakeAll(c, s.(now := t), |s.outs|, t);
    if s'.end.Some? then s'
    else if s'.verifying && !Pending(s') then Concluded(c, s', t)
    else if Arrived(s) then s'
    else if !s'.verifying && t >= Deadline(c, s'.last) then Begun(c, s', u).(now := u)
    else s'
  }

  // ---- Runs ----

  /** What happens: a turn of the loop; a frame comes, or is refused; an output is unplugged; or the wait for
      copies runs out. */
  datatype Event =
    | Turn(t: nat, u: nat)
    | FrameCame(i: nat, sig: bool)
    | FrameFailed(i: nat)
    | Gone(i: nat, t: nat)
    | Waited(t: nat)

  function AfterGone(s: State, i: nat, t: nat): State
    requires i < |s.outs|
  {
    var s' := Significant(s.(now := t, outs := s.outs[i := s.outs[i].(watched := false, frame := NoFrame)]), t);
    if exists j | 0 <= j < |s'.outs| :: s'.outs[j].watched then s' else Ended(s', Unknown)
  }

  /** The events that can be in a state. */
  predicate Can(s: State, e: Event) {
    match e
    case Turn(t, u) => s.now <= t <= u
    case FrameCame(i, sig) => i < |s.outs| && s.outs[i].frame.Asked?
    case FrameFailed(i) => i < |s.outs| && s.outs[i].frame.Asked?
    case Gone(i, t) => i < |s.outs| && s.outs[i].watched && s.now <= t
    case Waited(t) => s.now <= t
  }

  function After(c: Config, s: State, e: Event): State
    requires Can(s, e)
  {
    match e
    case Turn(t, u) => Turned(c, s, t, u)
    case FrameCame(i, sig) => WithFrame(s, i, Come(s.outs[i].frame.plain, s.outs[i].frame.at, sig))
    case FrameFailed(i) => WithFrame(s, i, Failed)
    case Gone(i, t) => AfterGone(s, i, t)
    case Waited(t) =>
      if s.verifying && t - s.round.since > c.first && Pending(s) then Ended(s.(now := t), Unknown) else s.(now := t)
  }

  /** The state after these events; None when one of them cannot be. Nothing is after the answer. */
  function Run(c: Config, s: State, events: seq<Event>): Option<State> {
    if events == [] then Some(s)
    else
      var before := Run(c, s, events[..|events| - 1]);
      if before.None? || before.value.end.Some? || !Can(before.value, events[|events| - 1]) then None
      else Some(After(c, before.value, events[|events| - 1]))
  }

  // ---- What every run keeps ----

  /** A copy asked for in the round: with the others, unless one was refused. */
  predicate OnTime(r: Round, at: nat) {
    r.since <= at && (!r.refused ==> at == r.since)
  }

  /** While verifying, each watched output's frame is a plain copy asked for in this round, or was. */
  ghost predicate InRound(s: State, i: nat)
    requires i < |s.outs|
  {
    var o := s.outs[i];
    o.watched ==>
      match o.frame
      case NoFrame => o.copied.Some? && OnTime(s.round, o.copied.value)
      case Asked(plain, at) => plain && OnTime(s.round, at)
      case Come(plain, at, sig) => plain && OnTime(s.round, at)
      case Failed => true
  }

  /** A round began at its deadline or after it, and what changed in it came after. */
  ghost predicate RoundOk(c: Config, s: State) {
    && s.round.due == Deadline(c, s.round.last) <= s.round.since <= s.now
    && s.round.sigs <= s.sigs && (s.round.sigs == s.sigs ==> s.last == s.round.last)
    && (s.round.sigs < s.sigs ==> s.last.Some? && s.round.since <= s.last.value)
  }

  ghost predicate Kept(c: Config, s: State) {
    && (s.last.Some? <==> s.sigs > 0) && (s.last.Some? ==> s.last.value <= s.now)
    && s.rounds <= s.sigs + 1
    && (s.verifying ==> RoundOk(c, s) && s.rounds <= s.round.sigs + 1 && forall i | 0 <= i < |s.outs| :: InRound(s, i))
    && (!s.verifying && s.end.None? ==> s.rounds <= s.sigs)
    && (s.end == Some(Satisfied) && c.mode.Change? ==> s.last.Some?)
    && (s.end == Some(Satisfied) && !c.mode.Change? ==> Quiet(c, s) && Checked(c, s))
    && (s.end == Some(Unsatisfied) ==> TimeUp(c, s) && Checked(c, s))
  }

  /** No significant change for a quiet time; one, when it is to settle. */
  predicate Quiet(c: Config, s: State) {
    s.now - Since(s.last) >= c.quiet && (c.mode.Settle? ==> s.last.Some?)
  }

  predicate TimeUp(c: Config, s: State) {
    !Met(c, s.last, s.now) && (s.now >= c.timeout || (c.mode.Settle? && s.last.None? && s.now >= c.start))
  }

  /** What an answer of no change rests on: of every output still watched a plain copy was compared that was
      asked for in the last round, which began at its deadline or after. */
  ghost predicate Checked(c: Config, s: State) {
    RoundOk(c, s) && forall i | 0 <= i < |s.outs| && s.outs[i].watched ::
      s.outs[i].copied.Some? && OnTime(s.round, s.outs[i].copied.value)
  }

  /** One output's frame and copy changed, to what a round may have. */
  lemma RoundKept(s: State, s': State, i: nat)
    requires i < |s.outs| == |s'.outs| && s'.round.since == s.round.since && (s.round.refused ==> s'.round.refused)
    requires forall j | 0 <= j < |s.outs| && j != i :: s'.outs[j] == s.outs[j]
    requires InRound(s', i) && forall j | 0 <= j < |s.outs| :: InRound(s, j)
    ensures forall j | 0 <= j < |s'.outs| :: InRound(s', j)
  {
    forall j | 0 <= j < |s'.outs|
      ensures InRound(s', j)
    {
      assert InRound(s, j);
    }
  }

  lemma TakeInKept(c: Config, s: State, i: nat, t: nat)
    requires Kept(c, s) && i < |s.outs| && s.now == t && s.end.None?
    ensures Kept(c, TakeIn(c, s, i, t)) && TakeIn(c, s, i, t).end != Some(Unsatisfied)
      && (TakeIn(c, s, i, t).end == Some(Satisfied) ==> c.mode.Change?)
  {
    TakeInAt(c, s, i, t);
    if s.verifying {
      assert InRound(s, i);
      RoundKept(s, TakeIn(c, s, i, t), i);
    }
  }

  /** Whether a pass has dealt with output i: nothing of it has come that is not taken in. */
  predicate Settled(s: State, i: nat)
    requires i < |s.outs|
  {
    s.outs[i].watched ==> s.outs[i].frame.NoFrame? || s.outs[i].frame.Asked?
  }

  lemma TakeInAt(c: Config, s: State, i: nat, t: nat)
    requires i < |s.outs|
    ensures var r := TakeIn(c, s, i, t);
      && |r.outs| == |s.outs| && (forall j | 0 <= j < |s.outs| && j != i :: r.outs[j] == s.outs[j])
      && r.now == s.now && r.verifying == s.verifying && r.rounds == s.rounds && (r.end.None? ==> Settled(r, i))
  {
  }

  lemma {:induction false} TakeAllKept(c: Config, s: State, n: nat, t: nat)
    requires Kept(c, s) && n <= |s.outs| && s.now == t && s.end.None?
    ensures var r := TakeAll(c, s, n, t);
      && Kept(c, r) && r.now == t && r.verifying == s.verifying && r.rounds == s.rounds && r.end != Some(Unsatisfied)
        && (r.end == Some(Satisfied) ==> c.mode.Change?)
      && (r.end.None? ==> forall i | 0 <= i < n :: Settled(r, i))
  {
    if n > 0 {
      TakeAllKept(c, s, n - 1, t);
      var r := TakeAll(c, s, n - 1, t);
      if r.end.None? {
        TakeInKept(c, r, n - 1, t);
        TakeInAt(c, r, n - 1, t);
        var r' := TakeAll(c, s, n, t);
        forall i | 0 <= i < n && r'.end.None?
          ensures Settled(r', i)
        {
          assert i < n - 1 ==> Settled(r, i);
        }
      }
    }
  }

  /** A round without a new significant change ends the run. */
  lemma RoundEnds(c: Config, s: State, t: nat)
    requires RoundOk(c, s) && s.now == t && s.sigs == s.round.sigs
    ensures Concluded(c, s, t).end.Some?
  {
  }

  lemma ConcludedKept(c: Config, s: State, t: nat)
    requires Kept(c, s) && s.verifying && s.end.None? && s.now == t && !Pending(s)
    requires forall i | 0 <= i < |s.outs| :: Settled(s, i)
    ensures Kept(c, Concluded(c, s, t))
  {
    forall i | 0 <= i < |s.outs| && s.outs[i].watched
      ensures s.outs[i].copied.Some? && OnTime(s.round, s.outs[i].copied.value)
    {
      assert Settled(s, i) && InRound(s, i);
    }
    if s.sigs == s.round.sigs {
      RoundEnds(c, s, t);
    }
  }

  lemma BegunKept(c: Config, s: State, t: nat, u: nat)
    requires Kept(c, s) && !s.verifying && s.end.None? && s.now == t <= u && Deadline(c, s.last) <= t
    ensures Kept(c, Begun(c, s, u).(now := u))
  {
    var s' := Begun(c, s, u).(now := u);
    forall i | 0 <= i < |s'.outs|
      ensures InRound(s', i)
    {
    }
  }

  lemma TurnedKept(c: Config, s: State, t: nat, u: nat)
    requires Kept(c, s) && s.end.None? && s.now <= t <= u
    ensures Kept(c, Turned(c, s, t, u))
  {
    var s0 := s.(now := t);
    assert Kept(c, s0) by {
      LaterKept(c, s, t);
    }
    TakeAllKept(c, s0, |s.outs|, t);
    var s' := TakeAll(c, s0, |s.outs|, t);
    if s'.end.None? {
      if s'.verifying && !Pending(s') {
        ConcludedKept(c, s', t);
      } else if !Arrived(s) && !s'.verifying && t >= Deadline(c, s'.last) {
        BegunKept(c, s', t, u);
      }
    }
  }

  lemma LaterKept(c: Config, s: State, t: nat)
    requires Kept(c, s) && s.end.None? && s.now <= t
    ensures Kept(c, s.(now := t))
  {
    if s.verifying {
      forall i | 0 <= i < |s.outs|
        ensures InRound(s.(now := t), i)
      {
        assert InRound(s, i);
      }
    }
  }

  lemma EndedKept(c: Config, s: State)
    requires Kept(c, s) && s.end.None?
    ensures Kept(c, Ended(s, Unknown))
  {
    if s.verifying {
      forall i | 0 <= i < |s.outs|
        ensures InRound(Ended(s, Unknown), i)
      {
        assert InRound(s, i);
      }
    }
  }

  lemma FrameKept(c: Config, s: State, i: nat, frame: Frame)
    requires Kept(c, s) && s.end.None? && i < |s.outs| && s.outs[i].frame.Asked?
    requires frame.Failed? || (frame.Come? && frame.plain == s.outs[i].frame.plain && frame.at == s.outs[i].frame.at)
    ensures Kept(c, WithFrame(s, i, frame))
  {
    if s.verifying {
      var s' := WithFrame(s, i, frame);
      forall j | 0 <= j < |s'.outs|
        ensures InRound(s', j)
      {
        assert InRound(s, j);
      }
    }
  }

  lemma GoneKept(c: Config, s: State, i: nat, t: nat)
    requires Kept(c, s) && s.end.None? && i < |s.outs| && s.now <= t
    ensures Kept(c, AfterGone(s, i, t))
  {
    if s.verifying {
      var s' := AfterGone(s, i, t);
      forall j | 0 <= j < |s'.outs|
        ensures InRound(s', j)
      {
        assert InRound(s, j);
      }
    }
  }

  lemma AfterKept(c: Config, s: State, e: Event)
    requires Kept(c, s) && s.end.None? && Can(s, e)
    ensures Kept(c, After(c, s, e))
  {
    match e
    case Turn(t, u) => TurnedKept(c, s, t, u);
    case FrameCame(i, sig) => FrameKept(c, s, i, After(c, s, e).outs[i].frame);
    case FrameFailed(i) => FrameKept(c, s, i, Failed);
    case Gone(i, t) => GoneKept(c, s, i, t);
    case Waited(t) =>
      LaterKept(c, s, t);
      EndedKept(c, s.(now := t));
  }

  /** Every run keeps this: in particular, rounds are at most the significant changes and one more, and
      an answer of no change rests on what Quiet, TimeUp and Checked say. */
  lemma {:induction false} RunKept(c: Config, n: nat, events: seq<Event>)
    requires Run(c, Start(n), events).Some?
    ensures Kept(c, Run(c, Start(n), events).value)
  {
    if events != [] {
      var m := |events| - 1;
      RunKept(c, n, events[..m]);
      AfterKept(c, Run(c, Start(n), events[..m]).value, events[m]);
    }
  }

  /** Rounds of plain copies are at most one more than the significant changes. */
  lemma RoundsAreFew(c: Config, n: nat, events: seq<Event>)
    requires Run(c, Start(n), events).Some?
    ensures var s := Run(c, Start(n), events).value; s.rounds <= s.sigs + 1
  {
    RunKept(c, n, events);
  }

  /** An answer of no change comes only once a plain copy of every output still watched was compared. */
  lemma AnswersAreChecked(c: Config, n: nat, events: seq<Event>)
    requires Run(c, Start(n), events).Some?
    ensures var s := Run(c, Start(n), events).value;
      && (s.end == Some(Satisfied) ==> if c.mode.Change? then s.last.Some? else Quiet(c, s) && Checked(c, s))
      && (s.end == Some(Unsatisfied) ==> TimeUp(c, s) && Checked(c, s))
  {
    RunKept(c, n, events);
  }

  // ---- Frames are always waited for ----

  /** Between rounds a frame is asked for of every output watched, or has come. */
  ghost predicate Waits(s: State) {
    s.end.None? && !s.verifying ==> forall i | 0 <= i < |s.outs| && s.outs[i].watched :: !s.outs[i].frame.NoFrame?
  }

  lemma {:induction false} TakeAllWaits(c: Config, s: State, n: nat, t: nat)
    requires n <= |s.outs| && s.end.None? && Waits(s)
    ensures Waits(TakeAll(c, s, n, t)) && TakeAll(c, s, n, t).verifying == s.verifying
  {
    if n > 0 {
      TakeAllWaits(c, s, n - 1, t);
      var r := TakeAll(c, s, n - 1, t);
      if r.end.None? && !s.verifying {
        var r' := TakeIn(c, r, n - 1, t);
        TakeInAt(c, r, n - 1, t);
        forall i | 0 <= i < |r'.outs| && r'.outs[i].watched && r'.end.None?
          ensures !r'.outs[i].frame.NoFrame?
        {
          assert i != n - 1 ==> r'.outs[i] == r.outs[i];
        }
      }
    }
  }

  /** After every run the loop waits for a frame of each, or for the copies of a round. */
  lemma {:induction false} RunWaits(c: Config, n: nat, events: seq<Event>)
    requires Run(c, Start(n), events).Some?
    ensures Waits(Run(c, Start(n), events).value)
  {
    if events != [] {
      var m := |events| - 1;
      RunWaits(c, n, events[..m]);
      WaitsAfter(c, Run(c, Start(n), events[..m]).value, events[m]);
    }
  }

  lemma WaitsAfter(c: Config, s: State, e: Event)
    requires Waits(s) && s.end.None? && Can(s, e)
    ensures Waits(After(c, s, e))
  {
    if e.Turn? {
      TakeAllWaits(c, s.(now := e.t), |s.outs|, e.t);
    }
  }

  // ---- When an answer comes ----

  /** What has come of output i is a frame that was no significant change, or nothing. */
  predicate Calm(s: State, i: nat)
    requires i < |s.outs|
  {
    var o := s.outs[i];
    o.watched ==> !o.frame.Failed? && (o.frame.Come? ==> !o.frame.sig)
  }

  /** Nothing refused, and no significant change, leaves a pass's changes and answer as they were. */
  lemma {:induction false} TakeCalm(c: Config, s: State, n: nat, t: nat)
    requires n <= |s.outs| && s.end.None? && (forall i | 0 <= i < n :: Calm(s, i)) && (c.mode.Change? ==> s.last.None?)
    ensures var r := TakeAll(c, s, n, t);
      && r.end.None? && r.last == s.last && r.sigs == s.sigs && r.round == s.round && r.verifying == s.verifying
      && r.now == s.now && r.rounds == s.rounds && |r.outs| == |s.outs|
      && (forall i | n <= i < |s.outs| :: r.outs[i] == s.outs[i])
      && forall i | 0 <= i < n :: r.outs[i].watched == s.outs[i].watched
           && (r.outs[i].frame.Asked? <==>
               s.outs[i].frame.Asked? || (s.outs[i].watched && s.outs[i].frame.Come? && !s.verifying))
  {
    if n > 0 {
      TakeCalm(c, s, n - 1, t);
      assert Calm(s, n - 1) && TakeAll(c, s, n - 1, t).outs[n - 1] == s.outs[n - 1];
    }
  }

  /** How long it has been since the last significant change, or the first frames. */
  function QuietFor(s: State, t: nat): int {
    t - if s.last.Some? then s.last.value else 0
  }

  /** With every copy of a round in, and nothing significant in it, the next turn answers: satisfied when it has been
      quiet long enough (and something changed, to settle), unsatisfied when not. */
  lemma RoundAnswers(c: Config, s: State, t: nat, u: nat)
    requires Kept(c, s) && s.end.None? && s.verifying && s.now <= t <= u && s.sigs == s.round.sigs
    requires !Pending(s) && (forall i | 0 <= i < |s.outs| :: Calm(s, i)) && (c.mode.Change? ==> s.last.None?)
    ensures Turned(c, s, t, u).end
      == if !c.mode.Change? && QuietFor(s, t) >= c.quiet && (c.mode.Settle? ==> s.last.Some?) then Some(Satisfied)
         else Some(Unsatisfied)
  {
    var s0 := s.(now := t);
    assert forall i | 0 <= i < |s0.outs| :: Calm(s0, i) <==> Calm(s, i);
    TakeCalm(c, s0, |s.outs|, t);
    var s' := TakeAll(c, s0, |s.outs|, t);
    assert !Pending(s');
    LaterKept(c, s, t);
    RoundEnds(c, s', t);
  }

  /** Between rounds a turn with no frame to take in begins one exactly when time is up, or it has been quiet long
      enough to be still or to have settled, or nothing began to settle in time: a plain copy is asked for of every
      output watched. Else it leaves all as it was. */
  lemma RoundBegins(c: Config, s: State, t: nat, u: nat)
    requires s.end.None? && !s.verifying && !Arrived(s)
    ensures var s' := Turned(c, s, t, u);
      && s'.end.None? && s'.last == s.last && s'.sigs == s.sigs && |s'.outs| == |s.outs|
      && (s'.verifying <==>
          t >= c.timeout || (QuietFor(s, t) >= c.quiet && (c.mode.Still? || (c.mode.Settle? && s.last.Some?)))
          || (c.mode.Settle? && s.last.None? && t >= c.start))
      && (s'.verifying ==> s'.round.since == u && forall i | 0 <= i < |s.outs| && s.outs[i].watched ::
           s'.outs[i].watched && s'.outs[i].frame == Asked(true, u) && s'.outs[i].copied.None?)
      && (!s'.verifying ==> s' == s.(now := t))
  {
    NothingTaken(c, s.(now := t), |s.outs|, t);
  }

  lemma {:induction false} NothingTaken(c: Config, s: State, n: nat, t: nat)
    requires n <= |s.outs| && !Arrived(s)
    ensures TakeAll(c, s, n, t) == s
  {
    if n > 0 {
      NothingTaken(c, s, n - 1, t);
    }
  }

  /** A wait for a change ends satisfied at the turn in which one comes, of any output watched, when no frame of those
      before it was refused. */
  lemma ChangeAnswers(c: Config, s: State, t: nat, u: nat, i: nat)
    requires c.mode.Change? && s.end.None? && i < |s.outs| && s.outs[i].watched
    requires s.outs[i].frame.Come? && s.outs[i].frame.sig && forall j | 0 <= j < i :: !s.outs[j].frame.Failed?
    ensures Turned(c, s, t, u).end == Some(Satisfied) && Turned(c, s, t, u).last.Some?
  {
    ChangeTaken(c, s.(now := t), |s.outs|, t, i);
  }

  lemma {:induction false} ChangeTaken(c: Config, s: State, n: nat, t: nat, i: nat)
    requires c.mode.Change? && s.end.None? && i < |s.outs| && n <= |s.outs| && s.outs[i].watched
    requires s.outs[i].frame.Come? && s.outs[i].frame.sig && forall j | 0 <= j < i :: !s.outs[j].frame.Failed?
    ensures var r := TakeAll(c, s, n, t);
      && (n > i ==> r.end == Some(Satisfied)) && (r.end == Some(Satisfied) ==> r.last.Some?)
      && (n <= i && r.end != Some(Satisfied) ==> r.end.None? && forall j | n <= j < |s.outs| :: r.outs[j] == s.outs[j])
  {
    if n > 0 {
      ChangeTaken(c, s, n - 1, t, i);
    }
  }

  /** What a run knows nothing for: four frames refused one after the other, every output unplugged, or a copy that
      was waited for longer than a first frame is. */
  ghost predicate Lost(c: Config, s: State) {
    || s.failures > 3
    || (forall i | 0 <= i < |s.outs| :: !s.outs[i].watched)
    || (s.verifying && Pending(s) && s.now - s.round.since > c.first)
  }

  lemma {:induction false} TakeAllLost(c: Config, s: State, n: nat, t: nat)
    requires n <= |s.outs| && s.end.None? && s.failures <= 3
    ensures var r := TakeAll(c, s, n, t); r.end == Some(Unknown) <==> r.failures > 3
    ensures TakeAll(c, s, n, t).failures <= 4
  {
    if n > 0 {
      TakeAllLost(c, s, n - 1, t);
    }
  }

  lemma LostAfter(c: Config, s: State, e: Event)
    requires Can(s, e) && s.end.None? && s.failures <= 3
    ensures var r := After(c, s, e); r.end == Some(Unknown) ==> Lost(c, r)
    ensures var r := After(c, s, e); r.end.None? ==> r.failures <= 3
  {
    if e.Turn? {
      TakeAllLost(c, s.(now := e.t), |s.outs|, e.t);
    }
  }

  lemma {:induction false} RunFailures(c: Config, n: nat, events: seq<Event>)
    requires Run(c, Start(n), events).Some? && Run(c, Start(n), events).value.end.None?
    ensures Run(c, Start(n), events).value.failures <= 3
  {
    if events != [] {
      var m := |events| - 1;
      RunFailures(c, n, events[..m]);
      LostAfter(c, Run(c, Start(n), events[..m]).value, events[m]);
    }
  }

  /** A run ends unknown only then. */
  lemma UnknownIsLost(c: Config, n: nat, events: seq<Event>)
    requires Run(c, Start(n), events).Some? && Run(c, Start(n), events).value.end == Some(Unknown)
    ensures Lost(c, Run(c, Start(n), events).value)
  {
    var m := |events| - 1;
    RunFailures(c, n, events[..m]);
    LostAfter(c, Run(c, Start(n), events[..m]).value, events[m]);
  }

  // ---- How fresh the copies behind an answer are ----

  /** A run ends satisfied, still or settled. */
  ghost predicate EndsStill(c: Config, n: nat, events: seq<Event>) {
    Run(c, Start(n), events).Some? && Run(c, Start(n), events).value.end == Some(Satisfied) && !c.mode.Change?
  }

  /** The copy of output i was asked for once it had been quiet. */
  predicate IsFresh(c: Config, s: State, i: nat)
    requires i < |s.outs|
  {
    s.outs[i].copied.Some? && Since(s.last) + c.quiet <= s.outs[i].copied.value
  }

  /** Nothing significant changed in the last round, and it began because it was quiet, not because time was
      up. */
  predicate QuietRound(c: Config, s: State) {
    s.sigs == s.round.sigs && Since(s.round.last) + c.quiet <= s.round.since
  }

  /** After a quiet round every output still watched had a copy compared that was asked for once it had been
      quiet. */
  lemma CopiesAreFresh(c: Config, n: nat, events: seq<Event>, i: nat)
    requires EndsStill(c, n, events)
    requires var s := Run(c, Start(n), events).value; i < |s.outs| && s.outs[i].watched && QuietRound(c, s)
    ensures IsFresh(c, Run(c, Start(n), events).value, i)
  {
    RunKept(c, n, events);
  }

  /** With no copy refused in the last round, every copy behind the answer was asked for as it began, so each
      is fresh exactly after a quiet round. */
  lemma FreshExactly(c: Config, n: nat, events: seq<Event>, i: nat)
    requires EndsStill(c, n, events)
    requires var s := Run(c, Start(n), events).value; i < |s.outs| && s.outs[i].watched && !s.round.refused
    ensures var s := Run(c, Start(n), events).value;
      s.outs[i].copied == Some(s.round.since) && (IsFresh(c, s, i) <==> QuietRound(c, s))
  {
    RunKept(c, n, events);
  }

  /** What a run over one output keeps: no significant change in a round that goes on, nor in one that ended
      still. */
  ghost predicate KeptOne(c: Config, s: State) {
    && |s.outs| == 1 && (s.end != Some(Unknown) ==> s.outs[0].watched)
    && (s.verifying && s.end.None? ==> s.sigs == s.round.sigs && !s.outs[0].frame.NoFrame?)
    && (s.end == Some(Satisfied) && !c.mode.Change? ==> s.sigs == s.round.sigs)
  }

  lemma KeptOneAfter(c: Config, s: State, e: Event)
    requires Kept(c, s) && KeptOne(c, s) && s.end.None? && Can(s, e)
    ensures KeptOne(c, After(c, s, e))
  {
    match e
    case Turn(t, u) =>
      var s0 := s.(now := t);
      TakeOne(c, s0, t);
      TakeInAt(c, s0, 0, t);
      var s' := TakeIn(c, s0, 0, t);
      assert s'.outs[0].frame.Asked? && s'.outs[0].watched ==> Pending(s');
    case _ =>
  }

  lemma {:induction false} RunKeptOne(c: Config, events: seq<Event>)
    requires Run(c, Start(1), events).Some?
    ensures KeptOne(c, Run(c, Start(1), events).value)
  {
    if events != [] {
      var m := |events| - 1;
      RunKeptOne(c, events[..m]);
      RunKept(c, 1, events[..m]);
      KeptOneAfter(c, Run(c, Start(1), events[..m]).value, events[m]);
    }
  }

  /** With one output, the copy is fresh whenever the quiet time was over before time was up. */
  lemma OneIsFresh(c: Config, events: seq<Event>)
    requires EndsStill(c, 1, events)
    requires Since(Run(c, Start(1), events).value.last) + c.quiet <= c.timeout
    ensures var s := Run(c, Start(1), events).value; |s.outs| == 1 && s.outs[0].watched && IsFresh(c, s, 0)
  {
    RunKeptOne(c, events);
    RunKept(c, 1, events);
  }

  /** One more event of a run. */
  lemma Play(c: Config, n: nat, events: seq<Event>, s: State, e: Event) returns (events': seq<Event>, s': State)
    requires Run(c, Start(n), events) == Some(s) && s.end.None? && Can(s, e)
    ensures Run(c, Start(n), events') == Some(s') && s' == After(c, s, e)
  {
    events', s' := events + [e], After(c, s, e);
    assert events'[..|events|] == events;
  }

  lemma TakeOne(c: Config, s: State, t: nat)
    requires |s.outs| == 1
    ensures TakeAll(c, s, 1, t) == TakeIn(c, s, 0, t)
  {
    assert TakeAll(c, s, 0, t) == s;
  }

  lemma TakeTwo(c: Config, s: State, t: nat)
    requires |s.outs| == 2
    ensures TakeAll(c, s, 2, t) == TakeIn(c, TakeIn(c, s, 0, t), 1, t)
  {
    assert TakeAll(c, s, 1, t) == TakeIn(c, s, 0, t);
  }

  const LONG := Config(Still, 300, 2000, 10000, 2000)

  /** Two outputs of which the one has its copy in, and the other has not. */
  function Halfway(one: Frame, copied: Option<nat>, two: Frame, last: Option<nat>, now: nat, sigs: nat): State {
    State([Output(true, one, copied), Output(true, two, None)], true, 0, last, last, Round(300, 300, 0, None, false),
      now, 1, sigs, None)
  }

  lemma RoundAt300()
    ensures Turned(LONG, Start(2), 300, 300) == Halfway(Asked(true, 300), None, Asked(true, 300), None, 300, 0)
  {
    TakeTwo(LONG, Start(2).(now := 300), 300);
    var s := TakeAll(LONG, Start(2).(now := 300), 2, 300);
    assert s == Start(2).(now := 300) && !Arrived(Start(2));
    assert AskAll(s.outs, true, 300) == Halfway(Asked(true, 300), None, Asked(true, 300), None, 300, 0).outs;
  }

  lemma ChangeAt310()
    ensures Turned(LONG, Halfway(Come(true, 300, true), None, Asked(true, 300), None, 300, 0), 310, 310)
         == Halfway(NoFrame, Some(300), Asked(true, 300), Some(310), 310, 1)
  {
    var s, s' := Halfway(Come(true, 300, true), None, Asked(true, 300), None, 300, 0),
      Halfway(NoFrame, Some(300), Asked(true, 300), Some(310), 310, 1);
    TakeTwo(LONG, s.(now := 310), 310);
    assert TakeIn(LONG, s.(now := 310), 0, 310) == s';
    assert s.outs[0].watched && s'.outs[1].frame.Asked?;
  }

  lemma StillAt700()
    ensures var s := Halfway(NoFrame, Some(300), Come(true, 300, false), Some(310), 310, 1);
      Turned(LONG, s, 700, 700) == s.(outs := [s.outs[0], Output(true, NoFrame, Some(300))], now := 700,
        verifying := false, end := Some(Satisfied))
  {
    var s := Halfway(NoFrame, Some(300), Come(true, 300, false), Some(310), 310, 1).(now := 700);
    TakeTwo(LONG, s, 700);
    assert TakeIn(LONG, s, 0, 700) == s;
    assert TakeIn(LONG, s, 1, 700) == s.(outs := [s.outs[0], Output(true, NoFrame, Some(300))]);
  }

  /** A change found early in a round, and another output's slow copy: "still" is answered, though the first
      output's last copy was asked for before its quiet time was over. */
  lemma StaleCopy() returns (c: Config, events: seq<Event>, s: State)
    ensures Run(c, Start(2), events) == Some(s) && s.end == Some(Satisfied) && c.mode.Still?
    ensures |s.outs| == 2 && s.outs[0].watched && s.outs[0].copied.Some?
      && s.outs[0].copied.value < Since(s.last) + c.quiet
  {
    c, events, s := LONG, [], Start(2);
    RoundAt300();
    events, s := Play(c, 2, events, s, Turn(300, 300));
    events, s := Play(c, 2, events, s, FrameCame(0, true));
    assert s == Halfway(Come(true, 300, true), None, Asked(true, 300), None, 300, 0);
    ChangeAt310();
    events, s := Play(c, 2, events, s, Turn(310, 310));
    events, s := Play(c, 2, events, s, FrameCame(1, false));
    assert s == Halfway(NoFrame, Some(300), Come(true, 300, false), Some(310), 310, 1);
    StillAt700();
    events, s := Play(c, 2, events, s, Turn(700, 700));
  }

  const SHORT := Config(Still, 300, 2000, 1000, 2000)

  /** One output that changed at 900, while it is watched and while its copy is waited for. */
  function Watched(frame: Frame): State {
    State([Output(true, frame, None)], false, 0, Some(900), Some(900), Round(0, 0, 0, None, false), 900, 0, 1, None)
  }

  function Verified(frame: Frame): State {
    State([Output(true, frame, None)], true, 0, Some(900), Some(900), Round(1000, 1000, 1, Some(900), false), 1000, 1,
      1, None)
  }

  lemma ChangeAt900()
    ensures
      var s := Start(1).(outs := [Output(true, Come(false, 0, true), None)]);
      Turned(SHORT, s, 900, 900) == Watched(Asked(false, 900))
  {
    var s := Start(1).(outs := [Output(true, Come(false, 0, true), None)]);
    TakeOne(SHORT, s.(now := 900), 900);
    assert TakeIn(SHORT, s.(now := 900), 0, 900) == Watched(Asked(false, 900));
    assert s.outs[0].watched;
  }

  lemma RoundAt1000()
    ensures Turned(SHORT, Watched(Asked(false, 900)), 1000, 1000) == Verified(Asked(true, 1000))
  {
    var s := Watched(Asked(false, 900)).(now := 1000);
    TakeOne(SHORT, s, 1000);
    assert !Arrived(Watched(Asked(false, 900)));
    assert AskAll(s.outs, true, 1000) == Verified(Asked(true, 1000)).outs;
  }

  lemma StillAt1250()
    ensures var s := Verified(Come(true, 1000, false));
      Turned(SHORT, s, 1250, 1250)
        == s.(outs := [Output(true, NoFrame, Some(1000))], now := 1250, verifying := false, end := Some(Satisfied))
  {
    var s := Verified(Come(true, 1000, false)).(now := 1250);
    TakeOne(SHORT, s, 1250);
    assert TakeIn(SHORT, s, 0, 1250) == s.(outs := [Output(true, NoFrame, Some(1000))]);
  }

  /** And when time is up before it is quiet, and the copies come late: "still", on copies older than that. */
  lemma StaleAtTimeout() returns (c: Config, events: seq<Event>, s: State)
    ensures Run(c, Start(1), events) == Some(s) && s.end == Some(Satisfied) && c.mode.Still? && s.sigs == s.round.sigs
    ensures |s.outs| == 1 && s.outs[0].watched && s.outs[0].copied.Some?
      && s.outs[0].copied.value < Since(s.last) + c.quiet
  {
    c, events, s := SHORT, [], Start(1);
    events, s := Play(c, 1, events, s, FrameCame(0, true));
    assert s == Start(1).(outs := [Output(true, Come(false, 0, true), None)]);
    ChangeAt900();
    events, s := Play(c, 1, events, s, Turn(900, 900));
    RoundAt1000();
    events, s := Play(c, 1, events, s, Turn(1000, 1000));
    events, s := Play(c, 1, events, s, FrameCame(0, false));
    assert s == Verified(Come(true, 1000, false));
    StillAt1250();
    events, s := Play(c, 1, events, s, Turn(1250, 1250));
  }

  // ---- The loop ----

  class Watcher {
    const c: Config
    var s: State

    constructor (c: Config, n: nat)
      ensures this.c == c && s == Start(n) && Kept(c, s)
    {
      this.c, s := c, Start(n);
      new;
      RunKept(c, n, []);
    }

    method Capture(i: nat, plain: bool, at: nat)
      requires i < |s.outs|
      modifies this
      ensures s == WithFrame(old(s), i, Asked(plain, at))
    {
      s := s.(outs := s.outs[i := s.outs[i].(frame := Asked(plain, at))]);
    }

    method CaptureAll(plain: bool, at: nat)
      modifies this
      ensures s == old(s).(outs := AskAll(old(s.outs), plain, at))
    {
      for i := 0 to |s.outs|
        invariant |s.outs| == |old(s.outs)| && s == old(s).(outs := s.outs)
        invariant forall j | 0 <= j < |s.outs| ::
          s.outs[j] == if j < i then AskAll(old(s.outs), plain, at)[j] else old(s.outs)[j]
      {
        if s.outs[i].watched {
          if plain {
            s := s.(outs := s.outs[i := s.outs[i].(copied := None)]);
          }
          Capture(i, plain, at);
        }
      }
    }

    method Significantly(t: nat)
      modifies this
      ensures s == Significant(old(s), t)
    {
      if s.first.None? {
        s := s.(first := Some(t));
      }
      s := s.(last := Some(t), sigs := s.sigs + 1);
    }

    /** One output's frame. */
    method TakeFrame(i: nat, t: nat)
      requires i < |s.outs|
      modifies this
      ensures s == TakeIn(c, old(s), i, t)
    {
      var o := s.outs[i];
      if s.end.Some? || !o.watched {
        return;
      }
      if o.frame.Failed? {
        s := s.(failures := s.failures + 1, round := if s.verifying then s.round.(refused := true) else s.round);
        if s.failures > 3 {
          s := s.(end := Some(Unknown));
        } else {
          Capture(i, true, t);
        }
      } else if o.frame.Come? {
        s := s.(failures := 0);
        if o.frame.sig {
          Significantly(t);
        }
        var copied := if s.verifying && o.frame.plain then Some(o.frame.at) else o.copied;
        s := s.(outs := s.outs[i := o.(frame := NoFrame, copied := copied)]);
        if c.mode.Change? && s.last.Some? {
          s := s.(end := Some(Satisfied));
        } else if !s.verifying {
          Capture(i, false, t);
        }
      }
    }

    /** One turn of the loop. */
    method Turn(t: nat, u: nat)
      requires Kept(c, s) && s.end.None? && s.now <= t <= u
      modifies this
      ensures s == Turned(c, old(s), t, u) && Kept(c, s)
    {
      TurnedKept(c, s, t, u);
      ghost var s0 := s.(now := t);
      s := s.(now := t);
      var any, n := false, |s.outs|;
      for i := 0 to n
        invariant |s.outs| == n && s == TakeAll(c, s0, i, t)
        invariant forall j | i <= j < n :: s.outs[j] == s0.outs[j]
        invariant any ==
          exists j | 0 <= j < i :: s0.outs[j].watched && (s0.outs[j].frame.Come? || s0.outs[j].frame.Failed?)
      {
        TakeInAt(c, s, i, t);
        any := any || (s.outs[i].watched && (s.outs[i].frame.Come? || s.outs[i].frame.Failed?));
        TakeFrame(i, t);
      }
      if s.end.Some? {
        return;
      }
      var pending := StillPending();
      if s.verifying && !pending {
        Conclude(t);
      } else if !any && !s.verifying && t >= Deadline(c, s.last) {
        var due := Deadline(c, s.last);
        CaptureAll(true, u);
        s := s.(verifying := true, round := Round(u, due, s.sigs, s.last, false), rounds := s.rounds + 1, now := u);
      }
    }

    method StillPending() returns (pending: bool)
      ensures pending == Pending(s)
    {
      pending := false;
      for i := 0 to |s.outs|
        invariant pending == exists j | 0 <= j < i :: s.outs[j].watched && s.outs[j].frame.Asked?
      {
        pending := pending || (s.outs[i].watched && s.outs[i].frame.Asked?);
      }
    }

    method Conclude(t: nat)
      modifies this
      ensures s == Concluded(c, old(s), t)
    {
      s := s.(verifying := false);
      if Met(c, s.last, t) {
        s := s.(end := Some(Satisfied));
      } else if t >= c.timeout || (c.mode.Settle? && s.last.None? && t >= c.start) {
        s := s.(end := Some(Unsatisfied));
      } else {
        CaptureAll(false, t);
      }
    }

    /** A whole run: its events in order, to the answer or as far as they go. */
    method Watch(n: nat, events: seq<Event>)
      requires s == Start(n)
      requires Run(c, Start(n), events).Some?
      modifies this
      ensures s == Run(c, Start(n), events).value && Kept(c, s)
    {
      RunKept(c, n, []);
      for i := 0 to |events|
        invariant Run(c, Start(n), events[..i]) == Some(s) && Kept(c, s)
      {
        RunBefore(c, n, events, i + 1);
        assert events[..i + 1][..i] == events[..i];
        var e := events[i];
        AfterKept(c, s, e);
        if e.Turn? {
          Turn(e.t, e.u);
        } else {
          s := After(c, s, e);
        }
      }
      assert events[..|events|] == events;
    }
  }

  lemma {:induction false} RunBefore(c: Config, n: nat, events: seq<Event>, i: nat)
    requires i <= |events| && Run(c, Start(n), events).Some?
    ensures Run(c, Start(n), events[..i]).Some?
    decreases |events|
  {
    if i < |events| {
      var m := |events| - 1;
      RunBefore(c, n, events[..m], i);
      assert events[..m][..i] == events[..i];
    } else {
      assert events[..i] == events;
    }
  }
}
