/** The notice recorder's table of calls that wait for their replies (tools/notices/notices.c). */
module Notices {
  import opened Options

  const MAX_PENDING := 64
  const REPLY_MS := 5000
  const LATE_MS := 25000
  const MAX_BYTES := 0x1000000

  // ---- Lines, and the file they go to ----

  datatype Why = NoReply | TooMany | BusClosed | NotAnId | Failed(error: string) | Unasked

  datatype Answer = Id(id: nat) | NoId(why: Why)

  /** A line of the log. Calls are told apart by their number, where a line has the call's own words. */
  datatype Line =
    Notify(call: nat, answer: Answer, serial: nat) | Reply(call: nat, answer: Answer) | Other(text: string) | Full

  type Size = Line -> nat

  datatype File = File(lines: seq<Line>, written: nat, stopped: bool)

  function Put(f: File, line: Line, size: Size): File {
    if f.stopped then f
    else if f.written + size(line) > MAX_BYTES then File(f.lines + [Full], f.written + size(Full), true)
    else File(f.lines + [line], f.written + size(line), false)
  }

  /** The file that had start bytes, after these lines were given to it. */
  function Filed(sent: seq<Line>, start: nat, size: Size): File {
    if sent == [] then File([], start, false) else Put(Filed(sent[..|sent| - 1], start, size), sent[|sent| - 1], size)
  }

  function Total(sent: seq<Line>, size: Size): nat {
    if sent == [] then 0 else Total(sent[..|sent| - 1], size) + size(sent[|sent| - 1])
  }

  /** The file has the first k lines, which fit, and when that is not all of them, one saying so and no more. */
  ghost predicate CutAt(k: nat, sent: seq<Line>, start: nat, size: Size) {
    && k <= |sent| && (k > 0 ==> start + Total(sent[..k], size) <= MAX_BYTES)
    && var f := Filed(sent, start, size);
      if k == |sent| then f == File(sent, start + Total(sent, size), false)
      else f.stopped && f.lines == sent[..k] + [Full] && start + Total(sent[..k + 1], size) > MAX_BYTES
  }

  lemma {:induction false} FileIsCut(sent: seq<Line>, start: nat, size: Size) returns (k: nat)
    ensures CutAt(k, sent, start, size)
  {
    if sent == [] {
      k := 0;
    } else {
      var n := |sent| - 1;
      var init := sent[..n];
      k := FileIsCut(init, start, size);
      assert sent == init + [sent[n]] && sent[..n + 1] == sent;
      if k == n {
        assert init[..n] == init;
        if start + Total(sent, size) <= MAX_BYTES {
          k := n + 1;
        }
      } else {
        assert init[..k] == sent[..k] && init[..k + 1] == sent[..k + 1];
      }
    }
  }

  // ---- The table ----

  /** A call's place: waiting for its reply, or written without one and waited for still. */
  datatype Slot =
    | Free
    | Waiting(call: nat, sender: string, cookie: nat, at: nat)
    | Late(call: nat, sender: string, cookie: nat, at: nat)

  function Due(x: Slot): nat
    requires !x.Free?
  {
    if x.Late? then x.at + LATE_MS else x.at + REPLY_MS
  }

  /** The lines sent so far, the table, and how many calls there were that could be read. */
  datatype State = State(sent: seq<Line>, table: seq<Slot>, calls: nat)

  function Settled(s: State, i: nat, answer: Answer): State
    requires i < |s.table| && !s.table[i].Free?
  {
    var x := s.table[i];
    State(s.sent + [if x.Waiting? then Notify(x.call, answer, x.cookie) else Reply(x.call, answer)],
      s.table[i := Free], s.calls)
  }

  function GivenUp(s: State, i: nat, why: Why): State
    requires i < |s.table| && s.table[i].Waiting?
  {
    var x := s.table[i];
    State(s.sent + [Notify(x.call, NoId(why), x.cookie)], s.table[i := Late(x.call, x.sender, x.cookie, x.at)], s.calls)
  }

  function Dropped(s: State, i: nat): State
    requires i < |s.table|
  {
    s.(table := s.table[i := Free])
  }

  function Told(s: State, line: Line): State {
    s.(sent := s.sent + [line])
  }

  function WrittenAtOnce(s: State): State {
    State(s.sent + [Notify(s.calls, NoId(Unasked), 0)], s.table, s.calls + 1)
  }

  function Entered(s: State, i: nat, sender: string, cookie: nat, at: nat): State
    requires i < |s.table|
  {
    State(s.sent, s.table[i := Waiting(s.calls, sender, cookie, at)], s.calls + 1)
  }

  // ---- Conservation ----

  function Count<T>(s: seq<T>, f: T -> bool): nat {
    if s == [] then 0 else Count(s[..|s| - 1], f) + if f(s[|s| - 1]) then 1 else 0
  }

  function One(b: bool): nat {
    if b then 1 else 0
  }

  lemma CountOn<T>(s: seq<T>, x: T, f: T -> bool)
    ensures Count(s + [x], f) == Count(s, f) + One(f(x))
  {
    assert (s + [x])[..|s|] == s;
  }

  lemma {:induction false} CountSet<T>(s: seq<T>, i: nat, x: T, f: T -> bool)
    requires i < |s|
    ensures Count(s[i := x], f) == Count(s, f) - One(f(s[i])) + One(f(x))
  {
    var n := |s| - 1;
    if i < n {
      CountSet(s[..n], i, x, f);
      assert s[i := x][..n] == s[..n][i := x];
    } else {
      assert s[i := x][..n] == s[..n];
    }
  }

  lemma {:induction false} CountSome<T>(s: seq<T>, f: T -> bool)
    ensures Count(s, f) > 0 <==> exists i | 0 <= i < |s| :: f(s[i])
  {
    if s != [] {
      CountSome(s[..|s| - 1], f);
      if i :| 0 <= i < |s| && f(s[i]) {
        assert i < |s| - 1 ==> s[..|s| - 1][i] == s[i];
      }
    }
  }

  function NotifyOf(c: nat): Line -> bool {
    (l: Line) => l.Notify? && l.call == c
  }

  function ReplyOf(c: nat): Line -> bool {
    (l: Line) => l.Reply? && l.call == c
  }

  /** Its notify line, gone out without an id while its reply was waited for. */
  function GivenUpOf(c: nat): Line -> bool {
    (l: Line) => l.Notify? && l.call == c && (l.answer == NoId(NoReply) || l.answer == NoId(TooMany))
  }

  function WaitingOf(c: nat): Slot -> bool {
    (x: Slot) => x.Waiting? && x.call == c
  }

  function LateOf(c: nat): Slot -> bool {
    (x: Slot) => x.Late? && x.call == c
  }

  /** A call has its notify line or waits for it, once; and it had or may have one reply line, when it was
      given up; a call to come has nothing. */
  ghost predicate FairTo(s: State, c: nat) {
    && Count(s.sent, NotifyOf(c)) + Count(s.table, WaitingOf(c)) == One(c < s.calls)
    && Count(s.sent, ReplyOf(c)) + Count(s.table, LateOf(c)) <= Count(s.sent, GivenUpOf(c))
      <= Count(s.sent, NotifyOf(c))
  }

  /** The reply line at k comes after its call was given up. */
  ghost predicate After(sent: seq<Line>, k: nat)
    requires k < |sent|
  {
    sent[k].Reply? ==> exists j | 0 <= j < k :: GivenUpOf(sent[k].call)(sent[j])
  }

  ghost predicate Fair(s: State) {
    && (forall c: nat :: FairTo(s, c))
    && (forall k: nat | k < |s.sent| :: After(s.sent, k))
  }

  function With(sent: seq<Line>, line: Option<Line>): seq<Line> {
    if line.None? then sent else sent + [line.value]
  }

  function OneIf(line: Option<Line>, f: Line -> bool): nat {
    if line.None? then 0 else One(f(line.value))
  }

  lemma CountWith(sent: seq<Line>, line: Option<Line>, f: Line -> bool)
    ensures Count(With(sent, line), f) == Count(sent, f) + OneIf(line, f)
  {
    if line.Some? {
      CountOn(sent, line.value, f);
    }
  }

  /** A line, or none, and a slot put for another leave a call its due. */
  ghost predicate Balanced(line: Option<Line>, old': Slot, x: Slot, calls: nat, calls': nat, c: nat) {
    var n, r, g := OneIf(line, NotifyOf(c)), OneIf(line, ReplyOf(c)), OneIf(line, GivenUpOf(c));
    && One(WaitingOf(c)(x)) - One(WaitingOf(c)(old')) + n == One(c < calls') - One(c < calls)
    && One(LateOf(c)(x)) - One(LateOf(c)(old')) + r <= g <= n
  }

  lemma Change(s: State, line: Option<Line>, i: nat, x: Slot, calls: nat, c: nat)
    requires i < |s.table| && FairTo(s, c) && Balanced(line, s.table[i], x, s.calls, calls, c)
    ensures FairTo(State(With(s.sent, line), s.table[i := x], calls), c)
  {
    CountSet(s.table, i, x, WaitingOf(c));
    CountSet(s.table, i, x, LateOf(c));
    CountWith(s.sent, line, NotifyOf(c));
    CountWith(s.sent, line, ReplyOf(c));
    CountWith(s.sent, line, GivenUpOf(c));
  }

  /** A reply line comes after the call was given up, when its slot says so. */
  lemma ReplyIsAfter(s: State, line: Line)
    requires Fair(s)
    requires line.Reply? ==> exists i | 0 <= i < |s.table| :: LateOf(line.call)(s.table[i])
    ensures forall k: nat | k < |s.sent + [line]| :: After(s.sent + [line], k)
  {
    var sent := s.sent + [line];
    forall k: nat | k < |sent|
      ensures After(sent, k)
    {
      if k < |s.sent| {
        assert After(s.sent, k);
        if sent[k].Reply? {
          var j :| 0 <= j < k && GivenUpOf(sent[k].call)(s.sent[j]);
          assert GivenUpOf(sent[k].call)(sent[j]);
        }
      } else if line.Reply? {
        assert FairTo(s, line.call);
        CountSome(s.table, LateOf(line.call));
        CountSome(s.sent, GivenUpOf(line.call));
        var j :| 0 <= j < |s.sent| && GivenUpOf(line.call)(s.sent[j]);
        assert GivenUpOf(line.call)(sent[j]);
      }
    }
  }

  /** A fair step: one line at most, one slot. */
  lemma FairStep(s: State, line: Option<Line>, i: nat, x: Slot, calls: nat)
    requires Fair(s) && i < |s.table|
    requires forall c: nat :: Balanced(line, s.table[i], x, s.calls, calls, c)
    requires line.Some? && line.value.Reply? ==> LateOf(line.value.call)(s.table[i])
    ensures Fair(State(With(s.sent, line), s.table[i := x], calls))
  {
    var after := State(With(s.sent, line), s.table[i := x], calls);
    forall c: nat
      ensures FairTo(after, c)
    {
      Change(s, line, i, x, calls, c);
    }
    if line.Some? {
      ReplyIsAfter(s, line.value);
    }
  }

  lemma SettledFair(s: State, i: nat, answer: Answer)
    requires Fair(s) && i < |s.table| && !s.table[i].Free? && !GivesUp(answer)
    ensures Fair(Settled(s, i, answer))
  {
    var x := s.table[i];
    FairStep(s, Some(if x.Waiting? then Notify(x.call, answer, x.cookie) else Reply(x.call, answer)), i, Free, s.calls);
  }

  predicate GivesUp(answer: Answer) {
    answer == NoId(NoReply) || answer == NoId(TooMany)
  }

  lemma GivenUpFair(s: State, i: nat, why: Why)
    requires Fair(s) && i < |s.table| && s.table[i].Waiting? && GivesUp(NoId(why))
    ensures Fair(GivenUp(s, i, why))
  {
    var x := s.table[i];
    FairStep(s, Some(Notify(x.call, NoId(why), x.cookie)), i, Late(x.call, x.sender, x.cookie, x.at), s.calls);
  }

  lemma DroppedFair(s: State, i: nat)
    requires Fair(s) && i < |s.table| && !s.table[i].Waiting?
    ensures Fair(Dropped(s, i))
  {
    FairStep(s, None, i, Free, s.calls);
  }

  lemma ToldFair(s: State, line: Line)
    requires Fair(s) && (line.Other? || line.Full?)
    ensures Fair(Told(s, line))
  {
    forall c: nat
      ensures FairTo(Told(s, line), c)
    {
      assert FairTo(s, c);
      CountOn(s.sent, line, NotifyOf(c));
      CountOn(s.sent, line, ReplyOf(c));
      CountOn(s.sent, line, GivenUpOf(c));
    }
    ReplyIsAfter(s, line);
  }

  lemma WrittenAtOnceFair(s: State)
    requires Fair(s)
    ensures Fair(WrittenAtOnce(s))
  {
    var line := Notify(s.calls, NoId(Unasked), 0);
    forall c: nat
      ensures FairTo(WrittenAtOnce(s), c)
    {
      assert FairTo(s, c);
      CountOn(s.sent, line, NotifyOf(c));
      CountOn(s.sent, line, ReplyOf(c));
      CountOn(s.sent, line, GivenUpOf(c));
    }
    ReplyIsAfter(s, line);
  }

  lemma EnteredFair(s: State, i: nat, sender: string, cookie: nat, at: nat)
    requires Fair(s) && i < |s.table| && s.table[i].Free?
    ensures Fair(Entered(s, i, sender, cookie, at))
  {
    FairStep(s, None, i, Waiting(s.calls, sender, cookie, at), s.calls + 1);
  }

  /** With nothing waiting, every call has its one notify line. */
  lemma AllNotified(s: State, c: nat)
    requires Fair(s) && c < s.calls && forall i | 0 <= i < |s.table| :: !s.table[i].Waiting?
    ensures Count(s.sent, NotifyOf(c)) == 1 && Count(s.sent, ReplyOf(c)) <= Count(s.sent, GivenUpOf(c)) <= 1
  {
    assert FairTo(s, c);
    CountSome(s.table, WaitingOf(c));
  }

  // ---- What the lines say of what came over the bus ----

  /** The i-th event is call number c. */
  ghost predicate IsCall(events: seq<Event>, i: nat, c: nat) {
    i < |events| && events[i].Called? && events[i].call.readable && Readable(events[..i]) == c
  }

  /** A call whose reply is waited for: the event, who made it, its serial, and since when. */
  datatype Ask = Ask(i: nat, sender: string, cookie: nat, at: nat)

  ghost predicate Asks(events: seq<Event>, c: nat, w: Ask) {
    && IsCall(events, w.i, c) && events[w.i].call.reply == Some((w.sender, w.cookie))
    && events[w.i].memory && events[w.i].t == w.at
  }

  predicate ReplyAt(events: seq<Event>, j: nat, w: Ask) {
    j < |events| && events[j].Answered? && events[j].dest == w.sender && events[j].cookie == w.cookie
  }

  /** Senders number their calls. */
  ghost predicate OwnSerials(events: seq<Event>) {
    forall i: nat, j: nat | i < j < |events| && Wanting(events[i]) && Wanting(events[j]) ::
      events[i].call.reply != events[j].call.reply
  }

  /** No reply to it came before the n-th event, where senders number their calls; else it may be another's. */
  ghost predicate Unanswered(events: seq<Event>, w: Ask, n: nat) {
    OwnSerials(events) ==> forall k: nat | w.i < k < n :: !ReplyAt(events, k, w)
  }

  predicate Wanting(e: Event) {
    e.Called? && e.call.readable && e.call.reply.Some? && e.memory
  }

  /** An answer is what a reply said. */
  predicate Says(answer: Answer, got: Got) {
    match got
    case AnId(id) => answer == Id(id)
    case Odd => answer == NoId(NotAnId)
    case AnError(error) => answer == NoId(Failed(error))
  }

  /** Event j is a reply to the call, and the first, and the answer is what it said. */
  ghost predicate Tells(events: seq<Event>, w: Ask, j: nat, answer: Answer) {
    w.i < j && ReplyAt(events, j, w) && Unanswered(events, w, j) && Says(answer, events[j].got)
  }

  /** Why a notify line of call c says what it does, of the first n events: the first reply did; or none had come when
      the time was up, or when room was made for another call, or at the close. */
  ghost predicate Because(c: nat, answer: Answer, serial: nat, events: seq<Event>, n: nat, w: Ask, j: nat)
    requires n <= |events|
  {
    Asks(events, c, w) && serial == w.cookie && w.i < n &&
      if answer == NoId(NoReply) then
        w.i < j < n && events[j].Quiet? && w.at + REPLY_MS <= events[j].t && Unanswered(events, w, j)
      else if answer == NoId(TooMany) then
        w.i < j < n && events[j].Called? && Unanswered(events, w, j)
      else if answer == NoId(BusClosed) then
        j == n == |events| && Unanswered(events, w, j)
      else
        j < n && Tells(events, w, j, answer)
  }

  /** A line is true of the first n events. */
  ghost predicate IsTrue(line: Line, events: seq<Event>, n: nat)
    requires n <= |events|
  {
    match line
    case Notify(c, answer, serial) =>
      if answer == NoId(Unasked) then
        serial == 0 && exists i: nat | i < n :: IsCall(events, i, c) && !Wanting(events[i])
      else exists w, j: nat :: Because(c, answer, serial, events, n, w, j)
    case Reply(c, answer) => exists w, j: nat | j < n :: Asks(events, c, w) && Tells(events, w, j, answer)
    case _ => true
  }

  /** A slot is that of a call to which no reply has come. */
  ghost predicate IsOpen(x: Slot, events: seq<Event>, n: nat) {
    !x.Free? ==> exists w :: Opened(x, events, n, w)
  }

  ghost predicate Opened(x: Slot, events: seq<Event>, n: nat, w: Ask)
    requires !x.Free?
  {
    && Asks(events, x.call, w) && w.i < n && x.sender == w.sender && x.cookie == w.cookie && x.at == w.at
    && Unanswered(events, w, n)
  }

  /** A line has the first reply to the call. */
  ghost predicate HasReply(line: Line, events: seq<Event>, n: nat, c: nat, w: Ask) {
    (line.Notify? || line.Reply?) && line.call == c && exists j: nat | j < n :: Tells(events, w, j, line.answer)
  }

  /** The call was forgotten: its time was up, or it made room for another. */
  predicate Forgotten(events: seq<Event>, n: nat, w: Ask) {
    exists j: nat | w.i < j < n && j < |events| ::
      (events[j].Quiet? && w.at + LATE_MS <= events[j].t) || events[j].Called?
  }

  /** What became of a call: its reply is in a line, or it was forgotten, or it is waited for. */
  ghost predicate Fate(s: State, events: seq<Event>, n: nat, c: nat, w: Ask) {
    || (exists k | 0 <= k < |s.sent| :: HasReply(s.sent[k], events, n, c, w))
    || Forgotten(events, n, w)
    || exists k | 0 <= k < |s.table| :: IsSlotOf(s.table[k], c, w)
  }

  predicate IsSlotOf(x: Slot, c: nat, w: Ask) {
    !x.Free? && x.call == c && x.sender == w.sender && x.cookie == w.cookie && x.at == w.at
  }

  /** The state after n of the events: its slots are open, its lines true, and no call is lost. */
  ghost predicate Honest(s: State, events: seq<Event>, n: nat) {
    && n <= |events| && s.table != [] && s.calls == Readable(events[..n])
    && (forall k | 0 <= k < |s.table| :: IsOpen(s.table[k], events, n))
    && (forall k | 0 <= k < |s.sent| :: IsTrue(s.sent[k], events, n))
    && (forall c, w | Asks(events, c, w) && w.i < n :: Fate(s, events, n, c, w))
  }

  // ---- Every event keeps it so ----

  /** One call has a serial. */
  lemma OneAsk(events: seq<Event>, c: nat, w: Ask, c': nat, w': Ask)
    requires OwnSerials(events) && Asks(events, c, w) && Asks(events, c', w')
    requires w.sender == w'.sender && w.cookie == w'.cookie
    ensures c == c' && w == w'
  {
    assert Wanting(events[w.i]) && Wanting(events[w'.i]);
  }

  lemma {:induction false} ReadableGrows(events: seq<Event>, i: nat, j: nat)
    requires i < j <= |events| && events[i].Called? && events[i].call.readable
    ensures Readable(events[..i]) < Readable(events[..j])
    decreases j
  {
    ReadableOn(events, j - 1);
    if i < j - 1 {
      ReadableGrows(events, i, j - 1);
    }
  }

  /** One event is a call, and what waits for its reply is one thing. */
  lemma CallOnce(events: seq<Event>, c: nat, w: Ask, v: Ask)
    requires Asks(events, c, w) && Asks(events, c, v)
    ensures w == v
  {
    if w.i < v.i {
      ReadableGrows(events, w.i, v.i);
    } else if v.i < w.i {
      ReadableGrows(events, v.i, w.i);
    }
  }

  lemma ReadableOn(events: seq<Event>, n: nat)
    requires n < |events|
    ensures Readable(events[..n + 1]) == Readable(events[..n]) + One(events[n].Called? && events[n].call.readable)
  {
    assert events[..n + 1][..n] == events[..n];
  }

  /** An open slot that an event is no reply to stays open. */
  lemma OpenOn(x: Slot, events: seq<Event>, n: nat)
    requires n < |events| && IsOpen(x, events, n)
    requires OwnSerials(events) && !x.Free? && events[n].Answered? ==>
      x.sender != events[n].dest || x.cookie != events[n].cookie
    ensures IsOpen(x, events, n + 1)
  {
    if !x.Free? {
      var w :| Opened(x, events, n, w);
      assert Opened(x, events, n + 1, w);
    }
  }

  lemma TrueOn(line: Line, events: seq<Event>, n: nat)
    requires n < |events| && IsTrue(line, events, n)
    ensures IsTrue(line, events, n + 1)
  {
    if line.Notify? && line.answer != NoId(Unasked) {
      var w, j: nat :| Because(line.call, line.answer, line.serial, events, n, w, j);
      assert Because(line.call, line.answer, line.serial, events, n + 1, w, j);
    } else if line.Reply? {
      var w, j: nat :| j < n && Asks(events, line.call, w) && Tells(events, w, j, line.answer);
    }
  }

  /** What was in a line, or forgotten, still is; what has its slot still has it, or has a line now, or is forgotten. */
  lemma FateOn(s: State, s': State, events: seq<Event>, n: nat, c: nat, w: Ask)
    requires n < |events| && Fate(s, events, n, c, w) && s.sent <= s'.sent
    requires forall k | 0 <= k < |s.table| && IsSlotOf(s.table[k], c, w) :: Fate(s', events, n + 1, c, w)
    ensures Fate(s', events, n + 1, c, w)
  {
    if k :| 0 <= k < |s.sent| && HasReply(s.sent[k], events, n, c, w) {
      var j: nat :| j < n && Tells(events, w, j, s.sent[k].answer);
      assert HasReply(s'.sent[k], events, n + 1, c, w);
    }
  }

  /** No two slots are of one call. */
  lemma SlotsApart(s: State, i: nat, j: nat)
    requires Fair(s) && i < j < |s.table| && !s.table[i].Free? && !s.table[j].Free?
    ensures s.table[i].call != s.table[j].call
  {
    var c := s.table[i].call;
    if s.table[j].call == c {
      assert FairTo(s, c);
      CountSome(s.table, WaitingOf(c));
      CountSome(s.table, LateOf(c));
      if s.table[i].Waiting? && s.table[j].Waiting? {
        CountTwo(s.table, i, j, WaitingOf(c));
      } else if s.table[i].Late? && s.table[j].Late? {
        CountTwo(s.table, i, j, LateOf(c));
      }
    }
  }

  lemma {:induction false} CountTwo<T>(s: seq<T>, i: nat, j: nat, f: T -> bool)
    requires i < j < |s| && f(s[i]) && f(s[j])
    ensures Count(s, f) >= 2
  {
    if j < |s| - 1 {
      CountTwo(s[..|s| - 1], i, j, f);
    } else {
      CountSome(s[..|s| - 1], f);
      assert f(s[..|s| - 1][i]);
    }
  }

  /** What an event has to leave: open slots, true lines, and a fate for the calls that had a slot and the new one. */
  lemma HonestOn(s: State, s': State, events: seq<Event>, n: nat)
    requires Honest(s, events, n) && n < |events| && s.sent <= s'.sent && |s'.table| == |s.table|
    requires s'.calls == Readable(events[..n + 1])
    requires forall k | 0 <= k < |s'.table| :: IsOpen(s'.table[k], events, n + 1)
    requires forall k | |s.sent| <= k < |s'.sent| :: IsTrue(s'.sent[k], events, n + 1)
    requires forall k, c, w | 0 <= k < |s.table| && IsSlotOf(s.table[k], c, w) && Asks(events, c, w) && w.i < n ::
      Fate(s', events, n + 1, c, w)
    requires forall c, w | Asks(events, c, w) && w.i == n :: Fate(s', events, n + 1, c, w)
    ensures Honest(s', events, n + 1)
  {
    forall k | 0 <= k < |s'.sent|
      ensures IsTrue(s'.sent[k], events, n + 1)
    {
      if k < |s.sent| {
        TrueOn(s.sent[k], events, n);
      }
    }
    forall c, w | Asks(events, c, w) && w.i < n + 1
      ensures Fate(s', events, n + 1, c, w)
    {
      if w.i < n {
        FateOn(s, s', events, n, c, w);
      }
    }
  }

  /** A slot kept is its calls' fate. */
  lemma SlotKept(s': State, events: seq<Event>, n: nat, k: nat, c: nat, w: Ask)
    requires n <= |events| && k < |s'.table| && IsSlotOf(s'.table[k], c, w)
    ensures Fate(s', events, n, c, w)
  {
  }

  /** An event that is no call with a reply to wait for, no reply and no pause, and has a line that is true. */
  lemma HonestLine(s: State, line: Line, calls: nat, events: seq<Event>, n: nat)
    requires Honest(s, events, n) && n < |events| && !events[n].Answered? && !Wanting(events[n])
    requires calls == Readable(events[..n + 1]) && IsTrue(line, events, n + 1)
    ensures Honest(State(s.sent + [line], s.table, calls), events, n + 1)
  {
    var s' := State(s.sent + [line], s.table, calls);
    forall k | 0 <= k < |s.table|
      ensures IsOpen(s.table[k], events, n + 1)
    {
      OpenOn(s.table[k], events, n);
    }
    HonestOn(s, s', events, n);
  }

  /** A call's slot. */
  lemma NewSlot(s: State, events: seq<Event>, n: nat) returns (w: Ask)
    requires n < |events| && s.calls == Readable(events[..n]) && Wanting(events[n])
    ensures w == Ask(n, events[n].call.reply.value.0, events[n].call.reply.value.1, events[n].t)
    ensures Asks(events, s.calls, w) && Opened(Waiting(s.calls, w.sender, w.cookie, w.at), events, n + 1, w)
    ensures forall c, v | Asks(events, c, v) && v.i == n :: c == s.calls && v == w
  {
    w := Ask(n, events[n].call.reply.value.0, events[n].call.reply.value.1, events[n].t);
    assert IsCall(events, n, s.calls);
  }

  /** The line of one that makes room is true. */
  lemma TooManyTrue(s: State, events: seq<Event>, n: nat, k: nat)
    requires Honest(s, events, n) && n < |events| && events[n].Called? && k < |s.table| && s.table[k].Waiting?
    ensures IsTrue(Notify(s.table[k].call, NoId(TooMany), s.table[k].cookie), events, n + 1)
  {
    var x := s.table[k];
    assert IsOpen(x, events, n);
    var w :| Opened(x, events, n, w);
    assert Because(x.call, NoId(TooMany), x.cookie, events, n + 1, w, n);
  }

  /** Room made, and the call entered or written at once. */
  lemma HonestEntered(s: State, s1: State, k: nat, events: seq<Event>, n: nat)
    requires Honest(s, events, n) && n < |events| && events[n].Called? && events[n].call.readable
    requires events[n].call.reply.Some? && k < |s.table|
    requires s1.calls == s.calls && s1.table == s.table[k := Free] && s.sent <= s1.sent
    requires forall i | |s.sent| <= i < |s1.sent| :: IsTrue(s1.sent[i], events, n + 1)
    ensures Honest(EnteredIn(s1, k, events[n].call.reply.value, events[n].t, events[n].memory), events, n + 1)
  {
    var s' := EnteredIn(s1, k, events[n].call.reply.value, events[n].t, events[n].memory);
    ReadableOn(events, n);
    forall i | 0 <= i < |s'.table|
      ensures IsOpen(s'.table[i], events, n + 1)
    {
      OpenOn(s.table[i], events, n);
      if i == k && events[n].memory {
        var w := NewSlot(s, events, n);
      }
    }
    forall i, c, w | 0 <= i < |s.table| && IsSlotOf(s.table[i], c, w) && Asks(events, c, w) && w.i < n
      ensures Fate(s', events, n + 1, c, w)
    {
      if i == k {
        assert Forgotten(events, n + 1, w);
      } else {
        SlotKept(s', events, n + 1, i, c, w);
      }
    }
    if events[n].memory {
      var w := NewSlot(s, events, n);
      SlotKept(s', events, n + 1, k, s.calls, w);
    } else {
      assert IsCall(events, n, s.calls);
    }
    HonestOn(s, s', events, n);
  }

  lemma HonestNotify(s: State, events: seq<Event>, n: nat)
    requires Honest(s, events, n) && n < |events| && events[n].Called?
    ensures Honest(AfterNotify(s, events[n].call, events[n].t, events[n].memory), events, n + 1)
  {
    ReadableOn(events, n);
    var call := events[n].call;
    if !call.readable {
      HonestLine(s, Other("a Notify call that could not be read"), s.calls, events, n);
    } else if call.reply.None? {
      assert IsCall(events, n, s.calls);
      HonestLine(s, Notify(s.calls, NoId(Unasked), 0), s.calls + 1, events, n);
    } else {
      var (s1, k) := RoomIn(s);
      FreeSlotIs(s.table);
      if FreeSlot(s.table).Some? {
        assert s.table[k := Free] == s.table;
      } else if s.table[k].Waiting? {
        TooManyTrue(s, events, n, k);
      }
      HonestEntered(s, s1, k, events, n);
    }
  }

  /** No other slot waits for the reply that one does. */
  lemma OneMatches(s: State, events: seq<Event>, n: nat, p: nat, k: nat)
    requires OwnSerials(events) && Honest(s, events, n) && Fair(s) && p < |s.table| && k < |s.table| && k != p
    requires !s.table[p].Free? && !s.table[k].Free?
    ensures s.table[k].sender != s.table[p].sender || s.table[k].cookie != s.table[p].cookie
  {
    if s.table[k].sender == s.table[p].sender && s.table[k].cookie == s.table[p].cookie {
      assert IsOpen(s.table[k], events, n) && IsOpen(s.table[p], events, n);
      var w :| Opened(s.table[k], events, n, w);
      var v :| Opened(s.table[p], events, n, v);
      OneAsk(events, s.table[k].call, w, s.table[p].call, v);
      if k < p {
        SlotsApart(s, k, p);
      } else {
        SlotsApart(s, p, k);
      }
    }
  }

  lemma HonestReply(s: State, events: seq<Event>, n: nat)
    requires Honest(s, events, n) && Fair(s) && n < |events| && events[n].Answered?
    ensures Honest(AfterReply(s, events[n].dest, events[n].cookie, events[n].got), events, n + 1)
  {
    var dest, cookie, got := events[n].dest, events[n].cookie, events[n].got;
    var s' := AfterReply(s, dest, cookie, got);
    ReadableOn(events, n);
    MatchingIs(s.table, dest, cookie);
    var p := Matching(s.table, dest, cookie);
    forall k | 0 <= k < |s'.table|
      ensures IsOpen(s'.table[k], events, n + 1)
    {
      if OwnSerials(events) && p.Some? && k != p.value && !s.table[k].Free? {
        OneMatches(s, events, n, p.value, k);
      }
      if p.None? || k != p.value {
        OpenOn(s.table[k], events, n);
      }
    }
    if p.Some? {
      ReplyTrue(s, events, n, p.value);
    }
    forall k, c, w | 0 <= k < |s.table| && IsSlotOf(s.table[k], c, w) && Asks(events, c, w) && w.i < n
      ensures Fate(s', events, n + 1, c, w)
    {
      if p.None? || k != p.value {
        SlotKept(s', events, n + 1, k, c, w);
      } else {
        ReplyHas(s, events, n, k, c, w);
        assert s'.sent[|s.sent|] == Settled(s, k, AnswerOf(got)).sent[|s.sent|];
      }
    }
    HonestOn(s, s', events, n);
  }

  /** The reply's line is true. */
  lemma ReplyTrue(s: State, events: seq<Event>, n: nat, p: nat)
    requires Honest(s, events, n) && n < |events| && events[n].Answered? && p < |s.table|
    requires Matches(s.table[p], events[n].dest, events[n].cookie)
    ensures IsTrue(Settled(s, p, AnswerOf(events[n].got)).sent[|s.sent|], events, n + 1)
  {
    var x, answer := s.table[p], AnswerOf(events[n].got);
    assert IsOpen(x, events, n);
    var w :| Opened(x, events, n, w);
    assert Tells(events, w, n, answer);
    if x.Waiting? {
      assert Because(x.call, answer, x.cookie, events, n + 1, w, n);
    }
  }

  lemma ReplyHas(s: State, events: seq<Event>, n: nat, p: nat, c: nat, w: Ask)
    requires Honest(s, events, n) && n < |events| && events[n].Answered? && p < |s.table|
    requires Matches(s.table[p], events[n].dest, events[n].cookie)
    requires IsSlotOf(s.table[p], c, w) && Asks(events, c, w)
    ensures HasReply(Settled(s, p, AnswerOf(events[n].got)).sent[|s.sent|], events, n + 1, c, w)
  {
    assert IsOpen(s.table[p], events, n);
    var v :| Opened(s.table[p], events, n, v);
    CallOnce(events, c, w, v);
    assert Tells(events, w, n, AnswerOf(events[n].got));
  }

  /** Time went on to t: slots at their fates, and lines for the calls given up. */
  ghost predicate IsExpired(s: State, s': State, t: nat) {
    && s'.calls == s.calls && |s'.table| == |s.table| && s.sent <= s'.sent
    && (forall i | 0 <= i < |s.table| :: s'.table[i] == Expired(s.table[i], t))
    && exists ats :: GaveUp(s'.sent[|s.sent|..], ats, s.table, t)
  }

  lemma HonestQuiet(s: State, s': State, events: seq<Event>, n: nat)
    requires Honest(s, events, n) && n < |events| && events[n].Quiet? && IsExpired(s, s', events[n].t)
    ensures Honest(s', events, n + 1)
  {
    ReadableOn(events, n);
    forall k | 0 <= k < |s'.table|
      ensures IsOpen(s'.table[k], events, n + 1)
    {
      OpenOn(s.table[k], events, n);
      if !s'.table[k].Free? {
        var w :| Opened(s.table[k], events, n + 1, w);
        assert Opened(s'.table[k], events, n + 1, w);
      }
    }
    var ats :| GaveUp(s'.sent[|s.sent|..], ats, s.table, events[n].t);
    forall k | |s.sent| <= k < |s'.sent|
      ensures IsTrue(s'.sent[k], events, n + 1)
    {
      assert s'.sent[k] == s'.sent[|s.sent|..][k - |s.sent|];
      var i :| 0 <= i < |s.table| && GaveUpBy(s'.sent[k], ats[k - |s.sent|], s.table[i], events[n].t);
      NoReplyTrue(s, events, n, i);
    }
    forall k, c, w | 0 <= k < |s.table| && IsSlotOf(s.table[k], c, w) && Asks(events, c, w) && w.i < n
      ensures Fate(s', events, n + 1, c, w)
    {
      if s'.table[k].Free? {
        assert Forgotten(events, n + 1, w);
      } else {
        SlotKept(s', events, n + 1, k, c, w);
      }
    }
    HonestOn(s, s', events, n);
  }

  lemma NoReplyTrue(s: State, events: seq<Event>, n: nat, k: nat)
    requires Honest(s, events, n) && n < |events| && events[n].Quiet? && k < |s.table|
    requires s.table[k].Waiting? && s.table[k].at + REPLY_MS <= events[n].t
    ensures IsTrue(Notify(s.table[k].call, NoId(NoReply), s.table[k].cookie), events, n + 1)
  {
    var x := s.table[k];
    assert IsOpen(x, events, n);
    var w :| Opened(x, events, n, w);
    assert Because(x.call, NoId(NoReply), x.cookie, events, n + 1, w, n);
  }

  /** What an event makes of the state. */
  ghost predicate Handled(s: State, s': State, event: Event) {
    s.table != [] &&
      match event
      case Called(call, t, memory) => s' == AfterNotify(s, call, t, memory)
      case Answered(dest, cookie, got) => s' == AfterReply(s, dest, cookie, got)
      case Else(text) => s' == Told(s, Other(text))
      case Quiet(t) => IsExpired(s, s', t)
  }

  lemma HonestAfter(s: State, s': State, events: seq<Event>, n: nat)
    requires Honest(s, events, n) && Fair(s) && n < |events| && Handled(s, s', events[n])
    ensures Honest(s', events, n + 1)
  {
    match events[n]
    case Called(_, _, _) => HonestNotify(s, events, n);
    case Answered(_, _, _) => HonestReply(s, events, n);
    case Else(text) =>
      ReadableOn(events, n);
      HonestLine(s, Other(text), s.calls, events, n);
    case Quiet(_) => HonestQuiet(s, s', events, n);
  }

  lemma HonestFirst(s: State, events: seq<Event>)
    requires s.table != [] && s.calls == 0 && (forall i | 0 <= i < |s.table| :: s.table[i].Free?)
    requires forall i | 0 <= i < |s.sent| :: s.sent[i].Other?
    ensures Honest(s, events, 0)
  {
    assert events[..0] == [];
  }

  /** The line of a call that waits at the close. */
  predicate ClosedBy(line: Line, x: Slot) {
    x.Waiting? && line == Notify(x.call, NoId(BusClosed), x.cookie)
  }

  ghost predicate ClosedOf(line: Line, table: seq<Slot>) {
    line.Other? || exists i | 0 <= i < |table| :: ClosedBy(line, table[i])
  }

  /** What a log says in the end: every line is true of what came; and each call's reply is in a line, the first, unless
      none came, or the call had been forgotten. */
  ghost predicate Truthful(sent: seq<Line>, events: seq<Event>) {
    && (forall k | 0 <= k < |sent| :: IsTrue(sent[k], events, |events|))
    && forall c, w | Asks(events, c, w) ::
         || (exists k | 0 <= k < |sent| :: HasReply(sent[k], events, |events|, c, w))
         || Forgotten(events, |events|, w)
         || Unanswered(events, w, |events|)
  }

  lemma HonestClosed(s: State, sent: seq<Line>, events: seq<Event>)
    requires Honest(s, events, |events|) && s.sent <= sent
    requires forall k | |s.sent| <= k < |sent| :: ClosedOf(sent[k], s.table)
    ensures Truthful(sent, events)
  {
    var n := |events|;
    forall k | 0 <= k < |sent|
      ensures IsTrue(sent[k], events, n)
    {
      if k >= |s.sent| && !sent[k].Other? {
        var i :| 0 <= i < |s.table| && ClosedBy(sent[k], s.table[i]);
        assert IsOpen(s.table[i], events, n);
        var w :| Opened(s.table[i], events, n, w);
        assert Because(s.table[i].call, NoId(BusClosed), s.table[i].cookie, events, n, w, n);
      } else if k < |s.sent| {
        assert sent[k] == s.sent[k];
      }
    }
    forall c, w | Asks(events, c, w)
      ensures (exists k | 0 <= k < |sent| :: HasReply(sent[k], events, n, c, w)) || Forgotten(events, n, w)
        || Unanswered(events, w, n)
    {
      assert Fate(s, events, n, c, w);
      if k :| 0 <= k < |s.sent| && HasReply(s.sent[k], events, n, c, w) {
        assert HasReply(sent[k], events, n, c, w);
      } else if k :| 0 <= k < |s.table| && IsSlotOf(s.table[k], c, w) {
        assert IsOpen(s.table[k], events, n);
        var v :| Opened(s.table[k], events, n, v);
        CallOnce(events, c, w, v);
      }
    }
  }

  // ---- The recorder ----

  predicate Matches(x: Slot, sender: string, cookie: nat) {
    !x.Free? && x.cookie == cookie && x.sender == sender
  }

  /** Slot i goes before slot j, when one must make room: written ones first, then the oldest. */
  predicate Older(x: Slot, y: Slot)
    requires !x.Free? && !y.Free?
  {
    (x.Late? && !y.Late?) || (x.Late? == y.Late? && x.at < y.at)
  }

  predicate NoneFree(table: seq<Slot>) {
    forall i | 0 <= i < |table| :: !table[i].Free?
  }

  predicate Oldest(table: seq<Slot>, k: nat) {
    && k < |table| && NoneFree(table)
    && (forall i | 0 <= i < |table| :: !Older(table[i], table[k]))
      && (forall i | 0 <= i < k :: Older(table[k], table[i]))
  }

  /** In a full table the one to make room is of those written already, when there are any, and of those the first of
      the longest there. */
  lemma OldestExactly(table: seq<Slot>, k: nat)
    requires k < |table| && NoneFree(table)
    ensures Oldest(table, k) <==>
      && (table[k].Late? || forall i | 0 <= i < |table| :: !table[i].Late?)
      && (forall i | 0 <= i < |table| && table[i].Late? == table[k].Late? :: table[k].at <= table[i].at)
      && forall i | 0 <= i < k && table[i].Late? == table[k].Late? :: table[k].at < table[i].at
  {
    if !table[k].Late? && exists i | 0 <= i < |table| :: table[i].Late? {
      var i :| 0 <= i < |table| && table[i].Late?;
      assert Older(table[i], table[k]);
    }
  }

  /** Slot k is the first of those with the least due. */
  predicate Least(table: seq<Slot>, k: nat, n: nat) {
    && k < n <= |table| && !table[k].Free?
    && (forall i | 0 <= i < n :: !table[i].Free? ==> Due(table[k]) <= Due(table[i]))
    && (forall i | 0 <= i < k :: !table[i].Free? ==> Due(table[k]) < Due(table[i]))
  }

  /** A slot's fate at time t. */
  function Expired(x: Slot, t: nat): Slot {
    if x.Free? || t < Due(x) then x
    else if x.Waiting? && t < x.at + LATE_MS then Late(x.call, x.sender, x.cookie, x.at)
    else Free
  }

  /** On its way to its fate. */
  predicate Expiring(x: Slot, y: Slot, t: nat) {
    y == x || (x.Waiting? && x.at + REPLY_MS <= t && y == Late(x.call, x.sender, x.cookie, x.at))
    || (!x.Free? && x.at + LATE_MS <= t && y == Free)
  }

  function Left(table: seq<Slot>): nat {
    if table == [] then 0
    else
      var x := table[|table| - 1];
      Left(table[..|table| - 1]) + if x.Waiting? then 2 else if x.Late? then 1 else 0
  }

  lemma {:induction false} LeftLess(table: seq<Slot>, i: nat, x: Slot)
    requires i < |table| && !table[i].Free? && (x.Free? || (table[i].Waiting? && x.Late?))
    ensures Left(table[i := x]) < Left(table)
  {
    var n := |table| - 1;
    if i < n {
      LeftLess(table[..n], i, x);
      assert table[i := x][..n] == table[..n][i := x];
    } else {
      assert table[i := x][..n] == table[..n];
    }
  }

  /** A reply as read: an id, something else, or an error. */
  datatype Got = AnId(id: nat) | Odd | AnError(error: string)

  function AnswerOf(got: Got): (a: Answer)
    ensures !GivesUp(a)
  {
    match got
    case AnId(id) => Id(id)
    case Odd => NoId(NotAnId)
    case AnError(error) => NoId(Failed(error))
  }

  /** A call's message, as read: whether its arguments could be, and who waits for its reply. */
  datatype Call = Call(readable: bool, reply: Option<(string, nat)>)

  datatype Event =
    | Called(call: Call, t: nat, memory: bool)
    | Answered(dest: string, cookie: nat, got: Got)
    | Else(text: string)
    | Quiet(t: nat)

  class Recorder {
    const pend: array<Slot>
    const size: Size
    const start: nat
    var lines: seq<Line>
    var written: nat
    var stopped: bool
    ghost var sent: seq<Line>
    var calls: nat

    ghost predicate FileOk()
      reads this
    {
      pend.Length == MAX_PENDING && File(lines, written, stopped) == Filed(sent, start, size)
    }

    ghost function Now(): State
      reads this, pend
    {
      State(sent, pend[..], calls)
    }

    ghost predicate Valid()
      reads this, pend
    {
      FileOk() && Fair(Now())
    }

    constructor (start: nat, size: Size)
      ensures Valid() && fresh(pend) && Now() == State([], seq(MAX_PENDING, _ => Free), 0)
    {
      this.start, this.size := start, size;
      pend := new Slot[MAX_PENDING](_ => Free);
      lines, written, stopped := [], start, false;
      sent, calls := [], 0;
      new;
      assert pend[..] == seq(MAX_PENDING, _ => Free);
      NothingYet();
    }

    /** One line, in one write; past MAX_BYTES a last line, then none. */
    method Emit(line: Line)
      requires FileOk()
      modifies this
      ensures FileOk() && sent == old(sent) + [line] && calls == old(calls)
    {
      sent := sent + [line];
      assert sent[..|sent| - 1] == old(sent);
      if stopped {
        return;
      }
      if written + size(line) > MAX_BYTES {
        stopped := true;
        lines, written := lines + [Full], written + size(Full);
        return;
      }
      lines, written := lines + [line], written + size(line);
    }

    method Say(text: string)
      requires Valid()
      modifies this
      ensures Valid() && Now() == Told(old(Now()), Other(text))
    {
      ToldFair(Now(), Other(text));
      Emit(Other(text));
    }

    method Drop(i: nat)
      requires Valid() && i < MAX_PENDING && !pend[i].Waiting?
      modifies pend
      ensures Valid() && Now() == Dropped(old(Now()), i)
    {
      DroppedFair(Now(), i);
      pend[i] := Free;
    }

    /** A call's reply came: its notify line, or, when that is out already, a reply line. */
    method Settle(i: nat, answer: Answer)
      requires Valid() && i < MAX_PENDING && !pend[i].Free? && !GivesUp(answer)
      modifies this, pend
      ensures Valid() && Now() == Settled(old(Now()), i, answer)
    {
      SettledFair(Now(), i, answer);
      var x := pend[i];
      if x.Waiting? {
        Emit(Notify(x.call, answer, x.cookie));
      } else {
        Emit(Reply(x.call, answer));
      }
      pend[i] := Free;
    }

    /** A call's notify line goes out without an id; its reply is still waited for. */
    method GiveUp(i: nat, why: Why)
      requires Valid() && i < MAX_PENDING && pend[i].Waiting? && GivesUp(NoId(why))
      modifies this, pend
      ensures Valid() && Now() == GivenUp(old(Now()), i, why)
    {
      GivenUpFair(Now(), i, why);
      var x := pend[i];
      Emit(Notify(x.call, NoId(why), x.cookie));
      pend[i] := Late(x.call, x.sender, x.cookie, x.at);
    }

    /** A call's notify line at once. */
    method WriteAtOnce()
      requires Valid()
      modifies this
      ensures Valid() && Now() == WrittenAtOnce(old(Now()))
    {
      WrittenAtOnceFair(Now());
      Emit(Notify(calls, NoId(Unasked), 0));
      calls := calls + 1;
    }

    method Enter(i: nat, sender: string, cookie: nat, at: nat)
      requires Valid() && i < MAX_PENDING && pend[i].Free?
      modifies this, pend
      ensures Valid() && Now() == Entered(old(Now()), i, sender, cookie, at)
    {
      EnteredFair(Now(), i, sender, cookie, at);
      pend[i] := Waiting(calls, sender, cookie, at);
      calls := calls + 1;
    }

    // ---- Time ----

    method LeastDue() returns (old': Option<nat>)
      requires Valid()
      ensures old'.Some? ==> Least(pend[..], old'.value, MAX_PENDING)
      ensures old'.None? ==> forall i | 0 <= i < MAX_PENDING :: pend[i].Free?
    {
      old' := None;
      for i := 0 to MAX_PENDING
        invariant old'.Some? ==> Least(pend[..], old'.value, i)
        invariant old'.None? ==> forall j | 0 <= j < i :: pend[j].Free?
      {
        if !pend[i].Free? && (old'.None? || Due(pend[i]) < Due(pend[old'.value])) {
          old' := Some(i);
        }
      }
    }

    /** Calls whose reply did not come in time are written without an id, and those written so are
        forgotten, the least due first; and how long it is until the next one is due. */
    method Expire(t: nat) returns (next: Option<nat>, ghost ats: seq<nat>)
      requires Valid()
      modifies this, pend
      ensures Valid() && calls == old(calls)
      ensures forall i | 0 <= i < MAX_PENDING :: pend[i] == Expired(old(pend[i]), t)
      ensures if next.None? then forall i | 0 <= i < MAX_PENDING :: pend[i].Free?
        else next.value > 0 && IsNext(pend[..], t + next.value)
      ensures old(sent) <= sent && GaveUp(sent[|old(sent)|..], ats, old(pend[..]), t)
    {
      ats, next := [], None;
      ghost var was, latest := Now(), 0;
      while true
        invariant Valid() && Expiry(was, Now(), ats, latest, t)
        decreases Left(pend[..])
      {
        var least := LeastDue();
        if least.None? {
          break;
        }
        var k := least.value;
        var x := pend[k];
        if Due(x) > t {
          next := Some(Due(x) - t);
          break;
        }
        if x.Late? {
          ExpiryDropped(was, Now(), ats, latest, t, k);
          Drop(k);
        } else {
          ExpiryGivenUp(was, Now(), ats, latest, t, k);
          ats := ats + [x.at];
          GiveUp(k, NoReply);
        }
        latest := Due(x);
      }
      ExpiryDone(was, Now(), ats, latest, t);
    }

    // ---- Calls and replies ----

    /** The first free slot. */
    method FirstFree() returns (k: Option<nat>)
      requires Valid()
      ensures k == FreeSlot(pend[..])
    {
      k := None;
      for i := 0 to MAX_PENDING
        invariant k == FreeSlot(pend[..i])
      {
        assert pend[..i + 1][..i] == pend[..i];
        if k.None? && pend[i].Free? {
          k := Some(i);
        }
      }
      assert pend[..MAX_PENDING] == pend[..];
    }

    /** The slot to make room in: the oldest written one, else the oldest. */
    method FindOldest() returns (k: nat)
      requires Valid() && NoneFree(pend[..])
      ensures Oldest(pend[..], k)
    {
      k := 0;
      for i := 1 to MAX_PENDING
        invariant k < i && (forall j | 0 <= j < i :: !Older(pend[j], pend[k]))
          && (forall j | 0 <= j < k :: Older(pend[k], pend[j]))
      {
        if Older(pend[i], pend[k]) {
          k := i;
        }
      }
    }

    /** The oldest written call is forgotten, else the oldest goes out as it is. */
    method Evict() returns (k: nat)
      requires Valid() && NoneFree(Now().table)
      modifies this, pend
      ensures Valid() && k < MAX_PENDING && (Now(), k) == RoomMade(old(Now()))
    {
      k := FindOldest();
      OldestIs(Now().table, k);
      if pend[k].Waiting? {
        GiveUp(k, TooMany);
      }
      Drop(k);
    }

    /** A slot for a new call: a free one, or that of the one that makes room. */
    method MakeRoom() returns (k: nat)
      requires Valid()
      modifies this, pend
      ensures Valid() && k < MAX_PENDING && (Now(), k) == RoomIn(old(Now()))
    {
      var slot := FirstFree();
      FreeSlotIs(Now().table);
      if slot.Some? {
        k := slot.value;
      } else {
        k := Evict();
      }
    }

    /** A Notify call: written at once when it wants no reply, else entered, in the first free slot or in
        that of the one that makes room for it. */
    method OnNotify(call: Call, t: nat, memory: bool)
      requires Valid()
      modifies this, pend
      ensures Valid() && Now() == AfterNotify(old(Now()), call, t, memory)
    {
      if !call.readable {
        Say("a Notify call that could not be read");
        return;
      }
      if call.reply.None? {
        WriteAtOnce();
        return;
      }
      var k := MakeRoom();
      if memory {
        Enter(k, call.reply.value.0, call.reply.value.1, t);
      } else {
        WriteAtOnce();
      }
    }

    /** A reply, or an error: it settles the first call of that sender and serial that is waited for. */
    method OnReply(dest: string, cookie: nat, got: Got)
      requires Valid()
      modifies this, pend
      ensures Valid() && Now() == AfterReply(old(Now()), dest, cookie, got)
    {
      var p: Option<nat> := None;
      for i := 0 to MAX_PENDING
        invariant p == Matching(pend[..i], dest, cookie)
      {
        assert pend[..i + 1][..i] == pend[..i];
        if p.None? && Matches(pend[i], dest, cookie) {
          p := Some(i);
        }
      }
      assert pend[..MAX_PENDING] == pend[..];
      MatchingIs(pend[..], dest, cookie);
      if p.Some? {
        Settle(p.value, AnswerOf(got));
      }
    }

    /** The bus closed: every call still waiting is written without an id. */
    method Close()
      requires Valid()
      modifies this, pend
      ensures Valid() && calls == old(calls) && forall c: nat | c < calls :: AnsweredFor(sent, c)
      ensures old(sent) <= sent && forall k | |old(sent)| <= k < |sent| :: ClosedOf(sent[k], old(pend[..]))
    {
      ghost var was := pend[..];
      for i := 0 to MAX_PENDING
        invariant Valid() && calls == old(calls) && forall j | 0 <= j < i :: !pend[j].Waiting?
        invariant forall j | i <= j < MAX_PENDING :: pend[j] == was[j]
        invariant old(sent) <= sent && forall k | |old(sent)| <= k < |sent| :: ClosedOf(sent[k], was)
      {
        if pend[i].Waiting? {
          assert ClosedBy(Notify(pend[i].call, NoId(BusClosed), pend[i].cookie), was[i]);
          Settle(i, NoId(BusClosed));
        }
      }
      Say("stopped: the bus closed");
      AllAnswered(Now());
    }

    method Handle(event: Event)
      requires Valid()
      modifies this, pend
      ensures Valid() && calls == old(calls) + One(event.Called? && event.call.readable)
      ensures Handled(old(Now()), Now(), event)
    {
      match event
      case Called(call, t, memory) => OnNotify(call, t, memory);
      case Answered(dest, cookie, got) => OnReply(dest, cookie, got);
      case Else(text) => Say(text);
      case Quiet(t) => var next, ats := Expire(t);
    }

    /** A whole run, to the bus's close: each call that could be read is answered for, and the file has all
        the lines, or those that fit. */
    method Watch(events: seq<Event>)
      requires Valid() && Now() == State([], seq(MAX_PENDING, _ => Free), 0)
      modifies this, pend
      ensures Valid() && calls == Readable(events) && forall c: nat | c < calls :: AnsweredFor(sent, c)
      ensures Cut(lines, stopped, sent)
      ensures Truthful(sent, events)
    {
      Say("listening");
      HonestFirst(Now(), events);
      for i := 0 to |events|
        invariant Valid() && calls == Readable(events[..i])
        invariant Honest(Now(), events, i)
      {
        assert events[..i + 1][..i] == events[..i];
        ghost var was := Now();
        Handle(events[i]);
        HonestAfter(was, Now(), events, i);
      }
      assert events[..|events|] == events;
      ghost var last := Now();
      Close();
      HonestClosed(last, sent, events);
      var k := FileIsCut(sent, start, size);
    }
  }

  predicate Cut(lines: seq<Line>, stopped: bool, sent: seq<Line>) {
    if stopped then exists k: nat | k < |sent| :: lines == sent[..k] + [Full] else lines == sent
  }

  function FreeSlot(table: seq<Slot>): Option<nat> {
    if table == [] then None
    else
      var before := FreeSlot(table[..|table| - 1]);
      if before.Some? then before else if table[|table| - 1].Free? then Some(|table| - 1) else None
  }

  lemma {:induction false} FreeSlotIs(table: seq<Slot>)
    ensures var k := FreeSlot(table);
      if k.None? then NoneFree(table)
      else k.value < |table| && table[k.value].Free? && forall i | 0 <= i < k.value :: !table[i].Free?
  {
    if table != [] {
      FreeSlotIs(table[..|table| - 1]);
    }
  }

  function Matching(table: seq<Slot>, sender: string, cookie: nat): Option<nat> {
    if table == [] then None
    else
      var before := Matching(table[..|table| - 1], sender, cookie);
      if before.Some? then before else if Matches(table[|table| - 1], sender, cookie) then Some(|table| - 1) else None
  }

  lemma {:induction false} MatchingIs(table: seq<Slot>, sender: string, cookie: nat)
    ensures var k := Matching(table, sender, cookie);
      if k.None? then forall i | 0 <= i < |table| :: !Matches(table[i], sender, cookie)
      else
        k.value < |table| && Matches(table[k.value], sender, cookie)
        && forall i | 0 <= i < k.value :: !Matches(table[i], sender, cookie)
  {
    if table != [] {
      MatchingIs(table[..|table| - 1], sender, cookie);
    }
  }

  ghost function OldestOf(table: seq<Slot>): (k: nat)
    requires exists k: nat :: Oldest(table, k)
    ensures Oldest(table, k)
  {
    var k: nat :| Oldest(table, k);
    k
  }

  /** There is one oldest slot. */
  lemma OldestIs(table: seq<Slot>, k: nat)
    requires Oldest(table, k)
    ensures OldestOf(table) == k
  {
    NotBefore(table, OldestOf(table), k);
    NotBefore(table, k, OldestOf(table));
  }

  lemma NotBefore(table: seq<Slot>, j: nat, k: nat)
    requires Oldest(table, j) && Oldest(table, k)
    ensures j >= k
  {
    assert !Older(table[k], table[j]);
  }

  /** Room is made in a full table: the oldest written call is forgotten, else the oldest goes out without
      an id. */
  ghost function RoomMade(s: State): (r: (State, nat))
    requires s.table != [] && NoneFree(s.table)
    ensures r.1 < |s.table| == |r.0.table| && r.0.table[r.1].Free?
  {
    SomeOldest(s.table);
    var k := OldestOf(s.table);
    (if s.table[k].Late? then Dropped(s, k) else Dropped(GivenUp(s, k, TooMany), k), k)
  }

  lemma OldestOn(table: seq<Slot>, k: nat)
    requires table != [] && !table[|table| - 1].Free? && Oldest(table[..|table| - 1], k)
    ensures exists k': nat :: Oldest(table, k')
  {
    var n := |table| - 1;
    var init := table[..n];
    forall i | 0 <= i < n
      ensures table[i] == init[i]
    {
    }
    var m: nat := if Older(table[n], table[k]) then n else k;
    assert Oldest(table, m);
  }

  lemma {:induction false} SomeOldest(table: seq<Slot>)
    requires table != [] && NoneFree(table)
    ensures exists k: nat :: Oldest(table, k)
  {
    var n := |table| - 1;
    if n == 0 {
      assert Oldest(table, 0);
    } else {
      SomeOldest(table[..n]);
      var k: nat :| Oldest(table[..n], k);
      OldestOn(table, k);
    }
  }

  ghost function RoomIn(s: State): (r: (State, nat))
    requires |s.table| > 0
    ensures r.1 < |s.table| == |r.0.table| && r.0.table[r.1].Free?
  {
    FreeSlotIs(s.table);
    var free := FreeSlot(s.table);
    if free.Some? then (s, free.value) else RoomMade(s)
  }

  ghost function AfterNotify(s: State, call: Call, t: nat, memory: bool): State
    requires |s.table| > 0
  {
    if !call.readable then Told(s, Other("a Notify call that could not be read"))
    else if call.reply.None? then WrittenAtOnce(s)
    else
      var (s', k) := RoomIn(s);
      EnteredIn(s', k, call.reply.value, t, memory)
  }

  function EnteredIn(s: State, k: nat, reply: (string, nat), t: nat, memory: bool): State
    requires k < |s.table|
  {
    if memory then Entered(s, k, reply.0, reply.1, t) else WrittenAtOnce(s)
  }

  function AfterReply(s: State, dest: string, cookie: nat, got: Got): State {
    MatchingIs(s.table, dest, cookie);
    var p := Matching(s.table, dest, cookie);
    if p.None? then s else Settled(s, p.value, AnswerOf(got))
  }

  /** How many Notify calls could be read. */
  function Readable(events: seq<Event>): nat {
    if events == [] then 0
    else
      var e := events[|events| - 1];
      Readable(events[..|events| - 1]) + One(e.Called? && e.call.readable)
  }

  /** A call's lines, in the end: one notify line, and a reply line at most, after it and only when it went
      out without an id. */
  ghost predicate AnsweredFor(sent: seq<Line>, c: nat) {
    && Count(sent, NotifyOf(c)) == 1 && Count(sent, ReplyOf(c)) <= Count(sent, GivenUpOf(c)) <= 1
    && forall k: nat | k < |sent| && sent[k].Reply? && sent[k].call == c :: After(sent, k)
  }

  lemma AllAnswered(s: State)
    requires Fair(s) && forall i | 0 <= i < |s.table| :: !s.table[i].Waiting?
    ensures forall c: nat | c < s.calls :: AnsweredFor(s.sent, c)
  {
    forall c: nat | c < s.calls
      ensures AnsweredFor(s.sent, c)
    {
      AllNotified(s, c);
    }
  }

  /** d is the next time a slot is due. */
  predicate IsNext(table: seq<Slot>, d: nat) {
    && (exists i | 0 <= i < |table| :: !table[i].Free? && Due(table[i]) == d)
    && (forall i | 0 <= i < |table| :: !table[i].Free? ==> d <= Due(table[i]))
  }

  /** Slots served so far, the last of them due at `latest`. */
  ghost predicate Expiry(was: State, s: State, ats: seq<nat>, latest: nat, t: nat) {
    && s.calls == was.calls && |s.table| == |was.table|
    && (forall i | 0 <= i < |was.table| :: Expiring(was.table[i], s.table[i], t))
    && (forall i | 0 <= i < |was.table| :: !s.table[i].Free? ==> latest <= Due(s.table[i]))
    && was.sent <= s.sent && GaveUp(s.sent[|was.sent|..], ats, was.table, t)
    && (ats != [] ==> ats[|ats| - 1] + REPLY_MS <= latest)
  }

  lemma ExpiryDropped(was: State, s: State, ats: seq<nat>, latest: nat, t: nat, k: nat)
    requires Expiry(was, s, ats, latest, t) && Least(s.table, k, |s.table|) && s.table[k].Late? && Due(s.table[k]) <= t
    ensures Expiry(was, Dropped(s, k), ats, Due(s.table[k]), t) && Left(Dropped(s, k).table) < Left(s.table)
  {
    LeftLess(s.table, k, Free);
  }

  lemma ExpiryGivenUp(was: State, s: State, ats: seq<nat>, latest: nat, t: nat, k: nat)
    requires Expiry(was, s, ats, latest, t) && Least(s.table, k, |s.table|) && s.table[k].Waiting?
      && Due(s.table[k]) <= t
    ensures Expiry(was, GivenUp(s, k, NoReply), ats + [s.table[k].at], Due(s.table[k]), t)
    ensures Left(GivenUp(s, k, NoReply).table) < Left(s.table)
  {
    var x, s' := s.table[k], GivenUp(s, k, NoReply);
    LeftLess(s.table, k, s'.table[k]);
    assert was.table[k] == x;
    GaveUpOn(s.sent[|was.sent|..], ats, was.table, t, k);
    assert s'.sent[|was.sent|..] == s.sent[|was.sent|..] + [Notify(x.call, NoId(NoReply), x.cookie)];
  }

  lemma ExpiryDone(was: State, s: State, ats: seq<nat>, latest: nat, t: nat)
    requires Expiry(was, s, ats, latest, t)
      && forall i | 0 <= i < |s.table| :: !s.table[i].Free? ==> t < Due(s.table[i])
    ensures forall i | 0 <= i < |s.table| :: s.table[i] == Expired(was.table[i], t)
  {
    forall i | 0 <= i < |s.table|
      ensures s.table[i] == Expired(was.table[i], t)
    {
      assert Expiring(was.table[i], s.table[i], t);
    }
  }

  /** These lines say that calls that waited at these times, in order, had no reply by t. */
  ghost predicate GaveUp(lines: seq<Line>, ats: seq<nat>, was: seq<Slot>, t: nat) {
    && |lines| == |ats|
    && (forall j | 0 <= j < |ats| :: exists i | 0 <= i < |was| :: GaveUpBy(lines[j], ats[j], was[i], t))
    && forall i, j | 0 <= i < j < |ats| :: ats[i] <= ats[j]
  }

  ghost predicate GaveUpBy(line: Line, at: nat, x: Slot, t: nat) {
    x.Waiting? && at == x.at && x.at + REPLY_MS <= t && line == Notify(x.call, NoId(NoReply), x.cookie)
  }

  lemma GaveUpOn(lines: seq<Line>, ats: seq<nat>, was: seq<Slot>, t: nat, k: nat)
    requires GaveUp(lines, ats, was, t) && k < |was| && was[k].Waiting? && was[k].at + REPLY_MS <= t
    requires ats != [] ==> ats[|ats| - 1] <= was[k].at
    ensures GaveUp(lines + [Notify(was[k].call, NoId(NoReply), was[k].cookie)], ats + [was[k].at], was, t)
  {
    var lines', ats' := lines + [Notify(was[k].call, NoId(NoReply), was[k].cookie)], ats + [was[k].at];
    forall j | 0 <= j < |ats'|
      ensures exists i | 0 <= i < |was| :: GaveUpBy(lines'[j], ats'[j], was[i], t)
    {
      if j < |ats| {
        var i :| 0 <= i < |was| && GaveUpBy(lines[j], ats[j], was[i], t);
        assert GaveUpBy(lines'[j], ats'[j], was[i], t);
      } else {
        assert GaveUpBy(lines'[j], ats'[j], was[k], t);
      }
    }
  }

  lemma NothingYet()
    ensures Fair(State([], seq(MAX_PENDING, _ => Free), 0))
  {
    var s := State([], seq(MAX_PENDING, _ => Free), 0);
    forall c: nat
      ensures FairTo(s, c)
    {
      CountSome(s.table, WaitingOf(c));
      CountSome(s.table, LateOf(c));
    }
  }
}
