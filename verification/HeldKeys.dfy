/** Keys held down over several runs (tools/keyboard/keyboard.c: the key holder, its state file, and the
    check a run makes before it sends anything). */
module HeldKeys {
  import opened Options

  type Code = nat

  const HELD_MAX := 32

  datatype Token = Down(code: Code) | Up(code: Code)

  datatype Reply = Ok | Held | Full | Bad | NotHeld

  // ---- Lists of held keys ----

  /** The last place of a key in the list, -1 for none. */
  function Find(s: seq<Code>, c: Code): (k: int)
    ensures -1 <= k < |s|
    ensures k >= 0 ==> s[k] == c
    ensures k < 0 <==> c !in s
  {
    if s == [] then -1 else if s[|s| - 1] == c then |s| - 1 else Find(s[..|s| - 1], c)
  }

  /** The list without place k: the last key moves there. */
  function SwapOut(s: seq<Code>, k: nat): seq<Code>
    requires k < |s|
  {
    s[k := s[|s| - 1]][..|s| - 1]
  }

  function KeysOf(s: seq<Code>): set<Code> {
    set c | c in s
  }

  predicate Distinct(s: seq<Code>) {
    forall i, j | 0 <= i < j < |s| :: s[i] != s[j]
  }

  lemma SwapOutIs(s: seq<Code>, k: nat)
    requires k < |s| && Distinct(s)
    ensures Distinct(SwapOut(s, k)) && forall c :: c in SwapOut(s, k) <==> c in s && c != s[k]
  {
    var r := SwapOut(s, k);
    forall c
      ensures c in r <==> c in s && c != s[k]
    {
      if c in s && c != s[k] {
        var i :| 0 <= i < |s| && s[i] == c;
        assert r[if i == |s| - 1 then k else i] == c;
      }
    }
  }

  predicate Keyed(c: Code, lo: Code, hi: Code) {
    lo <= c <= hi
  }

  // ---- The holder ----

  /** What the holder answers to a request, and what it holds after it. */
  function Answer(held: seq<Code>, tok: Token, lo: Code, hi: Code): (seq<Code>, Reply) {
    var k := Find(held, tok.code);
    if !Keyed(tok.code, lo, hi) then (held, Bad)
    else match tok
      case Down(c) =>
        if k >= 0 then (held, Held) else if |held| == HELD_MAX then (held, Full) else (held + [c], Ok)
      case Up(c) =>
        if k >= 0 then (SwapOut(held, k), Ok) else (held, NotHeld)
  }

  /** The reply to a request, by the keys down: each for its own reason. A key goes down that is not down, with room
      for it; and up that is down. */
  predicate Fits(reply: Reply, tok: Token, down: set<Code>, lo: Code, hi: Code) {
    match reply
    case Bad => !(lo <= tok.code <= hi)
    case Ok =>
      lo <= tok.code <= hi && if tok.Down? then tok.code !in down && |down| < HELD_MAX else tok.code in down
    case Held => lo <= tok.code <= hi && tok.Down? && tok.code in down
    case Full => lo <= tok.code <= hi && tok.Down? && tok.code !in down && |down| >= HELD_MAX
    case NotHeld => lo <= tok.code <= hi && tok.Up? && tok.code !in down
  }

  /** One reply fits. */
  lemma OneFits(a: Reply, b: Reply, tok: Token, down: set<Code>, lo: Code, hi: Code)
    requires Fits(a, tok, down, lo, hi) && Fits(b, tok, down, lo, hi)
    ensures a == b
  {
  }

  lemma {:induction false} AsManyKeys(s: seq<Code>)
    requires Distinct(s)
    ensures |KeysOf(s)| == |s|
  {
    if s != [] {
      var rest, c := s[..|s| - 1], s[|s| - 1];
      AsManyKeys(rest);
      assert s == rest + [c] && KeysOf(s) == KeysOf(rest) + {c};
    }
  }

  lemma AnswerByKeys(held: seq<Code>, tok: Token, lo: Code, hi: Code)
    requires HeldOk(held, lo, hi)
    ensures var (held', reply) := Answer(held, tok, lo, hi);
      && Fits(reply, tok, KeysOf(held), lo, hi)
      && KeysOf(held') == if reply != Ok then KeysOf(held)
                          else if tok.Down? then KeysOf(held) + {tok.code} else KeysOf(held) - {tok.code}
  {
    AsManyKeys(held);
    AnswerOk(held, tok, lo, hi);
  }

  /** What is there when the holder is killed: the keys down on the seat, its state file. */
  datatype Left = Left(down: set<Code>, file: Option<seq<Code>>)

  function Written(file: Option<seq<Code>>): seq<Code> {
    if file.Some? then file.value else []
  }

  /** Every key down is in the state file. */
  ghost predicate Covered(l: Left) {
    l.down <= KeysOf(Written(l.file))
  }

  /** A state file that one reading takes in whole: a list a holder may have had. */
  ghost predicate FileOk(file: Option<seq<Code>>, lo: Code, hi: Code) {
    HeldOk(Written(file), lo, hi)
  }

  /** The keys a holder may have. */
  ghost predicate HeldOk(held: seq<Code>, lo: Code, hi: Code) {
    Distinct(held) && |held| <= HELD_MAX && forall c <- held :: Keyed(c, lo, hi)
  }

  /** The keys read back from a state file: those of the layout, HELD_MAX at most. */
  function ReadBack(codes: seq<Code>, lo: Code, hi: Code): seq<Code> {
    if codes == [] then []
    else
      var before, c := ReadBack(codes[..|codes| - 1], lo, hi), codes[|codes| - 1];
      if |before| < HELD_MAX && Keyed(c, lo, hi) then before + [c] else before
  }

  lemma {:induction false} ReadBackAll(codes: seq<Code>, lo: Code, hi: Code)
    requires |codes| <= HELD_MAX && forall c <- codes :: Keyed(c, lo, hi)
    ensures ReadBack(codes, lo, hi) == codes
  {
    if codes != [] {
      ReadBackAll(codes[..|codes| - 1], lo, hi);
    }
  }

  /** The seat, and what the runs share on it: the holder there may be, with its keys, and its state
      file. `trace` is what a kill of the holder would have left after each thing it did to the seat or
      the file. */
  class Seat {
    const lo: Code
    const hi: Code
    var down: set<Code>
    var file: Option<seq<Code>>
    var holder: Option<seq<Code>>
    ghost var trace: seq<Left>

    constructor (lo: Code, hi: Code)
      ensures this.lo == lo && this.hi == hi && holder == None && file == None && down == {} && trace == [] && Valid()
    {
      this.lo, this.hi := lo, hi;
      down, file, holder, trace := {}, None, None, [];
    }

    /** A holder's keys are those down; the file is its list at some time, or that of a killed one, all of
        whose keys down are in it. */
    ghost predicate Valid()
      reads this
    {
      && FileOk(file, lo, hi) && (forall l <- trace :: FileOk(l.file, lo, hi))
      && (!Covered(Left(down, file)) ==> Left(down, file) in trace)
      && if holder.Some? then HeldOk(holder.value, lo, hi) && down == KeysOf(holder.value)
        else Covered(Left(down, file))
    }

    /** At every step so far every key down was in the file. */
    ghost predicate Safe()
      reads this
    {
      Covered(Left(down, file)) && forall l <- trace :: Covered(l)
    }

    ghost method Note()
      modifies `trace
      ensures trace == old(trace) + [Left(down, file)]
    {
      trace := trace + [Left(down, file)];
    }

    /** held_save: the whole list, in place of the file; one that cannot be opened, written or renamed leaves
        the file as it was, and says nothing. */
    method Save(codes: seq<Code>, works: bool)
      modifies `file, `trace
      ensures file == (if works then Some(codes) else old(file)) && trace == old(trace) + [Left(down, file)]
    {
      if works {
        file := Some(codes);
      }
      Note();
    }

    /** held_unlink: the state file goes. */
    method Unlink()
      modifies `file, `trace
      ensures file == None && trace == old(trace) + [Left(down, file)]
    {
      file := None;
      Note();
    }

    method Key(c: Code, press: bool)
      modifies `down, `trace
      ensures down == (if press then old(down) + {c} else old(down) - {c}) && trace == old(trace) + [Left(down, file)]
    {
      down := if press then down + {c} else down - {c};
      Note();
    }

    /** One request served, with a save that works or not. The holder ends, its file with it, once nothing is
        held. Every key down stays in the file, but for one put down when the save fails that is not there
        already. */
    method Serve(tok: Token, works: bool) returns (reply: Reply)
      requires Valid() && holder.Some?
      modifies this
      ensures Valid() && trace == old(trace) + Steps(old(holder).value, old(file), tok, works, lo, hi)
      ensures Safe() <==> old(Safe()) && Keeps(old(holder).value, old(file), tok, works, lo, hi)
      ensures reply == Answer(old(holder).value, tok, lo, hi).1
      ensures var held := Answer(old(holder).value, tok, lo, hi).0;
        holder == (if held == [] then None else Some(held)) && down == KeysOf(held)
      ensures file == FileAfter(old(holder).value, old(file), tok, works, lo, hi)
      ensures Fits(reply, tok, old(down), lo, hi)
      ensures down ==
        if reply != Ok then old(down) else if tok.Down? then old(down) + {tok.code} else old(down) - {tok.code}
    {
      TraceOn(trace, holder.value, file, tok, works, lo, hi);
      AnswerByKeys(holder.value, tok, lo, hi);
      reply := Act(tok, works);
    }

    /** What it does to the seat and the file, step by step. */
    method Act(tok: Token, works: bool) returns (reply: Reply)
      requires holder.Some? && HeldOk(holder.value, lo, hi) && down == KeysOf(holder.value)
      modifies this
      ensures trace == old(trace) + Steps(old(holder).value, old(file), tok, works, lo, hi)
      ensures reply == Answer(old(holder).value, tok, lo, hi).1
      ensures var held := Answer(old(holder).value, tok, lo, hi).0;
        holder == (if held == [] then None else Some(held)) && down == KeysOf(held)
      ensures file == FileAfter(old(holder).value, old(file), tok, works, lo, hi)
    {
      var held, c := holder.value, tok.code;
      var k := Find(held, c);
      AnswerOk(held, tok, lo, hi);
      if !Keyed(c, lo, hi) {
        reply := Bad;
      } else if tok.Down? && k >= 0 {
        reply := Held;
      } else if tok.Down? && |held| == HELD_MAX {
        reply := Full;
      } else if tok.Down? {
        held := held + [c];
        Save(held, works);   // saved before it is down
        Key(c, true);
        reply := Ok;
      } else if k >= 0 {
        Key(c, false);
        held := SwapOut(held, k);
        Save(held, works);   // gone once it is up
        reply := Ok;
      } else {
        reply := NotHeld;
      }
      GoOn(held);
    }

    /** held_serve: requests one after the other, until nothing is held. */
    method HeldServe(requests: seq<Request>)
      requires Valid() && holder.Some?
      modifies this
      ensures Valid() && trace == old(trace) + RunSteps(old(holder).value, old(file), requests, lo, hi)
    {
      var i := 0;
      ghost var steps: seq<Left> := [];
      while i < |requests| && holder.Some?
        invariant i <= |requests| && Valid() && trace == old(trace) + steps
        invariant steps + ToCome(holder, file, requests[i..], lo, hi)
          == RunSteps(old(holder).value, old(file), requests, lo, hi)
      {
        RunOn(holder.value, file, requests, i, steps, lo, hi);
        ghost var one := Steps(holder.value, file, requests[i].tok, requests[i].works, lo, hi);
        Onto(old(trace), steps, one);
        var _ := Serve(requests[i].tok, requests[i].works);
        steps, i := steps + one, i + 1;
      }
    }

    /** The holder goes on with these keys, or ends, its file with it, when there are none. */
    method GoOn(held: seq<Code>)
      requires down == KeysOf(held)
      modifies `holder, `file, `trace
      ensures holder == (if held == [] then None else Some(held)) && file == if held == [] then None else old(file)
      ensures trace == old(trace) + if held == [] then [Left({}, None)] else []
    {
      holder := Some(held);
      if |held| == 0 {
        assert down == {};
        Unlink();
        holder := None;
      }
    }

    /** The shutdown on a signal: the file first, then each key, from the last. */
    method LetGo()
      requires Valid() && holder.Some?
      modifies this
      ensures Valid() && holder == None && file == None && down == {}
      ensures trace == old(trace) + LettingGo(old(holder).value)
    {
      var held := holder.value;
      ghost var before, all := trace, held;
      Unlink();
      ghost var steps := [Left(down, None)];
      assert down == KeysOf(held);
      while |held| > 0
        invariant Distinct(held) && file == None && down == KeysOf(held) && forall l <- trace :: FileOk(l.file, lo, hi)
        invariant trace == before + steps && steps + After(held) == LettingGo(all)
      {
        var c, rest := held[|held| - 1], held[..|held| - 1];
        LetGoOne(held, down);
        Key(c, false);
        StepOn(before, steps, Left(down, None), After(rest));
        steps, held := steps + [Left(down, None)], rest;
      }
      holder := None;
    }
  }

  /** The steps to come when these are down still. */
  function After(held: seq<Code>): seq<Left> {
    if held == [] then [] else LettingGo(held[..|held| - 1])
  }

  lemma StepOn(before: seq<Left>, steps: seq<Left>, l: Left, rest: seq<Left>)
    ensures (before + steps) + [l] == before + (steps + [l]) && (steps + [l]) + rest == steps + ([l] + rest)
  {
  }

  lemma LetGoOne(held: seq<Code>, down: set<Code>)
    requires held != [] && Distinct(held) && down == KeysOf(held)
    ensures var rest := held[..|held| - 1];
      down - {held[|held| - 1]} == KeysOf(rest) && After(held) == [Left(KeysOf(rest), None)] + After(rest)
  {
    assert held == held[..|held| - 1] + [held[|held| - 1]];
  }

  // ---- A holder killed ----

  /** What the next run does about a killed holder: each key of its file released once. */
  function Released(l: Left, lo: Code, hi: Code): Left {
    Left(l.down - (set c <- ReadBack(Written(l.file), lo, hi)), None)
  }

  /** A request, and whether the save it asks for works. */
  datatype Request = Request(tok: Token, works: bool)

  /** The file after a request: the list of the last save that worked. */
  function FileAfter(held: seq<Code>, file: Option<seq<Code>>, tok: Token, works: bool, lo: Code, hi: Code)
    : Option<seq<Code>>
  {
    var (held', reply) := Answer(held, tok, lo, hi);
    if held' == [] then None else if reply == Ok && works then Some(held') else file
  }

  /** What a kill leaves at each step of a request. */
  function Steps(held: seq<Code>, file: Option<seq<Code>>, tok: Token, works: bool, lo: Code, hi: Code): seq<Left> {
    var (held', reply) := Answer(held, tok, lo, hi);
    var file' := if works then Some(held') else file;
    (if reply != Ok then []
     else if tok.Down? then [Left(KeysOf(held), file'), Left(KeysOf(held'), file')]
     else [Left(KeysOf(held'), file), Left(KeysOf(held'), file')])
    + if held' == [] then [Left({}, None)] else []
  }

  /** A request that puts down no key with a save that fails, but one the file has already. */
  predicate Keeps(held: seq<Code>, file: Option<seq<Code>>, tok: Token, works: bool, lo: Code, hi: Code) {
    tok.Down? && Answer(held, tok, lo, hi).1 == Ok && !works ==> tok.code in Written(file)
  }

  /** The same of requests one after the other, until nothing is held. */
  function RunSteps(held: seq<Code>, file: Option<seq<Code>>, requests: seq<Request>, lo: Code, hi: Code): seq<Left>
    decreases |requests|
  {
    if requests == [] then []
    else
      var q := requests[0];
      var held' := Answer(held, q.tok, lo, hi).0;
      Steps(held, file, q.tok, q.works, lo, hi)
      + if held' == [] then []
        else RunSteps(held', FileAfter(held, file, q.tok, q.works, lo, hi), requests[1..], lo, hi)
  }

  predicate RunKeeps(held: seq<Code>, file: Option<seq<Code>>, requests: seq<Request>, lo: Code, hi: Code)
    decreases |requests|
  {
    requests == [] || (
      var q := requests[0];
      var held' := Answer(held, q.tok, lo, hi).0;
      && Keeps(held, file, q.tok, q.works, lo, hi)
      && (held' == [] || RunKeeps(held', FileAfter(held, file, q.tok, q.works, lo, hi), requests[1..], lo, hi)))
  }

  lemma Onto(a: seq<Left>, b: seq<Left>, c: seq<Left>)
    ensures (a + b) + c == a + (b + c)
  {
  }

  lemma AnswerOk(held: seq<Code>, tok: Token, lo: Code, hi: Code)
    requires HeldOk(held, lo, hi)
    ensures var (held', reply) := Answer(held, tok, lo, hi);
      && HeldOk(held', lo, hi) && (reply != Ok ==> held' == held)
      && (reply == Ok ==> KeysOf(held') == if tok.Down? then KeysOf(held) + {tok.code} else KeysOf(held) - {tok.code})
  {
    var k := Find(held, tok.code);
    if tok.Up? && k >= 0 {
      SwapOutIs(held, k);
      forall c <- SwapOut(held, k)
        ensures Keyed(c, lo, hi)
      {
        assert c in held;
      }
    }
  }

  /** Each step of a request has a file that is read in whole. */
  lemma StepsAre(held: seq<Code>, file: Option<seq<Code>>, tok: Token, works: bool, lo: Code, hi: Code)
    requires HeldOk(held, lo, hi) && FileOk(file, lo, hi)
    ensures (forall l <- Steps(held, file, tok, works, lo, hi) :: FileOk(l.file, lo, hi))
    ensures FileOk(FileAfter(held, file, tok, works, lo, hi), lo, hi)
  {
    AnswerOk(held, tok, lo, hi);
  }

  /** When every key down was in the file before, it is at each step exactly when the request keeps it. */
  lemma StepsCovered(held: seq<Code>, file: Option<seq<Code>>, tok: Token, works: bool, lo: Code, hi: Code)
    requires HeldOk(held, lo, hi) && Covered(Left(KeysOf(held), file))
    ensures Keeps(held, file, tok, works, lo, hi) <==> forall l <- Steps(held, file, tok, works, lo, hi) :: Covered(l)
    ensures Keeps(held, file, tok, works, lo, hi) ==>
      Covered(Left(KeysOf(Answer(held, tok, lo, hi).0), FileAfter(held, file, tok, works, lo, hi)))
  {
    AnswerOk(held, tok, lo, hi);
    assert KeysOf([]) == {};
    var steps := Steps(held, file, tok, works, lo, hi);
    if !Keeps(held, file, tok, works, lo, hi) {
      var l := steps[1];
      assert l in steps && tok.code in l.down;
    }
  }

  /** A trace with a request's steps: its files are read in whole, what stands uncovered is in it, and it is
      covered all along exactly when it was and the request keeps it. */
  lemma TraceOn(trace: seq<Left>, held: seq<Code>, file: Option<seq<Code>>, tok: Token, works: bool, lo: Code, hi: Code)
    requires HeldOk(held, lo, hi) && FileOk(file, lo, hi) && forall l <- trace :: FileOk(l.file, lo, hi)
    requires !Covered(Left(KeysOf(held), file)) ==> Left(KeysOf(held), file) in trace
    ensures var all, held' := trace + Steps(held, file, tok, works, lo, hi), Answer(held, tok, lo, hi).0;
      var now := Left(KeysOf(held'), FileAfter(held, file, tok, works, lo, hi));
      && HeldOk(held', lo, hi) && FileOk(now.file, lo, hi) && (held' == [] ==> Covered(now))
      && (forall l <- all :: FileOk(l.file, lo, hi)) && (!Covered(now) ==> now in all)
      && (Covered(now) && (forall l <- all :: Covered(l)) <==>
          Covered(Left(KeysOf(held), file)) && (forall l <- trace :: Covered(l))
            && Keeps(held, file, tok, works, lo, hi))
  {
    AnswerOk(held, tok, lo, hi);
    StepsAre(held, file, tok, works, lo, hi);
    if Covered(Left(KeysOf(held), file)) {
      StepsCovered(held, file, tok, works, lo, hi);
    }
    LastStep(held, file, tok, works, lo, hi);
    var one := Steps(held, file, tok, works, lo, hi);
    assert forall l :: l in trace + one <==> l in trace || l in one;
  }

  /** The steps of the requests to come, if there is a holder still. */
  function ToCome(holder: Option<seq<Code>>, file: Option<seq<Code>>, requests: seq<Request>, lo: Code, hi: Code)
    : seq<Left>
  {
    if holder.None? then [] else RunSteps(holder.value, file, requests, lo, hi)
  }

  /** The i-th request's steps, after those of the ones before it. */
  lemma RunOn(held: seq<Code>, file: Option<seq<Code>>, requests: seq<Request>, i: nat, steps: seq<Left>, lo: Code,
              hi: Code)
    requires i < |requests|
    ensures var q := requests[i];
      var held', one := Answer(held, q.tok, lo, hi).0, Steps(held, file, q.tok, q.works, lo, hi);
      var holder' := if held' == [] then None else Some(held');
      steps + ToCome(Some(held), file, requests[i..], lo, hi)
        == (steps + one) + ToCome(holder', FileAfter(held, file, q.tok, q.works, lo, hi), requests[i + 1..], lo, hi)
  {
    var q := requests[i];
    var held', one := Answer(held, q.tok, lo, hi).0, Steps(held, file, q.tok, q.works, lo, hi);
    var holder' := if held' == [] then None else Some(held');
    assert requests[i..][0] == q && requests[i..][1..] == requests[i + 1..];
    Onto(steps, one, ToCome(holder', FileAfter(held, file, q.tok, q.works, lo, hi), requests[i + 1..], lo, hi));
  }

  lemma FileIsRead(l: Left, lo: Code, hi: Code)
    requires FileOk(l.file, lo, hi)
    ensures Released(l, lo, hi).down == l.down - KeysOf(Written(l.file))
    ensures Released(l, lo, hi).down == {} <==> Covered(l)
  {
    ReadBackAll(Written(l.file), lo, hi);
    assert forall c <- l.down :: c !in KeysOf(Written(l.file)) ==> c in Released(l, lo, hi).down;
  }

  /** Whenever the holder was killed, whatever saves failed, the next run leaves down exactly the keys that are
      not in the list of the last save that worked: none exactly when all of them are. */
  lemma KilledLeaves(seat: Seat, l: Left)
    requires seat.Valid() && l in seat.trace + [Left(seat.down, seat.file)]
    ensures Released(l, seat.lo, seat.hi).down == l.down - KeysOf(Written(l.file))
    ensures Released(l, seat.lo, seat.hi).down == {} <==> Covered(l)
  {
    FileIsRead(l, seat.lo, seat.hi);
  }

  /** So nothing is left at any step exactly when the seat was safe all along. */
  lemma KilledIsRecovered(seat: Seat)
    requires seat.Valid()
    ensures seat.Safe() <==>
      forall l <- seat.trace + [Left(seat.down, seat.file)] :: Released(l, seat.lo, seat.hi).down == {}
  {
    var all := seat.trace + [Left(seat.down, seat.file)];
    forall l <- all
      ensures Released(l, seat.lo, seat.hi).down == {} <==> Covered(l)
    {
      KilledLeaves(seat, l);
    }
    assert all[|seat.trace|] in all;
  }

  /** Over any requests and any pattern of saves that fail: what a kill leaves at each step; and nothing is left
      at any exactly when no key is put down with a save that fails but one in the list of the last that worked.
      So with saves that work nothing ever is. */
  lemma {:induction false} RunLeaves(held: seq<Code>, file: Option<seq<Code>>, requests: seq<Request>, lo: Code,
                                     hi: Code)
    requires HeldOk(held, lo, hi) && FileOk(file, lo, hi)
    ensures forall l <- RunSteps(held, file, requests, lo, hi) ::
      Released(l, lo, hi).down == l.down - KeysOf(Written(l.file))
    ensures Covered(Left(KeysOf(held), file)) ==>
      (RunKeeps(held, file, requests, lo, hi) <==>
        forall l <- RunSteps(held, file, requests, lo, hi) :: Released(l, lo, hi).down == {})
    ensures (forall q <- requests :: q.works) ==> RunKeeps(held, file, requests, lo, hi)
    decreases |requests|
  {
    if requests != [] {
      var q := requests[0];
      var held', file' := Answer(held, q.tok, lo, hi).0, FileAfter(held, file, q.tok, q.works, lo, hi);
      var one := Steps(held, file, q.tok, q.works, lo, hi);
      AnswerOk(held, q.tok, lo, hi);
      StepsAre(held, file, q.tok, q.works, lo, hi);
      if Covered(Left(KeysOf(held), file)) {
        StepsCovered(held, file, q.tok, q.works, lo, hi);
      }
      LastStep(held, file, q.tok, q.works, lo, hi);
      forall l <- one
        ensures Released(l, lo, hi).down == l.down - KeysOf(Written(l.file))
          && (Released(l, lo, hi).down == {} <==> Covered(l))
      {
        FileIsRead(l, lo, hi);
      }
      assert q in requests;
      if held' != [] {
        RunLeaves(held', file', requests[1..], lo, hi);
      }
    }
  }

  /** What stands after a request is what its last step left, when it had one. */
  lemma LastStep(held: seq<Code>, file: Option<seq<Code>>, tok: Token, works: bool, lo: Code, hi: Code)
    ensures
      var steps, after := Steps(held, file, tok, works, lo, hi),
        Left(KeysOf(Answer(held, tok, lo, hi).0), FileAfter(held, file, tok, works, lo, hi));
      if steps == [] then after == Left(KeysOf(held), file) else after in steps
  {
    var steps := Steps(held, file, tok, works, lo, hi);
    assert KeysOf([]) == {};
    if steps != [] {
      assert steps[|steps| - 1] in steps;
    }
  }

  /** A save that fails after another: of two keys put down both are left. */
  lemma TwoFailuresLeaveTwo()
    ensures var steps := RunSteps([], None, [Request(Down(10), false), Request(Down(11), false)], 8, 255);
      exists l <- steps :: Released(l, 8, 255).down == {10, 11}
  {
    var two, one := [Request(Down(10), false), Request(Down(11), false)], [Request(Down(11), false)];
    assert two[1..] == one && one[1..] == [];
    var l := Left({10, 11}, None);
    assert Steps([10], None, Down(11), false, 8, 255)[1] == l;
    assert l in RunSteps([10], None, one, 8, 255);
    assert [] + [10] == [10];
    FileIsRead(l, 8, 255);
  }

  /** What is left at each step of letting go of these keys on a signal: no file, and ever fewer of them down. */
  function LettingGo(held: seq<Code>): seq<Left> {
    [Left(KeysOf(held), None)] + if held == [] then [] else LettingGo(held[..|held| - 1])
  }

  /** Killed at one of those steps, the holder leaves down for good what is down then: nothing at the last step
      only. */
  lemma {:induction false} LettingGoLeaves(held: seq<Code>, k: nat, lo: Code, hi: Code)
    requires k <= |held|
    ensures |LettingGo(held)| == |held| + 1 && LettingGo(held)[k] == Left(KeysOf(held[..|held| - k]), None)
    ensures Released(LettingGo(held)[k], lo, hi).down == LettingGo(held)[k].down
    ensures Released(LettingGo(held)[k], lo, hi).down == {} <==> k == |held|
  {
    if k > 0 {
      LettingGoLeaves(held[..|held| - 1], k - 1, lo, hi);
      assert held[..|held| - 1][..|held| - k] == held[..|held| - k];
    } else {
      assert held[..|held|] == held;
      if held != [] {
        LettingGoLeaves(held[..|held| - 1], 0, lo, hi);
        assert held[0] in LettingGo(held)[0].down;
      }
    }
  }

  /** So letting go is safe at every step exactly when nothing was held. */
  lemma LettingGoIsSafe(held: seq<Code>, lo: Code, hi: Code)
    ensures (forall l <- LettingGo(held) :: Released(l, lo, hi).down == {}) <==> held == []
  {
    LettingGoLeaves(held, 0, lo, hi);
    assert LettingGo(held)[0] in LettingGo(held);
  }

  // ---- A run's two passes, on values ----

  /** What a run shares with the holder, and the killed holder's keys it let go. */
  datatype Real = Real(holder: Option<seq<Code>>, file: Option<seq<Code>>, gone: seq<Code>)

  /** held_stale, with no holder there: its file, when it names keys, becomes the run's. */
  function Stale(r: Real, lo: Code, hi: Code): Real {
    if r.gone == [] && Written(r.file) != [] then Real(r.holder, None, ReadBack(Written(r.file), lo, hi)) else r
  }

  function Without(gone: seq<Code>, c: Code): seq<Code> {
    var k := FindFirst(gone, c);
    if k < |gone| then SwapOut(gone, k) else gone
  }

  function FindFirst(s: seq<Code>, c: Code): (k: nat)
    ensures k <= |s| && (k < |s| ==> s[k] == c) && (k == |s| <==> c !in s)
  {
    if s == [] || s[0] == c then 0 else 1 + FindFirst(s[1..], c)
  }

  /** One down: or up: sent, with a save of the holder's that works or not, and whether the run goes on. */
  function Send(r: Real, tok: Token, works: bool, lo: Code, hi: Code): (Real, bool) {
    var r1 := if r.holder.None? then Stale(r, lo, hi) else r;
    if r1.holder.None? && tok.Up? then
      (r1.(gone := Without(r1.gone, tok.code)), tok.code in r1.gone)
    else
      var (held, reply) := Answer(if r1.holder.Some? then r1.holder.value else [], tok, lo, hi);
      var file := if held == [] then None else if reply == Ok && works then Some(held) else r1.file;
      (Real(if held == [] then None else Some(held), file, Without(r1.gone, tok.code)), reply == Ok)
  }

  /** A run's tokens sent in order, up to one that fails. */
  function SendAll(r: Real, tokens: seq<Token>, saves: seq<bool>, lo: Code, hi: Code): (Real, bool)
    requires |saves| == |tokens|
    decreases |tokens|
  {
    if tokens == [] then (r, true)
    else
      var (r1, ok) := Send(r, tokens[0], saves[0], lo, hi);
      if ok then SendAll(r1, tokens[1..], saves[1..], lo, hi) else (r1, false)
  }

  /** The check's own list: keys held as far as it knows, and for each a bit, set when a live holder or
      this run holds it. */
  datatype Sim = Sim(codes: seq<Code>, live: seq<bool>)

  predicate SimOk(s: Sim) {
    |s.live| == HELD_MAX && |s.codes| <= HELD_MAX
  }

  function Check(s: Sim, tok: Token): Option<Sim>
    requires SimOk(s)
  {
    var k, n := Find(s.codes, tok.code), |s.codes|;
    match tok
    case Down(c) =>
      if k >= 0 && !s.live[k] then Some(Sim(s.codes, s.live[k := true]))
      else if k >= 0 || n == HELD_MAX then None
      else Some(Sim(s.codes + [c], s.live[n := true]))
    case Up(c) =>
      if k < 0 then None
      else Some(Sim(SwapOut(s.codes, k), s.live[k := s.live[n - 1]]))
  }

  lemma CheckOk(s: Sim, tok: Token)
    requires SimOk(s) && Check(s, tok).Some?
    ensures SimOk(Check(s, tok).value)
  {
  }

  /** The keys the check takes to be down by a live holder or this run. */
  function LiveKeys(s: Sim): set<Code>
    requires SimOk(s)
  {
    set k | 0 <= k < |s.codes| && s.live[k] :: s.codes[k]
  }

  /** The check by the keys: a key may go down that is not down for one alive, when it is in the list already or
      there is room; a key may go up that is in the list. And what the list has then. */
  lemma CheckByKeys(s: Sim, tok: Token)
    requires SimOk(s) && Distinct(s.codes)
    ensures Check(s, tok).Some? <==>
      if tok.Up? then tok.code in KeysOf(s.codes)
      else tok.code !in LiveKeys(s) && (tok.code in KeysOf(s.codes) || |KeysOf(s.codes)| < HELD_MAX)
    ensures Check(s, tok).Some? ==>
      var s' := Check(s, tok).value;
      && SimOk(s') && Distinct(s'.codes)
      && KeysOf(s'.codes) == (if tok.Up? then KeysOf(s.codes) - {tok.code} else KeysOf(s.codes) + {tok.code})
      && LiveKeys(s') == if tok.Up? then LiveKeys(s) - {tok.code} else LiveKeys(s) + {tok.code}
  {
    var k := Find(s.codes, tok.code);
    if tok.Down? {
      AsManyKeys(s.codes);
      IsLive(s, tok.code);
      if Check(s, tok).Some? {
        DownLive(s, tok.code);
      }
    } else if k >= 0 {
      UpLive(s, k);
    }
  }

  lemma IsLive(s: Sim, c: Code)
    requires SimOk(s) && Distinct(s.codes)
    ensures c in LiveKeys(s) <==> Find(s.codes, c) >= 0 && s.live[Find(s.codes, c)]
  {
    var k := Find(s.codes, c);
    if i :| 0 <= i < |s.codes| && s.live[i] && s.codes[i] == c {
      assert i == k;
    }
  }

  lemma DownLive(s: Sim, c: Code)
    requires SimOk(s) && Distinct(s.codes) && Check(s, Down(c)).Some?
    ensures var s' := Check(s, Down(c)).value;
      SimOk(s') && Distinct(s'.codes) && KeysOf(s'.codes) == KeysOf(s.codes) + {c} && LiveKeys(s') == LiveKeys(s) + {c}
  {
    var s', k := Check(s, Down(c)).value, Find(s.codes, c);
    var at := if k >= 0 then k else |s.codes|;
    assert s'.codes[at] == c && s'.live[at];
    forall d
      ensures d in LiveKeys(s') <==> d in LiveKeys(s) || d == c
    {
      if d in LiveKeys(s) {
        var i :| 0 <= i < |s.codes| && s.live[i] && s.codes[i] == d;
        assert s'.codes[i] == d && s'.live[i];
      }
    }
  }

  lemma UpLive(s: Sim, k: nat)
    requires SimOk(s) && Distinct(s.codes) && k < |s.codes| && k == Find(s.codes, s.codes[k])
    ensures var s', c := Check(s, Up(s.codes[k])).value, s.codes[k];
      SimOk(s') && Distinct(s'.codes) && KeysOf(s'.codes) == KeysOf(s.codes) - {c} && LiveKeys(s') == LiveKeys(s) - {c}
  {
    SwapOutIs(s.codes, k);
    var s', n := Check(s, Up(s.codes[k])).value, |s.codes| - 1;
    forall d
      ensures d in LiveKeys(s') <==> d in LiveKeys(s) && d != s.codes[k]
    {
      if d in LiveKeys(s) && d != s.codes[k] {
        var i :| 0 <= i < |s.codes| && s.live[i] && s.codes[i] == d;
        var j := if i == n then k else i;
        assert s'.codes[j] == d && s'.live[j];
      }
      if d in LiveKeys(s') {
        var j :| 0 <= j < n && s'.live[j] && s'.codes[j] == d;
        var i := if j == k then n else j;
        assert s.codes[i] == d && s.live[i];
      }
    }
  }

  function CheckAll(s: Sim, tokens: seq<Token>): Option<Sim>
    requires SimOk(s)
    decreases |tokens|
  {
    if tokens == [] then Some(s)
    else
      var s1 := Check(s, tokens[0]);
      if s1.None? then None else CheckOk(s, tokens[0]); CheckAll(s1.value, tokens[1..])
  }

  // ---- The two passes agree ----

  /** No holder has left a file unread. */
  predicate Settled(r: Real) {
    r.holder.None? ==> Written(r.file) == []
  }

  /** The check's list is what the holder holds and the killed holder's keys let go, told apart by the
      bits. */
  ghost predicate Agree(s: Sim, r: Real) {
    && SimOk(s) && Distinct(s.codes) && Distinct(r.gone) && Distinct(Written(r.holder)) && Settled(r)
    && r.holder != Some([])
    && (forall k | 0 <= k < |s.codes| :: if s.live[k] then s.codes[k] in Written(r.holder) && s.codes[k] !in r.gone
                                         else s.codes[k] in r.gone && s.codes[k] !in Written(r.holder))
    && (forall c <- Written(r.holder) :: c in s.codes) && (forall c <- r.gone :: c in s.codes)
  }

  predicate AnyLive(s: Sim)
    requires SimOk(s)
  {
    exists k | 0 <= k < |s.codes| :: s.live[k]
  }

  /** An up: of a killed holder's key, when a key is down for a live holder. */
  predicate LateUp(s: Sim, tok: Token)
    requires SimOk(s)
  {
    tok.Up? && var k := Find(s.codes, tok.code); k >= 0 && !s.live[k] && AnyLive(s)
  }

  lemma {:induction false} NoLonger(a: seq<Code>, b: seq<Code>)
    requires Distinct(a) && forall c <- a :: c in b
    ensures |a| <= |b|
    decreases |a|
  {
    if a != [] {
      var c := a[|a| - 1];
      assert c in b;
      var k :| 0 <= k < |b| && b[k] == c;
      var rest := b[..k] + b[k + 1..];
      forall d <- a[..|a| - 1]
        ensures d in rest
      {
        var i :| 0 <= i < |a| - 1 && a[i] == d;
        assert d in b && d != c;
        var m :| 0 <= m < |b| && b[m] == d;
        assert m < k ==> rest[m] == d;
        assert m > k ==> rest[m - 1] == d;
      }
      NoLonger(a[..|a| - 1], rest);
    }
  }

  lemma WithoutIs(gone: seq<Code>, c: Code)
    requires Distinct(gone)
    ensures Distinct(Without(gone, c)) && forall d :: d in Without(gone, c) <==> d in gone && d != c
  {
    var k := FindFirst(gone, c);
    if k < |gone| {
      SwapOutIs(gone, k);
    }
  }

  lemma HolderHasLive(s: Sim, r: Real)
    requires Agree(s, r)
    ensures AnyLive(s) <==> r.holder.Some?
  {
    if r.holder.Some? {
      var c := r.holder.value[0];
      assert c in Written(r.holder) && c in s.codes;
      var k :| 0 <= k < |s.codes| && s.codes[k] == c;
      assert s.live[k];
    }
  }

  lemma DownAgrees(s: Sim, r: Real, c: Code, works: bool, lo: Code, hi: Code)
    requires Agree(s, r) && Keyed(c, lo, hi)
    ensures Check(s, Down(c)).Some? ==>
      Send(r, Down(c), works, lo, hi).1 && Agree(Check(s, Down(c)).value, Send(r, Down(c), works, lo, hi).0)
    ensures Check(s, Down(c)).None? && Send(r, Down(c), works, lo, hi).1 ==> |s.codes| == HELD_MAX && c !in s.codes
  {
    var held, k := Written(r.holder), Find(s.codes, c);
    WithoutIs(r.gone, c);
    if k >= 0 && !s.live[k] {
      NoLonger(held + [c], s.codes);
    } else if k < 0 {
      NoLonger(held, s.codes);
    }
  }

  lemma UpAgrees(s: Sim, r: Real, c: Code, works: bool, lo: Code, hi: Code)
    requires Agree(s, r) && Keyed(c, lo, hi)
    ensures Check(s, Up(c)).None? ==> !Send(r, Up(c), works, lo, hi).1
    ensures Check(s, Up(c)).Some? && LateUp(s, Up(c)) ==> !Send(r, Up(c), works, lo, hi).1
    ensures Check(s, Up(c)).Some? && !LateUp(s, Up(c)) ==>
      Send(r, Up(c), works, lo, hi).1 && Agree(Check(s, Up(c)).value, Send(r, Up(c), works, lo, hi).0)
  {
    var held, k := Written(r.holder), Find(s.codes, c);
    HolderHasLive(s, r);
    WithoutIs(r.gone, c);
    if k >= 0 {
      SwapOutIs(s.codes, k);
      if Find(held, c) >= 0 {
        SwapOutIs(held, Find(held, c));
      }
    }
  }

  /** The tokens' ups of killed keys come before a holder is live, all along the check. */
  ghost predicate NoLateUp(s: Sim, tokens: seq<Token>)
    requires SimOk(s)
    decreases |tokens|
  {
    tokens != [] && Check(s, tokens[0]).Some? ==>
      !LateUp(s, tokens[0]) && (CheckOk(s, tokens[0]); NoLateUp(Check(s, tokens[0]).value, tokens[1..]))
  }

  predicate AllKeyed(tokens: seq<Token>, lo: Code, hi: Code) {
    forall t <- tokens :: Keyed(t.code, lo, hi)
  }

  /** Tokens the check lets by all succeed, exactly when none of them is a late up:, and the run ends
      with what the check expected. */
  lemma {:induction false} RunFollowsCheck(s: Sim, r: Real, tokens: seq<Token>, saves: seq<bool>, lo: Code, hi: Code)
    requires |saves| == |tokens|
    requires Agree(s, r) && AllKeyed(tokens, lo, hi) && CheckAll(s, tokens).Some?
    ensures SendAll(r, tokens, saves, lo, hi).1 <==> NoLateUp(s, tokens)
    ensures SendAll(r, tokens, saves, lo, hi).1 ==>
      Agree(CheckAll(s, tokens).value, SendAll(r, tokens, saves, lo, hi).0)
    decreases |tokens|
  {
    if tokens != [] {
      var tok := tokens[0];
      assert tok in tokens;
      CheckOk(s, tok);
      DownAgrees(s, r, tok.code, saves[0], lo, hi);
      UpAgrees(s, r, tok.code, saves[0], lo, hi);
      assert tok == Down(tok.code) || tok == Up(tok.code);
      if !LateUp(s, tok) {
        RunFollowsCheck(Check(s, tok).value, Send(r, tok, saves[0], lo, hi).0, tokens[1..], saves[1..], lo, hi);
      }
    }
  }

  // ---- No killed holder: the two passes are the same ----

  ghost predicate Same(s: Sim, r: Real) {
    && SimOk(s) && Distinct(s.codes) && r.gone == [] && Settled(r) && r.holder != Some([])
    && s.codes == Written(r.holder) && forall k | 0 <= k < |s.codes| :: s.live[k]
  }

  lemma StepSame(s: Sim, r: Real, tok: Token, works: bool, lo: Code, hi: Code)
    requires Same(s, r) && Keyed(tok.code, lo, hi)
    ensures Check(s, tok).Some? <==> Send(r, tok, works, lo, hi).1
    ensures Check(s, tok).Some? ==> Same(Check(s, tok).value, Send(r, tok, works, lo, hi).0)
  {
    var k := Find(s.codes, tok.code);
    if k >= 0 {
      SwapOutIs(s.codes, k);
    }
  }

  /** With a live holder or none, the check lets a run by exactly when every token of it succeeds, and
      the list it kept is then the holder's, key by key. */
  lemma {:induction false} CheckIsRun(s: Sim, r: Real, tokens: seq<Token>, saves: seq<bool>, lo: Code, hi: Code)
    requires |saves| == |tokens|
    requires Same(s, r) && AllKeyed(tokens, lo, hi)
    ensures CheckAll(s, tokens).Some? <==> SendAll(r, tokens, saves, lo, hi).1
    ensures CheckAll(s, tokens).Some? ==> Same(CheckAll(s, tokens).value, SendAll(r, tokens, saves, lo, hi).0)
    decreases |tokens|
  {
    if tokens != [] {
      assert tokens[0] in tokens;
      StepSame(s, r, tokens[0], saves[0], lo, hi);
      if Check(s, tokens[0]).Some? {
        CheckOk(s, tokens[0]);
        CheckIsRun(Check(s, tokens[0]).value, Send(r, tokens[0], saves[0], lo, hi).0, tokens[1..], saves[1..], lo, hi);
      }
    }
  }

  // ---- What a run leaves down ----

  /** The keys down after these requests, each of which did what it asks. */
  function Pressed(down: set<Code>, tokens: seq<Token>): set<Code> {
    if tokens == [] then down
    else
      var t := tokens[|tokens| - 1];
      var before := Pressed(down, tokens[..|tokens| - 1]);
      if t.Down? then before + {t.code} else before - {t.code}
  }

  lemma {:induction false} PressedFirst(down: set<Code>, tokens: seq<Token>)
    requires tokens != []
    ensures var t := tokens[0];
      Pressed(down, tokens) == Pressed(if t.Down? then down + {t.code} else down - {t.code}, tokens[1..])
    decreases |tokens|
  {
    var n := |tokens| - 1;
    if n > 0 {
      PressedFirst(down, tokens[..n]);
      assert tokens[..n][1..] == tokens[1..][..n - 1];
    }
  }

  /** A request sent, by the keys: it goes through exactly when a live holder, or one started for it, lets it, or it
      lets go of a killed holder's key with no other alive; and the keys down then. */
  lemma SendByKeys(r: Real, tok: Token, works: bool, lo: Code, hi: Code)
    requires HeldOk(Written(r.holder), lo, hi) && Keyed(tok.code, lo, hi)
    ensures var down, (r', ok) := KeysOf(Written(r.holder)), Send(r, tok, works, lo, hi);
      && ok == (if tok.Down? then tok.code !in down && |down| < HELD_MAX
                else if r.holder.Some? then tok.code in down
                else tok.code in Stale(r, lo, hi).gone)
      && HeldOk(Written(r'.holder), lo, hi)
      && KeysOf(Written(r'.holder)) == if !ok then down else if tok.Down? then down + {tok.code} else down - {tok.code}
  {
    AnswerByKeys(Written(r.holder), tok, lo, hi);
    AnswerOk(Written(r.holder), tok, lo, hi);
  }

  /** A run that goes through leaves down exactly the keys that were, with those it put down and without those it let
      go of, in its order. */
  lemma {:induction false} SentKeys(r: Real, tokens: seq<Token>, saves: seq<bool>, lo: Code, hi: Code)
    requires |saves| == |tokens| && HeldOk(Written(r.holder), lo, hi) && AllKeyed(tokens, lo, hi)
    ensures var (r', ok) := SendAll(r, tokens, saves, lo, hi);
      ok ==> KeysOf(Written(r'.holder)) == Pressed(KeysOf(Written(r.holder)), tokens)
    decreases |tokens|
  {
    if tokens != [] {
      assert tokens[0] in tokens;
      SendByKeys(r, tokens[0], saves[0], lo, hi);
      PressedFirst(KeysOf(Written(r.holder)), tokens);
      SentKeys(Send(r, tokens[0], saves[0], lo, hi).0, tokens[1..], saves[1..], lo, hi);
    }
  }

  // ---- From the start of a run ----

  /** What the check starts from: the live holder's keys, or a killed one's. */
  function Now(r: Real, lo: Code, hi: Code): Sim {
    if r.holder.Some? then Sim(r.holder.value, seq(HELD_MAX, _ => true))
    else Sim(ReadBack(Written(r.file), lo, hi), seq(HELD_MAX, _ => false))
  }

  /** What stands when a run starts: nothing let go yet, a holder's list or the file of a killed one. */
  ghost predicate Start(r: Real, lo: Code, hi: Code) {
    && r.gone == [] && r.holder != Some([])
    && var codes := if r.holder.Some? then r.holder.value else Written(r.file);
       Distinct(codes) && |codes| <= HELD_MAX && forall c <- codes :: Keyed(c, lo, hi)
  }

  lemma SettledFirst(r: Real, tokens: seq<Token>, saves: seq<bool>, lo: Code, hi: Code)
    requires |saves| == |tokens|
    requires Start(r, lo, hi) && r.holder.None? && tokens != []
    ensures SendAll(r, tokens, saves, lo, hi) == SendAll(Stale(r, lo, hi), tokens, saves, lo, hi)
  {
    ReadBackAll(Written(r.file), lo, hi);
    assert Stale(Stale(r, lo, hi), lo, hi) == Stale(r, lo, hi);
  }

  /** The whole of it: a run that its check lets by succeeds, exactly when no token of it lets go of a
      killed holder's key while another key is held. */
  lemma CheckedRunSucceeds(r: Real, tokens: seq<Token>, saves: seq<bool>, lo: Code, hi: Code)
    requires |saves| == |tokens|
    requires Start(r, lo, hi) && AllKeyed(tokens, lo, hi)
    requires SimOk(Now(r, lo, hi)) && CheckAll(Now(r, lo, hi), tokens).Some?
    ensures SendAll(r, tokens, saves, lo, hi).1 <==> NoLateUp(Now(r, lo, hi), tokens)
  {
    var s := Now(r, lo, hi);
    if tokens != [] {
      if r.holder.Some? {
        RunFollowsCheck(s, r, tokens, saves, lo, hi);
      } else {
        ReadBackAll(Written(r.file), lo, hi);
        SettledFirst(r, tokens, saves, lo, hi);
        RunFollowsCheck(s, Stale(r, lo, hi), tokens, saves, lo, hi);
      }
    }
  }

  /** With no killed holder's keys the check is exact, whatever the tokens. */
  lemma CheckIsExact(r: Real, tokens: seq<Token>, saves: seq<bool>, lo: Code, hi: Code)
    requires |saves| == |tokens|
    requires Start(r, lo, hi) && AllKeyed(tokens, lo, hi) && (r.holder.None? ==> Written(r.file) == [])
    ensures SimOk(Now(r, lo, hi))
    ensures CheckAll(Now(r, lo, hi), tokens).Some? <==> SendAll(r, tokens, saves, lo, hi).1
    ensures CheckAll(Now(r, lo, hi), tokens).Some? ==>
              CheckAll(Now(r, lo, hi), tokens).value.codes == Written(SendAll(r, tokens, saves, lo, hi).0.holder)
  {
    CheckIsRun(Now(r, lo, hi), r, tokens, saves, lo, hi);
  }

  /** It is not exact with them: of two keys a killed holder left, pressing one again and letting go of
      the other is let by, and fails. */
  lemma LateUpFails(saves: seq<bool>)
    requires |saves| == 2
    ensures var r, tokens := Real(None, Some([10, 11]), []), [Down(10), Up(11)];
      && Start(r, 8, 255) && SimOk(Now(r, 8, 255))
      && CheckAll(Now(r, 8, 255), tokens).Some? && !SendAll(r, tokens, saves, 8, 255).1
  {
    var r, tokens := Real(None, Some([10, 11]), []), [Down(10), Up(11)];
    ReadBackAll([10, 11], 8, 255);
    LateUpChecked(Now(r, 8, 255), tokens);
    CheckedRunSucceeds(r, tokens, saves, 8, 255);
  }

  lemma LateUpChecked(s: Sim, tokens: seq<Token>)
    requires s == Sim([10, 11], seq(HELD_MAX, _ => false)) && tokens == [Down(10), Up(11)]
    ensures SimOk(s) && CheckAll(s, tokens).Some? && !NoLateUp(s, tokens)
  {
    assert Find([10, 11], 10) == 0 by { assert [10, 11][..1] == [10]; }
    var s1 := Check(s, Down(10)).value;
    assert tokens[1..] == [Up(11)];
    CheckOk(s, Down(10));
    LateUpNext(s1);
  }

  lemma LateUpNext(s: Sim)
    requires SimOk(s) && s.codes == [10, 11] && s.live[0] && !s.live[1]
    ensures CheckAll(s, [Up(11)]).Some? && !NoLateUp(s, [Up(11)])
  {
    assert Find([10, 11], 11) == 1;
    CheckOk(s, Up(11));
    assert [Up(11)][1..] == [];
    assert AnyLive(s) by { assert s.live[0]; }
  }

  // ---- A run ----

  class Run {
    const seat: Seat
    var known: bool          // the check has asked what is held
    var sim: Sim
    var gone: seq<Code>

    constructor (seat: Seat)
      requires seat.Valid() && seat.holder != Some([])
      ensures this.seat == seat && !known && gone == [] && Valid()
    {
      this.seat, known, gone := seat, false, [];
      sim := Sim([], seq(HELD_MAX, _ => false));
    }

    ghost predicate Valid()
      reads this, seat
    {
      seat.Valid() && SimOk(sim) && Distinct(sim.codes) && seat.holder != Some([])
        && (seat.holder.None? && gone != [] ==> Written(seat.file) == [])
    }

    ghost function Shared(): Real
      reads this, seat
    {
      Real(seat.holder, seat.file, gone)
    }

    /** What the check stands at: what it knows, or what it will ask for first. */
    ghost function Known(): (s: Sim)
      requires Valid()
      reads this, seat
      ensures SimOk(s) && Distinct(s.codes)
    {
      if !known then
        ReadBackAll(Written(seat.file), seat.lo, seat.hi);
        Now(Shared(), seat.lo, seat.hi)
      else sim
    }

    /** held_now, once: what is held when the check begins. */
    method Learn()
      requires Valid()
      modifies `known, `sim
      ensures Valid() && known && sim == old(Known())
    {
      if !known {
        ReadBackAll(Written(seat.file), seat.lo, seat.hi);
        sim := if seat.holder.Some? then Sim(seat.holder.value, seq(HELD_MAX, _ => true))
        else Sim(ReadBack(Written(seat.file), seat.lo, seat.hi), seq(HELD_MAX, _ => false));
        known := true;
      }
    }

    /** held_check: one down: or up: against what is held and the run's earlier ones. */
    method HeldCheck(tok: Token) returns (ok: bool)
      requires Valid()
      modifies `known, `sim
      ensures Valid() && known && SimOk(old(Known()))
      ensures ok == Check(old(Known()), tok).Some?
      ensures sim == if ok then Check(old(Known()), tok).value else old(Known())
      ensures tok.Up? ==> ok == (tok.code in old(KeysOf(Known().codes)))
      ensures tok.Down? ==>
        ok == (tok.code !in old(LiveKeys(Known()))
               && (tok.code in old(KeysOf(Known().codes)) || |old(KeysOf(Known().codes))| < HELD_MAX))
    {
      Learn();
      CheckByKeys(sim, tok);
      var k, n := Find(sim.codes, tok.code), |sim.codes|;
      if tok.Down? && k >= 0 && !sim.live[k] {
        sim := Sim(sim.codes, sim.live[k := true]);
        return true;
      }
      if (tok.Down? && k >= 0) || (tok.Down? && n == HELD_MAX) || (tok.Up? && k < 0) {
        return false;
      }
      if tok.Down? {
        sim := Sim(sim.codes + [tok.code], sim.live[n := true]);
      } else {
        sim := Sim(SwapOut(sim.codes, k), sim.live[k := sim.live[n - 1]]);
      }
      ok := true;
    }

    /** held_stale: a killed holder's keys taken over, each released once. */
    method HeldStale()
      requires Valid() && seat.holder.None?
      modifies `gone, seat
      ensures Valid() && Shared() == Stale(old(Shared()), seat.lo, seat.hi)
      ensures Written(seat.file) == [] && seat.down == {}
    {
      if |gone| > 0 || seat.file.None? || |seat.file.value| == 0 {
        return;
      }
      var codes := ReadBack(seat.file.value, seat.lo, seat.hi);
      ReadBackAll(seat.file.value, seat.lo, seat.hi);
      seat.file := None;   // taken first: only one run does
      for k := 0 to |codes|
        invariant seat.holder.None? && seat.file.None? && gone == [] && seat.trace == old(seat.trace)
        invariant forall c <- seat.down :: c in codes[k..]
      {
        seat.down := seat.down - {codes[k]};
      }
      assert codes[|codes|..] == [];
      assert seat.down == {};
      gone := codes;
    }

    /** The holder asked, started for a down: when there is none. */
    method AskHolder(tok: Token, works: bool) returns (answer: Option<Reply>)
      requires Valid() && (seat.holder.None? ==> seat.down == {} && Written(seat.file) == [])
      modifies seat
      ensures Valid()
      ensures answer.None? <==> old(seat.holder).None? && tok.Up?
      ensures answer.None? ==> seat.holder == old(seat.holder) && seat.file == old(seat.file)
      ensures seat.down == KeysOf(Written(seat.holder))
      ensures answer.Some? ==>
        var (held, reply) := Answer(Written(old(seat.holder)), tok, seat.lo, seat.hi);
        && answer == Some(reply) && seat.holder == (if held == [] then None else Some(held))
        && seat.file == FileAfter(Written(old(seat.holder)), old(seat.file), tok, works, seat.lo, seat.hi)
    {
      if seat.holder.None? && tok.Up? {
        return None;
      }
      if seat.holder.None? {
        seat.holder := Some([]);   // held_start
      }
      var reply := seat.Serve(tok, works);
      answer := Some(reply);
    }

    /** do_held, when the run sends: the holder asked, started for a down: when there is none. */
    method DoHeld(tok: Token, works: bool) returns (ok: bool)
      requires Valid() && Keyed(tok.code, seat.lo, seat.hi)
      modifies `gone, seat
      ensures Valid() && Shared() == Send(old(Shared()), tok, works, seat.lo, seat.hi).0
      ensures seat.down == KeysOf(Written(seat.holder))
      ensures ok == Send(old(Shared()), tok, works, seat.lo, seat.hi).1
    {
      if seat.holder.None? {
        HeldStale();
      }
      var answer := AskHolder(tok, works);
      var j := FindFirst(gone, tok.code);
      if j < |gone| {
        gone := SwapOut(gone, j);
        if answer.None? {
          return true;   // its release was this up:
        }
      }
      ok := answer == Some(Ok);
    }

    /** tokens, with run = 0: nothing is sent. */
    method CheckTokens(tokens: seq<Token>) returns (ok: bool)
      requires Valid()
      modifies `known, `sim
      ensures Valid() && SimOk(old(Known())) && ok == CheckAll(old(Known()), tokens).Some?
      ensures ok && tokens != [] ==> sim == CheckAll(old(Known()), tokens).value
    {
      ghost var first := Known();
      var i := 0;
      while i < |tokens|
        invariant i <= |tokens| && Valid() && SimOk(Known()) && (i > 0 ==> known)
        invariant CheckAll(Known(), tokens[i..]) == CheckAll(first, tokens)
      {
        assert tokens[i..][0] == tokens[i] && tokens[i..][1..] == tokens[i + 1..];
        var one := HeldCheck(tokens[i]);
        if !one {
          return false;
        }
        i := i + 1;
      }
      ok := true;
    }

    /** tokens, with run = 1: each is sent, up to one that fails. */
    method SendTokens(tokens: seq<Token>, saves: seq<bool>) returns (ok: bool)
      requires |saves| == |tokens|
      requires Valid() && AllKeyed(tokens, seat.lo, seat.hi)
      modifies `gone, seat
      ensures Valid() && (Shared(), ok) == SendAll(old(Shared()), tokens, saves, seat.lo, seat.hi)
      ensures tokens != [] ==> seat.down == KeysOf(Written(seat.holder))
    {
      var i := 0;
      while i < |tokens|
        invariant i <= |tokens| && Valid() && (i > 0 ==> seat.down == KeysOf(Written(seat.holder)))
        invariant SendAll(Shared(), tokens[i..], saves[i..], seat.lo, seat.hi)
          == SendAll(old(Shared()), tokens, saves, seat.lo, seat.hi)
      {
        assert tokens[i] in tokens;
        assert tokens[i..][0] == tokens[i] && tokens[i..][1..] == tokens[i + 1..];
        assert saves[i..][0] == saves[i] && saves[i..][1..] == saves[i + 1..];
        var one := DoHeld(tokens[i], saves[i]);
        if !one {
          return false;
        }
        i := i + 1;
      }
      ok := true;
    }

    /** A run of down:, up: alone: checked whole, then sent. With no killed holder's keys a run that is
        sent at all succeeds whole. */
    method Keys(tokens: seq<Token>, saves: seq<bool>) returns (sent: bool, ok: bool)
      requires |saves| == |tokens|
      requires Valid() && AllKeyed(tokens, seat.lo, seat.hi) && !known && gone == []
      modifies this, seat
      ensures Valid() && SimOk(old(Known())) && sent == CheckAll(old(Known()), tokens).Some?
      ensures !sent ==> !ok && Shared() == old(Shared())
      ensures sent ==> (Shared(), ok) == SendAll(old(Shared()), tokens, saves, seat.lo, seat.hi)
      ensures old(seat.holder.Some? || Written(seat.file) == []) ==> ok == sent
      ensures ok && tokens != [] ==> seat.down == Pressed(KeysOf(Written(old(seat.holder))), tokens)
    {
      ghost var r := Shared();
      ok := false;
      sent := CheckTokens(tokens);
      if sent {
        if seat.holder.Some? || Written(seat.file) == [] {
          CheckIsExact(r, tokens, saves, seat.lo, seat.hi);
        }
        SentKeys(r, tokens, saves, seat.lo, seat.hi);
        ok := SendTokens(tokens, saves);
      }
    }
  }
}
