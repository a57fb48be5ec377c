/** Concurrent requests on one key: every interleaving of their reads, claims, handler runs and writes. */
module IdempotencyRaces {
  import opened Wrappers
  import opened Idempotency

  /** Where a request stands.  `Lost` has met the unique key and reads again; `Finished` still has its write to do. */
  datatype Stage = Arrived | Claiming | Arming | Lost | Running | Finished(outcome: Outcome) | Done(answer: Answer)

  datatype Caller = Caller(body: string, expiresAt: int)

  /**
    The key's row and each request's stage.  The other fields are history: how often the handler was started and by whom,
    which requests read a failed or expired row, and the responses of successful runs.
  */
  datatype State = State(row: Option<Row>, stages: seq<Stage>, runs: nat, started: set<nat>, armed: set<nat>, successes: set<Response>)

  datatype Step =
    | Read(i: nat, now: int)
    | Insert(i: nat)
    | Reset(i: nat)
    | ReadAgain(i: nat, now: int)
    | Finish(i: nat, outcome: Outcome)
    | Write(i: nat, stored: bool)
    | Break(i: nat, done: bool, stored: bool)

  function Move(s: State, i: nat, stage: Stage): State
    requires i < |s.stages|
  {
    s.(stages := s.stages[i := stage])
  }

  function Start(s: State, i: nat, caller: Caller): State
    requires i < |s.stages|
  {
    Move(s, i, Running).(row := Some(Claimed(caller.body, caller.expiresAt)), runs := s.runs + 1, started := s.started + {i})
  }

  function AfterRead(s: State, i: nat, caller: Caller, now: int): State
    requires i < |s.stages|
  {
    match Decide(s.row, caller.body, now)
    case Answer(answer) => Move(s, i, Done(answer))
    case Rearm => Move(s, i, Arming).(armed := s.armed + {i})
    case Claim => Move(s, i, Claiming)
  }

  /** A step its request is not ready for does nothing. */
  function Next(callers: seq<Caller>, s: State, step: Step): (t: State)
    requires |callers| == |s.stages|
    ensures |t.stages| == |s.stages|
  {
    var i := step.i;
    if i >= |s.stages| then s
    else
      match (step, s.stages[i])
      case (Read(_, now), Arrived) => AfterRead(s, i, callers[i], now)
      case (Insert(_), Claiming) => if s.row.None? then Start(s, i, callers[i]) else Move(s, i, Lost)
      case (Reset(_), Arming) => if s.row.Some? then Start(s, i, callers[i]) else s
      case (ReadAgain(_, now), Lost) => Move(s, i, Done(DecideAfterConflict(s.row, now)))
      case (Finish(_, outcome), Running) =>
        Move(s, i, Finished(outcome)).(successes := s.successes + if outcome.Success? then {outcome.response} else {})
      case (Write(_, stored), Finished(outcome)) =>
        Move(s, i, Done(Returned(outcome))).(row := if stored && s.row.Some? then Some(Marked(s.row.value, outcome)) else s.row)
      case (Break(_, done, stored), _) => if BeforeRun(s.stages[i]) then BreakOff(s, i, callers[i], done, stored) else s
      case _ => s
  }

  predicate BeforeRun(stage: Stage) {
    stage == Arrived || stage == Claiming || stage == Arming || stage == Lost
  }

  /**
    A store call before the handler fails: the interceptor marks the key as failed, whatever it holds.  A failing insert
    or reset may have taken effect all the same.
  */
  function BreakOff(s: State, i: nat, caller: Caller, done: bool, stored: bool): State
    requires i < |s.stages|
  {
    var written := done && (s.stages[i] == Arming || (s.stages[i] == Claiming && s.row.None?));
    var row := if written then Some(Claimed(caller.body, caller.expiresAt)) else s.row;
    Move(s, i, Done(StoreError)).(row := Broken(row, stored).row)
  }

  function Run(callers: seq<Caller>, s: State, steps: seq<Step>): (t: State)
    requires |callers| == |s.stages|
    ensures |t.stages| == |s.stages|
    decreases |steps|
  {
    if steps == [] then s else Run(callers, Next(callers, s, steps[0]), steps[1..])
  }

  predicate Initial(s: State) {
    s.row.None? && s.runs == 0 && s.started == {} && s.armed == {} && s.successes == {}
    && forall i | 0 <= i < |s.stages| :: s.stages[i] == Arrived
  }

  /* ---- every interleaving, failures, expiry and store errors included ---- */

  /** Everyone who started the handler read a failed or expired row, except the one who inserted the row. */
  predicate Accounted(s: State, owner: Option<nat>) {
    && s.runs == |s.started|
    && (s.row.None? ==> owner.None?)
    && (forall i | i in s.started :: i in s.armed || owner == Some(i))
    && (forall i | i in s.started :: i < |s.stages| && !BeforeRun(s.stages[i]))
    && (forall i | 0 <= i < |s.stages| && s.stages[i] == Arming :: i in s.armed)
  }

  function OwnerAfter(s: State, step: Step, owner: Option<nat>): Option<nat> {
    if step.Insert? && step.i < |s.stages| && s.stages[step.i] == Claiming && s.row.None? then Some(step.i) else owner
  }

  lemma AccountedStart(s: State, i: nat, caller: Caller, owner: Option<nat>, next: Option<nat>)
    requires Accounted(s, owner) && i < |s.stages| && BeforeRun(s.stages[i])
    requires (i in s.armed && next == owner) || (owner.None? && next == Some(i))
    ensures Accounted(Start(s, i, caller), next)
  {
    assert i !in s.started;
  }

  lemma AccountedStep(callers: seq<Caller>, s: State, step: Step, owner: Option<nat>)
    requires |callers| == |s.stages| && Accounted(s, owner)
    ensures Accounted(Next(callers, s, step), OwnerAfter(s, step, owner))
  {
    hide Start, Decide, DecideAfterConflict, Marked;
    var i := step.i;
    if i < |s.stages| {
      if step.Insert? && s.stages[i] == Claiming && s.row.None? {
        AccountedStart(s, i, callers[i], owner, Some(i));
      } else if step.Reset? && s.stages[i] == Arming && s.row.Some? {
        AccountedStart(s, i, callers[i], owner, owner);
      } else if BeforeRun(s.stages[i]) {
        assert i !in s.started;
      }
    }
  }

  lemma {:induction false} AccountedRun(callers: seq<Caller>, s: State, steps: seq<Step>, owner: Option<nat>) returns (last: Option<nat>)
    requires |callers| == |s.stages| && Accounted(s, owner)
    ensures Accounted(Run(callers, s, steps), last)
    decreases |steps|
  {
    hide Next, Accounted;
    last := owner;
    if steps != [] {
      AccountedStep(callers, s, steps[0], owner);
      last := AccountedRun(callers, Next(callers, s, steps[0]), steps[1..], OwnerAfter(s, steps[0], owner));
    }
  }

  lemma Subset(a: set<nat>, b: set<nat>)
    requires a <= b
    ensures |a| <= |b|
  {
    assert b == a + (b - a);
  }

  /**
    In every interleaving, with handler failures, expiry and store errors, the handler is started at most once more than
    the number of requests that read a failed or expired row: the unique key lets one insert through.
  */
  lemma StartsBounded(callers: seq<Caller>, s: State, steps: seq<Step>)
    requires |callers| == |s.stages| && Initial(s)
    ensures Run(callers, s, steps).runs <= 1 + |Run(callers, s, steps).armed|
  {
    hide Next;
    var t := Run(callers, s, steps);
    var owner := AccountedRun(callers, s, steps, None);
    var allowed := t.armed + if owner.Some? then {owner.value} else {};
    Subset(t.started, allowed);
  }

  /** Whatever the row and the stages hold comes from a successful run. */
  predicate Genuine(s: State) {
    && (s.row.Some? && Replayable(s.row.value) ==> s.row.value.response.value.response in s.successes)
    && forall i | 0 <= i < |s.stages| ::
      && (s.stages[i].Finished? && s.stages[i].outcome.Success? ==> s.stages[i].outcome.response in s.successes)
      && (s.stages[i].Done? && s.stages[i].answer.Replayed? ==> s.stages[i].answer.response in s.successes)
  }

  lemma GenuineStep(callers: seq<Caller>, s: State, step: Step)
    requires |callers| == |s.stages| && Genuine(s)
    ensures Genuine(Next(callers, s, step))
  {
  }

  /** In every interleaving, each replayed response is the response and status code of some successful run on this key. */
  lemma {:induction false} ReplaysAreGenuine(callers: seq<Caller>, s: State, steps: seq<Step>)
    requires |callers| == |s.stages| && Genuine(s)
    ensures Genuine(Run(callers, s, steps))
    decreases |steps|
  {
    hide Next, Genuine;
    if steps != [] {
      GenuineStep(callers, s, steps[0]);
      ReplaysAreGenuine(callers, Next(callers, s, steps[0]), steps[1..]);
    }
  }

  /* ---- without failure, lost write, store error or expiry ---- */

  predicate CleanStep(callers: seq<Caller>, step: Step) {
    match step
    case Read(_, now) => forall k | 0 <= k < |callers| :: now <= callers[k].expiresAt
    case Finish(_, outcome) => outcome.Success?
    case Break(_, _, _) => false
    case _ => true
  }

  predicate Clean(callers: seq<Caller>, steps: seq<Step>) {
    forall k | 0 <= k < |steps| :: CleanStep(callers, steps[k])
  }

  predicate InHandler(s: State, i: nat) {
    i < |s.stages| && s.stages[i] == Running
  }

  /** Pending or completed with a replayable response, and valid as long as some request's claim. */
  predicate Settled(callers: seq<Caller>, row: Row) {
    && row.status != FAILED && (row.status == COMPLETED ==> Replayable(row))
    && exists k | 0 <= k < |callers| :: callers[k].expiresAt == row.expiresAt
  }

  /** The row is never failed nor expired, so nobody arms it again, and one run at most is under way or finished. */
  predicate Once(callers: seq<Caller>, s: State) {
    && (s.row.None? ==> s.runs == 0 && s.successes == {})
    && (s.row.Some? ==> s.runs == 1 && Settled(callers, s.row.value))
    && (forall i | 0 <= i < |s.stages| :: s.stages[i] != Arming)
    && (forall i | 0 <= i < |s.stages| && s.stages[i].Finished? :: s.stages[i].outcome.Success?)
    && (s.row.None? ==> forall i | 0 <= i < |s.stages| :: s.stages[i] == Arrived || s.stages[i] == Claiming)
    && (forall i, j | 0 <= i < |s.stages| && 0 <= j < |s.stages| && InHandler(s, i) && InHandler(s, j) :: i == j)
    && (forall i | 0 <= i < |s.stages| && InHandler(s, i) :: s.successes == {})
    && (forall a, b | a in s.successes && b in s.successes :: a == b)
  }

  lemma OnceRead(callers: seq<Caller>, s: State, i: nat, now: int)
    requires |callers| == |s.stages| && Once(callers, s) && CleanStep(callers, Read(i, now))
    ensures Once(callers, Next(callers, s, Read(i, now)))
  {
    var t := Next(callers, s, Read(i, now));
    if t != s {
      assert s.row.Some? ==> !Expired(s.row.value, now);
      assert t.stages[i] != Running;
      assert forall k | 0 <= k < |t.stages| && InHandler(t, k) :: InHandler(s, k);
    }
  }

  lemma OnceInsert(callers: seq<Caller>, s: State, i: nat)
    requires |callers| == |s.stages| && Once(callers, s)
    ensures Once(callers, Next(callers, s, Insert(i)))
  {
    var t := Next(callers, s, Insert(i));
    if t != s {
      if s.row.None? {
        assert callers[i].expiresAt == t.row.value.expiresAt;
        assert forall k | 0 <= k < |t.stages| && InHandler(t, k) :: k == i;
      } else {
        assert forall k | 0 <= k < |t.stages| && InHandler(t, k) :: InHandler(s, k);
      }
    }
  }

  lemma OnceLate(callers: seq<Caller>, s: State, step: Step)
    requires |callers| == |s.stages| && Once(callers, s) && CleanStep(callers, step) && !step.Read? && !step.Insert?
    ensures Once(callers, Next(callers, s, step))
  {
    var t := Next(callers, s, step);
    if t != s {
      assert t.stages[step.i] != Running;
      assert forall k | 0 <= k < |t.stages| && InHandler(t, k) :: InHandler(s, k) && k != step.i;
      if step.Finish? { assert InHandler(s, step.i); }
    }
  }

  lemma OnceStep(callers: seq<Caller>, s: State, step: Step)
    requires |callers| == |s.stages| && Once(callers, s) && CleanStep(callers, step)
    ensures Once(callers, Next(callers, s, step))
  {
    hide Next, Once, CleanStep;
    match step
    case Read(i, now) => OnceRead(callers, s, i, now);
    case Insert(i) => OnceInsert(callers, s, i);
    case _ => OnceLate(callers, s, step);
  }

  lemma {:induction false} OnceRun(callers: seq<Caller>, s: State, steps: seq<Step>)
    requires |callers| == |s.stages| && Once(callers, s) && Clean(callers, steps)
    ensures Once(callers, Run(callers, s, steps))
    decreases |steps|
  {
    hide Next, Once, CleanStep;
    if steps != [] {
      var step := steps[0];
      assert CleanStep(callers, step);
      OnceStep(callers, s, step);
      OnceRun(callers, Next(callers, s, step), steps[1..]);
    }
  }

  /**
    In every interleaving on an unused key in which no handler fails, no store call fails and nothing expires, the handler
    starts at most once, and every replayed answer is that one run's response and status code.
  */
  lemma AtMostOnce(callers: seq<Caller>, s: State, steps: seq<Step>)
    requires |callers| == |s.stages| && Initial(s) && Clean(callers, steps)
    ensures var t := Run(callers, s, steps);
      && t.runs <= 1 && |t.successes| <= 1
      && forall i | 0 <= i < |t.stages| && t.stages[i].Done? && t.stages[i].answer.Replayed? ::
        t.successes == {t.stages[i].answer.response}
  {
    hide Next, Run, Clean;
    var t := Run(callers, s, steps);
    OnceRun(callers, s, steps);
    ReplaysAreGenuine(callers, s, steps);
    if r :| r in t.successes {
      assert t.successes == {r};
    }
  }

  /* ---- one request alone ---- */

  lemma RunsOut(callers: seq<Caller>, s: State, i: nat, outcome: Outcome, stored: bool)
    requires |callers| == |s.stages| && i < |s.stages| && s.stages[i] == Running && s.row.Some?
    ensures var t := Next(callers, Next(callers, s, Finish(i, outcome)), Write(i, stored));
      && t.stages == s.stages[i := Done(Returned(outcome))] && t.runs == s.runs
      && t.row == (if stored then Some(Marked(s.row.value, outcome)) else s.row)
      && t.successes == (if outcome.Success? then s.successes + {outcome.response} else s.successes)
  {
    hide Marked;
  }

  lemma StandsStill(callers: seq<Caller>, s: State, i: nat, outcome: Outcome, stored: bool)
    requires |callers| == |s.stages| && i < |s.stages| && s.stages[i].Done?
    ensures Next(callers, Next(callers, s, Finish(i, outcome)), Write(i, stored)) == s
    ensures Next(callers, Next(callers, s, Insert(i)), Reset(i)) == s
  {
  }

  /** A request with no other in between: its steps, those it is not ready for doing nothing, are what `Serve` does at once. */
  lemma AloneIsServe(callers: seq<Caller>, s: State, i: nat, now: int, outcome: Outcome, stored: bool)
    requires |callers| == |s.stages| && i < |s.stages| && s.stages[i] == Arrived
    requires callers[i].expiresAt == now + ValidityMillis
    ensures var served := Serve(s.row, callers[i].body, now, outcome, stored, None, NoFault);
      var armed := Next(callers, Next(callers, Next(callers, s, Read(i, now)), Insert(i)), Reset(i));
      var t := Next(callers, Next(callers, armed, Finish(i, outcome)), Write(i, stored));
      && t.row == served.row && t.stages == s.stages[i := Done(served.answer)]
      && t.runs == s.runs + (if served.ran then 1 else 0)
      && t.successes == (if served.ran && outcome.Success? then s.successes + {outcome.response} else s.successes)
  {
    hide Marked;
    var read := Next(callers, s, Read(i, now));
    var armed := Next(callers, Next(callers, read, Insert(i)), Reset(i));
    if Decide(s.row, callers[i].body, now).Answer? {
      StandsStill(callers, read, i, outcome, stored);
    } else {
      assert armed.stages == s.stages[i := Running] && armed.runs == s.runs + 1 && armed.successes == s.successes;
      assert armed.row == Some(Claimed(callers[i].body, callers[i].expiresAt));
      hide Next, Decide;
      RunsOut(callers, armed, i, outcome, stored);
    }
  }

  /** And its store errors are those of `Serve`: at the first read, at the insert or reset, or at the second read. */
  lemma BreakIsServe(callers: seq<Caller>, s: State, i: nat, done: bool, stored: bool)
    requires |callers| == |s.stages| && i < |s.stages|
    requires s.stages[i] == Arrived || s.stages[i] == Claiming || s.stages[i] == Arming || s.stages[i] == Lost
    ensures var t := Next(callers, s, Break(i, done, stored));
      var armed := Some(Row(callers[i].body, PENDING, None, callers[i].expiresAt));
      && t.stages[i] == Done(StoreError) && t.runs == s.runs && t.successes == s.successes
      && (s.stages[i] == Arrived || s.stages[i] == Lost ==> t.row == Noted(s.row, stored))
      && (s.stages[i] == Claiming ==> t.row == Noted(if done && s.row.None? then armed else s.row, stored))
      && (s.stages[i] == Arming ==> t.row == Noted(if done then armed else s.row, stored))
  {
  }

  /* ---- where it stops holding ---- */

  /**
    Arming again is not guarded: on any key that two waiting requests would each arm, a failed one with their body or an
    expired one with whatever bodies, both can read it and then both start the handler.
  */
  lemma RearmedKeyRunsTwice(callers: seq<Caller>, s: State, i: nat, j: nat, now: int)
    requires |callers| == |s.stages| && i < |s.stages| && j < |s.stages| && i != j
    requires s.stages[i] == Arrived && s.stages[j] == Arrived
    requires s.row.Some?
    requires Expired(s.row.value, now) ||
      (s.row.value.status == FAILED && callers[i].body == s.row.value.body && callers[j].body == s.row.value.body)
    ensures var t := Run(callers, s, [Read(i, now), Read(j, now), Reset(i), Reset(j)]);
      |t.stages| == |s.stages| && t.runs == s.runs + 2 && t.stages[i] == Running && t.stages[j] == Running
  {
    RunFour(callers, s, Read(i, now), Read(j, now), Reset(i), Reset(j));
  }

  lemma RunFour(callers: seq<Caller>, s: State, a: Step, b: Step, c: Step, d: Step)
    requires |callers| == |s.stages|
    ensures Run(callers, s, [a, b, c, d]) == Next(callers, Next(callers, Next(callers, Next(callers, s, a), b), c), d)
  {
    hide Next;
    RunStep(callers, s, a, [b, c, d]);
    var s1 := Next(callers, s, a);
    RunStep(callers, s1, b, [c, d]);
    var s2 := Next(callers, s1, b);
    RunStep(callers, s2, c, [d]);
    RunStep(callers, Next(callers, s2, c), d, []);
  }

  lemma RunStep(callers: seq<Caller>, s: State, a: Step, rest: seq<Step>)
    requires |callers| == |s.stages|
    ensures Run(callers, s, [a] + rest) == Run(callers, Next(callers, s, a), rest)
  {
    assert ([a] + rest)[1..] == rest;
  }

  /** A replay decided by the first read always comes from a row with the request's own body. */
  lemma FirstReplayMatchesBody(callers: seq<Caller>, s: State, i: nat, now: int, response: Response)
    requires |callers| == |s.stages| && i < |s.stages| && s.stages[i] == Arrived
    ensures Next(callers, s, Read(i, now)).stages[i] == Done(Replayed(response)) <==>
      && s.row.Some? && !Expired(s.row.value, now) && s.row.value.body == callers[i].body
      && s.row.value.status == COMPLETED && s.row.value.response == Some(Success(response))
  {
  }

  /**
    After a lost insert it is not compared: a request whose first read found no key is answered with a response exactly
    when the row is valid and holds it, whatever the two bodies are.
  */
  lemma LateReplayIgnoresBody(callers: seq<Caller>, s: State, i: nat, now: int, response: Response)
    requires |callers| == |s.stages| && i < |s.stages| && s.stages[i] == Claiming && s.row.Some?
    ensures Next(callers, Next(callers, s, Insert(i)), ReadAgain(i, now)).stages[i] == Done(Replayed(response)) <==>
      && !Expired(s.row.value, now) && s.row.value.status == COMPLETED && s.row.value.response == Some(Success(response))
  {
  }
}
