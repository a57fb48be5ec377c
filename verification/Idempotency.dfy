/**
  Idempotency keys: the row of one key, the atomic writes of the service, and the interceptor around one request.
  Request bodies are compared as canonical strings.
*/
module Idempotency {
  import opened Wrappers

  datatype Status = PENDING | COMPLETED | FAILED

  datatype Response = Response(data: string, code: int)

  /** What a row stores, and what a handler produces. */
  datatype Outcome = Success(response: Response) | Failure(error: string, code: int)

  datatype Row = Row(body: string, status: Status, response: Option<Outcome>, expiresAt: int)

  datatype Answer =
    | Replayed(response: Response)
    | Returned(outcome: Outcome)
    | BadRequest
    | Busy
    | StoreError

  const ValidityMillis := 24 * 60 * 60 * 1000

  function Claimed(body: string, expiresAt: int): Row {
    Row(body, PENDING, None, expiresAt)
  }

  /** The write after the handler: unconditional on the row's status. */
  function Marked(row: Row, outcome: Outcome): Row {
    row.(status := if outcome.Success? then COMPLETED else FAILED, response := Some(outcome))
  }

  predicate Expired(row: Row, now: int) {
    now > row.expiresAt
  }

  predicate Replayable(row: Row) {
    row.status == COMPLETED && row.response.Some? && row.response.value.Success?
  }

  datatype Decision = Answer(answer: Answer) | Rearm | Claim

  /** What the first read decides. */
  function Decide(row: Option<Row>, body: string, now: int): Decision {
    match row
    case None => Claim
    case Some(r) =>
      if Expired(r, now) then Rearm
      else if r.body != body then Answer(BadRequest)
      else if Replayable(r) then Answer(Replayed(r.response.value.response))
      else if r.status == PENDING then Answer(Busy)
      else Rearm
  }

  /** What the second read decides, after another request won the unique key.  The body is not compared here. */
  function DecideAfterConflict(row: Option<Row>, now: int): Answer {
    match row
    case None => Busy
    case Some(r) => if Replayable(r) && !Expired(r, now) then Replayed(r.response.value.response) else Busy
  }

  datatype Served = Served(row: Option<Row>, answer: Answer, ran: bool)

  /**
    A store call before the handler that throws.  `done` tells whether a failing write took effect all the same, `noted`
    whether the key could then be marked as failed.
  */
  datatype Fault = NoFault | AtRead(noted: bool) | AtWrite(done: bool, noted: bool) | AtReread(noted: bool)

  /** What a store error is recorded as. */
  const StoreFailure := Failure("Internal server error", 500)

  /** The interceptor's own error path: the key, whatever it holds, is marked as failed. */
  function Broken(row: Option<Row>, noted: bool): Served {
    Served(if noted && row.Some? then Some(Marked(row.value, StoreFailure)) else row, StoreError, false)
  }

  /** One armed request: the handler runs and, if the write succeeds, its outcome is stored. */
  function RunArmed(body: string, now: int, outcome: Outcome, stored: bool): Served {
    var armed := Claimed(body, now + ValidityMillis);
    Served(Some(if stored then Marked(armed, outcome) else armed), Returned(outcome), true)
  }

  /**
    One request from its first read to its last write.  `intruder` is the row a concurrent request inserted between this
    request's read and its claim, as the second read finds it.
  */
  function Serve(row: Option<Row>, body: string, now: int, outcome: Outcome, stored: bool, intruder: Option<Row>, fault: Fault): Served {
    var armed := Some(Claimed(body, now + ValidityMillis));
    if fault.AtRead? then Broken(row, fault.noted)
    else match Decide(row, body, now)
      case Answer(answer) => Served(row, answer, false)
      case Rearm =>
        if fault.AtWrite? then Broken(if fault.done then armed else row, fault.noted) else RunArmed(body, now, outcome, stored)
      case Claim =>
        if fault.AtWrite? then Broken(if intruder.Some? then intruder else if fault.done then armed else None, fault.noted)
        else if intruder.None? then RunArmed(body, now, outcome, stored)
        else if fault.AtReread? then Broken(intruder, fault.noted)
        else Served(intruder, DecideAfterConflict(intruder, now), false)
  }

  class IdempotencyService {
    var row: Option<Row>

    constructor ()
      ensures row == None
    {
      row := None;
    }

    method FindExisting() returns (found: Option<Row>)
      ensures found == row
    {
      found := row;
    }

    /** Inserting relies on the unique key. */
    method Claim(body: string, expiresAt: int) returns (created: bool)
      modifies this
      ensures created == old(row).None?
      ensures row == if created then Some(Claimed(body, expiresAt)) else old(row)
    {
      created := row.None?;
      if created {
        row := Some(Claimed(body, expiresAt));
      }
    }

    /** No compare-and-set: whatever the row is by now, it is armed again. */
    method ResetToPending(body: string, expiresAt: int)
      requires row.Some?
      modifies this
      ensures row == Some(Claimed(body, expiresAt))
    {
      row := Some(row.value.(body := body, response := None, status := PENDING, expiresAt := expiresAt));
    }

    /** After the completion write every request with the key's body is answered with that response, until the key expires. */
    method MarkCompleted(response: Response)
      requires row.Some?
      modifies this
      ensures row.Some? && row.value.body == old(row).value.body && row.value.expiresAt == old(row).value.expiresAt
      ensures row.value.status == COMPLETED && row.value.response == Some(Success(response))
      ensures forall now | !Expired(old(row).value, now) :: Decide(row, old(row).value.body, now) == Answer(Replayed(response))
    {
      row := Some(row.value.(status := COMPLETED, response := Some(Success(response))));
    }

    /** After the failure write a request with the key's body arms the key again. */
    method MarkFailed(error: string, code: int)
      requires row.Some?
      modifies this
      ensures row.Some? && row.value.body == old(row).value.body && row.value.expiresAt == old(row).value.expiresAt
      ensures row.value.status == FAILED && row.value.response == Some(Failure(error, code))
      ensures forall now :: Decide(row, old(row).value.body, now) == Rearm
    {
      row := Some(row.value.(status := FAILED, response := Some(Failure(error, code))));
    }

    /** Another request's insert, seen by this one only through the unique key. */
    method Interfere(inserted: Option<Row>)
      modifies this
      ensures row == if old(row).None? then inserted else old(row)
    {
      if row.None? {
        row := inserted;
      }
    }
  }

  class IdempotencyInterceptor {
    const service: IdempotencyService

    constructor (service: IdempotencyService)
      ensures this.service == service
    {
      this.service := service;
    }

    method Intercept(body: string, now: int, outcome: Outcome, stored: bool, intruder: Option<Row>, fault: Fault) returns (answer: Answer, ran: bool)
      modifies service
      ensures Served(service.row, answer, ran) == Serve(old(service.row), body, now, outcome, stored, intruder, fault)
    {
      var expiresAt := now + ValidityMillis;
      if fault.AtRead? {
        NoteFailure(fault.noted);
        return StoreError, false;
      }
      var existing := service.FindExisting();
      if existing.Some? {
        var r := existing.value;
        if !Expired(r, now) {
          if r.body != body {
            return BadRequest, false;
          }
          if Replayable(r) {
            return Replayed(r.response.value.response), false;
          }
          if r.status == PENDING {
            return Busy, false;
          }
        }
        if fault.AtWrite? && !fault.done {
          NoteFailure(fault.noted);
          return StoreError, false;
        }
        service.ResetToPending(body, expiresAt);
        if fault.AtWrite? {
          NoteFailure(fault.noted);
          return StoreError, false;
        }
      } else {
        service.Interfere(intruder);
        if fault.AtWrite? && !fault.done {
          NoteFailure(fault.noted);
          return StoreError, false;
        }
        var created := service.Claim(body, expiresAt);
        if fault.AtWrite? || (!created && fault.AtReread?) {
          NoteFailure(fault.noted);
          return StoreError, false;
        }
        if !created {
          var winner := service.FindExisting();
          if Replayable(winner.value) && !Expired(winner.value, now) {
            return Replayed(winner.value.response.value.response), false;
          }
          return Busy, false;
        }
      }
      if stored {
        match outcome {
          case Success(response) => service.MarkCompleted(response);
          case Failure(error, code) => service.MarkFailed(error, code);
        }
      }
      return Returned(outcome), true;
    }

    method NoteFailure(noted: bool)
      modifies service
      ensures service.row == Broken(old(service.row), noted).row
    {
      if noted && service.row.Some? {
        service.MarkFailed(StoreFailure.error, StoreFailure.code);
      }
    }
  }

  /* ---- one request, case by case ---- */

  /** The row a run leaves: the request's body, valid for 24 hours, and the outcome if its write succeeded. */
  function RowLeft(body: string, now: int, outcome: Outcome, stored: bool): Row {
    if !stored then Row(body, PENDING, None, now + 86400000)
    else if outcome.Success? then Row(body, COMPLETED, Some(outcome), now + 86400000)
    else Row(body, FAILED, Some(outcome), now + 86400000)
  }

  /** On an unused key nobody else claims, the handler runs. */
  lemma UnusedKeyRuns(body: string, now: int, outcome: Outcome, stored: bool)
    ensures Serve(None, body, now, outcome, stored, None, NoFault) == Served(Some(RowLeft(body, now, outcome, stored)), Returned(outcome), true)
  {
  }

  /** A used key: what the request gets, and that nothing changes unless it runs. */
  lemma UsedKeyAnswers(r: Row, body: string, now: int, outcome: Outcome, stored: bool, intruder: Option<Row>)
    ensures Serve(Some(r), body, now, outcome, stored, intruder, NoFault) ==
      if now > r.expiresAt then Served(Some(RowLeft(body, now, outcome, stored)), Returned(outcome), true)
      else if body != r.body then Served(Some(r), BadRequest, false)
      else if r.status == COMPLETED && r.response.Some? && r.response.value.Success?
      then Served(Some(r), Replayed(r.response.value.response), false)
      else if r.status == PENDING then Served(Some(r), Busy, false)
      else Served(Some(RowLeft(body, now, outcome, stored)), Returned(outcome), true)
  {
  }

  /**
    A request that finds no key but loses the insert to a concurrent one replays that one's response exactly when it is
    completed with it and still valid, and is told to wait otherwise; it neither runs nor touches the row.
  */
  lemma LostInsertAnswers(r: Row, body: string, now: int, outcome: Outcome, stored: bool, x: Response)
    ensures var served := Serve(None, body, now, outcome, stored, Some(r), NoFault);
      && (served.answer == Replayed(x) <==> r.status == COMPLETED && r.response == Some(Success(x)) && now <= r.expiresAt)
      && (served.answer.Replayed? || served.answer == Busy)
      && !served.ran && served.row == Some(r)
  {
  }

  /** The row after the error path: marked as failed if that could be noted and there is a row. */
  function Noted(row: Option<Row>, noted: bool): Option<Row> {
    if row.None? || !noted then row
    else Some(Row(row.value.body, FAILED, Some(Failure("Internal server error", 500)), row.value.expiresAt))
  }

  /** A store error before the handler: at the first read whatever the row; at the write, or at the second read, only if the request gets there. */
  lemma StoreErrorAnswers(row: Option<Row>, body: string, now: int, outcome: Outcome, stored: bool, intruder: Option<Row>, done: bool, noted: bool)
    ensures Serve(row, body, now, outcome, stored, intruder, AtRead(noted)) == Served(Noted(row, noted), StoreError, false)
    ensures var armed := Some(Row(body, PENDING, None, now + 86400000));
      var plain := Serve(row, body, now, outcome, stored, intruder, NoFault);
      Serve(row, body, now, outcome, stored, intruder, AtWrite(done, noted)) ==
        if row.None? then Served(Noted(if intruder.Some? then intruder else if done then armed else None, noted), StoreError, false)
        else if plain.ran then Served(Noted(if done then armed else row, noted), StoreError, false)
        else plain
    ensures var plain := Serve(row, body, now, outcome, stored, intruder, NoFault);
      Serve(row, body, now, outcome, stored, intruder, AtReread(noted)) ==
        if row.None? && intruder.Some? then Served(Noted(intruder, noted), StoreError, false) else plain
  {
  }

  /* ---- one request after another ---- */

  datatype Request = Request(body: string, now: int, outcome: Outcome, stored: bool)

  function ServeOne(row: Option<Row>, q: Request): Served {
    Serve(row, q.body, q.now, q.outcome, q.stored, None, NoFault)
  }

  function Answers(row: Option<Row>, qs: seq<Request>): seq<(Answer, bool)>
    decreases |qs|
  {
    if qs == [] then [] else
    var served := ServeOne(row, qs[0]);
    [(served.answer, served.ran)] + Answers(served.row, qs[1..])
  }

  function RowAfter(row: Option<Row>, qs: seq<Request>): Option<Row>
    decreases |qs|
  {
    if qs == [] then row else RowAfter(ServeOne(row, qs[0]).row, qs[1..])
  }

  /** The reference: run the handler until its first success, then answer with that success forever. */
  function Memoised(memo: Option<Response>, qs: seq<Request>): seq<(Answer, bool)>
    decreases |qs|
  {
    if qs == [] then [] else
    match memo
    case Some(response) => [(Replayed(response), false)] + Memoised(memo, qs[1..])
    case None =>
      [(Returned(qs[0].outcome), true)] + Memoised(if qs[0].outcome.Success? then Some(qs[0].outcome.response) else None, qs[1..])
  }

  /** Same body, inside the window that starts at `start`, and every store write succeeds. */
  predicate Regular(qs: seq<Request>, body: string, start: int) {
    forall k | 0 <= k < |qs| :: qs[k].body == body && start <= qs[k].now <= start + ValidityMillis && qs[k].stored
  }

  /** The rows a regular series produces, and what they remember. */
  predicate Remembers(row: Option<Row>, memo: Option<Response>, body: string, start: int) {
    match row
    case None => memo.None?
    case Some(r) =>
      && r.body == body && r.expiresAt >= start + ValidityMillis
      && (if memo.Some? then r.status == COMPLETED && r.response == Some(Success(memo.value)) else r.status == FAILED)
  }

  lemma {:induction false} SeriesIsMemoised(row: Option<Row>, memo: Option<Response>, qs: seq<Request>, body: string, start: int)
    requires Regular(qs, body, start) && Remembers(row, memo, body, start)
    ensures Answers(row, qs) == Memoised(memo, qs)
    decreases |qs|
  {
    if qs != [] {
      var q := qs[0];
      var served := ServeOne(row, q);
      var after := if memo.Some? then memo else if q.outcome.Success? then Some(q.outcome.response) else None;
      assert Remembers(served.row, after, body, start);
      SeriesIsMemoised(served.row, after, qs[1..], body, start);
    }
  }

  /** From an unused key: answers and handler runs are exactly "run until the first success, then memoise". */
  lemma FreshKeyIsMemoised(qs: seq<Request>, body: string, start: int)
    requires Regular(qs, body, start)
    ensures Answers(None, qs) == Memoised(None, qs)
  {
    SeriesIsMemoised(None, None, qs, body, start);
  }

  predicate AllFail(qs: seq<Request>) {
    forall i | 0 <= i < |qs| :: qs[i].outcome.Failure?
  }

  /** While everything has failed, the reference does nothing but run the handler. */
  lemma {:induction false} MemoisedAppends(failed: seq<Request>, qs: seq<Request>)
    requires AllFail(failed)
    ensures Memoised(None, failed + qs) == Memoised(None, failed) + Memoised(None, qs)
    ensures |Memoised(None, failed)| == |failed|
    ensures forall k | 0 <= k < |failed| :: Memoised(None, failed)[k] == (Returned(failed[k].outcome), true)
    decreases |failed|
  {
    if failed == [] {
      assert failed + qs == qs;
    } else {
      assert (failed + qs)[0] == failed[0] && (failed + qs)[1..] == failed[1..] + qs;
      MemoisedAppends(failed[1..], qs);
    }
  }

  /**
    So on an unused key: requests before the first success each run the handler and get its error, the first success is
    returned, and no later request runs the handler: each replays that success.
  */
  lemma FirstSuccessIsFinal(failed: seq<Request>, q: Request, later: seq<Request>, body: string, start: int)
    requires Regular(failed + [q] + later, body, start) && AllFail(failed) && q.outcome.Success?
    ensures var answers := Answers(None, failed + [q] + later);
      && |answers| == |failed| + 1 + |later|
      && (forall k | 0 <= k < |failed| :: answers[k] == (Returned(failed[k].outcome), true))
      && answers[|failed|] == (Returned(q.outcome), true)
      && (forall k | |failed| < k < |answers| :: answers[k] == (Replayed(q.outcome.response), false))
  {
    FreshKeyIsMemoised(failed + [q] + later, body, start);
    assert failed + [q] + later == failed + ([q] + later);
    MemoisedAppends(failed, [q] + later);
    assert ([q] + later)[1..] == later;
    ReplayForever(q.outcome.response, later);
  }

  lemma {:induction false} ReplayForever(response: Response, qs: seq<Request>)
    ensures |Memoised(Some(response), qs)| == |qs|
    ensures forall k | 0 <= k < |qs| :: Memoised(Some(response), qs)[k] == (Replayed(response), false)
    decreases |qs|
  {
    if qs != [] { ReplayForever(response, qs[1..]); }
  }

  /** A handler runs exactly on an unused key, an expired one, or a failed one presented with its own body. */
  lemma RunsExactly(row: Option<Row>, q: Request)
    requires row.Some? && row.value.status == COMPLETED ==> Replayable(row.value)
    ensures ServeOne(row, q).ran <==>
      row.None? || Expired(row.value, q.now) || (row.value.status == FAILED && row.value.body == q.body)
    ensures ServeOne(row, q).answer == BadRequest <==> row.Some? && !Expired(row.value, q.now) && row.value.body != q.body
    ensures !ServeOne(row, q).ran ==> ServeOne(row, q).row == row
  {
  }

  /* ---- lost writes ---- */

  /** A pending key inside its window: nobody gets through. */
  predicate Wedged(row: Option<Row>, now: int) {
    row.Some? && row.value.status == PENDING && !Expired(row.value, now)
  }

  lemma {:induction false} AnswersLength(row: Option<Row>, qs: seq<Request>)
    ensures |Answers(row, qs)| == |qs|
    decreases |qs|
  {
    if qs != [] { AnswersLength(ServeOne(row, qs[0]).row, qs[1..]); }
  }

  /** Request `k` of the series ran the handler. */
  predicate Ran(row: Option<Row>, qs: seq<Request>, k: nat) {
    k < |qs| && k < |Answers(row, qs)| && Answers(row, qs)[k].1
  }

  predicate LastRun(row: Option<Row>, qs: seq<Request>, k: nat) {
    Ran(row, qs, k) && forall j | k < j < |qs| :: !Ran(row, qs, j)
  }

  lemma RanTail(row: Option<Row>, qs: seq<Request>, k: nat)
    requires 1 <= k < |qs|
    ensures Ran(row, qs, k) <==> Ran(ServeOne(row, qs[0]).row, qs[1..], k - 1)
  {
    AnswersLength(row, qs);
    AnswersLength(ServeOne(row, qs[0]).row, qs[1..]);
  }

  /** Whatever happened before, the row after a series is the one its last run left, or the first row if nobody ran. */
  lemma {:induction false} RowIsLastRuns(row: Option<Row>, qs: seq<Request>)
    ensures (forall k | 0 <= k < |qs| :: !Ran(row, qs, k)) ==> RowAfter(row, qs) == row
    ensures forall k | 0 <= k < |qs| && LastRun(row, qs, k) ::
      RowAfter(row, qs) == RunArmed(qs[k].body, qs[k].now, qs[k].outcome, qs[k].stored).row
    decreases |qs|
  {
    hide ServeOne, Ran, RunArmed;
    if qs != [] {
      var served, rest := ServeOne(row, qs[0]), qs[1..];
      ServedRow(row, qs[0]);
      FirstRan(row, qs);
      RowIsLastRuns(served.row, rest);
      forall k | 1 <= k < |qs| ensures Ran(row, qs, k) <==> Ran(served.row, rest, k - 1) { RanTail(row, qs, k); }
      if forall k | 0 <= k < |qs| :: !Ran(row, qs, k) {
        assert !Ran(row, qs, 0);
        forall j | 0 <= j < |rest| ensures !Ran(served.row, rest, j) { assert !Ran(row, qs, j + 1); }
      }
      forall k | 0 <= k < |qs| && LastRun(row, qs, k)
        ensures RowAfter(row, qs) == RunArmed(qs[k].body, qs[k].now, qs[k].outcome, qs[k].stored).row
      {
        if k > 0 {
          assert forall j | k - 1 < j < |rest| :: Ran(row, qs, j + 1) <==> Ran(served.row, rest, j);
          assert LastRun(served.row, rest, k - 1) && rest[k - 1] == qs[k];
        } else {
          assert forall j | 0 <= j < |rest| :: Ran(row, qs, j + 1) <==> Ran(served.row, rest, j);
        }
      }
    }
  }

  lemma FirstRan(row: Option<Row>, qs: seq<Request>)
    requires qs != []
    ensures Ran(row, qs, 0) <==> ServeOne(row, qs[0]).ran
  {
  }

  lemma ServedRow(row: Option<Row>, q: Request)
    ensures ServeOne(row, q).row == if ServeOne(row, q).ran then RunArmed(q.body, q.now, q.outcome, q.stored).row else row
  {
  }

  /** One request leaves the key wedged exactly when it ran and its write was lost, or found it wedged. */
  lemma RequestWedges(row: Option<Row>, q: Request)
    ensures Wedged(ServeOne(row, q).row, q.now) <==> (ServeOne(row, q).ran && !q.stored) || Wedged(row, q.now)
  {
  }

  /**
    With a store error before the handler there is one more way: a claim or re-arm that took effect all the same and could
    not be noted wedges the key without any run.
  */
  lemma BrokenRequestWedges(row: Option<Row>, body: string, now: int, outcome: Outcome, stored: bool, done: bool, noted: bool)
    requires !Wedged(row, now)
    ensures var served := Serve(row, body, now, outcome, stored, None, AtWrite(done, noted));
      && !served.ran
      && (Wedged(served.row, now) <==>
            (done && !noted && (row.None? || Expired(row.value, now) || (row.value.body == body && !Replayable(row.value)))))
  {
  }

  lemma {:induction false} SomeLastRun(row: Option<Row>, qs: seq<Request>, n: nat)
    requires n <= |qs| && forall j | n <= j < |qs| :: !Ran(row, qs, j)
    ensures (forall k | 0 <= k < |qs| :: !Ran(row, qs, k)) || exists k :: 0 <= k < |qs| && LastRun(row, qs, k)
  {
    hide Ran;
    if n > 0 {
      if Ran(row, qs, n - 1) { assert LastRun(row, qs, n - 1); } else { SomeLastRun(row, qs, n - 1); }
    }
  }

  /**
    When a key is wedged: after any series on an unused key, of any bodies, times and outcomes, the key is wedged at a
    moment exactly when the write of the last run was lost and that run's window is not over.
  */
  lemma SeriesWedges(qs: seq<Request>, now: int)
    ensures Wedged(RowAfter(None, qs), now) <==>
      exists k :: 0 <= k < |qs| && LastRun(None, qs, k) && !qs[k].stored && now <= qs[k].now + ValidityMillis
  {
    hide LastRun, RowAfter, Ran;
    RowIsLastRuns(None, qs);
    SomeLastRun(None, qs, |qs|);
    UniqueLastRun(None, qs);
  }

  lemma UniqueLastRun(row: Option<Row>, qs: seq<Request>)
    ensures forall j, k | 0 <= j < |qs| && 0 <= k < |qs| && LastRun(row, qs, j) && LastRun(row, qs, k) :: j == k
  {
    hide Ran;
  }

  /** A wedged key stays as it is: every request inside the window is refused without running. */
  lemma {:induction false} WedgedRefuses(row: Row, qs: seq<Request>)
    requires row.status == PENDING && forall k | 0 <= k < |qs| :: !Expired(row, qs[k].now)
    ensures RowAfter(Some(row), qs) == Some(row)
    ensures |Answers(Some(row), qs)| == |qs|
    ensures forall k | 0 <= k < |qs| :: Answers(Some(row), qs)[k] == (if qs[k].body == row.body then Busy else BadRequest, false)
    decreases |qs|
  {
    if qs != [] {
      WedgedRefuses(row, qs[1..]);
    }
  }

  /**
    So on an unused key, a request whose handler ran, successfully or not, and whose write was lost wedges the key: every
    retry inside its window is told to wait.
  */
  lemma LostWriteWedges(q: Request, later: seq<Request>)
    requires !q.stored && forall k | 0 <= k < |later| :: later[k].body == q.body && later[k].now <= q.now + ValidityMillis
    ensures var answers := Answers(None, [q] + later);
      && |answers| == 1 + |later| && answers[0] == (Returned(q.outcome), true)
      && forall k | 1 <= k < |answers| :: answers[k] == (Busy, false)
  {
    var row := Claimed(q.body, q.now + ValidityMillis);
    assert ServeOne(None, q).row == Some(row);
    assert ([q] + later)[1..] == later;
    WedgedRefuses(row, later);
  }
}
