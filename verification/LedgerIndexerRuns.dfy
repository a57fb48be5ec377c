/** What the indexer guarantees over whole runs of polls, rollbacks and timer ticks. */
module LedgerIndexerRuns {
  import opened Wrappers
  import opened EventHandlers
  import opened LedgerIndexer

  datatype Action = Poll(input: PollInput) | Rollback(reorg: Reorg) | Restart(latest: int, configured: int, stored: bool)

  function Act(s: State, network: string, threshold: int, a: Action): State {
    match a
    case Poll(input) => Polled(s, network, input)
    case Rollback(reorg) => RolledBack(s, network, reorg, threshold)
    case Restart(latest, configured, stored) => Initialized(s, latest, configured, stored)
  }

  function Run(s: State, network: string, threshold: int, actions: seq<Action>): State
    decreases |actions|
  {
    if actions == [] then s else Run(Act(s, network, threshold, actions[0]), network, threshold, actions[1..])
  }

  /* ---- how often a handler runs ---- */

  function Count(log: seq<string>, id: string): nat {
    if log == [] then 0 else Count(log[..|log| - 1], id) + if log[|log| - 1] == id then 1 else 0
  }

  lemma CountAppend(log: seq<string>, x: string, id: string)
    ensures Count(log + [x], id) == Count(log, id) + if x == id then 1 else 0
  {
    assert (log + [x])[..|log|] == log;
  }

  /** An executed event whose mark could not be written. */
  predicate Unmarked(a: Attempt, id: string) {
    a.event.id == id && a.outcome.Handled? && !a.outcome.marked
  }

  function UnmarkedIn(batch: seq<Attempt>, id: string): nat {
    if batch == [] then 0 else (if Unmarked(batch[0], id) then 1 else 0) + UnmarkedIn(batch[1..], id)
  }

  function UnmarkedDuring(a: Action, id: string): nat {
    if a.Poll? && a.input.fetched.Some? then UnmarkedIn(a.input.fetched.value, id) else 0
  }

  /** A rollback to a ledger below the event's ledger. */
  function RollsBack(a: Action, threshold: int, ledger: int): nat {
    if a.Rollback? && a.reorg.hasReorg && SafeLedger(a.reorg, threshold) < ledger then 1 else 0
  }

  /** How many more executions of `id` the run may add. */
  function Allowance(actions: seq<Action>, threshold: int, id: string, ledger: int): nat {
    if actions == [] then 0
    else RollsBack(actions[0], threshold, ledger) + UnmarkedDuring(actions[0], id) + Allowance(actions[1..], threshold, id, ledger)
  }

  /** Every occurrence of an event id carries the same ledger. */
  predicate Consistent(batch: seq<Attempt>, id: string, ledger: int) {
    forall k | 0 <= k < |batch| && batch[k].event.id == id :: batch[k].event.ledger == ledger
  }

  predicate ConsistentRun(actions: seq<Action>, id: string, ledger: int) {
    forall k | 0 <= k < |actions| && actions[k].Poll? && actions[k].input.fetched.Some? ::
      Consistent(actions[k].input.fetched.value, id, ledger)
  }

  /** The dedup row of `id`, when there is one, belongs to this network and to the event's ledger. */
  predicate OwnRow(s: State, network: string, id: string, ledger: int) {
    id in s.processed ==> s.processed[id] == Mark(network, ledger)
  }

  function Slack(s: State, id: string): nat {
    if id in s.processed then 0 else 1
  }

  lemma ProcessCounts(s: State, network: string, a: Attempt, id: string, ledger: int)
    requires OwnRow(s, network, id, ledger) && (a.event.id == id ==> a.event.ledger == ledger)
    ensures var s1 := Process(s, network, a).0;
      && OwnRow(s1, network, id, ledger)
      && Count(s1.executed, id) + Slack(s1, id) <= Count(s.executed, id) + Slack(s, id) + if Unmarked(a, id) then 1 else 0
  {
    hide Process, Count;
    ProcessEffect(s, network, a);
    CountAppend(s.executed, a.event.id, id);
  }

  lemma {:induction false} SweepCounts(s: State, network: string, batch: seq<Attempt>, last: int, id: string, ledger: int)
    requires OwnRow(s, network, id, ledger) && Consistent(batch, id, ledger)
    ensures var s1 := SweepAll(s, network, batch, last).s;
      && OwnRow(s1, network, id, ledger)
      && Count(s1.executed, id) + Slack(s1, id) <= Count(s.executed, id) + Slack(s, id) + UnmarkedIn(batch, id)
    decreases |batch|
  {
    if batch != [] {
      ProcessCounts(s, network, batch[0], id, ledger);
      var w := SweepStep(s, network, batch[0], last);
      SweepCounts(w.s, network, batch[1..], w.last, id, ledger);
    }
  }

  lemma ActCounts(s: State, network: string, threshold: int, a: Action, id: string, ledger: int)
    requires OwnRow(s, network, id, ledger) && ConsistentRun([a], id, ledger)
    ensures var s1 := Act(s, network, threshold, a);
      && OwnRow(s1, network, id, ledger)
      && Count(s1.executed, id) + Slack(s1, id)
         <= Count(s.executed, id) + Slack(s, id) + RollsBack(a, threshold, ledger) + UnmarkedDuring(a, id)
  {
    assert [a][0] == a;
    if a.Poll? && a.input.fetched.Some? {
      SweepCounts(s, network, a.input.fetched.value, if s.cursor.Some? then s.cursor.value else 0, id, ledger);
    }
  }

  /**
    Over any run, an event's handler succeeds at most once, plus once per rollback below its ledger and once per mark
    that could not be written; batches may repeat the event freely.
  */
  lemma {:induction false} ExecutionBound(s: State, network: string, threshold: int, actions: seq<Action>, id: string, ledger: int)
    requires OwnRow(s, network, id, ledger) && ConsistentRun(actions, id, ledger)
    ensures Count(Run(s, network, threshold, actions).executed, id)
      <= Count(s.executed, id) + Slack(s, id) + Allowance(actions, threshold, id, ledger)
    decreases |actions|
  {
    if actions != [] {
      assert ConsistentRun([actions[0]], id, ledger);
      ActCounts(s, network, threshold, actions[0], id, ledger);
      ExecutionBound(Act(s, network, threshold, actions[0]), network, threshold, actions[1..], id, ledger);
    }
  }

  /** The bound needs the row to be this network's: a row of another network is never overwritten and never deduplicates. */
  lemma ForeignRowNeverDeduplicates(s: State, network: string, a: Attempt)
    requires a.event.id in s.processed && s.processed[a.event.id].network != network
    requires a.outcome.Handled?
    ensures var s1 := Process(s, network, a).0;
      && s1.executed == s.executed + [a.event.id]
      && s1.processed == s.processed
  {
  }

  /* ---- the cursor ---- */

  /** The verdict on the event at position `k` of a batch. */
  function VerdictAt(s: State, network: string, batch: seq<Attempt>, last: int, k: nat): Verdict
    requires k < |batch|
    decreases k
  {
    if k == 0 then Process(s, network, batch[0]).1
    else
      var w := SweepStep(s, network, batch[0], last);
      VerdictAt(w.s, network, batch[1..], w.last, k - 1)
  }

  /* ---- the same without `Process`: the event's outcome and the rows decide ---- */

  predicate OwnRowIn(processed: map<string, Mark>, network: string, id: string) {
    id in processed && processed[id].network == network
  }

  /** Handled with its mark written, and not seen before: nothing else counts as a success; and what throws. */
  lemma Verdicts(s: State, network: string, a: Attempt)
    ensures Process(s, network, a).1 == Succeeded <==> a.outcome == Handled(true) && !OwnRowIn(s.processed, network, a.event.id)
    ensures Process(s, network, a).1 == Threw <==>
      a.outcome == ReadFailed ||
      (!OwnRowIn(s.processed, network, a.event.id) &&
        (a.outcome.HandlerFailed? || a.outcome == Handled(false) || a.outcome == Quarantined(false)))
  {
  }

  /** A handler runs, and a mark is written, only for an event not seen before; a row of another network is left as it is. */
  lemma ProcessEffect(s: State, network: string, a: Attempt)
    ensures var t := Process(s, network, a).0;
      var unseen := !OwnRowIn(s.processed, network, a.event.id);
      && t.cursor == s.cursor && t.hash == s.hash
      && t.executed == (if unseen && a.outcome.Handled? then s.executed + [a.event.id] else s.executed)
      && t.tables == (if unseen && a.outcome.Handled? then Apply(s.tables, a.event.payload)
                      else if unseen && a.outcome.HandlerFailed? then a.outcome.left else s.tables)
      && t.processed == (if a.event.id !in s.processed && (a.outcome == Handled(true) || a.outcome == Quarantined(true))
                         then s.processed[a.event.id := Mark(network, a.event.ledger)] else s.processed)
  {
    hide Apply;
  }

  predicate Marks(a: Attempt) {
    a.outcome == Handled(true) || a.outcome == Quarantined(true)
  }

  /** Event `k` was seen before: by this network before the batch, or earlier in the batch if nobody had its row before. */
  predicate SeenAt(processed: map<string, Mark>, network: string, batch: seq<Attempt>, k: nat)
    requires k < |batch|
  {
    var id := batch[k].event.id;
    OwnRowIn(processed, network, id) || (id !in processed && exists j | 0 <= j < k :: batch[j].event.id == id && Marks(batch[j]))
  }

  predicate SucceedsAt(processed: map<string, Mark>, network: string, batch: seq<Attempt>, k: nat)
    requires k < |batch|
  {
    batch[k].outcome == Handled(true) && !SeenAt(processed, network, batch, k)
  }

  predicate ThrowsAt(processed: map<string, Mark>, network: string, batch: seq<Attempt>, k: nat)
    requires k < |batch|
  {
    var o := batch[k].outcome;
    o == ReadFailed || (!SeenAt(processed, network, batch, k) && (o.HandlerFailed? || o == Handled(false) || o == Quarantined(false)))
  }

  lemma SeenLater(s: State, network: string, batch: seq<Attempt>, k: nat)
    requires 1 <= k < |batch|
    ensures SeenAt(Process(s, network, batch[0]).0.processed, network, batch[1..], k - 1) <==> SeenAt(s.processed, network, batch, k)
  {
    hide Process;
    ProcessEffect(s, network, batch[0]);
    var t, rest, id := Process(s, network, batch[0]).0, batch[1..], batch[k].event.id;
    assert forall j | 1 <= j < |batch| :: batch[j] == rest[j - 1];
    if j :| 0 <= j < k && batch[j].event.id == id && Marks(batch[j]) {
      if j > 0 { assert rest[j - 1].event.id == id && Marks(rest[j - 1]); }
    }
    if j :| 0 <= j < k - 1 && rest[j].event.id == id && Marks(rest[j]) {
      assert batch[j + 1].event.id == id && Marks(batch[j + 1]);
    }
  }

  /** The verdict on each event of a batch, from the rows before the batch and the outcomes in it. */
  lemma {:induction false} VerdictIs(s: State, network: string, batch: seq<Attempt>, last: int, k: nat)
    requires k < |batch|
    ensures VerdictAt(s, network, batch, last, k) == Succeeded <==> SucceedsAt(s.processed, network, batch, k)
    ensures VerdictAt(s, network, batch, last, k) == Threw <==> ThrowsAt(s.processed, network, batch, k)
    decreases k
  {
    hide Process, SeenAt;
    if k == 0 {
      Verdicts(s, network, batch[0]);
      SeenFirst(s.processed, network, batch);
    } else {
      var w := SweepStep(s, network, batch[0], last);
      VerdictIs(w.s, network, batch[1..], w.last, k - 1);
      SeenLater(s, network, batch, k);
      assert batch[1..][k - 1] == batch[k];
    }
  }

  lemma SeenFirst(processed: map<string, Mark>, network: string, batch: seq<Attempt>)
    requires batch != []
    ensures SeenAt(processed, network, batch, 0) <==> OwnRowIn(processed, network, batch[0].event.id)
  {
  }

  /** The event loop reaches the end of the batch exactly when every error about an event could be logged. */
  lemma {:induction false} SweepFinishes(s: State, network: string, batch: seq<Attempt>, last: int)
    ensures SweepAll(s, network, batch, last).finished <==>
      forall k | 0 <= k < |batch| && ThrowsAt(s.processed, network, batch, k) :: batch[k].logged
    decreases |batch|
  {
    hide Process, SeenAt;
    if batch != [] {
      var w, rest := SweepStep(s, network, batch[0], last), batch[1..];
      Verdicts(s, network, batch[0]);
      SeenFirst(s.processed, network, batch);
      assert ThrowsAt(s.processed, network, batch, 0) <==> Process(s, network, batch[0]).1 == Threw;
      SweepFinishes(w.s, network, rest, w.last);
      forall k | 1 <= k < |batch|
        ensures ThrowsAt(s.processed, network, batch, k) <==> ThrowsAt(w.s.processed, network, rest, k - 1)
      {
        SeenLater(s, network, batch, k);
        assert rest[k - 1] == batch[k];
      }
      if w.finished && SweepAll(w.s, network, rest, w.last).finished {
        forall k | 0 <= k < |batch| && ThrowsAt(s.processed, network, batch, k) ensures batch[k].logged {
          if k > 0 { assert ThrowsAt(w.s.processed, network, rest, k - 1) && rest[k - 1] == batch[k]; }
        }
      }
      if forall k | 0 <= k < |batch| && ThrowsAt(s.processed, network, batch, k) :: batch[k].logged {
        forall k | 0 <= k < |rest| && ThrowsAt(w.s.processed, network, rest, k) ensures rest[k].logged {
          assert ThrowsAt(s.processed, network, batch, k + 1) && rest[k] == batch[k + 1];
        }
      }
    }
  }

  /** A sweep only adds rows and executions. */
  predicate Extends(s: State, t: State) {
    s.processed.Keys <= t.processed.Keys && |s.executed| <= |t.executed| && t.executed[..|s.executed|] == s.executed
  }

  lemma {:induction false} SweepExtends(s: State, network: string, batch: seq<Attempt>, last: int)
    ensures Extends(s, SweepAll(s, network, batch, last).s)
    decreases |batch|
  {
    hide Process;
    if batch != [] {
      ProcessEffect(s, network, batch[0]);
      var w := SweepStep(s, network, batch[0], last);
      SweepExtends(w.s, network, batch[1..], w.last);
    }
  }

  /** Event `k` of the batch left its row and its execution. */
  predicate LeftTrace(s: State, t: State, id: string) {
    id in t.processed && exists n | |s.executed| <= n < |t.executed| :: t.executed[n] == id
  }

  lemma {:induction false} SuccessLeavesTrace(s: State, network: string, batch: seq<Attempt>, last: int, k: nat)
    requires k < |batch| && SucceedsAt(s.processed, network, batch, k) && SweepAll(s, network, batch, last).finished
    ensures LeftTrace(s, SweepAll(s, network, batch, last).s, batch[k].event.id)
    decreases |batch|
  {
    hide Process, SeenAt;
    var w, rest := SweepStep(s, network, batch[0], last), batch[1..];
    ProcessEffect(s, network, batch[0]);
    SweepExtends(w.s, network, rest, w.last);
    var t := SweepAll(w.s, network, rest, w.last).s;
    if k == 0 {
      SeenFirst(s.processed, network, batch);
      assert t.executed[..|w.s.executed|][|s.executed|] == batch[0].event.id;
    } else {
      SeenLater(s, network, batch, k);
      assert rest[k - 1] == batch[k];
      SuccessLeavesTrace(w.s, network, rest, w.last, k - 1);
    }
  }

  lemma ProcessKeepsCursor(s: State, network: string, a: Attempt)
    ensures Process(s, network, a).0.cursor == s.cursor && Process(s, network, a).0.hash == s.hash
  {
  }

  /** A finished sweep ends at the highest ledger of a succeeded event, or where it started. */
  lemma {:induction false} SweepLast(s: State, network: string, batch: seq<Attempt>, last: int)
    requires SweepAll(s, network, batch, last).finished
    ensures var w := SweepAll(s, network, batch, last);
      && w.s.cursor == s.cursor && w.s.hash == s.hash
      && w.last >= last
      && (forall k | 0 <= k < |batch| && VerdictAt(s, network, batch, last, k).Succeeded? :: batch[k].event.ledger <= w.last)
      && (w.last == last || exists k :: 0 <= k < |batch| && VerdictAt(s, network, batch, last, k).Succeeded? && batch[k].event.ledger == w.last)
    decreases |batch|
  {
    if batch != [] {
      var w, rest := SweepStep(s, network, batch[0], last), batch[1..];
      ProcessKeepsCursor(s, network, batch[0]);
      SweepLast(w.s, network, rest, w.last);
      var end := SweepAll(s, network, batch, last).last;
      forall k | 0 <= k < |batch| && VerdictAt(s, network, batch, last, k).Succeeded?
        ensures batch[k].event.ledger <= end
      {
        if k > 0 { assert VerdictAt(w.s, network, rest, w.last, k - 1).Succeeded? && rest[k - 1] == batch[k]; }
      }
      if end != last {
        if end == w.last {
          assert VerdictAt(s, network, batch, last, 0).Succeeded?;
        } else {
          var k :| 0 <= k < |rest| && VerdictAt(w.s, network, rest, w.last, k).Succeeded? && rest[k].event.ledger == end;
          assert VerdictAt(s, network, batch, last, k + 1).Succeeded? && batch[k + 1].event.ledger == end;
        }
      }
    }
  }

  /** A poll whose RPC answered, whose every error was logged and whose cursor write succeeded. */
  predicate Completes(s: State, network: string, p: PollInput) {
    && s.cursor.Some? && s.cursor.value >= 0
    && p.latest.Some? && p.latest.value > s.cursor.value && p.fetched.Some? && p.cursorStored
    && forall k | 0 <= k < |p.fetched.value| && ThrowsAt(s.processed, network, p.fetched.value, k) :: p.fetched.value[k].logged
  }

  /**
    A completed poll moves the cursor to the highest ledger of an event handled and marked in it, never back; an empty range
    moves it to the latest ledger.  An event that moves the cursor has its row and its execution afterwards.
  */
  lemma CursorAfterPoll(s: State, network: string, p: PollInput)
    requires Completes(s, network, p)
    ensures var batch := p.fetched.value;
      var t := Polled(s, network, p);
      && t.cursor.Some? && t.cursor.value >= s.cursor.value
      && (batch == [] ==> t.cursor.value == p.latest.value)
      && (forall k | 0 <= k < |batch| && SucceedsAt(s.processed, network, batch, k) :: batch[k].event.ledger <= t.cursor.value)
      && (batch != [] && t.cursor.value != s.cursor.value ==>
           exists k :: 0 <= k < |batch| && batch[k].outcome == Handled(true) && batch[k].event.ledger == t.cursor.value
             && SucceedsAt(s.processed, network, batch, k) && LeftTrace(s, t, batch[k].event.id))
  {
    hide Process, SeenAt, SucceedsAt, ThrowsAt, LeftTrace;
    var batch := p.fetched.value;
    if batch != [] {
      SweepFinishes(s, network, batch, s.cursor.value);
      SweepLast(s, network, batch, s.cursor.value);
      forall k | 0 <= k < |batch|
        ensures VerdictAt(s, network, batch, s.cursor.value, k) == Succeeded <==> SucceedsAt(s.processed, network, batch, k)
      {
        VerdictIs(s, network, batch, s.cursor.value, k);
      }
      var t := Polled(s, network, p);
      SweepKeepsCursor(s, network, batch, s.cursor.value);
      if t.cursor.value != s.cursor.value {
        var k :| 0 <= k < |batch| && VerdictAt(s, network, batch, s.cursor.value, k).Succeeded? && batch[k].event.ledger == t.cursor.value;
        SuccessLeavesTrace(s, network, batch, s.cursor.value, k);
        TraceStays(s, SweepAll(s, network, batch, s.cursor.value).s, t, batch[k].event.id);
        assert batch[k].outcome == Handled(true) by { SuccessIsHandled(s.processed, network, batch, k); }
      }
    }
  }

  lemma TraceStays(s: State, t: State, u: State, id: string)
    requires LeftTrace(s, t, id) && u.processed == t.processed && u.executed == t.executed
    ensures LeftTrace(s, u, id)
  {
  }

  lemma SuccessIsHandled(processed: map<string, Mark>, network: string, batch: seq<Attempt>, k: nat)
    requires k < |batch| && SucceedsAt(processed, network, batch, k)
    ensures batch[k].outcome == Handled(true)
  {
  }

  /**
    Events that failed can be passed over: after a completed poll an event at position `k` lies at or behind the cursor
    exactly when it did before or some event at its ledger or above was handled and marked in the same batch.
  */
  lemma LeftBehind(s: State, network: string, p: PollInput, k: nat)
    requires Completes(s, network, p) && k < |p.fetched.value|
    ensures var batch := p.fetched.value;
      batch[k].event.ledger <= Polled(s, network, p).cursor.GetOr(0) <==>
        (batch[k].event.ledger <= s.cursor.value ||
         exists j :: 0 <= j < |batch| && SucceedsAt(s.processed, network, batch, j) && batch[j].event.ledger >= batch[k].event.ledger)
  {
    hide Polled, SucceedsAt, LeftTrace;
    CursorAfterPoll(s, network, p);
  }

  /** A poll does nothing when the RPC does not answer or has nothing after the cursor, or after ledger 0 without one. */
  lemma PollIdle(s: State, network: string, p: PollInput)
    requires p.latest.None? || p.fetched.None? || p.latest.value <= s.cursor.GetOr(0)
    ensures Polled(s, network, p) == s
  {
  }

  /** Concretely: a failure at ledger 5 followed by a success at ledger 6 moves the cursor to 6, and 5 stays unprocessed. */
  lemma FailureSkipped(t: Tables)
    ensures var s := State(Some(4), None, map[], t, []);
      var failed := Attempt(RpcEvent("a", 5, DividendClaimed("G")), HandlerFailed(t), true);
      var ok := Attempt(RpcEvent("b", 6, DividendClaimed("G")), Handled(true), true);
      var after := Polled(s, "net", PollInput(Some(6), Some([failed, ok]), true));
      after.cursor == Some(6) && "a" !in after.processed
  {
    var s := State(Some(4), None, map[], t, []);
    var failed := Attempt(RpcEvent("a", 5, DividendClaimed("G")), HandlerFailed(t), true);
    var ok := Attempt(RpcEvent("b", 6, DividendClaimed("G")), Handled(true), true);
    assert [failed, ok][1..] == [ok] && [ok][1..] == [];
    var w := SweepStep(s, "net", failed, 4);
    var w2 := SweepStep(w.s, "net", ok, w.last);
    assert SweepAll(w.s, "net", [ok], w.last) == SweepAll(w2.s, "net", [], w2.last);
    assert SweepAll(s, "net", [failed, ok], 4) == SweepAll(w.s, "net", [ok], w.last);
  }

  lemma {:induction false} SweepKeepsCursor(s: State, network: string, batch: seq<Attempt>, last: int)
    ensures SweepAll(s, network, batch, last).s.cursor == s.cursor && SweepAll(s, network, batch, last).s.hash == s.hash
    decreases |batch|
  {
    if batch != [] {
      ProcessKeepsCursor(s, network, batch[0]);
      var w := SweepStep(s, network, batch[0], last);
      SweepKeepsCursor(w.s, network, batch[1..], w.last);
    }
  }

  /** Between rollbacks the cursor never moves back, however the polls and restarts go. */
  lemma {:induction false} CursorNeverDecreases(s: State, network: string, threshold: int, actions: seq<Action>)
    requires s.cursor.Some? && s.cursor.value >= 0
    requires forall k | 0 <= k < |actions| :: !actions[k].Rollback?
    ensures Run(s, network, threshold, actions).cursor.Some?
    ensures Run(s, network, threshold, actions).cursor.value >= s.cursor.value
    decreases |actions|
  {
    if actions != [] {
      if actions[0].Poll? && actions[0].input.fetched.Some? {
        SweepKeepsCursor(s, network, actions[0].input.fetched.value, s.cursor.value);
      }
      CursorNeverDecreases(Act(s, network, threshold, actions[0]), network, threshold, actions[1..]);
    }
  }

  /** No write stores a ledger hash, so starting without one no state of any run lets `detectReorg` report a re-org. */
  lemma {:induction false} ReorgNeverDetected(s: State, network: string, threshold: int, actions: seq<Action>, sequence: int, hash: string)
    requires s.hash.None?
    ensures !SeesReorg(Run(s, network, threshold, actions), sequence, hash)
    decreases |actions|
  {
    if actions != [] {
      var a := actions[0];
      if a.Poll? && a.input.fetched.Some? {
        SweepKeepsCursor(s, network, a.input.fetched.value, if s.cursor.Some? then s.cursor.value else 0);
      }
      ReorgNeverDetected(Act(s, network, threshold, a), network, threshold, actions[1..], sequence, hash);
    }
  }

  /* ---- rollback and replay together ---- */

  function Payloads(batch: seq<Attempt>): seq<Event> {
    if batch == [] then [] else [batch[0].event.payload] + Payloads(batch[1..])
  }

  /** A batch of distinct, unprocessed events that all go well. */
  predicate Fresh(s: State, batch: seq<Attempt>) {
    && (forall k | 0 <= k < |batch| :: batch[k].outcome == Handled(true) && batch[k].event.id !in s.processed)
    && (forall j, k | 0 <= j < k < |batch| :: batch[j].event.id != batch[k].event.id)
  }

  lemma FreshStep(s: State, network: string, a: Attempt, last: int)
    requires a.outcome == Handled(true) && a.event.id !in s.processed
    ensures var w := SweepStep(s, network, a, last);
      && w.finished && w.s.tables == Apply(s.tables, a.event.payload)
      && w.s.processed == s.processed[a.event.id := Mark(network, a.event.ledger)]
  {
    hide Apply;
  }

  lemma FreshRest(s: State, network: string, batch: seq<Attempt>, t: State)
    requires batch != [] && Fresh(s, batch)
    requires t.processed == s.processed[batch[0].event.id := Mark(network, batch[0].event.ledger)]
    ensures Fresh(t, batch[1..])
  {
    var rest := batch[1..];
    forall k | 0 <= k < |rest| ensures rest[k].outcome == Handled(true) && rest[k].event.id !in t.processed { assert rest[k] == batch[k + 1]; }
    assert forall k | 0 <= k < |rest| :: rest[k] == batch[k + 1];
  }

  /** The dedup table after a fresh batch. */
  function MarkedBatch(processed: map<string, Mark>, network: string, batch: seq<Attempt>): map<string, Mark>
    decreases |batch|
  {
    if batch == [] then processed
    else MarkedBatch(processed[batch[0].event.id := Mark(network, batch[0].event.ledger)], network, batch[1..])
  }

  lemma {:induction false} FreshSweep(s: State, network: string, batch: seq<Attempt>, last: int)
    requires Fresh(s, batch)
    ensures var w := SweepAll(s, network, batch, last);
      w.finished && w.s.tables == ApplyAll(s.tables, Payloads(batch)) && w.s.processed == MarkedBatch(s.processed, network, batch)
    decreases |batch|
  {
    hide Apply, Process, SweepStep;
    if batch != [] {
      assert batch[0].outcome == Handled(true) && batch[0].event.id !in s.processed;
      var w, rest := SweepStep(s, network, batch[0], last), batch[1..];
      FreshStep(s, network, batch[0], last);
      FreshRest(s, network, batch, w.s);
      FreshSweep(w.s, network, rest, w.last);
      assert Payloads(batch)[1..] == Payloads(rest);
    }
  }

  lemma {:induction false} MarkedBatchKeys(processed: map<string, Mark>, network: string, batch: seq<Attempt>, id: string)
    requires forall k | 0 <= k < |batch| :: batch[k].event.id != id
    ensures id in MarkedBatch(processed, network, batch) <==> id in processed
    ensures id in processed ==> MarkedBatch(processed, network, batch)[id] == processed[id]
    decreases |batch|
  {
    if batch != [] {
      assert forall k | 0 <= k < |batch[1..]| :: batch[1..][k] == batch[k + 1];
      MarkedBatchKeys(processed[batch[0].event.id := Mark(network, batch[0].event.ledger)], network, batch[1..], id);
    }
  }

  lemma {:induction false} MarkedBatchRow(processed: map<string, Mark>, network: string, batch: seq<Attempt>, k: nat)
    requires k < |batch| && forall i, j | 0 <= i < j < |batch| :: batch[i].event.id != batch[j].event.id
    ensures batch[k].event.id in MarkedBatch(processed, network, batch)
    ensures MarkedBatch(processed, network, batch)[batch[k].event.id] == Mark(network, batch[k].event.ledger)
    decreases |batch|
  {
    var rest, start := batch[1..], processed[batch[0].event.id := Mark(network, batch[0].event.ledger)];
    assert forall j | 0 <= j < |rest| :: rest[j] == batch[j + 1];
    if k == 0 {
      MarkedBatchKeys(start, network, rest, batch[0].event.id);
    } else {
      MarkedBatchRow(start, network, rest, k - 1);
    }
  }

  /** One row per event of the batch, this network's and at the event's ledger. */
  predicate MarkedAll(s: State, network: string, batch: seq<Attempt>) {
    forall k | 0 <= k < |batch| :: batch[k].event.id in s.processed && s.processed[batch[k].event.id] == Mark(network, batch[k].event.ledger)
  }

  lemma FreshPoll(s: State, network: string, p: PollInput)
    requires s.cursor.Some? && p.latest.Some? && p.latest.value > s.cursor.value
    requires p.fetched.Some? && Fresh(s, p.fetched.value)
    ensures var after := Polled(s, network, p);
      && after.cursor.Some?
      && after.tables == ApplyAll(s.tables, Payloads(p.fetched.value))
      && MarkedAll(after, network, p.fetched.value)
  {
    hide Apply, Process, SweepAll, MarkedBatch;
    FreshSweep(s, network, p.fetched.value, s.cursor.value);
    SweepKeepsCursor(s, network, p.fetched.value, s.cursor.value);
    forall k | 0 <= k < |p.fetched.value|
      ensures p.fetched.value[k].event.id in MarkedBatch(s.processed, network, p.fetched.value)
      ensures MarkedBatch(s.processed, network, p.fetched.value)[p.fetched.value[k].event.id] == Mark(network, p.fetched.value[k].event.ledger)
    {
      MarkedBatchRow(s.processed, network, p.fetched.value, k);
    }
  }

  /**
    A poll over a fresh batch, a rollback below all of it, and a second poll over the same batch: the rollback makes every
    event unprocessed again, so each handler runs once more, and the tables end exactly as after the first poll.
  */
  lemma RollbackReplay(s: State, network: string, threshold: int, p: PollInput, r: Reorg)
    requires s.cursor.Some? && p.latest.Some? && p.latest.value > Max(s.cursor.value, SafeLedger(r, threshold))
    requires p.fetched.Some? && Fresh(s, p.fetched.value) && Grounded(s.tables, Payloads(p.fetched.value))
    requires r.hasReorg && forall k | 0 <= k < |p.fetched.value| :: SafeLedger(r, threshold) < p.fetched.value[k].event.ledger
    ensures var first := Polled(s, network, p);
      var back := RolledBack(first, network, r, threshold);
      && Fresh(back, p.fetched.value)
      && first.tables == ApplyAll(s.tables, Payloads(p.fetched.value))
      && Polled(back, network, p).tables == first.tables
  {
    hide Polled, Grounded;
    FreshPoll(s, network, p);
    FreshPoll(RolledBack(Polled(s, network, p), network, r, threshold), network, p);
    GroundedReady(s.tables, Payloads(p.fetched.value));
    ReplayIsIdle(s.tables, Payloads(p.fetched.value));
  }

  /**
    After a re-org exactly the rows of other networks and those at or below one of ledger 0, depth + 2 behind the last valid
    ledger, and the threshold behind it survive; the cursor moves to the highest of the three.
  */
  lemma RollbackEffect(s: State, network: string, threshold: int, r: Reorg, id: string)
    requires r.hasReorg
    ensures var t := RolledBack(s, network, r, threshold);
      && (id in t.processed <==>
            (id in s.processed &&
              (s.processed[id].network != network || s.processed[id].ledger <= 0
               || s.processed[id].ledger <= r.lastValid - (r.depth + 2) || s.processed[id].ledger <= r.lastValid - threshold)))
      && (id in t.processed ==> t.processed[id] == s.processed[id])
      && t.tables == s.tables && t.executed == s.executed
      && (t.cursor.Some? <==> s.cursor.Some?)
      && (t.cursor.Some? ==>
            && t.cursor.value >= 0 && t.cursor.value >= r.lastValid - (r.depth + 2) && t.cursor.value >= r.lastValid - threshold
            && t.cursor.value in {0, r.lastValid - (r.depth + 2), r.lastValid - threshold})
  {
  }

  /** A stored start-up leaves the next poll to begin at the configured ledger, or at the latest one if none is configured. */
  lemma RestartEffect(s: State, latest: int, configured: int)
    ensures s.cursor.Some? ==> Initialized(s, latest, configured, true) == s
    ensures s.cursor.None? && configured != 0 ==> Initialized(s, latest, configured, true) == s.(cursor := Some(configured - 1), hash := None)
    ensures s.cursor.None? && configured == 0 ==> Initialized(s, latest, configured, true) == s.(cursor := Some(latest - 1), hash := None)
    ensures Initialized(s, latest, configured, false) == s
  {
  }

  /* ---- timer ticks ---- */

  /** What a started poll still has to do. */
  datatype Plan = Nothing | Jump(ledger: int) | Loop(rest: seq<Attempt>, last: int)

  datatype Flight = Flight(plan: Plan, stored: bool)

  /** The guard flag, the polls in progress by caller, and the stored state. */
  datatype Machine = Machine(isRunning: bool, flights: map<nat, Flight>, s: State)

  datatype Occurrence = Tick(caller: nat, input: PollInput) | Resume(caller: nat)

  function Begin(s: State, p: PollInput): Flight {
    var start := if s.cursor.Some? then s.cursor.value + 1 else 1;
    if p.latest.None? || start > p.latest.value || p.fetched.None? then Flight(Nothing, p.cursorStored)
    else if p.fetched.value == [] then Flight(Jump(p.latest.value), p.cursorStored)
    else Flight(Loop(p.fetched.value, start - 1), p.cursorStored)
  }

  /** The stored state once a poll in progress has run to its end undisturbed. */
  function Finish(s: State, network: string, f: Flight): State {
    match f.plan
    case Nothing => s
    case Jump(ledger) => SetCursor(s, ledger, f.stored)
    case Loop(rest, last) => Advance(SweepAll(s, network, rest, last), f.stored)
  }

  /** A tick starts a poll unless the flag is up; a poll in progress handles one event, or ends and lowers the flag. */
  function Next(m: Machine, network: string, e: Occurrence): Machine {
    match e
    case Tick(caller, input) =>
      if m.isRunning || caller in m.flights then m
      else Machine(true, m.flights[caller := Begin(m.s, input)], m.s)
    case Resume(caller) =>
      if caller !in m.flights then m
      else
        var f := m.flights[caller];
        if f.plan.Loop? && f.plan.rest != [] then
          var w := SweepStep(m.s, network, f.plan.rest[0], f.plan.last);
          if w.finished then m.(flights := m.flights[caller := f.(plan := Loop(f.plan.rest[1..], w.last))], s := w.s)
          else m.(flights := m.flights[caller := f.(plan := Nothing)], s := w.s)
        else Machine(false, m.flights - {caller}, Finish(m.s, network, f))
  }

  function Play(m: Machine, network: string, schedule: seq<Occurrence>): Machine
    decreases |schedule|
  {
    if schedule == [] then m else Play(Next(m, network, schedule[0]), network, schedule[1..])
  }

  /** At most one poll is in progress, and the flag is up exactly while there is one. */
  predicate Guarded(m: Machine) {
    && (forall i, j | i in m.flights && j in m.flights :: i == j)
    && (m.isRunning <==> m.flights != map[])
  }

  /** The state the poll in progress, if any, will leave. */
  function Settled(m: Machine, network: string): State
    requires Guarded(m)
  {
    if m.flights == map[] then m.s
    else
      var caller: nat :| caller in m.flights;
      Finish(m.s, network, m.flights[caller])
  }

  /** The polls the schedule really starts, in order. */
  function Started(m: Machine, network: string, schedule: seq<Occurrence>): seq<Action>
    decreases |schedule|
  {
    if schedule == [] then []
    else
      (if schedule[0].Tick? && !m.isRunning && schedule[0].caller !in m.flights then [Poll(schedule[0].input)] else [])
      + Started(Next(m, network, schedule[0]), network, schedule[1..])
  }

  lemma SettledOf(m: Machine, network: string, caller: nat)
    requires Guarded(m) && caller in m.flights
    ensures Settled(m, network) == Finish(m.s, network, m.flights[caller])
  {
  }

  lemma NextGuarded(m: Machine, network: string, e: Occurrence)
    requires Guarded(m)
    ensures Guarded(Next(m, network, e))
    ensures Settled(Next(m, network, e), network) ==
      if e.Tick? && !m.isRunning && e.caller !in m.flights then Polled(Settled(m, network), network, e.input) else Settled(m, network)
  {
    var m1 := Next(m, network, e);
    if e.Tick? && !m.isRunning && e.caller !in m.flights {
      assert m.flights == map[];
      assert e.caller in m1.flights;
      SettledOf(m1, network, e.caller);
    } else if e.Resume? && e.caller in m.flights {
      SettledOf(m, network, e.caller);
      if e.caller in m1.flights {
        SettledOf(m1, network, e.caller);
      } else {
        assert m1.flights == map[];
      }
    }
  }

  /**
    Under any timing of ticks: at most one poll is ever in progress, ticks that find the flag up do nothing, and the
    stored state is the one the started polls leave when run one after the other.
  */
  lemma {:induction false} TicksAreSerial(m: Machine, network: string, threshold: int, schedule: seq<Occurrence>)
    requires Guarded(m)
    ensures Guarded(Play(m, network, schedule))
    ensures Settled(Play(m, network, schedule), network) == Run(Settled(m, network), network, threshold, Started(m, network, schedule))
    decreases |schedule|
  {
    if schedule != [] {
      var m1 := Next(m, network, schedule[0]);
      NextGuarded(m, network, schedule[0]);
      TicksAreSerial(m1, network, threshold, schedule[1..]);
      var started := Started(m, network, schedule);
      if schedule[0].Tick? && !m.isRunning && schedule[0].caller !in m.flights {
        assert started[1..] == Started(m1, network, schedule[1..]);
      } else {
        assert started == Started(m1, network, schedule[1..]);
      }
    }
  }
}
