/**
  The ledger indexer: the poll loop with its dedup table and cursor, the re-org rollback, and the paged fetch.
  RPC answers and the outcome of each processing attempt are inputs; everything the indexer stores is state.
*/
module LedgerIndexer {
  import opened Wrappers
  import opened EventHandlers

  datatype RpcEvent = RpcEvent(id: string, ledger: int, payload: Event)

  /** A row of the processed-event table; its event id is the key. */
  datatype Mark = Mark(network: string, ledger: int)

  /** `executed` is the history of successful handler executions, by event id. */
  datatype State = State(cursor: Option<int>, hash: Option<string>, processed: map<string, Mark>, tables: Tables, executed: seq<string>)

  /** What happens to one event once the dedup lookup has been made; a failing handler may leave any tables behind. */
  datatype Outcome =
    | ReadFailed
    | Unparsed
    | Quarantined(marked: bool)
    | Refused
    | HandlerFailed(left: Tables)
    | Handled(marked: bool)

  /** One event of a batch, how it goes, and whether an error about it could be logged. */
  datatype Attempt = Attempt(event: RpcEvent, outcome: Outcome, logged: bool)

  datatype Verdict = Succeeded | Skipped | Threw

  predicate IsProcessed(s: State, network: string, id: string) {
    id in s.processed && s.processed[id].network == network
  }

  /** The upsert on the event id, whose update branch writes nothing. */
  function Marked(processed: map<string, Mark>, network: string, e: RpcEvent): map<string, Mark> {
    if e.id in processed then processed else processed[e.id := Mark(network, e.ledger)]
  }

  function Process(s: State, network: string, a: Attempt): (State, Verdict) {
    if a.outcome.ReadFailed? then (s, Threw)
    else if IsProcessed(s, network, a.event.id) then (s, Skipped)
    else match a.outcome
      case ReadFailed => (s, Threw)
      case Unparsed => (s, Skipped)
      case Quarantined(marked) =>
        if marked then (s.(processed := Marked(s.processed, network, a.event)), Skipped) else (s, Threw)
      case Refused => (s, Skipped)
      case HandlerFailed(left) => (s.(tables := left), Threw)
      case Handled(marked) =>
        var ran := s.(tables := Apply(s.tables, a.event.payload), executed := s.executed + [a.event.id]);
        if marked then (ran.(processed := Marked(s.processed, network, a.event)), Succeeded) else (ran, Threw)
  }

  /** The event loop: `last` is the highest ledger processed so far; an error that cannot be logged ends the poll. */
  datatype Sweep = Sweep(s: State, last: int, finished: bool)

  function SweepStep(s: State, network: string, a: Attempt, last: int): Sweep {
    var (s1, verdict) := Process(s, network, a);
    Sweep(s1, if verdict.Succeeded? && a.event.ledger > last then a.event.ledger else last, !verdict.Threw? || a.logged)
  }

  function SweepAll(s: State, network: string, batch: seq<Attempt>, last: int): Sweep
    decreases |batch|
  {
    if batch == [] then Sweep(s, last, true)
    else
      var w := SweepStep(s, network, batch[0], last);
      if w.finished then SweepAll(w.s, network, batch[1..], w.last) else w
  }

  /** One poll's inputs: the latest ledger and the fetched batch when the RPC answers, and whether the cursor write succeeds. */
  datatype PollInput = PollInput(latest: Option<int>, fetched: Option<seq<Attempt>>, cursorStored: bool)

  /** Updating the cursor needs an existing row, and no caller passes a ledger hash. */
  function SetCursor(s: State, ledger: int, stored: bool): State {
    if stored && s.cursor.Some? then s.(cursor := Some(ledger), hash := None) else s
  }

  function Advance(w: Sweep, stored: bool): State {
    if w.finished && w.last > w.s.cursor.GetOr(0) then SetCursor(w.s, w.last, stored) else w.s
  }

  function Polled(s: State, network: string, p: PollInput): State {
    var start := if s.cursor.Some? then s.cursor.value + 1 else 1;
    if p.latest.None? || start > p.latest.value || p.fetched.None? then s
    else if p.fetched.value == [] then SetCursor(s, p.latest.value, p.cursorStored)
    else Advance(SweepAll(s, network, p.fetched.value, start - 1), p.cursorStored)
  }

  /* ---- re-org ---- */

  datatype Reorg = Reorg(hasReorg: bool, depth: int, lastValid: int, newLatest: int)

  function Min(a: int, b: int): int { if a < b then a else b }
  function Max(a: int, b: int): int { if a < b then b else a }

  function SafeLedger(r: Reorg, threshold: int): int {
    Max(0, r.lastValid - Min(r.depth + 2, threshold))
  }

  /** The rollback removes this network's marks above the safe ledger and moves the cursor there. */
  function RolledBack(s: State, network: string, r: Reorg, threshold: int): State {
    if !r.hasReorg then s
    else
      var safe := SafeLedger(r, threshold);
      SetCursor(s.(processed := map id | id in s.processed && !(s.processed[id].network == network && s.processed[id].ledger > safe) :: s.processed[id]),
                safe, true)
  }

  /** Without a cursor row, start-up creates one before the configured ledger, or before the latest one if none is configured. */
  function Initialized(s: State, latest: int, configured: int, stored: bool): State {
    if s.cursor.Some? || !stored then s
    else s.(cursor := Some((if configured != 0 then configured else latest) - 1), hash := None)
  }

  /** The network is behind the cursor, or has another block at the cursor; seen only where a hash was stored. */
  predicate SeesReorg(s: State, sequence: int, hash: string) {
    && s.cursor.Some? && s.hash.Some? && s.hash.value != ""
    && (sequence < s.cursor.value || (sequence == s.cursor.value && hash != s.hash.value))
  }

  /* ---- the service as it runs ---- */

  class IndexerService {
    const network: string
    const threshold: int
    var isRunning: bool
    var cursor: Option<int>
    var cursorHash: Option<string>
    var processed: map<string, Mark>
    var tables: Tables
    ghost var executed: seq<string>

    constructor (network: string, threshold: int, tables: Tables)
      ensures this.network == network && this.threshold == threshold && !isRunning
      ensures View() == State(None, None, map[], tables, [])
    {
      this.network, this.threshold, this.tables := network, threshold, tables;
      isRunning, cursor, cursorHash, processed, executed := false, None, None, map[], [];
    }

    ghost function View(): State
      reads this
    {
      State(cursor, cursorHash, processed, tables, executed)
    }

    method MarkEventProcessed(e: RpcEvent)
      modifies this`processed
      ensures processed == Marked(old(processed), network, e)
    {
      if e.id !in processed {
        processed := processed[e.id := Mark(network, e.ledger)];
      }
    }

    method UpdateCursor(ledger: int, stored: bool)
      modifies this`cursor, this`cursorHash
      ensures View() == SetCursor(old(View()), ledger, stored)
    {
      if stored && cursor.Some? {
        cursor, cursorHash := Some(ledger), None;
      }
    }

    method ProcessEvent(a: Attempt) returns (verdict: Verdict)
      modifies this`processed, this`tables, this`executed
      ensures (View(), verdict) == Process(old(View()), network, a)
    {
      if a.outcome.ReadFailed? {
        return Threw;
      }
      if a.event.id in processed && processed[a.event.id].network == network {
        return Skipped;
      }
      match a.outcome {
        case ReadFailed => verdict := Threw;
        case Unparsed => verdict := Skipped;
        case Quarantined(marked) =>
          if !marked { return Threw; }
          MarkEventProcessed(a.event);
          verdict := Skipped;
        case Refused => verdict := Skipped;
        case HandlerFailed(left) =>
          tables := left;
          verdict := Threw;
        case Handled(marked) =>
          tables := Apply(tables, a.event.payload);
          executed := executed + [a.event.id];
          if !marked { return Threw; }
          MarkEventProcessed(a.event);
          verdict := Succeeded;
      }
    }

    /** One tick: skipped while a poll is running. */
    method PollEvents(p: PollInput)
      modifies this
      ensures old(isRunning) ==> isRunning && View() == old(View())
      ensures !old(isRunning) ==> !isRunning && View() == Polled(old(View()), network, p)
    {
      if isRunning {
        return;
      }
      isRunning := true;
      PollCycle(p);
      isRunning := false;
    }

    method PollCycle(p: PollInput)
      requires isRunning
      modifies this
      ensures isRunning && View() == Polled(old(View()), network, p)
    {
      var startLedger := if cursor.Some? then cursor.value + 1 else 1;
      if p.latest.None? || startLedger > p.latest.value || p.fetched.None? {
        return;
      }
      var batch := p.fetched.value;
      if |batch| == 0 {
        UpdateCursor(p.latest.value, p.cursorStored);
        return;
      }
      var lastSuccessfulLedger := startLedger - 1;
      var i := 0;
      ghost var target := SweepAll(View(), network, batch, lastSuccessfulLedger);
      while i < |batch|
        invariant 0 <= i <= |batch| && isRunning
        invariant cursor == old(cursor)
        invariant SweepAll(View(), network, batch[i..], lastSuccessfulLedger) == target
      {
        var a := batch[i];
        assert batch[i..][0] == a && batch[i..][1..] == batch[i + 1..];
        var verdict := ProcessEvent(a);
        if verdict.Succeeded? && a.event.ledger > lastSuccessfulLedger {
          lastSuccessfulLedger := a.event.ledger;
        }
        if verdict.Threw? && !a.logged {
          return;
        }
        i := i + 1;
      }
      if lastSuccessfulLedger > cursor.GetOr(0) {
        UpdateCursor(lastSuccessfulLedger, p.cursorStored);
      }
    }

    method DetectReorg(sequence: int, hash: string) returns (r: Reorg)
      ensures r.newLatest == sequence
      ensures r.hasReorg <==> SeesReorg(View(), sequence, hash)
      ensures r.hasReorg ==> 1 <= r.depth == Max(1, cursor.value - sequence) && r.lastValid == Min(sequence, cursor.value - 1)
      ensures !r.hasReorg ==> r.depth == 0 && r.lastValid <= sequence
    {
      if cursor.None? || cursorHash.None? || cursorHash.value == "" {
        return Reorg(false, 0, sequence - 1, sequence);
      }
      if sequence == cursor.value {
        var hasReorg := hash != cursorHash.value;
        return Reorg(hasReorg, if hasReorg then 1 else 0, if hasReorg then sequence - 1 else sequence, sequence);
      }
      if sequence > cursor.value {
        return Reorg(false, 0, cursor.value, sequence);
      }
      return Reorg(true, cursor.value - sequence, sequence, sequence);
    }

    /** The marks go first; then the cursor update throws when there is no cursor row. */
    method HandleReorg(r: Reorg) returns (resumeFrom: Option<int>)
      modifies this`processed, this`cursor, this`cursorHash
      ensures View() == RolledBack(old(View()), network, r, threshold)
      ensures resumeFrom == if !r.hasReorg then Some(r.newLatest) else if old(cursor).None? then None else Some(SafeLedger(r, threshold))
    {
      if !r.hasReorg {
        return Some(r.newLatest);
      }
      var rollbackDepth := Min(r.depth + 2, threshold);
      var safe := Max(0, r.lastValid - rollbackDepth);
      processed := map id | id in processed && !(processed[id].network == network && processed[id].ledger > safe) :: processed[id];
      if cursor.None? {
        return None;
      }
      UpdateCursor(safe, true);
      resumeFrom := Some(safe);
    }

    /** `configured` is 0 when no start ledger is configured; a failing cursor write throws. */
    method GetStartLedger(latest: int, configured: int, stored: bool) returns (start: Option<int>)
      modifies this`cursor, this`cursorHash
      ensures View() == Initialized(old(View()), latest, configured, stored)
      ensures start == if cursor.Some? then Some(cursor.value + 1) else None
    {
      if cursor.Some? {
        return Some(cursor.value + 1);
      }
      start := Some(if configured != 0 then configured else latest);
      if !stored {
        return None;
      }
      cursor, cursorHash := Some(start.value - 1), None;
    }
  }

  /* ---- paged fetch ---- */

  datatype Page<T> = Page(events: seq<T>, hasCursor: bool)

  /** Either the fetched events, or the pages at hand ran out before the loop stopped. */
  datatype Fetched<T> = Complete(events: seq<T>, used: nat) | WantsMore

  function Gather<T>(pages: seq<Page<T>>, n: nat): seq<T>
    requires n <= |pages|
  {
    if n == 0 then [] else Gather(pages, n - 1) + pages[n - 1].events
  }

  /** The loop stops after page `n` (counted from 1): no cursor, or five times the limit reached. */
  predicate Stops<T>(pages: seq<Page<T>>, n: nat, max: nat)
    requires 1 <= n <= |pages|
  {
    |Gather(pages, n)| >= max * 5 || !pages[n - 1].hasCursor
  }

  method FetchEvents<T>(pages: seq<Page<T>>, max: nat) returns (r: Fetched<T>)
    ensures r.WantsMore? <==> forall n | 1 <= n <= |pages| :: !Stops(pages, n, max)
    ensures r.Complete? ==>
      && 1 <= r.used <= |pages| && Stops(pages, r.used, max)
      && (forall n | 1 <= n < r.used :: !Stops(pages, n, max))
      && r.events == Gather(pages, r.used)
      && (pages[r.used - 1].hasCursor ==> |r.events| >= 5 * max)
  {
    var events, i := [], 0;
    while i < |pages|
      invariant i <= |pages|
      invariant events == Gather(pages, i)
      invariant forall n | 1 <= n <= i :: !Stops(pages, n, max)
    {
      events := events + pages[i].events;
      i := i + 1;
      if |events| >= max * 5 {
        assert Stops(pages, i, max);
        return Complete(events, i);
      }
      if !pages[i - 1].hasCursor {
        assert Stops(pages, i, max);
        return Complete(events, i);
      }
    }
    r := WantsMore;
  }

  /** The loop goes on after a page exactly when it carries a cursor and fewer than five times the limit have come so far. */
  lemma GoesOn<T>(pages: seq<Page<T>>, n: nat, max: nat)
    requires 1 <= n <= |pages|
    ensures !Stops(pages, n, max) <==> pages[n - 1].hasCursor && |Gather(pages, n)| < 5 * max
  {
  }

  /** The events of the first pages, page after page and in each page's order. */
  lemma {:induction false} GatherIs<T>(pages: seq<Page<T>>, n: nat, k: nat)
    requires k < n <= |pages|
    ensures |Gather(pages, k)| + |pages[k].events| <= |Gather(pages, n)|
    ensures Gather(pages, n)[|Gather(pages, k)|..|Gather(pages, k)| + |pages[k].events|] == pages[k].events
    ensures k == n - 1 ==> |Gather(pages, n)| == |Gather(pages, k)| + |pages[k].events|
    ensures Gather(pages, 0) == []
  {
    if k < n - 1 {
      GatherIs(pages, n - 1, k);
      assert Gather(pages, n)[..|Gather(pages, n - 1)|] == Gather(pages, n - 1);
    }
  }

  lemma {:induction false} GatherGrows<T>(pages: seq<Page<T>>, n: nat, max: nat)
    requires n <= |pages| && forall k | 1 <= k <= n :: !Stops(pages, k, max)
    requires forall k | 0 <= k < |pages| && pages[k].hasCursor :: pages[k].events != []
    ensures |Gather(pages, n)| >= n
  {
    if n > 0 {
      GatherGrows(pages, n - 1, max);
      assert !Stops(pages, n, max);
    }
  }

  /** When every page carrying a cursor is non-empty the fetch needs at most five times the limit of pages. */
  lemma FetchTerminates<T>(pages: seq<Page<T>>, max: nat)
    requires max >= 1 && |pages| >= max * 5
    requires forall k | 0 <= k < |pages| && pages[k].hasCursor :: pages[k].events != []
    ensures exists n :: 1 <= n <= max * 5 && Stops(pages, n, max)
  {
    if forall k | 1 <= k <= max * 5 :: !Stops(pages, k, max) {
      assert !Stops(pages, max * 5, max);
      GatherGrows(pages, max * 5, max);
    }
  }

  /** With pages no larger than the limit, fewer than six times the limit of events come back. */
  lemma FetchBounded<T>(pages: seq<Page<T>>, n: nat, max: nat)
    requires 1 <= n <= |pages| && max >= 1
    requires forall k | 0 <= k < |pages| :: |pages[k].events| <= max
    requires forall k | 1 <= k < n :: !Stops(pages, k, max)
    ensures |Gather(pages, n)| < max * 6
  {
    if n > 1 {
      assert !Stops(pages, n - 1, max);
    }
  }
}
