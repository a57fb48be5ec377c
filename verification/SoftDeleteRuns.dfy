/** The two-store picture over whole runs, and what it means for single rows. */
module SoftDeleteRuns {
  import opened Wrappers
  import opened Tables
  import opened SoftDeleteMiddleware
  import opened SoftDeleteRefinement

  datatype Call = Call(query: Query, now: int)

  function Step(s: Schema, t: Table, c: Call): (Table, Answer) {
    Exec(s, t, Rewrite(true, c.query, c.now))
  }

  function Run(s: Schema, t: Table, calls: seq<Call>): (Table, seq<Answer>)
    decreases |calls|
  {
    if calls == [] then (t, [])
    else
      var (t1, first) := Step(s, t, calls[0]);
      var (t2, rest) := Run(s, t1, calls[1..]);
      (t2, [first] + rest)
  }

  /** The same calls served on the live rows and the graveyard. */
  function RunStores(s: Schema, st: Store, calls: seq<Call>): (Store, seq<Answer>)
    decreases |calls|
  {
    if calls == [] then (st, [])
    else
      var (st1, first) := Serve(s, st, calls[0].query, calls[0].now);
      var (st2, rest) := RunStores(s, st1, calls[1..]);
      (st2, [first] + rest)
  }

  predicate AllTracked(calls: seq<Call>) {
    forall k | 0 <= k < |calls| :: Tracked(calls[k].query.model)
  }

  ghost predicate Sound(s: Schema, t: Table) {
    s.Valid() && TableValid(s, t) && UniqueOk(s, t.rows)
  }

  lemma ModifyKeepsValid(s: Schema, t: Table, w: Where, data: Payload)
    requires TableValid(s, t)
    ensures TableValid(s, t.(rows := t.rows + Patch(Select(t.rows, w), data)))
  {
    var hits := Select(t.rows, w);
    forall i | i in hits
      ensures Write(hits[i], data).Keys == s.Columns()
    {
      assert Write(hits[i], data).Keys == hits[i].Keys;
    }
  }

  lemma InsertKeepsValid(s: Schema, t: Table, data: Payload)
    requires TableValid(s, t)
    ensures TableValid(s, Table(t.rows[t.next := Write(s.blank, data)], t.next + 1))
  {
    assert Write(s.blank, data).Keys == s.Columns();
  }

  /** No query breaks the unique constraints or the shape of the rows. */
  lemma ExecKeepsSound(s: Schema, t: Table, q: Query)
    requires Sound(s, t)
    ensures Sound(s, Exec(s, t, q).0)
  {
    var w := Filter(q.args);
    if Accepted(s, q) {
      match q.action
      case Create => InsertKeepsValid(s, t, q.args.data.value);
      case Update => ModifyKeepsValid(s, t, w, q.args.data.value);
      case UpdateMany => ModifyKeepsValid(s, t, w, q.args.data.value);
      case Upsert =>
        InsertKeepsValid(s, t, q.args.create_.value);
        ModifyKeepsValid(s, t, w, q.args.update.value);
      case _ =>
    }
  }

  /** A unique selector reaches at most one row, so the single-row actions touch at most one. */
  lemma UniqueSelectorReachesOne(s: Schema, t: Table, w: Where, i: nat, j: nat)
    requires Sound(s, t) && SelectsOne(s, w)
    requires i in Select(t.rows, w) && j in Select(t.rows, w)
    ensures i == j
  {
    var c :| c in w.fields && c in s.unique && |w.fields[c]| == 1 && w.fields[c][0].Equals? && w.fields[c][0].v != Null;
    forall k | k in {i, j}
      ensures Key(t.rows[k], c) == w.fields[c][0].v
    {
      assert Holds(w.fields[c], Cell(t.rows[k], c));
      assert Passes(w.fields[c][0], Cell(t.rows[k], c));
    }
  }

  /** Over any run, the flat table behind the middleware and the two stores give the same answers and end in the same state. */
  lemma {:induction false} RunSimulates(s: Schema, t: Table, calls: seq<Call>)
    requires Sound(s, t) && AllTracked(calls)
    ensures Sound(s, Run(s, t, calls).0)
    ensures RunStores(s, Abs(t), calls) == (Abs(Run(s, t, calls).0), Run(s, t, calls).1)
    decreases |calls|
  {
    if calls != [] {
      var q, now := calls[0].query, calls[0].now;
      Simulates(s, t, q, now);
      ExecKeepsSound(s, t, Rewrite(true, q, now));
      RunSimulates(s, Step(s, t, calls[0]).0, calls[1..]);
    }
  }

  /** A read that does not opt in answers with exactly the live rows matching the caller's filter minus its `deletedAt` condition. */
  lemma ReadsSeeLiveRows(s: Schema, t: Table, q: Query, now: int, i: nat)
    requires Sound(s, t) && Tracked(q.model) && IsRead(q.action) && !ShouldIncludeDeleted(q.args)
    requires Step(s, t, Call(q, now)).1.Found?
    ensures i in Step(s, t, Call(q, now)).1.rows <==>
      i in t.rows && IsLive(t.rows[i]) && Matches(WithoutField(WithoutField(Filter(q.args), IncludeDeletedFlag), DeletedAt), t.rows[i])
  {
    Simulates(s, t, q, now);
  }

  /* ---- rows are not lost, dead rows are not touched ---- */

  predicate IsHardDelete(q: Query) {
    (q.action.Delete? || q.action.DeleteMany?) && ShouldHardDelete(q.args)
  }

  lemma StepKeepsRows(s: Schema, t: Table, c: Call)
    requires Tracked(c.query.model) && !IsHardDelete(c.query)
    ensures t.rows.Keys <= Step(s, t, c).0.rows.Keys
  {
  }

  /** Only a flagged hard delete ever loses a row. */
  lemma {:induction false} NothingIsLost(s: Schema, t: Table, calls: seq<Call>)
    requires AllTracked(calls) && forall k | 0 <= k < |calls| :: !IsHardDelete(calls[k].query)
    ensures t.rows.Keys <= Run(s, t, calls).0.rows.Keys
    decreases |calls|
  {
    if calls != [] {
      StepKeepsRows(s, t, calls[0]);
      NothingIsLost(s, Step(s, t, calls[0]).0, calls[1..]);
    }
  }

  /** The only calls that can reach a dead row to write to it. */
  predicate ReachesDead(q: Query) {
    || IsHardDelete(q)
    || q.action.Upsert?
    || ((q.action.Update? || q.action.UpdateMany?) && IsRestore(q.args.data))
  }

  lemma InsertSpares(s: Schema, t: Table, data: Payload, i: nat)
    requires TableValid(s, t) && i in t.rows
    ensures i in Insert(s, t, data).0.rows && Insert(s, t, data).0.rows[i] == t.rows[i]
  {
  }

  lemma ModifySpares(s: Schema, t: Table, hits: Rows, data: Payload, i: nat)
    requires i in t.rows && i !in hits
    ensures i in Modify(s, t, hits, data).0.rows && Modify(s, t, hits, data).0.rows[i] == t.rows[i]
  {
  }

  lemma ExecSparesOthers(s: Schema, t: Table, q: Query, i: nat)
    requires i in t.rows && i !in Select(t.rows, Filter(q.args)) && !q.action.Create? && !q.action.Upsert?
    ensures i in Exec(s, t, q).0.rows && Exec(s, t, q).0.rows[i] == t.rows[i]
  {
    if (q.action.Update? || q.action.UpdateMany?) && Accepted(s, q) {
      ModifySpares(s, t, Select(t.rows, Filter(q.args)), q.args.data.value, i);
    }
  }

  /** The filter the middleware forwards for an update or an unflagged delete misses every dead row. */
  lemma ForwardedMissesDead(q: Query, now: int, row: Row)
    requires Tracked(q.model) && !ReachesDead(q) && !IsLive(row)
    requires q.action.Update? || q.action.UpdateMany? || q.action.Delete? || q.action.DeleteMany?
    ensures !Matches(Filter(Rewrite(true, q, now).args), row)
  {
    var caller := if q.action.Update? || q.action.UpdateMany? then Filter(q.args) else WithoutField(Filter(q.args), HardDeleteFlag);
    assert Filter(Rewrite(true, q, now).args) == WithField(caller, DeletedAt, IS_NULL);
    InjectedFilter(caller, row);
  }

  lemma StepSparesDead(s: Schema, t: Table, c: Call, i: nat)
    requires Sound(s, t) && Tracked(c.query.model) && !ReachesDead(c.query)
    requires i in t.rows && !IsLive(t.rows[i])
    ensures i in Step(s, t, c).0.rows && Step(s, t, c).0.rows[i] == t.rows[i]
  {
    var q := c.query;
    if q.action.Create? {
      if q.args.data.Some? { InsertSpares(s, t, q.args.data.value, i); }
    } else if !IsRead(q.action) {
      ForwardedMissesDead(q, c.now, t.rows[i]);
      ExecSparesOthers(s, t, Rewrite(true, q, c.now), i);
    }
  }

  /** Over any run without restores, upserts and hard deletes, a dead row keeps every column, its timestamp included. */
  lemma {:induction false} DeadRowsAreFrozen(s: Schema, t: Table, calls: seq<Call>, i: nat)
    requires Sound(s, t) && AllTracked(calls) && forall k | 0 <= k < |calls| :: !ReachesDead(calls[k].query)
    requires i in t.rows && !IsLive(t.rows[i])
    ensures i in Run(s, t, calls).0.rows && Run(s, t, calls).0.rows[i] == t.rows[i]
    decreases |calls|
  {
    if calls != [] {
      StepSparesDead(s, t, calls[0], i);
      ExecKeepsSound(s, t, Rewrite(true, calls[0].query, calls[0].now));
      DeadRowsAreFrozen(s, Step(s, t, calls[0]).0, calls[1..], i);
    }
  }

  lemma ModifiedRow(s: Schema, t: Table, hits: Rows, data: Payload, i: nat)
    requires i in hits && DeletedAt in hits[i]
    requires Modify(s, t, hits, data).1.Changed?
    ensures i in Modify(s, t, hits, data).0.rows
    ensures IsLive(Modify(s, t, hits, data).0.rows[i]) <==> FateOf(data).Revive? || (FateOf(data).Stay? && IsLive(hits[i]))
  {
    WriteFate(hits[i], data);
  }

  /** A committed upsert that reaches a row has written its update payload, `deletedAt` defaulted to null, to the rows it reached. */
  lemma CommittedUpsert(s: Schema, t: Table, q: Query, now: int, i: nat)
    requires s.Valid() && Tracked(q.model) && q.action.Upsert? && q.args.update.Some?
    requires i in Select(t.rows, Filter(q.args))
    requires Step(s, t, Call(q, now)).1.Changed?
    ensures Step(s, t, Call(q, now)) == Modify(s, t, Select(t.rows, Filter(q.args)), StartLive(q.args.update).value)
  {
    UpsertForwards(s, t, q, now);
    assert Select(t.rows, Filter(q.args)) != map[];
  }

  lemma SoundRow(s: Schema, t: Table, i: nat)
    requires Sound(s, t) && i in t.rows
    ensures s.Valid() && DeletedAt in t.rows[i]
  {
    assert t.rows[i].Keys == s.Columns();
  }

  /**
    The update branch of an upsert does not leave a dead row dead: a committed upsert that reaches one revives it
    exactly when its update payload omits `deletedAt` or sets it to null.
  */
  lemma UpsertRevivesDeadRow(s: Schema, t: Table, q: Query, now: int, i: nat, after: Table, count: nat)
    requires Sound(s, t) && Tracked(q.model) && q.action.Upsert? && q.args.update.Some?
    requires i in Select(t.rows, Filter(q.args)) && !IsLive(t.rows[i])
    requires Step(s, t, Call(q, now)) == (after, Changed(count))
    ensures i in after.rows
    ensures IsLive(after.rows[i]) <==> (DeletedAt !in q.args.update.value || q.args.update.value[DeletedAt] == Set(Null))
  {
    hide Matches, UniqueOk, Step, Modify, Sound, Patch;
    assert s.Valid() && DeletedAt in t.rows[i] by { SoundRow(s, t, i); }
    CommittedUpsert(s, t, q, now, i);
    ModifiedRow(s, t, Select(t.rows, Filter(q.args)), StartLive(q.args.update).value, i);
  }
}
