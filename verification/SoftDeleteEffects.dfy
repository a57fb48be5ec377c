/**
  What each kind of query does to the rows when it goes through the middleware, told on the caller's own arguments: the
  flags, payloads and filters are spelled out here, and the middleware's own predicates do not appear in the statements.
*/
module SoftDeleteEffects {
  import opened Wrappers
  import opened Tables
  import opened SoftDeleteMiddleware
  import opened SoftDeleteRefinement
  import opened SoftDeleteRuns
  import opened SoftDeleteOperations

  /** The middleware applies to these models and to no other. */
  lemma TrackedModels(m: Model)
    ensures Tracked(m) <==>
      m in {User, Project, Contribution, Milestone, ReputationHistory, Category, InsurancePool, ReinsuranceContract,
            InsurancePolicy, Claim, AuditLog, LedgerCursor, ProcessedEvent, QuarantinedEvent, IndexerLog,
            NotificationSetting, Notification, EmailOutbox, IdempotencyKey, RefreshToken}
  {
  }

  /** The caller sets a flag to true inside `where`. */
  predicate FlagInWhere(args: Args, flag: Column) {
    args.where_.Some? && flag in args.where_.value.fields && args.where_.value.fields[flag] == [Equals(Bool(true))]
  }

  /** The caller's filter with one of its keys dropped. */
  function Dropping(args: Args, column: Column): Where {
    match args.where_
    case None => Where(map[], Logic([], [], NoOr))
    case Some(w) => Where(map c | c in w.fields && c != column :: w.fields[c], w.logic)
  }

  lemma DroppingIs(args: Args, column: Column)
    ensures Dropping(args, column) == WithoutField(Filter(args), column)
  {
    assert args.where_.Some? ==> Dropping(args, column).fields == args.where_.value.fields - {column};
  }

  /** One of the eight reading actions. */
  predicate Reads(a: Action) {
    a in {FindUnique, FindUniqueOrThrow, FindFirst, FindFirstOrThrow, FindMany, Count, Aggregate, GroupBy}
  }

  predicate IsDead(row: Row) {
    DeletedAt in row && row[DeletedAt] != Null
  }

  /**
    A read that sets the flag, inside `where` or at the top level, answers with exactly the rows matching its filter without
    the flag, dead or alive; every other read with exactly the live ones among those matching its filter without its
    `deletedAt` condition.
  */
  lemma ReadEffect(s: Schema, t: Table, q: Query, now: int, i: nat)
    requires Sound(s, t) && !q.model.Unlisted? && Reads(q.action)
    requires Step(s, t, Call(q, now)).1.Found?
    ensures Step(s, t, Call(q, now)).0 == t
    ensures var found := Step(s, t, Call(q, now)).1.rows;
      && (FlagInWhere(q.args, IncludeDeletedFlag) || q.args.includeDeleted == Some(Bool(true)) ==>
            (i in found <==> i in t.rows && Matches(Dropping(q.args, IncludeDeletedFlag), t.rows[i])))
      && (!(FlagInWhere(q.args, IncludeDeletedFlag) || q.args.includeDeleted == Some(Bool(true))) ==>
            (i in found <==>
              (i in t.rows && !IsDead(t.rows[i]) && Matches(WithoutField(Dropping(q.args, IncludeDeletedFlag), DeletedAt), t.rows[i]))))
      && (i in found ==> i in t.rows && found[i] == t.rows[i])
  {
    hide Matches, UniqueOk, Step, Sound, WithoutField;
    DroppingIs(q.args, IncludeDeletedFlag);
    ReadSelects(s, t, q, now);
  }

  lemma ReadSelects(s: Schema, t: Table, q: Query, now: int)
    requires Sound(s, t) && !q.model.Unlisted? && Reads(q.action)
    requires Step(s, t, Call(q, now)).1.Found?
    ensures var w := WithoutField(Filter(q.args), IncludeDeletedFlag);
      Step(s, t, Call(q, now)) ==
        (t, Found(if ShouldIncludeDeleted(q.args) then Select(t.rows, w) else Select(Part(t.rows, true), WithoutField(w, DeletedAt))))
  {
    hide Matches, UniqueOk, Rewrite, Exec, Select, Part, WithoutField, WellPosed;
    ReadSimulates(s, t, q, now);
    ReadKeeps(s, t, q, now);
    WholeTable(t);
  }

  lemma ReadKeeps(s: Schema, t: Table, q: Query, now: int)
    requires !q.model.Unlisted? && Reads(q.action)
    ensures Step(s, t, Call(q, now)).0 == t
  {
    hide Accepted, Select, WithoutFlag, OnlyLive;
  }

  /** A delete with the flag, in either spelling, removes exactly the matching rows, dead or alive. */
  lemma HardDeleteEffect(s: Schema, t: Table, q: Query, now: int, i: nat)
    requires Sound(s, t) && !q.model.Unlisted? && (q.action == Delete || q.action == DeleteMany)
    requires FlagInWhere(q.args, HardDeleteFlag) || q.args.hardDelete == Some(Bool(true))
    requires Step(s, t, Call(q, now)).1.Changed?
    ensures var after := Step(s, t, Call(q, now)).0;
      && (i in after.rows <==> i in t.rows && !Matches(Dropping(q.args, HardDeleteFlag), t.rows[i]))
      && (i in after.rows ==> after.rows[i] == t.rows[i])
      && after.next == t.next
  {
    hide Matches, UniqueOk, Exec, Rewrite, WellPosed, Select;
    DroppingIs(q.args, HardDeleteFlag);
    HardDeleteForwards(s, t, q, now);
    RemovedRows(t, q.action == Delete, Dropping(q.args, HardDeleteFlag), i);
  }

  lemma HardDeleteForwards(s: Schema, t: Table, q: Query, now: int)
    requires s.Valid() && !q.model.Unlisted? && (q.action == Delete || q.action == DeleteMany)
    requires FlagInWhere(q.args, HardDeleteFlag) || q.args.hardDelete == Some(Bool(true))
    ensures var w := WithoutField(Filter(q.args), HardDeleteFlag);
      Exec(s, t, Rewrite(true, q, now)) == (t, Failed(InvalidQuery)) ||
      Exec(s, t, Rewrite(true, q, now)) == Remove(t, q.action == Delete, Select(t.rows, w))
  {
    hide Matches, LogicMentions, SelectsOne, Select, Remove;
    assert ShouldHardDelete(q.args);
    assert Filter(Rewrite(true, q, now).args) == WithoutField(Filter(q.args), HardDeleteFlag);
  }

  lemma RemovedRows(t: Table, one: bool, w: Where, i: nat)
    requires Remove(t, one, Select(t.rows, w)).1.Changed?
    ensures var after := Remove(t, one, Select(t.rows, w)).0;
      && (i in after.rows <==> i in t.rows && !Matches(w, t.rows[i]))
      && (i in after.rows ==> after.rows[i] == t.rows[i])
      && after.next == t.next
  {
    hide Matches;
  }

  /** The row after writing a payload: the same columns, and in each the payload's value where it sets one. */
  predicate Written(before: Row, after: Row, data: Payload) {
    before.Keys == after.Keys && forall c | c in before :: after[c] == if c in data && data[c].Set? then data[c].v else before[c]
  }

  lemma WriteIsWritten(row: Row, data: Payload)
    ensures Written(row, Write(row, data), data)
  {
  }

  lemma ModifyCommits(s: Schema, t: Table, hits: Rows, data: Payload)
    requires Modify(s, t, hits, data).1.Changed?
    ensures Modify(s, t, hits, data) == (t.(rows := t.rows + Patch(hits, data)), Changed(|hits|))
  {
    hide UniqueOk, Patch;
  }

  lemma PatchAt(hits: Rows, data: Payload, i: nat)
    ensures i in Patch(hits, data) <==> i in hits
    ensures i in hits ==> Patch(hits, data)[i] == Write(hits[i], data)
  {
    hide Write;
  }

  lemma ModifiedRows(s: Schema, t: Table, hits: Rows, data: Payload, i: nat)
    requires Modify(s, t, hits, data).1.Changed? && forall j | j in hits :: j in t.rows && hits[j] == t.rows[j]
    ensures var after := Modify(s, t, hits, data).0;
      && after.next == t.next && after.rows.Keys == t.rows.Keys
      && (i in t.rows ==> after.rows[i] == if i in hits then Write(t.rows[i], data) else t.rows[i])
      && Modify(s, t, hits, data).1.count == |hits|
  {
    hide Write, UniqueOk, Patch, Modify;
    ModifyCommits(s, t, hits, data);
    PatchAt(hits, data, i);
    PatchKeys(hits, data);
    Overlay(t.rows, Patch(hits, data), i);
  }

  lemma Overlay(rows: Rows, patch: Rows, i: nat)
    requires patch.Keys <= rows.Keys
    ensures (rows + patch).Keys == rows.Keys
    ensures i in rows ==> (rows + patch)[i] == if i in patch then patch[i] else rows[i]
  {
  }

  /** Any other delete stamps exactly the live rows matching the filter without its `deletedAt` condition. */
  lemma SoftDeleteEffect(s: Schema, t: Table, q: Query, now: int, i: nat)
    requires Sound(s, t) && !q.model.Unlisted? && (q.action == Delete || q.action == DeleteMany)
    requires !FlagInWhere(q.args, HardDeleteFlag) && q.args.hardDelete != Some(Bool(true))
    requires Step(s, t, Call(q, now)).1.Changed?
    ensures var after := Step(s, t, Call(q, now)).0;
      && after.next == t.next && after.rows.Keys == t.rows.Keys
      && (i in t.rows ==>
            var reached := !IsDead(t.rows[i]) && Matches(WithoutField(Dropping(q.args, HardDeleteFlag), DeletedAt), t.rows[i]);
            after.rows[i] == if reached then t.rows[i][DeletedAt := Num(now)] else t.rows[i])
  {
    hide Matches, UniqueOk, Rewrite, Exec, Modify, WellPosed, Write;
    DroppingIs(q.args, HardDeleteFlag);
    var asked := Dropping(q.args, HardDeleteFlag);
    SoftDeleteForwards(s, t, q, now);
    SelectLive(t, asked);
    ModifiedRows(s, t, Select(t.rows, WithField(asked, DeletedAt, IS_NULL)), map[DeletedAt := Set(Num(now))], i);
    if i in t.rows { StampedRow(s, t, i, now); }
  }

  lemma StampedRow(s: Schema, t: Table, i: nat, now: int)
    requires Sound(s, t) && i in t.rows
    ensures DeletedAt in t.rows[i] && Write(t.rows[i], map[DeletedAt := Set(Num(now))]) == t.rows[i][DeletedAt := Num(now)]
  {
    assert t.rows[i].Keys == s.Columns();
    WriteMarks(t.rows[i], Num(now));
  }

  /** The payload sets `deletedAt` to null. */
  predicate Revives(data: Payload) {
    DeletedAt in data && data[DeletedAt] == Set(Null)
  }

  /**
    An update writes its payload to exactly the matching rows, dead or alive, if it sets `deletedAt` to null, and otherwise to
    exactly the live rows matching the filter without its `deletedAt` condition.
  */
  lemma UpdateEffect(s: Schema, t: Table, q: Query, now: int, data: Payload, i: nat)
    requires Sound(s, t) && !q.model.Unlisted? && (q.action == Update || q.action == UpdateMany) && q.args.data == Some(data)
    requires Step(s, t, Call(q, now)).1.Changed?
    ensures var after := Step(s, t, Call(q, now)).0;
      && after.next == t.next && after.rows.Keys == t.rows.Keys
      && (i in t.rows ==>
           var reached := if Revives(data) then Matches(q.args.where_.GetOr(EVERYTHING), t.rows[i])
                          else !IsDead(t.rows[i]) && Matches(Dropping(q.args, DeletedAt), t.rows[i]);
           if reached then Written(t.rows[i], after.rows[i], data) else after.rows[i] == t.rows[i])
  {
    hide Matches, UniqueOk, Rewrite, Exec, Modify, WellPosed, Write, Writable, Written, Dropping, TableValid;
    DroppingIs(q.args, DeletedAt);
    UpdateForwards(s, t, q, now);
    SelectLive(t, Filter(q.args));
    var w := if Revives(data) then Filter(q.args) else WithField(Filter(q.args), DeletedAt, IS_NULL);
    ModifiedRows(s, t, Select(t.rows, w), data, i);
    if i in t.rows { WriteIsWritten(t.rows[i], data); }
  }

  /** The same for an upsert payload: one that does not mention `deletedAt` sets it to null. */
  predicate UpsertWritten(before: Row, after: Row, data: Payload) {
    && before.Keys == after.Keys
    && forall c | c in before :: after[c] ==
         if c in data && data[c].Set? then data[c].v else if c == DeletedAt && DeletedAt !in data then Null else before[c]
  }

  lemma StartLiveWritten(row: Row, data: Payload)
    ensures UpsertWritten(row, Write(row, StartLive(Some(data)).value), data)
  {
  }

  /**
    An upsert that finds rows, dead or alive, writes its update payload to exactly those, setting `deletedAt` to null when the
    payload does not mention it.
  */
  lemma UpsertUpdates(s: Schema, t: Table, q: Query, now: int, update: Payload, i: nat, found: nat)
    requires Sound(s, t) && !q.model.Unlisted? && q.action == Upsert && q.args.update == Some(update)
    requires found in t.rows && Matches(q.args.where_.GetOr(EVERYTHING), t.rows[found])
    requires Step(s, t, Call(q, now)).1.Changed?
    ensures var after := Step(s, t, Call(q, now)).0;
      && after.next == t.next && after.rows.Keys == t.rows.Keys
      && (i in t.rows ==>
           if Matches(q.args.where_.GetOr(EVERYTHING), t.rows[i]) then UpsertWritten(t.rows[i], after.rows[i], update)
           else after.rows[i] == t.rows[i])
  {
    hide Matches, UniqueOk, Rewrite, Exec, Modify, Insert, WellPosed, Write, Writable, UpsertWritten, TableValid;
    UpsertForwards(s, t, q, now);
    var hits := Select(t.rows, Filter(q.args));
    assert found in hits;
    ModifiedRows(s, t, hits, StartLive(q.args.update).value, i);
    if i in t.rows { StartLiveWritten(t.rows[i], update); }
  }

  /** An upsert that finds none adds one row of defaults and create payload, live unless that says otherwise. */
  lemma UpsertCreates(s: Schema, t: Table, q: Query, now: int, create_: Payload, i: nat)
    requires Sound(s, t) && !q.model.Unlisted? && q.action == Upsert && q.args.create_ == Some(create_)
    requires forall j | j in t.rows :: !Matches(q.args.where_.GetOr(EVERYTHING), t.rows[j])
    requires Step(s, t, Call(q, now)).1.Changed?
    ensures var after := Step(s, t, Call(q, now)).0;
      && after.next == t.next + 1 && after.rows.Keys == t.rows.Keys + {t.next} && t.next !in t.rows
      && UpsertWritten(s.blank, after.rows[t.next], create_)
      && (i in t.rows ==> after.rows[i] == t.rows[i])
  {
    hide Matches, UniqueOk, Rewrite, Exec, Modify, Insert, WellPosed, Write, Writable, UpsertWritten, TableValid;
    UpsertForwards(s, t, q, now);
    assert Select(t.rows, Filter(q.args)) == map[];
    InsertedRows(s, t, StartLive(q.args.create_).value, i);
    StartLiveWritten(s.blank, create_);
  }

  lemma InsertedRows(s: Schema, t: Table, data: Payload, i: nat)
    requires TableValid(s, t) && Insert(s, t, data).1.Changed?
    ensures var after := Insert(s, t, data).0;
      && after.next == t.next + 1 && after.rows.Keys == t.rows.Keys + {t.next} && t.next !in t.rows
      && after.rows[t.next] == Write(s.blank, data)
      && (i in t.rows ==> after.rows[i] == t.rows[i])
  {
    hide Write, UniqueOk;
  }

  /** A query that fails leaves the table as it was. */
  lemma FailureKeeps(s: Schema, t: Table, q: Query, now: int)
    requires Step(s, t, Call(q, now)).1.Failed?
    ensures Step(s, t, Call(q, now)).0 == t
  {
  }

  /** `findManyDeleted`, flags spelled out: dead matches with an opt-in inside `where` or at the top level, live ones without. */
  lemma FindManyDeletedEffect(s: Schema, t: Table, model: Model, where_: Option<Where>, includeDeleted: Option<Value>, now: int, i: nat)
    requires Sound(s, t) && !model.Unlisted?
    requires Mentions(WithoutField(where_.GetOr(EVERYTHING), IncludeDeletedFlag), s.Columns())
    ensures var args := NO_ARGS.(where_ := where_);
      var optIn := FlagInWhere(args, IncludeDeletedFlag) || includeDeleted == Some(Bool(true));
      var answer := Step(s, t, Call(FindManyDeletedQuery(model, where_, includeDeleted), now)).1;
      answer.Found? && (i in answer.rows <==>
        (i in t.rows && IsDead(t.rows[i]) == optIn && Matches(WithoutField(Dropping(args, IncludeDeletedFlag), DeletedAt), t.rows[i])))
  {
    hide Matches, UniqueOk, Step;
    var args := NO_ARGS.(where_ := where_);
    DroppingIs(args, IncludeDeletedFlag);
    FindManyDeletedLists(s, t, model, where_, includeDeleted, now);
    var q := FindManyDeletedQuery(model, where_, includeDeleted);
    assert ShouldIncludeDeleted(q.args) <==> FlagInWhere(args, IncludeDeletedFlag) || includeDeleted == Some(Bool(true)) by {
      if where_.Some? { assert IncludeDeletedFlag in q.args.where_.value.fields <==> IncludeDeletedFlag in where_.value.fields; }
    }
  }
}
