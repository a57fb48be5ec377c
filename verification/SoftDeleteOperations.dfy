/**
  The operations built on the middleware: the repository's `softDelete`, `restore` and `softDeleteMany`, and the service's
  hard deletes, restores, `findManyDeleted` and `permanentlyDeleteExpired`.
*/
module SoftDeleteOperations {
  import opened Wrappers
  import opened Tables
  import opened SoftDeleteMiddleware
  import opened SoftDeleteRefinement
  import opened SoftDeleteRuns

  const ID := Named("id")
  const NOT_NULL: Condition := [Not(Null)]

  function Having(column: Column, c: Condition): Where {
    Where(map[column := c], EVERYTHING.logic)
  }

  function ById(id: Value): Where {
    Having(ID, [Equals(id)])
  }

  /** `deletedAt` set to `v` in the rows numbered by `keys`; every other row as it was. */
  function Mark(rows: Rows, keys: set<nat>, v: Value): Rows {
    map i | i in rows :: if i in keys then rows[i][DeletedAt := v] else rows[i]
  }

  function MarkQuery(model: Model, one: bool, w: Where, v: Value): Query {
    Query(model, if one then Update else UpdateMany, NO_ARGS.(where_ := Some(w), data := Some(map[DeletedAt := Set(v)])))
  }

  function PurgeQuery(model: Model, one: bool, w: Where): Query {
    Query(model, if one then Delete else DeleteMany, NO_ARGS.(where_ := Some(w), hardDelete := Some(Bool(true))))
  }

  /* ---- filters on one column ---- */

  lemma HavingMatches(column: Column, c: Condition, row: Row)
    ensures Matches(Having(column, c), row) <==> Holds(c, Cell(row, column))
  {
    var w := Having(column, c);
    assert column in w.fields && w.fields[column] == c;
  }

  lemma EqualsMatches(column: Column, v: Value, row: Row)
    ensures Matches(Having(column, [Equals(v)]), row) <==> Cell(row, column) == v
  {
    var c: Condition := [Equals(v)];
    HavingMatches(column, c, row);
    assert Passes(c[0], Cell(row, column)) <==> Cell(row, column) == v;
  }

  /** Dead, with a timestamp before the cutoff. */
  predicate ExpiredRow(row: Row, cutoff: int) {
    Cell(row, DeletedAt).Num? && Cell(row, DeletedAt).n < cutoff
  }

  function ExpiredIds(rows: Rows, cutoff: int): set<nat> {
    set i | i in rows && ExpiredRow(rows[i], cutoff)
  }

  lemma ExpiredMatches(cutoff: int, row: Row)
    ensures Matches(Having(DeletedAt, [Not(Null), Less(cutoff)]), row) <==> ExpiredRow(row, cutoff)
  {
    var c: Condition := [Not(Null), Less(cutoff)];
    HavingMatches(DeletedAt, c, row);
    assert Holds(c, Cell(row, DeletedAt)) <==> Passes(c[0], Cell(row, DeletedAt)) && Passes(c[1], Cell(row, DeletedAt));
  }

  /* ---- stamping, clearing and purging ---- */

  lemma WriteMarks(row: Row, v: Value)
    requires DeletedAt in row
    ensures Write(row, map[DeletedAt := Set(v)]) == row[DeletedAt := v]
  {
  }

  lemma PatchMarks(rows: Rows, hits: Rows, v: Value)
    requires forall i | i in hits :: i in rows && hits[i] == rows[i] && DeletedAt in rows[i]
    ensures rows + Patch(hits, map[DeletedAt := Set(v)]) == Mark(rows, hits.Keys, v)
  {
    forall i | i in hits
      ensures Write(rows[i], map[DeletedAt := Set(v)]) == rows[i][DeletedAt := v]
    {
      WriteMarks(rows[i], v);
    }
  }

  lemma MarkKeepsUnique(s: Schema, rows: Rows, keys: set<nat>, v: Value)
    requires s.Valid() && UniqueOk(s, rows)
    ensures UniqueOk(s, Mark(rows, keys, v))
  {
    var after := Mark(rows, keys, v);
    assert forall i, c | i in rows && c in s.unique :: Key(after[i], c) == Key(rows[i], c);
  }

  lemma MarkCommits(s: Schema, t: Table, hits: Rows, v: Value)
    requires s.Valid() && TableValid(s, t) && UniqueOk(s, t.rows)
    requires forall i | i in hits :: i in t.rows && hits[i] == t.rows[i]
    ensures Modify(s, t, hits, map[DeletedAt := Set(v)]) == (t.(rows := Mark(t.rows, hits.Keys, v)), Changed(|hits|))
  {
    PatchMarks(t.rows, hits, v);
    MarkKeepsUnique(s, t.rows, hits.Keys, v);
  }

  /** The filter that counts for a query writing `v` to `deletedAt`: the caller's own `deletedAt` condition only in a restore. */
  function Asked(w: Where, v: Value): Where {
    if v == Null then w else WithoutField(w, DeletedAt)
  }

  /** The rows such a query reaches through the middleware: every match for a restore, the live ones otherwise. */
  function Reached(t: Table, w: Where, v: Value): Rows {
    if v == Null then Select(t.rows, w) else Select(Part(t.rows, true), WithoutField(w, DeletedAt))
  }

  lemma MarkForwards(s: Schema, t: Table, model: Model, one: bool, w: Where, v: Value, now: int)
    requires s.Valid() && Tracked(model)
    requires WellPosed(s, if one then Update else UpdateMany, Asked(w, v))
    ensures Step(s, t, Call(MarkQuery(model, one, w, v), now)) == Change(s, t, one, Reached(t, w, v), map[DeletedAt := Set(v)])
  {
    hide Matches, LogicMentions, SelectsOne, Select, Change, Exec, Rewrite, WellPosed;
    var q := MarkQuery(model, one, w, v);
    UpdateForwards(s, t, q, now);
    SelectLive(t, w);
    WellPosedLive(s, q.action, w);
    assert Writable(s, q.args.data);
  }

  /** What an update stamping or clearing `deletedAt` does, seen through the middleware. */
  lemma MarkStep(s: Schema, t: Table, model: Model, one: bool, w: Where, v: Value, now: int)
    requires Sound(s, t) && Tracked(model)
    requires WellPosed(s, if one then Update else UpdateMany, Asked(w, v))
    ensures var hits := Reached(t, w, v);
      Step(s, t, Call(MarkQuery(model, one, w, v), now)) ==
        if one && hits == map[] then (t, Failed(RecordNotFound))
        else (t.(rows := Mark(t.rows, hits.Keys, v)), Changed(|hits|))
  {
    hide Step, WellPosed;
    MarkForwards(s, t, model, one, w, v, now);
    MarkCommits(s, t, Reached(t, w, v), v);
  }

  /** A flagged delete really removes the matching rows, live or dead. */
  lemma PurgeStep(s: Schema, t: Table, model: Model, one: bool, w: Where, now: int)
    requires s.Valid() && Tracked(model) && WellPosed(s, if one then Delete else DeleteMany, w)
    ensures Step(s, t, Call(PurgeQuery(model, one, w), now)) == Remove(t, one, Select(t.rows, w))
  {
    hide Matches, LogicMentions, SelectsOne, Select, Remove;
    assert WithoutField(w, HardDeleteFlag) == w;
    var forwarded := Rewrite(true, PurgeQuery(model, one, w), now);
    assert Filter(forwarded.args) == w;
  }

  lemma IdSelects(s: Schema, id: Value)
    requires s.Valid() && ID in s.unique && id != Null
    ensures WellPosed(s, Update, ById(id))
  {
    assert ID in ById(id).fields;
  }

  /** The repository's restore filter: this id, and not already live. */
  function RestoreFilter(id: Value): Where {
    WithField(ById(id), DeletedAt, NOT_NULL)
  }

  lemma RestoreFilterMatches(id: Value, row: Row)
    requires id != Null
    ensures Matches(RestoreFilter(id), row) <==> !IsLive(row) && Cell(row, ID) == id
  {
    NotNullFilter(ById(id), row);
    assert WithoutField(ById(id), DeletedAt) == ById(id);
    EqualsMatches(ID, id, row);
  }

  lemma NotNullFilter(w: Where, row: Row)
    ensures Matches(WithField(w, DeletedAt, NOT_NULL), row) <==> !IsLive(row) && Matches(WithoutField(w, DeletedAt), row)
  {
    var inner, outer := WithField(w, DeletedAt, NOT_NULL), WithoutField(w, DeletedAt);
    assert forall c | c in outer.fields :: c in inner.fields && inner.fields[c] == outer.fields[c];
    assert forall c | c in inner.fields :: c == DeletedAt || (c in outer.fields && inner.fields[c] == outer.fields[c]);
    assert DeletedAt in inner.fields && Passes(NOT_NULL[0], Cell(row, DeletedAt)) == !IsLive(row);
  }

  /** The live row with this id stamped; every other row as it was. */
  function StampedById(rows: Rows, id: Value, now: int): Rows {
    map i | i in rows :: if IsLive(rows[i]) && Cell(rows[i], ID) == id then rows[i][DeletedAt := Num(now)] else rows[i]
  }

  lemma RestoreFilterPosed(s: Schema, id: Value)
    requires s.Valid() && ID in s.unique
    ensures WellPosed(s, UpdateMany, RestoreFilter(id))
  {
  }

  /** The dead row with this id made live; every other row as it was. */
  function RestoredById(rows: Rows, id: Value): Rows {
    map i | i in rows :: if !IsLive(rows[i]) && Cell(rows[i], ID) == id then rows[i][DeletedAt := Null] else rows[i]
  }

  lemma StampReached(t: Table, id: Value, now: int)
    ensures var hits := Reached(t, ById(id), Num(now));
      && Mark(t.rows, hits.Keys, Num(now)) == StampedById(t.rows, id, now)
      && (hits == map[] <==> forall i | i in t.rows :: !(IsLive(t.rows[i]) && Cell(t.rows[i], ID) == id))
  {
    hide Matches;
    assert WithoutField(ById(id), DeletedAt) == ById(id);
    var hits := Reached(t, ById(id), Num(now));
    forall i | i in t.rows
      ensures i in hits <==> IsLive(t.rows[i]) && Cell(t.rows[i], ID) == id
    {
      EqualsMatches(ID, id, t.rows[i]);
    }
    if i :| i in t.rows && IsLive(t.rows[i]) && Cell(t.rows[i], ID) == id { assert i in hits; }
  }

  lemma StampStep(s: Schema, t: Table, model: Model, id: Value, now: int)
    requires Sound(s, t) && Tracked(model) && ID in s.unique && id != Null
    ensures Step(s, t, Call(MarkQuery(model, true, ById(id), Num(now)), now)).0 == t.(rows := StampedById(t.rows, id, now))
    ensures Step(s, t, Call(MarkQuery(model, true, ById(id), Num(now)), now)).1 == Failed(RecordNotFound) <==>
      forall i | i in t.rows :: !(IsLive(t.rows[i]) && Cell(t.rows[i], ID) == id)
  {
    hide UniqueOk, SelectsOne, Step, Reached, Mark, StampedById, WellPosed;
    IdSelects(s, id);
    assert Asked(ById(id), Num(now)) == ById(id);
    assert WellPosed(s, Update, ById(id));
    MarkStep(s, t, model, true, ById(id), Num(now), now);
    StampReached(t, id, now);
    NothingMarked(t.rows, Num(now));
    var hits := Reached(t, ById(id), Num(now));
    if hits == map[] { assert hits.Keys == {}; }
  }

  lemma NothingMarked(rows: Rows, v: Value)
    ensures Mark(rows, {}, v) == rows
  {
  }

  lemma RestoreReached(t: Table, id: Value)
    requires id != Null
    ensures Mark(t.rows, Reached(t, RestoreFilter(id), Null).Keys, Null) == RestoredById(t.rows, id)
  {
    hide Matches, RestoreFilter;
    var hits := Reached(t, RestoreFilter(id), Null);
    forall i | i in t.rows
      ensures i in hits <==> !IsLive(t.rows[i]) && Cell(t.rows[i], ID) == id
    {
      RestoreFilterMatches(id, t.rows[i]);
    }
  }

  lemma RestoreStep(s: Schema, t: Table, model: Model, id: Value, now: int)
    requires Sound(s, t) && Tracked(model) && ID in s.unique && id != Null
    ensures Step(s, t, Call(MarkQuery(model, false, RestoreFilter(id), Null), now)).0 == t.(rows := RestoredById(t.rows, id))
  {
    hide UniqueOk, SelectsOne, Step, Reached, Mark, RestoredById, RestoreFilter, WellPosed;
    RestoreFilterPosed(s, id);
    MarkStep(s, t, model, false, RestoreFilter(id), Null, now);
    RestoreReached(t, id);
  }

  /* ---- one model behind the middleware ---- */

  class SoftDeleteModel {
    const schema: Schema
    const model: Model
    var table: Table

    ghost predicate Valid()
      reads this
    {
      Sound(schema, table) && Tracked(model) && ID in schema.unique
    }

    constructor (schema: Schema, model: Model, table: Table)
      requires Sound(schema, table) && Tracked(model) && ID in schema.unique
      ensures Valid() && this.schema == schema && this.model == model && this.table == table
    {
      this.schema, this.model, this.table := schema, model, table;
    }

    /** Any query: the middleware's handler, then the database. */
    method Execute(action: Action, args: Option<Args>, now: int) returns (answer: Answer)
      requires Valid()
      modifies this
      ensures Valid()
      ensures (table, answer) == Step(schema, old(table), Call(Query(model, action, args.GetOr(NO_ARGS)), now))
      ensures Serve(schema, Abs(old(table)), Query(model, action, args.GetOr(NO_ARGS)), now) == (Abs(table), answer)
    {
      var params := new MiddlewareParams(model, action, args);
      var forwarded := Handle(params, true, now);
      ghost var q := Query(model, action, args.GetOr(NO_ARGS));
      Simulates(schema, table, q, now);
      ExecKeepsSound(schema, table, Rewrite(true, q, now));
      var (after, a) := Exec(schema, table, forwarded);
      table, answer := after, a;
    }

    /** Stamps the live row with this id; a missing or dead row is an error and changes nothing. */
    method SoftDelete(id: Value, now: int) returns (answer: Answer)
      requires Valid() && id != Null
      modifies this
      ensures Valid() && table == old(table).(rows := StampedById(old(table).rows, id, now))
      ensures answer == Failed(RecordNotFound) <==>
        forall i | i in old(table).rows :: !(IsLive(old(table).rows[i]) && Cell(old(table).rows[i], ID) == id)
    {
      StampStep(schema, table, model, id, now);
      answer := Execute(Update, Some(MarkQuery(model, true, ById(id), Num(now)).args), now);
    }

    /** Clears `deletedAt` on the row with this id, then reads the row back. */
    method Restore(id: Value, now: int) returns (answer: Answer)
      requires Valid() && id != Null
      modifies this
      ensures Valid() && table == old(table).(rows := RestoredById(old(table).rows, id))
      ensures (table, answer) == Step(schema, table, Call(Query(model, FindUnique, NO_ARGS.(where_ := Some(ById(id)))), now))
    {
      RestoreStep(schema, table, model, id, now);
      var results := Execute(UpdateMany, Some(MarkQuery(model, false, RestoreFilter(id), Null).args), now);
      ghost var restored := table;
      answer := Execute(FindUnique, Some(NO_ARGS.(where_ := Some(ById(id)))), now);
      assert table == restored;
    }

    /** Stamps every live row matching the filter, whose own top-level `deletedAt` condition does not count, and counts them. */
    method SoftDeleteMany(w: Where, now: int) returns (count: nat)
      requires Valid() && Mentions(WithoutField(w, DeletedAt), schema.Columns())
      modifies this
      ensures Valid()
      ensures var hits := Select(Part(old(table).rows, true), WithoutField(w, DeletedAt));
        table == old(table).(rows := Mark(old(table).rows, hits.Keys, Num(now))) && count == |hits|
    {
      MarkStep(schema, table, model, false, w, Num(now), now);
      var answer := Execute(UpdateMany, Some(MarkQuery(model, false, w, Num(now)).args), now);
      count := answer.count;
    }

    /** Removes every matching row, live or dead. */
    method HardDeleteMany(w: Where, now: int) returns (count: nat)
      requires Valid() && Mentions(w, schema.Columns())
      modifies this
      ensures Valid() && table == old(table).(rows := old(table).rows - Select(old(table).rows, w).Keys)
      ensures count == |Select(old(table).rows, w)|
    {
      PurgeStep(schema, table, model, false, w, now);
      var answer := Execute(DeleteMany, Some(PurgeQuery(model, false, w).args), now);
      count := answer.count;
    }

    /** Removes the one row a unique selector names, live or dead; a missing row is an error and changes nothing. */
    method HardDelete(w: Where, now: int) returns (answer: Answer)
      requires Valid() && Mentions(w, schema.Columns()) && SelectsOne(schema, w)
      modifies this
      ensures Valid() && table == old(table).(rows := old(table).rows - Select(old(table).rows, w).Keys)
      ensures answer == Failed(RecordNotFound) <==> Select(old(table).rows, w) == map[]
    {
      PurgeStep(schema, table, model, true, w, now);
      answer := Execute(Delete, Some(PurgeQuery(model, true, w).args), now);
    }

    /** Makes every matching row live, those that already were included, and counts them. */
    method RestoreMany(w: Where, now: int) returns (count: nat)
      requires Valid() && Mentions(w, schema.Columns())
      modifies this
      ensures Valid() && table == old(table).(rows := Mark(old(table).rows, Select(old(table).rows, w).Keys, Null))
      ensures count == |Select(old(table).rows, w)|
    {
      MarkStep(schema, table, model, false, w, Null, now);
      var answer := Execute(UpdateMany, Some(MarkQuery(model, false, w, Null).args), now);
      count := answer.count;
    }

    /** Makes the one row a unique selector names live; a missing row is an error and changes nothing. */
    method RestoreOne(w: Where, now: int) returns (answer: Answer)
      requires Valid() && Mentions(w, schema.Columns()) && SelectsOne(schema, w)
      modifies this
      ensures Valid() && table == old(table).(rows := Mark(old(table).rows, Select(old(table).rows, w).Keys, Null))
      ensures answer == Failed(RecordNotFound) <==> Select(old(table).rows, w) == map[]
    {
      MarkStep(schema, table, model, true, w, Null, now);
      answer := Execute(Update, Some(MarkQuery(model, true, w, Null).args), now);
    }

    /** Retention cleanup: removes exactly the dead rows stamped before the cutoff, and counts them. */
    method PermanentlyDeleteExpired(cutoff: int, now: int) returns (count: nat)
      requires Valid()
      modifies this
      ensures Valid() && table.next == old(table).next
      ensures forall i :: i in table.rows <==> i in old(table).rows && !ExpiredRow(old(table).rows[i], cutoff)
      ensures forall i | i in table.rows :: table.rows[i] == old(table).rows[i]
      ensures count == |ExpiredIds(old(table).rows, cutoff)|
    {
      hide Matches, ExpiredRow;
      ghost var before := table.rows;
      var w := Having(DeletedAt, [Not(Null), Less(cutoff)]);
      forall i | i in before
        ensures Matches(w, before[i]) <==> ExpiredRow(before[i], cutoff)
      {
        ExpiredMatches(cutoff, before[i]);
      }
      count := HardDeleteMany(w, now);
      ghost var gone := Select(before, w);
      assert gone.Keys == ExpiredIds(before, cutoff);
      assert |gone| == |gone.Keys|;
    }
  }

  /* ---- soft delete and restore undo each other ---- */

  lemma StampKeepsSound(s: Schema, t: Table, model: Model, id: Value, now: int)
    requires Sound(s, t) && Tracked(model) && ID in s.unique && id != Null
    ensures Sound(s, t.(rows := StampedById(t.rows, id, now)))
  {
    StampStep(s, t, model, id, now);
    ExecKeepsSound(s, t, Rewrite(true, MarkQuery(model, true, ById(id), Num(now)), now));
  }

  lemma RestoreUndoesStamp(s: Schema, rows: Rows, id: Value, now: int, i: nat)
    requires UniqueOk(s, rows) && ID in s.unique && id != Null
    requires i in rows && IsLive(rows[i]) && DeletedAt in rows[i] && Cell(rows[i], ID) == id
    ensures RestoredById(StampedById(rows, id, now), id) == rows
  {
    var after := RestoredById(StampedById(rows, id, now), id);
    assert Key(rows[i], ID) == id;
    forall j | j in rows
      ensures after[j] == rows[j]
    {
      assert Key(rows[j], ID) == Cell(rows[j], ID);
      assert rows[i][DeletedAt := Num(now)][DeletedAt := Null] == rows[i];
    }
  }

  /** Stamping the live row with an id and then restoring that id gives back the table as it was. */
  lemma SoftDeleteThenRestore(s: Schema, t: Table, model: Model, id: Value, now: int, later: int, i: nat)
    requires Sound(s, t) && Tracked(model) && ID in s.unique && id != Null
    requires i in t.rows && IsLive(t.rows[i]) && Cell(t.rows[i], ID) == id
    ensures var (deleted, _) := Step(s, t, Call(MarkQuery(model, true, ById(id), Num(now)), now));
      Step(s, deleted, Call(MarkQuery(model, false, RestoreFilter(id), Null), later)).0 == t
  {
    hide Rewrite, Exec, StampedById, RestoredById;
    StampStep(s, t, model, id, now);
    StampKeepsSound(s, t, model, id, now);
    RestoreStep(s, t.(rows := StampedById(t.rows, id, now)), model, id, later);
    RestoreUndoesStamp(s, t.rows, id, now, i);
  }

  /* ---- listing deleted records ---- */

  /** The service's `findManyDeleted`: the caller's options, their filter with `deletedAt: { not: null }` added. */
  function FindManyDeletedQuery(model: Model, where_: Option<Where>, includeDeleted: Option<Value>): Query {
    Query(model, FindMany, NO_ARGS.(where_ := Some(WithField(where_.GetOr(EVERYTHING), DeletedAt, NOT_NULL)), includeDeleted := includeDeleted))
  }

  lemma SelectByPart(t: Table, asked: Where, dead: bool)
    ensures Select(t.rows, WithField(asked, DeletedAt, if dead then NOT_NULL else IS_NULL)) ==
      Select(Part(t.rows, !dead), WithoutField(asked, DeletedAt))
  {
    hide Matches;
    var sent, w := WithField(asked, DeletedAt, if dead then NOT_NULL else IS_NULL), WithoutField(asked, DeletedAt);
    forall i | i in t.rows
      ensures Matches(sent, t.rows[i]) <==> IsLive(t.rows[i]) != dead && Matches(w, t.rows[i])
    {
      NotNullFilter(asked, t.rows[i]);
      InjectedFilter(asked, t.rows[i]);
    }
  }

  /**
    `findManyDeleted` lists the dead matching rows exactly when its caller also opts in to deleted rows; otherwise the
    injected condition replaces `not: null` and it lists the live matching rows instead.
  */
  lemma FindManyDeletedLists(s: Schema, t: Table, model: Model, where_: Option<Where>, includeDeleted: Option<Value>, now: int)
    requires s.Valid() && Tracked(model)
    requires Mentions(WithoutField(where_.GetOr(EVERYTHING), IncludeDeletedFlag), s.Columns())
    ensures var q := FindManyDeletedQuery(model, where_, includeDeleted);
      var w := WithoutField(WithoutField(where_.GetOr(EVERYTHING), IncludeDeletedFlag), DeletedAt);
      Step(s, t, Call(q, now)) == (t, Found(Select(Part(t.rows, !ShouldIncludeDeleted(q.args)), w)))
  {
    var q := FindManyDeletedQuery(model, where_, includeDeleted);
    var asked := WithoutField(where_.GetOr(EVERYTHING), IncludeDeletedFlag);
    var w := WithoutField(asked, DeletedAt);
    var forwarded := Rewrite(true, q, now);
    var sent := if ShouldIncludeDeleted(q.args) then WithField(asked, DeletedAt, NOT_NULL) else WithField(asked, DeletedAt, IS_NULL);
    assert Filter(forwarded.args).fields == sent.fields;
    assert Filter(forwarded.args) == sent;
    SelectByPart(t, asked, ShouldIncludeDeleted(q.args));
  }

  /** So without the opt-in every row it returns is live: on any table with a live match it lists a row that was never deleted. */
  lemma FindManyDeletedOnlyDead(s: Schema, t: Table, model: Model, where_: Option<Where>, includeDeleted: Option<Value>, now: int)
    requires s.Valid() && Tracked(model)
    requires Mentions(WithoutField(where_.GetOr(EVERYTHING), IncludeDeletedFlag), s.Columns())
    ensures var q := FindManyDeletedQuery(model, where_, includeDeleted);
      var w := WithoutField(WithoutField(where_.GetOr(EVERYTHING), IncludeDeletedFlag), DeletedAt);
      var listed := Step(s, t, Call(q, now)).1;
      listed.Found? && ((forall i | i in listed.rows :: !IsLive(listed.rows[i])) <==>
                        (ShouldIncludeDeleted(q.args) || Select(Part(t.rows, true), w) == map[]))
  {
    FindManyDeletedLists(s, t, model, where_, includeDeleted, now);
    var w := WithoutField(WithoutField(where_.GetOr(EVERYTHING), IncludeDeletedFlag), DeletedAt);
    var listed := Select(Part(t.rows, true), w);
    if listed != map[] {
      var i :| i in listed;
      assert IsLive(listed[i]);
    }
  }
}
