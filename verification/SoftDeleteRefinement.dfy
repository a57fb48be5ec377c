/**
  What the middleware is for: one flat table behind it behaves like two separate stores, the live rows and a
  graveyard.  `Serve` is what the caller asked for, told on the two stores without any rewriting;
  `Simulates` and `RunSimulates` prove that rewriting and running on the flat table gives the same answers and states.
*/
module SoftDeleteRefinement {
  import opened Wrappers
  import opened Tables
  import opened SoftDeleteMiddleware

  datatype Store = Store(live: Rows, dead: Rows, next: nat)

  predicate IsLive(row: Row) {
    Cell(row, DeletedAt) == Null
  }

  /** The live rows of a table, or its dead ones. */
  function Part(rows: Rows, live: bool): Rows {
    map i | i in rows && IsLive(rows[i]) == live :: rows[i]
  }

  function Abs(t: Table): Store {
    Store(Part(t.rows, true), Part(t.rows, false), t.next)
  }

  /* ---- the two-store specification ---- */

  datatype Fate = Revive | Bury | Stay

  /** Where a payload sends the rows it is written to. */
  function FateOf(data: Payload): Fate {
    if DeletedAt !in data || data[DeletedAt].Undefined? then Stay
    else if data[DeletedAt].v == Null then Revive else Bury
  }

  function Place(st: Store, hits: Rows, data: Payload): Store {
    var rows := Patch(hits, data);
    match FateOf(data)
    case Revive => st.(live := st.live + rows, dead := st.dead - hits.Keys)
    case Bury => st.(live := st.live - hits.Keys, dead := st.dead + rows)
    case Stay => st.(live := st.live + (rows - st.dead.Keys), dead := st.dead + (rows - st.live.Keys))
  }

  function Add(s: Schema, st: Store, data: Payload): Store {
    var row := Write(s.blank, data);
    if FateOf(data).Bury? then Store(st.live, st.dead[st.next := row], st.next + 1)
    else Store(st.live[st.next := row], st.dead, st.next + 1)
  }

  /** Dead rows still occupy their unique keys. */
  function CommitStore(s: Schema, before: Store, after: Store, count: nat): (Store, Answer) {
    if UniqueOk(s, after.live + after.dead) then (after, Changed(count)) else (before, Failed(UniqueViolation))
  }

  predicate WellPosed(s: Schema, a: Action, w: Where) {
    Mentions(w, s.Columns()) && (NeedsUnique(a) ==> SelectsOne(s, w))
  }

  function InsertStore(s: Schema, st: Store, data: Payload): (Store, Answer) {
    CommitStore(s, st, Add(s, st, data), 1)
  }

  function ModifyStore(s: Schema, st: Store, hits: Rows, data: Payload): (Store, Answer) {
    CommitStore(s, st, Place(st, hits, data), |hits|)
  }

  function ChangeStore(s: Schema, st: Store, one: bool, hits: Rows, data: Payload): (Store, Answer) {
    if one && hits == map[] then (st, Failed(RecordNotFound)) else ModifyStore(s, st, hits, data)
  }

  function RemoveStore(st: Store, one: bool, hits: Rows): (Store, Answer) {
    if one && hits == map[] then (st, Failed(RecordNotFound))
    else (st.(live := st.live - hits.Keys, dead := st.dead - hits.Keys), Changed(|hits|))
  }

  predicate NoStrayFlags(args: Args) {
    args.includeDeleted.None? && args.hardDelete.None?
  }

  predicate Writable(s: Schema, data: Option<Payload>) {
    data.Some? && data.value.Keys <= s.Columns()
  }

  /** Without opt-in: the live rows, the caller's own top-level `deletedAt` condition dropped.  With opt-in: every row. */
  function ServeRead(s: Schema, st: Store, q: Query): Answer {
    var asked := WithoutField(Filter(q.args), IncludeDeletedFlag);
    var optIn := ShouldIncludeDeleted(q.args);
    var w := if optIn then asked else WithoutField(asked, DeletedAt);
    if q.args.hardDelete.Some? || !WellPosed(s, q.action, w) then Failed(InvalidQuery)
    else Report(q.action, Select(if optIn then st.live + st.dead else st.live, w))
  }

  /** Only live rows are written, except that a restore reaches every row. */
  function ServeUpdate(s: Schema, st: Store, q: Query): (Store, Answer) {
    var restore := IsRestore(q.args.data);
    var w := if restore then Filter(q.args) else WithoutField(Filter(q.args), DeletedAt);
    if !NoStrayFlags(q.args) || !WellPosed(s, q.action, w) || !Writable(s, q.args.data) then (st, Failed(InvalidQuery))
    else ChangeStore(s, st, q.action.Update?, Select(if restore then st.live + st.dead else st.live, w), q.args.data.value)
  }

  /** A flagged delete loses rows of either store; any other delete moves live rows to the graveyard. */
  function ServeDelete(s: Schema, st: Store, q: Query, now: int): (Store, Answer) {
    var asked := WithoutField(Filter(q.args), HardDeleteFlag);
    if ShouldHardDelete(q.args) then
      if q.args.includeDeleted.Some? || !WellPosed(s, q.action, asked) then (st, Failed(InvalidQuery))
      else RemoveStore(st, q.action.Delete?, Select(st.live + st.dead, asked))
    else
      var w := WithoutField(asked, DeletedAt);
      if !WellPosed(s, q.action, w) then (st, Failed(InvalidQuery))
      else ChangeStore(s, st, q.action.Delete?, Select(st.live, w), map[DeletedAt := Set(Num(now))])
  }

  /** An upsert finds dead rows too, and revives them unless its update payload mentions `deletedAt`. */
  function ServeUpsert(s: Schema, st: Store, q: Query): (Store, Answer) {
    var args := q.args;
    if !NoStrayFlags(args) || !WellPosed(s, q.action, Filter(args)) || !Writable(s, args.create_) || !Writable(s, args.update)
    then (st, Failed(InvalidQuery))
    else
      var hits := Select(st.live + st.dead, Filter(args));
      if hits == map[] then InsertStore(s, st, args.create_.value)
      else ModifyStore(s, st, hits, StartLive(args.update).value)
  }

  function ServeCreate(s: Schema, st: Store, q: Query): (Store, Answer) {
    if !NoStrayFlags(q.args) || !Mentions(Filter(q.args), s.Columns()) || !Writable(s, q.args.data) then (st, Failed(InvalidQuery))
    else InsertStore(s, st, q.args.data.value)
  }

  function Serve(s: Schema, st: Store, q: Query, now: int): (Store, Answer) {
    if IsRead(q.action) then (st, ServeRead(s, st, q))
    else match q.action
      case Update => ServeUpdate(s, st, q)
      case UpdateMany => ServeUpdate(s, st, q)
      case Delete => ServeDelete(s, st, q, now)
      case DeleteMany => ServeDelete(s, st, q, now)
      case Upsert => ServeUpsert(s, st, q)
      case _ => ServeCreate(s, st, q)
  }

  /* ---- filters ---- */

  /** The injected condition selects the live rows and replaces the caller's own condition on `deletedAt`. */
  lemma InjectedFilter(w: Where, row: Row)
    ensures Matches(WithField(w, DeletedAt, IS_NULL), row) <==> IsLive(row) && Matches(WithoutField(w, DeletedAt), row)
  {
    var inner, outer := WithField(w, DeletedAt, IS_NULL), WithoutField(w, DeletedAt);
    assert forall c | c in outer.fields :: c in inner.fields && inner.fields[c] == outer.fields[c];
    assert forall c | c in inner.fields :: c == DeletedAt || (c in outer.fields && inner.fields[c] == outer.fields[c]);
    assert DeletedAt in inner.fields && Passes(IS_NULL[0], Cell(row, DeletedAt)) == IsLive(row);
  }

  lemma SelectLive(t: Table, w: Where)
    ensures Select(t.rows, WithField(w, DeletedAt, IS_NULL)) == Select(Abs(t).live, WithoutField(w, DeletedAt))
  {
    forall i | i in t.rows
      ensures Matches(WithField(w, DeletedAt, IS_NULL), t.rows[i])
        <==> IsLive(t.rows[i]) && Matches(WithoutField(w, DeletedAt), t.rows[i])
    {
      InjectedFilter(w, t.rows[i]);
    }
  }

  lemma WholeTable(t: Table)
    ensures Abs(t).live + Abs(t).dead == t.rows
  {
  }

  lemma WellPosedLive(s: Schema, a: Action, w: Where)
    requires s.Valid()
    ensures WellPosed(s, a, WithField(w, DeletedAt, IS_NULL)) <==> WellPosed(s, a, WithoutField(w, DeletedAt))
  {
    var inner, outer := WithField(w, DeletedAt, IS_NULL), WithoutField(w, DeletedAt);
    assert inner.fields.Keys == outer.fields.Keys + {DeletedAt};
    if SelectsOne(s, inner) {
      var c :| c in inner.fields && c in s.unique && |inner.fields[c]| == 1 && inner.fields[c][0].Equals? && inner.fields[c][0].v != Null;
      assert c in outer.fields && outer.fields[c] == inner.fields[c];
    }
    if SelectsOne(s, outer) {
      var c :| c in outer.fields && c in s.unique && |outer.fields[c]| == 1 && outer.fields[c][0].Equals? && outer.fields[c][0].v != Null;
      assert c in inner.fields && inner.fields[c] == outer.fields[c];
    }
  }

  /* ---- writes ---- */

  lemma WriteFate(row: Row, data: Payload)
    requires DeletedAt in row
    ensures IsLive(Write(row, data)) <==> (FateOf(data).Revive? || (FateOf(data).Stay? && IsLive(row)))
  {
  }

  lemma PartPlus(rows: Rows, changed: Rows, live: bool)
    ensures Part(rows + changed, live) == (Part(rows, live) - changed.Keys) + Part(changed, live)
  {
  }

  lemma PatchFate(s: Schema, hits: Rows, data: Payload, live: bool)
    requires s.Valid() && forall i | i in hits :: hits[i].Keys == s.Columns()
    ensures Part(Patch(hits, data), live) ==
      match FateOf(data)
      case Revive => if live then Patch(hits, data) else map[]
      case Bury => if live then map[] else Patch(hits, data)
      case Stay => Patch(hits, data) - Part(hits, !live).Keys
  {
    hide Write, FateOf, IsLive;
    forall i | i in hits
      ensures IsLive(Write(hits[i], data)) <==> (FateOf(data).Revive? || (FateOf(data).Stay? && IsLive(hits[i])))
    {
      WriteFate(hits[i], data);
    }
  }

  lemma PatchKeys(hits: Rows, data: Payload)
    ensures Patch(hits, data).Keys == hits.Keys
  {
  }

  lemma DropThenPut(m: Rows, put: Rows)
    ensures (m - put.Keys) + put == m + put
  {
  }

  lemma StayPut(rows: Rows, hits: Rows, changed: Rows, live: bool)
    requires changed.Keys == hits.Keys
    requires forall i | i in hits :: i in rows && hits[i] == rows[i]
    ensures (Part(rows, live) - changed.Keys) + (changed - Part(hits, !live).Keys)
      == Part(rows, live) + (changed - Part(rows, !live).Keys)
  {
  }

  lemma PlacePart(s: Schema, rows: Rows, hits: Rows, data: Payload, live: bool)
    requires s.Valid() && forall i | i in hits :: hits[i].Keys == s.Columns()
    requires forall i | i in hits :: i in rows && hits[i] == rows[i]
    ensures Part(rows + Patch(hits, data), live) ==
      match FateOf(data)
      case Revive => if live then Part(rows, live) + Patch(hits, data) else Part(rows, live) - hits.Keys
      case Bury => if live then Part(rows, live) - hits.Keys else Part(rows, live) + Patch(hits, data)
      case Stay => Part(rows, live) + (Patch(hits, data) - Part(rows, !live).Keys)
  {
    hide Part, Patch, FateOf;
    var changed := Patch(hits, data);
    assert changed.Keys == hits.Keys by { PatchKeys(hits, data); }
    PartPlus(rows, changed, live);
    PatchFate(s, hits, data, live);
    DropThenPut(Part(rows, live), changed);
    StayPut(rows, hits, changed, live);
  }

  lemma PlaceAbs(s: Schema, t: Table, hits: Rows, data: Payload)
    requires s.Valid() && TableValid(s, t)
    requires forall i | i in hits :: i in t.rows && hits[i] == t.rows[i]
    ensures Abs(t.(rows := t.rows + Patch(hits, data))) == Place(Abs(t), hits, data)
  {
    PlacePart(s, t.rows, hits, data, true);
    PlacePart(s, t.rows, hits, data, false);
  }

  lemma PutPart(rows: Rows, i: nat, row: Row, live: bool)
    requires i !in rows
    ensures Part(rows[i := row], live) == if IsLive(row) == live then Part(rows, live)[i := row] else Part(rows, live)
  {
  }

  lemma AddAbs(s: Schema, t: Table, data: Payload)
    requires s.Valid() && TableValid(s, t)
    ensures Abs(Table(t.rows[t.next := Write(s.blank, data)], t.next + 1)) == Add(s, Abs(t), data)
  {
    var row := Write(s.blank, data);
    WriteFate(s.blank, data);
    assert t.next !in t.rows;
    PutPart(t.rows, t.next, row, true);
    PutPart(t.rows, t.next, row, false);
  }

  lemma CommitAbs(s: Schema, before: Table, after: Table, count: nat)
    ensures var (t, answer) := Commit(s, before, after, count);
      CommitStore(s, Abs(before), Abs(after), count) == (Abs(t), answer)
  {
    WholeTable(after);
  }

  lemma InsertAbs(s: Schema, t: Table, data: Payload)
    requires s.Valid() && TableValid(s, t)
    ensures var (t', answer) := Insert(s, t, data);
      InsertStore(s, Abs(t), data) == (Abs(t'), answer)
  {
    AddAbs(s, t, data);
    CommitAbs(s, t, Table(t.rows[t.next := Write(s.blank, data)], t.next + 1), 1);
  }

  lemma ModifyAbs(s: Schema, t: Table, w: Where, data: Payload)
    requires s.Valid() && TableValid(s, t)
    ensures var (t', answer) := Modify(s, t, Select(t.rows, w), data);
      ModifyStore(s, Abs(t), Select(t.rows, w), data) == (Abs(t'), answer)
  {
    PlaceAbs(s, t, Select(t.rows, w), data);
    CommitAbs(s, t, t.(rows := t.rows + Patch(Select(t.rows, w), data)), |Select(t.rows, w)|);
  }

  lemma ChangeAbs(s: Schema, t: Table, one: bool, w: Where, data: Payload)
    requires s.Valid() && TableValid(s, t)
    ensures var (t', answer) := Change(s, t, one, Select(t.rows, w), data);
      ChangeStore(s, Abs(t), one, Select(t.rows, w), data) == (Abs(t'), answer)
  {
    ModifyAbs(s, t, w, data);
  }

  lemma DropPart(rows: Rows, keys: set<nat>, live: bool)
    ensures Part(rows - keys, live) == Part(rows, live) - keys
  {
  }

  lemma RemoveAbs(t: Table, one: bool, hits: Rows)
    ensures var (t', answer) := Remove(t, one, hits);
      RemoveStore(Abs(t), one, hits) == (Abs(t'), answer)
  {
    DropPart(t.rows, hits.Keys, true);
    DropPart(t.rows, hits.Keys, false);
  }

  /* ---- simulation, one action at a time ---- */

  ghost predicate Agree(s: Schema, t: Table, q: Query, now: int) {
    var (t', answer) := Exec(s, t, Rewrite(true, q, now));
    Serve(s, Abs(t), q, now) == (Abs(t'), answer)
  }

  lemma ReadSimulates(s: Schema, t: Table, q: Query, now: int)
    requires s.Valid() && Tracked(q.model) && IsRead(q.action)
    ensures Agree(s, t, q, now)
  {
    hide Matches, LogicMentions, SelectsOne;
    var forwarded := Rewrite(true, q, now);
    var asked := WithoutField(Filter(q.args), IncludeDeletedFlag);
    WholeTable(t);
    if ShouldIncludeDeleted(q.args) {
      assert Filter(forwarded.args) == asked;
    } else {
      assert Filter(forwarded.args).fields == WithField(asked, DeletedAt, IS_NULL).fields;
      assert Filter(forwarded.args) == WithField(asked, DeletedAt, IS_NULL);
      SelectLive(t, asked);
      WellPosedLive(s, q.action, asked);
    }
  }

  /** An update reaches the database with the caller's filter for a restore, with the live rows' filter otherwise. */
  lemma UpdateForwards(s: Schema, t: Table, q: Query, now: int)
    requires s.Valid() && Tracked(q.model) && (q.action.Update? || q.action.UpdateMany?)
    ensures var w := if IsRestore(q.args.data) then Filter(q.args) else WithField(Filter(q.args), DeletedAt, IS_NULL);
      Exec(s, t, Rewrite(true, q, now)) ==
        if NoStrayFlags(q.args) && WellPosed(s, q.action, w) && Writable(s, q.args.data)
        then Change(s, t, q.action.Update?, Select(t.rows, w), q.args.data.value)
        else (t, Failed(InvalidQuery))
  {
    hide Matches, LogicMentions, SelectsOne, Select, Change;
    var w := if IsRestore(q.args.data) then Filter(q.args) else WithField(Filter(q.args), DeletedAt, IS_NULL);
    var forwarded := Rewrite(true, q, now);
    assert Filter(forwarded.args) == w;
    assert Accepted(s, forwarded) == (NoStrayFlags(q.args) && WellPosed(s, q.action, w) && Writable(s, q.args.data));
  }

  lemma UpdateSimulates(s: Schema, t: Table, q: Query, now: int)
    requires s.Valid() && TableValid(s, t) && Tracked(q.model) && (q.action.Update? || q.action.UpdateMany?)
    ensures Agree(s, t, q, now)
  {
    hide Matches, LogicMentions, SelectsOne, Select, Change, ChangeStore, Exec, Rewrite, WellPosed, TableValid;
    var w := if IsRestore(q.args.data) then Filter(q.args) else WithField(Filter(q.args), DeletedAt, IS_NULL);
    WholeTable(t);
    UpdateForwards(s, t, q, now);
    SelectLive(t, Filter(q.args));
    WellPosedLive(s, q.action, Filter(q.args));
    if Writable(s, q.args.data) {
      ChangeAbs(s, t, q.action.Update?, w, q.args.data.value);
    }
  }

  lemma HardDeleteSimulates(s: Schema, t: Table, q: Query, now: int)
    requires s.Valid() && Tracked(q.model) && (q.action.Delete? || q.action.DeleteMany?)
    requires ShouldHardDelete(q.args)
    ensures Agree(s, t, q, now)
  {
    hide Matches, LogicMentions, SelectsOne, Select, Remove, RemoveStore, ShouldHardDelete;
    var asked := WithoutField(Filter(q.args), HardDeleteFlag);
    WholeTable(t);
    assert Filter(Rewrite(true, q, now).args) == asked;
    RemoveAbs(t, q.action.Delete?, Select(t.rows, asked));
  }

  /** A delete without the flag reaches the database as an UPDATE stamping the live rows. */
  lemma SoftDeleteForwards(s: Schema, t: Table, q: Query, now: int)
    requires s.Valid() && Tracked(q.model) && (q.action.Delete? || q.action.DeleteMany?)
    requires !ShouldHardDelete(q.args)
    ensures var w := WithField(WithoutField(Filter(q.args), HardDeleteFlag), DeletedAt, IS_NULL);
      Exec(s, t, Rewrite(true, q, now)) ==
        if WellPosed(s, q.action, w) then Change(s, t, q.action.Delete?, Select(t.rows, w), map[DeletedAt := Set(Num(now))])
        else (t, Failed(InvalidQuery))
  {
    hide Matches, LogicMentions, SelectsOne, Select, Change;
    var w := WithField(WithoutField(Filter(q.args), HardDeleteFlag), DeletedAt, IS_NULL);
    var forwarded := Rewrite(true, q, now);
    assert Filter(forwarded.args) == w;
    assert Accepted(s, forwarded) == WellPosed(s, q.action, w);
  }

  lemma SoftDeleteSimulates(s: Schema, t: Table, q: Query, now: int)
    requires s.Valid() && TableValid(s, t) && Tracked(q.model) && (q.action.Delete? || q.action.DeleteMany?)
    requires !ShouldHardDelete(q.args)
    ensures Agree(s, t, q, now)
  {
    hide Matches, LogicMentions, SelectsOne, Select, Change, ChangeStore, Exec, Rewrite, WellPosed, TableValid;
    var asked := WithoutField(Filter(q.args), HardDeleteFlag);
    SoftDeleteForwards(s, t, q, now);
    SelectLive(t, asked);
    WellPosedLive(s, q.action, asked);
    ChangeAbs(s, t, q.action.Delete?, WithField(asked, DeletedAt, IS_NULL), map[DeletedAt := Set(Num(now))]);
  }

  lemma UpsertForwards(s: Schema, t: Table, q: Query, now: int)
    requires s.Valid() && Tracked(q.model) && q.action.Upsert?
    ensures var hits := Select(t.rows, Filter(q.args));
      Exec(s, t, Rewrite(true, q, now)) ==
        if NoStrayFlags(q.args) && WellPosed(s, q.action, Filter(q.args)) && Writable(s, q.args.create_) && Writable(s, q.args.update)
        then if hits == map[] then Insert(s, t, StartLive(q.args.create_).value) else Modify(s, t, hits, StartLive(q.args.update).value)
        else (t, Failed(InvalidQuery))
  {
    var forwarded := Rewrite(true, q, now);
    assert Filter(forwarded.args) == Filter(q.args);
    assert Writable(s, forwarded.args.create_) == Writable(s, q.args.create_);
    assert Writable(s, forwarded.args.update) == Writable(s, q.args.update);
    assert Accepted(s, forwarded) == (NoStrayFlags(q.args) && WellPosed(s, q.action, Filter(q.args))
                                      && Writable(s, q.args.create_) && Writable(s, q.args.update));
  }

  /** The default the middleware puts into the create branch is the value a new row has anyway. */
  lemma InsertStartsLive(s: Schema, t: Table, create_: Payload)
    requires s.Valid()
    ensures Insert(s, t, StartLive(Some(create_)).value) == Insert(s, t, create_)
  {
    assert Write(s.blank, StartLive(Some(create_)).value) == Write(s.blank, create_);
  }

  lemma UpsertSimulates(s: Schema, t: Table, q: Query, now: int)
    requires s.Valid() && TableValid(s, t) && Tracked(q.model) && q.action.Upsert?
    ensures Agree(s, t, q, now)
  {
    hide Matches, LogicMentions, SelectsOne, Select, Insert, Modify, InsertStore, ModifyStore, Exec, Rewrite, WellPosed, TableValid;
    WholeTable(t);
    UpsertForwards(s, t, q, now);
    if Writable(s, q.args.create_) && Writable(s, q.args.update) {
      InsertStartsLive(s, t, q.args.create_.value);
      InsertAbs(s, t, q.args.create_.value);
      ModifyAbs(s, t, Filter(q.args), StartLive(q.args.update).value);
    }
  }

  lemma CreateSimulates(s: Schema, t: Table, q: Query, now: int)
    requires s.Valid() && TableValid(s, t) && Tracked(q.model) && q.action.Create?
    ensures Agree(s, t, q, now)
  {
    hide Matches, LogicMentions, SelectsOne;
    if q.args.data.Some? {
      InsertAbs(s, t, q.args.data.value);
    }
  }

  /** One query: rewriting and running on the flat table is serving the caller's query on the two stores. */
  lemma Simulates(s: Schema, t: Table, q: Query, now: int)
    requires s.Valid() && TableValid(s, t) && Tracked(q.model)
    ensures Agree(s, t, q, now)
  {
    if IsRead(q.action) {
      ReadSimulates(s, t, q, now);
    } else if q.action.Update? || q.action.UpdateMany? {
      UpdateSimulates(s, t, q, now);
    } else if q.action.Upsert? {
      UpsertSimulates(s, t, q, now);
    } else if q.action.Create? {
      CreateSimulates(s, t, q, now);
    } else if ShouldHardDelete(q.args) {
      HardDeleteSimulates(s, t, q, now);
    } else {
      SoftDeleteSimulates(s, t, q, now);
    }
  }
}
