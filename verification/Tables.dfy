/**
  One relational table as the soft-delete middleware sees it: rows keyed by an internal row number,
  Prisma `where` filters evaluated in three-valued SQL logic, and the physical meaning of each query
  that reaches the database.
*/
module Tables {
  import opened Wrappers

  /** A column value.  Dates are numbers (milliseconds). */
  datatype Value = Null | Bool(b: bool) | Num(n: int) | Str(s: string)

  /** The keys the middleware knows by name; every other column goes by its own. */
  datatype Column = DeletedAt | IncludeDeletedFlag | HardDeleteFlag | Named(name: string)

  type Row = map<Column, Value>
  type Rows = map<nat, Row>

  function Cell(row: Row, column: Column): Value {
    if column in row then row[column] else Null
  }

  /* ---- filters ---- */

  /** One operator of a column condition, such as `{ not: null }` or `{ lt: d }`. */
  datatype Test =
    | Equals(v: Value)
    | Not(v: Value)
    | Less(bound: int)
    | Greater(bound: int)
    | OneOf(options: set<Value>)

  type Condition = seq<Test>

  /**
    A `where` object: conditions keyed by column (the two middleware flags are keys like any other),
    the operands of AND and NOT, and an optional OR.  A key whose value is `undefined` is an absent key.
  */
  datatype Where = Where(fields: map<Column, Condition>, logic: Logic)
  datatype Logic = Logic(all: seq<Where>, none: seq<Where>, some: Alternatives)
  datatype Alternatives = NoOr | Or(branches: seq<Where>)

  const EVERYTHING := Where(map[], Logic([], [], NoOr))

  /**
    SQL logic has three values: a comparison with null is neither true nor false.  `Passes`, `Holds` and `Matches` say
    when a test, a condition and a filter are true, `Fails`, `Refutes` and `Rejects` when they are false.
  */
  predicate Passes(t: Test, x: Value) {
    match t
    case Equals(v) => x == v
    case Not(v) => x != Null && x != v
    case Less(bound) => x.Num? && x.n < bound
    case Greater(bound) => x.Num? && x.n > bound
    case OneOf(options) => x != Null && x in options
  }

  predicate Fails(t: Test, x: Value) {
    match t
    case Equals(v) => if v == Null then x != Null else x != Null && x != v
    case Not(v) => if v == Null then x == Null else x == v
    case Less(bound) => x != Null && !(x.Num? && x.n < bound)
    case Greater(bound) => x != Null && !(x.Num? && x.n > bound)
    case OneOf(options) => options == {} || (x != Null && x !in options)
  }

  predicate Holds(c: Condition, x: Value) {
    forall k | 0 <= k < |c| :: Passes(c[k], x)
  }

  predicate Refutes(c: Condition, x: Value) {
    exists k | 0 <= k < |c| :: Fails(c[k], x)
  }

  /** SQL returns the rows on which the filter is true, not merely not false. */
  predicate Matches(w: Where, row: Row) {
    && (forall c | c in w.fields :: Holds(w.fields[c], Cell(row, c)))
    && LogicMatches(w.logic, row)
  }

  predicate LogicMatches(l: Logic, row: Row) {
    && (forall k | 0 <= k < |l.all| :: Matches(l.all[k], row))
    && (forall k | 0 <= k < |l.none| :: Rejects(l.none[k], row))
    && (l.some.Or? ==> exists k | 0 <= k < |l.some.branches| :: Matches(l.some.branches[k], row))
  }

  predicate Rejects(w: Where, row: Row) {
    || (exists c | c in w.fields :: Refutes(w.fields[c], Cell(row, c)))
    || (exists k | 0 <= k < |w.logic.all| :: Rejects(w.logic.all[k], row))
    || (exists k | 0 <= k < |w.logic.none| :: Matches(w.logic.none[k], row))
    || (w.logic.some.Or? && forall k | 0 <= k < |w.logic.some.branches| :: Rejects(w.logic.some.branches[k], row))
  }

  function Select(rows: Rows, w: Where): Rows {
    map i | i in rows && Matches(w, rows[i]) :: rows[i]
  }

  function WithField(w: Where, column: Column, c: Condition): Where {
    w.(fields := w.fields[column := c])
  }

  function WithoutField(w: Where, column: Column): Where {
    w.(fields := w.fields - {column})
  }

  /** Every column a filter mentions, at any depth, is one of `columns`. */
  predicate Mentions(w: Where, columns: set<Column>) {
    w.fields.Keys <= columns && LogicMentions(w.logic, columns)
  }

  predicate LogicMentions(l: Logic, columns: set<Column>) {
    && (forall k | 0 <= k < |l.all| :: Mentions(l.all[k], columns))
    && (forall k | 0 <= k < |l.none| :: Mentions(l.none[k], columns))
    && (l.some.Or? ==> forall k | 0 <= k < |l.some.branches| :: Mentions(l.some.branches[k], columns))
  }

  /* ---- writes ---- */

  /** A value in a `data`, `create` or `update` payload; an explicit `undefined` leaves the column alone. */
  datatype Assign = Undefined | Set(v: Value)

  type Payload = map<Column, Assign>

  function Write(row: Row, data: Payload): Row {
    map c | c in row :: if c in data && data[c].Set? then data[c].v else row[c]
  }

  function Patch(rows: Rows, data: Payload): Rows {
    map i | i in rows :: Write(rows[i], data)
  }

  /* ---- queries ---- */

  datatype Action =
    | FindUnique | FindUniqueOrThrow | FindFirst | FindFirstOrThrow | FindMany | Count | Aggregate | GroupBy
    | Create | Update | UpdateMany | Delete | DeleteMany | Upsert

  datatype Args = Args(
    where_: Option<Where>,
    includeDeleted: Option<Value>,
    hardDelete: Option<Value>,
    data: Option<Payload>,
    create_: Option<Payload>,
    update: Option<Payload>)

  const NO_ARGS := Args(None, None, None, None, None, None)

  datatype Model =
    | User | Project | Contribution | Milestone | ReputationHistory | Category | InsurancePool | ReinsuranceContract
    | InsurancePolicy | Claim | AuditLog | LedgerCursor | ProcessedEvent | QuarantinedEvent | IndexerLog
    | NotificationSetting | Notification | EmailOutbox | IdempotencyKey | RefreshToken
    | Unlisted(name: string)

  datatype Query = Query(model: Model, action: Action, args: Args)

  predicate IsRead(a: Action) {
    || a.FindUnique? || a.FindUniqueOrThrow? || a.FindFirst? || a.FindFirstOrThrow?
    || a.FindMany? || a.Count? || a.Aggregate? || a.GroupBy?
  }

  datatype Error = InvalidQuery | RecordNotFound | UniqueViolation

  /** A read answers with the rows it ranges over; count, aggregate and groupBy are functions of those rows. */
  datatype Answer = Found(rows: Rows) | Changed(count: nat) | Failed(error: Error)

  /** `columns` and the unique ones among them; `blank` is a row holding every column's default. */
  datatype Schema = Schema(unique: set<Column>, blank: Row) {
    function Columns(): set<Column> { blank.Keys }

    predicate Valid() {
      && DeletedAt in blank && blank[DeletedAt] == Null
      && unique <= Columns() && DeletedAt !in unique
      && IncludeDeletedFlag !in blank && HardDeleteFlag !in blank
    }
  }

  /** `next` is the number the next inserted row gets; numbers are never reused. */
  datatype Table = Table(rows: Rows, next: nat)

  ghost predicate RowsValid(s: Schema, rows: Rows, next: nat) {
    forall i | i in rows :: i < next && rows[i].Keys == s.Columns()
  }

  ghost predicate TableValid(s: Schema, t: Table) {
    RowsValid(s, t.rows, t.next)
  }

  /** The value a unique constraint compares. */
  function Key(row: Row, column: Column): Value {
    Cell(row, column)
  }

  /** No two rows agree on a non-null unique column. */
  predicate UniqueOk(s: Schema, rows: Rows) {
    forall i, j, c {:trigger Key(rows[i], c), Key(rows[j], c)} | i in rows && j in rows && i != j && c in s.unique ::
      Key(rows[i], c) == Null || Key(rows[i], c) != Key(rows[j], c)
  }

  /** `update`, `delete`, `upsert` and `findUnique` must name a row through a unique column. */
  predicate SelectsOne(s: Schema, w: Where) {
    exists c | c in w.fields :: c in s.unique && |w.fields[c]| == 1 && w.fields[c][0].Equals? && w.fields[c][0].v != Null
  }

  predicate NeedsUnique(a: Action) {
    a.FindUnique? || a.FindUniqueOrThrow? || a.Update? || a.Delete? || a.Upsert?
  }

  function Filter(args: Args): Where {
    args.where_.GetOr(EVERYTHING)
  }

  /** What Prisma's own validation accepts: known columns, known arguments, a unique selector where one is needed. */
  predicate Accepted(s: Schema, q: Query) {
    && q.args.includeDeleted.None? && q.args.hardDelete.None?
    && Mentions(Filter(q.args), s.Columns())
    && (NeedsUnique(q.action) ==> SelectsOne(s, Filter(q.args)))
    && (q.action.Create? || q.action.Update? || q.action.UpdateMany? ==>
          q.args.data.Some? && q.args.data.value.Keys <= s.Columns())
    && (q.action.Upsert? ==>
          && q.args.create_.Some? && q.args.create_.value.Keys <= s.Columns()
          && q.args.update.Some? && q.args.update.value.Keys <= s.Columns())
  }

  function Commit(s: Schema, before: Table, after: Table, count: nat): (Table, Answer) {
    if UniqueOk(s, after.rows) then (after, Changed(count)) else (before, Failed(UniqueViolation))
  }

  function Insert(s: Schema, t: Table, data: Payload): (Table, Answer) {
    Commit(s, t, Table(t.rows[t.next := Write(s.blank, data)], t.next + 1), 1)
  }

  function Modify(s: Schema, t: Table, targets: Rows, data: Payload): (Table, Answer) {
    Commit(s, t, t.(rows := t.rows + Patch(targets, data)), |targets|)
  }

  /** `update`, `updateMany`: the single form fails when it reaches no row. */
  function Change(s: Schema, t: Table, one: bool, hits: Rows, data: Payload): (Table, Answer) {
    if one && hits == map[] then (t, Failed(RecordNotFound)) else Modify(s, t, hits, data)
  }

  function Remove(t: Table, one: bool, hits: Rows): (Table, Answer) {
    if one && hits == map[] then (t, Failed(RecordNotFound)) else (t.(rows := t.rows - hits.Keys), Changed(|hits|))
  }

  function Report(a: Action, hits: Rows): Answer {
    if (a.FindUniqueOrThrow? || a.FindFirstOrThrow?) && hits == map[] then Failed(RecordNotFound) else Found(hits)
  }

  /** The effect of a query on the full table, exactly as the database runs it. */
  function Exec(s: Schema, t: Table, q: Query): (Table, Answer) {
    if !Accepted(s, q) then (t, Failed(InvalidQuery))
    else
      var hits := Select(t.rows, Filter(q.args));
      match q.action
      case Create => Insert(s, t, q.args.data.value)
      case Update => Change(s, t, true, hits, q.args.data.value)
      case UpdateMany => Change(s, t, false, hits, q.args.data.value)
      case Delete => Remove(t, true, hits)
      case DeleteMany => Remove(t, false, hits)
      case Upsert =>
        if hits == map[] then Insert(s, t, q.args.create_.value) else Modify(s, t, hits, q.args.update.value)
      case _ => (t, Report(q.action, hits))
  }
}
