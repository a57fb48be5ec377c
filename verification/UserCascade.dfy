/** `cascadeSoftDelete`: one transaction that buries a user and everything the user owns, over five tables. */
module UserCascade {
  import opened Wrappers
  import opened Tables
  import opened SoftDeleteMiddleware
  import opened SoftDeleteRefinement
  import opened SoftDeleteRuns
  import opened SoftDeleteOperations

  const USER_ID := Named("userId")
  const POLICY_ID := Named("policyId")

  datatype Schemas = Schemas(users: Schema, notifications: Schema, settings: Schema, policies: Schema, claims: Schema)

  datatype Database = Database(users: Table, notifications: Table, settings: Table, policies: Table, claims: Table)

  ghost predicate DatabaseSound(s: Schemas, db: Database) {
    && Sound(s.users, db.users) && ID in s.users.unique
    && Sound(s.notifications, db.notifications) && USER_ID in s.notifications.Columns()
    && Sound(s.settings, db.settings) && USER_ID in s.settings.Columns()
    && Sound(s.policies, db.policies) && USER_ID in s.policies.Columns()
    && Sound(s.claims, db.claims) && POLICY_ID in s.claims.Columns()
  }

  /** The live rows whose `column` is one of `values`, stamped; every other row as it was. */
  function Bury(rows: Rows, column: Column, values: set<Value>, now: int): Rows {
    map i | i in rows ::
      if IsLive(rows[i]) && Cell(rows[i], column) in values then rows[i][DeletedAt := Num(now)] else rows[i]
  }

  /** The ids of a user's policies, live or dead: the relation filter is evaluated on the full table. */
  function PolicyIds(policies: Rows, user: Value): set<Value> {
    set i | i in policies && Cell(policies[i], USER_ID) == user :: Cell(policies[i], ID)
  }

  predicate HasLiveUser(db: Database, user: Value) {
    exists i | i in db.users.rows :: IsLive(db.users.rows[i]) && Cell(db.users.rows[i], ID) == user
  }

  /** The database after the transaction committed. */
  function Cascaded(db: Database, user: Value, now: int): Database {
    Database(
      db.users.(rows := StampedById(db.users.rows, user, now)),
      db.notifications.(rows := Bury(db.notifications.rows, USER_ID, {user}, now)),
      db.settings.(rows := Bury(db.settings.rows, USER_ID, {user}, now)),
      db.policies.(rows := Bury(db.policies.rows, USER_ID, {user}, now)),
      db.claims.(rows := Bury(db.claims.rows, POLICY_ID, PolicyIds(db.policies.rows, user) - {Null}, now)))
  }

  /** A filter on one column as the set of values it accepts. */
  ghost predicate Accepts(c: Condition, values: set<Value>) {
    forall x :: Holds(c, x) <==> x in values
  }

  lemma AcceptsOne(v: Value)
    ensures Accepts([Equals(v)], {v})
  {
    var c: Condition := [Equals(v)];
    assert forall x :: Holds(c, x) <==> Passes(c[0], x);
  }

  lemma AcceptsSome(values: set<Value>)
    ensures Accepts([OneOf(values)], values - {Null})
  {
    var c: Condition := [OneOf(values)];
    assert forall x :: Holds(c, x) <==> Passes(c[0], x);
  }

  lemma HavingAsked(s: Schema, column: Column, c: Condition, v: Value)
    requires s.Valid() && column in s.Columns() && column != DeletedAt
    ensures Asked(Having(column, c), v) == Having(column, c)
    ensures WellPosed(s, UpdateMany, Asked(Having(column, c), v))
  {
    assert WithoutField(Having(column, c), DeletedAt) == Having(column, c);
  }

  lemma BuryReached(rows: Rows, next: nat, column: Column, c: Condition, values: set<Value>, at: int)
    requires column != DeletedAt && Accepts(c, values)
    ensures Mark(rows, Reached(Table(rows, next), Having(column, c), Num(at)).Keys, Num(at)) == Bury(rows, column, values, at)
  {
    hide Matches, Accepts, Holds;
    var w := Having(column, c);
    assert WithoutField(w, DeletedAt) == w;
    var hits := Reached(Table(rows, next), w, Num(at));
    forall i | i in rows
      ensures i in hits <==> IsLive(rows[i]) && Cell(rows[i], column) in values
    {
      HavingMatches(column, c, rows[i]);
      AcceptsMeans(c, values, Cell(rows[i], column));
    }
  }

  lemma AcceptsMeans(c: Condition, values: set<Value>, x: Value)
    requires Accepts(c, values)
    ensures Holds(c, x) <==> x in values
  {
  }

  lemma BuryStep(s: Schema, t: Table, model: Model, column: Column, c: Condition, values: set<Value>, at: int, now: int)
    requires Sound(s, t) && Tracked(model) && column in s.Columns() && column != DeletedAt && Accepts(c, values)
    ensures Step(s, t, Call(MarkQuery(model, false, Having(column, c), Num(at)), now)).0
      == t.(rows := Bury(t.rows, column, values, at))
  {
    hide Step, Sound, Accepts, WellPosed, Reached, Mark, Bury;
    assert s.Valid() by { SoundIsValid(s, t); }
    HavingAsked(s, column, c, Num(at));
    MarkStep(s, t, model, false, Having(column, c), Num(at), now);
    BuryReached(t.rows, t.next, column, c, values, at);
  }

  lemma SoundIsValid(s: Schema, t: Table)
    requires Sound(s, t)
    ensures s.Valid()
  {
  }

  lemma BuryKeepsOwners(policies: Rows, user: Value, now: int)
    ensures PolicyIds(Bury(policies, USER_ID, {user}, now), user) == PolicyIds(policies, user)
  {
    var after := Bury(policies, USER_ID, {user}, now);
    assert forall i | i in policies :: Cell(after[i], USER_ID) == Cell(policies[i], USER_ID) && Cell(after[i], ID) == Cell(policies[i], ID);
  }

  class UserRepository {
    const schemas: Schemas
    var db: Database

    ghost predicate Valid()
      reads this
    {
      DatabaseSound(schemas, db)
    }

    constructor (schemas: Schemas, db: Database)
      requires DatabaseSound(schemas, db)
      ensures Valid() && this.schemas == schemas && this.db == db
    {
      this.schemas, this.db := schemas, db;
    }

    /** Five statements in order; when the first finds no live user the transaction rolls back. */
    method CascadeSoftDelete(user: Value, deletedAt: int, now: int) returns (committed: bool)
      requires Valid() && user != Null
      modifies this
      ensures committed <==> HasLiveUser(old(db), user)
      ensures committed ==> db == Cascaded(old(db), user, deletedAt)
      ensures !committed ==> db == old(db)
    {
      hide Exec, Rewrite, UniqueOk, Matches, Mentions, SelectsOne;
      StampAtStep(schemas.users, db.users, User, user, deletedAt, now);
      var (users, found) := Step(schemas.users, db.users, Call(MarkQuery(User, true, ById(user), Num(deletedAt)), now));
      if found == Failed(RecordNotFound) {
        return false;
      }
      var owned: Condition := [Equals(user)];
      AcceptsOne(user);
      BuryStep(schemas.notifications, db.notifications, Notification, USER_ID, owned, {user}, deletedAt, now);
      var (notifications, _) := Step(schemas.notifications, db.notifications,
                                     Call(MarkQuery(Notification, false, Having(USER_ID, owned), Num(deletedAt)), now));
      BuryStep(schemas.settings, db.settings, NotificationSetting, USER_ID, owned, {user}, deletedAt, now);
      var (settings, _) := Step(schemas.settings, db.settings,
                                Call(MarkQuery(NotificationSetting, false, Having(USER_ID, owned), Num(deletedAt)), now));
      BuryStep(schemas.policies, db.policies, InsurancePolicy, USER_ID, owned, {user}, deletedAt, now);
      var (policies, _) := Step(schemas.policies, db.policies,
                                Call(MarkQuery(InsurancePolicy, false, Having(USER_ID, owned), Num(deletedAt)), now));
      BuryKeepsOwners(db.policies.rows, user, deletedAt);
      var ofUser: Condition := [OneOf(PolicyIds(policies.rows, user))];
      AcceptsSome(PolicyIds(policies.rows, user));
      BuryStep(schemas.claims, db.claims, Claim, POLICY_ID, ofUser, PolicyIds(policies.rows, user) - {Null}, deletedAt, now);
      var (claims, _) := Step(schemas.claims, db.claims,
                              Call(MarkQuery(Claim, false, Having(POLICY_ID, ofUser), Num(deletedAt)), now));
      db := Database(users, notifications, settings, policies, claims);
      committed := true;
    }
  }

  /** The stamping update on a single id, with the timestamp given by the caller. */
  lemma StampAtStep(s: Schema, t: Table, model: Model, id: Value, at: int, now: int)
    requires Sound(s, t) && Tracked(model) && ID in s.unique && id != Null
    ensures Step(s, t, Call(MarkQuery(model, true, ById(id), Num(at)), now)).0 == t.(rows := StampedById(t.rows, id, at))
    ensures Step(s, t, Call(MarkQuery(model, true, ById(id), Num(at)), now)).1 == Failed(RecordNotFound) <==>
      !exists i | i in t.rows :: IsLive(t.rows[i]) && Cell(t.rows[i], ID) == id
  {
    hide Exec;
    StampStep(s, t, model, id, at);
    assert Rewrite(true, MarkQuery(model, true, ById(id), Num(at)), now) == Rewrite(true, MarkQuery(model, true, ById(id), Num(at)), at);
  }

  /** Everything the user owns is dead afterwards, claims under policies that were already dead included. */
  lemma CascadeBuriesAll(db: Database, user: Value, now: int)
    requires user != Null
    ensures var after := Cascaded(db, user, now);
      && !HasLiveUser(after, user)
      && (forall i | i in after.notifications.rows && IsLive(after.notifications.rows[i]) :: Cell(db.notifications.rows[i], USER_ID) != user)
      && (forall i | i in after.settings.rows && IsLive(after.settings.rows[i]) :: Cell(db.settings.rows[i], USER_ID) != user)
      && (forall i | i in after.policies.rows && IsLive(after.policies.rows[i]) :: Cell(db.policies.rows[i], USER_ID) != user)
      && (forall i, p | i in after.claims.rows && IsLive(after.claims.rows[i]) && p in db.policies.rows ::
            Cell(db.policies.rows[p], USER_ID) == user && Cell(db.policies.rows[p], ID) != Null ==>
            Cell(db.claims.rows[i], POLICY_ID) != Cell(db.policies.rows[p], ID))
  {
    var after := Cascaded(db, user, now);
    forall i, p | i in after.claims.rows && IsLive(after.claims.rows[i]) && p in db.policies.rows
      && Cell(db.policies.rows[p], USER_ID) == user && Cell(db.policies.rows[p], ID) != Null
      ensures Cell(db.claims.rows[i], POLICY_ID) != Cell(db.policies.rows[p], ID)
    {
      assert Cell(db.policies.rows[p], ID) in PolicyIds(db.policies.rows, user) - {Null};
      assert after.claims.rows[i] != db.claims.rows[i][DeletedAt := Num(now)];
    }
  }

  /** Row `i` was live and is now dead at the given time, its other columns kept. */
  predicate StampedAt(before: Rows, after: Rows, i: nat, at: int)
    requires i in before
  {
    i in after && after[i] == before[i][DeletedAt := Num(at)]
  }

  /** Every live row the user owns gets exactly the given time. */
  lemma CascadeStamps(db: Database, user: Value, at: int, i: nat, p: nat)
    ensures var after := Cascaded(db, user, at);
      && (i in db.users.rows && IsLive(db.users.rows[i]) && Cell(db.users.rows[i], ID) == user ==>
            StampedAt(db.users.rows, after.users.rows, i, at))
      && (i in db.notifications.rows && IsLive(db.notifications.rows[i]) && Cell(db.notifications.rows[i], USER_ID) == user ==>
            StampedAt(db.notifications.rows, after.notifications.rows, i, at))
      && (i in db.settings.rows && IsLive(db.settings.rows[i]) && Cell(db.settings.rows[i], USER_ID) == user ==>
            StampedAt(db.settings.rows, after.settings.rows, i, at))
      && (i in db.policies.rows && IsLive(db.policies.rows[i]) && Cell(db.policies.rows[i], USER_ID) == user ==>
            StampedAt(db.policies.rows, after.policies.rows, i, at))
    ensures
      (&& i in db.claims.rows && IsLive(db.claims.rows[i]) && p in db.policies.rows
       && Cell(db.policies.rows[p], USER_ID) == user && Cell(db.policies.rows[p], ID) != Null
       && Cell(db.claims.rows[i], POLICY_ID) == Cell(db.policies.rows[p], ID))
      ==> StampedAt(db.claims.rows, Cascaded(db, user, at).claims.rows, i, at)
  {
    if p in db.policies.rows && Cell(db.policies.rows[p], USER_ID) == user {
      assert Cell(db.policies.rows[p], ID) in PolicyIds(db.policies.rows, user);
    }
  }

  /** The two tables hold the same rows, and only live rows whose column is one of the values differ. */
  predicate Spares(before: Table, after: Table, column: Column, values: set<Value>) {
    && after.next == before.next && after.rows.Keys == before.rows.Keys
    && forall i | i in before.rows && (!IsLive(before.rows[i]) || Cell(before.rows[i], column) !in values) :: after.rows[i] == before.rows[i]
  }

  lemma BurySpares(t: Table, column: Column, values: set<Value>, now: int)
    ensures Spares(t, t.(rows := Bury(t.rows, column, values, now)), column, values)
  {
  }

  /**
    Nothing else changes in any of the five tables: no row is lost, rows dead before keep every column, their timestamp
    included, and rows of other users, or under other users' policies, are untouched.
  */
  lemma CascadeSparesOthers(db: Database, user: Value, now: int)
    ensures var after := Cascaded(db, user, now);
      && Spares(db.users, after.users, ID, {user})
      && Spares(db.notifications, after.notifications, USER_ID, {user})
      && Spares(db.settings, after.settings, USER_ID, {user})
      && Spares(db.policies, after.policies, USER_ID, {user})
      && Spares(db.claims, after.claims, POLICY_ID, PolicyIds(db.policies.rows, user))
  {
    hide PolicyIds;
    BurySpares(db.notifications, USER_ID, {user}, now);
    BurySpares(db.settings, USER_ID, {user}, now);
    BurySpares(db.policies, USER_ID, {user}, now);
    BurySpares(db.claims, POLICY_ID, PolicyIds(db.policies.rows, user) - {Null}, now);
  }
}
