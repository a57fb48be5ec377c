/**
  The Prisma middleware: it rewrites a query before the database sees it.
  `Rewrite` says what is forwarded; `Handle` mutates the parameters step by step and is proved to forward exactly that.
*/
module SoftDeleteMiddleware {
  import opened Wrappers
  import opened Tables

  /** The models in the soft-delete list: every model of the schema. */
  predicate Tracked(m: Model) {
    !m.Unlisted?
  }

  const IS_NULL: Condition := [Equals(Null)]
  const YES: Condition := [Equals(Bool(true))]

  predicate HasFlag(args: Args, flag: Column, topLevel: Option<Value>) {
    || (args.where_.Some? && flag in args.where_.value.fields && args.where_.value.fields[flag] == YES)
    || topLevel == Some(Bool(true))
  }

  predicate ShouldIncludeDeleted(args: Args) {
    HasFlag(args, IncludeDeletedFlag, args.includeDeleted)
  }

  predicate ShouldHardDelete(args: Args) {
    HasFlag(args, HardDeleteFlag, args.hardDelete)
  }

  /** A restore is recognised by an explicit null in the payload. */
  predicate IsRestore(data: Option<Payload>) {
    data.Some? && DeletedAt in data.value && data.value[DeletedAt] == Set(Null)
  }

  function OnlyLive(where_: Option<Where>): Option<Where> {
    Some(WithField(where_.GetOr(EVERYTHING), DeletedAt, IS_NULL))
  }

  function WithoutFlag(where_: Option<Where>, flag: Column): Option<Where> {
    match where_
    case None => None
    case Some(w) => Some(WithoutField(w, flag))
  }

  function StartLive(payload: Option<Payload>): Option<Payload> {
    match payload
    case None => None
    case Some(p) => Some(if DeletedAt in p then p else p[DeletedAt := Set(Null)])
  }

  /** The query the middleware forwards to the database at time `now`. */
  function Rewrite(excludeDeleted: bool, q: Query, now: int): Query {
    var args := q.args;
    if !Tracked(q.model) then q
    else if IsRead(q.action) then
      var scoped := if excludeDeleted && !ShouldIncludeDeleted(args) then OnlyLive(args.where_) else args.where_;
      q.(args := args.(where_ := WithoutFlag(scoped, IncludeDeletedFlag), includeDeleted := None))
    else match q.action
      case Update => q.(args := args.(where_ := if excludeDeleted && !IsRestore(args.data) then OnlyLive(args.where_) else args.where_))
      case UpdateMany => q.(args := args.(where_ := if excludeDeleted && !IsRestore(args.data) then OnlyLive(args.where_) else args.where_))
      case Delete =>
        if ShouldHardDelete(args) then q.(args := args.(where_ := WithoutFlag(args.where_, HardDeleteFlag), hardDelete := None))
        else Query(q.model, Update, Stamp(args, now))
      case DeleteMany =>
        if ShouldHardDelete(args) then q.(args := args.(where_ := WithoutFlag(args.where_, HardDeleteFlag), hardDelete := None))
        else Query(q.model, UpdateMany, Stamp(args, now))
      case Upsert => q.(args := args.(create_ := StartLive(args.create_), update := StartLive(args.update)))
      case _ => q
  }

  /** The arguments of the UPDATE a delete is converted into. */
  function Stamp(args: Args, now: int): Args {
    NO_ARGS.(where_ := OnlyLive(WithoutFlag(args.where_, HardDeleteFlag)), data := Some(map[DeletedAt := Set(Num(now))]))
  }

  /** The mutable parameter object Prisma hands to a middleware. */
  class MiddlewareParams {
    const model: Model
    const action: Action
    var args: Option<Args>

    constructor (model: Model, action: Action, args: Option<Args>)
      ensures this.model == model && this.action == action && this.args == args
    {
      this.model, this.action, this.args := model, action, args;
    }

    /** The query these parameters stand for; missing arguments count as an empty object. */
    function View(): Query
      reads this
    {
      Query(model, action, args.GetOr(NO_ARGS))
    }
  }

  method GetMiddlewareArgs(params: MiddlewareParams) returns (args: Args)
    modifies params
    ensures params.args == Some(args) && params.View() == old(params.View())
  {
    if params.args.None? {
      params.args := Some(NO_ARGS);
    }
    args := params.args.value;
  }

  method RemoveHardDeleteFlags(args: Args) returns (stripped: Args)
    ensures stripped == args.(where_ := WithoutFlag(args.where_, HardDeleteFlag), hardDelete := None)
  {
    stripped := args;
    if stripped.where_.Some? && HardDeleteFlag in stripped.where_.value.fields {
      stripped := stripped.(where_ := Some(WithoutField(stripped.where_.value, HardDeleteFlag)));
    }
    if stripped.hardDelete.Some? {
      stripped := stripped.(hardDelete := None);
    }
    assert args.where_.Some? ==> WithoutField(args.where_.value, HardDeleteFlag).fields == stripped.where_.value.fields;
  }

  method RemoveIncludeDeletedFlags(args: Args) returns (stripped: Args)
    ensures stripped == args.(where_ := WithoutFlag(args.where_, IncludeDeletedFlag), includeDeleted := None)
  {
    stripped := args;
    if stripped.where_.Some? && IncludeDeletedFlag in stripped.where_.value.fields {
      stripped := stripped.(where_ := Some(WithoutField(stripped.where_.value, IncludeDeletedFlag)));
    }
    if stripped.includeDeleted.Some? {
      stripped := stripped.(includeDeleted := None);
    }
    assert args.where_.Some? ==> WithoutField(args.where_.value, IncludeDeletedFlag).fields == stripped.where_.value.fields;
  }

  /** The handler itself: rewrites the parameters in place and returns the query passed to `next`. */
  method Handle(params: MiddlewareParams, excludeDeleted: bool, now: int) returns (forwarded: Query)
    modifies params
    ensures forwarded == Rewrite(excludeDeleted, old(params.View()), now)
  {
    var args := GetMiddlewareArgs(params);
    if !Tracked(params.model) {
      return params.View();
    }

    if IsRead(params.action) {
      var includeDeleted := ShouldIncludeDeleted(args);
      if excludeDeleted && !includeDeleted {
        args := args.(where_ := OnlyLive(args.where_));
      }
      args := RemoveIncludeDeletedFlags(args);
      params.args := Some(args);
      return params.View();
    }

    if params.action.Update? || params.action.UpdateMany? {
      var isRestore := IsRestore(args.data);
      if excludeDeleted && !isRestore {
        args := args.(where_ := OnlyLive(args.where_));
      }
      params.args := Some(args);
      return params.View();
    }

    if params.action.Delete? || params.action.DeleteMany? {
      var hard := ShouldHardDelete(args);
      args := RemoveHardDeleteFlags(args);
      params.args := Some(args);
      if hard {
        return params.View();
      }
      var softDeleteArgs := NO_ARGS.(where_ := OnlyLive(args.where_), data := Some(map[DeletedAt := Set(Num(now))]));
      return Query(params.model, if params.action.Delete? then Update else UpdateMany, softDeleteArgs);
    }

    if params.action.Upsert? {
      if args.create_.Some? && DeletedAt !in args.create_.value {
        args := args.(create_ := Some(args.create_.value[DeletedAt := Set(Null)]));
      }
      if args.update.Some? && DeletedAt !in args.update.value {
        args := args.(update := Some(args.update.value[DeletedAt := Set(Null)]));
      }
      params.args := Some(args);
      return params.View();
    }

    return params.View();
  }
}
