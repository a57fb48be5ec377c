/** What every serial run of login, refresh and logout keeps true of the token table. */
module TokenFamilies {
  import opened Wrappers
  import opened RefreshTokens

  datatype Operation =
    | Login(user: nat, family: nat, raw: string, fingerprint: Option<string>, now: int)
    | Refresh(presented: string, raw: string, fingerprint: Option<string>, now: int, userKnown: bool)
    | Logout(user: nat, specific: Option<string>, now: int)

  function Perform(h: Hash, cfg: Config, ts: Tokens, op: Operation): Tokens {
    match op
    case Login(user, family, raw, fingerprint, now) => LoggedIn(h, cfg, ts, user, family, raw, fingerprint, now).0
    case Refresh(presented, raw, fingerprint, now, userKnown) =>
      Refreshed(h, cfg, ts, presented, raw, fingerprint, now, userKnown).0
    case Logout(user, specific, now) => LoggedOut(ts, user, specific, now).0
  }

  function Run(h: Hash, cfg: Config, ts: Tokens, ops: seq<Operation>): Tokens
    decreases |ops|
  {
    if ops == [] then ts else Run(h, cfg, Perform(h, cfg, ts, ops[0]), ops[1..])
  }

  predicate FamilyInUse(ts: Tokens, family: nat) {
    exists i | 0 <= i < |ts| :: ts[i].family == family
  }

  /** Family ids are random: a login never draws one already in use. */
  predicate FreshFamilies(h: Hash, cfg: Config, ts: Tokens, ops: seq<Operation>)
    decreases |ops|
  {
    ops == [] ||
    ((ops[0].Login? ==> !FamilyInUse(ts, ops[0].family)) && FreshFamilies(h, cfg, Perform(h, cfg, ts, ops[0]), ops[1..]))
  }

  /* ---- the invariant ---- */

  /** `j` is the next row of `i`'s family after `i`. */
  predicate Successor(ts: Tokens, i: nat, j: nat)
    requires i < |ts| && j < |ts|
  {
    i < j && ts[i].family == ts[j].family && forall k | i < k < j :: ts[k].family != ts[i].family
  }

  /** Each family belongs to one user. */
  predicate OneOwner(ts: Tokens) {
    forall i, j | 0 <= i < |ts| && 0 <= j < |ts| && ts[i].family == ts[j].family :: ts[i].user == ts[j].user
  }

  /** A row with a later row in its family is revoked. */
  predicate OnlyLastUnrevoked(ts: Tokens) {
    forall i, j | 0 <= i < j < |ts| && ts[i].family == ts[j].family :: !Unrevoked(ts[i])
  }

  /** Each row points to the next one of its family through the hash of `replacedBy`: the rotation chain has no gaps. */
  predicate Chained(h: Hash, ts: Tokens) {
    forall i, j | 0 <= i < |ts| && 0 <= j < |ts| && Successor(ts, i, j) ::
      ts[i].replacedBy.Some? && h(ts[i].replacedBy.value) == ts[j].token
  }

  /** An unrevoked row has no successor recorded. */
  predicate OpenEnded(ts: Tokens) {
    forall i | 0 <= i < |ts| && Unrevoked(ts[i]) :: ts[i].replacedBy.None?
  }

  predicate Sound(h: Hash, ts: Tokens) {
    DistinctTokens(ts) && OneOwner(ts) && OnlyLastUnrevoked(ts) && Chained(h, ts) && OpenEnded(ts)
  }

  /** `us` is `ts` with some unrevoked rows revoked without a successor, and nothing else changed. */
  predicate Tightened(ts: Tokens, us: Tokens) {
    && |us| == |ts|
    && forall i | 0 <= i < |ts| ::
      us[i] == ts[i] || (Unrevoked(ts[i]) && !Unrevoked(us[i]) && us[i] == ts[i].(revokedAt := us[i].revokedAt))
  }

  lemma TightenedSound(h: Hash, ts: Tokens, us: Tokens)
    requires Sound(h, ts) && Tightened(ts, us)
    ensures Sound(h, us)
  {
    assert forall i | 0 <= i < |ts| :: us[i].family == ts[i].family && us[i].token == ts[i].token && us[i].user == ts[i].user;
    assert forall i | 0 <= i < |ts| :: us[i].replacedBy == ts[i].replacedBy;
    assert forall i | 0 <= i < |ts| && !Unrevoked(ts[i]) :: us[i] == ts[i];
    forall i, j | 0 <= i < |us| && 0 <= j < |us| && Successor(us, i, j)
      ensures us[i].replacedBy.Some? && h(us[i].replacedBy.value) == us[j].token
    {
      assert Successor(ts, i, j);
    }
  }

  lemma EnforceTightens(ts: Tokens, cfg: Config, user: nat, now: int)
    requires OpenEnded(ts)
    ensures Tightened(ts, Enforce(ts, cfg, user, now))
  {
    var active := CountActive(ts, user, now);
    if active > cfg.maxSessions {
      EvictShape(ts, user, active - cfg.maxSessions, now);
    }
  }

  lemma LogoutTightens(ts: Tokens, user: nat, specific: Option<string>, now: int)
    requires DistinctTokens(ts) && OpenEnded(ts)
    ensures Tightened(ts, LoggedOut(ts, user, specific, now).0)
  {
    if Given(specific) {
      FindIsThere(ts, specific.value);
    }
  }

  /* ---- issuing a row ---- */

  lemma AppendFresh(h: Hash, ts: Tokens, row: Token)
    requires Sound(h, ts) && !Known(ts, row.token) && !FamilyInUse(ts, row.family)
    requires Unrevoked(row) && row.replacedBy.None?
    ensures Sound(h, ts + [row])
  {
    var us := ts + [row];
    assert forall i | 0 <= i < |ts| :: us[i] == ts[i] && ts[i].family != row.family;
    forall i, j | 0 <= i < |us| && 0 <= j < |us| && Successor(us, i, j)
      ensures us[i].replacedBy.Some? && h(us[i].replacedBy.value) == us[j].token
    {
      assert j < |ts| && Successor(ts, i, j);
    }
  }

  /** The table after a rotation's first two writes: the successor added and the presented row pointing to it. */
  function Succeeded(h: Hash, ts: Tokens, p: nat, row: Token, raw: string, now: int): Tokens
    requires p < |ts|
  {
    WithRevoked(ts + [row], ts[p].token, Some(raw), now)
  }

  lemma SucceededRows(h: Hash, ts: Tokens, p: nat, row: Token, raw: string, now: int)
    requires DistinctTokens(ts) && p < |ts| && !Known(ts, row.token)
    ensures Succeeded(h, ts, p, row, raw, now) == ts[p := Revoked(ts[p], now, Some(raw))] + [row]
  {
    var us := Succeeded(h, ts, p, row, raw, now);
    assert ts[p].token != row.token;
    forall i | 0 <= i < |ts|
      ensures us[i] == ts[p := Revoked(ts[p], now, Some(raw))][i]
    {
      assert i != p ==> ts[i].token != ts[p].token;
    }
  }

  lemma AppendSuccessor(h: Hash, ts: Tokens, p: nat, row: Token, raw: string, now: int)
    requires Sound(h, ts) && p < |ts| && Unrevoked(ts[p])
    requires row.token == h(raw) && !Known(ts, h(raw)) && row.family == ts[p].family && row.user == ts[p].user
    requires Unrevoked(row) && row.replacedBy.None?
    ensures Sound(h, Succeeded(h, ts, p, row, raw, now))
  {
    var us := Succeeded(h, ts, p, row, raw, now);
    SucceededRows(h, ts, p, row, raw, now);
    assert forall i | 0 <= i < |ts| && i != p :: us[i] == ts[i];
    assert us[p] == Revoked(ts[p], now, Some(raw)) && us[|ts|] == row;
    assert forall i | 0 <= i < |ts| :: us[i].token == ts[i].token && us[i].family == ts[i].family && us[i].user == ts[i].user;
    forall i, j | 0 <= i < |us| && 0 <= j < |us| && Successor(us, i, j)
      ensures us[i].replacedBy.Some? && h(us[i].replacedBy.value) == us[j].token
    {
      if j < |ts| {
        assert Successor(ts, i, j);
        assert i != p;
      } else {
        assert i == p;
      }
    }
  }

  lemma PerformSound(h: Hash, cfg: Config, ts: Tokens, op: Operation)
    requires Sound(h, ts) && (op.Login? ==> !FamilyInUse(ts, op.family))
    ensures Sound(h, Perform(h, cfg, ts, op))
  {
    match op
    case Login(user, family, raw, fingerprint, now) =>
      if !Known(ts, h(raw)) {
        var row := NewRow(h, cfg, user, family, raw, fingerprint, now);
        AppendFresh(h, ts, row);
        EnforceTightens(ts + [row], cfg, user, now);
        TightenedSound(h, ts + [row], Perform(h, cfg, ts, op));
      }
    case Refresh(presented, raw, fingerprint, now, userKnown) =>
      RefreshSound(h, cfg, ts, presented, raw, fingerprint, now, userKnown);
    case Logout(user, specific, now) =>
      LogoutTightens(ts, user, specific, now);
      TightenedSound(h, ts, Perform(h, cfg, ts, op));
  }

  lemma RefreshSound(h: Hash, cfg: Config, ts: Tokens, presented: string, raw: string, fingerprint: Option<string>, now: int, userKnown: bool)
    requires Sound(h, ts)
    ensures Sound(h, Refreshed(h, cfg, ts, presented, raw, fingerprint, now, userKnown).0)
  {
    hide Sound, Find, EvictOldest;
    FindIsThere(ts, presented);
    var (us, reply) := Refreshed(h, cfg, ts, presented, raw, fingerprint, now, userKnown);
    if reply == Refused(ReuseDetected) {
      assert Tightened(ts, us);
      TightenedSound(h, ts, us);
    } else if reply.Issued? {
      var p := Find(ts, presented).value;
      var row := NewRow(h, cfg, ts[p].user, ts[p].family, raw, if fingerprint.Some? then fingerprint else ts[p].fingerprint, now);
      AppendSuccessor(h, ts, p, row, raw, now);
      RotateTightens(h, cfg, ts, p, raw, fingerprint, now);
      TightenedSound(h, Succeeded(h, ts, p, row, raw, now), us);
    }
  }

  lemma RotateTightens(h: Hash, cfg: Config, ts: Tokens, p: nat, raw: string, fingerprint: Option<string>, now: int)
    requires p < |ts|
    requires var row := NewRow(h, cfg, ts[p].user, ts[p].family, raw, if fingerprint.Some? then fingerprint else ts[p].fingerprint, now);
      Sound(h, Succeeded(h, ts, p, row, raw, now))
    ensures var row := NewRow(h, cfg, ts[p].user, ts[p].family, raw, if fingerprint.Some? then fingerprint else ts[p].fingerprint, now);
      Tightened(Succeeded(h, ts, p, row, raw, now), Rotate(h, cfg, ts, p, raw, fingerprint, now))
  {
    var row := NewRow(h, cfg, ts[p].user, ts[p].family, raw, if fingerprint.Some? then fingerprint else ts[p].fingerprint, now);
    EnforceTightens(Succeeded(h, ts, p, row, raw, now), cfg, ts[p].user, now);
  }

  /**
    In every state of every serial run: tokens are distinct, each family has one owner, only the last row of a family can
    be unrevoked, and the rotation chain of every family is gap-free.
  */
  lemma {:induction false} RunSound(h: Hash, cfg: Config, ts: Tokens, ops: seq<Operation>)
    requires Sound(h, ts) && FreshFamilies(h, cfg, ts, ops)
    ensures Sound(h, Run(h, cfg, ts, ops))
    decreases |ops|
  {
    if ops != [] {
      PerformSound(h, cfg, ts, ops[0]);
      RunSound(h, cfg, Perform(h, cfg, ts, ops[0]), ops[1..]);
    }
  }

  /* ---- revocation is final ---- */

  /** Rows keep their identity, revoked rows every column; new rows come after. */
  predicate Extends(ts: Tokens, us: Tokens) {
    && |ts| <= |us|
    && forall i | 0 <= i < |ts| ::
      && us[i].token == ts[i].token && us[i].user == ts[i].user && us[i].family == ts[i].family && us[i].createdAt == ts[i].createdAt
      && (!Unrevoked(ts[i]) ==> us[i] == ts[i])
  }

  /** No row of `us` beyond `ts` is in the family, and none of the family is unrevoked. */
  predicate FamilyDead(ts: Tokens, us: Tokens, family: nat)
    requires |ts| <= |us|
  {
    && (forall i | |ts| <= i < |us| :: us[i].family != family)
    && (forall i | 0 <= i < |us| && us[i].family == family :: !Unrevoked(us[i]))
  }

  lemma LoginExtends(h: Hash, cfg: Config, ts: Tokens, row: Token, now: int)
    requires OpenEnded(ts) && row.replacedBy.None? && Unrevoked(row)
    ensures var us := Enforce(ts + [row], cfg, row.user, now);
      Extends(ts, us) && |us| == |ts| + 1 && us[|ts|].(revokedAt := None) == row
  {
    EnforceTightens(ts + [row], cfg, row.user, now);
    assert forall i | 0 <= i < |ts| :: (ts + [row])[i] == ts[i];
  }

  /** The row a rotation adds: the successor in the presented row's family, with its fingerprint hashed anew. */
  lemma RotationRow(h: Hash, cfg: Config, ts: Tokens, presented: string, raw: string, fingerprint: Option<string>, now: int, userKnown: bool, p: nat)
    requires Sound(h, ts) && p < |ts| && ts[p].token == presented
    requires Refreshed(h, cfg, ts, presented, raw, fingerprint, now, userKnown).1.Issued?
    ensures var us := Refreshed(h, cfg, ts, presented, raw, fingerprint, now, userKnown).0;
      && Extends(ts, us) && |us| == |ts| + 1 && Unrevoked(ts[p])
      && us[|ts|].(revokedAt := None) ==
        NewRow(h, cfg, ts[p].user, ts[p].family, raw, if fingerprint.Some? then fingerprint else ts[p].fingerprint, now)
  {
    FindIsThere(ts, presented);
    assert Find(ts, presented) == Some(p);
    var row := NewRow(h, cfg, ts[p].user, ts[p].family, raw, if fingerprint.Some? then fingerprint else ts[p].fingerprint, now);
    SucceededRows(h, ts, p, row, raw, now);
    AppendSuccessor(h, ts, p, row, raw, now);
    RotateTightens(h, cfg, ts, p, raw, fingerprint, now);
  }

  lemma RefreshExtends(h: Hash, cfg: Config, ts: Tokens, presented: string, raw: string, fingerprint: Option<string>, now: int, userKnown: bool)
    requires Sound(h, ts)
    ensures var us := Refreshed(h, cfg, ts, presented, raw, fingerprint, now, userKnown).0;
      && Extends(ts, us) && |us| <= |ts| + 1
      && (|us| > |ts| ==> exists p :: 0 <= p < |ts| && Unrevoked(ts[p]) && us[|ts|].family == ts[p].family)
  {
    FindIsThere(ts, presented);
    if Refreshed(h, cfg, ts, presented, raw, fingerprint, now, userKnown).1.Issued? {
      RotationRow(h, cfg, ts, presented, raw, fingerprint, now, userKnown, Find(ts, presented).value);
    }
  }

  /** What one operation adds: at most one row, whose family was opened by this login or had an unrevoked row. */
  lemma PerformExtends(h: Hash, cfg: Config, ts: Tokens, op: Operation)
    requires Sound(h, ts)
    ensures var us := Perform(h, cfg, ts, op);
      && Extends(ts, us) && |us| <= |ts| + 1
      && (|us| > |ts| ==> (op.Login? && us[|ts|].family == op.family)
                          || exists p :: 0 <= p < |ts| && Unrevoked(ts[p]) && us[|ts|].family == ts[p].family)
  {
    match op
    case Login(user, family, raw, fingerprint, now) =>
      if !Known(ts, h(raw)) {
        LoginExtends(h, cfg, ts, NewRow(h, cfg, user, family, raw, fingerprint, now), now);
      }
    case Refresh(presented, raw, fingerprint, now, userKnown) =>
      RefreshExtends(h, cfg, ts, presented, raw, fingerprint, now, userKnown);
    case Logout(user, specific, now) =>
      LogoutTightens(ts, user, specific, now);
  }

  /** Over any run, revocation is never undone and revoked rows are frozen. */
  lemma {:induction false} RevocationIsFinal(h: Hash, cfg: Config, ts: Tokens, ops: seq<Operation>)
    requires Sound(h, ts) && FreshFamilies(h, cfg, ts, ops)
    ensures Extends(ts, Run(h, cfg, ts, ops))
    decreases |ops|
  {
    if ops != [] {
      PerformSound(h, cfg, ts, ops[0]);
      PerformExtends(h, cfg, ts, ops[0]);
      RevocationIsFinal(h, cfg, Perform(h, cfg, ts, ops[0]), ops[1..]);
    }
  }

  lemma DeadFamilyStep(ts: Tokens, us: Tokens, family: nat)
    requires Extends(ts, us) && FamilyInUse(ts, family) && FamilyDead(ts, ts, family)
    requires forall i | |ts| <= i < |us| :: us[i].family != family
    ensures FamilyInUse(us, family) && FamilyDead(us, us, family) && FamilyDead(ts, us, family)
  {
    var i :| 0 <= i < |ts| && ts[i].family == family;
    assert us[i].family == family;
  }

  lemma DeadFamilyTrans(ts: Tokens, us: Tokens, vs: Tokens, family: nat)
    requires |ts| <= |us| && Extends(us, vs)
    requires FamilyDead(ts, us, family) && FamilyDead(us, vs, family)
    ensures FamilyDead(ts, vs, family)
  {
  }

  lemma NoNewRow(h: Hash, cfg: Config, ts: Tokens, op: Operation, family: nat)
    requires Sound(h, ts) && (op.Login? ==> !FamilyInUse(ts, op.family))
    requires FamilyInUse(ts, family) && FamilyDead(ts, ts, family)
    ensures var us := Perform(h, cfg, ts, op);
      |ts| <= |us| && Extends(ts, us) && forall i | |ts| <= i < |us| :: us[i].family != family
  {
    hide Perform, Sound;
    PerformExtends(h, cfg, ts, op);
  }

  /** A family that exists and has no unrevoked token never gets a token again, unrevoked or not. */
  lemma {:induction false} DeadFamilyStaysDead(h: Hash, cfg: Config, ts: Tokens, ops: seq<Operation>, family: nat)
    requires Sound(h, ts) && FreshFamilies(h, cfg, ts, ops)
    requires FamilyInUse(ts, family) && FamilyDead(ts, ts, family)
    ensures |ts| <= |Run(h, cfg, ts, ops)| && FamilyDead(ts, Run(h, cfg, ts, ops), family)
    decreases |ops|
  {
    hide Perform, Sound, FamilyInUse, Extends, FamilyDead;
    if ops != [] {
      var us := Perform(h, cfg, ts, ops[0]);
      PerformSound(h, cfg, ts, ops[0]);
      NoNewRow(h, cfg, ts, ops[0], family);
      DeadFamilyStep(ts, us, family);
      DeadFamilyStaysDead(h, cfg, us, ops[1..], family);
      RevocationIsFinal(h, cfg, us, ops[1..]);
      DeadFamilyTrans(ts, us, Run(h, cfg, us, ops[1..]), family);
    }
  }

  /* ---- which presented values are accepted ---- */

  /** A refresh succeeds exactly when the presented value itself is a stored hash whose row passes every check. */
  lemma RefreshAccepts(h: Hash, cfg: Config, ts: Tokens, presented: string, raw: string, fingerprint: Option<string>, now: int, userKnown: bool)
    requires DistinctTokens(ts)
    ensures Refreshed(h, cfg, ts, presented, raw, fingerprint, now, userKnown).1.Issued? <==>
      userKnown && !Known(ts, h(raw)) &&
      exists i :: 0 <= i < |ts| && ts[i].token == presented && ts[i].expiresAt >= now && Unrevoked(ts[i]) && !Mismatch(ts[i].fingerprint, fingerprint)
  {
    FindIsThere(ts, presented);
    if Find(ts, presented).Some? {
      var p := Find(ts, presented).value;
      forall i | 0 <= i < |ts| && ts[i].token == presented ensures i == p { }
    }
  }

  /** Presenting an unexpired token that was revoked is reuse, and nothing else is. */
  lemma ReuseIs(h: Hash, cfg: Config, ts: Tokens, presented: string, raw: string, fingerprint: Option<string>, now: int, userKnown: bool)
    requires DistinctTokens(ts)
    ensures Refreshed(h, cfg, ts, presented, raw, fingerprint, now, userKnown).1 == Refused(ReuseDetected) <==>
      exists i :: 0 <= i < |ts| && ts[i].token == presented && ts[i].expiresAt >= now && !Unrevoked(ts[i])
  {
    FindIsThere(ts, presented);
    if Find(ts, presented).Some? {
      var p := Find(ts, presented).value;
      forall i | 0 <= i < |ts| && ts[i].token == presented ensures i == p { }
    }
  }

  /** Reuse kills the whole family of the presented token and touches no other: with `DeadFamilyStaysDead`, for good. */
  lemma ReuseKillsFamily(h: Hash, cfg: Config, ts: Tokens, presented: string, raw: string, fingerprint: Option<string>, now: int, userKnown: bool, i: nat)
    requires DistinctTokens(ts) && i < |ts| && ts[i].token == presented
    requires Refreshed(h, cfg, ts, presented, raw, fingerprint, now, userKnown).1 == Refused(ReuseDetected)
    ensures var us := Refreshed(h, cfg, ts, presented, raw, fingerprint, now, userKnown).0;
      && |us| == |ts| && FamilyInUse(us, ts[i].family) && FamilyDead(us, us, ts[i].family)
      && forall k | 0 <= k < |ts| && ts[k].family != ts[i].family :: us[k] == ts[k]
  {
    FindIsThere(ts, presented);
    var us := Refreshed(h, cfg, ts, presented, raw, fingerprint, now, userKnown).0;
    assert us == WithFamilyRevoked(ts, ts[i].family, now);
    assert us[i].family == ts[i].family;
  }

  lemma {:induction false} NoneOpen(ts: Tokens, user: nat)
    requires forall i | 0 <= i < |ts| :: !Open(ts[i], user)
    ensures CountOpen(ts, user) == 0
  {
    if ts != [] { NoneOpen(ts[1..], user); }
  }

  /** A full logout leaves the user without unrevoked tokens and everybody else's rows as they were. */
  lemma LogoutClosesAll(ts: Tokens, user: nat, now: int)
    ensures var (us, revoked) := LoggedOut(ts, user, None, now);
      && revoked == CountOpen(ts, user) && CountOpen(us, user) == 0
      && |us| == |ts| && forall i | 0 <= i < |ts| && ts[i].user != user :: us[i] == ts[i]
  {
    NoneOpen(LoggedOut(ts, user, None, now).0, user);
  }

  /** A targeted logout revokes exactly the user's own unrevoked row with that token, if there is one. */
  lemma LogoutClosesOne(ts: Tokens, user: nat, value: string, now: int, i: nat)
    requires DistinctTokens(ts) && value != "" && i < |ts|
    ensures var (us, revoked) := LoggedOut(ts, user, Some(value), now);
      && |us| == |ts|
      && us[i] == (if ts[i].token == value && Open(ts[i], user) then Revoked(ts[i], now, None) else ts[i])
      && (revoked == 1 <==> exists k :: 0 <= k < |ts| && ts[k].token == value && Open(ts[k], user))
  {
    FindIsThere(ts, value);
  }

  lemma KnownAfter(h: Hash, cfg: Config, ts: Tokens, us: Tokens, raw: string, value: string)
    requires Extends(ts, us) && |us| == |ts| + 1 && us[|ts|].token == h(raw)
    ensures Known(us, value) <==> Known(ts, value) || value == h(raw)
  {
    if Known(ts, value) {
      var i :| 0 <= i < |ts| && ts[i].token == value;
      assert us[i].token == value;
    }
    if value == h(raw) { assert us[|ts|].token == value; }
  }

  /**
    The raw token a login hands out is found by a later lookup exactly when it equals its own hash or some stored hash:
    lookups compare the presented value with the stored hashes as it is.
  */
  lemma FreshTokenLookup(h: Hash, cfg: Config, ts: Tokens, user: nat, family: nat, raw: string, fingerprint: Option<string>, now: int)
    requires Sound(h, ts) && LoggedIn(h, cfg, ts, user, family, raw, fingerprint, now).1.Issued?
    ensures Find(LoggedIn(h, cfg, ts, user, family, raw, fingerprint, now).0, raw).Some? <==> h(raw) == raw || Known(ts, raw)
  {
    hide Enforce, Extends;
    var us := LoggedIn(h, cfg, ts, user, family, raw, fingerprint, now).0;
    LoginExtends(h, cfg, ts, NewRow(h, cfg, user, family, raw, fingerprint, now), now);
    KnownAfter(h, cfg, ts, us, raw, raw);
    FindIsThere(us, raw);
  }

  /** The same for the raw token a rotation hands out. */
  lemma RotatedTokenLookup(h: Hash, cfg: Config, ts: Tokens, presented: string, raw: string, fingerprint: Option<string>, now: int, userKnown: bool)
    requires Sound(h, ts) && Refreshed(h, cfg, ts, presented, raw, fingerprint, now, userKnown).1.Issued?
    ensures Find(Refreshed(h, cfg, ts, presented, raw, fingerprint, now, userKnown).0, raw).Some? <==> h(raw) == raw || Known(ts, raw)
  {
    hide Enforce, Extends, Sound, Refreshed;
    FindIsThere(ts, presented);
    IssuedWasFound(h, cfg, ts, presented, raw, fingerprint, now, userKnown);
    RotationRow(h, cfg, ts, presented, raw, fingerprint, now, userKnown, Find(ts, presented).value);
    var us := Refreshed(h, cfg, ts, presented, raw, fingerprint, now, userKnown).0;
    KnownAfter(h, cfg, ts, us, raw, raw);
    FindIsThere(us, raw);
  }

  lemma IssuedWasFound(h: Hash, cfg: Config, ts: Tokens, presented: string, raw: string, fingerprint: Option<string>, now: int, userKnown: bool)
    requires Refreshed(h, cfg, ts, presented, raw, fingerprint, now, userKnown).1.Issued?
    ensures Find(ts, presented).Some?
  {
  }

  /** So the token of a first login is refused as unknown on its first refresh, exactly when the hash changes it. */
  lemma FirstRefreshRefused(h: Hash, cfg: Config, user: nat, family: nat, raw: string, fingerprint: Option<string>, now: int,
                            next: string, presented: Option<string>, later: int, userKnown: bool)
    ensures var (ts, reply) := LoggedIn(h, cfg, [], user, family, raw, fingerprint, now);
      reply == Issued(raw) &&
      (Refreshed(h, cfg, ts, raw, next, presented, later, userKnown) == (ts, Refused(NotFound)) <==> h(raw) != raw)
  {
    hide Enforce;
    assert Sound(h, []);
    FreshTokenLookup(h, cfg, [], user, family, raw, fingerprint, now);
    var ts := LoggedIn(h, cfg, [], user, family, raw, fingerprint, now).0;
    FindIsThere(ts, raw);
  }

  /* ---- fingerprints ---- */

  /** The row a login issued, found by its stored hash. */
  lemma IssuedRowFound(h: Hash, cfg: Config, ts: Tokens, user: nat, family: nat, raw: string, fingerprint: Option<string>, now: int)
    requires Sound(h, ts) && LoggedIn(h, cfg, ts, user, family, raw, fingerprint, now).1.Issued?
    ensures var us := LoggedIn(h, cfg, ts, user, family, raw, fingerprint, now).0;
      && |us| == |ts| + 1 && Find(us, h(raw)) == Some(|ts|)
      && us[|ts|].(revokedAt := None) == NewRow(h, cfg, user, family, raw, fingerprint, now)
  {
    hide Enforce;
    LoginExtends(h, cfg, ts, NewRow(h, cfg, user, family, raw, fingerprint, now), now);
    var us := LoggedIn(h, cfg, ts, user, family, raw, fingerprint, now).0;
    FindIsThere(us, h(raw));
    assert us[|ts|].token == h(raw);
    forall i | 0 <= i < |ts| ensures us[i].token != h(raw) { assert us[i].token == ts[i].token; }
  }

  /**
    The fingerprint a login stores is a hash, the one a refresh presents is not: while the row is unexpired and unrevoked,
    refreshing it by its stored hash from the same client is refused as a mismatch exactly when the hash changes the
    fingerprint (an empty hash counts as none).
  */
  lemma SameFingerprintRefused(h: Hash, cfg: Config, ts: Tokens, user: nat, family: nat, raw: string, fingerprint: string, now: int,
                               next: string, later: int, userKnown: bool)
    requires Sound(h, ts) && LoggedIn(h, cfg, ts, user, family, raw, Some(fingerprint), now).1.Issued?
    requires fingerprint != "" && later <= now + cfg.ttl
    requires var us := LoggedIn(h, cfg, ts, user, family, raw, Some(fingerprint), now).0; |us| == |ts| + 1 && Unrevoked(us[|ts|])
    ensures var us := LoggedIn(h, cfg, ts, user, family, raw, Some(fingerprint), now).0;
      Refreshed(h, cfg, us, h(raw), next, Some(fingerprint), later, userKnown) == (us, Refused(FingerprintMismatch)) <==>
      h(fingerprint) != fingerprint && h(fingerprint) != ""
  {
    hide LoggedIn, Sound, Rotate;
    IssuedRowFound(h, cfg, ts, user, family, raw, Some(fingerprint), now);
  }

  /** A rotation without a fingerprint hashes the carried hash once more. */
  lemma RotationRehashes(h: Hash, cfg: Config, ts: Tokens, presented: string, raw: string, now: int, userKnown: bool, p: nat)
    requires Sound(h, ts) && p < |ts| && ts[p].token == presented
    requires Refreshed(h, cfg, ts, presented, raw, None, now, userKnown).1.Issued?
    ensures var us := Refreshed(h, cfg, ts, presented, raw, None, now, userKnown).0;
      |us| == |ts| + 1 &&
      us[|ts|].fingerprint == if Given(ts[p].fingerprint) then Some(h(ts[p].fingerprint.value)) else None
  {
    hide Sound, Refreshed;
    RotationRow(h, cfg, ts, presented, raw, None, now, userKnown, p);
  }

  /** So a login with a fingerprint followed by a rotation without one leaves the hash of its hash. */
  lemma TwiceHashedFingerprint(h: Hash, cfg: Config, ts: Tokens, user: nat, family: nat, raw: string, fingerprint: string, now: int,
                               next: string, later: int)
    requires Sound(h, ts) && !FamilyInUse(ts, family) && fingerprint != "" && h(fingerprint) != ""
    requires LoggedIn(h, cfg, ts, user, family, raw, Some(fingerprint), now).1.Issued?
    requires Refreshed(h, cfg, LoggedIn(h, cfg, ts, user, family, raw, Some(fingerprint), now).0, h(raw), next, None, later, true).1.Issued?
    ensures var us := LoggedIn(h, cfg, ts, user, family, raw, Some(fingerprint), now).0;
      var vs := Refreshed(h, cfg, us, h(raw), next, None, later, true).0;
      |vs| == |ts| + 2 && vs[|ts| + 1].fingerprint == Some(h(h(fingerprint)))
  {
    var us := LoggedIn(h, cfg, ts, user, family, raw, Some(fingerprint), now).0;
    assert us == Perform(h, cfg, ts, Login(user, family, raw, Some(fingerprint), now));
    hide LoggedIn, Sound, Refreshed;
    PerformSound(h, cfg, ts, Login(user, family, raw, Some(fingerprint), now));
    IssuedRowFound(h, cfg, ts, user, family, raw, Some(fingerprint), now);
    FindIsThere(us, h(raw));
    RotationRehashes(h, cfg, us, h(raw), next, later, true, |ts|);
  }

  /* ---- the session limit ---- */

  lemma {:induction false} EvictCount(ts: Tokens, user: nat, k: nat, now: int)
    ensures CountOpen(EvictOldest(ts, user, k, now), user) == if CountOpen(ts, user) > k then CountOpen(ts, user) - k else 0
  {
    if ts != [] {
      var rest := if k > 0 && Open(ts[0], user) then EvictOldest(ts[1..], user, k - 1, now) else EvictOldest(ts[1..], user, k, now);
      assert EvictOldest(ts, user, k, now)[1..] == rest;
      EvictCount(ts[1..], user, if k > 0 && Open(ts[0], user) then k - 1 else k, now);
    }
  }

  /** If a row is evicted, so is every older one of the user. */
  lemma {:induction false} EvictsOldestFirst(ts: Tokens, user: nat, k: nat, now: int, i: nat, j: nat)
    requires i < j < |ts| && Open(ts[i], user) && Open(ts[j], user)
    requires j < |EvictOldest(ts, user, k, now)| && !Open(EvictOldest(ts, user, k, now)[j], user)
    ensures !Open(EvictOldest(ts, user, k, now)[i], user)
  {
    var us := EvictOldest(ts, user, k, now);
    EvictShape(ts, user, k, now);
    if i > 0 {
      var k1 := if k > 0 && Open(ts[0], user) then k - 1 else k;
      EvictShape(ts[1..], user, k1, now);
      assert us[1..] == EvictOldest(ts[1..], user, k1, now);
      EvictsOldestFirst(ts[1..], user, k1, now, i - 1, j - 1);
    } else if k == 0 {
      EvictNothing(ts, user, now);
    }
  }

  lemma {:induction false} ActiveIsOpen(ts: Tokens, user: nat, now: int)
    ensures CountActive(ts, user, now) <= CountOpen(ts, user)
    ensures (forall i | 0 <= i < |ts| && Open(ts[i], user) :: ts[i].expiresAt > now) ==> CountActive(ts, user, now) == CountOpen(ts, user)
  {
    if ts != [] {
      ActiveIsOpen(ts[1..], user, now);
      if forall i | 0 <= i < |ts| && Open(ts[i], user) :: ts[i].expiresAt > now {
        forall i | 0 <= i < |ts[1..]| && Open(ts[1..][i], user) ensures ts[1..][i].expiresAt > now { assert ts[1..][i] == ts[i + 1]; }
      }
    }
  }

  /**
    When none of a user's unrevoked tokens is expired, enforcing the limit leaves exactly min(n, max) of them unrevoked,
    and every one that remains was created after every one evicted.
  */
  lemma LimitKeepsNewest(ts: Tokens, cfg: Config, user: nat, now: int)
    requires cfg.maxSessions >= 0
    requires forall i | 0 <= i < |ts| && Open(ts[i], user) :: ts[i].expiresAt > now
    requires forall i, j | 0 <= i < j < |ts| :: ts[i].createdAt < ts[j].createdAt
    ensures var us := Enforce(ts, cfg, user, now);
      && |us| == |ts|
      && CountOpen(us, user) == (if CountOpen(ts, user) < cfg.maxSessions then CountOpen(ts, user) else cfg.maxSessions)
      && (forall i, j | 0 <= i < |ts| && 0 <= j < |ts| && Open(ts[i], user) && !Open(us[i], user) && Open(us[j], user) ::
            ts[i].createdAt < ts[j].createdAt)
  {
    ActiveIsOpen(ts, user, now);
    var active := CountActive(ts, user, now);
    if active > cfg.maxSessions {
      var k := active - cfg.maxSessions;
      EvictCount(ts, user, k, now);
      EvictShape(ts, user, k, now);
      var us := EvictOldest(ts, user, k, now);
      forall i, j | 0 <= i < |ts| && 0 <= j < |ts| && Open(ts[i], user) && !Open(us[i], user) && Open(us[j], user)
        ensures ts[i].createdAt < ts[j].createdAt
      {
        if j < i { EvictsOldestFirst(ts, user, k, now, j, i); }
      }
    }
  }

  /** The `k` oldest unrevoked rows of the user are all unexpired. */
  predicate OldestUnexpired(ts: Tokens, user: nat, k: int, now: int) {
    forall i | 0 <= i < |ts| && Open(ts[i], user) && CountOpen(ts[..i], user) < k :: ts[i].expiresAt > now
  }

  lemma OldestUnexpiredTail(ts: Tokens, user: nat, k: int, now: int)
    requires ts != []
    ensures var k1 := if Open(ts[0], user) then k - 1 else k;
      OldestUnexpired(ts, user, k, now) <==> OldestUnexpired(ts[1..], user, k1, now) && (Open(ts[0], user) && k > 0 ==> ts[0].expiresAt > now)
  {
    var k1 := if Open(ts[0], user) then k - 1 else k;
    forall i | 0 <= i < |ts| - 1
      ensures ts[1..][i] == ts[i + 1] && CountOpen(ts[1..][..i], user) - k1 == CountOpen(ts[..i + 1], user) - k
    {
      assert ts[..i + 1][1..] == ts[1..][..i] && ts[..i + 1][0] == ts[0];
    }
    assert forall i | 1 <= i < |ts| :: ts[i] == ts[1..][i - 1];
    assert CountOpen(ts[..0], user) == 0;
    if OldestUnexpired(ts[1..], user, k1, now) && (Open(ts[0], user) && k > 0 ==> ts[0].expiresAt > now) {
      forall i | 0 <= i < |ts| && Open(ts[i], user) && CountOpen(ts[..i], user) < k
        ensures ts[i].expiresAt > now
      {
        if i > 0 { assert CountOpen(ts[1..][..i - 1], user) - k1 == CountOpen(ts[..i - 1 + 1], user) - k; }
      }
    }
  }

  /** Evicting `k` rows removes at most `k` active ones, and exactly `k` if and only if the `k` oldest are unexpired. */
  lemma {:induction false} EvictActive(ts: Tokens, user: nat, k: nat, now: int)
    requires k <= CountOpen(ts, user)
    ensures CountActive(EvictOldest(ts, user, k, now), user, now) >= CountActive(ts, user, now) - k
    ensures CountActive(EvictOldest(ts, user, k, now), user, now) == CountActive(ts, user, now) - k <==> OldestUnexpired(ts, user, k, now)
  {
    hide OldestUnexpired;
    if ts != [] {
      OldestUnexpiredTail(ts, user, k, now);
      var k1 := if k > 0 && Open(ts[0], user) then k - 1 else k;
      assert EvictOldest(ts, user, k, now)[1..] == EvictOldest(ts[1..], user, k1, now);
      if k == 0 {
        EvictNothing(ts, user, now);
        NothingOldest(ts, user, now);
      } else {
        EvictActive(ts[1..], user, k1, now);
      }
    } else {
      NothingOldest(ts, user, now);
    }
  }

  lemma NothingOldest(ts: Tokens, user: nat, now: int)
    ensures OldestUnexpired(ts, user, 0, now)
  {
  }

  /**
    After enforcing the limit the user has no more active sessions than allowed exactly when there was no excess or the
    evicted rows, the oldest unrevoked ones, are all unexpired: an expired row among them is evicted in vain.
  */
  lemma LimitEnforced(ts: Tokens, cfg: Config, user: nat, now: int)
    ensures var excess := CountActive(ts, user, now) - cfg.maxSessions;
      CountActive(Enforce(ts, cfg, user, now), user, now) <= cfg.maxSessions <==>
      excess <= 0 || (cfg.maxSessions >= 0 && OldestUnexpired(ts, user, excess, now))
  {
    hide OldestUnexpired;
    var excess := CountActive(ts, user, now) - cfg.maxSessions;
    if excess > 0 && cfg.maxSessions >= 0 {
      ActiveIsOpen(ts, user, now);
      EvictActive(ts, user, excess, now);
    }
  }

  lemma {:induction false} EvictSparesLast(ts: Tokens, user: nat, k: nat, now: int)
    requires ts != [] && Open(ts[|ts| - 1], user) && k < CountOpen(ts, user)
    ensures |EvictOldest(ts, user, k, now)| == |ts| && EvictOldest(ts, user, k, now)[|ts| - 1] == ts[|ts| - 1]
  {
    EvictShape(ts, user, k, now);
    if k == 0 {
      EvictNothing(ts, user, now);
    } else if |ts| > 1 {
      EvictSparesLast(ts[1..], user, if Open(ts[0], user) then k - 1 else k, now);
    }
  }

  lemma EnforceSparesLast(ts: Tokens, cfg: Config, user: nat, now: int)
    requires ts != [] && Open(ts[|ts| - 1], user) && cfg.maxSessions >= 1
    ensures |Enforce(ts, cfg, user, now)| == |ts| && Enforce(ts, cfg, user, now)[|ts| - 1] == ts[|ts| - 1]
  {
    ActiveIsOpen(ts, user, now);
    var active := CountActive(ts, user, now);
    if active > cfg.maxSessions {
      EvictSparesLast(ts, user, active - cfg.maxSessions, now);
    }
  }

  /** With room for at least one session, the token issued by a login or a rotation survives its own transaction, expired tokens or not. */
  lemma IssuedTokenSurvives(h: Hash, cfg: Config, ts: Tokens, op: Operation)
    requires Sound(h, ts) && cfg.maxSessions >= 1 && !op.Logout?
    requires |Perform(h, cfg, ts, op)| > |ts|
    ensures var us := Perform(h, cfg, ts, op);
      |us| == |ts| + 1 && Unrevoked(us[|ts|]) && us[|ts|].token == h(op.raw)
  {
    match op
    case Login(user, family, raw, fingerprint, now) =>
      EnforceSparesLast(ts + [NewRow(h, cfg, user, family, raw, fingerprint, now)], cfg, user, now);
    case Refresh(presented, raw, fingerprint, now, userKnown) =>
      FindIsThere(ts, presented);
      var p := Find(ts, presented).value;
      var row := NewRow(h, cfg, ts[p].user, ts[p].family, raw, if fingerprint.Some? then fingerprint else ts[p].fingerprint, now);
      SucceededRows(h, ts, p, row, raw, now);
      EnforceSparesLast(Succeeded(h, ts, p, row, raw, now), cfg, ts[p].user, now);
  }
}
