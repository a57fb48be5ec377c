/**
  What a whole login or rotation leaves in the token table: the row it issues, column by column, the replies it gives, and
  the user's sessions afterwards.
*/
module TokenSessions {
  import opened Wrappers
  import opened RefreshTokens
  import opened TokenFamilies

  /* ---- counting ---- */

  predicate OpenRow(t: Token, user: nat) {
    t.user == user && t.revokedAt == None
  }

  lemma {:induction false} CountOpenAppend(ts: Tokens, row: Token, user: nat)
    ensures CountOpen(ts + [row], user) == CountOpen(ts, user) + if OpenRow(row, user) then 1 else 0
  {
    if ts == [] {
      assert ts + [row] == [row];
    } else {
      assert (ts + [row])[1..] == ts[1..] + [row];
      CountOpenAppend(ts[1..], row, user);
    }
  }

  lemma {:induction false} CountActiveAppend(ts: Tokens, row: Token, user: nat, now: int)
    ensures CountActive(ts + [row], user, now) == CountActive(ts, user, now) + if OpenRow(row, user) && row.expiresAt > now then 1 else 0
  {
    if ts == [] {
      assert ts + [row] == [row];
    } else {
      assert (ts + [row])[1..] == ts[1..] + [row];
      CountActiveAppend(ts[1..], row, user, now);
    }
  }

  /** The positions of a user's unrevoked rows, and of those among them that are not expired. */
  function OpenAt(ts: Tokens, user: nat): set<int> {
    set i | 0 <= i < |ts| && OpenRow(ts[i], user)
  }

  function ActiveAt(ts: Tokens, user: nat, now: int): set<int> {
    set i | 0 <= i < |ts| && OpenRow(ts[i], user) && ts[i].expiresAt > now
  }

  lemma OpenAtAppend(ts: Tokens, row: Token, user: nat)
    ensures OpenAt(ts + [row], user) == OpenAt(ts, user) + if OpenRow(row, user) then {|ts|} else {}
  {
    hide OpenRow;
    assert forall i | 0 <= i < |ts| :: (ts + [row])[i] == ts[i];
  }

  lemma ActiveAtAppend(ts: Tokens, row: Token, user: nat, now: int)
    ensures ActiveAt(ts + [row], user, now) == ActiveAt(ts, user, now) + if OpenRow(row, user) && row.expiresAt > now then {|ts|} else {}
  {
    hide OpenRow;
    assert forall i | 0 <= i < |ts| :: (ts + [row])[i] == ts[i];
  }

  lemma NothingCounted(user: nat, now: int)
    ensures CountOpen([], user) == 0 && CountActive([], user, now) == 0
  {
  }

  /** The two counts are the sizes of these sets. */
  lemma {:induction false} CountsAre(ts: Tokens, user: nat, now: int)
    ensures CountOpen(ts, user) == |OpenAt(ts, user)|
    ensures CountActive(ts, user, now) == |ActiveAt(ts, user, now)|
  {
    hide OpenRow, CountOpen, CountActive;
    if ts == [] {
      NothingCounted(user, now);
      assert OpenAt(ts, user) == {} && ActiveAt(ts, user, now) == {};
    } else {
      var n := |ts| - 1;
      var front, row := ts[..n], ts[n];
      assert ts == front + [row];
      CountsAre(front, user, now);
      CountOpenAppend(front, row, user);
      CountActiveAppend(front, row, user, now);
      OpenAtAppend(front, row, user);
      ActiveAtAppend(front, row, user, now);
      assert n !in OpenAt(front, user) && n !in ActiveAt(front, user, now);
    }
  }

  lemma {:induction false} CountsRevoke(ts: Tokens, p: nat, row: Token, user: nat, now: int)
    requires p < |ts| && row.revokedAt.Some?
    ensures CountOpen(ts[p := row], user) == CountOpen(ts, user) - if OpenRow(ts[p], user) then 1 else 0
    ensures CountActive(ts[p := row], user, now) ==
      CountActive(ts, user, now) - if OpenRow(ts[p], user) && ts[p].expiresAt > now then 1 else 0
  {
    if p == 0 {
      assert ts[0 := row][1..] == ts[1..];
    } else {
      assert ts[p := row][1..] == ts[1..][p - 1 := row];
      CountsRevoke(ts[1..], p - 1, row, user, now);
    }
  }

  /* ---- the issued row ---- */

  /** A login is refused exactly when its token's hash is taken, and then changes nothing. */
  lemma LoginReplies(h: Hash, cfg: Config, ts: Tokens, user: nat, family: nat, raw: string, fingerprint: Option<string>, now: int)
    ensures var (us, reply) := LoggedIn(h, cfg, ts, user, family, raw, fingerprint, now);
      if exists i | 0 <= i < |ts| :: ts[i].token == h(raw) then us == ts && reply == Refused(Conflict) else reply == Issued(raw)
  {
  }

  /** The row a login adds; revoking it is all its own transaction may do to it. */
  lemma LoginRow(h: Hash, cfg: Config, ts: Tokens, user: nat, family: nat, raw: string, fingerprint: Option<string>, now: int)
    requires Sound(h, ts) && LoggedIn(h, cfg, ts, user, family, raw, fingerprint, now).1.Issued?
    ensures var us := LoggedIn(h, cfg, ts, user, family, raw, fingerprint, now).0;
      var hashed := if fingerprint.Some? && fingerprint.value != "" then Some(h(fingerprint.value)) else None;
      && |us| == |ts| + 1
      && us[|ts|].(revokedAt := None) == Token(h(raw), user, family, now + cfg.ttl, None, None, hashed, now)
  {
    hide Enforce, Sound;
    IssuedRowFound(h, cfg, ts, user, family, raw, fingerprint, now);
  }

  /** The row a rotation adds: the presented row's user and family, the given fingerprint or else the stored one, hashed. */
  lemma RotatedRow(h: Hash, cfg: Config, ts: Tokens, presented: string, raw: string, fingerprint: Option<string>, now: int, userKnown: bool, p: nat)
    requires Sound(h, ts) && p < |ts| && ts[p].token == presented
    requires Refreshed(h, cfg, ts, presented, raw, fingerprint, now, userKnown).1.Issued?
    ensures var us := Refreshed(h, cfg, ts, presented, raw, fingerprint, now, userKnown).0;
      var carried := if fingerprint.Some? then fingerprint else ts[p].fingerprint;
      var hashed := if carried.Some? && carried.value != "" then Some(h(carried.value)) else None;
      && |us| == |ts| + 1
      && us[|ts|].(revokedAt := None) == Token(h(raw), ts[p].user, ts[p].family, now + cfg.ttl, None, None, hashed, now)
  {
    hide Refreshed, Sound;
    RotationRow(h, cfg, ts, presented, raw, fingerprint, now, userKnown, p);
  }

  /** And the presented row is revoked, pointing to the raw successor. */
  lemma RotatedAway(h: Hash, cfg: Config, ts: Tokens, presented: string, raw: string, fingerprint: Option<string>, now: int, userKnown: bool, p: nat)
    requires Sound(h, ts) && p < |ts| && ts[p].token == presented
    requires Refreshed(h, cfg, ts, presented, raw, fingerprint, now, userKnown).1.Issued?
    ensures var us := Refreshed(h, cfg, ts, presented, raw, fingerprint, now, userKnown).0;
      |us| == |ts| + 1 && us[p] == ts[p].(revokedAt := Some(now), replacedBy := Some(raw))
  {
    FindIsThere(ts, presented);
    assert Find(ts, presented) == Some(p);
    var row := NewRow(h, cfg, ts[p].user, ts[p].family, raw, if fingerprint.Some? then fingerprint else ts[p].fingerprint, now);
    SucceededRows(h, ts, p, row, raw, now);
    AppendSuccessor(h, ts, p, row, raw, now);
    RotateTightens(h, cfg, ts, p, raw, fingerprint, now);
  }

  /** Every reply of a refresh, decided by the row holding the presented value, in the code's order. */
  lemma RefreshReplies(h: Hash, cfg: Config, ts: Tokens, presented: string, raw: string, fingerprint: Option<string>, now: int, userKnown: bool)
    requires DistinctTokens(ts)
    ensures var (us, reply) := Refreshed(h, cfg, ts, presented, raw, fingerprint, now, userKnown);
      && ((forall i | 0 <= i < |ts| :: ts[i].token != presented) ==> reply == Refused(NotFound))
      && (forall i | 0 <= i < |ts| && ts[i].token == presented ::
           var t := ts[i];
           reply ==
             if t.expiresAt < now then Refused(Expired)
             else if t.revokedAt != None then Refused(ReuseDetected)
             else if t.fingerprint.Some? && t.fingerprint.value != "" && fingerprint.Some? && fingerprint.value != "" && t.fingerprint != fingerprint
             then Refused(FingerprintMismatch)
             else if !userKnown then Refused(UnknownUser)
             else if exists k | 0 <= k < |ts| :: ts[k].token == h(raw) then Refused(Conflict)
             else Issued(raw))
      && (reply.Refused? && reply != Refused(ReuseDetected) ==> us == ts)
  {
    hide Rotate, WithFamilyRevoked;
    FindIsThere(ts, presented);
    if Find(ts, presented).Some? {
      var p := Find(ts, presented).value;
      forall i | 0 <= i < |ts| && ts[i].token == presented ensures i == p { }
    }
  }

  /* ---- the session limit over whole operations ---- */

  function Least(a: int, b: int): int {
    if a < b then a else b
  }

  predicate InOrder(ts: Tokens) {
    forall i, j | 0 <= i < j < |ts| :: ts[i].createdAt < ts[j].createdAt
  }

  /** Of the user's rows unrevoked before, those no longer unrevoked were created before all that still are. */
  predicate KeptNewest(before: Tokens, after: Tokens, user: nat)
    requires |before| <= |after|
  {
    forall i, j | 0 <= i < |before| && OpenRow(before[i], user) && !OpenRow(after[i], user) && 0 <= j < |after| && OpenRow(after[j], user) ::
      after[i].createdAt < after[j].createdAt
  }

  lemma OrderAppend(ts: Tokens, row: Token)
    requires InOrder(ts) && forall i | 0 <= i < |ts| :: ts[i].createdAt < row.createdAt
    ensures InOrder(ts + [row])
  {
  }

  /**
    A login of a user none of whose unrevoked tokens is expired leaves min(n + 1, max) of them unrevoked, and they are the
    newest.
  */
  lemma LoginKeepsNewest(h: Hash, cfg: Config, ts: Tokens, user: nat, family: nat, raw: string, fingerprint: Option<string>, now: int)
    requires Sound(h, ts) && LoggedIn(h, cfg, ts, user, family, raw, fingerprint, now).1.Issued?
    requires cfg.maxSessions >= 1 && cfg.ttl > 0
    requires InOrder(ts) && forall i | 0 <= i < |ts| :: ts[i].createdAt < now
    requires forall i | 0 <= i < |ts| && OpenRow(ts[i], user) :: ts[i].expiresAt > now
    ensures var us := LoggedIn(h, cfg, ts, user, family, raw, fingerprint, now).0;
      && |us| == |ts| + 1
      && |OpenAt(us, user)| == Least(|OpenAt(ts, user)| + 1, cfg.maxSessions)
      && KeptNewest(ts, us, user) && OpenRow(us[|ts|], user)
  {
    hide Enforce, OpenAt;
    var row := NewRow(h, cfg, user, family, raw, fingerprint, now);
    var issued := ts + [row];
    var us := LoggedIn(h, cfg, ts, user, family, raw, fingerprint, now).0;
    LoginExtends(h, cfg, ts, row, now);
    OrderAppend(ts, row);
    assert forall i | 0 <= i < |issued| && Open(issued[i], user) :: issued[i].expiresAt > now by {
      forall i | 0 <= i < |issued| && Open(issued[i], user) ensures issued[i].expiresAt > now { if i < |ts| { assert OpenRow(ts[i], user); } }
    }
    LimitKeepsNewest(issued, cfg, user, now);
    EnforceSparesLast(issued, cfg, user, now);
    CountOpenAppend(ts, row, user);
    CountsAre(ts, user, now);
    CountsAre(us, user, now);
    forall i, j | 0 <= i < |ts| && OpenRow(ts[i], user) && !OpenRow(us[i], user) && 0 <= j < |us| && OpenRow(us[j], user)
      ensures us[i].createdAt < us[j].createdAt
    {
      assert Open(issued[i], user) && !Open(us[i], user) && Open(us[j], user);
      SameTimes(ts, row, us, i, j);
    }
  }

  lemma SameTimes(ts: Tokens, row: Token, us: Tokens, i: nat, j: nat)
    requires TokenFamilies.Extends(ts, us) && |us| == |ts| + 1 && us[|ts|].(revokedAt := None) == row
    requires i <= |ts| && j <= |ts| && (ts + [row])[i].createdAt < (ts + [row])[j].createdAt
    ensures us[i].createdAt < us[j].createdAt
  {
  }

  /** How many sessions a login is over the limit, its own included, and when enforcement brings the user back within it. */
  lemma LoginEnforcesLimit(h: Hash, cfg: Config, ts: Tokens, user: nat, family: nat, raw: string, fingerprint: Option<string>, now: int)
    requires LoggedIn(h, cfg, ts, user, family, raw, fingerprint, now).1.Issued? && cfg.ttl > 0
    ensures var us := LoggedIn(h, cfg, ts, user, family, raw, fingerprint, now).0;
      var excess := |ActiveAt(ts, user, now)| + 1 - cfg.maxSessions;
      |ActiveAt(us, user, now)| <= cfg.maxSessions <==>
      excess <= 0 || (cfg.maxSessions >= 0 && OldestUnexpired(ts, user, excess, now))
  {
    hide Enforce, ActiveAt, OldestUnexpired;
    var row := NewRow(h, cfg, user, family, raw, fingerprint, now);
    var us := LoggedIn(h, cfg, ts, user, family, raw, fingerprint, now).0;
    LimitEnforced(ts + [row], cfg, user, now);
    CountActiveAppend(ts, row, user, now);
    CountsAre(ts, user, now);
    CountsAre(us, user, now);
    OldestAppend(ts, row, user, |ActiveAt(ts, user, now)| + 1 - cfg.maxSessions, now);
  }

  lemma OldestAppend(ts: Tokens, row: Token, user: nat, k: int, now: int)
    requires row.expiresAt > now
    ensures OldestUnexpired(ts + [row], user, k, now) <==> OldestUnexpired(ts, user, k, now)
  {
    var us := ts + [row];
    assert forall i | 0 <= i < |ts| :: us[i] == ts[i] && us[..i] == ts[..i];
  }

  /**
    A rotation of a user none of whose other unrevoked tokens is expired leaves min(n, max) unrevoked, where n counts the
    presented one, and they are the newest.
  */
  lemma RotationKeepsNewest(h: Hash, cfg: Config, ts: Tokens, presented: string, raw: string, fingerprint: Option<string>, now: int, userKnown: bool, p: nat)
    requires Sound(h, ts) && p < |ts| && ts[p].token == presented
    requires Refreshed(h, cfg, ts, presented, raw, fingerprint, now, userKnown).1.Issued?
    requires cfg.maxSessions >= 1 && cfg.ttl > 0
    requires InOrder(ts) && forall i | 0 <= i < |ts| :: ts[i].createdAt < now
    requires forall i | 0 <= i < |ts| && i != p && OpenRow(ts[i], ts[p].user) :: ts[i].expiresAt > now
    ensures var us := Refreshed(h, cfg, ts, presented, raw, fingerprint, now, userKnown).0;
      && |us| == |ts| + 1
      && |OpenAt(us, ts[p].user)| == Least(|OpenAt(ts, ts[p].user)|, cfg.maxSessions)
      && KeptNewest(ts[p := us[p]], us, ts[p].user) && OpenRow(us[|ts|], ts[p].user)
  {
    hide Enforce, OpenAt, Refreshed, Sound, NewRow;
    var user := ts[p].user;
    var us := Refreshed(h, cfg, ts, presented, raw, fingerprint, now, userKnown).0;
    var row := NewRow(h, cfg, user, ts[p].family, raw, if fingerprint.Some? then fingerprint else ts[p].fingerprint, now);
    var left := ts[p := Revoked(ts[p], now, Some(raw))];
    var issued := left + [row];
    RotationIs(h, cfg, ts, presented, raw, fingerprint, now, userKnown, p);
    RotationRow(h, cfg, ts, presented, raw, fingerprint, now, userKnown, p);
    RotatedAway(h, cfg, ts, presented, raw, fingerprint, now, userKnown, p);
    RowGiven(h, cfg, user, ts[p].family, raw, if fingerprint.Some? then fingerprint else ts[p].fingerprint, now);
    OrderAppend(left, row);
    forall i | 0 <= i < |issued| && Open(issued[i], user) ensures issued[i].expiresAt > now {
      if i < |ts| { assert i != p && OpenRow(ts[i], user); }
    }
    LimitKeepsNewest(issued, cfg, user, now);
    EnforceSparesLast(issued, cfg, user, now);
    CountOpenAppend(left, row, user);
    CountsRevoke(ts, p, Revoked(ts[p], now, Some(raw)), user, now);
    CountsAre(ts, user, now);
    CountsAre(us, user, now);
    assert left == ts[p := us[p]];
    RotatedTimes(ts, us, p, row, left);
    LimitIsKept(left, row, us, user);
  }

  lemma RotatedTimes(ts: Tokens, us: Tokens, p: nat, row: Token, left: Tokens)
    requires TokenFamilies.Extends(ts, us) && |us| == |ts| + 1 && us[|ts|].(revokedAt := None) == row && p < |ts|
    requires left == ts[p := us[p]]
    ensures forall i | 0 <= i < |us| :: us[i].createdAt == (left + [row])[i].createdAt
  {
  }

  lemma LimitIsKept(left: Tokens, row: Token, us: Tokens, user: nat)
    requires |us| == |left| + 1 && forall i | 0 <= i < |us| :: us[i].createdAt == (left + [row])[i].createdAt
    requires forall i, j | 0 <= i < |us| && 0 <= j < |us| && Open((left + [row])[i], user) && !Open(us[i], user) && Open(us[j], user) ::
      (left + [row])[i].createdAt < (left + [row])[j].createdAt
    ensures KeptNewest(left, us, user)
  {
    forall i, j | 0 <= i < |left| && OpenRow(left[i], user) && !OpenRow(us[i], user) && 0 <= j < |us| && OpenRow(us[j], user)
      ensures us[i].createdAt < us[j].createdAt
    {
      assert Open((left + [row])[i], user) && !Open(us[i], user) && Open(us[j], user);
    }
  }

  lemma RowGiven(h: Hash, cfg: Config, user: nat, family: nat, raw: string, fingerprint: Option<string>, now: int)
    ensures var row := NewRow(h, cfg, user, family, raw, fingerprint, now);
      OpenRow(row, user) && row.createdAt == now && row.expiresAt == now + cfg.ttl && row.token == h(raw)
  {
  }

  lemma RotationIs(h: Hash, cfg: Config, ts: Tokens, presented: string, raw: string, fingerprint: Option<string>, now: int, userKnown: bool, p: nat)
    requires Sound(h, ts) && p < |ts| && ts[p].token == presented
    requires Refreshed(h, cfg, ts, presented, raw, fingerprint, now, userKnown).1.Issued?
    ensures var row := NewRow(h, cfg, ts[p].user, ts[p].family, raw, if fingerprint.Some? then fingerprint else ts[p].fingerprint, now);
      && Unrevoked(ts[p]) && ts[p].expiresAt >= now
      && Refreshed(h, cfg, ts, presented, raw, fingerprint, now, userKnown).0 ==
        Enforce(ts[p := Revoked(ts[p], now, Some(raw))] + [row], cfg, ts[p].user, now)
  {
    FindIsThere(ts, presented);
    assert Find(ts, presented) == Some(p);
    hide Enforce, Sound;
    var row := NewRow(h, cfg, ts[p].user, ts[p].family, raw, if fingerprint.Some? then fingerprint else ts[p].fingerprint, now);
    assert DistinctTokens(ts) by { SoundDistinct(h, ts); }
    SucceededRows(h, ts, p, row, raw, now);
  }

  lemma SoundDistinct(h: Hash, ts: Tokens)
    requires Sound(h, ts)
    ensures DistinctTokens(ts)
  {
  }

  /** The same for a rotation, where the presented row no longer counts and its successor does. */
  lemma RotationEnforcesLimit(h: Hash, cfg: Config, ts: Tokens, presented: string, raw: string, fingerprint: Option<string>, now: int, userKnown: bool, p: nat)
    requires Sound(h, ts) && p < |ts| && ts[p].token == presented && cfg.ttl > 0
    requires Refreshed(h, cfg, ts, presented, raw, fingerprint, now, userKnown).1.Issued?
    ensures var us := Refreshed(h, cfg, ts, presented, raw, fingerprint, now, userKnown).0;
      var rest := ts[p := ts[p].(revokedAt := Some(now), replacedBy := Some(raw))];
      var excess := |ActiveAt(rest, ts[p].user, now)| + 1 - cfg.maxSessions;
      |ActiveAt(us, ts[p].user, now)| <= cfg.maxSessions <==>
      excess <= 0 || (cfg.maxSessions >= 0 && OldestUnexpired(rest, ts[p].user, excess, now))
  {
    hide Enforce, ActiveAt, OldestUnexpired, Refreshed, Sound, NewRow;
    var user := ts[p].user;
    var us := Refreshed(h, cfg, ts, presented, raw, fingerprint, now, userKnown).0;
    var row := NewRow(h, cfg, user, ts[p].family, raw, if fingerprint.Some? then fingerprint else ts[p].fingerprint, now);
    var rest := ts[p := Revoked(ts[p], now, Some(raw))];
    RotationIs(h, cfg, ts, presented, raw, fingerprint, now, userKnown, p);
    RowGiven(h, cfg, user, ts[p].family, raw, if fingerprint.Some? then fingerprint else ts[p].fingerprint, now);
    LimitEnforced(rest + [row], cfg, user, now);
    CountActiveAppend(rest, row, user, now);
    CountsAre(rest, user, now);
    CountsAre(us, user, now);
    OldestAppend(rest, row, user, |ActiveAt(rest, user, now)| + 1 - cfg.maxSessions, now);
  }

  /** Whoever else is in the table: a login or rotation changes no row of another user. */
  lemma OthersUntouched(h: Hash, cfg: Config, ts: Tokens, op: Operation, i: nat)
    requires Sound(h, ts) && i < |ts| && (op.Login? ==> ts[i].user != op.user)
    requires op.Refresh? ==> forall p | 0 <= p < |ts| && ts[p].token == op.presented :: ts[p].user != ts[i].user
    requires op.Logout? ==> ts[i].user != op.user
    ensures var us := Perform(h, cfg, ts, op); i < |us| && us[i] == ts[i]
  {
    match op
    case Login(user, family, raw, fingerprint, now) =>
      EnforceSparesOthers(ts + [NewRow(h, cfg, user, family, raw, fingerprint, now)], cfg, user, now, i);
    case Refresh(presented, raw, fingerprint, now, userKnown) =>
      FindIsThere(ts, presented);
      RefreshSparesOthers(h, cfg, ts, presented, raw, fingerprint, now, userKnown, i);
    case Logout(user, specific, now) =>
      if Given(specific) { FindIsThere(ts, specific.value); }
  }

  lemma EnforceSparesOthers(ts: Tokens, cfg: Config, user: nat, now: int, i: nat)
    requires i < |ts| && ts[i].user != user
    ensures i < |Enforce(ts, cfg, user, now)| && Enforce(ts, cfg, user, now)[i] == ts[i]
  {
    var active := CountActive(ts, user, now);
    if active > cfg.maxSessions { EvictShape(ts, user, active - cfg.maxSessions, now); }
  }

  lemma RefreshSparesOthers(h: Hash, cfg: Config, ts: Tokens, presented: string, raw: string, fingerprint: Option<string>, now: int, userKnown: bool, i: nat)
    requires Sound(h, ts) && i < |ts| && forall p | 0 <= p < |ts| && ts[p].token == presented :: ts[p].user != ts[i].user
    ensures var us := Refreshed(h, cfg, ts, presented, raw, fingerprint, now, userKnown).0; i < |us| && us[i] == ts[i]
  {
    hide Enforce;
    FindIsThere(ts, presented);
    if Find(ts, presented).Some? {
      var p := Find(ts, presented).value;
      var row := NewRow(h, cfg, ts[p].user, ts[p].family, raw, if fingerprint.Some? then fingerprint else ts[p].fingerprint, now);
      if Refreshed(h, cfg, ts, presented, raw, fingerprint, now, userKnown).1.Issued? {
        RotationIs(h, cfg, ts, presented, raw, fingerprint, now, userKnown, p);
        EnforceSparesOthers(ts[p := Revoked(ts[p], now, Some(raw))] + [row], cfg, ts[p].user, now, i);
      } else {
        assert ts[i].family != ts[p].family;
      }
    }
  }
}
