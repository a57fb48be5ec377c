/**
  Refresh-token families: login, rotation with reuse detection, eviction beyond the session limit, and logout, over a
  token table that only grows.  Rows are keyed by the hash of the raw token; lookups use the presented value as given.
*/
module RefreshTokens {
  import opened Wrappers

  /** One row.  `token` is the stored hash; `replacedBy` the raw token that replaced this one. */
  datatype Token = Token(
    token: string, user: nat, family: nat, expiresAt: int, revokedAt: Option<int>,
    replacedBy: Option<string>, fingerprint: Option<string>, createdAt: int)

  /** The table in creation order. */
  type Tokens = seq<Token>

  datatype Config = Config(ttl: int, maxSessions: int)

  type Hash = string -> string

  predicate Unrevoked(t: Token) {
    t.revokedAt.None?
  }

  predicate Known(ts: Tokens, value: string) {
    exists i | 0 <= i < |ts| :: ts[i].token == value
  }

  function Find(ts: Tokens, value: string): Option<nat> {
    if ts == [] then None
    else if ts[0].token == value then Some(0)
    else match Find(ts[1..], value)
      case None => None
      case Some(i) => Some(i + 1)
  }

  /** JavaScript truthiness of an optional string. */
  predicate Given(s: Option<string>) {
    s.Some? && s.value != ""
  }

  function NewRow(h: Hash, cfg: Config, user: nat, family: nat, raw: string, fingerprint: Option<string>, now: int): Token {
    Token(h(raw), user, family, now + cfg.ttl, None, None, if Given(fingerprint) then Some(h(fingerprint.value)) else None, now)
  }

  function Revoked(t: Token, now: int, replacedBy: Option<string>): Token {
    t.(revokedAt := Some(now), replacedBy := replacedBy)
  }

  function WithRevoked(ts: Tokens, value: string, replacedBy: Option<string>, now: int): Tokens {
    seq(|ts|, i requires 0 <= i < |ts| => if ts[i].token == value then Revoked(ts[i], now, replacedBy) else ts[i])
  }

  function WithFamilyRevoked(ts: Tokens, family: nat, now: int): Tokens {
    seq(|ts|, i requires 0 <= i < |ts| =>
      if ts[i].family == family && Unrevoked(ts[i]) then ts[i].(revokedAt := Some(now)) else ts[i])
  }

  function WithUserRevoked(ts: Tokens, user: nat, now: int): Tokens {
    seq(|ts|, i requires 0 <= i < |ts| =>
      if ts[i].user == user && Unrevoked(ts[i]) then ts[i].(revokedAt := Some(now)) else ts[i])
  }

  /* ---- session limit ---- */

  predicate Open(t: Token, user: nat) {
    t.user == user && Unrevoked(t)
  }

  function CountOpen(ts: Tokens, user: nat): nat {
    if ts == [] then 0 else (if Open(ts[0], user) then 1 else 0) + CountOpen(ts[1..], user)
  }

  function CountOpenIn(ts: Tokens, family: nat): nat {
    if ts == [] then 0 else (if ts[0].family == family && Unrevoked(ts[0]) then 1 else 0) + CountOpenIn(ts[1..], family)
  }

  function CountActive(ts: Tokens, user: nat, now: int): nat {
    if ts == [] then 0 else (if Open(ts[0], user) && ts[0].expiresAt > now then 1 else 0) + CountActive(ts[1..], user, now)
  }

  /** The `k` oldest unrevoked rows of the user revoked, expired ones included. */
  function EvictOldest(ts: Tokens, user: nat, k: nat, now: int): Tokens {
    if ts == [] then []
    else if k > 0 && Open(ts[0], user) then [Revoked(ts[0], now, None)] + EvictOldest(ts[1..], user, k - 1, now)
    else [ts[0]] + EvictOldest(ts[1..], user, k, now)
  }

  function Enforce(ts: Tokens, cfg: Config, user: nat, now: int): Tokens {
    var active := CountActive(ts, user, now);
    if active > cfg.maxSessions then EvictOldest(ts, user, active - cfg.maxSessions, now) else ts
  }

  /** `findMany` ordered by creation, limited to `k`: the tokens to evict. */
  function OldestOpen(ts: Tokens, user: nat, k: nat): seq<string> {
    if ts == [] || k == 0 then []
    else if Open(ts[0], user) then [ts[0].token] + OldestOpen(ts[1..], user, k - 1)
    else OldestOpen(ts[1..], user, k)
  }

  /* ---- the three operations ---- */

  datatype Reason = BadNonce | NotFound | Expired | ReuseDetected | FingerprintMismatch | UnknownUser | Conflict

  datatype Reply = Issued(raw: string) | Refused(reason: Reason)

  function LoggedIn(h: Hash, cfg: Config, ts: Tokens, user: nat, family: nat, raw: string, fingerprint: Option<string>, now: int): (Tokens, Reply) {
    if Known(ts, h(raw)) then (ts, Refused(Conflict))
    else (Enforce(ts + [NewRow(h, cfg, user, family, raw, fingerprint, now)], cfg, user, now), Issued(raw))
  }

  predicate Mismatch(stored: Option<string>, presented: Option<string>) {
    Given(stored) && Given(presented) && stored != presented
  }

  /** Rotation inside its transaction: create the successor, revoke the presented row pointing to it, enforce the limit. */
  function Rotate(h: Hash, cfg: Config, ts: Tokens, p: nat, raw: string, fingerprint: Option<string>, now: int): Tokens
    requires p < |ts|
  {
    var stored := ts[p];
    var row := NewRow(h, cfg, stored.user, stored.family, raw, if fingerprint.Some? then fingerprint else stored.fingerprint, now);
    Enforce(WithRevoked(ts + [row], stored.token, Some(raw), now), cfg, stored.user, now)
  }

  function Refreshed(h: Hash, cfg: Config, ts: Tokens, presented: string, raw: string, fingerprint: Option<string>, now: int, userKnown: bool): (Tokens, Reply) {
    match Find(ts, presented)
    case None => (ts, Refused(NotFound))
    case Some(p) =>
      FindIsThere(ts, presented);
      if ts[p].expiresAt < now then (ts, Refused(Expired))
      else if ts[p].revokedAt.Some? then (WithFamilyRevoked(ts, ts[p].family, now), Refused(ReuseDetected))
      else if Mismatch(ts[p].fingerprint, fingerprint) then (ts, Refused(FingerprintMismatch))
      else if !userKnown then (ts, Refused(UnknownUser))
      else if Known(ts, h(raw)) then (ts, Refused(Conflict))
      else (Rotate(h, cfg, ts, p, raw, fingerprint, now), Issued(raw))
  }

  /** With a token, revoke that one if it is the user's and unrevoked; without, revoke all of the user's. */
  function LoggedOut(ts: Tokens, user: nat, specific: Option<string>, now: int): (Tokens, nat) {
    if Given(specific) then
      match Find(ts, specific.value)
      case None => (ts, 0)
      case Some(p) =>
        FindIsThere(ts, specific.value);
        if ts[p].user == user && Unrevoked(ts[p]) then (WithRevoked(ts, specific.value, None, now), 1) else (ts, 0)
    else (WithUserRevoked(ts, user, now), CountOpen(ts, user))
  }

  lemma FindIsThere(ts: Tokens, value: string)
    ensures match Find(ts, value)
      case None => !Known(ts, value)
      case Some(i) => i < |ts| && ts[i].token == value
  {
    if ts != [] && ts[0].token != value {
      FindIsThere(ts[1..], value);
      if Find(ts, value).None? {
        forall i | 0 <= i < |ts| ensures ts[i].token != value {
          if i > 0 { assert ts[i] == ts[1..][i - 1]; }
        }
      }
    }
  }

  /* ---- the services as they run ---- */

  predicate DistinctTokens(ts: Tokens) {
    forall i, j | 0 <= i < j < |ts| :: ts[i].token != ts[j].token
  }

  class RefreshTokenRepository {
    var rows: Tokens

    constructor ()
      ensures rows == []
    {
      rows := [];
    }

    /** The unique key on the token column refuses a second row with the same hash. */
    method CreateToken(row: Token) returns (created: bool)
      modifies this
      ensures created <==> !Known(old(rows), row.token)
      ensures rows == if created then old(rows) + [row] else old(rows)
    {
      var clash := FindByToken(row.token);
      if clash.Some? {
        return false;
      }
      rows := rows + [row];
      created := true;
    }

    method FindByToken(value: string) returns (found: Option<nat>)
      ensures found == Find(rows, value)
      ensures found.Some? ==> found.value < |rows| && rows[found.value].token == value
      ensures found.None? <==> !Known(rows, value)
    {
      FindIsThere(rows, value);
      found := Find(rows, value);
    }

    /** `update` on the unique token column; a missing row is an error.  The successor is overwritten, to nothing if none is given. */
    method RevokeToken(value: string, replacedBy: Option<string>, now: int) returns (found: bool)
      requires DistinctTokens(rows)
      modifies this
      ensures found <==> Known(old(rows), value)
      ensures |rows| == |old(rows)|
      ensures forall i | 0 <= i < |rows| && old(rows)[i].token != value :: rows[i] == old(rows)[i]
      ensures forall i | 0 <= i < |rows| && old(rows)[i].token == value ::
        !Unrevoked(rows[i]) && rows[i] == old(rows)[i].(revokedAt := Some(now), replacedBy := replacedBy)
    {
      var p := FindByToken(value);
      if p.None? {
        return false;
      }
      rows := rows[p.value := rows[p.value].(revokedAt := Some(now), replacedBy := replacedBy)];
      found := true;
    }

    /** `updateMany` on the family's unrevoked rows: revoked rows keep their time, every row its successor. */
    method RevokeFamily(family: nat, now: int) returns (count: nat)
      modifies this
      ensures |rows| == |old(rows)|
      ensures forall i | 0 <= i < |rows| && old(rows)[i].family == family ::
        !Unrevoked(rows[i]) && rows[i] == old(rows)[i].(revokedAt := if Unrevoked(old(rows)[i]) then Some(now) else old(rows)[i].revokedAt)
      ensures forall i | 0 <= i < |rows| && old(rows)[i].family != family :: rows[i] == old(rows)[i]
      ensures count == CountOpenIn(old(rows), family)
    {
      ghost var before := rows;
      count := 0;
      for k := 0 to |rows|
        invariant |rows| == |before|
        invariant forall i | 0 <= i < k && before[i].family == family ::
          !Unrevoked(rows[i]) && rows[i] == before[i].(revokedAt := if Unrevoked(before[i]) then Some(now) else before[i].revokedAt)
        invariant forall i | 0 <= i < |rows| && (i >= k || before[i].family != family) :: rows[i] == before[i]
        invariant count + CountOpenIn(before[k..], family) == CountOpenIn(before, family)
      {
        assert before[k..][1..] == before[k + 1..];
        if rows[k].family == family && Unrevoked(rows[k]) {
          rows := rows[k := rows[k].(revokedAt := Some(now))];
          count := count + 1;
        }
      }
    }

    /** `updateMany` on the user's unrevoked rows. */
    method RevokeAllForUser(user: nat, now: int) returns (count: nat)
      modifies this
      ensures |rows| == |old(rows)|
      ensures forall i | 0 <= i < |rows| && old(rows)[i].user == user ::
        !Unrevoked(rows[i]) && rows[i] == old(rows)[i].(revokedAt := if Unrevoked(old(rows)[i]) then Some(now) else old(rows)[i].revokedAt)
      ensures forall i | 0 <= i < |rows| && old(rows)[i].user != user :: rows[i] == old(rows)[i]
      ensures count == CountOpen(old(rows), user)
    {
      ghost var before := rows;
      count := 0;
      for k := 0 to |rows|
        invariant |rows| == |before|
        invariant forall i | 0 <= i < k && before[i].user == user ::
          !Unrevoked(rows[i]) && rows[i] == before[i].(revokedAt := if Unrevoked(before[i]) then Some(now) else before[i].revokedAt)
        invariant forall i | 0 <= i < |rows| && (i >= k || before[i].user != user) :: rows[i] == before[i]
        invariant count + CountOpen(before[k..], user) == CountOpen(before, user)
      {
        assert before[k..][1..] == before[k + 1..];
        if rows[k].user == user && Unrevoked(rows[k]) {
          rows := rows[k := rows[k].(revokedAt := Some(now))];
          count := count + 1;
        }
      }
    }
  }

  lemma EvictShape(ts: Tokens, user: nat, k: nat, now: int)
    ensures |EvictOldest(ts, user, k, now)| == |ts|
    ensures forall i | 0 <= i < |ts| ::
      EvictOldest(ts, user, k, now)[i] == ts[i] || (Open(ts[i], user) && EvictOldest(ts, user, k, now)[i] == Revoked(ts[i], now, None))
  {
  }

  lemma {:induction false} OldestOpenIn(ts: Tokens, user: nat, k: nat, n: nat)
    requires n < |OldestOpen(ts, user, k)|
    ensures Known(ts, OldestOpen(ts, user, k)[n])
  {
    if Open(ts[0], user) {
      if n > 0 {
        OldestOpenIn(ts[1..], user, k - 1, n - 1);
        var i :| 0 <= i < |ts[1..]| && ts[1..][i].token == OldestOpen(ts[1..], user, k - 1)[n - 1];
        assert ts[i + 1].token == OldestOpen(ts, user, k)[n];
      } else {
        assert ts[0].token == OldestOpen(ts, user, k)[0];
      }
    } else {
      OldestOpenIn(ts[1..], user, k, n);
      var i :| 0 <= i < |ts[1..]| && ts[1..][i].token == OldestOpen(ts[1..], user, k)[n];
      assert ts[i + 1].token == OldestOpen(ts, user, k)[n];
    }
  }

  lemma RevokeInTail(head: Token, tail: Tokens, value: string, now: int)
    requires head.token != value
    ensures WithRevoked([head] + tail, value, None, now) == [head] + WithRevoked(tail, value, None, now)
  {
  }

  /** Revoking the next token of the eviction list extends the eviction by one row. */
  lemma {:induction false} EvictOneMore(ts: Tokens, user: nat, k: nat, n: nat, now: int)
    requires DistinctTokens(ts) && n < |OldestOpen(ts, user, k)|
    ensures WithRevoked(EvictOldest(ts, user, n, now), OldestOpen(ts, user, k)[n], None, now) == EvictOldest(ts, user, n + 1, now)
  {
    var next, rest := OldestOpen(ts, user, k)[n], ts[1..];
    if !Open(ts[0], user) {
      OldestOpenIn(rest, user, k, n);
      EvictOneMore(rest, user, k, n, now);
      RevokeInTail(ts[0], EvictOldest(rest, user, n, now), next, now);
    } else if n > 0 {
      OldestOpenIn(rest, user, k - 1, n - 1);
      EvictOneMore(rest, user, k - 1, n - 1, now);
      RevokeInTail(Revoked(ts[0], now, None), EvictOldest(rest, user, n - 1, now), next, now);
    } else {
      EvictNothing(ts, user, now);
      EvictNothing(rest, user, now);
      assert WithRevoked(ts, next, None, now) == [Revoked(ts[0], now, None)] + rest;
    }
  }

  lemma {:induction false} EvictNothing(ts: Tokens, user: nat, now: int)
    ensures EvictOldest(ts, user, 0, now) == ts
  {
    if ts != [] {
      EvictNothing(ts[1..], user, now);
    }
  }

  /** The list is short only when it already names every unrevoked row. */
  lemma {:induction false} EvictAll(ts: Tokens, user: nat, k: nat, now: int)
    ensures |OldestOpen(ts, user, k)| <= k
    ensures EvictOldest(ts, user, |OldestOpen(ts, user, k)|, now) == EvictOldest(ts, user, k, now)
  {
    if ts != [] {
      if k > 0 && Open(ts[0], user) {
        EvictAll(ts[1..], user, k - 1, now);
      } else if k > 0 {
        EvictAll(ts[1..], user, k, now);
      }
    }
  }

  lemma RevokedRows(before: Tokens, after: Tokens, value: string, replacedBy: Option<string>, now: int)
    requires |after| == |before|
    requires forall i | 0 <= i < |after| :: after[i] == if before[i].token == value then Revoked(before[i], now, replacedBy) else before[i]
    ensures after == WithRevoked(before, value, replacedBy, now)
  {
  }

  lemma EvictedDistinct(ts: Tokens, user: nat, k: nat, now: int)
    requires DistinctTokens(ts)
    ensures DistinctTokens(EvictOldest(ts, user, k, now))
  {
    EvictShape(ts, user, k, now);
    assert forall i | 0 <= i < |ts| :: EvictOldest(ts, user, k, now)[i].token == ts[i].token;
  }

  class AuthService {
    const h: Hash
    const cfg: Config
    const repo: RefreshTokenRepository

    constructor (h: Hash, cfg: Config, repo: RefreshTokenRepository)
      ensures this.h == h && this.cfg == cfg && this.repo == repo
    {
      this.h, this.cfg, this.repo := h, cfg, repo;
    }

    method EnforceSessionLimit(user: nat, now: int)
      requires DistinctTokens(repo.rows)
      modifies repo
      ensures repo.rows == Enforce(old(repo.rows), cfg, user, now)
    {
      var activeCount := CountActive(repo.rows, user, now);
      if activeCount > cfg.maxSessions {
        var excess := activeCount - cfg.maxSessions;
        var oldest := OldestOpen(repo.rows, user, excess);
        ghost var before := repo.rows;
        hide EvictOldest, OldestOpen, WithRevoked;
        EvictNothing(before, user, now);
        var i := 0;
        while i < |oldest|
          invariant i <= |oldest|
          invariant repo.rows == EvictOldest(before, user, i, now)
        {
          EvictOneMore(before, user, excess, i, now);
          EvictedDistinct(before, user, i, now);
          ghost var evicted := repo.rows;
          var _ := repo.RevokeToken(oldest[i], None, now);
          RevokedRows(evicted, repo.rows, oldest[i], None, now);
          i := i + 1;
        }
        EvictAll(before, user, excess, now);
      }
    }

    /** The nonce is consumed and the user looked up before the transaction; either can refuse the login. */
    method WalletLogin(user: nat, family: nat, raw: string, fingerprint: Option<string>, now: int, nonceValid: bool, userKnown: bool)
      returns (reply: Reply)
      requires DistinctTokens(repo.rows)
      modifies repo
      ensures !nonceValid || !userKnown ==> repo.rows == old(repo.rows) && reply == Refused(if nonceValid then UnknownUser else BadNonce)
      ensures nonceValid && userKnown ==> (repo.rows, reply) == LoggedIn(h, cfg, old(repo.rows), user, family, raw, fingerprint, now)
    {
      if !nonceValid {
        return Refused(BadNonce);
      }
      if !userKnown {
        return Refused(UnknownUser);
      }
      var created := repo.CreateToken(NewRow(h, cfg, user, family, raw, fingerprint, now));
      if !created {
        return Refused(Conflict);
      }
      EnforceSessionLimit(user, now);
      reply := Issued(raw);
    }

    method RefreshTokens(presented: string, raw: string, fingerprint: Option<string>, now: int, userKnown: bool) returns (reply: Reply)
      requires DistinctTokens(repo.rows)
      modifies repo
      ensures (repo.rows, reply) == Refreshed(h, cfg, old(repo.rows), presented, raw, fingerprint, now, userKnown)
    {
      var found := repo.FindByToken(presented);
      if found.None? {
        return Refused(NotFound);
      }
      var stored := repo.rows[found.value];
      if stored.expiresAt < now {
        return Refused(Expired);
      }
      if stored.revokedAt.Some? {
        var _ := repo.RevokeFamily(stored.family, now);
        assert repo.rows == WithFamilyRevoked(old(repo.rows), stored.family, now);
        return Refused(ReuseDetected);
      }
      if Mismatch(stored.fingerprint, fingerprint) {
        return Refused(FingerprintMismatch);
      }
      if !userKnown {
        return Refused(UnknownUser);
      }
      var carried := if fingerprint.Some? then fingerprint else stored.fingerprint;
      var created := repo.CreateToken(NewRow(h, cfg, stored.user, stored.family, raw, carried, now));
      if !created {
        return Refused(Conflict);
      }
      ghost var issued := repo.rows;
      var _ := repo.RevokeToken(presented, Some(raw), now);
      RevokedRows(issued, repo.rows, presented, Some(raw), now);
      EnforceSessionLimit(stored.user, now);
      reply := Issued(raw);
    }

    method Logout(user: nat, specific: Option<string>, now: int) returns (revoked: nat)
      requires DistinctTokens(repo.rows)
      modifies repo
      ensures (repo.rows, revoked) == LoggedOut(old(repo.rows), user, specific, now)
    {
      if Given(specific) {
        var stored := repo.FindByToken(specific.value);
        if stored.None? || repo.rows[stored.value].user != user || !Unrevoked(repo.rows[stored.value]) {
          return 0;
        }
        var _ := repo.RevokeToken(specific.value, None, now);
        RevokedRows(old(repo.rows), repo.rows, specific.value, None, now);
        return 1;
      }
      revoked := repo.RevokeAllForUser(user, now);
      assert repo.rows == WithUserRevoked(old(repo.rows), user, now);
    }
  }
}
