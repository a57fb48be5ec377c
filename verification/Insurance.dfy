/**
  Policies, claims and pool capital.  Amounts are whole cents.  Every operation is a transaction: it commits all of its
  writes or none.  `rest` is the outcome of the later audit, reputation and notification writes of the same transaction.
*/
module Insurance {
  import opened Wrappers

  datatype PolicyStatus = ACTIVE | INACTIVE | EXPIRED | CANCELLED | PENDING

  datatype ClaimStatus = Pending | UnderReview | Approved | Rejected | Paid

  datatype Pool = Pool(capital: int, locked: int, live: bool)

  datatype Policy = Policy(user: string, pool: nat, coverage: int, status: PolicyStatus, endDate: Option<int>, live: bool)

  datatype Claim = Claim(policy: nat, amount: int, status: ClaimStatus, payout: Option<int>, live: bool)

  /** The three tables; a row's id is its position. */
  datatype Store = Store(pools: seq<Pool>, policies: seq<Policy>, claims: seq<Claim>)

  /** Foreign keys point to rows, dead or alive. */
  predicate Linked(s: Store) {
    && (forall i | 0 <= i < |s.policies| :: s.policies[i].pool < |s.pools|)
    && (forall i | 0 <= i < |s.claims| :: s.claims[i].policy < |s.policies|)
  }

  predicate LivePool(s: Store, p: nat) {
    p < |s.pools| && s.pools[p].live
  }

  predicate LivePolicy(s: Store, i: nat) {
    i < |s.policies| && s.policies[i].live
  }

  predicate LiveClaim(s: Store, c: nat) {
    c < |s.claims| && s.claims[c].live
  }

  predicate Closed(status: PolicyStatus) {
    status == CANCELLED || status == EXPIRED
  }

  /** A policy that blocks another purchase by the same user in the same pool. */
  predicate Blocks(policy: Policy, user: string, pool: nat) {
    policy.live && policy.user == user && policy.pool == pool && (policy.status == ACTIVE || policy.status == PENDING)
  }

  function FindBlocking(policies: seq<Policy>, user: string, pool: nat): Option<nat> {
    if policies == [] then None
    else if Blocks(policies[0], user, pool) then Some(0)
    else match FindBlocking(policies[1..], user, pool)
      case None => None
      case Some(i) => Some(i + 1)
  }

  lemma FindBlockingIs(policies: seq<Policy>, user: string, pool: nat)
    ensures match FindBlocking(policies, user, pool)
      case None => forall i | 0 <= i < |policies| :: !Blocks(policies[i], user, pool)
      case Some(i) => i < |policies| && Blocks(policies[i], user, pool)
  {
    if policies != [] && !Blocks(policies[0], user, pool) {
      FindBlockingIs(policies[1..], user, pool);
      assert forall i | 1 <= i < |policies| :: policies[i] == policies[1..][i - 1];
    }
  }

  function WithPool(s: Store, p: nat, pool: Pool): Store
    requires p < |s.pools|
  {
    s.(pools := s.pools[p := pool])
  }

  function WithPolicy(s: Store, i: nat, policy: Policy): Store
    requires i < |s.policies|
  {
    s.(policies := s.policies[i := policy])
  }

  function WithClaim(s: Store, c: nat, claim: Claim): Store
    requires c < |s.claims|
  {
    s.(claims := s.claims[c := claim])
  }

  /* ---- what each transaction commits: the new tables, or None when it aborts ---- */

  function CapitalAdded(s: Store, p: nat, amount: int, rest: bool): Option<Store> {
    if amount <= 0 || !LivePool(s, p) || !rest then None
    else Some(WithPool(s, p, s.pools[p].(capital := s.pools[p].capital + amount)))
  }

  function CapitalLocked(s: Store, p: nat, amount: int): Option<Store> {
    if amount <= 0 || !LivePool(s, p) then None
    else Some(WithPool(s, p, s.pools[p].(locked := s.pools[p].locked + amount)))
  }

  /** Refused when the pool would still have more locked than it owns. */
  function CapitalUnlocked(s: Store, p: nat, amount: int): Option<Store> {
    if amount <= 0 || !LivePool(s, p) || s.pools[p].capital < s.pools[p].locked - amount then None
    else Some(WithPool(s, p, s.pools[p].(locked := s.pools[p].locked - amount)))
  }

  function Purchased(s: Store, user: string, pool: nat, coverage: int, rest: bool): Option<(Store, nat)> {
    if user == "" || coverage <= 0 then None
    else match FindBlocking(s.policies, user, pool)
      case Some(i) => Some((s, i))
      case None =>
        match CapitalLocked(s, pool, coverage)
        case None => None
        case Some(t) =>
          if rest then Some((t.(policies := t.policies + [Policy(user, pool, coverage, ACTIVE, None, true)]), |t.policies|)) else None
  }

  /** Cancellation and expiry differ only in the final status. */
  function PolicyClosed(s: Store, i: nat, status: PolicyStatus, rest: bool): Option<Store> {
    if !LivePolicy(s, i) then None
    else if Closed(s.policies[i].status) then Some(s)
    else match CapitalUnlocked(s, s.policies[i].pool, s.policies[i].coverage)
      case None => None
      case Some(t) => if rest then Some(WithPolicy(t, i, t.policies[i].(status := status))) else None
  }

  function ClaimCreated(s: Store, i: nat, amount: int, rest: bool): Option<Store> {
    if !LivePolicy(s, i) || !rest then None
    else Some(s.(claims := s.claims + [Claim(i, amount, Pending, None, true)]))
  }

  /** `logged` is the outcome of the audit write inside the check, whose failure counts as a failed verification. */
  predicate OracleVerified(policy: Policy, claim: Claim, now: int, logged: bool) {
    && policy.status == ACTIVE && !(policy.endDate.Some? && policy.endDate.value < now)
    && 0 < claim.amount <= policy.coverage
    && logged
  }

  /** Marks the claim and releases its amount from the pool of its policy. */
  function ClaimReleased(s: Store, c: nat, status: ClaimStatus, rest: bool): Option<Store>
    requires Linked(s) && c < |s.claims|
  {
    match CapitalUnlocked(s, s.policies[s.claims[c].policy].pool, s.claims[c].amount)
    case None => None
    case Some(t) => if rest then Some(WithClaim(t, c, t.claims[c].(status := status))) else None
  }

  function Assessed(s: Store, c: nat, now: int, logged: bool, rest: bool): Option<Store>
    requires Linked(s)
  {
    if !LiveClaim(s, c) then None
    else
      var claim := s.claims[c];
      var policy := s.policies[claim.policy];
      if claim.status != Pending then Some(s)
      else if policy.status != ACTIVE || claim.amount > policy.coverage || !OracleVerified(policy, claim, now, logged) then
        ClaimReleased(s, c, Rejected, rest)
      else if rest then Some(WithClaim(s, c, claim.(status := Approved, payout := Some(claim.amount))))
      else None
  }

  function ClaimPaid(s: Store, c: nat, rest: bool): Option<Store>
    requires Linked(s)
  {
    if !LiveClaim(s, c) then None
    else if s.claims[c].status == Paid then Some(s)
    else ClaimReleased(s, c, Paid, rest)
  }

  /* ---- the services as they run ---- */

  class Database {
    var pools: seq<Pool>
    var policies: seq<Policy>
    var claims: seq<Claim>

    constructor ()
      ensures Rows() == Store([], [], [])
    {
      pools, policies, claims := [], [], [];
    }

    function Rows(): Store
      reads this
    {
      Store(pools, policies, claims)
    }

    method Rollback(saved: Store)
      modifies this
      ensures Rows() == saved
    {
      pools, policies, claims := saved.pools, saved.policies, saved.claims;
    }
  }

  class PoolService {
    const db: Database

    constructor (db: Database)
      ensures this.db == db
    {
      this.db := db;
    }

    method AddCapital(p: nat, amount: int, rest: bool) returns (committed: bool)
      modifies db
      ensures committed == CapitalAdded(old(db.Rows()), p, amount, rest).Some?
      ensures db.Rows() == CapitalAdded(old(db.Rows()), p, amount, rest).GetOr(old(db.Rows()))
    {
      if amount <= 0 || !LivePool(db.Rows(), p) {
        return false;
      }
      var saved := db.Rows();
      db.pools := db.pools[p := db.pools[p].(capital := db.pools[p].capital + amount)];
      committed := rest;
      if !committed {
        db.Rollback(saved);
      }
    }

    method LockCapital(p: nat, amount: int) returns (locked: bool)
      modifies db`pools
      ensures locked == CapitalLocked(old(db.Rows()), p, amount).Some?
      ensures db.Rows() == CapitalLocked(old(db.Rows()), p, amount).GetOr(old(db.Rows()))
    {
      if amount <= 0 || !LivePool(db.Rows(), p) {
        return false;
      }
      db.pools := db.pools[p := db.pools[p].(locked := db.pools[p].locked + amount)];
      locked := true;
    }

    /** The decrement is written before the guard, so a refusal leaves it to the transaction to roll back. */
    method UnlockCapital(p: nat, amount: int) returns (unlocked: bool)
      modifies db`pools
      ensures unlocked == CapitalUnlocked(old(db.Rows()), p, amount).Some?
      ensures unlocked ==> db.Rows() == CapitalUnlocked(old(db.Rows()), p, amount).value
    {
      if amount <= 0 || !LivePool(db.Rows(), p) {
        return false;
      }
      var updated := db.pools[p].(locked := db.pools[p].locked - amount);
      db.pools := db.pools[p := updated];
      var available := updated.capital - updated.locked;
      unlocked := available >= 0;
    }
  }

  class InsuranceService {
    const db: Database
    const pools: PoolService

    constructor (pools: PoolService)
      ensures this.pools == pools && this.db == pools.db
    {
      this.pools := pools;
      this.db := pools.db;
    }

    method PurchasePolicy(user: string, pool: nat, coverage: int, rest: bool) returns (policy: Option<nat>)
      requires pools.db == db
      modifies db
      ensures policy == match Purchased(old(db.Rows()), user, pool, coverage, rest) case None => None case Some(done) => Some(done.1)
      ensures db.Rows() == match Purchased(old(db.Rows()), user, pool, coverage, rest) case None => old(db.Rows()) case Some(done) => done.0
    {
      if user == "" || coverage <= 0 {
        return None;
      }
      var existing := FindBlocking(db.policies, user, pool);
      if existing.Some? {
        return existing;
      }
      var saved := db.Rows();
      var locked := pools.LockCapital(pool, coverage);
      if !locked {
        return None;
      }
      policy := Some(|db.policies|);
      db.policies := db.policies + [Policy(user, pool, coverage, ACTIVE, None, true)];
      if !rest {
        db.Rollback(saved);
        policy := None;
      }
    }

    method ClosePolicy(i: nat, status: PolicyStatus, rest: bool) returns (committed: bool)
      requires pools.db == db
      modifies db
      ensures committed == PolicyClosed(old(db.Rows()), i, status, rest).Some?
      ensures db.Rows() == PolicyClosed(old(db.Rows()), i, status, rest).GetOr(old(db.Rows()))
    {
      if !LivePolicy(db.Rows(), i) {
        return false;
      }
      var policy := db.policies[i];
      if Closed(policy.status) {
        return true;
      }
      var saved := db.Rows();
      db.policies := db.policies[i := policy.(status := status)];
      var unlocked := pools.UnlockCapital(policy.pool, policy.coverage);
      committed := unlocked && rest;
      if !committed {
        db.Rollback(saved);
      }
    }

    method CancelPolicy(i: nat, rest: bool) returns (committed: bool)
      requires pools.db == db
      modifies db
      ensures committed == PolicyClosed(old(db.Rows()), i, CANCELLED, rest).Some?
      ensures db.Rows() == PolicyClosed(old(db.Rows()), i, CANCELLED, rest).GetOr(old(db.Rows()))
    {
      committed := ClosePolicy(i, CANCELLED, rest);
    }

    method ExpirePolicy(i: nat, rest: bool) returns (committed: bool)
      requires pools.db == db
      modifies db
      ensures committed == PolicyClosed(old(db.Rows()), i, EXPIRED, rest).Some?
      ensures db.Rows() == PolicyClosed(old(db.Rows()), i, EXPIRED, rest).GetOr(old(db.Rows()))
    {
      committed := ClosePolicy(i, EXPIRED, rest);
    }
  }

  class ClaimService {
    const db: Database
    const pools: PoolService

    constructor (pools: PoolService)
      ensures this.pools == pools && this.db == pools.db
    {
      this.pools := pools;
      this.db := pools.db;
    }

    method CreateClaim(i: nat, amount: int, rest: bool) returns (committed: bool)
      modifies db
      ensures committed == ClaimCreated(old(db.Rows()), i, amount, rest).Some?
      ensures db.Rows() == ClaimCreated(old(db.Rows()), i, amount, rest).GetOr(old(db.Rows()))
    {
      if !LivePolicy(db.Rows(), i) {
        return false;
      }
      var saved := db.Rows();
      db.claims := db.claims + [Claim(i, amount, Pending, None, true)];
      committed := rest;
      if !committed {
        db.Rollback(saved);
      }
    }

    /** Marks first and unlocks after, inside the caller's transaction. */
    method Release(c: nat, status: ClaimStatus, rest: bool) returns (committed: bool)
      requires pools.db == db && Linked(db.Rows()) && c < |db.claims|
      modifies db
      ensures committed == ClaimReleased(old(db.Rows()), c, status, rest).Some?
      ensures db.Rows() == ClaimReleased(old(db.Rows()), c, status, rest).GetOr(old(db.Rows()))
    {
      var saved := db.Rows();
      var claim := db.claims[c];
      db.claims := db.claims[c := claim.(status := status)];
      var unlocked := pools.UnlockCapital(db.policies[claim.policy].pool, claim.amount);
      committed := unlocked && rest;
      if !committed {
        db.Rollback(saved);
      }
    }

    method AssessClaim(c: nat, now: int, logged: bool, rest: bool) returns (committed: bool)
      requires pools.db == db && Linked(db.Rows())
      modifies db
      ensures committed == Assessed(old(db.Rows()), c, now, logged, rest).Some?
      ensures db.Rows() == Assessed(old(db.Rows()), c, now, logged, rest).GetOr(old(db.Rows()))
    {
      if !LiveClaim(db.Rows(), c) {
        return false;
      }
      var claim := db.claims[c];
      var policy := db.policies[claim.policy];
      if claim.status != Pending {
        return true;
      }
      if policy.status != ACTIVE || claim.amount > policy.coverage || !OracleVerified(policy, claim, now, logged) {
        committed := Release(c, Rejected, rest);
        return;
      }
      var saved := db.Rows();
      db.claims := db.claims[c := claim.(status := Approved, payout := Some(claim.amount))];
      committed := rest;
      if !committed {
        db.Rollback(saved);
      }
    }

    method PayClaim(c: nat, rest: bool) returns (committed: bool)
      requires pools.db == db && Linked(db.Rows())
      modifies db
      ensures committed == ClaimPaid(old(db.Rows()), c, rest).Some?
      ensures db.Rows() == ClaimPaid(old(db.Rows()), c, rest).GetOr(old(db.Rows()))
    {
      if !LiveClaim(db.Rows(), c) {
        return false;
      }
      if db.claims[c].status == Paid {
        return true;
      }
      committed := Release(c, Paid, rest);
    }
  }
}
