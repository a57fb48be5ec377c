/**
  Each insurance transaction by its effect on the three tables: exactly when it commits, and every row afterwards.  The
  guards and the new rows are spelled out here.
*/
module InsuranceEffects {
  import opened Wrappers
  import opened Insurance

  predicate PoolIsLive(s: Store, p: nat) {
    p < |s.pools| && s.pools[p].live
  }

  /** One pool's locked capital moved by an amount; the rest of the pools as they were. */
  function MoveLocked(pools: seq<Pool>, p: nat, amount: int): seq<Pool>
    requires p < |pools|
  {
    pools[p := Pool(pools[p].capital, pools[p].locked + amount, pools[p].live)]
  }

  /** What an unlock asks: a positive amount, a live pool, and no more locked afterwards than owned. */
  predicate Unlockable(s: Store, p: nat, amount: int) {
    amount > 0 && PoolIsLive(s, p) && s.pools[p].locked - amount <= s.pools[p].capital
  }

  /** A live ACTIVE or PENDING policy of this user in this pool. */
  predicate Occupies(policy: Policy, user: string, pool: nat) {
    policy.user == user && policy.pool == pool && policy.live && policy.status in {ACTIVE, PENDING}
  }

  /** With an open policy of the user in the pool, a valid purchase returns one of those and changes nothing. */
  lemma PurchaseBlocked(s: Store, user: string, pool: nat, coverage: int, rest: bool, i: nat)
    requires user != "" && coverage > 0 && i < |s.policies| && Occupies(s.policies[i], user, pool)
    ensures Purchased(s, user, pool, coverage, rest).Some?
    ensures var (t, j) := Purchased(s, user, pool, coverage, rest).value;
      t == s && j < |s.policies| && Occupies(s.policies[j], user, pool)
  {
    FindBlockingIs(s.policies, user, pool);
    assert Blocks(s.policies[i], user, pool);
  }

  /**
    Without one, it locks exactly the coverage in exactly this pool and adds exactly one policy, of this user, pool and
    coverage, active, without end date; or, if the user or coverage is missing, the pool is not live or a later write fails,
    it changes nothing.
  */
  lemma PurchaseEffect(s: Store, user: string, pool: nat, coverage: int, rest: bool)
    requires forall i | 0 <= i < |s.policies| :: !Occupies(s.policies[i], user, pool)
    ensures Purchased(s, user, pool, coverage, rest) ==
      if user != "" && coverage > 0 && PoolIsLive(s, pool) && rest
      then Some((Store(MoveLocked(s.pools, pool, coverage), s.policies + [Policy(user, pool, coverage, ACTIVE, None, true)], s.claims), |s.policies|))
      else None
  {
    FindBlockingIs(s.policies, user, pool);
    forall i | 0 <= i < |s.policies| ensures !Blocks(s.policies[i], user, pool) {
      assert !Occupies(s.policies[i], user, pool);
    }
  }

  /** Closing writes the given status to exactly this policy and unlocks exactly its coverage; a closed one stays as it is. */
  lemma CloseEffect(s: Store, i: nat, status: PolicyStatus, rest: bool)
    ensures PolicyClosed(s, i, status, rest) ==
      if i >= |s.policies| || !s.policies[i].live then None
      else if s.policies[i].status in {CANCELLED, EXPIRED} then Some(s)
      else
        var policy := s.policies[i];
        if Unlockable(s, policy.pool, policy.coverage) && rest
        then Some(Store(
          MoveLocked(s.pools, policy.pool, -policy.coverage),
          s.policies[i := Policy(policy.user, policy.pool, policy.coverage, status, policy.endDate, policy.live)], s.claims))
        else None
  {
  }

  /** Filing adds exactly one pending claim of this policy and amount, under a live policy, whatever the amount. */
  lemma FilingEffect(s: Store, i: nat, amount: int, rest: bool)
    ensures ClaimCreated(s, i, amount, rest) ==
      if i < |s.policies| && s.policies[i].live && rest
      then Some(Store(s.pools, s.policies, s.claims + [Claim(i, amount, Pending, None, true)]))
      else None
  {
  }

  /** The tables with claim `c` moved to another status, its amount unlocked, and nothing else changed. */
  function Decided(s: Store, c: nat, status: ClaimStatus): Store
    requires Linked(s) && c < |s.claims| && s.policies[s.claims[c].policy].pool < |s.pools|
  {
    var claim := s.claims[c];
    Store(
      MoveLocked(s.pools, s.policies[claim.policy].pool, -claim.amount), s.policies,
      s.claims[c := Claim(claim.policy, claim.amount, status, claim.payout, claim.live)])
  }

  predicate Approvable(policy: Policy, amount: int, now: int, logged: bool) {
    policy.status == ACTIVE && 0 < amount <= policy.coverage && (policy.endDate == None || policy.endDate.value >= now) && logged
  }

  /** An assessment of a live pending claim approves with its own amount as payout, or rejects and unlocks, or aborts; any other live claim is left alone. */
  lemma AssessmentEffect(s: Store, c: nat, now: int, logged: bool, rest: bool)
    requires Linked(s)
    ensures Assessed(s, c, now, logged, rest) ==
      if c >= |s.claims| || !s.claims[c].live then None
      else if s.claims[c].status != Pending then Some(s)
      else
        var claim, policy := s.claims[c], s.policies[s.claims[c].policy];
        if Approvable(policy, claim.amount, now, logged)
        then (if rest then Some(Store(s.pools, s.policies, s.claims[c := Claim(claim.policy, claim.amount, Approved, Some(claim.amount), claim.live)])) else None)
        else if Unlockable(s, policy.pool, claim.amount) && rest then Some(Decided(s, c, Rejected)) else None
  {
  }

  /** A payment of a live unpaid claim marks it paid and unlocks its amount, or aborts; a paid one is left alone. */
  lemma PaymentEffect(s: Store, c: nat, rest: bool)
    requires Linked(s)
    ensures ClaimPaid(s, c, rest) ==
      if c >= |s.claims| || !s.claims[c].live then None
      else if s.claims[c].status == Paid then Some(s)
      else if Unlockable(s, s.policies[s.claims[c].policy].pool, s.claims[c].amount) && rest then Some(Decided(s, c, Paid)) else None
  {
  }

  /** Adding capital raises exactly this pool's capital. */
  lemma AdditionEffect(s: Store, p: nat, amount: int, rest: bool)
    ensures CapitalAdded(s, p, amount, rest) ==
      if amount > 0 && PoolIsLive(s, p) && rest
      then Some(Store(s.pools[p := Pool(s.pools[p].capital + amount, s.pools[p].locked, s.pools[p].live)], s.policies, s.claims))
      else None
  {
  }
}
