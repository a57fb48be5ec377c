/** Laws of the insurance tables over every run of committed and aborted transactions, soft deletes and restores. */
module InsuranceRuns {
  import opened Wrappers
  import opened Insurance

  datatype Step =
    | AddCapital(pool: nat, amount: int, rest: bool)
    | Purchase(user: string, pool: nat, coverage: int, rest: bool)
    | Cancel(policy: nat, rest: bool)
    | Expire(policy: nat, rest: bool)
    | FileClaim(policy: nat, amount: int, rest: bool)
    | Assess(claim: nat, now: int, logged: bool, rest: bool)
    | Pay(claim: nat, rest: bool)
    | ShowPool(pool: nat, live: bool)
    | ShowPolicy(policy: nat, live: bool)
    | ShowClaim(claim: nat, live: bool)

  /** What a step commits.  The `Show` steps are soft deletes and restores. */
  function Attempt(s: Store, step: Step): Option<Store>
    requires Linked(s)
  {
    match step
    case AddCapital(p, amount, rest) => CapitalAdded(s, p, amount, rest)
    case Purchase(user, p, coverage, rest) =>
      (match Purchased(s, user, p, coverage, rest) case None => None case Some(done) => Some(done.0))
    case Cancel(i, rest) => PolicyClosed(s, i, CANCELLED, rest)
    case Expire(i, rest) => PolicyClosed(s, i, EXPIRED, rest)
    case FileClaim(i, amount, rest) => ClaimCreated(s, i, amount, rest)
    case Assess(c, now, logged, rest) => Assessed(s, c, now, logged, rest)
    case Pay(c, rest) => ClaimPaid(s, c, rest)
    case ShowPool(p, live) => if p < |s.pools| then Some(WithPool(s, p, s.pools[p].(live := live))) else None
    case ShowPolicy(i, live) => if i < |s.policies| then Some(WithPolicy(s, i, s.policies[i].(live := live))) else None
    case ShowClaim(c, live) => if c < |s.claims| then Some(WithClaim(s, c, s.claims[c].(live := live))) else None
  }

  /* ---- what rows keep ---- */

  function Rank(status: ClaimStatus): nat {
    match status
    case Pending => 0
    case Paid => 2
    case _ => 1
  }

  predicate PolicyKept(a: Policy, b: Policy) {
    a.pool == b.pool && a.coverage == b.coverage && a.user == b.user && (Closed(a.status) ==> b.status == a.status)
  }

  predicate ClaimKept(a: Claim, b: Claim) {
    a.policy == b.policy && a.amount == b.amount && (a.status == b.status || Rank(a.status) < Rank(b.status))
  }

  /** Rows stay; a policy keeps its owner, pool and coverage and stays closed once closed; a claim's status only climbs. */
  predicate Grown(s: Store, t: Store) {
    && |t.pools| == |s.pools| && |s.policies| <= |t.policies| && |s.claims| <= |t.claims|
    && (forall i | 0 <= i < |s.policies| :: PolicyKept(s.policies[i], t.policies[i]))
    && (forall c | 0 <= c < |s.claims| :: ClaimKept(s.claims[c], t.claims[c]))
  }

  /** New rows reference rows, too. */
  predicate NewLinked(s: Store, t: Store) {
    && (forall i | |s.policies| <= i < |t.policies| :: t.policies[i].pool < |t.pools|)
    && (forall c | |s.claims| <= c < |t.claims| :: t.claims[c].policy < |t.policies|)
  }

  lemma GrownLinked(s: Store, t: Store)
    requires Linked(s) && Grown(s, t) && NewLinked(s, t)
    ensures Linked(t)
  {
    forall i | 0 <= i < |t.policies| ensures t.policies[i].pool < |t.pools| {
      if i < |s.policies| { assert PolicyKept(s.policies[i], t.policies[i]); }
    }
    forall c | 0 <= c < |t.claims| ensures t.claims[c].policy < |t.policies| {
      if c < |s.claims| { assert ClaimKept(s.claims[c], t.claims[c]); }
    }
  }

  lemma PurchaseGrows(s: Store, user: string, pool: nat, coverage: int, rest: bool)
    requires Purchased(s, user, pool, coverage, rest).Some?
    ensures var t := Purchased(s, user, pool, coverage, rest).value.0; Grown(s, t) && NewLinked(s, t)
  {
  }

  lemma CloseGrows(s: Store, i: nat, status: PolicyStatus, rest: bool)
    requires PolicyClosed(s, i, status, rest).Some?
    ensures var t := PolicyClosed(s, i, status, rest).value; Grown(s, t) && NewLinked(s, t)
  {
  }

  lemma ReleaseGrows(s: Store, c: nat, status: ClaimStatus, rest: bool)
    requires Linked(s) && c < |s.claims| && Rank(s.claims[c].status) < Rank(status) && ClaimReleased(s, c, status, rest).Some?
    ensures var t := ClaimReleased(s, c, status, rest).value; Grown(s, t) && NewLinked(s, t)
  {
  }

  lemma AttemptGrows(s: Store, step: Step)
    requires Linked(s)
    ensures var t := Attempt(s, step).GetOr(s); Grown(s, t) && NewLinked(s, t)
  {
    hide Purchased, PolicyClosed, ClaimReleased;
    if Attempt(s, step).Some? {
      match step
      case Purchase(user, p, coverage, rest) => PurchaseGrows(s, user, p, coverage, rest);
      case Cancel(i, rest) => CloseGrows(s, i, CANCELLED, rest);
      case Expire(i, rest) => CloseGrows(s, i, EXPIRED, rest);
      case Assess(c, now, logged, rest) => if ClaimReleased(s, c, Rejected, rest).Some? && s.claims[c].status == Pending { ReleaseGrows(s, c, Rejected, rest); }
      case Pay(c, rest) => if s.claims[c].status != Paid { ReleaseGrows(s, c, Paid, rest); }
      case _ =>
    }
  }

  /** An aborted step leaves the tables as they were. */
  function After(s: Store, step: Step): (t: Store)
    requires Linked(s)
    ensures Linked(t)
  {
    AttemptGrows(s, step);
    GrownLinked(s, Attempt(s, step).GetOr(s));
    Attempt(s, step).GetOr(s)
  }

  function Run(s: Store, steps: seq<Step>): (t: Store)
    requires Linked(s)
    ensures Linked(t)
    decreases |steps|
  {
    if steps == [] then s else Run(After(s, steps[0]), steps[1..])
  }

  lemma AfterGrown(s: Store, step: Step)
    requires Linked(s)
    ensures Grown(s, After(s, step))
  {
    hide Grown, Attempt, NewLinked;
    AttemptGrows(s, step);
  }

  /** Over any run, claim statuses only climb: PENDING, then APPROVED or REJECTED, then PAID. */
  lemma {:induction false} RunGrown(s: Store, steps: seq<Step>)
    requires Linked(s)
    ensures Grown(s, Run(s, steps))
    decreases |steps|
  {
    if steps != [] {
      AfterGrown(s, steps[0]);
      RunGrown(After(s, steps[0]), steps[1..]);
    }
  }

  /* ---- histories of one claim ---- */

  predicate Enters(s: Store, t: Store, c: nat, status: ClaimStatus) {
    c < |t.claims| && t.claims[c].status == status && (c < |s.claims| ==> s.claims[c].status != status)
  }

  /** Some step of the run moves the claim into the status. */
  predicate EverEnters(s: Store, steps: seq<Step>, c: nat, status: ClaimStatus)
    requires Linked(s)
    decreases |steps|
  {
    steps != [] && (Enters(s, After(s, steps[0]), c, status) || EverEnters(After(s, steps[0]), steps[1..], c, status))
  }

  function StatusChanges(s: Store, steps: seq<Step>, c: nat): nat
    requires Linked(s)
    decreases |steps|
  {
    if steps == [] then 0
    else
      var t := After(s, steps[0]);
      (if c < |s.claims| && c < |t.claims| && t.claims[c].status != s.claims[c].status then 1 else 0) + StatusChanges(t, steps[1..], c)
  }

  function RankOf(s: Store, c: nat): nat {
    if c < |s.claims| then Rank(s.claims[c].status) else 0
  }

  /** A claim changes status at most twice. */
  lemma {:induction false} AtMostTwoChanges(s: Store, steps: seq<Step>, c: nat)
    requires Linked(s)
    ensures StatusChanges(s, steps, c) <= 2 - RankOf(s, c)
    decreases |steps|
  {
    hide After;
    if steps != [] {
      AfterGrown(s, steps[0]);
      AtMostTwoChanges(After(s, steps[0]), steps[1..], c);
    }
  }

  lemma {:induction false} NeverReenters(s: Store, steps: seq<Step>, c: nat, status: ClaimStatus)
    requires Linked(s) && c < |s.claims| && Rank(s.claims[c].status) >= Rank(status)
    ensures !EverEnters(s, steps, c, status)
    decreases |steps|
  {
    hide After;
    if steps != [] {
      AfterGrown(s, steps[0]);
      NeverReenters(After(s, steps[0]), steps[1..], c, status);
    }
  }

  /* ---- sums over rows ---- */

  function Total(n: nat, f: nat -> int): int {
    if n == 0 then 0 else Total(n - 1, f) + f(n - 1)
  }

  lemma {:induction false} TotalAdds(n: nat, f: nat -> int, g: nat -> int, h: nat -> int)
    requires forall i: nat | i < n :: h(i) == f(i) + g(i)
    ensures Total(n, h) == Total(n, f) + Total(n, g)
  {
    if n > 0 { TotalAdds(n - 1, f, g, h); }
  }

  lemma {:induction false} TotalSame(n: nat, f: nat -> int, g: nat -> int)
    requires forall i: nat | i < n :: f(i) == g(i)
    ensures Total(n, f) == Total(n, g)
  {
    if n > 0 { TotalSame(n - 1, f, g); }
  }

  lemma {:induction false} TotalChanges(n: nat, f: nat -> int, g: nat -> int, k: nat)
    requires k < n && forall i: nat | i < n && i != k :: f(i) == g(i)
    ensures Total(n, g) == Total(n, f) + g(k) - f(k)
  {
    if k == n - 1 { TotalSame(n - 1, f, g); } else { TotalChanges(n - 1, f, g, k); }
  }

  lemma {:induction false} TotalNone(n: nat, f: nat -> int)
    requires forall i: nat | i < n :: f(i) == 0
    ensures Total(n, f) == 0
  {
    if n > 0 { TotalNone(n - 1, f); }
  }

  lemma {:induction false} TotalSign(n: nat, f: nat -> int)
    requires forall i: nat | i < n :: f(i) >= 0
    ensures Total(n, f) >= 0
    ensures Total(n, f) == 0 <==> forall i: nat | i < n :: f(i) == 0
  {
    if n > 0 {
      TotalSign(n - 1, f);
      if Total(n, f) == 0 {
        forall i: nat | i < n ensures f(i) == 0 { }
      }
    }
  }

  /* ---- conservation of locked capital ---- */

  function CoverOf(s: Store, p: nat, i: nat): int {
    if i < |s.policies| && s.policies[i].pool == p && !Closed(s.policies[i].status) then s.policies[i].coverage else 0
  }

  function Covers(s: Store, p: nat): nat -> int {
    (i: nat) => CoverOf(s, p, i)
  }

  /** Coverage of the pool's policies that are neither cancelled nor expired. */
  function OpenCover(s: Store, p: nat): int {
    Total(|s.policies|, Covers(s, p))
  }

  predicate ClaimOfPool(s: Store, p: nat, c: nat) {
    c < |s.claims| && s.claims[c].policy < |s.policies| && s.policies[s.claims[c].policy].pool == p
  }

  /** What one step takes from the pool on account of claim `c`. */
  function StepShare(s: Store, t: Store, p: nat, c: nat): int {
    if !ClaimOfPool(t, p, c) then 0
    else (if Enters(s, t, c, Rejected) then t.claims[c].amount else 0) + (if Enters(s, t, c, Paid) then t.claims[c].amount else 0)
  }

  function StepShares(s: Store, t: Store, p: nat): nat -> int {
    (c: nat) => StepShare(s, t, p, c)
  }

  /** The claim's amount once if the run ever rejected it and once more if the run paid it. */
  function Share(s: Store, steps: seq<Step>, p: nat, c: nat): int
    requires Linked(s)
  {
    var t := Run(s, steps);
    if !ClaimOfPool(t, p, c) then 0
    else
      (if EverEnters(s, steps, c, Rejected) then t.claims[c].amount else 0) +
      (if EverEnters(s, steps, c, Paid) then t.claims[c].amount else 0)
  }

  function Shares(s: Store, steps: seq<Step>, p: nat): nat -> int
    requires Linked(s)
  {
    (c: nat) => Share(s, steps, p, c)
  }

  function Released(s: Store, steps: seq<Step>, p: nat): int
    requires Linked(s)
  {
    Total(|Run(s, steps).claims|, Shares(s, steps, p))
  }

  lemma CoverAppended(s: Store, t: Store, p: nat)
    requires |t.policies| == |s.policies| + 1 && t.policies[..|s.policies|] == s.policies
    ensures OpenCover(t, p) == OpenCover(s, p) + CoverOf(t, p, |s.policies|)
  {
    assert forall i | 0 <= i < |s.policies| :: t.policies[i] == t.policies[..|s.policies|][i];
    TotalSame(|s.policies|, Covers(s, p), Covers(t, p));
  }

  lemma CoverReplaced(s: Store, t: Store, p: nat, k: nat)
    requires k < |s.policies| == |t.policies| && forall i | 0 <= i < |s.policies| && i != k :: t.policies[i] == s.policies[i]
    ensures OpenCover(t, p) == OpenCover(s, p) + CoverOf(t, p, k) - CoverOf(s, p, k)
  {
    TotalChanges(|s.policies|, Covers(s, p), Covers(t, p), k);
  }

  /** Without a claim entering REJECTED or PAID nothing is released. */
  lemma NoShares(s: Store, t: Store, p: nat, n: nat)
    requires |s.claims| <= |t.claims|
    requires forall c | 0 <= c < |s.claims| :: t.claims[c].status == s.claims[c].status
    requires forall c | |s.claims| <= c < |t.claims| :: t.claims[c].status == Pending
    ensures Total(n, StepShares(s, t, p)) == 0
  {
    TotalNone(n, StepShares(s, t, p));
  }

  lemma OneShare(s: Store, t: Store, p: nat, c: nat, n: nat)
    requires c < |s.claims| == |t.claims| && c < n
    requires forall k | 0 <= k < |s.claims| && k != c :: t.claims[k] == s.claims[k]
    ensures Total(n, StepShares(s, t, p)) == StepShare(s, t, p, c)
  {
    var zero := (c: nat) => 0;
    TotalNone(n, zero);
    TotalChanges(n, zero, StepShares(s, t, p), c);
  }

  lemma SamePolicies(s: Store, t: Store, p: nat)
    requires t.policies == s.policies
    ensures OpenCover(t, p) == OpenCover(s, p)
  {
    TotalSame(|s.policies|, Covers(s, p), Covers(t, p));
  }

  lemma PurchaseConserves(s: Store, user: string, pool: nat, coverage: int, rest: bool, p: nat)
    requires Linked(s) && p < |s.pools| && Purchased(s, user, pool, coverage, rest).Some?
    ensures var t := Purchased(s, user, pool, coverage, rest).value.0;
      t.claims == s.claims && |t.pools| == |s.pools| &&
      t.pools[p].locked - OpenCover(t, p) == s.pools[p].locked - OpenCover(s, p)
  {
    hide OpenCover;
    var t := Purchased(s, user, pool, coverage, rest).value.0;
    if t != s {
      assert t.policies[..|s.policies|] == s.policies;
      CoverAppended(s, t, p);
    }
  }

  lemma CloseConserves(s: Store, i: nat, status: PolicyStatus, rest: bool, p: nat)
    requires Linked(s) && p < |s.pools| && PolicyClosed(s, i, status, rest).Some? && Closed(status)
    ensures var t := PolicyClosed(s, i, status, rest).value;
      t.claims == s.claims && |t.pools| == |s.pools| &&
      t.pools[p].locked - OpenCover(t, p) == s.pools[p].locked - OpenCover(s, p)
  {
    hide OpenCover;
    var t := PolicyClosed(s, i, status, rest).value;
    if t != s {
      CoverReplaced(s, t, p, i);
    }
  }

  lemma ReleaseConserves(s: Store, c: nat, status: ClaimStatus, rest: bool, p: nat, n: nat)
    requires Linked(s) && p < |s.pools| && c < |s.claims| <= n && ClaimReleased(s, c, status, rest).Some?
    requires (status == Rejected && s.claims[c].status == Pending) || (status == Paid && s.claims[c].status != Paid)
    ensures var t := ClaimReleased(s, c, status, rest).value;
      |t.pools| == |s.pools| &&
      t.pools[p].locked - OpenCover(t, p) == s.pools[p].locked - OpenCover(s, p) - Total(n, StepShares(s, t, p))
  {
    hide OpenCover, Total, StepShares;
    var t := ClaimReleased(s, c, status, rest).value;
    SamePolicies(s, t, p);
    OneShare(s, t, p, c, n);
  }

  lemma ShowConserves(s: Store, step: Step, p: nat, n: nat)
    requires Linked(s) && p < |s.pools| && (step.ShowPool? || step.ShowPolicy? || step.ShowClaim? || step.AddCapital? || step.FileClaim?)
    ensures var t := After(s, step);
      |t.pools| == |s.pools| &&
      t.pools[p].locked - OpenCover(t, p) == s.pools[p].locked - OpenCover(s, p) - Total(n, StepShares(s, t, p))
  {
    hide OpenCover, Total, StepShares;
    var t := After(s, step);
    NoShares(s, t, p, n);
    if step.ShowPolicy? && step.policy < |s.policies| {
      CoverReplaced(s, t, p, step.policy);
    } else {
      SamePolicies(s, t, p);
    }
  }

  /** One step, committed or aborted. */
  lemma StepConserves(s: Store, step: Step, p: nat, n: nat)
    requires Linked(s) && p < |s.pools| && |s.claims| <= n
    ensures var t := After(s, step);
      |t.pools| == |s.pools| &&
      t.pools[p].locked - OpenCover(t, p) == s.pools[p].locked - OpenCover(s, p) - Total(n, StepShares(s, t, p))
  {
    hide OpenCover, Total, StepShares, Purchased, PolicyClosed, ClaimReleased;
    var t := After(s, step);
    if t.claims == s.claims || Attempt(s, step).None? { NoShares(s, t, p, n); }
    match step
    case Purchase(user, pool, coverage, rest) =>
      if Attempt(s, step).Some? { PurchaseConserves(s, user, pool, coverage, rest, p); }
    case Cancel(i, rest) => if Attempt(s, step).Some? { CloseConserves(s, i, CANCELLED, rest, p); }
    case Expire(i, rest) => if Attempt(s, step).Some? { CloseConserves(s, i, EXPIRED, rest, p); }
    case Assess(c, now, logged, rest) => AssessConserves(s, c, now, logged, rest, p, n);
    case Pay(c, rest) =>
      if LiveClaim(s, c) && s.claims[c].status != Paid && ClaimReleased(s, c, Paid, rest).Some? {
        ReleaseConserves(s, c, Paid, rest, p, n);
      }
    case _ => ShowConserves(s, step, p, n);
  }

  lemma AssessConserves(s: Store, c: nat, now: int, logged: bool, rest: bool, p: nat, n: nat)
    requires Linked(s) && p < |s.pools| && |s.claims| <= n
    ensures var t := Assessed(s, c, now, logged, rest).GetOr(s);
      |t.pools| == |s.pools| &&
      t.pools[p].locked - OpenCover(t, p) == s.pools[p].locked - OpenCover(s, p) - Total(n, StepShares(s, t, p))
  {
    hide OpenCover, Total, StepShares, ClaimReleased;
    var t := Assessed(s, c, now, logged, rest).GetOr(s);
    if t == s {
      NoShares(s, t, p, n);
    } else if t == ClaimReleased(s, c, Rejected, rest).GetOr(s) {
      ReleaseConserves(s, c, Rejected, rest, p, n);
    } else {
      SamePolicies(s, t, p);
      OneShare(s, t, p, c, n);
    }
  }

  lemma SharesAdd(s: Store, steps: seq<Step>, p: nat, c: nat)
    requires Linked(s) && steps != [] && c < |Run(s, steps).claims|
    ensures Share(s, steps, p, c) == StepShare(s, After(s, steps[0]), p, c) + Share(After(s, steps[0]), steps[1..], p, c)
  {
    hide After;
    var t := After(s, steps[0]);
    AfterGrown(s, steps[0]);
    RunGrown(t, steps[1..]);
    if Enters(s, t, c, Rejected) { NeverReenters(t, steps[1..], c, Rejected); }
    if Enters(s, t, c, Paid) { NeverReenters(t, steps[1..], c, Paid); }
    if c >= |t.claims| { assert !Enters(s, t, c, Rejected) && !Enters(s, t, c, Paid); }
  }

  lemma {:induction false} LockedTracksCover(s: Store, steps: seq<Step>, p: nat)
    requires Linked(s) && p < |s.pools|
    ensures var t := Run(s, steps);
      |t.pools| == |s.pools| && t.pools[p].locked - OpenCover(t, p) == s.pools[p].locked - OpenCover(s, p) - Released(s, steps, p)
    decreases |steps|
  {
    hide After, OpenCover, Total, StepShare, Share;
    if steps == [] {
      forall c: nat | c < |s.claims| ensures Share(s, [], p, c) == 0 { ShareOfNothing(s, p, c); }
      TotalNone(|s.claims|, Shares(s, [], p));
    } else {
      var t, rest := After(s, steps[0]), steps[1..];
      var n := |Run(t, rest).claims|;
      AfterGrown(s, steps[0]);
      RunGrown(t, rest);
      StepConserves(s, steps[0], p, n);
      LockedTracksCover(t, rest, p);
      forall c: nat | c < n ensures Share(s, steps, p, c) == StepShare(s, t, p, c) + Share(t, rest, p, c) { SharesAdd(s, steps, p, c); }
      TotalAdds(n, StepShares(s, t, p), Shares(t, rest, p), Shares(s, steps, p));
    }
  }

  lemma ShareOfNothing(s: Store, p: nat, c: nat)
    requires Linked(s)
    ensures Share(s, [], p, c) == 0
  {
  }

  /* Policies bought since `s` and still open in `t`, and policies open in `s` and closed since. */

  function BoughtOpen(s: Store, t: Store, p: nat): nat -> int {
    (i: nat) => if i >= |s.policies| then CoverOf(t, p, i) else 0
  }

  function ClosedSince(s: Store, t: Store, p: nat): nat -> int {
    (i: nat) => if i < |s.policies| && i < |t.policies| && Closed(t.policies[i].status) then CoverOf(s, p, i) else 0
  }

  lemma {:induction false} TotalBeyond(m: nat, n: nat, f: nat -> int)
    requires m <= n && forall i: nat | m <= i < n :: f(i) == 0
    ensures Total(n, f) == Total(m, f)
  {
    if m < n { TotalBeyond(m, n - 1, f); }
  }

  lemma CoverSplits(s: Store, t: Store, p: nat)
    requires Grown(s, t)
    ensures OpenCover(t, p) == OpenCover(s, p) + Total(|t.policies|, BoughtOpen(s, t, p)) - Total(|t.policies|, ClosedSince(s, t, p))
  {
    var n := |t.policies|;
    var left := (i: nat) => CoverOf(t, p, i) + ClosedSince(s, t, p)(i);
    TotalAdds(n, Covers(t, p), ClosedSince(s, t, p), left);
    TotalAdds(n, Covers(s, p), BoughtOpen(s, t, p), left);
    TotalBeyond(|s.policies|, n, Covers(s, p));
  }

  /**
    Over every run of committed and aborted transactions a pool's locked capital is its initial value, plus the coverage of
    the policies bought in the run and still open, minus the coverage of initial policies closed in the run, minus each
    claim's amount once if the run ever rejected it and once more if the run paid it.
  */
  lemma Conservation(s: Store, steps: seq<Step>, p: nat)
    requires Linked(s) && p < |s.pools|
    ensures var t := Run(s, steps);
      && |t.pools| == |s.pools|
      && t.pools[p].locked ==
        s.pools[p].locked + Total(|t.policies|, BoughtOpen(s, t, p)) - Total(|t.policies|, ClosedSince(s, t, p)) - Released(s, steps, p)
  {
    hide OpenCover, Total, Released, BoughtOpen, ClosedSince;
    LockedTracksCover(s, steps, p);
    RunGrown(s, steps);
    CoverSplits(s, Run(s, steps), p);
  }

  /** Entering REJECTED or PAID needs a positive amount. */
  lemma EnterPositive(s: Store, step: Step, c: nat)
    requires Linked(s) && (Enters(s, After(s, step), c, Rejected) || Enters(s, After(s, step), c, Paid))
    ensures c < |s.claims| && s.claims[c].amount > 0
  {
  }

  lemma {:induction false} EverEnterPositive(s: Store, steps: seq<Step>, c: nat)
    requires Linked(s) && (EverEnters(s, steps, c, Rejected) || EverEnters(s, steps, c, Paid))
    ensures c < |Run(s, steps).claims| && Run(s, steps).claims[c].amount > 0
    decreases |steps|
  {
    hide After;
    var t := After(s, steps[0]);
    AfterGrown(s, steps[0]);
    RunGrown(t, steps[1..]);
    if Enters(s, t, c, Rejected) || Enters(s, t, c, Paid) {
      EnterPositive(s, steps[0], c);
    } else {
      EverEnterPositive(t, steps[1..], c);
    }
  }

  predicate Decided(s: Store, steps: seq<Step>, p: nat, c: nat)
    requires Linked(s)
  {
    ClaimOfPool(Run(s, steps), p, c) && (EverEnters(s, steps, c, Rejected) || EverEnters(s, steps, c, Paid))
  }

  lemma ShareSign(s: Store, steps: seq<Step>, p: nat, c: nat)
    requires Linked(s)
    ensures Share(s, steps, p, c) >= 0
    ensures Share(s, steps, p, c) > 0 <==> Decided(s, steps, p, c)
  {
    if EverEnters(s, steps, c, Rejected) || EverEnters(s, steps, c, Paid) {
      EverEnterPositive(s, steps, c);
    }
  }

  lemma ReleasedSign(s: Store, steps: seq<Step>, p: nat)
    requires Linked(s)
    ensures Released(s, steps, p) == 0 <==> forall c: nat | c < |Run(s, steps).claims| :: !Decided(s, steps, p, c)
  {
    hide Total, Share, Run, Decided;
    var n, f := |Run(s, steps).claims|, Shares(s, steps, p);
    forall c: nat | c < n ensures f(c) >= 0 && (f(c) > 0 <==> Decided(s, steps, p, c)) {
      ShareSign(s, steps, p, c);
    }
    TotalSign(n, f);
    assert forall c: nat | c < n :: f(c) == 0 <==> !Decided(s, steps, p, c);
  }

  /**
    Locked capital that starts equal to the pool's open coverage ends equal to it exactly when the run neither rejected nor
    paid any claim of the pool: every claim decision releases capital that its policy's own closing releases again.
  */
  lemma BackedUnlessDecided(s: Store, steps: seq<Step>, p: nat)
    requires Linked(s) && p < |s.pools| && s.pools[p].locked == OpenCover(s, p)
    ensures var t := Run(s, steps);
      |t.pools| == |s.pools| &&
      (t.pools[p].locked == OpenCover(t, p) <==>
        forall c: nat | c < |t.claims| :: !Decided(s, steps, p, c))
  {
    hide OpenCover, Released, Run, Decided;
    LockedTracksCover(s, steps, p);
    ReleasedSign(s, steps, p);
  }

  /** What the run's committed additions put into the pool. */
  function Added(s: Store, steps: seq<Step>, p: nat): int
    requires Linked(s)
    decreases |steps|
  {
    if steps == [] then 0
    else
      var x := steps[0];
      (if x.AddCapital? && x.pool == p && x.amount > 0 && x.rest && LivePool(s, p) then x.amount else 0) + Added(After(s, x), steps[1..], p)
  }

  lemma StepKeepsCapital(s: Store, x: Step, p: nat)
    requires Linked(s) && p < |s.pools|
    ensures p < |After(s, x).pools|
    ensures After(s, x).pools[p].capital ==
      s.pools[p].capital + if x.AddCapital? && x.pool == p && x.amount > 0 && x.rest && LivePool(s, p) then x.amount else 0
  {
  }

  /** No policy, claim or payment changes what a pool owns. */
  lemma {:induction false} CapitalOnlyAdded(s: Store, steps: seq<Step>, p: nat)
    requires Linked(s) && p < |s.pools|
    ensures p < |Run(s, steps).pools|
    ensures Run(s, steps).pools[p].capital == s.pools[p].capital + Added(s, steps, p)
    decreases |steps|
  {
    hide After;
    if steps != [] {
      StepKeepsCapital(s, steps[0], p);
      CapitalOnlyAdded(After(s, steps[0]), steps[1..], p);
    }
  }

  /* ---- invariants ---- */

  /** At most one live ACTIVE or PENDING policy per user and pool. */
  predicate OneOpenPolicy(s: Store) {
    forall i, j | 0 <= i < j < |s.policies| && Blocks(s.policies[i], s.policies[i].user, s.policies[i].pool) ::
      !Blocks(s.policies[j], s.policies[i].user, s.policies[i].pool)
  }

  /** An approved claim pays its own positive amount, within the coverage of its policy. */
  predicate ApprovalsCovered(s: Store)
    requires Linked(s)
  {
    forall c | 0 <= c < |s.claims| && s.claims[c].status == Approved ::
      s.claims[c].payout == Some(s.claims[c].amount) && 0 < s.claims[c].amount <= s.policies[s.claims[c].policy].coverage
  }

  /** Restoring a soft-deleted policy. */
  predicate Restores(step: Step) {
    step.ShowPolicy? && step.live
  }

  lemma PurchaseKeepsOne(s: Store, user: string, pool: nat, coverage: int, rest: bool)
    requires Linked(s) && OneOpenPolicy(s) && Purchased(s, user, pool, coverage, rest).Some?
    ensures var (t, i) := Purchased(s, user, pool, coverage, rest).value;
      OneOpenPolicy(t) && i < |t.policies| && Blocks(t.policies[i], user, pool)
  {
    FindBlockingIs(s.policies, user, pool);
  }

  lemma StepKeepsOne(s: Store, step: Step)
    requires Linked(s) && OneOpenPolicy(s) && !Restores(step)
    ensures OneOpenPolicy(After(s, step))
  {
    hide Purchased;
    match step
    case Purchase(user, pool, coverage, rest) =>
      if Attempt(s, step).Some? { PurchaseKeepsOne(s, user, pool, coverage, rest); }
    case _ =>
  }

  /** A restore keeps the rule exactly when the restored policy is closed or inactive, or nobody bought again meanwhile. */
  lemma RestoreKeepsOne(s: Store, i: nat)
    requires Linked(s) && OneOpenPolicy(s) && i < |s.policies| && !s.policies[i].live
    ensures OneOpenPolicy(After(s, ShowPolicy(i, true))) <==>
      !(s.policies[i].status == ACTIVE || s.policies[i].status == PENDING) ||
      forall j | 0 <= j < |s.policies| :: !Blocks(s.policies[j], s.policies[i].user, s.policies[i].pool)
  {
    var t := After(s, ShowPolicy(i, true));
    var (user, pool) := (s.policies[i].user, s.policies[i].pool);
    if j :| 0 <= j < |s.policies| && Blocks(s.policies[j], user, pool) {
      assert t.policies[j] == s.policies[j] && t.policies[i] == s.policies[i].(live := true);
      if j < i { assert Blocks(t.policies[j], user, pool); } else { assert Blocks(t.policies[j], user, pool); }
    }
  }

  lemma StepKeepsApprovals(s: Store, step: Step)
    requires Linked(s) && ApprovalsCovered(s)
    ensures ApprovalsCovered(After(s, step))
  {
    hide ApprovalsCovered, After, Purchased, PolicyClosed, Assessed, ClaimPaid, ClaimCreated;
    var t := After(s, step);
    AfterGrown(s, step);
    forall c | 0 <= c < |t.claims|
      ensures !NewlyApproved(s, t, c) || ApprovedWell(t, c)
    {
      if NewlyApproved(s, t, c) { NewApproval(s, step, c); }
    }
    ApprovalsStay(s, t);
  }

  predicate NewlyApproved(s: Store, t: Store, c: nat)
    requires c < |t.claims|
  {
    t.claims[c].status == Approved && (c >= |s.claims| || s.claims[c] != t.claims[c].(live := s.claims[c].live))
  }

  predicate ApprovedWell(t: Store, c: nat)
    requires Linked(t) && c < |t.claims|
  {
    t.claims[c].payout == Some(t.claims[c].amount) && 0 < t.claims[c].amount <= t.policies[t.claims[c].policy].coverage
  }

  lemma ApprovalsStay(s: Store, t: Store)
    requires Linked(s) && Linked(t) && Grown(s, t) && ApprovalsCovered(s)
    requires forall c | 0 <= c < |t.claims| :: !NewlyApproved(s, t, c) || ApprovedWell(t, c)
    ensures ApprovalsCovered(t)
  {
    forall c | 0 <= c < |t.claims| && t.claims[c].status == Approved
      ensures t.claims[c].payout == Some(t.claims[c].amount) && 0 < t.claims[c].amount <= t.policies[t.claims[c].policy].coverage
    {
      assert !NewlyApproved(s, t, c) || ApprovedWell(t, c);
      if !NewlyApproved(s, t, c) { assert ClaimKept(s.claims[c], t.claims[c]) && PolicyKept(s.policies[s.claims[c].policy], t.policies[s.claims[c].policy]); }
    }
  }

  /** Only an assessment approves, and only within coverage. */
  lemma NewApproval(s: Store, step: Step, c: nat)
    requires Linked(s) && c < |After(s, step).claims| && NewlyApproved(s, After(s, step), c)
    ensures ApprovedWell(After(s, step), c)
  {
    hide Linked;
  }

  /** Both rules hold in every state of every run without policy restores from tables that keep them, such as empty ones. */
  lemma {:induction false} RunKeepsRules(s: Store, steps: seq<Step>)
    requires Linked(s) && ApprovalsCovered(s)
    ensures ApprovalsCovered(Run(s, steps))
    ensures OneOpenPolicy(s) && (forall k | 0 <= k < |steps| :: !Restores(steps[k])) ==> OneOpenPolicy(Run(s, steps))
    decreases |steps|
  {
    hide After, ApprovalsCovered, OneOpenPolicy;
    if steps != [] {
      StepKeepsApprovals(s, steps[0]);
      if OneOpenPolicy(s) && !Restores(steps[0]) { StepKeepsOne(s, steps[0]); }
      RunKeepsRules(After(s, steps[0]), steps[1..]);
    }
  }

  /* ---- single transactions ---- */

  /**
    Closing a policy moves the tables exactly when the policy is live and not closed, its pool is live, its coverage is
    positive and the pool is not left with more locked than it owns.
  */
  lemma CloseEffective(s: Store, i: nat, status: PolicyStatus, rest: bool)
    requires Linked(s) && Closed(status)
    ensures (PolicyClosed(s, i, status, rest).Some? && PolicyClosed(s, i, status, rest).value != s) <==>
      (&& rest && LivePolicy(s, i) && !Closed(s.policies[i].status) && s.policies[i].coverage > 0
       && LivePool(s, s.policies[i].pool)
       && s.pools[s.policies[i].pool].locked - s.policies[i].coverage <= s.pools[s.policies[i].pool].capital)
  {
    if LivePolicy(s, i) && PolicyClosed(s, i, status, rest).Some? && !Closed(s.policies[i].status) {
      assert PolicyClosed(s, i, status, rest).value.policies[i].status == status;
    }
  }

  /** In a run a cancellation leaves CANCELLED and an expiry EXPIRED, whenever they change the policy at all. */
  lemma ClosingSteps(s: Store, i: nat, rest: bool)
    requires Linked(s) && i < |s.policies|
    ensures After(s, Cancel(i, rest)) == s || After(s, Cancel(i, rest)).policies == s.policies[i := s.policies[i].(status := CANCELLED)]
    ensures After(s, Expire(i, rest)) == s || After(s, Expire(i, rest)).policies == s.policies[i := s.policies[i].(status := EXPIRED)]
  {
  }

  /** A purchase adds a policy exactly when nothing blocks it and its pool is live; capacity is not asked for. */
  lemma PurchaseAccepts(s: Store, user: string, pool: nat, coverage: int, rest: bool)
    ensures (Purchased(s, user, pool, coverage, rest).Some? && Purchased(s, user, pool, coverage, rest).value.0 != s) <==>
      (&& rest && user != "" && coverage > 0 && LivePool(s, pool)
       && forall i | 0 <= i < |s.policies| :: !Blocks(s.policies[i], user, pool))
  {
    FindBlockingIs(s.policies, user, pool);
    if rest && user != "" && coverage > 0 && LivePool(s, pool) && FindBlocking(s.policies, user, pool).None? {
      assert |Purchased(s, user, pool, coverage, rest).value.0.policies| == |s.policies| + 1;
    }
  }

  /** The condition for approving a claim of this policy. */
  predicate Payable(policy: Policy, claim: Claim, now: int) {
    policy.status == ACTIVE && 0 < claim.amount <= policy.coverage && (policy.endDate.Some? ==> now <= policy.endDate.value)
  }

  /** A pending claim is approved exactly when it is payable and the check could be logged; otherwise the assessment rejects or aborts. */
  lemma AssessmentDecides(s: Store, c: nat, now: int, logged: bool, rest: bool)
    requires Linked(s) && LiveClaim(s, c) && s.claims[c].status == Pending
    ensures var policy := s.policies[s.claims[c].policy];
      var r := Assessed(s, c, now, logged, rest);
      && (r.Some? && r.value.claims[c].status == Approved <==> rest && logged && Payable(policy, s.claims[c], now))
      && (r.Some? && r.value.claims[c].status == Rejected <==>
            rest && !(logged && Payable(policy, s.claims[c], now)) && CapitalUnlocked(s, policy.pool, s.claims[c].amount).Some?)
  {
  }

  /** A claim of no positive amount can be filed but never decided: both decisions abort. */
  lemma {:induction false} NonPositiveNeverDecided(s: Store, steps: seq<Step>, c: nat)
    requires Linked(s) && c < |s.claims| && s.claims[c].amount <= 0 && s.claims[c].status == Pending
    ensures c < |Run(s, steps).claims| && Run(s, steps).claims[c].status == Pending
    decreases |steps|
  {
    hide After;
    if steps != [] {
      NonPositiveStep(s, steps[0], c);
      NonPositiveNeverDecided(After(s, steps[0]), steps[1..], c);
    }
  }

  lemma NonPositiveStep(s: Store, step: Step, c: nat)
    requires Linked(s) && c < |s.claims| && s.claims[c].amount <= 0 && s.claims[c].status == Pending
    ensures var t := After(s, step); c < |t.claims| && t.claims[c].amount <= 0 && t.claims[c].status == Pending
  {
  }

  /** Payment asks nothing of the claim but that it is live and not paid: whenever the unlock passes, any other status is paid. */
  lemma PaymentAccepts(s: Store, c: nat, rest: bool)
    requires Linked(s)
    ensures (ClaimPaid(s, c, rest).Some? && ClaimPaid(s, c, rest).value != s) <==>
      (&& rest && LiveClaim(s, c) && s.claims[c].status != Paid
       && CapitalUnlocked(s, s.policies[s.claims[c].policy].pool, s.claims[c].amount).Some?)
  {
    if LiveClaim(s, c) && ClaimPaid(s, c, rest).Some? && s.claims[c].status != Paid {
      assert ClaimPaid(s, c, rest).value.claims[c].status == Paid;
    }
  }

  /** So every rejection that commits can be followed by a payment that commits, and the amount is released twice. */
  lemma RejectedThenPaid(s: Store, c: nat, now: int, logged: bool)
    requires Linked(s) && LiveClaim(s, c) && s.claims[c].status == Pending
    requires Assessed(s, c, now, logged, true).Some? && Assessed(s, c, now, logged, true).value.claims[c].status == Rejected
    ensures var t := Assessed(s, c, now, logged, true).value;
      var p := s.policies[s.claims[c].policy].pool;
      && Linked(t) && ClaimPaid(t, c, true).Some?
      && ClaimPaid(t, c, true).value.claims[c].status == Paid
      && p < |ClaimPaid(t, c, true).value.pools|
      && ClaimPaid(t, c, true).value.pools[p].locked == s.pools[p].locked - 2 * s.claims[c].amount
  {
    assert Assessed(s, c, now, logged, true) == ClaimReleased(s, c, Rejected, true);
  }
}
