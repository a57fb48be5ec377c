/**
  Decay-weighted reputation scores over the reals.  The power 2^x and the decimal logarithm are parameters, known by the
  laws `PowerOfTwo` and `Logarithm`.
*/
module ReputationScores {

  datatype Kind =
    | SuccessfulTransaction | FailedTransaction | PeerRating | CommunityReview
    | DisputeWon | DisputeLost | HighValueContribution

  datatype Activity = Activity(kind: Kind, value: real, occurredAt: int)

  const MillisPerDay := 86400000.0
  const HalfLifeDays := 180.0
  const ScaleCap := 10000.0
  const MinActivityThreshold := 5

  ghost predicate PowerOfTwo(p: real -> real) {
    && p(0.0) == 1.0 && p(1.0) == 2.0
    && (forall x, y :: p(x + y) == p(x) * p(y))
    && (forall x :: p(x) > 0.0)
    && (forall x, y :: x <= y ==> p(x) <= p(y))
  }

  ghost predicate Logarithm(l: real -> real) {
    && l(1.0) == 0.0 && l(10.0) == 1.0
    && (forall x, y :: 0.0 < x <= y ==> l(x) <= l(y))
  }

  function AgeDays(occurredAt: int, now: int): real {
    if now < occurredAt then 0.0 else (now - occurredAt) as real / MillisPerDay
  }

  function TimeDecayWeight(p: real -> real, occurredAt: int, now: int): real {
    p(-AgeDays(occurredAt, now) / HalfLifeDays)
  }

  function Only(kinds: Kind -> bool, acts: seq<Activity>): seq<Activity> {
    if acts == [] then [] else
    var earlier := Only(kinds, acts[..|acts| - 1]);
    if kinds(acts[|acts| - 1].kind) then earlier + [acts[|acts| - 1]] else earlier
  }

  /** Sum of `f` over the activities, each weighted by its decay. */
  function WeightedSum(p: real -> real, f: Activity -> real, acts: seq<Activity>, now: int): real {
    if acts == [] then 0.0 else
    var last := acts[|acts| - 1];
    WeightedSum(p, f, acts[..|acts| - 1], now) + f(last) * TimeDecayWeight(p, last.occurredAt, now)
  }

  function One(): Activity -> real { (a: Activity) => 1.0 }

  function Value(): Activity -> real { (a: Activity) => a.value }

  function Is(kind: Kind): Activity -> real { (a: Activity) => if a.kind == kind then 1.0 else 0.0 }

  function Clamp(x: real): real {
    if x < 0.0 then 0.0 else if x > 100.0 then 100.0 else x
  }

  /** The weighted mean of `f`, or `default` without weight. */
  function Mean(p: real -> real, f: Activity -> real, acts: seq<Activity>, now: int, default: real): real {
    var total := WeightedSum(p, One(), acts, now);
    if total == 0.0 then default else WeightedSum(p, f, acts, now) / total
  }

  function IsTransaction(): Kind -> bool { (k: Kind) => k == SuccessfulTransaction || k == FailedTransaction }

  function IsPeerRating(): Kind -> bool { (k: Kind) => k == PeerRating }

  function IsContribution(): Kind -> bool { (k: Kind) => k == SuccessfulTransaction || k == HighValueContribution }

  function IsReview(): Kind -> bool { (k: Kind) => k == CommunityReview }

  function IsDispute(): Kind -> bool { (k: Kind) => k == DisputeWon || k == DisputeLost }

  /** A share in [0, 1] as a score; without activities the neutral 50. */
  function ShareScore(p: real -> real, kind: Kind, acts: seq<Activity>, now: int): real {
    Clamp(Mean(p, Is(kind), acts, now, 0.5) * 100.0)
  }

  /** A mean rating from 1 to 5 as a score; without ratings the neutral 50. */
  function RatingScore(p: real -> real, acts: seq<Activity>, now: int): real {
    Clamp((Mean(p, Value(), acts, now, 3.0) - 1.0) / 4.0 * 100.0)
  }

  function SuccessRateScore(p: real -> real, acts: seq<Activity>, now: int): real {
    ShareScore(p, SuccessfulTransaction, Only(IsTransaction(), acts), now)
  }

  function PeerRatingScore(p: real -> real, acts: seq<Activity>, now: int): real {
    RatingScore(p, Only(IsPeerRating(), acts), now)
  }

  function ContributionSizeScore(p: real -> real, l: real -> real, acts: seq<Activity>, now: int): real
    requires l(1.0 + ScaleCap) != 0.0
  {
    var relevant := Only(IsContribution(), acts);
    if relevant == [] then 0.0
    else Clamp(l(1.0 + WeightedSum(p, Value(), relevant, now)) / l(1.0 + ScaleCap) * 100.0)
  }

  function CommunityFeedbackScore(p: real -> real, acts: seq<Activity>, now: int): real {
    var reviews, disputes := Only(IsReview(), acts), Only(IsDispute(), acts);
    var r, d := RatingScore(p, reviews, now), ShareScore(p, DisputeWon, disputes, now);
    if reviews == [] && disputes == [] then 50.0
    else if disputes == [] then r
    else if reviews == [] then d
    else r * 0.7 + d * 0.3
  }

  datatype Factors = Factors(success: real, peer: real, contribution: real, community: real)

  function FactorsOf(p: real -> real, l: real -> real, acts: seq<Activity>, now: int): Factors
    requires l(1.0 + ScaleCap) != 0.0
  {
    Factors(SuccessRateScore(p, acts, now), PeerRatingScore(p, acts, now),
      ContributionSizeScore(p, l, acts, now), CommunityFeedbackScore(p, acts, now))
  }

  /* ---- the calculators as they loop ---- */

  lemma WeightPositive(p: real -> real, occurredAt: int, now: int)
    requires PowerOfTwo(p)
    ensures 0.0 < TimeDecayWeight(p, occurredAt, now) <= 1.0
  {
    assert -AgeDays(occurredAt, now) / HalfLifeDays <= 0.0;
  }

  lemma {:induction false} TotalPositive(p: real -> real, acts: seq<Activity>, now: int)
    requires PowerOfTwo(p)
    ensures WeightedSum(p, One(), acts, now) >= 0.0
    ensures acts != [] ==> WeightedSum(p, One(), acts, now) > 0.0
  {
    hide PowerOfTwo, TimeDecayWeight;
    if acts != [] {
      TotalPositive(p, acts[..|acts| - 1], now);
      WeightPositive(p, acts[|acts| - 1].occurredAt, now);
    }
  }

  lemma SumExtends(p: real -> real, f: Activity -> real, acts: seq<Activity>, now: int, i: nat)
    requires i < |acts|
    ensures WeightedSum(p, f, acts[..i + 1], now) ==
      WeightedSum(p, f, acts[..i], now) + f(acts[i]) * TimeDecayWeight(p, acts[i].occurredAt, now)
  {
    assert acts[..i + 1][..i] == acts[..i];
  }

  /** Both accumulators of a calculator in one pass: the weighted sum of `f` and the total weight. */
  method Accumulate(p: real -> real, f: Activity -> real, acts: seq<Activity>, now: int) returns (sum: real, total: real)
    ensures sum == WeightedSum(p, f, acts, now)
    ensures total == WeightedSum(p, One(), acts, now)
  {
    sum, total := 0.0, 0.0;
    for i := 0 to |acts|
      invariant sum == WeightedSum(p, f, acts[..i], now)
      invariant total == WeightedSum(p, One(), acts[..i], now)
    {
      var w := TimeDecayWeight(p, acts[i].occurredAt, now);
      SumExtends(p, f, acts, now, i);
      SumExtends(p, One(), acts, now, i);
      sum := sum + f(acts[i]) * w;
      total := total + w;
    }
    assert acts[..|acts|] == acts;
  }

  method CalcSuccessRateScore(p: real -> real, acts: seq<Activity>, now: int) returns (score: real)
    ensures score == SuccessRateScore(p, acts, now)
  {
    var transactions := Only(IsTransaction(), acts);
    if transactions == [] {
      return 50.0;
    }
    var success, total := Accumulate(p, Is(SuccessfulTransaction), transactions, now);
    score := if total == 0.0 then 50.0 else Clamp(success / total * 100.0);
  }

  method CalcPeerRatingScore(p: real -> real, acts: seq<Activity>, now: int) returns (score: real)
    ensures score == PeerRatingScore(p, acts, now)
  {
    var ratings := Only(IsPeerRating(), acts);
    if ratings == [] {
      return 50.0;
    }
    var sum, total := Accumulate(p, Value(), ratings, now);
    if total == 0.0 {
      return 50.0;
    }
    score := Clamp((sum / total - 1.0) / 4.0 * 100.0);
  }

  method CalcContributionSizeScore(p: real -> real, l: real -> real, acts: seq<Activity>, now: int) returns (score: real)
    requires l(1.0 + ScaleCap) != 0.0
    ensures score == ContributionSizeScore(p, l, acts, now)
  {
    var relevant := Only(IsContribution(), acts);
    if relevant == [] {
      return 0.0;
    }
    var value, total := Accumulate(p, Value(), relevant, now);
    score := Clamp(l(1.0 + value) / l(1.0 + ScaleCap) * 100.0);
  }

  /** Wins and losses are summed apart; together they are the total weight of the disputes. */
  lemma {:induction false} WonPlusLost(p: real -> real, acts: seq<Activity>, now: int)
    requires forall i | 0 <= i < |acts| :: acts[i].kind == DisputeWon || acts[i].kind == DisputeLost
    ensures WeightedSum(p, Is(DisputeWon), acts, now) + WeightedSum(p, Is(DisputeLost), acts, now) == WeightedSum(p, One(), acts, now)
  {
    if acts != [] { WonPlusLost(p, acts[..|acts| - 1], now); }
  }

  lemma {:induction false} OnlyKeeps(kinds: Kind -> bool, acts: seq<Activity>)
    ensures forall i | 0 <= i < |Only(kinds, acts)| :: kinds(Only(kinds, acts)[i].kind) && Only(kinds, acts)[i] in acts
  {
    if acts != [] { OnlyKeeps(kinds, acts[..|acts| - 1]); }
  }

  method CalcCommunityFeedbackScore(p: real -> real, acts: seq<Activity>, now: int) returns (score: real)
    requires PowerOfTwo(p)
    ensures score == CommunityFeedbackScore(p, acts, now)
  {
    hide WeightedSum, TimeDecayWeight, Only, PowerOfTwo;
    var reviews, disputes := Only(IsReview(), acts), Only(IsDispute(), acts);
    if |reviews| == 0 && |disputes| == 0 {
      return 50.0;
    }
    var reviewScore, disputeScore := 50.0, 50.0;
    if |reviews| > 0 {
      var sum, total := Accumulate(p, Value(), reviews, now);
      TotalPositive(p, reviews, now);
      reviewScore := if total > 0.0 then Clamp((sum / total - 1.0) / 4.0 * 100.0) else 50.0;
    }
    if |disputes| > 0 {
      OnlyKeeps(IsDispute(), acts);
      WonPlusLost(p, disputes, now);
      TotalPositive(p, disputes, now);
      var won, _ := Accumulate(p, Is(DisputeWon), disputes, now);
      var lost, _ := Accumulate(p, Is(DisputeLost), disputes, now);
      disputeScore := if won + lost > 0.0 then Clamp(won / (won + lost) * 100.0) else 50.0;
    }
    var reviewWeight := if |reviews| > 0 then 0.7 else 0.0;
    var disputeWeight := if |disputes| > 0 then 0.3 else 0.0;
    Blend(reviewScore, disputeScore);
    score := Clamp((reviewScore * reviewWeight + disputeScore * disputeWeight) / (reviewWeight + disputeWeight));
  }

  lemma Blend(r: real, d: real)
    requires 0.0 <= r <= 100.0 && 0.0 <= d <= 100.0
    ensures Clamp((r * 0.7 + d * 0.0) / (0.7 + 0.0)) == r
    ensures Clamp((r * 0.0 + d * 0.3) / (0.0 + 0.3)) == d
    ensures Clamp((r * 0.7 + d * 0.3) / (0.7 + 0.3)) == r * 0.7 + d * 0.3
  {
  }

  /** Two decimals, halves upwards. */
  function Rounded(x: real): real {
    (x * 100.0 + 0.5).Floor as real / 100.0
  }

  function RoundedFactors(f: Factors): Factors {
    Factors(Rounded(f.success), Rounded(f.peer), Rounded(f.contribution), Rounded(f.community))
  }

  /** The composite is rounded after blending the unrounded factors. */
  datatype Breakdown = Breakdown(composite: real, factors: Factors, activityCount: nat, lowConfidence: bool)

  method CalculateReputationScore(p: real -> real, l: real -> real, acts: seq<Activity>, now: int) returns (b: Breakdown)
    requires PowerOfTwo(p) && l(1.0 + ScaleCap) != 0.0
    ensures b.factors == RoundedFactors(FactorsOf(p, l, acts, now))
    ensures b.composite == Rounded(Composite(FactorsOf(p, l, acts, now)))
    ensures b.activityCount == |acts|
    ensures b.lowConfidence <==> |acts| < 5
  {
    hide PowerOfTwo, Rounded, Clamp, SuccessRateScore, PeerRatingScore, ContributionSizeScore, CommunityFeedbackScore;
    var success := CalcSuccessRateScore(p, acts, now);
    var peer := CalcPeerRatingScore(p, acts, now);
    var contribution := CalcContributionSizeScore(p, l, acts, now);
    var community := CalcCommunityFeedbackScore(p, acts, now);
    var composite := Clamp(success * 0.35 + peer * 0.3 + contribution * 0.2 + community * 0.15);
    b := Breakdown(Rounded(composite), Factors(Rounded(success), Rounded(peer), Rounded(contribution), Rounded(community)),
      |acts|, |acts| < MinActivityThreshold);
  }

  function Composite(f: Factors): real {
    Clamp(f.success * 0.35 + f.peer * 0.3 + f.contribution * 0.2 + f.community * 0.15)
  }

  /** The composite always lies between the smallest and the largest factor score. */
  lemma CompositeBetween(p: real -> real, l: real -> real, acts: seq<Activity>, now: int, low: real, high: real)
    requires l(1.0 + ScaleCap) != 0.0
    requires var f := FactorsOf(p, l, acts, now);
      low <= f.success <= high && low <= f.peer <= high && low <= f.contribution <= high && low <= f.community <= high
    ensures low <= Composite(FactorsOf(p, l, acts, now)) <= high
  {
    hide Mean, WeightedSum, Only;
  }

  lemma RoundingGrows(x: real, y: real)
    requires x <= y
    ensures Rounded(x) <= Rounded(y)
    ensures -0.005 <= Rounded(x) - x <= 0.005
  {
    var n := (x * 100.0 + 0.5).Floor;
    assert n as real <= x * 100.0 + 0.5 < n as real + 1.0;
    assert n <= (y * 100.0 + 0.5).Floor;
  }

  /** Rounding keeps that: the reported composite lies between the smallest and the largest reported factor. */
  lemma ReportedBetween(f: Factors, low: real, high: real)
    requires 0.0 <= low && high <= 100.0
    requires low <= f.success <= high && low <= f.peer <= high && low <= f.contribution <= high && low <= f.community <= high
    ensures Rounded(low) <= Rounded(Composite(f)) <= Rounded(high)
    ensures 0.0 <= Rounded(Composite(f)) <= 100.0
  {
    hide Rounded;
    RoundingGrows(low, Composite(f));
    RoundingGrows(Composite(f), high);
    RoundedEnds();
    RoundingGrows(0.0, Composite(f));
    RoundingGrows(Composite(f), 100.0);
  }

  lemma RoundedEnds()
    ensures Rounded(0.0) == 0.0 && Rounded(100.0) == 100.0
  {
    assert (0.5).Floor == 0 && (10000.5).Floor == 10000;
  }

  /* ---- the passage of time ---- */

  /** The factor by which every weight shrinks while the clock moves on by `shift` milliseconds. */
  function Fade(p: real -> real, shift: nat): real {
    p(-(shift as real / MillisPerDay) / HalfLifeDays)
  }

  predicate NoneInFuture(acts: seq<Activity>, now: int) {
    forall i | 0 <= i < |acts| :: acts[i].occurredAt <= now
  }

  lemma PowerAdds(p: real -> real, x: real, y: real)
    requires PowerOfTwo(p)
    ensures p(x + y) == p(x) * p(y)
  {
  }

  lemma PowerOfUnits(p: real -> real)
    requires PowerOfTwo(p)
    ensures p(0.0) == 1.0 && p(1.0) == 2.0
  {
  }

  lemma AgeGrows(occurredAt: int, now: int, shift: nat)
    requires occurredAt <= now
    ensures -AgeDays(occurredAt, now + shift) / HalfLifeDays ==
      -(shift as real / MillisPerDay) / HalfLifeDays + -AgeDays(occurredAt, now) / HalfLifeDays
  {
  }

  lemma WeightFades(p: real -> real, occurredAt: int, now: int, shift: nat)
    requires PowerOfTwo(p) && occurredAt <= now
    ensures TimeDecayWeight(p, occurredAt, now + shift) == Fade(p, shift) * TimeDecayWeight(p, occurredAt, now)
  {
    hide PowerOfTwo, AgeDays;
    AgeGrows(occurredAt, now, shift);
    PowerAdds(p, -(shift as real / MillisPerDay) / HalfLifeDays, -AgeDays(occurredAt, now) / HalfLifeDays);
  }

  /** One half-life later a weight is half of what it was. */
  lemma HalfLife(p: real -> real, occurredAt: int, now: int)
    requires PowerOfTwo(p) && occurredAt <= now
    ensures TimeDecayWeight(p, occurredAt, now + 180 * 86400000) == TimeDecayWeight(p, occurredAt, now) / 2.0
  {
    hide PowerOfTwo, TimeDecayWeight;
    WeightFades(p, occurredAt, now, 180 * 86400000);
    PowerAdds(p, 1.0, -1.0);
    PowerOfUnits(p);
    assert Fade(p, 180 * 86400000) == p(-1.0);
  }

  lemma Factor(c: real, a: real, b: real, w: real)
    ensures c * a + b * (c * w) == c * (a + b * w)
  {
  }

  /** Without activity in the future, every weighted sum shrinks by the one common factor. */
  lemma {:induction false} SumFades(p: real -> real, f: Activity -> real, acts: seq<Activity>, now: int, shift: nat)
    requires PowerOfTwo(p) && NoneInFuture(acts, now)
    ensures WeightedSum(p, f, acts, now + shift) == Fade(p, shift) * WeightedSum(p, f, acts, now)
  {
    hide PowerOfTwo, TimeDecayWeight, Fade;
    if acts != [] {
      var rest, last := acts[..|acts| - 1], acts[|acts| - 1];
      SumFades(p, f, rest, now, shift);
      WeightFades(p, last.occurredAt, now, shift);
      Factor(Fade(p, shift), WeightedSum(p, f, rest, now), f(last), TimeDecayWeight(p, last.occurredAt, now));
    }
  }

  lemma SameRatio(c: real, a: real, b: real)
    requires c > 0.0 && b != 0.0
    ensures c * b != 0.0 && (c * a) / (c * b) == a / b
  {
    var q := a / b;
    assert a == q * b;
    assert c * a == q * (c * b);
  }

  lemma MeanStays(p: real -> real, f: Activity -> real, acts: seq<Activity>, now: int, shift: nat, default: real)
    requires PowerOfTwo(p) && NoneInFuture(acts, now)
    ensures Mean(p, f, acts, now + shift, default) == Mean(p, f, acts, now, default)
  {
    hide WeightedSum;
    SumFades(p, f, acts, now, shift);
    SumFades(p, One(), acts, now, shift);
    var total := WeightedSum(p, One(), acts, now);
    if total != 0.0 {
      SameRatio(Fade(p, shift), WeightedSum(p, f, acts, now), total);
    }
  }

  lemma OnlyNoneInFuture(kinds: Kind -> bool, acts: seq<Activity>, now: int)
    requires NoneInFuture(acts, now)
    ensures NoneInFuture(Only(kinds, acts), now)
  {
    OnlyKeeps(kinds, acts);
  }

  /** With no new activity, time leaves the success-rate, peer-rating and community scores as they are. */
  lemma RatesStay(p: real -> real, acts: seq<Activity>, now: int, shift: nat)
    requires PowerOfTwo(p) && NoneInFuture(acts, now)
    ensures SuccessRateScore(p, acts, now + shift) == SuccessRateScore(p, acts, now)
    ensures PeerRatingScore(p, acts, now + shift) == PeerRatingScore(p, acts, now)
    ensures CommunityFeedbackScore(p, acts, now + shift) == CommunityFeedbackScore(p, acts, now)
  {
    hide Mean, Only, PowerOfTwo, NoneInFuture;
    OnlyNoneInFuture(IsTransaction(), acts, now);
    OnlyNoneInFuture(IsPeerRating(), acts, now);
    OnlyNoneInFuture(IsReview(), acts, now);
    OnlyNoneInFuture(IsDispute(), acts, now);
    MeanStays(p, Is(SuccessfulTransaction), Only(IsTransaction(), acts), now, shift, 0.5);
    MeanStays(p, Value(), Only(IsPeerRating(), acts), now, shift, 3.0);
    MeanStays(p, Value(), Only(IsReview(), acts), now, shift, 3.0);
    MeanStays(p, Is(DisputeWon), Only(IsDispute(), acts), now, shift, 0.5);
  }

  lemma {:induction false} ValueNonNegative(p: real -> real, acts: seq<Activity>, now: int)
    requires PowerOfTwo(p) && forall i | 0 <= i < |acts| :: acts[i].value >= 0.0
    ensures WeightedSum(p, Value(), acts, now) >= 0.0
  {
    hide TimeDecayWeight;
    if acts != [] {
      ValueNonNegative(p, acts[..|acts| - 1], now);
      WeightPositive(p, acts[|acts| - 1].occurredAt, now);
      assert acts[|acts| - 1].value * TimeDecayWeight(p, acts[|acts| - 1].occurredAt, now) >= 0.0;
    }
  }

  lemma FadeShrinks(p: real -> real, shift: nat)
    requires PowerOfTwo(p)
    ensures 0.0 < Fade(p, shift) <= 1.0
  {
    assert -(shift as real / MillisPerDay) / HalfLifeDays <= 0.0;
  }

  lemma Shrinks(c: real, v: real)
    requires 0.0 < c <= 1.0 && v >= 0.0
    ensures 0.0 <= c * v <= v
  {
  }

  /** And it never raises the contribution score of non-negative values. */
  lemma ContributionNeverRises(p: real -> real, l: real -> real, acts: seq<Activity>, now: int, shift: nat)
    requires PowerOfTwo(p) && Logarithm(l) && NoneInFuture(acts, now)
    requires forall i | 0 <= i < |acts| :: acts[i].value >= 0.0
    ensures l(1.0 + ScaleCap) > 0.0
    ensures ContributionSizeScore(p, l, acts, now + shift) <= ContributionSizeScore(p, l, acts, now)
  {
    hide Only, NoneInFuture, WeightedSum, PowerOfTwo, Fade, Logarithm;
    var relevant := Only(IsContribution(), acts);
    OnlyKeeps(IsContribution(), acts);
    OnlyNoneInFuture(IsContribution(), acts, now);
    ValueNonNegative(p, relevant, now);
    SumFades(p, Value(), relevant, now, shift);
    FadeShrinks(p, shift);
    var v := WeightedSum(p, Value(), relevant, now);
    var faded := WeightedSum(p, Value(), relevant, now + shift);
    Shrinks(Fade(p, shift), v);
    LogarithmGrows(l, 10.0, 1.0 + ScaleCap);
    assert 0.0 <= faded <= v;
    LogarithmGrows(l, 1.0 + faded, 1.0 + v);
    Quotient(l(1.0 + faded), l(1.0 + v), l(1.0 + ScaleCap));
  }

  lemma LogarithmGrows(l: real -> real, x: real, y: real)
    requires Logarithm(l) && 0.0 < x <= y
    ensures l(x) <= l(y) && l(10.0) == 1.0
  {
  }

  lemma Quotient(a: real, b: real, d: real)
    requires a <= b && d > 0.0
    ensures a / d <= b / d
  {
    assert a / d * d == a && b / d * d == b;
  }

  /* ---- extremes ---- */

  lemma {:induction false} PartOfWhole(p: real -> real, kind: Kind, acts: seq<Activity>, now: int)
    requires PowerOfTwo(p)
    ensures 0.0 <= WeightedSum(p, Is(kind), acts, now) <= WeightedSum(p, One(), acts, now)
    ensures WeightedSum(p, Is(kind), acts, now) == WeightedSum(p, One(), acts, now) <==> forall i | 0 <= i < |acts| :: acts[i].kind == kind
    ensures WeightedSum(p, Is(kind), acts, now) == 0.0 <==> forall i | 0 <= i < |acts| :: acts[i].kind != kind
  {
    hide TimeDecayWeight, PowerOfTwo;
    if acts != [] {
      PartOfWhole(p, kind, acts[..|acts| - 1], now);
      WeightPositive(p, acts[|acts| - 1].occurredAt, now);
      assert forall i | 0 <= i < |acts| - 1 :: acts[i] == acts[..|acts| - 1][i];
    }
  }

  /** The success rate is 100 exactly when every transaction succeeded and 0 exactly when every one failed, however old they are. */
  lemma SuccessRateExtremes(p: real -> real, acts: seq<Activity>, now: int)
    requires PowerOfTwo(p) && Only(IsTransaction(), acts) != []
    ensures var ts := Only(IsTransaction(), acts);
      && (SuccessRateScore(p, acts, now) == 100.0 <==> forall i | 0 <= i < |ts| :: ts[i].kind == SuccessfulTransaction)
      && (SuccessRateScore(p, acts, now) == 0.0 <==> forall i | 0 <= i < |ts| :: ts[i].kind == FailedTransaction)
  {
    hide WeightedSum, PowerOfTwo, Only;
    var ts := Only(IsTransaction(), acts);
    OnlyKeeps(IsTransaction(), acts);
    TotalPositive(p, ts, now);
    PartOfWhole(p, SuccessfulTransaction, ts, now);
    var part, whole := WeightedSum(p, Is(SuccessfulTransaction), ts, now), WeightedSum(p, One(), ts, now);
    Portion(part, whole);
  }

  lemma Portion(a: real, b: real)
    requires 0.0 <= a <= b && b > 0.0
    ensures 0.0 <= a / b <= 1.0 && (a / b == 1.0 <==> a == b) && (a / b == 0.0 <==> a == 0.0)
  {
    assert a / b * b == a;
  }

  /* ---- what the scores are ---- */

  /** A weight starts at 1 and is 1 for anything in the future; `WeightFades` and `HalfLife` say how it falls. */
  lemma WeightStarts(p: real -> real, occurredAt: int, now: int)
    requires PowerOfTwo(p) && now <= occurredAt
    ensures TimeDecayWeight(p, occurredAt, now) == 1.0
  {
    hide PowerOfTwo;
    PowerOfUnits(p);
    assert -AgeDays(occurredAt, now) / HalfLifeDays == 0.0;
  }

  lemma {:induction false} UniformSum(p: real -> real, acts: seq<Activity>, now: int, v: real)
    requires forall i | 0 <= i < |acts| :: acts[i].value == v
    ensures WeightedSum(p, Value(), acts, now) == v * WeightedSum(p, One(), acts, now)
  {
    hide TimeDecayWeight;
    if acts != [] { UniformSum(p, acts[..|acts| - 1], now, v); }
  }

  lemma RatioOf(v: real, total: real)
    requires total > 0.0
    ensures v * total / total == v
  {
  }

  /** Ratings that all say `v`, from 1 to 5 and of whatever age, score 25 points for each step above 1. */
  lemma UniformRatingScore(p: real -> real, acts: seq<Activity>, now: int, v: real)
    requires PowerOfTwo(p) && acts != [] && 1.0 <= v <= 5.0 && forall i | 0 <= i < |acts| :: acts[i].value == v
    ensures RatingScore(p, acts, now) == 25.0 * (v - 1.0)
  {
    hide WeightedSum, PowerOfTwo;
    UniformSum(p, acts, now, v);
    TotalPositive(p, acts, now);
    RatioOf(v, WeightedSum(p, One(), acts, now));
    assert Mean(p, Value(), acts, now, 3.0) == v;
    assert (v - 1.0) / 4.0 * 100.0 == 25.0 * (v - 1.0);
  }

  lemma UniformPeerRating(p: real -> real, acts: seq<Activity>, now: int, v: real)
    requires PowerOfTwo(p) && 1.0 <= v <= 5.0
    requires forall i | 0 <= i < |acts| && acts[i].kind == PeerRating :: acts[i].value == v
    ensures (exists i | 0 <= i < |acts| :: acts[i].kind == PeerRating) ==> PeerRatingScore(p, acts, now) == 25.0 * (v - 1.0)
    ensures (forall i | 0 <= i < |acts| :: acts[i].kind != PeerRating) ==> PeerRatingScore(p, acts, now) == 50.0
  {
    hide PowerOfTwo, RatingScore;
    var ratings := Only(IsPeerRating(), acts);
    OnlyAll(IsPeerRating(), acts);
    OnlyKeeps(IsPeerRating(), acts);
    if ratings != [] { UniformRatingScore(p, ratings, now, v); } else { NoRatings(p, now); }
  }

  lemma NoRatings(p: real -> real, now: int)
    ensures RatingScore(p, [], now) == 50.0
  {
  }

  lemma {:induction false} OnlyAll(kinds: Kind -> bool, acts: seq<Activity>)
    ensures Only(kinds, acts) == [] <==> forall i | 0 <= i < |acts| :: !kinds(acts[i].kind)
    ensures forall i | 0 <= i < |acts| && kinds(acts[i].kind) :: acts[i] in Only(kinds, acts)
  {
    if acts != [] { OnlyAll(kinds, acts[..|acts| - 1]); }
  }

  function CountKind(kind: Kind, acts: seq<Activity>): nat {
    if acts == [] then 0 else CountKind(kind, acts[..|acts| - 1]) + if acts[|acts| - 1].kind == kind then 1 else 0
  }

  lemma OneMore(n: nat, w: real)
    ensures (n + 1) as real * w == n as real * w + w
  {
  }

  lemma {:induction false} SameAgeTotal(p: real -> real, acts: seq<Activity>, now: int, at: int)
    requires forall i | 0 <= i < |acts| :: acts[i].occurredAt == at
    ensures WeightedSum(p, One(), acts, now) == |acts| as real * TimeDecayWeight(p, at, now)
  {
    hide TimeDecayWeight;
    if acts != [] {
      SameAgeTotal(p, acts[..|acts| - 1], now, at);
      OneMore(|acts| - 1, TimeDecayWeight(p, at, now));
    }
  }

  lemma {:induction false} SameAgeCount(p: real -> real, kind: Kind, acts: seq<Activity>, now: int, at: int)
    requires forall i | 0 <= i < |acts| :: acts[i].occurredAt == at
    ensures WeightedSum(p, Is(kind), acts, now) == CountKind(kind, acts) as real * TimeDecayWeight(p, at, now)
  {
    hide TimeDecayWeight;
    if acts != [] {
      SameAgeCount(p, kind, acts[..|acts| - 1], now, at);
      OneMore(CountKind(kind, acts[..|acts| - 1]), TimeDecayWeight(p, at, now));
    }
  }

  /** Filtering keeps each activity as often as it occurs if its kind is asked for, and no other. */
  lemma {:induction false} OnlyCounts(kinds: Kind -> bool, acts: seq<Activity>, a: Activity)
    ensures multiset(Only(kinds, acts))[a] == if kinds(a.kind) then multiset(acts)[a] else 0
  {
    if acts != [] {
      var front := acts[..|acts| - 1];
      OnlyCounts(kinds, front, a);
      assert acts == front + [acts[|acts| - 1]];
    }
  }

  /** Which activities each factor looks at. */
  lemma KindsAre(k: Kind)
    ensures IsTransaction()(k) <==> k in {SuccessfulTransaction, FailedTransaction}
    ensures IsPeerRating()(k) <==> k in {PeerRating}
    ensures IsContribution()(k) <==> k in {SuccessfulTransaction, HighValueContribution}
    ensures IsReview()(k) <==> k in {CommunityReview}
    ensures IsDispute()(k) <==> k in {DisputeWon, DisputeLost}
  {
  }

  /** Without transactions the success rate is neutral. */
  lemma NoTransactions(p: real -> real, acts: seq<Activity>, now: int)
    requires forall i | 0 <= i < |acts| :: acts[i].kind != SuccessfulTransaction && acts[i].kind != FailedTransaction
    ensures SuccessRateScore(p, acts, now) == 50.0
  {
    OnlyAll(IsTransaction(), acts);
  }

  /** Among transactions of one age the success rate is the percentage of successes. */
  lemma SuccessRateIsShare(p: real -> real, acts: seq<Activity>, now: int, at: int)
    requires PowerOfTwo(p) && Only(IsTransaction(), acts) != []
    requires forall i | 0 <= i < |Only(IsTransaction(), acts)| :: Only(IsTransaction(), acts)[i].occurredAt == at
    ensures var ts := Only(IsTransaction(), acts);
      SuccessRateScore(p, acts, now) * |ts| as real == 100.0 * CountKind(SuccessfulTransaction, ts) as real
  {
    hide WeightedSum, PowerOfTwo, Only, TimeDecayWeight, CountKind;
    var ts := Only(IsTransaction(), acts);
    SameAgeCount(p, SuccessfulTransaction, ts, now, at);
    SameAgeTotal(p, ts, now, at);
    WeightPositive(p, at, now);
    CountBounded(SuccessfulTransaction, ts);
    var w, m, n := TimeDecayWeight(p, at, now), CountKind(SuccessfulTransaction, ts) as real, |ts| as real;
    ShareOf(w, m, n);
    TotalPositive(p, ts, now);
    assert Mean(p, Is(SuccessfulTransaction), ts, now, 0.5) == m / n;
    Portion(m, n);
    assert m / n * n == m;
  }

  lemma {:induction false} CountBounded(kind: Kind, acts: seq<Activity>)
    ensures CountKind(kind, acts) <= |acts|
  {
    if acts != [] { CountBounded(kind, acts[..|acts| - 1]); }
  }

  lemma ShareOf(w: real, m: real, n: real)
    requires w > 0.0 && n > 0.0
    ensures n * w > 0.0 && (m * w) / (n * w) == m / n
  {
    assert m / n * (n * w) == m * w;
  }

  /** The contribution score: 0 without contributions, 100 from a weighted value of 10000 on, logarithmic in between. */
  lemma ContributionIs(p: real -> real, l: real -> real, acts: seq<Activity>, now: int)
    requires Logarithm(l)
    ensures l(10001.0) > 0.0
    ensures var relevant := Only(IsContribution(), acts);
      var v := WeightedSum(p, Value(), relevant, now);
      && (relevant == [] ==> ContributionSizeScore(p, l, acts, now) == 0.0)
      && (relevant != [] && 0.0 <= v <= 10000.0 ==> ContributionSizeScore(p, l, acts, now) == 100.0 * (l(1.0 + v) / l(10001.0)))
      && (relevant != [] && v >= 10000.0 ==> ContributionSizeScore(p, l, acts, now) == 100.0)
  {
    hide Logarithm, WeightedSum, Only;
    LogarithmGrows(l, 10.0, 10001.0);
    var relevant := Only(IsContribution(), acts);
    var v := WeightedSum(p, Value(), relevant, now);
    assert 1.0 + ScaleCap == 10001.0;
    if relevant != [] && v >= 0.0 {
      LogarithmGrows(l, 1.0, 1.0 + v);
      LogarithmOfOne(l);
      if v <= 10000.0 {
        LogarithmGrows(l, 1.0 + v, 10001.0);
        Portion(l(1.0 + v), l(10001.0));
      } else {
        LogarithmGrows(l, 10001.0, 1.0 + v);
      }
      if v >= 10000.0 {
        LogarithmGrows(l, 10001.0, 1.0 + v);
        Quotient(l(10001.0), l(1.0 + v), l(10001.0));
        assert l(10001.0) / l(10001.0) == 1.0;
      }
    }
  }

  lemma LogarithmOfOne(l: real -> real)
    requires Logarithm(l)
    ensures l(1.0) == 0.0
  {
  }

  /** Reviews that all say `v` and disputes all won: 70 percent of the one and 30 of the other; one alone counts fully; none is neutral. */
  lemma CommunityIs(p: real -> real, acts: seq<Activity>, now: int, v: real)
    requires PowerOfTwo(p) && 1.0 <= v <= 5.0
    requires forall i | 0 <= i < |acts| :: (acts[i].kind == CommunityReview ==> acts[i].value == v) && acts[i].kind != DisputeLost
    ensures var reviewed, disputed := exists i :: 0 <= i < |acts| && acts[i].kind == CommunityReview, exists i :: 0 <= i < |acts| && acts[i].kind == DisputeWon;
      CommunityFeedbackScore(p, acts, now) ==
        if reviewed && disputed then 17.5 * (v - 1.0) + 30.0
        else if reviewed then 25.0 * (v - 1.0)
        else if disputed then 100.0
        else 50.0
  {
    hide PowerOfTwo, RatingScore, ShareScore;
    var reviews, disputes := Only(IsReview(), acts), Only(IsDispute(), acts);
    OnlyAll(IsReview(), acts);
    OnlyKeeps(IsReview(), acts);
    OnlyAll(IsDispute(), acts);
    OnlyKeeps(IsDispute(), acts);
    if reviews != [] { UniformRatingScore(p, reviews, now, v); }
    if disputes != [] { AllOfKind(p, DisputeWon, disputes, now); }
    assert IsReview()(CommunityReview) && IsDispute()(DisputeWon);
  }

  lemma AllOfKind(p: real -> real, kind: Kind, acts: seq<Activity>, now: int)
    requires PowerOfTwo(p) && acts != [] && forall i | 0 <= i < |acts| :: acts[i].kind == kind
    ensures ShareScore(p, kind, acts, now) == 100.0
  {
    hide PowerOfTwo, WeightedSum;
    PartOfWhole(p, kind, acts, now);
    TotalPositive(p, acts, now);
    RatioOf(1.0, WeightedSum(p, One(), acts, now));
  }

  /** The composite: 35 percent success rate, 30 peer ratings, 20 contributions, 15 community. */
  lemma CompositeIs(f: Factors)
    requires 0.0 <= f.success <= 100.0 && 0.0 <= f.peer <= 100.0 && 0.0 <= f.contribution <= 100.0 && 0.0 <= f.community <= 100.0
    ensures 100.0 * Composite(f) == 35.0 * f.success + 30.0 * f.peer + 20.0 * f.contribution + 15.0 * f.community
  {
  }
}
