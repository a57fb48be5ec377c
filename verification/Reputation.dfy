/** The incremental reputation score, clamped at every step, against the batch recompute that clamps once. */
module Reputation {
  import opened Wrappers

  const BaseScore := 50
  const MaxReputation := 1000

  function Max(a: int, b: int): int { if a < b then b else a }

  function Min(a: int, b: int): int { if a < b then a else b }

  function Clamp(x: int): int {
    Max(0, Min(MaxReputation, x))
  }

  function Sum(deltas: seq<int>): int {
    if deltas == [] then 0 else deltas[0] + Sum(deltas[1..])
  }

  /** Into 0 to 1000: a score inside stays, one outside goes to the nearer end. */
  lemma ClampIs(x: int)
    ensures Clamp(x) == if x < 0 then 0 else if x > 1000 then 1000 else x
  {
  }

  /** The score after applying the deltas one by one, as the service does. */
  function Walk(score: int, deltas: seq<int>): int
    decreases |deltas|
  {
    if deltas == [] then score else Walk(Clamp(score + deltas[0]), deltas[1..])
  }

  datatype Entry = Entry(user: nat, scoreChange: int)

  /** One user's changes, oldest first. */
  function ChangesOf(history: seq<Entry>, user: nat): seq<int> {
    if history == [] then [] else
    var earlier := ChangesOf(history[..|history| - 1], user);
    var last := history[|history| - 1];
    if last.user == user then earlier + [last.scoreChange] else earlier
  }

  lemma {:induction false} WalkAppend(score: int, deltas: seq<int>, d: int)
    ensures Walk(score, deltas + [d]) == Clamp(Walk(score, deltas) + d)
    decreases |deltas|
  {
    if deltas == [] {
      assert (deltas + [d])[1..] == [];
    } else {
      assert (deltas + [d])[1..] == deltas[1..] + [d];
      WalkAppend(Clamp(score + deltas[0]), deltas[1..], d);
    }
  }

  lemma ChangesAppend(history: seq<Entry>, e: Entry, user: nat)
    ensures ChangesOf(history + [e], user) == if e.user == user then ChangesOf(history, user) + [e.scoreChange] else ChangesOf(history, user)
  {
    assert (history + [e])[..|history|] == history;
  }

  /** Every score is the walk over its user's history. */
  predicate Replays(initial: map<nat, int>, scores: map<nat, int>, history: seq<Entry>) {
    scores.Keys == initial.Keys && forall user | user in scores :: scores[user] == Walk(initial[user], ChangesOf(history, user))
  }

  lemma AdjustReplays(initial: map<nat, int>, scores: map<nat, int>, history: seq<Entry>, e: Entry)
    requires Replays(initial, scores, history) && e.user in scores
    ensures Replays(initial, scores[e.user := Clamp(scores[e.user] + e.scoreChange)], history + [e])
  {
    hide Walk, ChangesOf, Clamp;
    var after := scores[e.user := Clamp(scores[e.user] + e.scoreChange)];
    assert after.Keys == scores.Keys;
    forall user | user in after
      ensures after[user] == Walk(initial[user], ChangesOf(history + [e], user))
    {
      ChangesAppend(history, e, user);
      WalkAppend(initial[user], ChangesOf(history, user), e.scoreChange);
    }
  }

  lemma NothingReplays(users: map<nat, int>)
    ensures Replays(users, users, [])
  {
  }

  class ReputationService {
    var scores: map<nat, int>
    var history: seq<Entry>
    /** The scores the users started with. */
    ghost const initial: map<nat, int>

    /** Each stored score is the walk over that user's history. */
    ghost predicate Valid()
      reads this
    {
      Replays(initial, scores, history)
    }

    constructor (users: map<nat, int>)
      ensures Valid() && scores == users && initial == users && history == []
    {
      NothingReplays(users);
      scores, history, initial := users, [], users;
    }

    /** For an unknown user the score update fails and the transaction leaves no history row either. */
    method AdjustReputation(user: nat, delta: int) returns (newScore: Option<int>)
      requires Valid()
      modifies this
      ensures Valid()
      ensures newScore == if user in old(scores) then Some(Clamp(old(scores)[user] + delta)) else None
      ensures scores == if newScore.Some? then old(scores)[user := newScore.value] else old(scores)
      ensures history == if newScore.Some? then old(history) + [Entry(user, delta)] else old(history)
    {
      hide Replays, Clamp;
      var current := if user in scores then scores[user] else 0;
      var clamped := Clamp(current + delta);
      if user !in scores {
        return None;
      }
      AdjustReplays(initial, scores, history, Entry(user, delta));
      scores := scores[user := clamped];
      history := history + [Entry(user, delta)];
      newScore := Some(clamped);
    }
  }

  /** Between two scores the whole walk is again one clamp: the ends are the walks of 0 and 1000. */
  lemma {:induction false} WalkInside(score: int, deltas: seq<int>)
    requires 0 <= score <= MaxReputation
    ensures 0 <= Walk(0, deltas) <= Walk(MaxReputation, deltas) <= MaxReputation
    ensures Walk(score, deltas) == Max(Walk(0, deltas), Min(Walk(MaxReputation, deltas), score + Sum(deltas)))
    decreases |deltas|
  {
    if deltas != [] {
      WalkInside(Clamp(score + deltas[0]), deltas[1..]);
      WalkInside(Clamp(deltas[0]), deltas[1..]);
      WalkInside(Clamp(MaxReputation + deltas[0]), deltas[1..]);
    }
  }

  /** A clamp that ends map into ends absorbs the one before it. */
  lemma ClampThrough(lo: int, hi: int, x: int, total: int)
    requires Max(lo, Min(hi, total)) == lo && Max(lo, Min(hi, MaxReputation + total)) == hi
    ensures Max(lo, Min(hi, Clamp(x) + total)) == Max(lo, Min(hi, x + total))
  {
  }

  /**
    From any starting score, even one outside the range, a history applied step by step is the single map
    x -> max(lo, min(hi, x + total)) with 0 <= lo <= hi <= 1000.
  */
  lemma WalkIsOneClamp(score: int, deltas: seq<int>)
    requires deltas != []
    ensures var lo, hi := Walk(0, deltas[1..]), Walk(1000, deltas[1..]);
      0 <= lo <= hi <= 1000 && Walk(score, deltas) == Max(lo, Min(hi, score + Sum(deltas)))
  {
    hide Max, Min, Walk, Sum, Clamp;
    WalkUnfolds(score, deltas);
    ClampInRange(score + deltas[0]);
    WalkInside(Clamp(score + deltas[0]), deltas[1..]);
    WalkInside(0, deltas[1..]);
    WalkInside(MaxReputation, deltas[1..]);
    ClampThrough(Walk(0, deltas[1..]), Walk(MaxReputation, deltas[1..]), score + deltas[0], Sum(deltas[1..]));
  }

  lemma WalkUnfolds(score: int, deltas: seq<int>)
    requires deltas != []
    ensures Walk(score, deltas) == Walk(Clamp(score + deltas[0]), deltas[1..]) && Sum(deltas) == deltas[0] + Sum(deltas[1..])
  {
  }

  lemma ClampInRange(x: int)
    ensures 0 <= Clamp(x) <= MaxReputation
  {
  }

  /** So it is monotone and never widens the gap between two starting scores. */
  lemma WalkNarrows(a: int, b: int, deltas: seq<int>)
    requires a <= b
    ensures 0 <= Walk(b, deltas) - Walk(a, deltas) <= b - a
  {
    if deltas != [] {
      WalkIsOneClamp(a, deltas);
      WalkIsOneClamp(b, deltas);
    }
  }

  /** The recompute from stored history. */
  method ComputeReputationFromHistory(deltas: seq<int>) returns (score: int)
    ensures score == Clamp(BaseScore + Sum(deltas))
  {
    var total := BaseScore;
    for i := 0 to |deltas|
      invariant total + Sum(deltas[i..]) == BaseScore + Sum(deltas)
    {
      total := total + deltas[i];
    }
    score := Max(0, Min(MaxReputation, total));
  }

  /** The recompute agrees with the incremental score exactly when the total stays between the walks of the two ends, or the crossed end is the range's own. */
  lemma BatchAgrees(deltas: seq<int>)
    ensures var lo, hi, total := Walk(0, deltas), Walk(MaxReputation, deltas), BaseScore + Sum(deltas);
      Walk(BaseScore, deltas) == Clamp(total) <==> (lo <= total || lo == 0) && (total <= hi || hi == MaxReputation)
  {
    WalkInside(BaseScore, deltas);
  }

  /** In particular whenever no running total leaves the range. */
  lemma {:induction false} BatchAgreesInside(score: int, deltas: seq<int>)
    requires forall k | 0 <= k <= |deltas| :: 0 <= score + Sum(deltas[..k]) <= MaxReputation
    ensures Walk(score, deltas) == Clamp(score + Sum(deltas))
    decreases |deltas|
  {
    assert deltas[..0] == [];
    if deltas == [] {
      assert 0 <= score + Sum(deltas[..0]) <= MaxReputation;
    } else {
      assert deltas[..1][1..] == [];
      assert 0 <= score + Sum(deltas[..1]) <= MaxReputation;
      forall k | 0 <= k <= |deltas[1..]| ensures 0 <= score + deltas[0] + Sum(deltas[1..][..k]) <= MaxReputation {
        assert deltas[..k + 1][1..] == deltas[1..][..k];
      }
      BatchAgreesInside(score + deltas[0], deltas[1..]);
    }
  }

  lemma {:induction false} SumSplits(a: seq<int>, b: seq<int>)
    ensures Sum(a + b) == Sum(a) + Sum(b)
  {
    if a == [] { assert a + b == b; } else {
      assert (a + b)[1..] == a[1..] + b;
      SumSplits(a[1..], b);
    }
  }

  lemma TakeOne(b: seq<int>, k: nat) returns (rest: seq<int>)
    requires k < |b|
    ensures multiset(b) == multiset(rest) + multiset{b[k]} && |rest| == |b| - 1 && Sum(b) == b[k] + Sum(rest)
  {
    var before, after := b[..k], b[k + 1..];
    rest := before + after;
    assert b == before + ([b[k]] + after);
    assert ([b[k]] + after)[1..] == after;
    SumSplits(before, after);
    SumSplits(before, [b[k]] + after);
  }

  lemma {:induction false} SumIgnoresOrder(a: seq<int>, b: seq<int>)
    requires multiset(a) == multiset(b)
    ensures Sum(a) == Sum(b)
    decreases |a|
  {
    if a == [] {
      assert |multiset(b)| == |b|;
    } else {
      assert a[0] in multiset(b);
      var k :| 0 <= k < |b| && b[k] == a[0];
      var left := TakeOne(a, 0);
      var right := TakeOne(b, k);
      assert multiset(left) == multiset(a) - multiset{a[0]} && multiset(right) == multiset(b) - multiset{a[0]};
      SumIgnoresOrder(left, right);
    }
  }

  /** The recompute does not depend on the order of the history; the incremental score does. */
  lemma OrderMatters()
    ensures forall a, b | multiset(a) == multiset(b) :: Clamp(BaseScore + Sum(a)) == Clamp(BaseScore + Sum(b))
    ensures Walk(BaseScore, [-100, 100]) == 100 && Walk(BaseScore, [100, -100]) == 50
  {
    forall a, b | multiset(a) == multiset(b) ensures Sum(a) == Sum(b) { SumIgnoresOrder(a, b); }
    WalkAppend(BaseScore, [-100], 100);
    WalkAppend(BaseScore, [100], -100);
    assert [-100] + [100] == [-100, 100] && [100] + [-100] == [100, -100];
  }
}
