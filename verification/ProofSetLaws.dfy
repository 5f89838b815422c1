/** What the greedy cover achieves: minimum size, best scores first, and when it leaves a gap. */
module ProofSetLaws {
  import opened Sets
  import opened Options
  import opened Contracts
  import opened ProofSetCover

  // ----- Each pick covers one new goal -----

  lemma EligibleMeans(item: ContextItem, goals: set<SubGoal>, chosen: seq<ContextItem>)
    ensures Eligible(item, goals, chosen) <==>
              && item.tokens > 0 && SelectionKey(item) !in Keys(chosen) && GoalOf(item).Some?
              && GoalOf(item).value in goals && GoalOf(item).value !in Covered(chosen)
  {
    hide Keys, Covered, SelectionKey, GoalOf;
    if GoalOf(item).Some? {
      var g := GoalOf(item).value;
      var common := Coverage(item) * (goals - Covered(chosen));
      assert g in common <==> g in goals && g !in Covered(chosen);
      assert common != {} ==> g in common;
    }
  }

  lemma PickIsEligible(c: seq<ContextItem>, goals: set<SubGoal>, budget: u32, picks: seq<nat>, k: nat)
    requires Prefix(c, goals, budget, picks) && k < |picks|
    ensures Eligible(c[picks[k]], goals, Picked(c, picks[..k]))
  {
    hide Eligible, Score, UsedTokens;
    assert IsBest(c, goals, Picked(c, picks[..k]), picks[k]);
  }

  lemma ShorterPrefix(c: seq<ContextItem>, goals: set<SubGoal>, budget: u32, picks: seq<nat>)
    requires Prefix(c, goals, budget, picks) && picks != []
    ensures Prefix(c, goals, budget, picks[..|picks| - 1])
    ensures Picked(c, picks) == Picked(c, picks[..|picks| - 1]) + [c[picks[|picks| - 1]]]
  {
    hide IsBest, UsedTokens;
    var n := |picks| - 1;
    assert picks == picks[..n] + [picks[n]];
    PickedAppend(c, picks[..n], picks[n]);
    UsedAppend(Picked(c, picks[..n]), c[picks[n]]);
    assert forall k | 0 <= k < n :: picks[..n][..k] == picks[..k];
  }

  /** The picks cover that many goals: each one a goal of its own. */
  lemma {:induction false} PicksCoverDistinctGoals(c: seq<ContextItem>, goals: set<SubGoal>, budget: u32, picks: seq<nat>)
    requires Prefix(c, goals, budget, picks)
    ensures Covered(Picked(c, picks)) <= goals && |Covered(Picked(c, picks))| == |picks|
    ensures |goals - Covered(Picked(c, picks))| == |goals| - |picks|
    decreases |picks|
  {
    hide Prefix, Eligible, Coverage, Keys, GoalOf;
    if picks == [] {
      assert Covered(Picked(c, picks)) == {};
      assert goals - {} == goals;
    } else {
      var n := |picks| - 1;
      assert forall k | 0 <= k < |picks| :: picks[k] < |c| by {
        PrefixIndexes(c, goals, budget, picks);
      }
      ShorterPrefix(c, goals, budget, picks);
      PicksCoverDistinctGoals(c, goals, budget, picks[..n]);
      PickIsEligible(c, goals, budget, picks, n);
      var before, item := Picked(c, picks[..n]), c[picks[n]];
      EligibleMeans(item, goals, before);
      ChooseAppend(before, item);
      OneGoal(item);
      hide Covered;
      var g := GoalOf(item).value;
      assert Covered(Picked(c, picks)) == Covered(before) + {g};
      assert goals - Covered(Picked(c, picks)) == (goals - Covered(before)) - {g};
    }
  }

  lemma OneGoal(item: ContextItem)
    requires GoalOf(item).Some?
    ensures Coverage(item) == {GoalOf(item).value}
  {
  }

  lemma PrefixIndexes(c: seq<ContextItem>, goals: set<SubGoal>, budget: u32, picks: seq<nat>)
    requires Prefix(c, goals, budget, picks)
    ensures forall k | 0 <= k < |picks| :: picks[k] < |c|
  {
  }

  lemma {:induction false} UsedGrows(c: seq<ContextItem>, picks: seq<nat>, n: nat)
    requires n <= |picks| && forall k | 0 <= k < |picks| :: picks[k] < |c|
    ensures UsedTokens(Picked(c, picks[..n])) <= UsedTokens(Picked(c, picks))
    decreases |picks|
  {
    if n == |picks| {
      assert picks[..n] == picks;
    } else {
      var m := |picks| - 1;
      UsedGrows(c, picks[..m], n);
      assert picks[..m][..n] == picks[..n] && picks == picks[..m] + [picks[m]];
      PickedAppend(c, picks[..m], picks[m]);
      UsedAppend(Picked(c, picks[..m]), c[picks[m]]);
    }
  }

  /** The cover is determined by the candidates, the goals and the budget. */
  lemma GreedyIsUnique(c: seq<ContextItem>, goals: set<SubGoal>, budget: u32, p: seq<nat>, q: seq<nat>)
    requires Greedy(c, goals, budget, p) && Greedy(c, goals, budget, q)
    ensures p == q
  {
    if |p| <= |q| {
      GreedyContinues(c, goals, budget, p, q);
    } else {
      GreedyContinues(c, goals, budget, q, p);
    }
  }

  lemma GreedyContinues(c: seq<ContextItem>, goals: set<SubGoal>, budget: u32, p: seq<nat>, q: seq<nat>)
    requires Greedy(c, goals, budget, p) && Prefix(c, goals, budget, q) && |p| <= |q|
    ensures p == q
  {
    hide IsBest, UsedTokens;
    SamePicks(c, goals, budget, p, q, |p|);
    assert p[..|p|] == p;
    if |p| < |q| {
      var n := |p|;
      assert IsBest(c, goals, Picked(c, q[..n]), q[n]);
      assert q[..n + 1] == p + [q[n]];
      PickedAppend(c, p, q[n]);
      UsedAppend(Picked(c, p), c[q[n]]);
      UsedGrows(c, q, n + 1);
    } else {
      assert q[..|p|] == q;
    }
  }

  lemma {:induction false} SamePicks(c: seq<ContextItem>, goals: set<SubGoal>, budget: u32, p: seq<nat>, q: seq<nat>, n: nat)
    requires Prefix(c, goals, budget, p) && Prefix(c, goals, budget, q) && n <= |p| && n <= |q|
    ensures p[..n] == q[..n]
  {
    hide IsBest, UsedTokens;
    if n > 0 {
      SamePicks(c, goals, budget, p, q, n - 1);
      assert IsBest(c, goals, Picked(c, p[..n - 1]), p[n - 1]) && IsBest(c, goals, Picked(c, q[..n - 1]), q[n - 1]);
      BestIsUnique(c, goals, Picked(c, p[..n - 1]), p[n - 1], q[n - 1]);
      assert p[..n] == p[..n - 1] + [p[n - 1]] && q[..n] == q[..n - 1] + [q[n - 1]];
    }
  }

  // ----- Minimum size -----

  lemma {:induction false} CoversAtMostOneEach(items: seq<ContextItem>)
    ensures |Covered(items)| <= |items|
  {
    if items == [] {
      assert Covered(items) == {};
    } else {
      var n := |items| - 1;
      CoversAtMostOneEach(items[..n]);
      ChooseAppend(items[..n], items[n]);
      assert items == items[..n] + [items[n]];
    }
  }

  /** No smaller collection of items, candidates or not, covers the goals that the picks cover. */
  lemma CoverIsMinimum(
    c: seq<ContextItem>, goals: set<SubGoal>, budget: u32, picks: seq<nat>, other: seq<ContextItem>)
    requires Prefix(c, goals, budget, picks)
    requires Covered(Picked(c, picks)) <= Covered(other)
    ensures |picks| <= |other|
  {
    PicksCoverDistinctGoals(c, goals, budget, picks);
    CoversAtMostOneEach(other);
    SubsetSize(Covered(Picked(c, picks)), Covered(other));
  }

  // ----- Best scores first -----

  /** Weight per token: the score of an item that covers one new goal. */
  function Value(item: ContextItem): real
    requires item.tokens > 0
  {
    Weight(item) / item.tokens as real
  }

  lemma ScoreIsValue(item: ContextItem, goals: set<SubGoal>, chosen: seq<ContextItem>)
    requires Eligible(item, goals, chosen)
    ensures item.tokens > 0 && Score(item, goals - Covered(chosen)) == Value(item)
  {
    hide GoalOf, Covered, Weight, Keys;
    EligibleMeans(item, goals, chosen);
    OneGoal(item);
    var g := GoalOf(item).value;
    var uncovered := goals - Covered(chosen);
    assert Coverage(item) * uncovered == {g};
    hide *;
    ScoreOfOne(item, uncovered);
  }

  lemma ScoreOfOne(item: ContextItem, uncovered: set<SubGoal>)
    requires item.tokens > 0 && |Coverage(item) * uncovered| == 1
    ensures Score(item, uncovered) == Value(item)
  {
    hide Coverage, Weight;
    assert Score(item, uncovered) == 1 as real * Weight(item) / item.tokens as real;
  }

  lemma BestHasBestValue(c: seq<ContextItem>, goals: set<SubGoal>, chosen: seq<ContextItem>, i: nat, j: nat)
    requires IsBest(c, goals, chosen, i) && j < |c| && Eligible(c[j], goals, chosen)
    ensures c[i].tokens > 0 && c[j].tokens > 0 && Value(c[j]) <= Value(c[i])
    ensures Value(c[j]) == Value(c[i]) ==> i <= j
  {
    ScoreIsValue(c[i], goals, chosen);
    ScoreIsValue(c[j], goals, chosen);
    hide Eligible, Score, Value;
  }

  /** Each pick has the best value of all candidates that are not blocked and cover a goal no
      earlier pick covers. */
  lemma PickIsBestOfItsTime(c: seq<ContextItem>, goals: set<SubGoal>, budget: u32, picks: seq<nat>, k: nat, j: nat)
    requires Prefix(c, goals, budget, picks) && k < |picks| && j < |c| && c[j].tokens > 0
    requires GoalOf(c[j]).Some? && GoalOf(c[j]).value in goals - Covered(Picked(c, picks[..k]))
    requires SelectionKey(c[j]) !in Keys(Picked(c, picks[..k]))
    ensures c[picks[k]].tokens > 0 && Value(c[j]) <= Value(c[picks[k]])
    ensures Value(c[j]) == Value(c[picks[k]]) ==> picks[k] <= j
  {
    EligibleMeans(c[j], goals, Picked(c, picks[..k]));
    assert IsBest(c, goals, Picked(c, picks[..k]), picks[k]);
    BestHasBestValue(c, goals, Picked(c, picks[..k]), picks[k], j);
  }

  lemma FewerPicked(c: seq<ContextItem>, picks: seq<nat>, a: nat, b: nat)
    requires a <= b <= |picks| && forall k | 0 <= k < |picks| :: picks[k] < |c|
    ensures Keys(Picked(c, picks[..a])) <= Keys(Picked(c, picks[..b]))
    ensures Covered(Picked(c, picks[..a])) <= Covered(Picked(c, picks[..b]))
  {
    var x, y := Picked(c, picks[..a]), Picked(c, picks[..b]);
    assert forall k | 0 <= k < a :: x[k] == y[k];
  }

  /** The values of the picks never increase. */
  lemma PickValuesNeverIncrease(c: seq<ContextItem>, goals: set<SubGoal>, budget: u32, picks: seq<nat>, a: nat, b: nat)
    requires Prefix(c, goals, budget, picks) && a < b < |picks|
    ensures c[picks[a]].tokens > 0 && c[picks[b]].tokens > 0 && Value(c[picks[b]]) <= Value(c[picks[a]])
  {
    hide GoalOf, Keys, Covered, SelectionKey, Value;
    PickIsEligible(c, goals, budget, picks, b);
    EligibleMeans(c[picks[b]], goals, Picked(c, picks[..b]));
    FewerPicked(c, picks, a, b);
    PickIsBestOfItsTime(c, goals, budget, picks, a, picks[b]);
  }

  // ----- When a gap is left -----

  /** The first of the candidates with the best value for `goal`. */
  ghost predicate GoalBest(c: seq<ContextItem>, goal: SubGoal, i: nat) {
    && i < |c| && c[i].tokens > 0 && GoalOf(c[i]) == Some(goal)
    && forall j | 0 <= j < |c| && c[j].tokens > 0 && GoalOf(c[j]) == Some(goal) ::
         Value(c[j]) <= Value(c[i]) && (j < i ==> Value(c[j]) < Value(c[i]))
  }

  /** No two candidates for different goals share a selection key. */
  ghost predicate DistinctKeys(c: seq<ContextItem>) {
    forall i, j | 0 <= i < |c| && 0 <= j < |c| && GoalOf(c[i]).Some? && GoalOf(c[j]).Some? && GoalOf(c[i]) != GoalOf(c[j])
                  && c[i].tokens > 0 && c[j].tokens > 0 ::
      SelectionKey(c[i]) != SelectionKey(c[j])
  }

  ghost predicate Coverable(c: seq<ContextItem>, goal: SubGoal) {
    exists i :: 0 <= i < |c| && c[i].tokens > 0 && GoalOf(c[i]) == Some(goal)
  }

  /** The tokens of the best candidate for the goal. */
  ghost function GoalTokens(c: seq<ContextItem>, goal: SubGoal): nat {
    if exists i: nat :: GoalBest(c, goal, i) then (var i: nat :| GoalBest(c, goal, i); c[i].tokens) else 0
  }

  /** The tokens of the best candidates for all of `goals`. */
  ghost function CoverTokens(c: seq<ContextItem>, goals: set<SubGoal>, n: nat := 8): nat
    requires n <= 8
  {
    if n == 0 then 0
    else CoverTokens(c, goals, n - 1) + (if ALL_GOALS[n - 1] in goals then GoalTokens(c, ALL_GOALS[n - 1]) else 0)
  }

  lemma GoalBestIsUnique(c: seq<ContextItem>, goal: SubGoal, i: nat)
    requires GoalBest(c, goal, i)
    ensures GoalTokens(c, goal) == c[i].tokens
  {
    hide GoalOf, Value;
    var k: nat :| GoalBest(c, goal, k) && GoalTokens(c, goal) == c[k].tokens;
  }

  lemma Position(goal: SubGoal) returns (p: nat)
    ensures p < 8 && ALL_GOALS[p] == goal && forall q | 0 <= q < 8 && q != p :: ALL_GOALS[q] != goal
  {
    p := match goal
      case Decisions => 0
      case ActiveTasks => 1
      case Facts => 2
      case Bugs => 3
      case Fixes => 4
      case Constraints => 5
      case Implementation => 6
      case OpenQuestions => 7;
  }

  lemma {:induction false} CoverTokensAdd(c: seq<ContextItem>, goals: set<SubGoal>, goal: SubGoal, p: nat, n: nat)
    requires goal !in goals && n <= 8 && p < 8
    requires ALL_GOALS[p] == goal && forall q | 0 <= q < 8 && q != p :: ALL_GOALS[q] != goal
    ensures CoverTokens(c, goals + {goal}, n) == CoverTokens(c, goals, n) + if p < n then GoalTokens(c, goal) else 0
    decreases n
  {
    hide GoalTokens;
    if n > 0 {
      CoverTokensAdd(c, goals, goal, p, n - 1);
      assert ALL_GOALS[n - 1] in goals + {goal} <==> ALL_GOALS[n - 1] in goals || n - 1 == p;
    }
  }

  lemma {:induction false} CoverTokensGrow(c: seq<ContextItem>, some: set<SubGoal>, goals: set<SubGoal>, n: nat)
    requires some <= goals && n <= 8
    ensures CoverTokens(c, some, n) <= CoverTokens(c, goals, n)
    decreases n
  {
    hide GoalTokens;
    if n > 0 {
      CoverTokensGrow(c, some, goals, n - 1);
    }
  }

  lemma KeyIsPicked(c: seq<ContextItem>, picks: seq<nat>, key: string) returns (k: nat)
    requires (forall k | 0 <= k < |picks| :: picks[k] < |c|) && key in Keys(Picked(c, picks))
    ensures k < |picks| && SelectionKey(c[picks[k]]) == key
  {
    var chosen := Picked(c, picks);
    k :| 0 <= k < |chosen| && SelectionKey(chosen[k]) == key;
  }

  lemma PickedIsCovered(c: seq<ContextItem>, picks: seq<nat>, k: nat)
    requires (forall k | 0 <= k < |picks| :: picks[k] < |c|) && k < |picks| && GoalOf(c[picks[k]]).Some?
    ensures GoalOf(c[picks[k]]).value in Covered(Picked(c, picks))
  {
    assert Picked(c, picks)[k] == c[picks[k]];
  }

  lemma PickMeans(c: seq<ContextItem>, goals: set<SubGoal>, budget: u32, picks: seq<nat>, k: nat)
    requires Prefix(c, goals, budget, picks) && k < |picks|
    ensures c[picks[k]].tokens > 0 && GoalOf(c[picks[k]]).Some?
  {
    hide Keys, Covered, SelectionKey, GoalOf;
    PickIsEligible(c, goals, budget, picks, k);
    EligibleMeans(c[picks[k]], goals, Picked(c, picks[..k]));
  }

  /** With distinct keys nothing that covers an open goal is blocked. */
  lemma Unblocked(c: seq<ContextItem>, goals: set<SubGoal>, budget: u32, picks: seq<nat>, j: nat)
    requires Prefix(c, goals, budget, picks) && DistinctKeys(c) && j < |c| && c[j].tokens > 0
    requires GoalOf(c[j]).Some? && GoalOf(c[j]).value in goals - Covered(Picked(c, picks))
    ensures Eligible(c[j], goals, Picked(c, picks))
  {
    hide Keys, Covered, SelectionKey, GoalOf, IsBest;
    if SelectionKey(c[j]) in Keys(Picked(c, picks)) {
      var k := KeyIsPicked(c, picks, SelectionKey(c[j]));
      PickMeans(c, goals, budget, picks, k);
      PickedIsCovered(c, picks, k);
    }
    EligibleMeans(c[j], goals, Picked(c, picks));
  }

  /** With distinct keys each choice is the best candidate for its own goal. */
  lemma BestIsGoalBest(c: seq<ContextItem>, goals: set<SubGoal>, budget: u32, picks: seq<nat>, i: nat)
    requires Prefix(c, goals, budget, picks) && DistinctKeys(c) && IsBest(c, goals, Picked(c, picks), i)
    ensures i < |c| && GoalOf(c[i]).Some? && GoalOf(c[i]).value in goals - Covered(Picked(c, picks))
    ensures GoalBest(c, GoalOf(c[i]).value, i)
  {
    hide Prefix, DistinctKeys, Keys, Covered, SelectionKey, GoalOf, Value, IsBest, Eligible;
    PrefixIndexes(c, goals, budget, picks);
    BestIsEligible(c, goals, Picked(c, picks), i);
    EligibleMeans(c[i], goals, Picked(c, picks));
    forall j | 0 <= j < |c| && c[j].tokens > 0 && GoalOf(c[j]) == GoalOf(c[i])
      ensures Value(c[j]) <= Value(c[i]) && (j < i ==> Value(c[j]) < Value(c[i]))
    {
      Unblocked(c, goals, budget, picks, j);
      BestHasBestValue(c, goals, Picked(c, picks), i, j);
    }
  }

  /** With distinct keys the picks use exactly what the best candidates for their goals cost. */
  lemma {:induction false} PicksCost(c: seq<ContextItem>, goals: set<SubGoal>, budget: u32, picks: seq<nat>)
    requires Prefix(c, goals, budget, picks) && DistinctKeys(c)
    ensures (forall k | 0 <= k < |picks| :: picks[k] < |c|)
    ensures TokenSum(Picked(c, picks)) == CoverTokens(c, Covered(Picked(c, picks)))
    decreases |picks|
  {
    hide DistinctKeys, IsBest, GoalBest, GoalTokens, GoalOf, Keys;
    if picks == [] {
      assert Covered(Picked(c, picks)) == {};
      NoGoalsCost(c, 8);
    } else {
      var n := |picks| - 1;
      var before, item := Picked(c, picks[..n]), c[picks[n]];
      assert IsBest(c, goals, before, picks[n]);
      ShorterPrefix(c, goals, budget, picks);
      hide Prefix;
      PicksCost(c, goals, budget, picks[..n]);
      BestIsGoalBest(c, goals, budget, picks[..n], picks[n]);
      var goal := GoalOf(item).value;
      GoalBestIsUnique(c, goal, picks[n]);
      ChooseAppend(before, item);
      OneGoal(item);
      UsedAppend(before, item);
      var p := Position(goal);
      hide Covered, CoverTokens;
      CoverTokensAdd(c, Covered(before), goal, p, 8);
    }
  }

  lemma {:induction false} NoGoalsCost(c: seq<ContextItem>, n: nat)
    requires n <= 8
    ensures CoverTokens(c, {}, n) == 0
    decreases n
  {
    hide GoalTokens;
    if n > 0 {
      NoGoalsCost(c, n - 1);
    }
  }

  /** Among finitely many candidates there is a best one. */
  lemma {:induction false} SomeBest(c: seq<ContextItem>, goals: set<SubGoal>, chosen: seq<ContextItem>, n: nat, j: nat) returns (i: nat)
    requires j < n <= |c| && Eligible(c[j], goals, chosen)
    ensures i < n && Eligible(c[i], goals, chosen) && c[i].tokens > 0
    ensures forall k | 0 <= k < n && Eligible(c[k], goals, chosen) ::
              && c[k].tokens > 0 && Value(c[k]) <= Value(c[i]) && (k < i ==> Value(c[k]) < Value(c[i]))
    decreases n
  {
    hide Eligible, Value;
    assert forall k | 0 <= k < |c| && Eligible(c[k], goals, chosen) :: c[k].tokens > 0 by {
      TokensOfEligible(c, goals, chosen);
    }
    if exists k :: 0 <= k < n - 1 && Eligible(c[k], goals, chosen) {
      var k :| 0 <= k < n - 1 && Eligible(c[k], goals, chosen);
      i := SomeBest(c, goals, chosen, n - 1, k);
      if Eligible(c[n - 1], goals, chosen) && Value(c[n - 1]) > Value(c[i]) {
        i := n - 1;
      }
    } else {
      i := j;
    }
  }

  lemma TokensOfEligible(c: seq<ContextItem>, goals: set<SubGoal>, chosen: seq<ContextItem>)
    ensures forall k | 0 <= k < |c| && Eligible(c[k], goals, chosen) :: c[k].tokens > 0
  {
  }

  lemma SomeBestExists(c: seq<ContextItem>, goals: set<SubGoal>, chosen: seq<ContextItem>, j: nat) returns (i: nat)
    requires j < |c| && Eligible(c[j], goals, chosen)
    ensures IsBest(c, goals, chosen, i) && i < |c|
  {
    hide Eligible, Value, Score;
    i := SomeBest(c, goals, chosen, |c|, j);
    TokensOfEligible(c, goals, chosen);
    forall k | 0 <= k < |c| && Eligible(c[k], goals, chosen)
      ensures Score(c[k], goals - Covered(chosen)) == Value(c[k])
    {
      ScoreIsValue(c[k], goals, chosen);
    }
  }

  /** No gap is left if and only if every goal has a candidate and the best candidates of all
      goals together fit the budget: where no two goals share a selection key, and for any budget
      below the token counter's limit. */
  lemma FullCoverIff(c: seq<ContextItem>, goals: set<SubGoal>, budget: u32, picks: seq<nat>)
    requires Greedy(c, goals, budget, picks) && DistinctKeys(c) && budget < U32_MAX
    ensures goals <= Covered(Picked(c, picks))
            <==> (forall goal | goal in goals :: Coverable(c, goal)) && CoverTokens(c, goals) <= budget
  {
    hide DistinctKeys, Eligible, IsBest, Coverable, GoalTokens, GoalOf, CoverTokens, UsedTokens, Covered;
    var chosen := Picked(c, picks);
    PicksCost(c, goals, budget, picks);
    PicksCoverDistinctGoals(c, goals, budget, picks);
    UsedIsCappedSum(chosen);
    if goals <= Covered(chosen) {
      assert goals == Covered(chosen);
      forall goal | goal in goals
        ensures Coverable(c, goal)
      {
        CoveredIsCoverable(c, goals, budget, picks, goal);
      }
    } else if forall goal | goal in goals :: Coverable(c, goal) {
      var goal :| goal in goals && goal !in Covered(chosen);
      var i := NextPick(c, goals, budget, picks, goal);
      hide Prefix;
      StoppedBefore(c, goals, budget, picks, i);
    }
  }

  lemma CoveredIsCoverable(c: seq<ContextItem>, goals: set<SubGoal>, budget: u32, picks: seq<nat>, goal: SubGoal)
    requires Prefix(c, goals, budget, picks) && goal in Covered(Picked(c, picks))
    ensures Coverable(c, goal)
  {
    hide IsBest, GoalOf;
    var chosen := Picked(c, picks);
    var k :| 0 <= k < |chosen| && GoalOf(chosen[k]) == Some(goal);
    PickMeans(c, goals, budget, picks, k);
    assert GoalOf(c[picks[k]]) == Some(goal);
  }

  lemma NextPick(c: seq<ContextItem>, goals: set<SubGoal>, budget: u32, picks: seq<nat>, goal: SubGoal) returns (i: nat)
    requires Prefix(c, goals, budget, picks) && DistinctKeys(c)
    requires goal in goals && goal !in Covered(Picked(c, picks)) && Coverable(c, goal)
    ensures IsBest(c, goals, Picked(c, picks), i) && i < |c|
  {
    hide DistinctKeys, Prefix, Eligible, IsBest, GoalOf;
    PrefixIndexes(c, goals, budget, picks);
    var j :| 0 <= j < |c| && c[j].tokens > 0 && GoalOf(c[j]) == Some(goal);
    Unblocked(c, goals, budget, picks, j);
    i := SomeBestExists(c, goals, Picked(c, picks), j);
  }

  /** The best candidate did not fit: neither do the best candidates of all goals. */
  lemma StoppedBefore(c: seq<ContextItem>, goals: set<SubGoal>, budget: u32, picks: seq<nat>, i: nat)
    requires Prefix(c, goals, budget, picks) && DistinctKeys(c) && budget < U32_MAX
    requires IsBest(c, goals, Picked(c, picks), i) && i < |c|
    requires SaturatingAdd(UsedTokens(Picked(c, picks)), c[i].tokens) > budget
    ensures CoverTokens(c, goals) > budget
  {
    var chosen := Picked(c, picks);
    hide DistinctKeys, Prefix, IsBest, GoalTokens, GoalOf, GoalBest, CoverTokens, UsedTokens, Covered;
    PicksCost(c, goals, budget, picks);
    PicksCoverDistinctGoals(c, goals, budget, picks);
    UsedIsCappedSum(chosen);
    BestIsGoalBest(c, goals, budget, picks, i);
    var goal := GoalOf(c[i]).value;
    GoalBestIsUnique(c, goal, i);
    var p := Position(goal);
    CoverTokensAdd(c, Covered(chosen), goal, p, 8);
    CoverTokensGrow(c, Covered(chosen) + {goal}, goals, 8);
  }

  /** Two claims without a key share a selection key when they share a title, whatever their
      types and summaries: once one is picked, the other's goal stays open, for any budget. */
  lemma SharedTitleLeavesGap(title: string, goals: set<SubGoal>, budget: u32, picks: seq<nat>)
    requires {Decisions, ActiveTasks} <= goals
    requires var claim := ContextItem(FromMemory, Decision, title, title + ":a", 1, [], [], None, Some(UserConfirmed), None, None, None);
             var task := claim.(memoryType := Task, folded := title + ":b");
             Greedy([claim, task], goals, budget, picks)
    ensures var claim := ContextItem(FromMemory, Decision, title, title + ":a", 1, [], [], None, Some(UserConfirmed), None, None, None);
            var task := claim.(memoryType := Task, folded := title + ":b");
            && Candidates([claim, task]) == [claim, task]
            && !({Decisions, ActiveTasks} <= Covered(Picked([claim, task], picks)))
  {
    var claim := ContextItem(FromMemory, Decision, title, title + ":a", 1, [], [], None, Some(UserConfirmed), None, None, None);
    var task := claim.(memoryType := Task, folded := title + ":b");
    var c := [claim, task];
    assert DedupeKey(claim)[|title| + 8] == 'a' && DedupeKey(task)[|title| + 8] == 'b';
    TwoCandidates(claim, task);
    hide IsBest, Weight, Score, Covered, Coverage;
    SameKeyOnePick(c, goals, budget, picks);
    CoversAtMostOneEach(Picked(c, picks));
    FewGoals(Covered(Picked(c, picks)));
  }

  lemma FewGoals(some: set<SubGoal>)
    requires |some| <= 1
    ensures !({Decisions, ActiveTasks} <= some)
  {
    if {Decisions, ActiveTasks} <= some {
      SubsetSize({Decisions, ActiveTasks}, some);
    }
  }

  /** Candidates that all share one selection key yield at most one pick. */
  lemma SameKeyOnePick(c: seq<ContextItem>, goals: set<SubGoal>, budget: u32, picks: seq<nat>)
    requires Prefix(c, goals, budget, picks)
    requires forall i, j | 0 <= i < j < |c| :: SelectionKey(c[i]) == SelectionKey(c[j])
    ensures |picks| <= 1
  {
    hide IsBest, UsedTokens;
    if |picks| > 1 {
      FirstKey(c, picks);
      PickIsEligible(c, goals, budget, picks, 1);
    }
  }

  lemma FirstKey(c: seq<ContextItem>, picks: seq<nat>)
    requires picks != [] && forall k | 0 <= k < |picks| :: picks[k] < |c|
    ensures SelectionKey(c[picks[0]]) in Keys(Picked(c, picks[..1]))
  {
    assert Picked(c, picks[..1])[0] == c[picks[0]];
  }

  lemma TwoCandidates(a: ContextItem, b: ContextItem)
    requires IsAdmissible(a) && IsAdmissible(b) && DedupeKey(a) != DedupeKey(b)
    ensures Candidates([a, b]) == [a, b]
  {
    hide IsAdmissible, DedupeKey;
    assert [a, b][1..] == [b] && [b][1..] == [];
    assert Dedupe([], {} + {DedupeKey(a)} + {DedupeKey(b)}) == [];
    assert Dedupe([b], {} + {DedupeKey(a)}) == [b] + [];
    assert Dedupe([a, b], {}) == [a] + [b];
  }
}
