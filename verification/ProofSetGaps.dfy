/** Why Stage 1 leaves a goal open, for all candidates, shared keys and budgets. */
module ProofSetGaps {
  import opened Sets
  import opened Options
  import opened Contracts
  import opened ProofSetCover
  import opened ProofSetLaws

  /** The candidate could cover the goal. */
  predicate Covers(item: ContextItem, goal: SubGoal) {
    item.tokens > 0 && GoalOf(item) == Some(goal)
  }

  /** A pick for another goal has this key. */
  ghost predicate TakenByOther(c: seq<ContextItem>, picks: seq<nat>, goal: SubGoal, key: string)
    requires forall k | 0 <= k < |picks| :: picks[k] < |c|
  {
    exists k :: 0 <= k < |picks| && SelectionKey(c[picks[k]]) == key && GoalOf(c[picks[k]]) != Some(goal)
  }

  /** Some candidate for the goal has a key that no pick for another goal has. */
  ghost predicate HasFreeCandidate(c: seq<ContextItem>, picks: seq<nat>, goal: SubGoal)
    requires forall k | 0 <= k < |picks| :: picks[k] < |c|
  {
    exists j :: 0 <= j < |c| && Covers(c[j], goal) && !TakenByOther(c, picks, goal, SelectionKey(c[j]))
  }

  /** Of two picks, the earlier one's key blocks the later one's. */
  lemma PickKeysDiffer(c: seq<ContextItem>, goals: set<SubGoal>, budget: u32, picks: seq<nat>, a: nat, b: nat)
    requires Prefix(c, goals, budget, picks) && a < b < |picks|
    ensures SelectionKey(c[picks[a]]) != SelectionKey(c[picks[b]])
  {
    hide IsBest, UsedTokens, SelectionKey, Covered, Coverage;
    PickIsEligible(c, goals, budget, picks, b);
    var before := Picked(c, picks[..b]);
    assert before[a] == c[picks[a]];
    assert SelectionKey(before[a]) in Keys(before);
  }

  /** A covered goal has a free candidate: the one that was picked for it. */
  lemma CoveredHasFree(c: seq<ContextItem>, goals: set<SubGoal>, budget: u32, picks: seq<nat>, goal: SubGoal)
    requires Prefix(c, goals, budget, picks) && goal in Covered(Picked(c, picks))
    ensures HasFreeCandidate(c, picks, goal)
  {
    hide Prefix, GoalOf, SelectionKey;
    PrefixIndexes(c, goals, budget, picks);
    var chosen := Picked(c, picks);
    var k :| 0 <= k < |chosen| && GoalOf(chosen[k]) == Some(goal);
    PickMeans(c, goals, budget, picks, k);
    var j := picks[k];
    assert c[j] == chosen[k] && Covers(c[j], goal);
    forall other | 0 <= other < |picks| && SelectionKey(c[picks[other]]) == SelectionKey(c[j])
      ensures GoalOf(c[picks[other]]) == Some(goal)
    {
      if other < k {
        PickKeysDiffer(c, goals, budget, picks, other, k);
      } else if other > k {
        PickKeysDiffer(c, goals, budget, picks, k, other);
      }
    }
    assert !TakenByOther(c, picks, goal, SelectionKey(c[j]));
  }

  /** An open goal with a free candidate has an eligible one, and so there is a best one. */
  lemma FreeMeansBest(c: seq<ContextItem>, goals: set<SubGoal>, budget: u32, picks: seq<nat>, goal: SubGoal) returns (i: nat)
    requires Prefix(c, goals, budget, picks)
    requires goal in goals - Covered(Picked(c, picks)) && HasFreeCandidate(c, picks, goal)
    ensures i < |c| && IsBest(c, goals, Picked(c, picks), i)
  {
    hide Prefix, GoalOf, SelectionKey, Eligible, IsBest;
    PrefixIndexes(c, goals, budget, picks);
    var j :| 0 <= j < |c| && Covers(c[j], goal) && !TakenByOther(c, picks, goal, SelectionKey(c[j]));
    if SelectionKey(c[j]) in Keys(Picked(c, picks)) {
      var k := KeyIsPicked(c, picks, SelectionKey(c[j]));
      PickMeans(c, goals, budget, picks, k);
      PickedIsCovered(c, picks, k);
    }
    EligibleMeans(c[j], goals, Picked(c, picks));
    i := SomeBestExists(c, goals, Picked(c, picks), j);
  }

  /** Why a goal stays open, for every input: all its candidates, if it has any, have keys of
      picks for other goals, or the best remaining candidate does not fit the budget. */
  lemma OpenGoalIsExplained(c: seq<ContextItem>, goals: set<SubGoal>, budget: u32, picks: seq<nat>, goal: SubGoal)
    requires Greedy(c, goals, budget, picks)
    requires goal in goals - Covered(Picked(c, picks))
    ensures !HasFreeCandidate(c, picks, goal)
            || exists i: nat :: i < |c| && IsBest(c, goals, Picked(c, picks), i)
                             && SaturatingAdd(UsedTokens(Picked(c, picks)), c[i].tokens) > budget
  {
    hide IsBest, HasFreeCandidate, UsedTokens, Covered;
    if HasFreeCandidate(c, picks, goal) {
      var i := FreeMeansBest(c, goals, budget, picks, goal);
    }
  }

  // ----- Without a budget -----

  /** With the largest budget the budget never stops Stage 1. */
  ghost predicate Unbounded(c: seq<ContextItem>, goals: set<SubGoal>, full: seq<nat>) {
    Greedy(c, goals, U32_MAX, full)
  }

  /** There is such a run, for every input. */
  lemma {:induction false} UnboundedExists(c: seq<ContextItem>, goals: set<SubGoal>, picks: seq<nat>) returns (full: seq<nat>)
    requires Prefix(c, goals, U32_MAX, picks)
    ensures Unbounded(c, goals, full)
    decreases |goals| - |picks|
  {
    hide IsBest, UsedTokens, Eligible, Covered;
    if i: nat :| IsBest(c, goals, Picked(c, picks), i) {
      BestIsEligible(c, goals, Picked(c, picks), i);
      OneMorePick(c, goals, U32_MAX, picks, i);
      PicksCoverDistinctGoals(c, goals, U32_MAX, picks + [i]);
      full := UnboundedExists(c, goals, picks + [i]);
    } else {
      full := picks;
    }
  }

  /** Without a budget a goal stays open if and only if all its candidates, if it has any, have
      keys of picks for other goals. */
  lemma OpenGoalIff(c: seq<ContextItem>, goals: set<SubGoal>, full: seq<nat>, goal: SubGoal)
    requires Unbounded(c, goals, full) && goal in goals
    ensures forall k | 0 <= k < |full| :: full[k] < |c|
    ensures goal !in Covered(Picked(c, full)) <==> !HasFreeCandidate(c, full, goal)
  {
    hide IsBest, HasFreeCandidate, UsedTokens, Covered;
    if goal in Covered(Picked(c, full)) {
      CoveredHasFree(c, goals, U32_MAX, full, goal);
    } else {
      OpenGoalIsExplained(c, goals, U32_MAX, full, goal);
    }
  }

  lemma LargerBudget(c: seq<ContextItem>, goals: set<SubGoal>, budget: u32, picks: seq<nat>)
    requires Prefix(c, goals, budget, picks)
    ensures Prefix(c, goals, U32_MAX, picks)
  {
  }

  /** The unbounded run has nothing left to pick. */
  lemma NothingLeft(c: seq<ContextItem>, goals: set<SubGoal>, full: seq<nat>, i: nat)
    requires Unbounded(c, goals, full)
    ensures forall k | 0 <= k < |full| :: full[k] < |c|
    ensures !IsBest(c, goals, Picked(c, full), i)
  {
    hide Eligible, Score, UsedTokens;
  }

  /** The pick that follows a shorter prefix of the unbounded run does not fit the budget. */
  lemma NextDoesNotFit(c: seq<ContextItem>, goals: set<SubGoal>, budget: u32, full: seq<nat>, n: nat)
    requires Unbounded(c, goals, full) && n < |full| && Greedy(c, goals, budget, full[..n])
    ensures forall k | 0 <= k < |full| :: full[k] < |c|
    ensures UsedTokens(Picked(c, full)) > budget && IsBest(c, goals, Picked(c, full[..n]), full[n])
  {
    hide IsBest, UsedTokens;
    assert IsBest(c, goals, Picked(c, full[..n]), full[n]);
    assert full[..n + 1] == full[..n] + [full[n]];
    PickedAppend(c, full[..n], full[n]);
    UsedAppend(Picked(c, full[..n]), c[full[n]]);
    UsedGrows(c, full, n + 1);
  }

  lemma NotLonger(c: seq<ContextItem>, goals: set<SubGoal>, picks: seq<nat>, full: seq<nat>)
    requires Prefix(c, goals, U32_MAX, picks) && Unbounded(c, goals, full)
    ensures picks <= full
  {
    hide IsBest, UsedTokens;
    var n := if |picks| < |full| then |picks| else |full|;
    SamePicks(c, goals, U32_MAX, picks, full, n);
    assert |full| < |picks| ==> IsBest(c, goals, Picked(c, picks[..n]), picks[n]);
    if |full| < |picks| {
      assert full[..n] == full;
      NothingLeft(c, goals, full, picks[n]);
    } else {
      assert picks[..n] == picks;
    }
  }

  /** A budget cuts the unbounded run short, and changes nothing else: exactly when that run
      needs more than the budget, and exactly when there is a best candidate left. */
  lemma BudgetCutsRun(c: seq<ContextItem>, goals: set<SubGoal>, budget: u32, picks: seq<nat>, full: seq<nat>)
    requires Greedy(c, goals, budget, picks) && Unbounded(c, goals, full)
    ensures picks <= full
    ensures (forall k | 0 <= k < |full| :: full[k] < |c|) && (forall k | 0 <= k < |picks| :: picks[k] < |c|)
    ensures |picks| < |full| <==> UsedTokens(Picked(c, full)) > budget
    ensures |picks| < |full| <==> exists i: nat :: IsBest(c, goals, Picked(c, picks), i)
  {
    hide IsBest, UsedTokens;
    LargerBudget(c, goals, budget, picks);
    NotLonger(c, goals, picks, full);
    assert picks == full[..|picks|];
    if |picks| < |full| {
      NextDoesNotFit(c, goals, budget, full, |picks|);
    } else {
      assert picks == full;
      forall i: nat
        ensures !IsBest(c, goals, Picked(c, picks), i)
      {
        NothingLeft(c, goals, full, i);
      }
    }
  }

  /** The exact condition for a full cover, for all candidates and budgets: every goal has a
      candidate whose key no pick for another goal takes, and the unbounded run fits. */
  lemma FullCoverExactlyIff(c: seq<ContextItem>, goals: set<SubGoal>, budget: u32, picks: seq<nat>, full: seq<nat>)
    requires Greedy(c, goals, budget, picks) && Unbounded(c, goals, full)
    ensures (forall k | 0 <= k < |full| :: full[k] < |c|) && (forall k | 0 <= k < |picks| :: picks[k] < |c|)
    ensures goals <= Covered(Picked(c, picks))
            <==> (forall goal | goal in goals :: HasFreeCandidate(c, full, goal)) && UsedTokens(Picked(c, full)) <= budget
  {
    hide Greedy, Unbounded, IsBest, HasFreeCandidate, UsedTokens, Covered;
    BudgetCutsRun(c, goals, budget, picks, full);
    forall goal | goal in goals
      ensures goal in Covered(Picked(c, full)) <==> HasFreeCandidate(c, full, goal)
    {
      OpenGoalIff(c, goals, full, goal);
    }
    if |picks| < |full| {
      CutRunLeavesGap(c, goals, picks, full);
    } else {
      assert picks == full;
    }
  }

  /** A run that was cut short covers fewer goals than there are. */
  lemma CutRunLeavesGap(c: seq<ContextItem>, goals: set<SubGoal>, picks: seq<nat>, full: seq<nat>)
    requires Unbounded(c, goals, full) && picks <= full && |picks| < |full|
    ensures (forall k | 0 <= k < |full| :: full[k] < |c|) && (forall k | 0 <= k < |picks| :: picks[k] < |c|)
    ensures !(goals <= Covered(Picked(c, picks)))
  {
    hide IsBest, UsedTokens, GoalOf, Coverage;
    var n := |picks|;
    assert picks == full[..n];
    PickIsEligible(c, goals, U32_MAX, full, n);
    EligibleMeans(c[full[n]], goals, Picked(c, full[..n]));
  }
}
