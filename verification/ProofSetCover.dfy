/** Stage 1 of `compile_minimal_proof_set`: the greedy weighted cover of the sub-goals. */
module ProofSetCover {
  import opened Options
  import opened Contracts

  datatype SubGoal =
    | Decisions | ActiveTasks | Facts | Bugs | Fixes | Constraints | Implementation | OpenQuestions

  /** In declaration order, by which a set of goals is listed. */
  const ALL_GOALS := [Decisions, ActiveTasks, Facts, Bugs, Fixes, Constraints, Implementation, OpenQuestions]

  // ----- Sub-goals -----

  predicate Contains(s: string, part: string) {
    exists i :: 0 <= i <= |s| && part <= s[i..]
  }

  predicate ContainsAny(s: string, parts: seq<string>) {
    exists k :: 0 <= k < |parts| && Contains(s, parts[k])
  }

  /** The sub-goals of an objective, given in lower case. */
  function InferSubGoals(lower: string): set<SubGoal> {
    {Decisions, ActiveTasks, Facts}
    + (if ContainsAny(lower, ["bug", "error", "debug", "fail"]) then {Bugs, Fixes} else {})
    + (if ContainsAny(lower, ["constraint", "must ", "requirement", "invariant"]) then {Constraints} else {})
    + (if ContainsAny(lower, ["implement", "refactor", "build ", "code", "module"]) then {Implementation} else {})
    + (if ContainsAny(lower, ["question", "unknown", "unclear", "open "]) then {OpenQuestions} else {})
  }

  /** The one sub-goal a memory claim covers, if its type has one. */
  function GoalOf(item: ContextItem): Option<SubGoal> {
    if !item.source.FromMemory? then None
    else
      match item.memoryType
      case Decision => Some(Decisions)
      case Task => Some(ActiveTasks)
      case Fact => Some(Facts)
      case Bug => Some(Bugs)
      case Fix => Some(Fixes)
      case Constraint => Some(Constraints)
      case ImplementationDetail => Some(Implementation)
      case OpenQuestion => Some(OpenQuestions)
      case Summary => None
      case Risk => None
      case ChangeLog => None
  }

  function Coverage(item: ContextItem): set<SubGoal> {
    match GoalOf(item) case Some(goal) => {goal} case None => {}
  }

  // ----- Weights -----

  function Freshness(item: ContextItem): real {
    if item.validTo.Some? && item.validTo.value != "" then 0.35 else 1.0
  }

  function Authority(item: ContextItem): real {
    match item.authority
    case None => 0.5
    case Some(a) =>
      match a
      case Repository => 1.0
      case UserConfirmed => 1.0
      case ToolVerified => 0.95
      case TestVerified => 0.95
      case SessionDerived => 0.55
      case ModelDerived => 0.0
  }

  function ProofDensity(item: ContextItem): real {
    var half := |item.proofs| as real / 2.0;
    var capped := if half > 1.0 then 1.0 else half;
    if capped < 0.25 then 0.25 else capped
  }

  function Weight(item: ContextItem): real {
    Freshness(item) * Authority(item) * ProofDensity(item)
  }

  predicate IsAdmissible(item: ContextItem) {
    !item.source.FromMemory?
    || (&& item.authority != Some(ModelDerived)
        && item.verification != Some(Contradicted) && item.verification != Some(Unverified)
        && item.supersededBy.None?)
  }

  // ----- Candidates -----

  /** The first item with each key. */
  function Dedupe(items: seq<ContextItem>, seen: set<string>): seq<ContextItem> {
    if items == [] then []
    else
      var key := DedupeKey(items[0]);
      if !IsAdmissible(items[0]) then Dedupe(items[1..], seen)
      else if key in seen then Dedupe(items[1..], seen)
      else [items[0]] + Dedupe(items[1..], seen + {key})
  }

  function Candidates(items: seq<ContextItem>): seq<ContextItem> {
    Dedupe(items, {})
  }

  lemma {:induction false} DedupeIsDistinct(items: seq<ContextItem>, seen: set<string>)
    ensures var c := Dedupe(items, seen);
            && (forall x | x in c :: x in items && IsAdmissible(x) && DedupeKey(x) !in seen)
            && (forall i, j | 0 <= i < j < |c| :: DedupeKey(c[i]) != DedupeKey(c[j]))
  {
    hide IsAdmissible, DedupeKey;
    if items != [] {
      assert items == [items[0]] + items[1..];
      var key := DedupeKey(items[0]);
      if !IsAdmissible(items[0]) || key in seen {
        DedupeIsDistinct(items[1..], seen);
      } else {
        DedupeIsDistinct(items[1..], seen + {key});
        var c, rest := Dedupe(items, seen), Dedupe(items[1..], seen + {key});
        assert c == [items[0]] + rest;
        assert forall j | 1 <= j < |c| :: c[j] in rest;
      }
    }
  }

  ghost predicate HasCandidate(c: seq<ContextItem>, key: string) {
    exists i :: 0 <= i < |c| && DedupeKey(c[i]) == key
  }

  lemma {:induction false} DedupeKeepsOne(items: seq<ContextItem>, seen: set<string>, item: ContextItem)
    requires item in items && IsAdmissible(item) && DedupeKey(item) !in seen
    ensures HasCandidate(Dedupe(items, seen), DedupeKey(item))
  {
    hide IsAdmissible, DedupeKey;
    var key := DedupeKey(items[0]);
    assert item == items[0] || item in items[1..];
    if !IsAdmissible(items[0]) || key in seen {
      DedupeKeepsOne(items[1..], seen, item);
    } else if DedupeKey(item) == key {
      assert Dedupe(items, seen)[0] == items[0];
    } else {
      DedupeKeepsOne(items[1..], seen + {key}, item);
      var rest := Dedupe(items[1..], seen + {key});
      var i :| 0 <= i < |rest| && DedupeKey(rest[i]) == DedupeKey(item);
      assert Dedupe(items, seen)[i + 1] == rest[i];
    }
  }

  /** The candidates are admissible items, with one candidate for each of their keys. */
  lemma CandidatesAreDistinct(items: seq<ContextItem>)
    ensures var c := Candidates(items);
            && (forall x | x in c :: x in items && IsAdmissible(x))
            && (forall i, j | 0 <= i < j < |c| :: DedupeKey(c[i]) != DedupeKey(c[j]))
            && (forall item | item in items && IsAdmissible(item) :: HasCandidate(c, DedupeKey(item)))
  {
    hide IsAdmissible, DedupeKey, HasCandidate;
    DedupeIsDistinct(items, {});
    forall item | item in items && IsAdmissible(item)
      ensures HasCandidate(Candidates(items), DedupeKey(item))
    {
      DedupeKeepsOne(items, {}, item);
    }
    forall x | x in Candidates(items)
      ensures x in items && IsAdmissible(x)
    {
    }
  }

  // ----- The greedy choice -----

  /** The key by which Stage 1 marks a claim as chosen. Without a claim key it is coarser than
      the key that separates the candidates: it leaves out the summary. */
  function SelectionKey(item: ContextItem): string {
    match item.claimKey
    case Some(key) => key
    case None => SourceName(item.source) + ":" + item.title
  }

  function Covered(chosen: seq<ContextItem>): set<SubGoal> {
    set k | 0 <= k < |chosen| && GoalOf(chosen[k]).Some? :: GoalOf(chosen[k]).value
  }

  function Keys(chosen: seq<ContextItem>): set<string> {
    set k | 0 <= k < |chosen| :: SelectionKey(chosen[k])
  }

  /** May the item be chosen after `chosen`? */
  predicate Eligible(item: ContextItem, goals: set<SubGoal>, chosen: seq<ContextItem>) {
    && SelectionKey(item) !in Keys(chosen)
    && Coverage(item) * (goals - Covered(chosen)) != {}
    && item.tokens > 0
  }

  function Score(item: ContextItem, uncovered: set<SubGoal>): real
    requires item.tokens > 0
  {
    |Coverage(item) * uncovered| as real * Weight(item) / item.tokens as real
  }

  /** The eligible candidate with the best score, the first of these. */
  ghost predicate IsBest(c: seq<ContextItem>, goals: set<SubGoal>, chosen: seq<ContextItem>, i: nat) {
    var uncovered := goals - Covered(chosen);
    && i < |c| && Eligible(c[i], goals, chosen)
    && (forall j | 0 <= j < |c| && Eligible(c[j], goals, chosen) :: Score(c[j], uncovered) <= Score(c[i], uncovered))
    && (forall j | 0 <= j < i && Eligible(c[j], goals, chosen) :: Score(c[j], uncovered) < Score(c[i], uncovered))
  }

  /** The picks of Stage 1: always the best candidate, within the budget, until the best one
      does not fit or there is none. */
  ghost predicate Greedy(c: seq<ContextItem>, goals: set<SubGoal>, budget: u32, picks: seq<nat>) {
    && Prefix(c, goals, budget, picks)
    && forall i: nat | IsBest(c, goals, Picked(c, picks), i) ::
         SaturatingAdd(UsedTokens(Picked(c, picks)), c[i].tokens) > budget
  }

  ghost predicate Prefix(c: seq<ContextItem>, goals: set<SubGoal>, budget: u32, picks: seq<nat>) {
    && (forall k | 0 <= k < |picks| :: picks[k] < |c|)
    && (forall k | 0 <= k < |picks| :: IsBest(c, goals, Picked(c, picks[..k]), picks[k]))
    && UsedTokens(Picked(c, picks)) <= budget
  }

  // ----- The loop -----

  /** The scan for the best candidate: its index and its score. */
  method FindBest(
    c: seq<ContextItem>, uncovered: set<SubGoal>, selectedIds: set<string>,
    ghost goals: set<SubGoal>, ghost chosen: seq<ContextItem>)
    returns (best: Option<(nat, real)>)
    requires uncovered == goals - Covered(chosen) && selectedIds == Keys(chosen)
    ensures best.Some? ==> IsBest(c, goals, chosen, best.value.0)
    ensures best.None? ==> forall i | 0 <= i < |c| :: !Eligible(c[i], goals, chosen)
  {
    hide Covered, Keys, Coverage, Score, SelectionKey;
    best := None;
    for idx := 0 to |c|
      invariant best.None? ==> forall i | 0 <= i < idx :: !Eligible(c[i], goals, chosen)
      invariant best.Some? ==>
                  && best.value.0 < idx && Eligible(c[best.value.0], goals, chosen)
                  && best.value.1 == Score(c[best.value.0], uncovered)
                  && (forall j | 0 <= j < idx && Eligible(c[j], goals, chosen) :: Score(c[j], uncovered) <= best.value.1)
                  && (forall j | 0 <= j < best.value.0 && Eligible(c[j], goals, chosen) ::
                        Score(c[j], uncovered) < best.value.1)
    {
      var item := c[idx];
      if SelectionKey(item) in selectedIds {
        continue;
      }
      var newlyCovered := |Coverage(item) * uncovered|;
      if newlyCovered == 0 {
        continue;
      }
      if item.tokens == 0 {
        continue;
      }
      var score := Score(item, uncovered);
      if best.None? || score > best.value.1 {
        best := Some((idx, score));
      }
    }
  }

  /** Stage 1. `picks` are the indexes of the chosen candidates, in order. */
  method ChooseCover(c: seq<ContextItem>, goals: set<SubGoal>, budget: u32)
    returns (uncovered: set<SubGoal>, selected: seq<ContextItem>, selectedIds: set<string>, used: u32, ghost picks: seq<nat>)
    ensures Greedy(c, goals, budget, picks) && selected == Picked(c, picks)
    ensures uncovered == goals - Covered(selected) && selectedIds == Keys(selected) && used == UsedTokens(selected)
  {
    hide IsBest, Eligible, UsedTokens, Covered, Keys;
    uncovered, selected, selectedIds, used, picks := goals, [], {}, 0, [];
    NothingChosen(c, goals);
    while uncovered != {}
      invariant Prefix(c, goals, budget, picks) && selected == Picked(c, picks)
      invariant uncovered == goals - Covered(selected) && selectedIds == Keys(selected) && used == UsedTokens(selected)
      decreases |uncovered|
    {
      var best := FindBest(c, uncovered, selectedIds, goals, selected);
      if best.None? {
        forall i: nat
          ensures !IsBest(c, goals, selected, i)
        {
          BestIsEligible(c, goals, selected, i);
        }
        return;
      }
      var idx := best.value.0;
      BestIsEligible(c, goals, selected, idx);
      var pick := c[idx];
      if SaturatingAdd(used, pick.tokens) > budget {
        forall i: nat | IsBest(c, goals, selected, i)
          ensures i == idx
        {
          BestIsUnique(c, goals, selected, i, idx);
        }
        return;
      }
      OneMorePick(c, goals, budget, picks, idx);
      ChooseAppend(selected, pick);
      CoversMore(goals, selected, pick);
      used := SaturatingAdd(used, pick.tokens);
      uncovered := uncovered - Coverage(pick);
      selectedIds := selectedIds + {SelectionKey(pick)};
      selected, picks := selected + [pick], picks + [idx];
    }
    forall i: nat
      ensures !IsBest(c, goals, selected, i)
    {
      BestIsEligible(c, goals, selected, i);
    }
  }

  lemma NothingChosen(c: seq<ContextItem>, goals: set<SubGoal>)
    ensures Covered([]) == {} && Keys([]) == {} && UsedTokens([]) == 0 && Picked(c, []) == []
  {
  }

  lemma BestIsEligible(c: seq<ContextItem>, goals: set<SubGoal>, chosen: seq<ContextItem>, i: nat)
    ensures IsBest(c, goals, chosen, i) ==>
              i < |c| && Eligible(c[i], goals, chosen) && Coverage(c[i]) * (goals - Covered(chosen)) != {}
  {
  }

  lemma BestIsUnique(c: seq<ContextItem>, goals: set<SubGoal>, chosen: seq<ContextItem>, i: nat, j: nat)
    requires IsBest(c, goals, chosen, i) && IsBest(c, goals, chosen, j)
    ensures i == j
  {
    hide Eligible, Score;
  }

  lemma OneMorePick(c: seq<ContextItem>, goals: set<SubGoal>, budget: u32, picks: seq<nat>, i: nat)
    requires Prefix(c, goals, budget, picks) && IsBest(c, goals, Picked(c, picks), i)
    requires i < |c| && SaturatingAdd(UsedTokens(Picked(c, picks)), c[i].tokens) <= budget
    ensures Prefix(c, goals, budget, picks + [i]) && Picked(c, picks + [i]) == Picked(c, picks) + [c[i]]
  {
    hide IsBest, UsedTokens;
    var longer := picks + [i];
    PickedAppend(c, picks, i);
    UsedAppend(Picked(c, picks), c[i]);
    forall k | 0 <= k < |longer|
      ensures longer[k] < |c| && IsBest(c, goals, Picked(c, longer[..k]), longer[k])
    {
      if k < |picks| {
        assert longer[..k] == picks[..k];
      } else {
        assert longer[..k] == picks;
      }
    }
  }

  lemma ChooseAppend(chosen: seq<ContextItem>, item: ContextItem)
    ensures Covered(chosen + [item]) == Covered(chosen) + Coverage(item)
    ensures Keys(chosen + [item]) == Keys(chosen) + {SelectionKey(item)}
    ensures UsedTokens(chosen + [item]) == SaturatingAdd(UsedTokens(chosen), item.tokens)
  {
    hide SelectionKey, GoalOf;
    var longer := chosen + [item];
    assert forall k | 0 <= k < |chosen| :: longer[k] == chosen[k];
    assert longer[|chosen|] == item;
    UsedAppend(chosen, item);
  }

  lemma CoversMore(goals: set<SubGoal>, chosen: seq<ContextItem>, item: ContextItem)
    requires Coverage(item) * (goals - Covered(chosen)) != {}
    ensures |(goals - Covered(chosen)) - Coverage(item)| < |goals - Covered(chosen)|
    ensures (goals - Covered(chosen)) - Coverage(item) == goals - (Covered(chosen) + Coverage(item))
  {
    hide Covered, GoalOf;
    var uncovered := goals - Covered(chosen);
    assert GoalOf(item).Some? && GoalOf(item).value in uncovered;
    assert uncovered - Coverage(item) == uncovered - {GoalOf(item).value};
  }
}
