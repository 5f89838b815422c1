/** What the reports of a pack are worth: unknowns, usage, staleness, advice and proofs. */
module ProofSetReports {
  import opened Options
  import opened Contracts
  import opened Sorting
  import opened ProofSetCover
  import opened ProofSetLaws
  import opened ProofSetGaps
  import opened ProofSetCompiler
  import opened Evidence

  // ----- When something is reported unknown -----

  /** Items that all have a claim key never block one another across goals. */
  lemma KeyedCandidatesAreDistinct(items: seq<ContextItem>)
    requires forall x | x in items :: x.claimKey.Some?
    ensures DistinctKeys(Candidates(items))
  {
    hide Candidates, GoalOf, HasCandidate, IsAdmissible;
    CandidatesAreDistinct(items);
    var c := Candidates(items);
    forall i | 0 <= i < |c|
      ensures DedupeKey(c[i]) == SelectionKey(c[i])
    {
      assert c[i] in c;
    }
  }

  lemma NoneLeft(goals: set<SubGoal>, covered: set<SubGoal>)
    ensures goals - covered == {} <==> goals <= covered
  {
    if goals - covered == {} {
      forall g | g in goals
        ensures g in covered
      {
        assert g !in goals - covered;
      }
    }
    assert goals <= covered ==> goals - covered == {};
  }

  lemma UnknownsMean(
    lower: string, items: seq<ContextItem>, budget: u32, intent: RetrievalIntent, picks: seq<nat>, pack: Pack)
    requires Compiled(lower, items, budget, intent, picks, pack)
    ensures forall k | 0 <= k < |picks| :: picks[k] < |Candidates(items)|
    ensures var uncovered := InferSubGoals(lower) - Covered(Picked(Candidates(items), picks));
            && pack.unknowns == Unknowns(uncovered, budget)
            && (pack.unknowns == [] <==> InferSubGoals(lower) <= Covered(Picked(Candidates(items), picks)))
            && pack.used == UsedTokens(Selected(items, picks, budget, intent))
  {
    var c, goals := Candidates(items), InferSubGoals(lower);
    hide Greedy, Candidates, InferSubGoals, BuildPack, Fill, UsedTokens, Filler, Keys, Covered, Selected;
    GreedyIndexes(c, goals, budget, picks);
    var selected := Selected(items, picks, budget, intent);
    PackUnknowns(selected, goals - Covered(Picked(c, picks)), budget, UsedTokens(selected), pack.handles);
    NoneLeft(goals, Covered(Picked(c, picks)));
  }

  /** For all items and budgets: nothing is reported unknown if and only if every inferred goal
      has a candidate whose key no pick for another goal takes, and the unbounded run of Stage 1
      fits the budget. */
  lemma NothingUnknownExactlyIff(
    lower: string, items: seq<ContextItem>, budget: u32, intent: RetrievalIntent, picks: seq<nat>, pack: Pack,
    full: seq<nat>)
    requires Compiled(lower, items, budget, intent, picks, pack)
    requires Unbounded(Candidates(items), InferSubGoals(lower), full)
    ensures forall k | 0 <= k < |full| :: full[k] < |Candidates(items)|
    ensures pack.unknowns == []
            <==> && (forall goal | goal in InferSubGoals(lower) :: HasFreeCandidate(Candidates(items), full, goal))
                 && UsedTokens(Picked(Candidates(items), full)) <= budget
  {
    UnknownsMean(lower, items, budget, intent, picks, pack);
    hide Unknowns, Greedy, Candidates, InferSubGoals, BuildPack, UsedTokens, Covered, Selected, Unbounded, HasFreeCandidate;
    FullCoverExactlyIff(Candidates(items), InferSubGoals(lower), budget, picks, full);
  }

  /** Where no two goals share a selection key, and for budgets below the counter's limit, the
      condition is about the best candidate of each goal alone. */
  lemma NothingUnknownIff(
    lower: string, items: seq<ContextItem>, budget: u32, intent: RetrievalIntent, picks: seq<nat>, pack: Pack)
    requires Compiled(lower, items, budget, intent, picks, pack)
    requires budget < U32_MAX && DistinctKeys(Candidates(items))
    ensures pack.unknowns == []
            <==> && (forall goal | goal in InferSubGoals(lower) :: Coverable(Candidates(items), goal))
                 && CoverTokens(Candidates(items), InferSubGoals(lower)) <= budget
  {
    UnknownsMean(lower, items, budget, intent, picks, pack);
    hide Unknowns, Greedy, Candidates, InferSubGoals, BuildPack, UsedTokens, Covered, Selected, DistinctKeys, Coverable, CoverTokens;
    FullCoverIff(Candidates(items), InferSubGoals(lower), budget, picks);
  }

  // ----- The marker of an exceeded budget -----

  /** The marker is there whenever something is unknown. It is accurate, that is a best candidate
      was left that did not fit the budget, if and only if the unbounded run of Stage 1 needs
      more than the budget. */
  lemma MarkerIsAccurateIff(
    lower: string, items: seq<ContextItem>, budget: u32, intent: RetrievalIntent, picks: seq<nat>, pack: Pack,
    full: seq<nat>)
    requires Compiled(lower, items, budget, intent, picks, pack)
    requires Unbounded(Candidates(items), InferSubGoals(lower), full)
    ensures (forall k | 0 <= k < |full| :: full[k] < |Candidates(items)|) && (forall k | 0 <= k < |picks| :: picks[k] < |Candidates(items)|)
    ensures pack.unknowns != [] ==> pack.unknowns[0].BudgetExceeded? && pack.unknowns[0].budget == budget
    ensures (exists i: nat :: IsBest(Candidates(items), InferSubGoals(lower), Picked(Candidates(items), picks), i))
            <==> UsedTokens(Picked(Candidates(items), full)) > budget
  {
    UnknownsMean(lower, items, budget, intent, picks, pack);
    hide Greedy, Candidates, InferSubGoals, BuildPack, UsedTokens, Covered, Selected, Unbounded, IsBest;
    BudgetCutsRun(Candidates(items), InferSubGoals(lower), budget, picks, full);
  }

  /** Without any items, every inferred goal is reported, under the marker of an exceeded budget,
      whatever the budget is. */
  lemma MarkerWithoutCandidates(lower: string, budget: u32, intent: RetrievalIntent, picks: seq<nat>, pack: Pack)
    requires Compiled(lower, [], budget, intent, picks, pack)
    ensures picks == [] && pack.used == 0
    ensures pack.unknowns != [] && pack.unknowns[0] == BudgetExceeded(budget, |InferSubGoals(lower)|)
  {
    UnknownsMean(lower, [], budget, intent, picks, pack);
    assert Candidates([]) == [];
    NoPicks(InferSubGoals(lower), budget, picks);
    assert Picked(Candidates([]), picks) == [] && Covered([]) == {} && Keys([]) == {};
    assert Decisions in InferSubGoals(lower) && InferSubGoals(lower) - {} == InferSubGoals(lower);
    NothingToFill(intent, budget);
  }

  lemma NoPicks(goals: set<SubGoal>, budget: u32, picks: seq<nat>)
    requires Prefix([], goals, budget, picks)
    ensures picks == []
  {
    hide GoalOf;
    var covered := Covered(Picked([], picks));
    if goal :| goal in covered {
      CoveredIsCoverable([], goals, budget, picks, goal);
    }
    PicksCoverDistinctGoals([], goals, budget, picks);
    assert covered == {};
  }

  lemma NothingToFill(intent: RetrievalIntent, budget: u32)
    ensures Selected([], [], budget, intent) == [] && UsedTokens([]) == 0
  {
    assert Candidates([]) == [] && Picked([], []) == [] && Keys([]) == {};
  }

  // ----- Stale claims -----

  /** Whether a claim is admitted does not depend on its `valid_to`. */
  lemma ValidToIsNoFilter(item: ContextItem, validTo: Option<string>)
    ensures IsAdmissible(item.(validTo := validTo)) == IsAdmissible(item)
    ensures GoalOf(item.(validTo := validTo)) == GoalOf(item)
    ensures DedupeKey(item.(validTo := validTo)) == DedupeKey(item)
  {
  }

  /** A lone item that is admissible and fits the budget is always selected. */
  lemma LoneItemIsSelected(
    lower: string, item: ContextItem, budget: u32, intent: RetrievalIntent, picks: seq<nat>, pack: Pack)
    requires Compiled(lower, [item], budget, intent, picks, pack) && IsAdmissible(item) && item.tokens <= budget
    ensures forall k | 0 <= k < |picks| :: picks[k] < |Candidates([item])|
    ensures item in Selected([item], picks, budget, intent)
  {
    UnknownsMean(lower, [item], budget, intent, picks, pack);
    FillerIsMaximal(lower, [item], budget, intent, picks, pack, item);
    SelectedAreItems(lower, [item], budget, intent, picks, pack);
    hide Compiled, IsAdmissible, Candidates, UsedTokens, SelectionKey, Unknowns;
    var selected, chosen := Selected([item], picks, budget, intent), Picked(Candidates([item]), picks);
    if SelectionKey(item) in Keys(chosen) {
      assert chosen[0] in selected;
      assert selected[0] in selected;
    } else if selected == [] {
      NothingIsUsed();
    } else {
      assert selected[0] in selected;
    }
  }

  lemma NothingIsUsed()
    ensures UsedTokens([]) == 0
  {
  }

  lemma SelectedAreItems(
    lower: string, items: seq<ContextItem>, budget: u32, intent: RetrievalIntent, picks: seq<nat>, pack: Pack)
    requires Compiled(lower, items, budget, intent, picks, pack)
    ensures forall k | 0 <= k < |picks| :: picks[k] < |Candidates(items)|
    ensures forall x | x in Selected(items, picks, budget, intent) :: x in items && IsAdmissible(x)
    ensures Picked(Candidates(items), picks) <= Selected(items, picks, budget, intent)
  {
    hide Greedy, Candidates, InferSubGoals, BuildPack, UsedTokens, Covered, IsAdmissible;
    GreedyIndexes(Candidates(items), InferSubGoals(lower), budget, picks);
    SelectedIsAdmissible(items, InferSubGoals(lower), budget, intent, picks);
  }

  /** A decision whose validity has ended still reaches the recent decisions. */
  lemma StaleClaimIsPacked(
    lower: string, item: ContextItem, ended: string, budget: u32, intent: RetrievalIntent, picks: seq<nat>, pack: Pack)
    requires item.source.FromMemory? && item.memoryType == Decision && item.validTo == Some(ended) && ended != ""
    requires IsAdmissible(item) && item.tokens <= budget
    requires Compiled(lower, [item], budget, intent, picks, pack)
    ensures item in pack.recentDecisions && Freshness(item) == 0.35
  {
    LoneItemIsSelected(lower, item, budget, intent, picks, pack);
    var selected := Selected([item], picks, budget, intent);
    var uncovered := InferSubGoals(lower) - Covered(Picked(Candidates([item]), picks));
    hide Greedy, Candidates, InferSubGoals, BuildPack, UsedTokens, Covered, Selected, IsAdmissible;
    PackUnknowns(selected, uncovered, budget, UsedTokens(selected), pack.handles);
    InFilter(selected, (x: ContextItem) => x.source.FromMemory? && x.memoryType == Decision, item);
  }

  // ----- Usage at the counter's limit -----

  /** Two repository items of the largest size and the largest budget: both are packed, and the
      usage shown is half of their sum. */
  lemma UsageSaturates(lower: string, item: ContextItem, intent: RetrievalIntent) returns (pack: Pack)
    requires item.source.FromRepository? && item.tokens == U32_MAX && item.proofs == [] && item.provenance == []
    ensures Compiled(lower, [item, item], U32_MAX, intent, [], pack)
    ensures pack.used == U32_MAX && TokenSum(Selected([item, item], [], U32_MAX, intent)) == 2 * U32_MAX
  {
    var items := [item, item];
    NothingToCover(lower, items);
    BothFill(item, intent);
    var selected := Selected(items, [], U32_MAX, intent);
    TwoUsed(item);
    var uncovered := InferSubGoals(lower) - Covered(Picked(Candidates(items), []));
    pack := BuildPack(selected, uncovered, U32_MAX, UsedTokens(selected), Handles([], []));
    PackUnknowns(selected, uncovered, U32_MAX, UsedTokens(selected), Handles([], []));
    NoHandles(item);
  }

  lemma NothingToCover(lower: string, items: seq<ContextItem>)
    requires forall x | x in items :: GoalOf(x).None?
    ensures Greedy(Candidates(items), InferSubGoals(lower), U32_MAX, [])
  {
    CandidatesAreDistinct(items);
    var c, goals := Candidates(items), InferSubGoals(lower);
    hide Candidates, InferSubGoals, GoalOf, SelectionKey, Score, IsAdmissible;
    NothingIsUsed();
    forall i: nat
      ensures !IsBest(c, goals, Picked(c, []), i)
    {
      if i < |c| {
        assert c[i] in c;
        EligibleMeans(c[i], goals, Picked(c, []));
      }
    }
  }

  lemma BothFill(item: ContextItem, intent: RetrievalIntent)
    requires item.source.FromRepository? && item.tokens == U32_MAX
    ensures Selected([item, item], [], U32_MAX, intent) == [item, item]
  {
    var items := [item, item];
    assert Picked(Candidates(items), []) == [] && Keys([]) == {};
    NothingIsUsed();
    BothFilter(item, LeftOver({}));
    BothSort(item, ByPriority(intent));
    assert Filler(items, {}, intent) == items;
    assert items[1..] == [item] && [item][1..] == [];
    assert Fill([item], U32_MAX, U32_MAX) == [item] + [];
    assert Fill(items, 0, U32_MAX) == [item] + Fill([item], U32_MAX, U32_MAX);
  }

  lemma BothFilter(item: ContextItem, keep: ContextItem -> bool)
    requires keep(item)
    ensures Filter([item, item], keep) == [item, item]
  {
    assert [item, item][1..] == [item] && [item][1..] == [];
    assert Filter([item], keep) == [item] + Filter([], keep);
  }

  lemma BothSort(item: ContextItem, le: (ContextItem, ContextItem) -> bool)
    requires le(item, item)
    ensures Sort([item, item], le) == [item, item]
  {
    assert [item, item][1..] == [item] && [item][1..] == [];
    assert Sort([item], le) == [item];
  }

  lemma TwoUsed(item: ContextItem)
    requires item.tokens == U32_MAX
    ensures UsedTokens([item, item]) == U32_MAX && TokenSum([item, item]) == 2 * U32_MAX
  {
    assert [item, item] == [item] + [item] && [item] == [] + [item];
    UsedAppend([item], item);
    UsedAppend([], item);
  }

  lemma NoHandles(item: ContextItem)
    requires item.proofs == [] && item.provenance == []
    ensures ListsLast(AllProofs([item, item]), KeyOfProof, ProofLess, [])
    ensures ListsLast(AllSources([item, item]), KeyOfSource, SourceLess, [])
  {
    assert [item, item][..1] == [item] && [item][..0] == [];
    assert AllProofs([]) == [] && AllSources([]) == [];
    assert AllProofs([item]) == AllProofs([]) + item.proofs && AllSources([item]) == AllSources([]) + item.provenance;
    assert AllProofs([item, item]) == AllProofs([item]) + item.proofs;
    assert AllSources([item, item]) == AllSources([item]) + item.provenance;
  }

  // ----- Advice and proofs -----

  /** The pack advises to narrow the objective exactly when something is unknown, and to resolve
      contradictions exactly when its conflicts hold a contradicted item, which is never a memory
      claim. */
  lemma AdviceIsExact(
    lower: string, items: seq<ContextItem>, budget: u32, intent: RetrievalIntent, picks: seq<nat>, pack: Pack)
    requires Compiled(lower, items, budget, intent, picks, pack)
    ensures NarrowObjective in pack.advice <==> pack.unknowns != []
    ensures ResolveContradicted in pack.advice
            <==> exists x :: x in pack.conflicts && x.verification == Some(Contradicted) && !x.source.FromMemory?
  {
    UnknownsMean(lower, items, budget, intent, picks, pack);
    SelectedAreItems(lower, items, budget, intent, picks, pack);
    var selected := Selected(items, picks, budget, intent);
    var uncovered := InferSubGoals(lower) - Covered(Picked(Candidates(items), picks));
    hide Greedy, Candidates, InferSubGoals, BuildPack, UsedTokens, Covered, Selected, FilterConflicts, Recommended, IsAdmissible;
    PackUnknowns(selected, uncovered, budget, UsedTokens(selected), pack.handles);
    AdviceOf(selected, uncovered);
    hide Unknowns;
    forall x | x in selected && x.verification == Some(Contradicted)
      ensures !x.source.FromMemory?
    {
      ContradictedIsNoClaim(x);
    }
  }

  lemma ContradictedIsNoClaim(x: ContextItem)
    requires IsAdmissible(x) && x.verification == Some(Contradicted)
    ensures !x.source.FromMemory?
  {
  }

  lemma AdviceOf(selected: seq<ContextItem>, uncovered: set<SubGoal>)
    ensures NarrowObjective in Recommended(selected, uncovered) <==> uncovered != {}
    ensures ResolveContradicted in Recommended(selected, uncovered)
            <==> exists x :: x in FilterConflicts(selected) && x.verification == Some(Contradicted)
    ensures forall x | x in FilterConflicts(selected) :: x in selected
  {
    forall x
      ensures x in FilterConflicts(selected) <==> x in selected && (x.source.FromConflict? || x.verification == Some(Contradicted))
    {
      InFilter(selected, (item: ContextItem) => item.source.FromConflict? || item.verification == Some(Contradicted), x);
    }
    hide FilterConflicts;
    if i :| 0 <= i < |selected| && selected[i].verification == Some(Contradicted) {
      assert selected[i] in selected && selected[i] in FilterConflicts(selected);
    }
  }

  /** Whatever a selected item's handle proves (by source, session, event and kind) is listed exactly
      once, and every listed handle is one of an admissible item. */
  lemma ProofsAreListed(
    lower: string, items: seq<ContextItem>, budget: u32, intent: RetrievalIntent, picks: seq<nat>, pack: Pack)
    requires Compiled(lower, items, budget, intent, picks, pack)
    ensures forall k | 0 <= k < |picks| :: picks[k] < |Candidates(items)|
    ensures forall x, h | x in Selected(items, picks, budget, intent) && h in x.proofs ::
              IsListed(pack.handles.proofs, h)
    ensures NoneTwice(pack.handles.proofs)
    ensures forall v | v in pack.handles.proofs :: exists x :: x in items && IsAdmissible(x) && v in x.proofs
  {
    SelectedAreItems(lower, items, budget, intent, picks, pack);
    hide Greedy, Candidates, InferSubGoals, BuildPack, UsedTokens, Covered, Selected, ListsLast, AllProofs, AllSources, IsListed, NoneTwice;
    ListedKeys(Selected(items, picks, budget, intent), pack.handles.proofs);
    hide Compiled, IsAdmissible;
  }

  /** The whole pack is determined by the objective, the items, the budget and the intent. */
  lemma PackIsDetermined(
    lower: string, items: seq<ContextItem>, budget: u32, intent: RetrievalIntent,
    p: seq<nat>, q: seq<nat>, a: Pack, b: Pack)
    requires Compiled(lower, items, budget, intent, p, a) && Compiled(lower, items, budget, intent, q, b)
    ensures p == q && a == b
  {
    hide Greedy, Candidates, InferSubGoals, BuildPack, UsedTokens, Covered, Selected, ListsLast, StrictOrder, AllProofs, AllSources;
    GreedyIsUnique(Candidates(items), InferSubGoals(lower), budget, p, q);
    GreedyIndexes(Candidates(items), InferSubGoals(lower), budget, p);
    var selected := Selected(items, p, budget, intent);
    KeyOrders();
    ListsLastOnce(AllProofs(selected), KeyOfProof, ProofLess, a.handles.proofs, b.handles.proofs);
    ListsLastOnce(AllSources(selected), KeyOfSource, SourceLess, a.handles.sources, b.handles.sources);
  }

  // ----- The sections -----

  /** Which selected items a reader finds where: the truth holds repository items and memory claims
      that are verified or confirmed by the user; a typed section the memory claims of its type; the
      others go by source; conflicts are conflict items and whatever is contradicted. */
  lemma SectionsOnFields(
    lower: string, items: seq<ContextItem>, budget: u32, intent: RetrievalIntent, picks: seq<nat>, pack: Pack, x: ContextItem)
    requires Compiled(lower, items, budget, intent, picks, pack)
    ensures forall k | 0 <= k < |picks| :: picks[k] < |Candidates(items)|
    ensures var selected := Selected(items, picks, budget, intent);
            && (x in pack.currentTruth <==>
                  x in selected
                  && (x.source == FromRepository
                      || (x.source == FromMemory && (x.verification == Some(Verified) || x.verification == Some(UserConfirmedStatus)))))
            && (x in pack.repositoryKnowledge <==> x in selected && x.source == FromRepository)
            && (x in pack.sessionContinuity <==> x in selected && x.source == FromSessionGraph)
            && (x in pack.conflicts <==> x in selected && (x.source == FromConflict || x.verification == Some(Contradicted)))
            && (x in pack.projectFacts <==> x in selected && x.source == FromMemory && x.memoryType == Fact)
            && (x in pack.recentDecisions <==> x in selected && x.source == FromMemory && x.memoryType == Decision)
            && (x in pack.activeTasks <==> x in selected && x.source == FromMemory && x.memoryType == Task)
            && (x in pack.constraints <==> x in selected && x.source == FromMemory && x.memoryType == Constraint)
            && (x in pack.knownBugs <==> x in selected && x.source == FromMemory && x.memoryType == Bug)
            && (x in pack.verifiedFixes <==> x in selected && x.source == FromMemory && x.memoryType == Fix)
            && (x in pack.openQuestions <==> x in selected && x.source == FromMemory && x.memoryType == OpenQuestion)
            && (x in pack.implementationNotes <==> x in selected && x.source == FromMemory && x.memoryType == ImplementationDetail)
  {
    SelectedAreItems(lower, items, budget, intent, picks, pack);
    var selected := Selected(items, picks, budget, intent);
    hide Greedy, Candidates, InferSubGoals, UsedTokens, Covered, Selected, ListsLast, AllProofs, AllSources, Unknowns, Recommended, Filter, IsAdmissible;
    forall t: MemoryType
      ensures x in FilterByType(selected, t) <==> x in selected && x.source == FromMemory && x.memoryType == t
    {
      InFilter(selected, (item: ContextItem) => item.source.FromMemory? && item.memoryType == t, x);
    }
    forall source: ContextSourceClass
      ensures x in FilterBySource(selected, source) <==> x in selected && x.source == source
    {
      InFilter(selected, (item: ContextItem) => item.source == source, x);
    }
    InFilter(selected, (item: ContextItem) => item.source.FromConflict? || item.verification == Some(Contradicted), x);
    InFilter(selected, (item: ContextItem) => IsTruth(item), x);
    hide FilterByType, FilterBySource;
  }
}
