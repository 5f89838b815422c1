/** `compile_minimal_proof_set`: the cover, the filler, and the pack with its gap markers. */
module ProofSetCompiler {
  import opened Options
  import opened Contracts
  import opened Sorting
  import opened ProofSetCover
  import opened ProofSetLaws
  import opened Evidence

  // ----- Stage 2 -----

  function SourceWeight(source: ContextSourceClass, intent: RetrievalIntent): real {
    match source
    case FromRepository => if intent.RepositoryOnly? || intent.Hybrid? then 0.8 else 0.3
    case FromMemory => 0.6
    case FromSessionGraph => if intent.SessionGraphOnly? || intent.Hybrid? then 0.5 else 0.2
    case FromConflict => 0.7
  }

  function FillerPriority(item: ContextItem, intent: RetrievalIntent): real {
    SourceWeight(item.source, intent) * Authority(item) * Freshness(item)
  }

  function LeftOver(selectedIds: set<string>): ContextItem -> bool {
    (item: ContextItem) => SelectionKey(item) !in selectedIds && IsAdmissible(item)
  }

  function ByPriority(intent: RetrievalIntent): (ContextItem, ContextItem) -> bool {
    (a: ContextItem, b: ContextItem) => FillerPriority(a, intent) >= FillerPriority(b, intent)
  }

  /** What Stage 1 left over, best priority first. */
  function Filler(items: seq<ContextItem>, selectedIds: set<string>, intent: RetrievalIntent): seq<ContextItem> {
    Sort(Filter(items, LeftOver(selectedIds)), ByPriority(intent))
  }

  /** Those of `s`, in order, that still fit the budget when their turn comes. */
  function Fill(s: seq<ContextItem>, used: u32, budget: u32): seq<ContextItem> {
    if s == [] then []
    else if SaturatingAdd(used, s[0].tokens) > budget then Fill(s[1..], used, budget)
    else [s[0]] + Fill(s[1..], SaturatingAdd(used, s[0].tokens), budget)
  }

  /** The filler keeps the budget, and leaves out only what does not fit at the end. */
  lemma {:induction false} FillIsMaximal(base: seq<ContextItem>, s: seq<ContextItem>, budget: u32)
    requires UsedTokens(base) <= budget
    ensures var fill := Fill(s, UsedTokens(base), budget);
            && UsedTokens(base) <= UsedTokens(base + fill) <= budget
            && (forall x | x in fill :: x in s)
            && (forall x | x in s && x !in fill :: SaturatingAdd(UsedTokens(base + fill), x.tokens) > budget)
    decreases |s|
  {
    hide UsedTokens;
    if s == [] {
      assert base + [] == base;
    } else {
      var x, rest := s[0], s[1..];
      assert s == [x] + rest;
      if SaturatingAdd(UsedTokens(base), x.tokens) > budget {
        FillIsMaximal(base, rest, budget);
      } else {
        UsedAppend(base, x);
        FillIsMaximal(base + [x], rest, budget);
        var tail := Fill(rest, UsedTokens(base + [x]), budget);
        assert base + ([x] + tail) == base + [x] + tail;
      }
    }
  }

  // ----- Stage 3 -----

  datatype Unknown = BudgetExceeded(budget: u32, uncovered: nat) | ProofGap(goal: SubGoal)

  function GapMarkers(uncovered: set<SubGoal>, n: nat := 8): seq<Unknown>
    requires n <= 8
  {
    if n == 0 then []
    else GapMarkers(uncovered, n - 1) + if ALL_GOALS[n - 1] in uncovered then [ProofGap(ALL_GOALS[n - 1])] else []
  }

  function Unknowns(uncovered: set<SubGoal>, budget: u32): seq<Unknown> {
    if uncovered == {} then [] else [BudgetExceeded(budget, |uncovered|)] + GapMarkers(uncovered)
  }

  /** The recommended verification. */
  datatype Advice = NarrowObjective | ResolveContradicted

  function Recommended(selected: seq<ContextItem>, uncovered: set<SubGoal>): seq<Advice> {
    (if uncovered != {} then [NarrowObjective] else [])
    + (if exists i :: 0 <= i < |selected| && selected[i].verification == Some(Contradicted) then [ResolveContradicted] else [])
  }

  datatype Handles = Handles(proofs: seq<ProofHandle>, sources: seq<ProvenanceHandle>)

  datatype Pack = Pack(
    currentTruth: seq<ContextItem>, projectFacts: seq<ContextItem>, recentDecisions: seq<ContextItem>,
    activeTasks: seq<ContextItem>, constraints: seq<ContextItem>, knownBugs: seq<ContextItem>,
    verifiedFixes: seq<ContextItem>, openQuestions: seq<ContextItem>, implementationNotes: seq<ContextItem>,
    repositoryKnowledge: seq<ContextItem>, sessionContinuity: seq<ContextItem>, conflicts: seq<ContextItem>,
    unknowns: seq<Unknown>, advice: seq<Advice>, handles: Handles, used: u32)

  function FilterByType(items: seq<ContextItem>, t: MemoryType): seq<ContextItem> {
    Filter(items, (item: ContextItem) => item.source.FromMemory? && item.memoryType == t)
  }

  function FilterBySource(items: seq<ContextItem>, source: ContextSourceClass): seq<ContextItem> {
    Filter(items, (item: ContextItem) => item.source == source)
  }

  function FilterConflicts(items: seq<ContextItem>): seq<ContextItem> {
    Filter(items, (item: ContextItem) => item.source.FromConflict? || item.verification == Some(Contradicted))
  }

  predicate IsTruth(item: ContextItem) {
    match item.source
    case FromRepository => true
    case FromMemory => item.verification == Some(Verified) || item.verification == Some(UserConfirmedStatus)
    case FromSessionGraph => false
    case FromConflict => false
  }

  function FilterTruth(items: seq<ContextItem>): seq<ContextItem> {
    Filter(items, (item: ContextItem) => IsTruth(item))
  }

  function BuildPack(selected: seq<ContextItem>, uncovered: set<SubGoal>, budget: u32, used: u32, handles: Handles): Pack {
    Pack(FilterTruth(selected), FilterByType(selected, Fact), FilterByType(selected, Decision),
         FilterByType(selected, Task), FilterByType(selected, Constraint), FilterByType(selected, Bug),
         FilterByType(selected, Fix), FilterByType(selected, OpenQuestion), FilterByType(selected, ImplementationDetail),
         FilterBySource(selected, FromRepository), FilterBySource(selected, FromSessionGraph), FilterConflicts(selected),
         Unknowns(uncovered, budget), Recommended(selected, uncovered), handles, used)
  }

  /** The whole selection, for the picks of Stage 1. */
  function Selected(items: seq<ContextItem>, picks: seq<nat>, budget: u32, intent: RetrievalIntent): seq<ContextItem>
    requires forall k | 0 <= k < |picks| :: picks[k] < |Candidates(items)|
  {
    var chosen := Picked(Candidates(items), picks);
    chosen + Fill(Filler(items, Keys(chosen), intent), UsedTokens(chosen), budget)
  }

  /** What is compiled, for the picks of Stage 1. */
  ghost predicate Compiled(
    lower: string, items: seq<ContextItem>, budget: u32, intent: RetrievalIntent, picks: seq<nat>, pack: Pack)
  {
    && Greedy(Candidates(items), InferSubGoals(lower), budget, picks)
    && var selected := Selected(items, picks, budget, intent);
       && ListsLast(AllProofs(selected), KeyOfProof, ProofLess, pack.handles.proofs)
       && ListsLast(AllSources(selected), KeyOfSource, SourceLess, pack.handles.sources)
       && pack == BuildPack(selected, InferSubGoals(lower) - Covered(Picked(Candidates(items), picks)), budget,
                            UsedTokens(selected), pack.handles)
  }

  /** The three stages, for an objective in lower case. */
  method CompileMinimalProofSet(lower: string, items: seq<ContextItem>, budget: u32, intent: RetrievalIntent)
    returns (pack: Pack)
    ensures exists picks: seq<nat> :: Compiled(lower, items, budget, intent, picks, pack)
  {
    hide Greedy, Candidates, InferSubGoals, Covered, Keys, Fill, Filler, UsedTokens, BuildPack, ListsLast;
    hide AllProofs, AllSources, Unknowns, Recommended, FilterByType, FilterConflicts;
    var candidates := Candidates(items);
    var uncovered, selected, selectedIds, used;
    ghost var picks;
    uncovered, selected, selectedIds, used, picks := ChooseCover(candidates, InferSubGoals(lower), budget);
    ghost var chosen := selected;
    GreedyIndexes(candidates, InferSubGoals(lower), budget, picks);
    var filler := Filler(items, selectedIds, intent);
    assert chosen + Fill(filler, used, budget) == Selected(items, picks, budget, intent);
    for n := 0 to |filler|
      invariant used == UsedTokens(selected)
      invariant selected + Fill(filler[n..], used, budget) == Selected(items, picks, budget, intent)
    {
      var item := filler[n];
      FillStep(filler[n..], used, budget);
      assert filler[n..][1..] == filler[n + 1..];
      if SaturatingAdd(used, item.tokens) > budget {
        continue;
      }
      UsedAppend(selected, item);
      used := SaturatingAdd(used, item.tokens);
      selected := selected + [item];
    }
    FillNothing(used, budget);
    assert selected == Selected(items, picks, budget, intent);
    var proofs := UniqueProofHandles(selected);
    var sources := UniqueSources(selected);
    pack := BuildPack(selected, uncovered, budget, used, Handles(proofs, sources));
    PackUnknowns(selected, uncovered, budget, used, Handles(proofs, sources));
    assert Compiled(lower, items, budget, intent, picks, pack);
  }

  lemma GreedyIndexes(c: seq<ContextItem>, goals: set<SubGoal>, budget: u32, picks: seq<nat>)
    requires Greedy(c, goals, budget, picks)
    ensures Prefix(c, goals, budget, picks) && UsedTokens(Picked(c, picks)) <= budget
    ensures forall k | 0 <= k < |picks| :: picks[k] < |c|
  {
  }

  lemma FillStep(s: seq<ContextItem>, used: u32, budget: u32)
    requires s != []
    ensures Fill(s, used, budget)
            == if SaturatingAdd(used, s[0].tokens) > budget then Fill(s[1..], used, budget)
               else [s[0]] + Fill(s[1..], SaturatingAdd(used, s[0].tokens), budget)
  {
  }

  lemma FillNothing(used: u32, budget: u32)
    ensures Fill([], used, budget) == []
  {
  }

  // ----- What the pack promises -----

  /** The section that a goal's claims go to. */
  function Section(pack: Pack, goal: SubGoal): seq<ContextItem> {
    match goal
    case Decisions => pack.recentDecisions
    case ActiveTasks => pack.activeTasks
    case Facts => pack.projectFacts
    case Bugs => pack.knownBugs
    case Fixes => pack.verifiedFixes
    case Constraints => pack.constraints
    case Implementation => pack.implementationNotes
    case OpenQuestions => pack.openQuestions
  }

  /** All sections that hold items. */
  function Sections(pack: Pack): seq<seq<ContextItem>> {
    [pack.currentTruth, pack.projectFacts, pack.recentDecisions, pack.activeTasks, pack.constraints, pack.knownBugs,
     pack.verifiedFixes, pack.openQuestions, pack.implementationNotes, pack.repositoryKnowledge,
     pack.sessionContinuity, pack.conflicts]
  }

  lemma {:induction false} MarkersAreExact(uncovered: set<SubGoal>, goal: SubGoal, n: nat)
    requires n <= 8
    ensures ProofGap(goal) in GapMarkers(uncovered, n) <==>
              goal in uncovered && exists k :: 0 <= k < n && ALL_GOALS[k] == goal
    ensures |GapMarkers(uncovered, n)| <= n
    decreases n
  {
    if n > 0 {
      MarkersAreExact(uncovered, goal, n - 1);
    }
  }

  lemma UnknownsAreExact(uncovered: set<SubGoal>, budget: u32, goal: SubGoal)
    ensures ProofGap(goal) in Unknowns(uncovered, budget) <==> goal in uncovered
  {
    var p := Position(goal);
    MarkersAreExact(uncovered, goal, 8);
  }

  function TypeFor(goal: SubGoal): MemoryType {
    match goal
    case Decisions => Decision
    case ActiveTasks => Task
    case Facts => Fact
    case Bugs => Bug
    case Fixes => Fix
    case Constraints => Constraint
    case Implementation => ImplementationDetail
    case OpenQuestions => OpenQuestion
  }

  lemma GoalOfType(x: ContextItem, goal: SubGoal)
    ensures GoalOf(x) == Some(goal) <==> x.source.FromMemory? && x.memoryType == TypeFor(goal)
  {
  }

  lemma SectionIsFilter(selected: seq<ContextItem>, uncovered: set<SubGoal>, budget: u32, used: u32, handles: Handles, goal: SubGoal)
    ensures Section(BuildPack(selected, uncovered, budget, used, handles), goal) == FilterByType(selected, TypeFor(goal))
  {
    hide FilterByType, Unknowns, FilterTruth, FilterConflicts, FilterBySource;
  }

  /** A section holds exactly the selected claims that cover its goal. */
  lemma SectionHolds(selected: seq<ContextItem>, uncovered: set<SubGoal>, budget: u32, used: u32, handles: Handles, goal: SubGoal, x: ContextItem)
    ensures x in Section(BuildPack(selected, uncovered, budget, used, handles), goal) <==> x in selected && GoalOf(x) == Some(goal)
  {
    hide Section, BuildPack, TypeFor, GoalOf, Filter;
    SectionIsFilter(selected, uncovered, budget, used, handles, goal);
    GoalOfType(x, goal);
    var t := TypeFor(goal);
    InFilter(selected, (item: ContextItem) => item.source.FromMemory? && item.memoryType == t, x);
  }

  /** Everything in a section was selected. */
  lemma SectionsAreSelected(selected: seq<ContextItem>, uncovered: set<SubGoal>, budget: u32, used: u32, handles: Handles, k: nat, x: ContextItem)
    requires k < 12 && x in Sections(BuildPack(selected, uncovered, budget, used, handles))[k]
    ensures x in selected
  {
    hide IsTruth, Filter;
    forall t
      ensures x in FilterByType(selected, t) ==> x in selected
    {
      InFilter(selected, (item: ContextItem) => item.source.FromMemory? && item.memoryType == t, x);
    }
    forall source
      ensures x in FilterBySource(selected, source) ==> x in selected
    {
      InFilter(selected, (item: ContextItem) => item.source == source, x);
    }
    InFilter(selected, (item: ContextItem) => item.source.FromConflict? || item.verification == Some(Contradicted), x);
    InFilter(selected, (item: ContextItem) => IsTruth(item), x);
  }

  lemma InFiller(items: seq<ContextItem>, selectedIds: set<string>, intent: RetrievalIntent, x: ContextItem)
    ensures x in Filler(items, selectedIds, intent) <==> x in items && IsAdmissible(x) && SelectionKey(x) !in selectedIds
  {
    InFilter(items, LeftOver(selectedIds), x);
    SameElements(Filter(items, LeftOver(selectedIds)), ByPriority(intent), x);
  }

  lemma SelectedIsAdmissible(items: seq<ContextItem>, goals: set<SubGoal>, budget: u32, intent: RetrievalIntent, picks: seq<nat>)
    requires Prefix(Candidates(items), goals, budget, picks)
    ensures forall k | 0 <= k < |picks| :: picks[k] < |Candidates(items)|
    ensures var selected := Selected(items, picks, budget, intent);
            && (forall x | x in selected :: x in items && IsAdmissible(x))
            && UsedTokens(selected) <= budget
            && (forall x | x in items && IsAdmissible(x) && x !in selected
                  && SelectionKey(x) !in Keys(Picked(Candidates(items), picks)) ::
                  SaturatingAdd(UsedTokens(selected), x.tokens) > budget)
  {
    hide IsAdmissible, Keys, UsedTokens, IsBest, Fill, Filler, Candidates, SelectionKey;
    var chosen := Picked(Candidates(items), picks);
    var filler := Filler(items, Keys(chosen), intent);
    CandidatesAreDistinct(items);
    FillIsMaximal(chosen, filler, budget);
    var selected := Selected(items, picks, budget, intent);
    forall x | x in selected
      ensures x in items && IsAdmissible(x)
    {
      InFiller(items, Keys(chosen), intent, x);
      if x in chosen {
        var k :| 0 <= k < |chosen| && chosen[k] == x;
        assert Candidates(items)[picks[k]] == x;
      }
    }
    forall x | x in items && IsAdmissible(x) && x !in selected && SelectionKey(x) !in Keys(chosen)
      ensures SaturatingAdd(UsedTokens(selected), x.tokens) > budget
    {
      InFiller(items, Keys(chosen), intent, x);
    }
  }

  /** No silent gap: every inferred goal has a claim in its section or a marker, and the markers
      are exactly the goals Stage 1 left open. */
  lemma NoSilentGap(
    lower: string, items: seq<ContextItem>, budget: u32, intent: RetrievalIntent, picks: seq<nat>, pack: Pack, goal: SubGoal)
    requires Compiled(lower, items, budget, intent, picks, pack)
    ensures forall k | 0 <= k < |picks| :: picks[k] < |Candidates(items)|
    ensures ProofGap(goal) in pack.unknowns
            <==> goal in InferSubGoals(lower) - Covered(Picked(Candidates(items), picks))
    ensures goal in InferSubGoals(lower) ==>
              ProofGap(goal) in pack.unknowns || exists x :: x in Section(pack, goal) && IsAdmissible(x) && GoalOf(x) == Some(goal)
  {
    var c, goals := Candidates(items), InferSubGoals(lower);
    hide Greedy, Candidates, InferSubGoals, IsAdmissible, GoalOf, Section, BuildPack, Unknowns, Fill, UsedTokens, Filler, Keys;
    GreedyIndexes(c, goals, budget, picks);
    var chosen := Picked(c, picks);
    var selected, uncovered := Selected(items, picks, budget, intent), goals - Covered(chosen);
    UnknownsAreExact(uncovered, budget, goal);
    PackUnknowns(selected, uncovered, budget, UsedTokens(selected), pack.handles);
    if goal in Covered(chosen) {
      var k :| 0 <= k < |chosen| && GoalOf(chosen[k]) == Some(goal);
      assert selected[k] == chosen[k];
      SectionHolds(selected, uncovered, budget, UsedTokens(selected), pack.handles, goal, chosen[k]);
      SelectedIsAdmissible(items, goals, budget, intent, picks);
    }
  }

  lemma PackUnknowns(selected: seq<ContextItem>, uncovered: set<SubGoal>, budget: u32, used: u32, handles: Handles)
    ensures BuildPack(selected, uncovered, budget, used, handles).unknowns == Unknowns(uncovered, budget)
    ensures BuildPack(selected, uncovered, budget, used, handles).used == used
    ensures BuildPack(selected, uncovered, budget, used, handles).handles == handles
    ensures BuildPack(selected, uncovered, budget, used, handles).advice == Recommended(selected, uncovered)
    ensures BuildPack(selected, uncovered, budget, used, handles).recentDecisions == FilterByType(selected, Decision)
    ensures BuildPack(selected, uncovered, budget, used, handles).conflicts == FilterConflicts(selected)
  {
  }

  /** No memory claim that is model-derived, contradicted, unverified or superseded reaches any
      section. */
  lemma NothingInadmissible(
    lower: string, items: seq<ContextItem>, budget: u32, intent: RetrievalIntent, picks: seq<nat>, pack: Pack,
    k: nat, x: ContextItem)
    requires Compiled(lower, items, budget, intent, picks, pack)
    requires k < 12 && x in Sections(pack)[k]
    ensures x in items
    ensures x.source.FromMemory? ==>
              && x.authority != Some(ModelDerived) && x.supersededBy.None?
              && x.verification != Some(Contradicted) && x.verification != Some(Unverified)
  {
    var c, goals := Candidates(items), InferSubGoals(lower);
    hide Greedy, Candidates, InferSubGoals, BuildPack, Fill, UsedTokens, Filler, Keys, Covered, Selected, Sections;
    GreedyIndexes(c, goals, budget, picks);
    var selected := Selected(items, picks, budget, intent);
    SectionsAreSelected(selected, goals - Covered(Picked(c, picks)), budget, UsedTokens(selected), pack.handles, k, x);
    SelectedIsAdmissible(items, goals, budget, intent, picks);
  }

  /** The reported usage never exceeds the budget; it is the exact token sum of the selection if
      and only if that sum fits the counter, which a budget below the counter's limit ensures. */
  lemma UsageIsExactIff(
    lower: string, items: seq<ContextItem>, budget: u32, intent: RetrievalIntent, picks: seq<nat>, pack: Pack)
    requires Compiled(lower, items, budget, intent, picks, pack)
    ensures forall k | 0 <= k < |picks| :: picks[k] < |Candidates(items)|
    ensures var sum := TokenSum(Selected(items, picks, budget, intent));
            && pack.used <= budget
            && (pack.used == sum <==> sum <= U32_MAX)
            && (budget < U32_MAX ==> sum <= budget)
  {
    var c, goals := Candidates(items), InferSubGoals(lower);
    hide Greedy, Candidates, InferSubGoals, BuildPack, Fill, UsedTokens, Filler, Keys, Covered, Selected;
    GreedyIndexes(c, goals, budget, picks);
    var selected := Selected(items, picks, budget, intent);
    PackUnknowns(selected, goals - Covered(Picked(c, picks)), budget, UsedTokens(selected), pack.handles);
    SelectedIsAdmissible(items, goals, budget, intent, picks);
    UsedIsCappedSum(selected);
  }

  /** What is left out does not fit: every item that is not in the pack, and whose key no pick of
      Stage 1 has, would exceed the budget; or it is a memory claim that is model-derived,
      contradicted, unverified or superseded. */
  lemma FillerIsMaximal(
    lower: string, items: seq<ContextItem>, budget: u32, intent: RetrievalIntent, picks: seq<nat>, pack: Pack, x: ContextItem)
    requires Compiled(lower, items, budget, intent, picks, pack) && x in items
    ensures forall k | 0 <= k < |picks| :: picks[k] < |Candidates(items)|
    ensures x in Selected(items, picks, budget, intent) || SelectionKey(x) in Keys(Picked(Candidates(items), picks))
            || SaturatingAdd(pack.used, x.tokens) > budget
            || (x.source.FromMemory?
                && (x.authority == Some(ModelDerived) || x.supersededBy.Some?
                    || x.verification == Some(Contradicted) || x.verification == Some(Unverified)))
  {
    var c, goals := Candidates(items), InferSubGoals(lower);
    hide Greedy, Candidates, InferSubGoals, BuildPack, Fill, UsedTokens, Filler, Keys, Covered, Selected, SelectionKey;
    GreedyIndexes(c, goals, budget, picks);
    var selected := Selected(items, picks, budget, intent);
    PackUnknowns(selected, goals - Covered(Picked(c, picks)), budget, UsedTokens(selected), pack.handles);
    SelectedIsAdmissible(items, goals, budget, intent, picks);
  }
}
