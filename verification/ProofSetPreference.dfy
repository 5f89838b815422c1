/** Which claims are preferred, told on their fields: by the cover and by the filler. */
module ProofSetPreference {
  import opened Options
  import opened Contracts
  import opened Sorting
  import opened ProofSetCover
  import opened ProofSetLaws
  import opened ProofSetCompiler

  // ----- Fields -----

  /** From the least to the most trusted authority. */
  function Trust(authority: Option<AuthorityClass>): nat {
    match authority
    case Some(ModelDerived) => 0
    case None => 1
    case Some(SessionDerived) => 2
    case Some(ToolVerified) => 3
    case Some(TestVerified) => 3
    case Some(UserConfirmed) => 4
    case Some(Repository) => 4
  }

  /** The item's validity has ended. */
  predicate Ended(item: ContextItem) {
    match item.validTo
    case Some(time) => time != ""
    case None => false
  }

  /** Up to two proofs count. */
  function Proofs(item: ContextItem): nat {
    if |item.proofs| < 2 then |item.proofs| else 2
  }

  /** `a` is at least as good in every respect, and better in one. */
  predicate Dominates(a: ContextItem, b: ContextItem) {
    && Trust(a.authority) >= Trust(b.authority) && (Ended(a) ==> Ended(b)) && Proofs(a) >= Proofs(b) && a.tokens <= b.tokens
    && (Trust(a.authority) > Trust(b.authority) || Ended(a) != Ended(b) || Proofs(a) > Proofs(b) || a.tokens < b.tokens)
  }

  lemma AuthorityByTrust(a: ContextItem, b: ContextItem)
    ensures Trust(a.authority) > Trust(b.authority) ==> Authority(a) > Authority(b)
    ensures Trust(a.authority) >= Trust(b.authority) ==> Authority(a) >= Authority(b)
    ensures Authority(a) >= 0.0 && (Trust(a.authority) > 0 ==> Authority(a) > 0.0)
  {
  }

  lemma FreshnessByValidity(a: ContextItem, b: ContextItem)
    ensures !Ended(a) && Ended(b) ==> Freshness(a) > Freshness(b)
    ensures (Ended(a) ==> Ended(b)) ==> Freshness(a) >= Freshness(b)
    ensures Freshness(a) > 0.0
  {
  }

  lemma DensityByProofs(a: ContextItem, b: ContextItem)
    ensures Proofs(a) > Proofs(b) ==> ProofDensity(a) > ProofDensity(b)
    ensures Proofs(a) >= Proofs(b) ==> ProofDensity(a) >= ProofDensity(b)
    ensures ProofDensity(a) > 0.0
  {
  }

  /** A product of positive factors grows with each of them. */
  lemma ProductGrows(x: real, y: real, x': real, y': real)
    requires x >= x' > 0.0 && y >= y' > 0.0
    ensures x * y >= x' * y' > 0.0
    ensures x > x' || y > y' ==> x * y > x' * y'
  {
    assert x * y - x' * y' == (x - x') * y + x' * (y - y');
  }

  lemma QuotientGrows(x: real, n: int, x': real, n': int)
    requires x >= x' > 0.0 && 0 < n <= n'
    ensures x / n as real >= x' / n' as real
    ensures x > x' || n < n' ==> x / n as real > x' / n' as real
  {
    var a, b := 1.0 / n as real, 1.0 / n' as real;
    assert a * n as real == 1.0 && b * n' as real == 1.0;
    InverseFalls(n, n');
    ProductGrows(x, a, x', b);
    assert x / n as real == x * a && x' / n' as real == x' * b;
  }

  lemma InverseFalls(n: int, n': int)
    requires 0 < n <= n'
    ensures 1.0 / n as real >= 1.0 / n' as real > 0.0
    ensures n < n' ==> 1.0 / n as real > 1.0 / n' as real
  {
    if n < n' {
      RealInverseFalls(n as real, n' as real);
    }
  }

  lemma RealInverseFalls(x: real, y: real)
    requires 0.0 < x < y
    ensures 1.0 / x > 1.0 / y > 0.0
  {
    var a, b := 1.0 / x, 1.0 / y;
    assert a * x == 1.0 && b * y == 1.0;
    Scales(a, x, y);
    if a <= b {
      Scales(y, a, b);
    }
  }

  lemma Scales(p: real, x: real, y: real)
    requires p > 0.0 && x <= y
    ensures p * x <= p * y && (x < y ==> p * x < p * y)
  {
  }

  lemma DominatingHasMoreWeight(a: ContextItem, b: ContextItem)
    requires Dominates(a, b) && Trust(b.authority) > 0
    ensures Weight(a) >= Weight(b) > 0.0
    ensures a.tokens == b.tokens ==> Weight(a) > Weight(b)
  {
    AuthorityByTrust(a, b);
    AuthorityByTrust(b, b);
    FreshnessByValidity(a, b);
    FreshnessByValidity(b, b);
    DensityByProofs(a, b);
    DensityByProofs(b, b);
    hide Freshness, Authority, ProofDensity;
    ProductGrows(Freshness(a), Authority(a), Freshness(b), Authority(b));
    ProductGrows(Freshness(a) * Authority(a), ProofDensity(a), Freshness(b) * Authority(b), ProofDensity(b));
  }

  lemma DominatingHasMoreValue(a: ContextItem, b: ContextItem)
    requires Dominates(a, b) && Trust(b.authority) > 0 && a.tokens > 0
    ensures b.tokens > 0 && Value(a) > Value(b)
  {
    DominatingHasMoreWeight(a, b);
    hide Weight;
    QuotientGrows(Weight(a), a.tokens, Weight(b), b.tokens);
  }

  // ----- The cover -----

  /** A candidate is never picked before one for the same goal that is at least as good in
      authority, validity, proofs and size, and better in one of them; unless that one's key is
      taken by an earlier pick. */
  lemma DominatingIsPickedFirst(c: seq<ContextItem>, goals: set<SubGoal>, budget: u32, picks: seq<nat>, k: nat, i: nat)
    requires Prefix(c, goals, budget, picks) && k < |picks| && i < |c| && c[i].tokens > 0
    requires GoalOf(c[i]) == GoalOf(c[picks[k]]) && Dominates(c[i], c[picks[k]]) && Trust(c[picks[k]].authority) > 0
    ensures exists e :: 0 <= e < k && SelectionKey(c[picks[e]]) == SelectionKey(c[i])
  {
    PickIsEligible(c, goals, budget, picks, k);
    EligibleMeans(c[picks[k]], goals, Picked(c, picks[..k]));
    DominatingHasMoreValue(c[i], c[picks[k]]);
    hide GoalOf, SelectionKey, Value, Dominates, Covered, Eligible, IsBest;
    if SelectionKey(c[i]) !in Keys(Picked(c, picks[..k])) {
      PickIsBestOfItsTime(c, goals, budget, picks, k, i);
    } else {
      var chosen := Picked(c, picks[..k]);
      var e :| 0 <= e < |chosen| && SelectionKey(chosen[e]) == SelectionKey(c[i]);
      assert chosen[e] == c[picks[e]];
    }
  }

  // ----- The filler -----

  /** From the last to the first source, for what was asked. */
  function SourcePlace(source: ContextSourceClass, intent: RetrievalIntent): nat {
    match source
    case FromConflict => 5
    case FromMemory => 4
    case FromRepository => if intent == RepositoryOnly || intent == Hybrid then 6 else 2
    case FromSessionGraph => if intent == SessionGraphOnly || intent == Hybrid then 3 else 1
  }

  /** `a` is at least as good by source, authority and validity, and better in one. */
  predicate GoesBefore(a: ContextItem, b: ContextItem, intent: RetrievalIntent) {
    && SourcePlace(a.source, intent) >= SourcePlace(b.source, intent)
    && Trust(a.authority) >= Trust(b.authority) && (Ended(a) ==> Ended(b))
    && (SourcePlace(a.source, intent) > SourcePlace(b.source, intent) || Trust(a.authority) > Trust(b.authority) || Ended(a) != Ended(b))
  }

  lemma SourceByPlace(a: ContextItem, b: ContextItem, intent: RetrievalIntent)
    ensures SourcePlace(a.source, intent) > SourcePlace(b.source, intent) ==> SourceWeight(a.source, intent) > SourceWeight(b.source, intent)
    ensures SourcePlace(a.source, intent) >= SourcePlace(b.source, intent) ==> SourceWeight(a.source, intent) >= SourceWeight(b.source, intent)
    ensures SourceWeight(a.source, intent) > 0.0
  {
  }

  lemma GoesBeforeHasPriority(a: ContextItem, b: ContextItem, intent: RetrievalIntent)
    requires GoesBefore(a, b, intent) && Trust(b.authority) > 0
    ensures FillerPriority(a, intent) > FillerPriority(b, intent)
  {
    SourceByPlace(a, b, intent);
    SourceByPlace(b, b, intent);
    AuthorityByTrust(a, b);
    AuthorityByTrust(b, b);
    FreshnessByValidity(a, b);
    FreshnessByValidity(b, b);
    hide SourceWeight, Freshness, Authority, SourcePlace, Trust;
    var x, y := SourceWeight(a.source, intent), SourceWeight(b.source, intent);
    ProductGrows(x, Authority(a), y, Authority(b));
    ProductGrows(x * Authority(a), Freshness(a), y * Authority(b), Freshness(b));
  }

  lemma PriorityIsOrder(intent: RetrievalIntent)
    ensures TotalOrder(ByPriority(intent))
  {
    hide FillerPriority;
  }

  /** The filler holds exactly the admissible items whose keys no pick has, and none of them comes
      after one that it goes before. */
  lemma FillerOnFields(items: seq<ContextItem>, selectedIds: set<string>, intent: RetrievalIntent, i: nat, j: nat)
    requires i < j < |Filler(items, selectedIds, intent)|
    ensures var filler := Filler(items, selectedIds, intent);
            Trust(filler[i].authority) > 0 ==> !GoesBefore(filler[j], filler[i], intent)
  {
    PriorityIsOrder(intent);
    var left := Filter(items, LeftOver(selectedIds));
    SortIsSorted(left, ByPriority(intent));
    hide Filter, Sort, GoesBefore, Trust, FillerPriority;
    var filler := Filler(items, selectedIds, intent);
    assert ByPriority(intent)(filler[i], filler[j]);
    if Trust(filler[i].authority) > 0 && GoesBefore(filler[j], filler[i], intent) {
      GoesBeforeHasPriority(filler[j], filler[i], intent);
    }
  }

  // ----- Goals and candidates -----

  /** The word occurs in the text. */
  ghost predicate Mentions(text: string, word: string) {
    exists before, after :: text == before + word + after
  }

  lemma ContainsIsMentions(text: string, word: string)
    ensures Contains(text, word) <==> Mentions(text, word)
  {
    if i :| 0 <= i <= |text| && word <= text[i..] {
      assert text == text[..i] + word + text[i + |word|..];
    }
    if before, after :| text == before + word + after {
      assert text[|before|..] == word + after;
      assert word <= text[|before|..];
    }
  }

  /** The words that ask for a goal; the first three goals need none. */
  function WordsFor(goal: SubGoal): set<string> {
    match goal
    case Bugs => {"bug", "error", "debug", "fail"}
    case Fixes => {"bug", "error", "debug", "fail"}
    case Constraints => {"constraint", "must ", "requirement", "invariant"}
    case Implementation => {"implement", "refactor", "build ", "code", "module"}
    case OpenQuestions => {"question", "unknown", "unclear", "open "}
    case _ => {}
  }

  ghost predicate MentionsAny(text: string, words: set<string>) {
    exists word :: word in words && Mentions(text, word)
  }

  /** Decisions, tasks and facts are always goals; any other goal is one exactly when a word that
      asks for it occurs in the objective. */
  lemma GoalsOnWords(lower: string, goal: SubGoal)
    ensures goal in InferSubGoals(lower) <==> goal in {Decisions, ActiveTasks, Facts} || MentionsAny(lower, WordsFor(goal))
  {
    FourWords(lower, "bug", "error", "debug", "fail");
    FourWords(lower, "constraint", "must ", "requirement", "invariant");
    FourWords(lower, "question", "unknown", "unclear", "open ");
    FiveWords(lower, "implement", "refactor", "build ", "code", "module");
    hide ContainsAny, MentionsAny;
    match goal
    case Bugs =>
    case Fixes =>
    case Constraints =>
    case Implementation =>
    case OpenQuestions =>
    case _ =>
  }

  lemma FourWords(s: string, a: string, b: string, c: string, d: string)
    ensures ContainsAny(s, [a, b, c, d]) <==> MentionsAny(s, {a, b, c, d})
  {
    AnyOfFour(s, a, b, c, d);
    ContainsIsMentions(s, a);
    ContainsIsMentions(s, b);
    ContainsIsMentions(s, c);
    ContainsIsMentions(s, d);
    hide ContainsAny, Contains, Mentions;
  }

  lemma FiveWords(s: string, a: string, b: string, c: string, d: string, e: string)
    ensures ContainsAny(s, [a, b, c, d, e]) <==> MentionsAny(s, {a, b, c, d, e})
  {
    AnyOfFive(s, a, b, c, d, e);
    ContainsIsMentions(s, a);
    ContainsIsMentions(s, b);
    ContainsIsMentions(s, c);
    ContainsIsMentions(s, d);
    ContainsIsMentions(s, e);
    hide ContainsAny, Contains, Mentions;
  }

  lemma AnyOfFour(s: string, a: string, b: string, c: string, d: string)
    ensures ContainsAny(s, [a, b, c, d]) <==> Contains(s, a) || Contains(s, b) || Contains(s, c) || Contains(s, d)
  {
    hide Contains;
    var parts := [a, b, c, d];
    assert parts[0] == a && parts[1] == b && parts[2] == c && parts[3] == d;
  }

  lemma AnyOfFive(s: string, a: string, b: string, c: string, d: string, e: string)
    ensures ContainsAny(s, [a, b, c, d, e])
            <==> Contains(s, a) || Contains(s, b) || Contains(s, c) || Contains(s, d) || Contains(s, e)
  {
    hide Contains;
    var parts := [a, b, c, d, e];
    assert parts[0] == a && parts[1] == b && parts[2] == c && parts[3] == d && parts[4] == e;
  }

  /** Of the admissible items with one key the first in the list is the candidate. */
  lemma {:induction false} FirstIsCandidate(items: seq<ContextItem>, seen: set<string>, i: nat)
    requires i < |items| && IsAdmissible(items[i]) && DedupeKey(items[i]) !in seen
    requires forall j | 0 <= j < i && IsAdmissible(items[j]) :: DedupeKey(items[j]) != DedupeKey(items[i])
    ensures items[i] in Dedupe(items, seen)
    decreases |items|
  {
    hide IsAdmissible, DedupeKey;
    if i > 0 {
      var key := DedupeKey(items[0]);
      if !IsAdmissible(items[0]) || key in seen {
        FirstIsCandidate(items[1..], seen, i - 1);
      } else {
        FirstIsCandidate(items[1..], seen + {key}, i - 1);
      }
    }
  }
}
