/** The chains that `superseded_by` forms: what each link is worth in every run, exactly when
    the chains still end at a current claim, and when they do not. */
module SupersessionChains {
  import opened Options
  import opened Contracts
  import opened ReconcileStore
  import opened ReconcileJob
  import opened ReconcileLaws

  // ----- Every link has its edge and an allowed pair of types -----

  ghost predicate JustifiedLink(db: Db, id: ClaimId, winner: ClaimId) {
    && id in db.claims && winner in db.claims && winner != id
    && SupersedingTypes(db.claims[winner].facts.memoryType, db.claims[id].facts.memoryType)
    && EdgeKey(ClaimEdges, winner, id, Supersedes) in db.edges
  }

  ghost predicate Justified(db: Db) {
    forall id | id in db.claims && db.claims[id].supersededBy.Some? ::
      JustifiedLink(db, id, db.claims[id].supersededBy.value)
  }

  lemma {:induction false} SupersedesSlot(claims: Claims, current: ClaimId, seen: Claim, rows: seq<ClaimId>, id: ClaimId)
    requires Known(claims, rows) && Supersedable(claims, seen, rows, id)
    ensures Slot(ClaimEdges, current, id, Supersedes) in SlotsOf(claims, current, seen, rows)
  {
    var n := |rows| - 1;
    assert rows == rows[..n] + [rows[n]];
    if id in rows[..n] {
      SupersedesSlot(claims, current, seen, rows[..n], id);
    } else {
      assert RowSlots(current, seen, id, claims[id])[1] == Slot(ClaimEdges, current, id, Supersedes);
    }
  }

  /** Who supersedes whom after one pass. */
  lemma LinksAfter(db: Db, current: ClaimId, seen: Claim, now: int, id: ClaimId)
    requires WellFormed(db) && current in db.claims && id in db.claims
    ensures var after := AfterClaim(db, current, seen, now);
            && id in after.claims
            && after.claims[id].supersededBy
               == if db.claims[id].supersededBy.None? && Supersedable(db.claims, seen, Candidates(FactsOf(db.claims), current), id)
                  then Some(current) else db.claims[id].supersededBy
  {
    hide Weakened, Supersedable, Candidates, EdgesAfter, MemoriesAfter, WellFormed;
  }

  lemma NotItsOwnCandidate(claims: Claims, current: ClaimId, seen: Claim, id: ClaimId)
    requires current in claims && Supersedable(claims, seen, Candidates(FactsOf(claims), current), id)
    ensures id != current
  {
    var rows := Candidates(FactsOf(claims), current);
    var i :| 0 <= i < |rows| && rows[i] == id;
    assert Eligible(FactsOf(claims), current, rows[i]);
  }

  lemma ClaimKeepsJustified(db: Db, current: ClaimId, seen: Claim, now: int)
    requires WellFormed(db) && Justified(db) && current in db.claims && seen.facts == db.claims[current].facts
    ensures Justified(AfterClaim(db, current, seen, now))
  {
    var after := AfterClaim(db, current, seen, now);
    var facts := FactsOf(db.claims);
    var rows := Candidates(facts, current);
    AfterClaimTables(db, current, seen, now);
    AfterClaimKeeps(db, current, seen, now);
    ClaimStepUses(db, current, seen, now);
    var slots := SlotsOf(db.claims, current, seen, rows);
    UpsertAllEffect(facts, db.edges, slots);
    hide AfterClaim, ClaimsAfter, MemoriesAfter, SlotsOf, UpsertAll, Candidates, WellFormed, Tokens, UniqueMemories;
    forall id | id in after.claims && after.claims[id].supersededBy.Some?
      ensures JustifiedLink(after, id, after.claims[id].supersededBy.value)
    {
      LinksAfter(db, current, seen, now, id);
      var winner := after.claims[id].supersededBy.value;
      SameFacts(db.claims, after.claims, id);
      SameFacts(db.claims, after.claims, current);
      if db.claims[id].supersededBy.None? {
        NotItsOwnCandidate(db.claims, current, seen, id);
        SupersedesSlot(db.claims, current, seen, rows, id);
        var slot := Slot(ClaimEdges, current, id, Supersedes);
        assert Settled(facts, after.edges, slot) && KeyOf(facts, slot) == EdgeKey(ClaimEdges, current, id, Supersedes);
      } else {
        SameFacts(db.claims, after.claims, winner);
      }
    }
  }

  lemma {:induction false} ListKeepsJustified(db: Db, read: Claims, order: seq<ClaimId>, now: int)
    requires WellFormed(db) && Known(db.claims, order) && Known(read, order) && FactsOf(read) == FactsOf(db.claims)
    requires Justified(db)
    ensures Justified(AfterList(db, read, order, now))
  {
    hide AfterClaim, WellFormed, Justified, FactsOf;
    if order != [] {
      var n := |order| - 1;
      var before := AfterList(db, read, order[..n], now);
      ListKeepsJustified(db, read, order[..n], now);
      SameFacts(read, before.claims, order[n]);
      ClaimKeepsJustified(before, order[n], read[order[n]], now);
    }
  }

  /** In every run, each superseded claim has a matching supersedes edge with an allowed type
      pair, and a fix is never superseded. */
  lemma {:induction false} PassesKeepJustified(db: Db, passes: seq<Pass>)
    requires WellFormed(db) && KnownPasses(db.claims, passes) && Justified(db)
    ensures Justified(AfterPasses(db, passes)) && FixesAreCurrent(AfterPasses(db, passes).claims)
  {
    hide WellFormed, FactsOf, AfterList, Justified, FixesAreCurrent;
    if passes != [] {
      var n := |passes| - 1;
      var before := AfterPasses(db, passes[..n]);
      PassesKeepJustified(db, passes[..n]);
      ListKeepsJustified(before, before.claims, passes[n].order, passes[n].now);
    }
    JustifiedFixes(AfterPasses(db, passes));
  }

  predicate FixesAreCurrent(claims: Claims) {
    forall id | id in claims && claims[id].facts.memoryType.Fix? :: claims[id].supersededBy.None?
  }

  lemma JustifiedFixes(db: Db)
    requires Justified(db)
    ensures FixesAreCurrent(db.claims)
  {
  }

  // ----- Cycles stay within one type -----

  predicate Chain(claims: Claims, path: seq<ClaimId>) {
    forall i | 0 <= i < |path| - 1 :: path[i] in claims && claims[path[i]].supersededBy == Some(path[i + 1])
  }

  predicate SelfSuperseding(t: MemoryType) {
    t.Decision? || t.Constraint? || t.Fact? || t.Task?
  }

  /** A link either keeps the type or moves up: from bug to fix, from decision to constraint. */
  function Height(t: MemoryType): int {
    if t.Fix? || t.Constraint? then 1 else 0
  }

  lemma {:induction false} ChainClimbs(db: Db, path: seq<ClaimId>, i: nat, j: nat)
    requires Justified(db) && Chain(db.claims, path) && i <= j < |path| && path[i] in db.claims
    ensures path[j] in db.claims
    ensures Height(db.claims[path[i]].facts.memoryType) <= Height(db.claims[path[j]].facts.memoryType)
    decreases j
  {
    if i < j {
      ChainClimbs(db, path, i, j - 1);
      assert JustifiedLink(db, path[j - 1], path[j]);
    }
  }

  /** All claims of a cycle have one type, and it is a decision, constraint, fact or task. */
  lemma CycleHasOneType(db: Db, path: seq<ClaimId>, i: nat)
    requires Justified(db) && Chain(db.claims, path) && |path| >= 2 && path[0] == path[|path| - 1]
    requires i < |path|
    ensures path[i] in db.claims && SelfSuperseding(db.claims[path[i]].facts.memoryType)
    ensures db.claims[path[i]].facts.memoryType == db.claims[path[0]].facts.memoryType
    decreases i
  {
    var last := |path| - 1;
    if i == 0 {
      ChainClimbs(db, path, 1, last);
      assert JustifiedLink(db, path[0], path[1]);
    } else {
      CycleHasOneType(db, path, i - 1);
      ChainClimbs(db, path, 0, i);
      ChainClimbs(db, path, i, last);
      assert JustifiedLink(db, path[i - 1], path[i]);
    }
  }

  // ----- Chains that end -----

  /** From `id`, at most `n` links lead to a claim that is not superseded. */
  predicate EndsIn(claims: Claims, id: ClaimId, n: nat)
    decreases n
  {
    id in claims && (claims[id].supersededBy.None? || (n > 0 && EndsIn(claims, claims[id].supersededBy.value, n - 1)))
  }

  function EndOf(claims: Claims, id: ClaimId, n: nat): (end: ClaimId)
    requires EndsIn(claims, id, n)
    ensures end in claims && claims[end].supersededBy.None?
    decreases n
  {
    if claims[id].supersededBy.None? then id else EndOf(claims, claims[id].supersededBy.value, n - 1)
  }

  ghost predicate ChainEnds(claims: Claims, id: ClaimId) {
    exists n: nat :: EndsIn(claims, id, n)
  }

  /** Every chain is acyclic and ends at a current claim. */
  ghost predicate AllChainsEnd(claims: Claims) {
    forall id | id in claims :: ChainEnds(claims, id)
  }

  lemma {:induction false} CycleNeverEnds(claims: Claims, path: seq<ClaimId>, i: nat, n: nat)
    requires Chain(claims, path) && |path| >= 2 && path[0] == path[|path| - 1] && i < |path| - 1 && path[i] in claims
    ensures !EndsIn(claims, path[i], n)
    decreases n
  {
    assert claims[path[i]].supersededBy == Some(path[i + 1]);
    if n > 0 {
      CycleNeverEnds(claims, path, if i + 1 == |path| - 1 then 0 else i + 1, n - 1);
    }
  }

  /** Chains that all end have no cycle. */
  lemma EndingChainsAreAcyclic(claims: Claims, path: seq<ClaimId>)
    requires AllChainsEnd(claims) && Chain(claims, path) && |path| >= 2
    ensures path[0] != path[|path| - 1]
  {
    if path[0] == path[|path| - 1] {
      assert ChainEnds(claims, path[0]);
      var n: nat :| EndsIn(claims, path[0], n);
      CycleNeverEnds(claims, path, 0, n);
    }
  }

  lemma {:induction false} EndsLonger(claims: Claims, id: ClaimId, n: nat, m: nat)
    requires EndsIn(claims, id, n) && n <= m
    ensures EndsIn(claims, id, m) && EndOf(claims, id, m) == EndOf(claims, id, n)
    decreases n
  {
    if claims[id].supersededBy.Some? {
      EndsLonger(claims, claims[id].supersededBy.value, n - 1, m - 1);
    }
  }

  /** One pass points `p` at `current`, for exactly the claims `p` of the set `replaced`. */
  ghost predicate Repointed(before: Claims, current: ClaimId, replaced: set<ClaimId>, after: Claims) {
    && after.Keys == before.Keys && current in before && current !in replaced
    && (forall id | id in replaced :: id in before && before[id].supersededBy.None?)
    && (forall id | id in before ::
          after[id].supersededBy == if id in replaced then Some(current) else before[id].supersededBy)
  }

  /** A chain whose end stays current is unchanged; one whose end is repointed goes on along
      the chain of `current`. */
  lemma {:induction false} ChainAfter(
    before: Claims, current: ClaimId, replaced: set<ClaimId>, after: Claims, id: ClaimId, n: nat, m: nat)
    requires Repointed(before, current, replaced, after) && EndsIn(before, id, n)
    requires EndOf(before, id, n) in replaced ==> EndsIn(after, current, m)
    ensures EndsIn(after, id, n + 1 + m)
    decreases n
  {
    if before[id].supersededBy.Some? {
      ChainAfter(before, current, replaced, after, before[id].supersededBy.value, n - 1, m);
    } else if id in replaced {
      EndsLonger(after, current, m, n + m);
    }
  }

  lemma {:induction false} NeverEnds(
    before: Claims, current: ClaimId, replaced: set<ClaimId>, after: Claims, k: nat, id: ClaimId, n: nat, m: nat)
    requires Repointed(before, current, replaced, after)
    requires EndsIn(before, current, k) && EndOf(before, current, k) in replaced
    requires EndsIn(before, id, n) && EndOf(before, id, n) == EndOf(before, current, k)
    ensures !EndsIn(after, id, m)
    decreases m
  {
    if m > 0 {
      if before[id].supersededBy.None? {
        NeverEnds(before, current, replaced, after, k, current, k, m - 1);
      } else {
        NeverEnds(before, current, replaced, after, k, before[id].supersededBy.value, n - 1, m - 1);
      }
    }
  }

  /** Repointing keeps all chains ending exactly when the end of `current`'s own chain is not
      among the repointed claims. */
  lemma RepointKeepsChains(before: Claims, current: ClaimId, replaced: set<ClaimId>, after: Claims, k: nat)
    requires Repointed(before, current, replaced, after) && AllChainsEnd(before) && EndsIn(before, current, k)
    ensures AllChainsEnd(after) <==> EndOf(before, current, k) !in replaced
  {
    if EndOf(before, current, k) !in replaced {
      ChainAfter(before, current, replaced, after, current, k, 0);
      forall id | id in after
        ensures ChainEnds(after, id)
      {
        assert ChainEnds(before, id);
        var n: nat :| EndsIn(before, id, n);
        ChainAfter(before, current, replaced, after, id, n, k + 1);
      }
    } else {
      forall m: nat
        ensures !EndsIn(after, current, m)
      {
        NeverEnds(before, current, replaced, after, k, current, k, m);
      }
      assert !ChainEnds(after, current);
    }
  }

  /** The claims that the pass will supersede. */
  ghost function Replaced(claims: Claims, current: ClaimId, seen: Claim): set<ClaimId>
    requires current in claims
  {
    set id | id in claims && claims[id].supersededBy.None?
             && Supersedable(claims, seen, Candidates(FactsOf(claims), current), id)
  }

  lemma PassRepoints(db: Db, current: ClaimId, seen: Claim, now: int)
    requires WellFormed(db) && current in db.claims
    ensures Repointed(db.claims, current, Replaced(db.claims, current, seen), AfterClaim(db, current, seen, now).claims)
  {
    hide AfterClaim, Candidates, WellFormed, Supersedable;
    AfterClaimKeeps(db, current, seen, now);
    var replaced, after := Replaced(db.claims, current, seen), AfterClaim(db, current, seen, now);
    forall id | id in db.claims
      ensures after.claims[id].supersededBy == if id in replaced then Some(current) else db.claims[id].supersededBy
    {
      LinksAfter(db, current, seen, now, id);
    }
    forall id | id in replaced
      ensures id != current
    {
      NotItsOwnCandidate(db.claims, current, seen, id);
    }
  }

  /** The claim at which `current`'s own chain ends is not one the pass will supersede. */
  ghost predicate SafePass(claims: Claims, current: ClaimId, seen: Claim)
    requires current in claims
  {
    forall n: nat | EndsIn(claims, current, n) :: EndOf(claims, current, n) !in Replaced(claims, current, seen)
  }

  /** The exact condition: from tables whose chains all end, one pass keeps all chains ending
      if and only if the claim at the end of `current`'s own chain is not one of the candidates
      the pass will supersede. */
  lemma ClaimKeepsChainsIff(db: Db, current: ClaimId, seen: Claim, now: int)
    requires WellFormed(db) && AllChainsEnd(db.claims) && current in db.claims
    ensures AllChainsEnd(AfterClaim(db, current, seen, now).claims) <==> SafePass(db.claims, current, seen)
  {
    hide *;
    var k := SomeEnd(db.claims, current);
    PassRepoints(db, current, seen, now);
    RepointKeepsChains(db.claims, current, Replaced(db.claims, current, seen), AfterClaim(db, current, seen, now).claims, k);
    SafePassAt(db.claims, current, seen, k);
  }

  lemma SomeEnd(claims: Claims, id: ClaimId) returns (n: nat)
    requires AllChainsEnd(claims) && id in claims
    ensures EndsIn(claims, id, n)
  {
    assert ChainEnds(claims, id);
    n :| EndsIn(claims, id, n);
  }

  lemma SafePassAt(claims: Claims, current: ClaimId, seen: Claim, k: nat)
    requires EndsIn(claims, current, k) && current in claims
    ensures SafePass(claims, current, seen) <==> EndOf(claims, current, k) !in Replaced(claims, current, seen)
  {
    hide Replaced;
    forall n: nat | EndsIn(claims, current, n)
      ensures EndOf(claims, current, n) == EndOf(claims, current, k)
    {
      EndsLonger(claims, current, n, n + k);
      EndsLonger(claims, current, k, n + k);
    }
  }

  /** A claim that is not superseded itself can always be reconciled without closing a cycle. */
  lemma CurrentClaimIsSafe(claims: Claims, current: ClaimId, seen: Claim)
    requires current in claims && claims[current].supersededBy.None?
    ensures SafePass(claims, current, seen)
  {
    hide Candidates, Supersedable;
    if current in Replaced(claims, current, seen) {
      NotItsOwnCandidate(claims, current, seen, current);
    }
  }

  // ----- Over a whole run -----

  /** A chain that never ends still does not end later: links are never rewritten. */
  lemma {:induction false} EndsBackwards(a: Claims, b: Claims, id: ClaimId, n: nat)
    requires ClaimsGrow(a, b) && EndsIn(b, id, n)
    ensures EndsIn(a, id, n)
    decreases n
  {
    if a[id].supersededBy.Some? {
      EndsBackwards(a, b, a[id].supersededBy.value, n - 1);
    }
  }

  lemma AllEndBackwards(a: Claims, b: Claims)
    requires ClaimsGrow(a, b) && AllChainsEnd(b)
    ensures AllChainsEnd(a)
  {
    forall id | id in a
      ensures ChainEnds(a, id)
    {
      assert ChainEnds(b, id);
      var n: nat :| EndsIn(b, id, n);
      EndsBackwards(a, b, id, n);
    }
  }

  ghost predicate SafeList(db: Db, read: Claims, order: seq<ClaimId>, now: int)
    requires WellFormed(db) && Known(db.claims, order) && Known(read, order)
  {
    order == []
    || (var n := |order| - 1;
        SafeList(db, read, order[..n], now) && SafePass(AfterList(db, read, order[..n], now).claims, order[n], read[order[n]]))
  }

  /** A chunk leaves every chain ending if and only if each of its claims was safe at its turn. */
  lemma {:induction false} ChunkKeepsChainsIff(db: Db, read: Claims, order: seq<ClaimId>, now: int)
    requires WellFormed(db) && Known(db.claims, order) && Known(read, order) && AllChainsEnd(db.claims)
    ensures AllChainsEnd(AfterList(db, read, order, now).claims) <==> SafeList(db, read, order, now)
  {
    hide WellFormed, AllChainsEnd, SafePass, AfterClaim, Tokens;
    if order != [] {
      var n := |order| - 1;
      var before := AfterList(db, read, order[..n], now);
      ChunkKeepsChainsIff(db, read, order[..n], now);
      var after := AfterList(db, read, order, now);
      ClaimStepUses(before, order[n], read[order[n]], now);
      if AllChainsEnd(before.claims) {
        ClaimKeepsChainsIff(before, order[n], read[order[n]], now);
      } else if AllChainsEnd(after.claims) {
        AllEndBackwards(before.claims, after.claims);
      }
    }
  }

  ghost predicate SafeRun(db: Db, passes: seq<Pass>)
    requires WellFormed(db) && KnownPasses(db.claims, passes)
  {
    passes == []
    || (var n := |passes| - 1;
        var before := AfterPasses(db, passes[..n]);
        SafeRun(db, passes[..n]) && SafeList(before, before.claims, passes[n].order, passes[n].now))
  }

  /** A run, that is any sequence of chunks, leaves every chain ending if and only if each claim
      of each chunk was safe at its turn. */
  lemma {:induction false} RunKeepsChainsIff(db: Db, passes: seq<Pass>)
    requires WellFormed(db) && KnownPasses(db.claims, passes) && AllChainsEnd(db.claims)
    ensures AllChainsEnd(AfterPasses(db, passes).claims) <==> SafeRun(db, passes)
  {
    hide WellFormed, AllChainsEnd, SafeList, AfterList, Tokens;
    if passes != [] {
      var n := |passes| - 1;
      var before := AfterPasses(db, passes[..n]);
      var after := AfterPasses(db, passes);
      RunKeepsChainsIff(db, passes[..n]);
      ListUses(before, before.claims, passes[n].order, passes[n].now);
      if AllChainsEnd(before.claims) {
        ChunkKeepsChainsIff(before, before.claims, passes[n].order, passes[n].now);
      } else if AllChainsEnd(after.claims) {
        AllEndBackwards(before.claims, after.claims);
      }
    }
  }

  // ----- Two new claims can supersede each other -----

  function Twin(memory: MemoryId): Claim {
    Claim(ClaimFacts(memory, Decision, "key", "subject", Some("positive"), Some(SessionDerived), true, 0, 0),
          Some(Inferred), None, None)
  }

  lemma TwinReplaced(claims: Claims, current: ClaimId, other: ClaimId, seen: Claim)
    requires claims.Keys == {current, other} && current != other
    requires claims[current].facts.key == claims[other].facts.key && claims[other].facts.admitted
    requires claims[other].supersededBy.None? && ShouldSupersede(seen, claims[other])
    ensures Replaced(claims, current, seen) == {other}
  {
    var facts := FactsOf(claims);
    assert EligibleSet(facts, current) == {other};
    assert Latest(facts, {}, LOOKUP_LIMIT - 1) == [];
    assert {other} - {other} == {};
    assert Newest(facts, {other}) == other;
    assert Candidates(facts, current) == [other];
  }

  const TWINS := Db(map[1 := Twin(1), 2 := Twin(2)], map[1 := None, 2 := None], map[])

  lemma TwinsStart()
    ensures WellFormed(TWINS) && Justified(TWINS) && AllChainsEnd(TWINS.claims)
    ensures TWINS.claims.Keys == {1, 2} && ShouldSupersede(Twin(1), Twin(2)) && ShouldSupersede(Twin(2), Twin(1))
  {
    forall id | id in TWINS.claims
      ensures ChainEnds(TWINS.claims, id)
    {
      assert EndsIn(TWINS.claims, id, 0);
    }
  }

  lemma FirstTwin()
    ensures WellFormed(TWINS) && 1 in TWINS.claims && 2 in TWINS.claims
    ensures var mid := AfterClaim(TWINS, 1, Twin(1), 0);
            && WellFormed(mid) && mid.claims.Keys == {1, 2}
            && mid.claims[1] == Twin(1) && mid.claims[2].supersededBy == Some(1) && mid.claims[2].facts == Twin(2).facts
  {
    TwinsStart();
    hide WellFormed, ShouldSupersede, Candidates, SlotsOf, UpsertAll;
    var mid := AfterClaim(TWINS, 1, Twin(1), 0);
    AfterClaimKeeps(TWINS, 1, Twin(1), 0);
    TwinReplaced(TWINS.claims, 1, 2, Twin(1));
    PassRepoints(TWINS, 1, Twin(1), 0);
    SameFacts(TWINS.claims, mid.claims, 1);
    SameFacts(TWINS.claims, mid.claims, 2);
    assert mid.claims[1].verification == Twin(1).verification && mid.claims[1].validTo == None by {
      var rows := Candidates(FactsOf(TWINS.claims), 1);
      assert forall p | p in TWINS.claims :: !Conflict(Twin(1).facts, TWINS.claims[p].facts);
      assert !Weakened(TWINS.claims, 1, Twin(1), rows, 1);
      if Supersedable(TWINS.claims, Twin(1), rows, 1) {
        NotItsOwnCandidate(TWINS.claims, 1, Twin(1), 1);
      }
    }
  }

  /** Unconditional acyclicity is false: two decisions with one key and equal strength, both
      new in one chunk, end up superseding each other. */
  lemma TwinsSupersedeEachOther()
    ensures WellFormed(TWINS) && Justified(TWINS) && AllChainsEnd(TWINS.claims) && Known(TWINS.claims, [1, 2])
    ensures Chain(AfterChunk(TWINS, [1, 2], 0).claims, [1, 2, 1])
  {
    hide AfterClaim, WellFormed, Justified, AllChainsEnd, Replaced, ShouldSupersede;
    TwinsStart();
    FirstTwin();
    var mid := AfterClaim(TWINS, 1, Twin(1), 0);
    assert [1, 2][..1] == [1] && [1][..0] == [];
    assert Known(TWINS.claims, [1]) && Known(TWINS.claims, []) && Known(TWINS.claims, [1, 2]);
    assert AfterList(TWINS, TWINS.claims, [], 0) == TWINS;
    assert AfterList(TWINS, TWINS.claims, [1], 0) == mid;
    assert AfterList(TWINS, TWINS.claims, [1, 2], 0) == AfterClaim(mid, 2, Twin(2), 0);
    TwinReplaced(mid.claims, 2, 1, Twin(2));
    PassRepoints(mid, 2, Twin(2), 0);
  }

  // ----- Reconciling each claim before a younger one is inserted -----

  datatype Event = Insert(id: ClaimId, facts: ClaimFacts, verification: Option<VerificationStatus>) | Reconcile(now: int)

  /** `born` lists the claims from oldest to youngest. */
  datatype History = History(db: Db, born: seq<ClaimId>)

  ghost predicate Enabled(h: History, e: Event) {
    match e
    case Insert(id, facts, _) => id !in h.db.claims && facts.memoryId !in h.db.memories
    case Reconcile(_) => h.born != []
  }

  ghost function Next(h: History, e: Event): History
    requires Older(h) && Enabled(h, e)
  {
    match e
    case Insert(id, facts, verification) =>
      History(Db(h.db.claims[id := Claim(facts, verification, None, None)],
                 h.db.memories[facts.memoryId := None], h.db.edges),
              h.born + [id])
    case Reconcile(now) =>
      var youngest := h.born[|h.born| - 1];
      assert youngest in h.born;
      h.(db := AfterClaim(h.db, youngest, h.db.claims[youngest], now))
  }

  /** Links lead from older to younger claims. */
  ghost predicate Older(h: History) {
    && WellFormed(h.db)
    && (forall i, j | 0 <= i < j < |h.born| :: h.born[i] != h.born[j])
    && (forall id :: id in h.db.claims <==> id in h.born)
    && (forall i, j | 0 <= i < |h.born| && 0 <= j < |h.born|
          && h.db.claims[h.born[i]].supersededBy == Some(h.born[j]) :: i < j)
  }

  lemma InsertKeepsOlder(h: History, e: Event)
    requires Older(h) && Enabled(h, e) && e.Insert?
    ensures Older(Next(h, e))
  {
    var h' := Next(h, e);
    forall id
      ensures id in h'.db.claims <==> id in h'.born
    {
      assert id in h'.born <==> id in h.born || id == e.id;
    }
  }

  lemma ReconcileKeepsOlder(h: History, e: Event)
    requires Older(h) && Enabled(h, e) && e.Reconcile?
    ensures Older(Next(h, e))
  {
    hide AfterClaim, Replaced, WellFormed;
    var last := |h.born| - 1;
    var youngest := h.born[last];
    assert youngest in h.born;
    var seen := h.db.claims[youngest];
    var after := AfterClaim(h.db, youngest, seen, e.now);
    AfterClaimKeeps(h.db, youngest, seen, e.now);
    PassRepoints(h.db, youngest, seen, e.now);
    RepointedOlder(h, Replaced(h.db.claims, youngest, seen), after);
  }

  lemma RepointedOlder(h: History, replaced: set<ClaimId>, after: Db)
    requires Older(h) && h.born != [] && WellFormed(after)
    requires Repointed(h.db.claims, h.born[|h.born| - 1], replaced, after.claims)
    ensures Older(h.(db := after))
  {
    hide WellFormed;
    forall i, j | 0 <= i < |h.born| && 0 <= j < |h.born| && after.claims[h.born[i]].supersededBy == Some(h.born[j])
      ensures i < j
    {
      assert h.born[i] in h.born && h.born[i] in h.db.claims;
      if h.born[i] in replaced {
        assert h.born[j] == h.born[|h.born| - 1];
      }
    }
  }

  lemma NextKeepsOlder(h: History, e: Event)
    requires Older(h) && Enabled(h, e)
    ensures Older(Next(h, e))
  {
    hide Older, Next;
    if e.Insert? {
      InsertKeepsOlder(h, e);
    } else {
      ReconcileKeepsOlder(h, e);
    }
  }

  ghost predicate Possible(h: History, events: seq<Event>)
    requires Older(h)
    decreases |events|
  {
    events == [] || (Enabled(h, events[0]) && (NextKeepsOlder(h, events[0]); Possible(Next(h, events[0]), events[1..])))
  }

  ghost function Replay(h: History, events: seq<Event>): History
    requires Older(h) && Possible(h, events)
    decreases |events|
  {
    if events == [] then h
    else
      NextKeepsOlder(h, events[0]);
      Replay(Next(h, events[0]), events[1..])
  }

  lemma {:induction false} OlderChainsEnd(h: History, i: nat, n: nat)
    requires Older(h) && i < |h.born| && n >= |h.born| - i
    ensures EndsIn(h.db.claims, h.born[i], n)
    decreases n
  {
    assert h.born[i] in h.born;
    var link := h.db.claims[h.born[i]].supersededBy;
    if link.Some? {
      var j :| 0 <= j < |h.born| && h.born[j] == link.value;
      OlderChainsEnd(h, j, n - 1);
    }
  }

  /** If every claim is reconciled, any number of times, only before a younger one is inserted,
      then at every moment all chains are acyclic and end at a current claim. */
  lemma {:induction false} ReconcileBeforeInsertKeepsChains(h: History, events: seq<Event>)
    requires Older(h) && Possible(h, events)
    ensures AllChainsEnd(Replay(h, events).db.claims)
    decreases |events|
  {
    if events == [] {
      forall id | id in h.db.claims
        ensures ChainEnds(h.db.claims, id)
      {
        var i :| 0 <= i < |h.born| && h.born[i] == id;
        OlderChainsEnd(h, i, |h.born|);
      }
    } else {
      NextKeepsOlder(h, events[0]);
      ReconcileBeforeInsertKeepsChains(Next(h, events[0]), events[1..]);
    }
  }
}
