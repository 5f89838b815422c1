/** The reconciliation job as the worker runs it: chunks of claims, each chunk one transaction
    over the tables, each claim one pass of the inner loop. */
module ReconcileJob {
  import opened Options
  import opened Contracts
  import opened ReconcileStore

  // ----- What a chunk and a job do -----

  lemma AfterClaimKeeps(db: Db, current: ClaimId, seen: Claim, now: int)
    requires WellFormed(db) && current in db.claims
    ensures var after := AfterClaim(db, current, seen, now);
            && WellFormed(after) && FactsOf(after.claims) == FactsOf(db.claims)
            && after.claims.Keys == db.claims.Keys && after.memories.Keys == db.memories.Keys
  {
    hide Weakened, Conflict, SlotsOf, UpsertAll, ShouldSupersede, EdgesAfter, Candidates;
    var after := AfterClaim(db, current, seen, now);
    ClaimsAfterKeeps(db.claims, current, seen, Candidates(FactsOf(db.claims), current), now);
    assert forall id | id in db.claims :: after.claims[id].facts == db.claims[id].facts;
  }

  lemma SameFacts(a: Claims, b: Claims, id: ClaimId)
    requires FactsOf(a) == FactsOf(b) && id in a
    ensures id in b && a[id].facts == b[id].facts
  {
    assert id in FactsOf(a) && FactsOf(a)[id] == FactsOf(b)[id];
  }

  /** The tables after the claims of `order`, whose columns were read as `read`, were
      reconciled one by one. */
  ghost function AfterList(db: Db, read: Claims, order: seq<ClaimId>, now: int): (after: Db)
    requires WellFormed(db) && Known(db.claims, order) && Known(read, order)
    ensures WellFormed(after) && FactsOf(after.claims) == FactsOf(db.claims)
    ensures after.claims.Keys == db.claims.Keys && after.memories.Keys == db.memories.Keys
  {
    if order == [] then db
    else
      var n := |order| - 1;
      var before := AfterList(db, read, order[..n], now);
      AfterClaimKeeps(before, order[n], read[order[n]], now);
      AfterClaim(before, order[n], read[order[n]], now)
  }

  /** A chunk reads the columns of its claims once, at the start. */
  ghost function AfterChunk(db: Db, order: seq<ClaimId>, now: int): (after: Db)
    requires WellFormed(db) && Known(db.claims, order)
    ensures WellFormed(after) && FactsOf(after.claims) == FactsOf(db.claims)
    ensures after.claims.Keys == db.claims.Keys && after.memories.Keys == db.memories.Keys
  {
    AfterList(db, db.claims, order, now)
  }

  /** One committed transaction: the order in which the database returned the claims of the
      chunk, and the transaction's clock. */
  datatype Pass = Pass(order: seq<ClaimId>, now: int)

  ghost predicate KnownPasses(claims: Claims, passes: seq<Pass>) {
    forall p | p in passes :: Known(claims, p.order)
  }

  ghost function AfterPasses(db: Db, passes: seq<Pass>): (after: Db)
    requires WellFormed(db) && KnownPasses(db.claims, passes)
    ensures WellFormed(after) && FactsOf(after.claims) == FactsOf(db.claims)
    ensures after.claims.Keys == db.claims.Keys && after.memories.Keys == db.memories.Keys
  {
    if passes == [] then db
    else
      var last := passes[|passes| - 1];
      AfterChunk(AfterPasses(db, passes[..|passes| - 1]), last.order, last.now)
  }

  function Ids(order: seq<ClaimId>): set<ClaimId> {
    set id | id in order
  }

  /** The claims that a run reconciles. */
  ghost function Processed(passes: seq<Pass>): set<ClaimId> {
    if passes == [] then {} else Processed(passes[..|passes| - 1]) + Ids(passes[|passes| - 1].order)
  }

  ghost function ClaimOutcome(claims: Claims, current: ClaimId, seen: Claim): Outcome
    requires current in claims
  {
    OutcomeOf(SlotsOf(claims, current, seen, Candidates(FactsOf(claims), current)))
  }

  const NOTHING := Outcome(0, 0, 0, 0)

  ghost function ListOutcome(db: Db, read: Claims, order: seq<ClaimId>, now: int): Outcome
    requires WellFormed(db) && Known(db.claims, order) && Known(read, order)
  {
    if order == [] then NOTHING
    else
      var n := |order| - 1;
      Merge(ListOutcome(db, read, order[..n], now),
            ClaimOutcome(AfterList(db, read, order[..n], now).claims, order[n], read[order[n]]))
  }

  ghost function PassesOutcome(db: Db, passes: seq<Pass>): Outcome
    requires WellFormed(db) && KnownPasses(db.claims, passes)
  {
    if passes == [] then NOTHING
    else
      var last := passes[|passes| - 1];
      var before := AfterPasses(db, passes[..|passes| - 1]);
      Merge(PassesOutcome(db, passes[..|passes| - 1]), ListOutcome(before, before.claims, last.order, last.now))
  }

  // ----- The code -----

  /** What the candidate lookups return; they read only columns that are never written. */
  ghost predicate Lookups(claims: Claims, lookup: map<ClaimId, seq<ClaimId>>, ids: seq<ClaimId>) {
    forall id | id in ids :: id in claims && id in lookup && lookup[id] == Candidates(FactsOf(claims), id)
  }

  class Tables {
    var claims: Claims
    var memories: Memories
    var edges: Edges

    function State(): Db
      reads this
    {
      Db(claims, memories, edges)
    }

    method SupersedeMemory(id: MemoryId, now: int)
      modifies this`memories
      ensures memories == MarkMemorySuperseded(old(memories), id, now)
      ensures memories.Keys == old(memories.Keys) && (id in memories ==> memories[id].Some?)
      ensures forall m | m in memories && (m != id || old(memories)[m].Some?) :: memories[m] == old(memories)[m]
    {
      if id in memories && memories[id].None? {
        memories := memories[id := Some(now)];
      }
    }

    method SupersedeClaim(id: ClaimId, winner: ClaimId, now: int)
      modifies this`claims
      ensures claims == MarkClaimSuperseded(old(claims), id, winner, now)
      ensures claims.Keys == old(claims.Keys) && (id in claims ==> claims[id].supersededBy.Some?)
      ensures forall c | c in claims && (c != id || old(claims)[c].supersededBy.Some?) :: claims[c] == old(claims)[c]
      ensures forall c | c in claims ::
                claims[c].facts == old(claims)[c].facts && claims[c].verification == old(claims)[c].verification
    {
      if id in claims && claims[id].supersededBy.None? {
        claims := claims[id := claims[id].(supersededBy := Some(winner), validTo := Some(now))];
      }
    }

    method SetContradicted(id: ClaimId)
      modifies this`claims
      ensures claims == MarkContradicted(old(claims), id)
      ensures claims.Keys == old(claims.Keys) && (id in claims ==> claims[id].verification == Some(Contradicted))
      ensures forall c | c in claims && c != id :: claims[c] == old(claims)[c]
      ensures forall c | c in claims ::
                && claims[c].facts == old(claims)[c].facts && claims[c].supersededBy == old(claims)[c].supersededBy
                && claims[c].validTo == old(claims)[c].validTo
    {
      if id in claims {
        claims := claims[id := claims[id].(verification := Some(Contradicted))];
      }
    }

    /** The upserts of one kind for one pair: the memory edge, then the claim edge. */
    method UpsertEdges(current: ClaimId, prior: ClaimId, kind: EdgeKind)
      requires current in claims && prior in claims
      modifies this`edges
      ensures var slots := [Slot(MemoryEdges, current, prior, kind), Slot(ClaimEdges, current, prior, kind)];
              InFacts(FactsOf(claims), slots) && edges == UpsertAll(FactsOf(claims), old(edges), slots)
    {
      var facts := FactsOf(claims);
      var memoryEdge, claimEdge := Slot(MemoryEdges, current, prior, kind), Slot(ClaimEdges, current, prior, kind);
      UpsertPair(facts, edges, memoryEdge, claimEdge);
      edges := edges[KeyOf(facts, memoryEdge) := DataOf(facts, memoryEdge)];
      edges := edges[KeyOf(facts, claimEdge) := DataOf(facts, claimEdge)];
    }

    /** `reconcile_single_claim`: `rows` is what the lookup returned for `current`. */
    method ReconcileSingleClaim(current: ClaimId, seen: Claim, rows: seq<ClaimId>, now: int)
      returns (outcome: Outcome)
      requires WellFormed(State()) && current in claims && seen.facts == claims[current].facts
      requires rows == Candidates(FactsOf(claims), current)
      modifies this
      ensures State() == AfterClaim(old(State()), current, seen, now)
      ensures outcome == ClaimOutcome(old(claims), current, seen)
    {
      hide ClaimsAfter, MemoriesAfter, EdgesAfter, AfterRows, SlotsOf, UpsertAll, RowClaims, RowMemories, RowSlots;
      hide WellFormed, Candidates, OutcomeOf;
      outcome := Outcome(1, 0, 0, 0);
      var read := claims;
      ghost var db := State();
      NoRows(db, current, seen, now);
      assert rows[..0] == [] && rows[..|rows|] == rows;
      assert forall j | 0 <= j < |rows| :: Eligible(FactsOf(read), current, rows[j]);
      for i := 0 to |rows|
        invariant Known(read, rows) && Known(read, rows[..i])
        invariant State() == AfterRows(db, current, seen, rows[..i], now)
        invariant outcome == OutcomeOf(SlotsOf(read, current, seen, rows[..i]))
      {
        OneRowFurther(db, current, seen, rows, i, now);
        var rowOutcome := CompareWithPrior(current, seen, rows[i], read[rows[i]], now);
        outcome := Merge(outcome, rowOutcome);
      }
    }

    /** One iteration of the loop over the candidates. */
    method CompareWithPrior(current: ClaimId, seen: Claim, prior: ClaimId, read: Claim, now: int)
      returns (outcome: Outcome)
      requires current in claims && prior in claims
      modifies this
      ensures claims == RowClaims(old(claims), current, seen, prior, read, now)
      ensures memories == RowMemories(old(memories), seen, read, now)
      ensures InFacts(FactsOf(old(claims)), RowSlots(current, seen, prior, read))
      ensures edges == UpsertAll(FactsOf(old(claims)), old(edges), RowSlots(current, seen, prior, read))
      ensures outcome == RowOutcome(seen, read)
    {
      hide UpsertAll, FactsOf, MarkMemorySuperseded, MarkClaimSuperseded, MarkContradicted, Strength;
      var supersedes, contradicts, confirms := 0, 0, 0;
      MarkKeepsFacts(claims, prior, current, now);
      ghost var facts, slots := FactsOf(claims), [];
      UpsertNone(facts, edges);
      if ShouldSupersede(seen, read) {
        SupersedeMemory(read.facts.memoryId, now);
        SupersedeClaim(prior, current, now);
        UpsertEdges(current, prior, Supersedes);
        slots := [Slot(MemoryEdges, current, prior, Supersedes), Slot(ClaimEdges, current, prior, Supersedes)];
        supersedes := 1;
      }
      if seen.facts.polarity.Some? && read.facts.polarity.Some? && seen.facts.polarity != read.facts.polarity {
        UpsertEdges(current, prior, Contradicts);
        if Strength(seen) > Strength(read) {
          SetContradicted(prior);
        } else if Strength(seen) < Strength(read) {
          SetContradicted(current);
        }
        contradicts := 1;
      } else {
        UpsertEdges(current, prior, Confirms);
        confirms := 1;
      }
      ghost var kind := ConflictKind(seen.facts, read.facts);
      ghost var pair := [Slot(MemoryEdges, current, prior, kind), Slot(ClaimEdges, current, prior, kind)];
      UpsertAllAppend(facts, old(edges), slots, pair);
      assert RowSlots(current, seen, prior, read) == slots + pair;
      outcome := Outcome(0, supersedes, contradicts, confirms);
    }

    /** `reconcile_claim_state_for_claims`: the rows come back in `order`; each claim's columns
        are read once, before the first update. */
    method ReconcileChunk(order: seq<ClaimId>, lookup: map<ClaimId, seq<ClaimId>>, now: int)
      returns (outcome: Outcome)
      requires WellFormed(State()) && Lookups(claims, lookup, order)
      modifies this
      ensures Known(old(claims), order)
      ensures State() == AfterChunk(old(State()), order, now)
      ensures outcome == ListOutcome(old(State()), old(claims), order, now)
    {
      hide AfterClaim, ClaimOutcome, WellFormed, Candidates, FactsOf;
      outcome := NOTHING;
      var read := claims;
      ghost var db := State();
      for i := 0 to |order|
        invariant Known(read, order) && Known(read, order[..i])
        invariant State() == AfterList(db, read, order[..i], now)
        invariant outcome == ListOutcome(db, read, order[..i], now)
      {
        var current := order[i];
        assert current in order;
        assert order[..i + 1][..i] == order[..i];
        SameFacts(read, claims, current);
        var one := ReconcileSingleClaim(current, read[current], lookup[current], now);
        outcome := Merge(outcome, one);
      }
      assert order[..|order|] == order;
    }

    /** `reconcile_claim_state_job`, or as much of it as was committed. */
    method ReconcileJob(passes: seq<Pass>, lookup: map<ClaimId, seq<ClaimId>>) returns (totals: Outcome)
      requires WellFormed(State()) && forall p | p in passes :: Lookups(claims, lookup, p.order)
      modifies this
      ensures KnownPasses(old(claims), passes)
      ensures State() == AfterPasses(old(State()), passes)
      ensures totals == PassesOutcome(old(State()), passes)
    {
      totals := NOTHING;
      ghost var db := State();
      for i := 0 to |passes|
        invariant KnownPasses(db.claims, passes) && KnownPasses(db.claims, passes[..i])
        invariant State() == AfterPasses(db, passes[..i])
        invariant totals == PassesOutcome(db, passes[..i])
      {
        assert passes[i] in passes;
        assert passes[..i + 1][..i] == passes[..i];
        var outcome := ReconcileChunk(passes[i].order, lookup, passes[i].now);
        totals := Merge(totals, outcome);
      }
      assert passes[..|passes|] == passes;
    }
  }
}
