/** What every run of reconciliation keeps: it converges, and its conflict edges do not depend
    on crashes and retries. */
module ReconcileLaws {
  import opened Sets
  import opened Options
  import opened Contracts
  import opened ReconcileStore
  import opened ReconcileJob

  // ----- What upserts do -----

  ghost predicate UniqueMemories(facts: Facts) {
    forall a, b | a in facts && b in facts && a != b :: facts[a].memoryId != facts[b].memoryId
  }

  predicate Of(facts: Facts, slot: Slot) {
    slot.from in facts && slot.to in facts
  }

  predicate Settled(facts: Facts, edges: Edges, slot: Slot) {
    Of(facts, slot) && KeyOf(facts, slot) in edges && edges[KeyOf(facts, slot)] == DataOf(facts, slot)
  }

  ghost predicate Touched(facts: Facts, slots: seq<Slot>, key: EdgeKey) {
    exists s :: s in slots && Of(facts, s) && KeyOf(facts, s) == key
  }

  lemma {:induction false} UpsertAllSettles(facts: Facts, edges: Edges, slots: seq<Slot>, s: Slot)
    requires InFacts(facts, slots) && UniqueMemories(facts) && s in slots
    ensures Settled(facts, UpsertAll(facts, edges, slots), s)
  {
    hide KeyOf, DataOf;
    var n := |slots| - 1;
    var init, last := slots[..n], slots[n];
    assert slots == init + [last] && last in slots && forall x | x in init :: x in slots;
    if s != last {
      UpsertAllSettles(facts, edges, init, s);
      if KeyOf(facts, s) == KeyOf(facts, last) {
        KeyInjective(facts, s, last);
      }
    }
  }

  lemma {:induction false} UpsertAllUntouched(facts: Facts, edges: Edges, slots: seq<Slot>, key: EdgeKey)
    requires InFacts(facts, slots)
    ensures var after := UpsertAll(facts, edges, slots);
            && (key in edges ==> key in after)
            && (!Touched(facts, slots, key) ==> (key in after <==> key in edges) && (key in edges ==> after[key] == edges[key]))
  {
    hide KeyOf, DataOf;
    if slots != [] {
      var n := |slots| - 1;
      var init, last := slots[..n], slots[n];
      assert slots == init + [last] && last in slots && forall x | x in init :: x in slots;
      UpsertAllUntouched(facts, edges, init, key);
    }
  }

  lemma UpsertAllEffect(facts: Facts, edges: Edges, slots: seq<Slot>)
    requires InFacts(facts, slots) && UniqueMemories(facts)
    ensures var after := UpsertAll(facts, edges, slots);
            && (forall s | s in slots :: Settled(facts, after, s))
            && (forall key | !Touched(facts, slots, key) ::
                  (key in after <==> key in edges) && (key in edges ==> after[key] == edges[key]))
            && (forall key | key in edges :: key in after)
            && ((forall s | s in slots :: Settled(facts, edges, s)) ==> after == edges)
  {
    hide KeyOf, DataOf, UpsertAll;
    var after := UpsertAll(facts, edges, slots);
    forall s | s in slots
      ensures Settled(facts, after, s)
    {
      UpsertAllSettles(facts, edges, slots, s);
    }
    forall key
      ensures key in edges ==> key in after
      ensures !Touched(facts, slots, key) ==> (key in after <==> key in edges) && (key in edges ==> after[key] == edges[key])
    {
      UpsertAllUntouched(facts, edges, slots, key);
    }
    if forall s | s in slots :: Settled(facts, edges, s) {
      forall key
        ensures (key in after <==> key in edges) && (key in edges ==> after[key] == edges[key])
      {
      }
    }
  }

  lemma KeyInjective(facts: Facts, a: Slot, b: Slot)
    requires UniqueMemories(facts) && Of(facts, a) && Of(facts, b) && KeyOf(facts, a) == KeyOf(facts, b)
    ensures a == b
  {
  }

  lemma FactsUnique(db: Db)
    requires WellFormed(db)
    ensures UniqueMemories(FactsOf(db.claims))
  {
  }

  // ----- Convergence -----

  /** What a state-changing call uses up: a claim not yet superseded, a memory not yet
      superseded, a claim not yet contradicted, an edge not yet written as it will be. */
  datatype Token =
    | Current(claim: ClaimId)
    | Active(memory: MemoryId)
    | Uncontradicted(claim: ClaimId)
    | Unsettled(slot: Slot)

  ghost function ClaimTokens(claims: Claims): (tokens: set<Token>)
    ensures forall t | t in tokens :: t.Current? || t.Uncontradicted?
  {
    (set id | id in claims && claims[id].supersededBy.None? :: Current(id))
    + (set id | id in claims && claims[id].verification != Some(Contradicted) :: Uncontradicted(id))
  }

  ghost function MemoryTokens(memories: Memories): (tokens: set<Token>)
    ensures forall t | t in tokens :: t.Active?
  {
    set id | id in memories && memories[id].None? :: Active(id)
  }

  ghost function EdgeTokens(facts: Facts, edges: Edges): (tokens: set<Token>)
    ensures forall t | t in tokens :: t.Unsettled?
  {
    set layer: Layer, a, b, kind: EdgeKind
      | a in facts && b in facts && !Settled(facts, edges, Slot(layer, a, b, kind))
      :: Unsettled(Slot(layer, a, b, kind))
  }

  ghost function Tokens(db: Db): set<Token> {
    ClaimTokens(db.claims) + MemoryTokens(db.memories) + EdgeTokens(FactsOf(db.claims), db.edges)
  }

  /** From `a` to `b`, supersession is written at most once and never rewritten, verification
      moves only to contradicted, and edges only grow. */
  ghost predicate Grows(a: Db, b: Db) {
    ClaimsGrow(a.claims, b.claims) && MemoriesGrow(a.memories, b.memories) && a.edges.Keys <= b.edges.Keys
  }

  ghost predicate ClaimsGrow(a: Claims, b: Claims) {
    && a.Keys == b.Keys
    && (forall id | id in a ::
          && b[id].facts == a[id].facts
          && (a[id].supersededBy.Some? ==> b[id].supersededBy == a[id].supersededBy && b[id].validTo == a[id].validTo)
          && (b[id].verification == a[id].verification || b[id].verification == Some(Contradicted)))
  }

  ghost predicate MemoriesGrow(a: Memories, b: Memories) {
    a.Keys == b.Keys && forall id | id in a && a[id].Some? :: b[id] == a[id]
  }

  lemma ClaimsUse(claims: Claims, current: ClaimId, seen: Claim, rows: seq<ClaimId>, now: int)
    ensures var after := ClaimsAfter(claims, current, seen, rows, now);
            && ClaimsGrow(claims, after) && ClaimTokens(after) <= ClaimTokens(claims)
            && (ClaimTokens(after) == ClaimTokens(claims) ==> after == claims)
  {
    hide Weakened, Supersedable;
    var after := ClaimsAfter(claims, current, seen, rows, now);
    assert ClaimTokens(after) <= ClaimTokens(claims);
    if ClaimTokens(after) == ClaimTokens(claims) {
      forall id | id in claims
        ensures after[id] == claims[id]
      {
        assert Current(id) in ClaimTokens(after) <==> Current(id) in ClaimTokens(claims);
        assert Uncontradicted(id) in ClaimTokens(after) <==> Uncontradicted(id) in ClaimTokens(claims);
      }
      assert after == claims;
    }
  }

  lemma MemoriesUse(memories: Memories, claims: Claims, seen: Claim, rows: seq<ClaimId>, now: int)
    ensures var after := MemoriesAfter(memories, claims, seen, rows, now);
            && MemoriesGrow(memories, after) && MemoryTokens(after) <= MemoryTokens(memories)
            && (MemoryTokens(after) == MemoryTokens(memories) ==> after == memories)
  {
    hide MemoryReplaced;
    var after := MemoriesAfter(memories, claims, seen, rows, now);
    if MemoryTokens(after) == MemoryTokens(memories) {
      forall id | id in memories
        ensures after[id] == memories[id]
      {
        assert Active(id) in MemoryTokens(after) <==> Active(id) in MemoryTokens(memories);
      }
      assert after == memories;
    }
  }

  lemma EdgesUse(facts: Facts, edges: Edges, slots: seq<Slot>)
    requires InFacts(facts, slots) && UniqueMemories(facts)
    ensures var after := UpsertAll(facts, edges, slots);
            && edges.Keys <= after.Keys && EdgeTokens(facts, after) <= EdgeTokens(facts, edges)
            && (EdgeTokens(facts, after) == EdgeTokens(facts, edges) ==> after == edges)
  {
    var after := UpsertAll(facts, edges, slots);
    UpsertAllEffect(facts, edges, slots);
    forall slot | Settled(facts, edges, slot)
      ensures Settled(facts, after, slot)
    {
      if slot !in slots {
        NotTouched(facts, slots, slot);
      }
    }
    if EdgeTokens(facts, after) == EdgeTokens(facts, edges) {
      forall slot | slot in slots
        ensures Settled(facts, edges, slot)
      {
        assert slot == Slot(slot.layer, slot.from, slot.to, slot.kind);
        assert Unsettled(slot) !in EdgeTokens(facts, after);
      }
    }
  }

  lemma TokensEqual(a: Db, b: Db)
    requires Tokens(a) == Tokens(b)
    ensures ClaimTokens(a.claims) == ClaimTokens(b.claims) && MemoryTokens(a.memories) == MemoryTokens(b.memories)
    ensures EdgeTokens(FactsOf(a.claims), a.edges) == EdgeTokens(FactsOf(b.claims), b.edges)
  {
    hide ClaimTokens, MemoryTokens, EdgeTokens, FactsOf;
    assert forall t: Token | t.Current? || t.Uncontradicted? ::
        (t in ClaimTokens(a.claims) <==> t in Tokens(a)) && (t in ClaimTokens(b.claims) <==> t in Tokens(b));
    assert forall t: Token | t.Active? ::
        (t in MemoryTokens(a.memories) <==> t in Tokens(a)) && (t in MemoryTokens(b.memories) <==> t in Tokens(b));
    assert forall t: Token | t.Unsettled? ::
        && (t in EdgeTokens(FactsOf(a.claims), a.edges) <==> t in Tokens(a))
        && (t in EdgeTokens(FactsOf(b.claims), b.edges) <==> t in Tokens(b));
  }

  /** The three tables after one pass, each from its own closed form. */
  lemma AfterClaimTables(db: Db, current: ClaimId, seen: Claim, now: int)
    requires WellFormed(db) && current in db.claims
    ensures var after := AfterClaim(db, current, seen, now);
            var facts := FactsOf(db.claims);
            var rows := Candidates(facts, current);
            && after.claims == ClaimsAfter(db.claims, current, seen, rows, now)
            && after.memories == MemoriesAfter(db.memories, db.claims, seen, rows, now)
            && Known(db.claims, rows) && InFacts(facts, SlotsOf(db.claims, current, seen, rows))
            && after.edges == UpsertAll(facts, db.edges, SlotsOf(db.claims, current, seen, rows))
            && FactsOf(after.claims) == facts && UniqueMemories(facts)
  {
    hide ClaimsAfter, MemoriesAfter, UpsertAll, SlotsOf;
    var facts := FactsOf(db.claims);
    var rows := Candidates(facts, current);
    assert Known(db.claims, rows) by {
      assert forall i | 0 <= i < |rows| :: Eligible(facts, current, rows[i]);
    }
    SlotsInFacts(facts, db.claims, current, seen, rows);
    AfterClaimKeeps(db, current, seen, now);
    FactsUnique(db);
  }

  lemma ClaimStepUses(db: Db, current: ClaimId, seen: Claim, now: int)
    requires WellFormed(db) && current in db.claims
    ensures var after := AfterClaim(db, current, seen, now);
            Grows(db, after) && Tokens(after) <= Tokens(db) && (Tokens(after) == Tokens(db) ==> after == db)
  {
    AfterClaimTables(db, current, seen, now);
    hide *;
    var facts := FactsOf(db.claims);
    var rows := Candidates(facts, current);
    ClaimsUse(db.claims, current, seen, rows, now);
    MemoriesUse(db.memories, db.claims, seen, rows, now);
    EdgesUse(facts, db.edges, SlotsOf(db.claims, current, seen, rows));
    TokensShrink(db, AfterClaim(db, current, seen, now));
  }

  lemma TokensShrink(a: Db, b: Db)
    requires FactsOf(a.claims) == FactsOf(b.claims)
    requires ClaimsGrow(a.claims, b.claims) && MemoriesGrow(a.memories, b.memories) && a.edges.Keys <= b.edges.Keys
    requires ClaimTokens(b.claims) <= ClaimTokens(a.claims) && MemoryTokens(b.memories) <= MemoryTokens(a.memories)
    requires EdgeTokens(FactsOf(b.claims), b.edges) <= EdgeTokens(FactsOf(a.claims), a.edges)
    requires ClaimTokens(b.claims) == ClaimTokens(a.claims) ==> b.claims == a.claims
    requires MemoryTokens(b.memories) == MemoryTokens(a.memories) ==> b.memories == a.memories
    requires EdgeTokens(FactsOf(b.claims), b.edges) == EdgeTokens(FactsOf(a.claims), a.edges) ==> b.edges == a.edges
    ensures Grows(a, b) && Tokens(b) <= Tokens(a) && (Tokens(b) == Tokens(a) ==> b == a)
  {
    hide ClaimsGrow, MemoriesGrow;
    hide ClaimTokens, MemoryTokens, EdgeTokens, FactsOf;
    if Tokens(b) == Tokens(a) {
      TokensEqual(b, a);
    }
  }

  lemma NotTouched(facts: Facts, slots: seq<Slot>, slot: Slot)
    requires UniqueMemories(facts) && InFacts(facts, slots) && Of(facts, slot) && slot !in slots
    ensures !Touched(facts, slots, KeyOf(facts, slot))
  {
    if s :| s in slots && Of(facts, s) && KeyOf(facts, s) == KeyOf(facts, slot) {
      KeyInjective(facts, s, slot);
    }
  }

  // Over a chunk, over a job, over any sequence of committed chunks.

  ghost predicate Uses(a: Db, b: Db) {
    Grows(a, b) && Tokens(b) <= Tokens(a) && (Tokens(b) == Tokens(a) ==> b == a)
  }

  lemma UsesTransitive(a: Db, b: Db, c: Db)
    requires Uses(a, b) && Uses(b, c)
    ensures Uses(a, c)
  {
    hide Tokens;
  }

  lemma {:induction false} ListUses(db: Db, read: Claims, order: seq<ClaimId>, now: int)
    requires WellFormed(db) && Known(db.claims, order) && Known(read, order)
    ensures Uses(db, AfterList(db, read, order, now))
  {
    hide AfterClaim, WellFormed, Tokens;
    if order != [] {
      var n := |order| - 1;
      var before := AfterList(db, read, order[..n], now);
      ListUses(db, read, order[..n], now);
      ClaimStepUses(before, order[n], read[order[n]], now);
      UsesTransitive(db, before, AfterList(db, read, order, now));
    }
  }

  /** Monotonicity over every run: see `Grows`. */
  lemma {:induction false} PassesUse(db: Db, passes: seq<Pass>)
    requires WellFormed(db) && KnownPasses(db.claims, passes)
    ensures Uses(db, AfterPasses(db, passes))
  {
    hide WellFormed, Tokens;
    if passes != [] {
      var n := |passes| - 1;
      var before := AfterPasses(db, passes[..n]);
      PassesUse(db, passes[..n]);
      ListUses(before, before.claims, passes[n].order, passes[n].now);
      UsesTransitive(db, before, AfterPasses(db, passes));
    }
  }

  /** The finite measure that every state-changing call decreases. */
  ghost function Measure(db: Db): nat {
    |Tokens(db)|
  }

  lemma ChunkDecreasesMeasure(db: Db, order: seq<ClaimId>, now: int)
    requires WellFormed(db) && Known(db.claims, order)
    ensures var after := AfterChunk(db, order, now);
            Grows(db, after) && Measure(after) <= Measure(db) && (after != db ==> Measure(after) < Measure(db))
  {
    ListUses(db, db.claims, order, now);
    SubsetSize(Tokens(AfterChunk(db, order, now)), Tokens(db));
  }

  /** How many of the chunks changed the tables. */
  ghost function Changes(db: Db, passes: seq<Pass>): nat
    requires WellFormed(db) && KnownPasses(db.claims, passes)
  {
    if passes == [] then 0
    else
      var n := |passes| - 1;
      Changes(db, passes[..n]) + (if AfterPasses(db, passes) != AfterPasses(db, passes[..n]) then 1 else 0)
  }

  /** However many chunks are run, in whatever order and however often, at most as many of
      them change anything as the measure of the first state. */
  lemma {:induction false} BoundedChanges(db: Db, passes: seq<Pass>)
    requires WellFormed(db) && KnownPasses(db.claims, passes)
    ensures Changes(db, passes) + Measure(AfterPasses(db, passes)) <= Measure(db)
  {
    hide WellFormed, Measure;
    if passes != [] {
      var n := |passes| - 1;
      var before := AfterPasses(db, passes[..n]);
      BoundedChanges(db, passes[..n]);
      ChunkDecreasesMeasure(before, passes[n].order, passes[n].now);
    }
  }

  // ----- Re-running a chunk reaches a fixpoint -----

  /** If one pass changes nothing, it changes nothing at any other time either: the clock is
      written only where something changes. */
  lemma StillAtAnyTime(db: Db, current: ClaimId, seen: Claim, now: int, later: int)
    requires WellFormed(db) && current in db.claims && AfterClaim(db, current, seen, now) == db
    ensures AfterClaim(db, current, seen, later) == db
  {
    hide Weakened, MemoryReplaced, Supersedable, SlotsOf, UpsertAll, WellFormed, Candidates;
    var rows := Candidates(FactsOf(db.claims), current);
    var a, b := AfterClaim(db, current, seen, now), AfterClaim(db, current, seen, later);
    assert forall i | 0 <= i < |rows| :: Eligible(FactsOf(db.claims), current, rows[i]);
    forall id | id in db.claims
      ensures b.claims[id] == db.claims[id]
    {
      assert a.claims[id] == ClaimAfter(db.claims, current, seen, rows, now, id);
      assert b.claims[id] == ClaimAfter(db.claims, current, seen, rows, later, id);
    }
    assert b.claims == db.claims;
    forall id | id in db.memories
      ensures b.memories[id] == db.memories[id]
    {
      assert a.memories[id] == db.memories[id];
    }
    assert b.memories == db.memories;
  }

  /** If reconciling a list changes nothing in the end, none of its passes changes anything. */
  lemma {:induction false} EachPassIsStill(db: Db, read: Claims, order: seq<ClaimId>, now: int, id: ClaimId)
    requires WellFormed(db) && Known(db.claims, order) && Known(read, order) && id in order
    requires AfterList(db, read, order, now) == db
    ensures AfterClaim(db, id, read[id], now) == db
  {
    hide AfterClaim, WellFormed, Tokens, Grows;
    var n := |order| - 1;
    var before := AfterList(db, read, order[..n], now);
    ListUses(db, read, order[..n], now);
    ClaimStepUses(before, order[n], read[order[n]], now);
    assert Tokens(db) <= Tokens(before) <= Tokens(db);
    assert before == db;
    if id != order[n] {
      assert id in order[..n];
      EachPassIsStill(db, read, order[..n], now, id);
    }
  }

  /** If a run changes nothing in the end, none of its chunks changes anything. */
  lemma {:induction false} EachChunkIsStill(db: Db, passes: seq<Pass>, id: ClaimId) returns (now: int)
    requires WellFormed(db) && KnownPasses(db.claims, passes) && AfterPasses(db, passes) == db && id in Processed(passes)
    ensures id in db.claims && AfterClaim(db, id, db.claims[id], now) == db
    decreases |passes|
  {
    hide AfterClaim, AfterList, WellFormed, Tokens, Grows;
    var n := |passes| - 1;
    var before, last := AfterPasses(db, passes[..n]), passes[n];
    PassesUse(db, passes[..n]);
    ListUses(before, before.claims, last.order, last.now);
    assert Tokens(db) <= Tokens(before) <= Tokens(db);
    assert before == db;
    if id in last.order {
      now := last.now;
      EachPassIsStill(db, db.claims, last.order, now, id);
    } else {
      now := EachChunkIsStill(db, passes[..n], id);
    }
  }

  /** Then no run over these claims changes anything, in whatever chunks, orders and times. */
  lemma {:induction false} StillInAnyRun(db: Db, passes: seq<Pass>, other: seq<Pass>)
    requires WellFormed(db) && KnownPasses(db.claims, passes) && KnownPasses(db.claims, other)
    requires AfterPasses(db, passes) == db && Processed(other) <= Processed(passes)
    ensures AfterPasses(db, other) == db
    decreases |other|
  {
    hide AfterList, WellFormed;
    if other != [] {
      var n := |other| - 1;
      StillInAnyRun(db, passes, other[..n]);
      StillInAnyList(db, passes, other[n].order, other[n].now);
    }
  }

  lemma {:induction false} StillInAnyList(db: Db, passes: seq<Pass>, order: seq<ClaimId>, now: int)
    requires WellFormed(db) && KnownPasses(db.claims, passes) && Known(db.claims, order)
    requires AfterPasses(db, passes) == db && forall id | id in order :: id in Processed(passes)
    ensures AfterList(db, db.claims, order, now) == db
    decreases |order|
  {
    hide AfterClaim, AfterPasses, WellFormed, Processed;
    if order != [] {
      var n := |order| - 1;
      StillInAnyList(db, passes, order[..n], now);
      assert order[n] in order;
      var once := EachChunkIsStill(db, passes, order[n]);
      StillAtAnyTime(db, order[n], db.claims[order[n]], once, now);
    }
  }

  /** Runs over the same known claims, each in its own chunks, orders and times. */
  ghost predicate SameRuns(claims: Claims, runs: nat -> seq<Pass>) {
    && (forall k :: KnownPasses(claims, runs(k)))
    && (forall j, k :: Processed(runs(j)) == Processed(runs(k)))
  }

  ghost function Rerun(db: Db, runs: nat -> seq<Pass>, n: nat): (after: Db)
    requires WellFormed(db) && SameRuns(db.claims, runs)
    ensures WellFormed(after) && FactsOf(after.claims) == FactsOf(db.claims)
    ensures after.claims.Keys == db.claims.Keys && after.memories.Keys == db.memories.Keys
  {
    if n == 0 then db
    else
      var before := Rerun(db, runs, n - 1);
      KnownAfter(db.claims, before.claims, runs(n - 1));
      AfterPasses(before, runs(n - 1))
  }

  lemma KnownAfter(a: Claims, b: Claims, passes: seq<Pass>)
    requires a.Keys == b.Keys && KnownPasses(a, passes)
    ensures KnownPasses(b, passes)
  {
    forall p, id | p in passes && id in p.order
      ensures id in b
    {
      assert id in a && id in b.Keys;
    }
  }

  /** Re-running a job, or one chunk of it, in whatever chunks, orders and times, stops changing
      the tables after at most as many runs as the measure of the first state; no run over any of
      its claims changes them again. */
  lemma {:induction false} RerunReachesFixpoint(db: Db, runs: nat -> seq<Pass>, n: nat, other: seq<Pass>)
    requires WellFormed(db) && SameRuns(db.claims, runs) && n >= Measure(db)
    requires KnownPasses(db.claims, other) && Processed(other) <= Processed(runs(0))
    ensures var end := Rerun(db, runs, n);
            KnownPasses(end.claims, other) && AfterPasses(end, other) == end
  {
    hide Measure, WellFormed, AfterPasses, Rerun, StillRun;
    var m := RerunDecreases(db, runs, n);
    RerunStays(db, runs, m, n);
    KnownAfter(db.claims, Rerun(db, runs, m).claims, other);
    assert Processed(runs(0)) == Processed(runs(m));
    hide SameRuns;
    StillOver(db, runs, m, other);
  }

  /** The `m`-th run changes nothing. */
  ghost predicate StillRun(db: Db, runs: nat -> seq<Pass>, m: nat)
    requires WellFormed(db) && SameRuns(db.claims, runs)
  {
    Rerun(db, runs, m + 1) == Rerun(db, runs, m)
  }

  lemma StillOver(db: Db, runs: nat -> seq<Pass>, m: nat, other: seq<Pass>)
    requires WellFormed(db) && SameRuns(db.claims, runs) && StillRun(db, runs, m)
    requires KnownPasses(Rerun(db, runs, m).claims, other) && Processed(other) <= Processed(runs(m))
    ensures AfterPasses(Rerun(db, runs, m), other) == Rerun(db, runs, m)
  {
    hide AfterPasses, WellFormed, Processed;
    var still := Rerun(db, runs, m);
    KnownAfter(db.claims, still.claims, runs(m));
    StillInAnyRun(still, runs(m), other);
  }

  lemma RunUses(db: Db, runs: nat -> seq<Pass>, m: nat)
    requires WellFormed(db) && SameRuns(db.claims, runs)
    ensures StillRun(db, runs, m) || Measure(Rerun(db, runs, m + 1)) < Measure(Rerun(db, runs, m))
  {
    hide WellFormed, AfterPasses, Tokens, Grows;
    var before := Rerun(db, runs, m);
    KnownAfter(db.claims, before.claims, runs(m));
    PassesUse(before, runs(m));
    SubsetSize(Tokens(Rerun(db, runs, m + 1)), Tokens(before));
  }

  /** Some run among the first `n` changes nothing, or the measure has dropped `n` times. */
  lemma {:induction false} RerunDecreases(db: Db, runs: nat -> seq<Pass>, n: nat) returns (m: nat)
    requires WellFormed(db) && SameRuns(db.claims, runs) && n >= Measure(db)
    ensures m <= n && StillRun(db, runs, m)
  {
    hide WellFormed, SameRuns, StillRun, Measure, AfterPasses;
    m := 0;
    while !StillRun(db, runs, m)
      invariant m <= n && Measure(Rerun(db, runs, m)) + m <= Measure(db)
      decreases n - m
    {
      RunUses(db, runs, m);
      m := m + 1;
    }
  }

  lemma {:induction false} RerunStays(db: Db, runs: nat -> seq<Pass>, m: nat, n: nat)
    requires WellFormed(db) && SameRuns(db.claims, runs) && m <= n && StillRun(db, runs, m)
    ensures Rerun(db, runs, n) == Rerun(db, runs, m)
    decreases n - m
  {
    hide WellFormed, AfterPasses, StillRun;
    if m < n {
      RerunStays(db, runs, m, n - 1);
      KnownAfter(db.claims, Rerun(db, runs, m).claims, runs(n - 1));
      assert Processed(runs(n - 1)) == Processed(runs(m));
      StillOver(db, runs, m, runs(n - 1));
    }
  }
}
