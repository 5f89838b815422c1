/** Crashes and retries of the reconciliation job: the contradicts and confirms edges are the
    ones of a single uninterrupted run. */
module ReconcileRetry {
  import opened Options
  import opened Contracts
  import opened ReconcileStore
  import opened ReconcileJob
  import opened ReconcileLaws

  /** A contradicts or confirms edge that reconciling the claims of `ids` writes. */
  ghost predicate ConflictSlot(facts: Facts, ids: set<ClaimId>, slot: Slot) {
    && slot.from in ids && slot.from in facts && slot.to in Candidates(facts, slot.from) && slot.to in facts
    && slot.kind == ConflictKind(facts[slot.from], facts[slot.to])
  }

  ghost predicate ConflictKey(facts: Facts, ids: set<ClaimId>, key: EdgeKey) {
    exists slot :: ConflictSlot(facts, ids, slot) && KeyOf(facts, slot) == key
  }

  /** `after` is `before` with exactly the conflict edges of `ids` written over it. */
  ghost predicate Overlay(facts: Facts, before: Edges, ids: set<ClaimId>, after: Edges) {
    && (forall slot | ConflictSlot(facts, ids, slot) :: Settled(facts, after, slot))
    && (forall key: EdgeKey | !key.kind.Supersedes? && !ConflictKey(facts, ids, key) ::
          (key in after <==> key in before) && (key in before ==> after[key] == before[key]))
  }

  function ConflictEdges(edges: Edges): Edges {
    map key | key in edges && !key.kind.Supersedes? :: edges[key]
  }

  lemma OverlayUnion(facts: Facts, a: Edges, first: set<ClaimId>, b: Edges, second: set<ClaimId>, c: Edges)
    requires UniqueMemories(facts) && Overlay(facts, a, first, b) && Overlay(facts, b, second, c)
    ensures Overlay(facts, a, first + second, c)
  {
    forall slot | ConflictSlot(facts, first + second, slot)
      ensures Settled(facts, c, slot)
    {
      var key := KeyOf(facts, slot);
      if ConflictSlot(facts, second, slot) {
      } else {
        assert ConflictSlot(facts, first, slot);
        if other :| ConflictSlot(facts, second, other) && KeyOf(facts, other) == key {
          KeyInjective(facts, other, slot);
        }
        assert !key.kind.Supersedes? && !ConflictKey(facts, second, key);
      }
    }
    forall key: EdgeKey | !key.kind.Supersedes? && !ConflictKey(facts, first + second, key)
      ensures (key in c <==> key in a) && (key in a ==> c[key] == a[key])
    {
      if slot :| ConflictSlot(facts, first, slot) && KeyOf(facts, slot) == key {
        assert ConflictSlot(facts, first + second, slot);
      }
      if slot :| ConflictSlot(facts, second, slot) && KeyOf(facts, slot) == key {
        assert ConflictSlot(facts, first + second, slot);
      }
      assert !ConflictKey(facts, first, key) && !ConflictKey(facts, second, key);
    }
  }

  /** An overlay determines every conflict edge. */
  lemma OverlayDetermines(facts: Facts, before: Edges, ids: set<ClaimId>, a: Edges, b: Edges)
    requires Overlay(facts, before, ids, a) && Overlay(facts, before, ids, b)
    ensures ConflictEdges(a) == ConflictEdges(b)
  {
    forall key: EdgeKey | !key.kind.Supersedes?
      ensures (key in a <==> key in b) && (key in a ==> a[key] == b[key])
    {
      if slot :| ConflictSlot(facts, ids, slot) && KeyOf(facts, slot) == key {
        assert Settled(facts, a, slot) && Settled(facts, b, slot);
      } else {
        assert !ConflictKey(facts, ids, key);
      }
    }
  }

  // ----- One claim, a chunk, a job -----

  lemma {:induction false} SlotMembers(claims: Claims, current: ClaimId, seen: Claim, rows: seq<ClaimId>, slot: Slot)
    requires Known(claims, rows)
    ensures slot in SlotsOf(claims, current, seen, rows) && !slot.kind.Supersedes? <==>
            && slot.from == current && slot.to in rows
            && slot.kind == ConflictKind(seen.facts, claims[slot.to].facts)
  {
    if rows != [] {
      var n := |rows| - 1;
      SlotMembers(claims, current, seen, rows[..n], slot);
      assert rows == rows[..n] + [rows[n]];
      RowSlotMembers(current, seen, rows[n], claims[rows[n]], slot);
    }
  }

  lemma RowSlotMembers(current: ClaimId, seen: Claim, prior: ClaimId, read: Claim, slot: Slot)
    ensures slot in RowSlots(current, seen, prior, read) && !slot.kind.Supersedes? <==>
            slot.from == current && slot.to == prior && slot.kind == ConflictKind(seen.facts, read.facts)
  {
    hide Conflict, ShouldSupersede;
    var kind := ConflictKind(seen.facts, read.facts);
    var memoryEdge, claimEdge := Slot(MemoryEdges, current, prior, kind), Slot(ClaimEdges, current, prior, kind);
    var slots := RowSlots(current, seen, prior, read);
    if ShouldSupersede(seen, read) {
      assert slots == [Slot(MemoryEdges, current, prior, Supersedes), Slot(ClaimEdges, current, prior, Supersedes),
                       memoryEdge, claimEdge];
    } else {
      assert slots == [memoryEdge, claimEdge];
      assert slots[0] == memoryEdge && slots[1] == claimEdge;
    }
    match slot.layer {
      case ClaimEdges =>
      case MemoryEdges =>
    }
  }

  lemma ConflictSlotsOfClaim(db: Db, current: ClaimId, seen: Claim, slot: Slot)
    requires WellFormed(db) && current in db.claims && seen.facts == db.claims[current].facts
    requires Known(db.claims, Candidates(FactsOf(db.claims), current))
    ensures ConflictSlot(FactsOf(db.claims), {current}, slot) <==>
            slot in SlotsOf(db.claims, current, seen, Candidates(FactsOf(db.claims), current)) && !slot.kind.Supersedes?
  {
    hide Candidates, SlotsOf, WellFormed;
    SlotMembers(db.claims, current, seen, Candidates(FactsOf(db.claims), current), slot);
  }

  lemma OverlayOfUpserts(facts: Facts, edges: Edges, ids: set<ClaimId>, slots: seq<Slot>)
    requires UniqueMemories(facts) && InFacts(facts, slots)
    requires forall slot :: ConflictSlot(facts, ids, slot) <==> slot in slots && !slot.kind.Supersedes?
    ensures Overlay(facts, edges, ids, UpsertAll(facts, edges, slots))
  {
    hide ConflictSlot, UniqueMemories, UpsertAll, Settled;
    UpsertAllEffect(facts, edges, slots);
    forall key: EdgeKey | !key.kind.Supersedes? && Touched(facts, slots, key)
      ensures ConflictKey(facts, ids, key)
    {
      var slot :| slot in slots && Of(facts, slot) && KeyOf(facts, slot) == key;
      assert ConflictSlot(facts, ids, slot);
    }
  }

  lemma ClaimOverlay(db: Db, current: ClaimId, seen: Claim, now: int)
    requires WellFormed(db) && current in db.claims && seen.facts == db.claims[current].facts
    ensures Overlay(FactsOf(db.claims), db.edges, {current}, AfterClaim(db, current, seen, now).edges)
  {
    var facts := FactsOf(db.claims);
    assert current in facts;
    AfterClaimTables(db, current, seen, now);
    hide *;
    var slots := SlotsOf(db.claims, current, seen, Candidates(facts, current));
    forall slot
      ensures ConflictSlot(facts, {current}, slot) <==> slot in slots && !slot.kind.Supersedes?
    {
      ConflictSlotsOfClaim(db, current, seen, slot);
    }
    OverlayOfUpserts(facts, db.edges, {current}, slots);
  }

  lemma {:induction false} ListOverlay(db: Db, read: Claims, order: seq<ClaimId>, now: int)
    requires WellFormed(db) && Known(db.claims, order) && Known(read, order) && FactsOf(read) == FactsOf(db.claims)
    ensures Overlay(FactsOf(db.claims), db.edges, Ids(order), AfterList(db, read, order, now).edges)
  {
    hide AfterClaim, WellFormed, Overlay, FactsOf;
    var facts := FactsOf(db.claims);
    if order == [] {
      OverlayNone(facts, db.edges);
      assert Ids([]) == {};
    } else {
      var n := |order| - 1;
      var before := AfterList(db, read, order[..n], now);
      var after := AfterList(db, read, order, now);
      ListOverlay(db, read, order[..n], now);
      SameFacts(read, before.claims, order[n]);
      ClaimOverlay(before, order[n], read[order[n]], now);
      FactsUnique(db);
      OverlayUnion(facts, db.edges, Ids(order[..n]), before.edges, {order[n]}, after.edges);
      assert order == order[..n] + [order[n]];
      assert Ids(order) == Ids(order[..n]) + {order[n]};
    }
  }

  lemma OverlayNone(facts: Facts, edges: Edges)
    ensures Overlay(facts, edges, {}, edges)
  {
  }

  lemma {:induction false} PassesOverlay(db: Db, passes: seq<Pass>)
    requires WellFormed(db) && KnownPasses(db.claims, passes)
    ensures Overlay(FactsOf(db.claims), db.edges, Processed(passes), AfterPasses(db, passes).edges)
  {
    hide AfterList, WellFormed, Overlay, FactsOf;
    var facts := FactsOf(db.claims);
    if passes == [] {
      OverlayNone(facts, db.edges);
    } else {
      var n := |passes| - 1;
      var before := AfterPasses(db, passes[..n]);
      PassesOverlay(db, passes[..n]);
      ListOverlay(before, before.claims, passes[n].order, passes[n].now);
      FactsUnique(db);
      OverlayUnion(facts, db.edges, Processed(passes[..n]), before.edges, Ids(passes[n].order),
                   AfterPasses(db, passes).edges);
    }
  }

  /** The conflict edges depend on nothing but which claims were reconciled: not on the chunks,
      their order, the rows' order, the clock, repetitions, or chunks of other jobs between. */
  lemma SameClaimsSameConflicts(db: Db, p: seq<Pass>, q: seq<Pass>)
    requires WellFormed(db) && KnownPasses(db.claims, p) && KnownPasses(db.claims, q)
    requires Processed(p) == Processed(q)
    ensures ConflictEdges(AfterPasses(db, p).edges) == ConflictEdges(AfterPasses(db, q).edges)
  {
    hide *;
    PassesOverlay(db, p);
    PassesOverlay(db, q);
    OverlayDetermines(FactsOf(db.claims), db.edges, Processed(p), AfterPasses(db, p).edges, AfterPasses(db, q).edges);
  }

  // ----- The chunks of a job -----

  const CHUNK_SIZE := 50

  function Chunk(ids: seq<ClaimId>, j: nat): seq<ClaimId>
    requires j * CHUNK_SIZE < |ids|
  {
    var end := (j + 1) * CHUNK_SIZE;
    ids[j * CHUNK_SIZE..if end < |ids| then end else |ids|]
  }

  /** The rows the database returns for a chunk: its known claims, once each, in some order. */
  ghost predicate Enumerates(claims: Claims, chunk: seq<ClaimId>, order: seq<ClaimId>) {
    && (forall i, j | 0 <= i < j < |order| :: order[i] != order[j])
    && (forall id :: id in order <==> id in chunk && id in claims)
  }

  /** The committed chunks of an attempt at the job: a prefix of its chunks. */
  ghost predicate Attempt(claims: Claims, ids: seq<ClaimId>, passes: seq<Pass>) {
    forall j | 0 <= j < |passes| ::
      j * CHUNK_SIZE < |ids| && Enumerates(claims, Chunk(ids, j), passes[j].order)
  }

  /** The attempt got through all chunks. */
  ghost predicate FullAttempt(claims: Claims, ids: seq<ClaimId>, passes: seq<Pass>) {
    Attempt(claims, ids, passes) && |passes| * CHUNK_SIZE >= |ids|
  }

  predicate Within(ids: seq<ClaimId>, id: ClaimId, n: nat) {
    exists i :: 0 <= i < |ids| && i < n && ids[i] == id
  }

  lemma {:induction false} AttemptProcesses(claims: Claims, ids: seq<ClaimId>, passes: seq<Pass>)
    requires Attempt(claims, ids, passes)
    ensures KnownPasses(claims, passes)
    ensures forall id :: id in Processed(passes) <==> id in claims && Within(ids, id, |passes| * CHUNK_SIZE)
  {
    if passes != [] {
      var n := |passes| - 1;
      AttemptProcesses(claims, ids, passes[..n]);
      var order, chunk := passes[n].order, Chunk(ids, n);
      assert Enumerates(claims, chunk, order);
      forall id
        ensures Within(ids, id, |passes| * CHUNK_SIZE) <==> Within(ids, id, n * CHUNK_SIZE) || id in chunk
      {
        if id in chunk {
          var k :| 0 <= k < |chunk| && chunk[k] == id;
          assert ids[n * CHUNK_SIZE + k] == id;
        }
        if i :| 0 <= i < |ids| && i < |passes| * CHUNK_SIZE && ids[i] == id && i >= n * CHUNK_SIZE {
          assert chunk[i - n * CHUNK_SIZE] == id;
        }
      }
      forall p | p in passes
        ensures Known(claims, p.order)
      {
        if p == passes[n] {
        } else {
          assert p in passes[..n];
        }
      }
    }
  }

  /** Any number of attempts that crashed after some of their chunks. */
  function Flatten(attempts: seq<seq<Pass>>): seq<Pass> {
    if attempts == [] then [] else Flatten(attempts[..|attempts| - 1]) + attempts[|attempts| - 1]
  }

  lemma {:induction false} ProcessedAppend(a: seq<Pass>, b: seq<Pass>)
    ensures Processed(a + b) == Processed(a) + Processed(b)
  {
    if b == [] {
      assert a + b == a;
    } else {
      assert (a + b)[..|a + b| - 1] == a + b[..|b| - 1];
      ProcessedAppend(a, b[..|b| - 1]);
    }
  }

  lemma {:induction false} FlattenProcesses(claims: Claims, ids: seq<ClaimId>, attempts: seq<seq<Pass>>)
    requires forall a | a in attempts :: Attempt(claims, ids, a)
    ensures KnownPasses(claims, Flatten(attempts))
    ensures forall id | id in Processed(Flatten(attempts)) :: id in ids && id in claims
  {
    if attempts != [] {
      var n := |attempts| - 1;
      FlattenProcesses(claims, ids, attempts[..n]);
      AttemptProcesses(claims, ids, attempts[n]);
      ProcessedAppend(Flatten(attempts[..n]), attempts[n]);
    }
  }

  /** Retry safety: after any number of attempts that crashed after any prefix of their chunks,
      and then one full attempt, the contradicts and confirms edges are exactly those of one
      uninterrupted attempt from the same start. */
  lemma RetrySafe(db: Db, ids: seq<ClaimId>, crashed: seq<seq<Pass>>, retry: seq<Pass>, uninterrupted: seq<Pass>)
    requires WellFormed(db) && forall a | a in crashed :: Attempt(db.claims, ids, a)
    requires FullAttempt(db.claims, ids, retry) && FullAttempt(db.claims, ids, uninterrupted)
    ensures KnownPasses(db.claims, Flatten(crashed) + retry) && KnownPasses(db.claims, uninterrupted)
    ensures ConflictEdges(AfterPasses(db, Flatten(crashed) + retry).edges)
         == ConflictEdges(AfterPasses(db, uninterrupted).edges)
  {
    hide AfterPasses, WellFormed, Overlay, FactsOf, ConflictEdges, Known, FullAttempt, Attempt;
    var passes := Flatten(crashed) + retry;
    assert Attempt(db.claims, ids, retry) && Attempt(db.claims, ids, uninterrupted)
           && |retry| * CHUNK_SIZE >= |ids| && |uninterrupted| * CHUNK_SIZE >= |ids| by {
      FullIsAttempt(db.claims, ids, retry);
      FullIsAttempt(db.claims, ids, uninterrupted);
    }
    FlattenProcesses(db.claims, ids, crashed);
    AttemptProcesses(db.claims, ids, retry);
    AttemptProcesses(db.claims, ids, uninterrupted);
    ProcessedAppend(Flatten(crashed), retry);
    forall id
      ensures id in Processed(passes) <==> id in ids && id in db.claims
      ensures id in Processed(uninterrupted) <==> id in ids && id in db.claims
    {
      if id in ids {
        var i :| 0 <= i < |ids| && ids[i] == id;
        assert i < |retry| * CHUNK_SIZE && i < |uninterrupted| * CHUNK_SIZE;
      }
    }
    assert Processed(passes) == Processed(uninterrupted);
    SameClaimsSameConflicts(db, passes, uninterrupted);
  }

  lemma FullIsAttempt(claims: Claims, ids: seq<ClaimId>, passes: seq<Pass>)
    requires FullAttempt(claims, ids, passes)
    ensures Attempt(claims, ids, passes) && |passes| * CHUNK_SIZE >= |ids|
  {
  }

  // ----- Never both kinds -----

  /** Every conflict edge between known claims has the kind their polarities call for. */
  ghost predicate RightKinds(facts: Facts, edges: Edges) {
    forall slot | Of(facts, slot) && !slot.kind.Supersedes? && KeyOf(facts, slot) in edges ::
      slot.kind == ConflictKind(facts[slot.from], facts[slot.to])
  }

  lemma OverlayKeepsRightKinds(facts: Facts, before: Edges, ids: set<ClaimId>, after: Edges)
    requires UniqueMemories(facts) && RightKinds(facts, before) && Overlay(facts, before, ids, after)
    ensures RightKinds(facts, after)
  {
    hide Candidates;
    forall slot | Of(facts, slot) && !slot.kind.Supersedes? && KeyOf(facts, slot) in after
      ensures slot.kind == ConflictKind(facts[slot.from], facts[slot.to])
    {
      var key := KeyOf(facts, slot);
      if other :| ConflictSlot(facts, ids, other) && KeyOf(facts, other) == key {
        KeyInjective(facts, other, slot);
      } else {
        assert !ConflictKey(facts, ids, key);
      }
    }
  }

  lemma RightKindsNotBoth(facts: Facts, edges: Edges, a: ClaimId, b: ClaimId)
    requires RightKinds(facts, edges) && a in facts && b in facts
    ensures !(EdgeKey(ClaimEdges, a, b, Contradicts) in edges && EdgeKey(ClaimEdges, a, b, Confirms) in edges)
  {
    assert KeyOf(facts, Slot(ClaimEdges, a, b, Contradicts)) == EdgeKey(ClaimEdges, a, b, Contradicts);
    assert KeyOf(facts, Slot(ClaimEdges, a, b, Confirms)) == EdgeKey(ClaimEdges, a, b, Confirms);
  }

  /** No run writes both a contradicts and a confirms edge for one ordered pair. */
  lemma NeverBothKinds(db: Db, passes: seq<Pass>, a: ClaimId, b: ClaimId)
    requires WellFormed(db) && KnownPasses(db.claims, passes) && RightKinds(FactsOf(db.claims), db.edges)
    requires a in db.claims && b in db.claims
    ensures var edges := AfterPasses(db, passes).edges;
            && RightKinds(FactsOf(db.claims), edges)
            && !(EdgeKey(ClaimEdges, a, b, Contradicts) in edges && EdgeKey(ClaimEdges, a, b, Confirms) in edges)
  {
    hide AfterPasses, WellFormed, Overlay, RightKinds;
    var facts := FactsOf(db.claims);
    PassesOverlay(db, passes);
    FactsUnique(db);
    OverlayKeepsRightKinds(facts, db.edges, Processed(passes), AfterPasses(db, passes).edges);
    RightKindsNotBoth(facts, AfterPasses(db, passes).edges, a, b);
  }

  // ----- The reported counts -----

  lemma {:induction false} SlotCounts(claims: Claims, current: ClaimId, seen: Claim, rows: seq<ClaimId>)
    requires Known(claims, rows)
    ensures var o := OutcomeOf(SlotsOf(claims, current, seen, rows));
            o.contradicts + o.confirms == |rows| && o.supersedes <= |rows| && o.claims == 1
  {
    if rows != [] {
      var n := |rows| - 1;
      SlotCounts(claims, current, seen, rows[..n]);
      assert rows == rows[..n] + [rows[n]];
      OutcomeOneRowFurther(claims, current, seen, rows[..n], rows[n]);
    }
  }

  ghost function Examined(facts: Facts, order: seq<ClaimId>): nat
    requires forall id | id in order :: id in facts
  {
    if order == [] then 0
    else Examined(facts, order[..|order| - 1]) + |Candidates(facts, order[|order| - 1])|
  }

  /** The reported contradicts and confirms add up to the candidates examined, at most twelve
      for every claim processed. */
  lemma {:induction false} CountsMatchCandidates(db: Db, read: Claims, order: seq<ClaimId>, now: int)
    requires WellFormed(db) && Known(db.claims, order) && Known(read, order)
    ensures var o := ListOutcome(db, read, order, now);
            && o.claims == |order|
            && o.contradicts + o.confirms == Examined(FactsOf(db.claims), order) <= LOOKUP_LIMIT * o.claims
            && o.supersedes <= o.contradicts + o.confirms
  {
    hide WellFormed, AfterClaim;
    if order != [] {
      var n := |order| - 1;
      CountsMatchCandidates(db, read, order[..n], now);
      var before := AfterList(db, read, order[..n], now);
      var facts := FactsOf(before.claims);
      var rows := Candidates(facts, order[n]);
      assert Known(before.claims, rows) by {
        assert forall i | 0 <= i < |rows| :: Eligible(facts, order[n], rows[i]);
      }
      SlotCounts(before.claims, order[n], read[order[n]], rows);
    }
  }
}
