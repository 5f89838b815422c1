/** What reconciling one claim means, told on the columns of the tables. */
module ReconcileMeaning {
  import opened Options
  import opened Contracts
  import opened ReconcileStore
  import opened ReconcileJob
  import opened ReconcileLaws
  import opened ReconcileRetry

  // ----- Strength -----

  /** From the weakest to the strongest authority. */
  function AuthorityPlace(authority: Option<AuthorityClass>): nat {
    match authority
    case Some(ModelDerived) => 0
    case None => 1
    case Some(SessionDerived) => 2
    case Some(UserConfirmed) => 3
    case Some(ToolVerified) => 4
    case Some(TestVerified) => 5
    case Some(Repository) => 6
  }

  /** From the weakest to the strongest verification; none is as good as unverified. */
  function StatusPlace(status: Option<VerificationStatus>): nat {
    match status
    case Some(Contradicted) => 0
    case Some(Unverified) => 1
    case None => 1
    case Some(Inferred) => 2
    case Some(UserConfirmedStatus) => 3
    case Some(Verified) => 4
  }

  /** Authority decides; verification only breaks ties. */
  predicate Weaker(a: Claim, b: Claim) {
    var x, y := AuthorityPlace(a.facts.authority), AuthorityPlace(b.facts.authority);
    x < y || (x == y && StatusPlace(a.verification) < StatusPlace(b.verification))
  }

  lemma StrengthIsPlace(a: Claim, b: Claim)
    ensures Strength(a) < Strength(b) <==> Weaker(a, b)
  {
  }

  /** The pairs of types of which the first may supersede the second. */
  const REPLACEMENTS := {
    (Fix, Bug), (Decision, Decision), (Constraint, Constraint), (Constraint, Decision), (Fact, Fact), (Task, Task) }

  /** `seen` replaces `prior`: by type, and because it is not weaker. */
  predicate Replaces(seen: Claim, prior: Claim) {
    (seen.facts.memoryType, prior.facts.memoryType) in REPLACEMENTS && !Weaker(seen, prior)
  }

  lemma ReplacesIsShouldSupersede(seen: Claim, prior: Claim)
    ensures ShouldSupersede(seen, prior) <==> Replaces(seen, prior)
  {
    StrengthIsPlace(seen, prior);
    hide Strength, Weaker;
    match (seen.facts.memoryType, prior.facts.memoryType)
    case (Fix, _) =>
    case (Decision, _) =>
    case (Constraint, _) =>
    case (Fact, _) =>
    case (Task, _) =>
    case _ =>
  }

  /** Both claims take a side, and not the same one. */
  predicate Opposed(a: ClaimFacts, b: ClaimFacts) {
    match (a.polarity, b.polarity)
    case (Some(x), Some(y)) => x != y
    case _ => false
  }

  // ----- The lookup -----

  /** The first was valid, or else created, or else numbered later. */
  predicate Newer(facts: Facts, a: ClaimId, b: ClaimId)
    requires a in facts && b in facts
  {
    || facts[a].validFrom > facts[b].validFrom
    || (facts[a].validFrom == facts[b].validFrom
        && (facts[a].createdAt > facts[b].createdAt || (facts[a].createdAt == facts[b].createdAt && a > b)))
  }

  /** Another admitted claim about the same key or the same subject. */
  predicate Comparable(facts: Facts, current: ClaimId, id: ClaimId)
    requires current in facts
  {
    && id in facts && id != current && facts[id].admitted
    && (facts[id].key == facts[current].key || facts[id].subject == facts[current].subject)
  }

  /** One claim is compared with the twelve newest of the other admitted claims about its key or
      its subject, newest first; or with all of them, if there are fewer. */
  lemma CandidatesOnColumns(facts: Facts, current: ClaimId)
    requires current in facts
    ensures var rows := Candidates(facts, current);
            && |rows| <= 12
            && (forall i | 0 <= i < |rows| :: Comparable(facts, current, rows[i]))
            && (forall i, j | 0 <= i < j < |rows| :: Newer(facts, rows[i], rows[j]))
            && (forall id | Comparable(facts, current, id) && id !in rows ::
                  |rows| == 12 && forall i | 0 <= i < |rows| :: Newer(facts, rows[i], id))
  {
    LatestAreNewest(facts, EligibleSet(facts, current), LOOKUP_LIMIT);
    hide Latest;
    var rows := Candidates(facts, current);
    forall id | Comparable(facts, current, id) && id !in rows
      ensures |rows| == 12 && forall i | 0 <= i < |rows| :: Newer(facts, rows[i], id)
    {
      assert id in EligibleSet(facts, current);
      forall i | 0 <= i < |rows|
        ensures |rows| == 12 && Newer(facts, rows[i], id)
      {
        assert rows[i] in rows;
      }
      if |rows| < 12 {
        NoneLeftOut(facts, current, id);
      }
    }
  }

  /** Below the limit nothing is left out. */
  lemma NoneLeftOut(facts: Facts, current: ClaimId, id: ClaimId)
    requires current in facts && id in EligibleSet(facts, current) && |Candidates(facts, current)| < LOOKUP_LIMIT
    ensures id in Candidates(facts, current)
  {
    hide Eligible, Newest;
    AllOfSmallPool(facts, EligibleSet(facts, current), LOOKUP_LIMIT, id);
  }

  lemma {:induction false} AllOfSmallPool(facts: Facts, pool: set<ClaimId>, limit: nat, id: ClaimId)
    requires pool <= facts.Keys && id in pool && |Latest(facts, pool, limit)| < limit
    ensures id in Latest(facts, pool, limit)
    decreases limit
  {
    var newest := Newest(facts, pool);
    if id != newest {
      AllOfSmallPool(facts, pool - {newest}, limit - 1, id);
    }
  }

  // ----- Claims and memories -----

  /** The pass sets this claim to contradicted: it is a candidate of opposite polarity and weaker,
      or the current claim, and an opposed candidate is stronger. */
  ghost predicate IsContradicted(claims: Claims, current: ClaimId, seen: Claim, rows: seq<ClaimId>, id: ClaimId)
    requires id in claims
  {
    || (id in rows && Opposed(seen.facts, claims[id].facts) && Weaker(claims[id], seen))
    || (id == current && exists p :: p in rows && IsStrongerOpponent(claims, seen, p))
  }

  predicate IsStrongerOpponent(claims: Claims, seen: Claim, p: ClaimId) {
    p in claims && Opposed(seen.facts, claims[p].facts) && Weaker(seen, claims[p])
  }

  lemma WeakenedIsContradicted(claims: Claims, current: ClaimId, seen: Claim, rows: seq<ClaimId>, id: ClaimId)
    requires id in claims
    ensures Weakened(claims, current, seen, rows, id) <==> IsContradicted(claims, current, seen, rows, id)
  {
    hide Strength, Weaker;
    StrengthIsPlace(claims[id], seen);
    forall p | p in rows && p in claims
      ensures StrongerConflict(claims, seen, rows, p) <==> IsStrongerOpponent(claims, seen, p)
    {
      StrengthIsPlace(seen, claims[p]);
    }
  }

  /** What one pass does to one claim: it may be contradicted; and it is superseded if it is a
      candidate that the current claim replaces, and was current before. Nothing else of it
      changes. */
  lemma ClaimOnColumns(db: Db, current: ClaimId, seen: Claim, now: int, id: ClaimId)
    requires WellFormed(db) && current in db.claims && id in db.claims
    ensures var rows := Candidates(FactsOf(db.claims), current);
            var before := db.claims[id];
            var replaced := id in rows && Replaces(seen, before) && before.supersededBy.None?;
            && id in AfterClaim(db, current, seen, now).claims
            && AfterClaim(db, current, seen, now).claims[id]
               == Claim(before.facts,
                        if IsContradicted(db.claims, current, seen, rows, id) then Some(Contradicted) else before.verification,
                        if replaced then Some(current) else before.supersededBy,
                        if replaced then Some(now) else before.validTo)
  {
    AfterClaimTables(db, current, seen, now);
    hide Candidates, ShouldSupersede, Replaces, AfterClaim, WellFormed, Weakened, IsContradicted, MemoriesAfter, UpsertAll, SlotsOf;
    WeakenedIsContradicted(db.claims, current, seen, Candidates(FactsOf(db.claims), current), id);
    ReplacesIsShouldSupersede(seen, db.claims[id]);
  }

  /** A memory is stamped if and only if it was not, and it is the memory of a candidate that the
      current claim replaces. */
  lemma MemoryOnColumns(db: Db, current: ClaimId, seen: Claim, now: int, id: MemoryId)
    requires WellFormed(db) && current in db.claims && id in db.memories
    ensures var rows := Candidates(FactsOf(db.claims), current);
            var replaced := exists p :: p in rows && p in db.claims && db.claims[p].facts.memoryId == id && Replaces(seen, db.claims[p]);
            && id in AfterClaim(db, current, seen, now).memories
            && AfterClaim(db, current, seen, now).memories[id]
               == if db.memories[id].None? && replaced then Some(now) else db.memories[id]
  {
    AfterClaimTables(db, current, seen, now);
    hide Candidates, ShouldSupersede, Replaces, AfterClaim, WellFormed;
    var rows := Candidates(FactsOf(db.claims), current);
    forall p | p in rows && p in db.claims
      ensures ShouldSupersede(seen, db.claims[p]) <==> Replaces(seen, db.claims[p])
    {
      ReplacesIsShouldSupersede(seen, db.claims[p]);
    }
  }

  // ----- Edges -----

  /** The edge between two claims in one of the tables. */
  function EdgeBetween(facts: Facts, layer: Layer, a: ClaimId, b: ClaimId, kind: EdgeKind): EdgeKey
    requires a in facts && b in facts
  {
    match layer
    case ClaimEdges => EdgeKey(ClaimEdges, a, b, kind)
    case MemoryEdges => EdgeKey(MemoryEdges, facts[a].memoryId, facts[b].memoryId, kind)
  }

  lemma SupersedesRows(claims: Claims, current: ClaimId, seen: Claim, rows: seq<ClaimId>, slot: Slot)
    requires Known(claims, rows)
    ensures slot in SlotsOf(claims, current, seen, rows) && slot.kind.Supersedes?
            <==> slot.kind.Supersedes? && slot.from == current && slot.to in rows && ShouldSupersede(seen, claims[slot.to])
  {
    hide ShouldSupersede, ConflictKind;
    if rows != [] {
      var n := |rows| - 1;
      SupersedesRows(claims, current, seen, rows[..n], slot);
      assert rows == rows[..n] + [rows[n]];
      SupersedesRow(current, seen, rows[n], claims[rows[n]], slot);
    }
  }

  lemma SupersedesRow(current: ClaimId, seen: Claim, prior: ClaimId, read: Claim, slot: Slot)
    ensures slot in RowSlots(current, seen, prior, read) && slot.kind.Supersedes?
            <==> slot.kind.Supersedes? && slot.from == current && slot.to == prior && ShouldSupersede(seen, read)
  {
    hide ShouldSupersede, Conflict;
    var slots := RowSlots(current, seen, prior, read);
    var kind := ConflictKind(seen.facts, read.facts);
    var pair := [Slot(MemoryEdges, current, prior, kind), Slot(ClaimEdges, current, prior, kind)];
    if ShouldSupersede(seen, read) {
      var first := [Slot(MemoryEdges, current, prior, Supersedes), Slot(ClaimEdges, current, prior, Supersedes)];
      assert slots == first + pair && first[0] in slots && first[1] in slots;
    } else {
      assert slots == pair;
    }
    match slot.layer {
      case ClaimEdges =>
      case MemoryEdges =>
    }
  }

  /** The kinds of edge that comparing with one candidate writes. */
  predicate Writes(seen: Claim, prior: Claim, kind: EdgeKind) {
    match kind
    case Supersedes => Replaces(seen, prior)
    case Contradicts => Opposed(seen.facts, prior.facts)
    case Confirms => !Opposed(seen.facts, prior.facts)
  }

  function Weight(kind: EdgeKind): real {
    match kind
    case Supersedes => 0.9
    case Contradicts => 0.86
    case Confirms => 0.62
  }

  lemma SlotsOnColumns(claims: Claims, current: ClaimId, seen: Claim, rows: seq<ClaimId>, slot: Slot)
    requires Known(claims, rows)
    ensures slot in SlotsOf(claims, current, seen, rows)
            <==> slot.from == current && slot.to in rows && Writes(seen, claims[slot.to], slot.kind)
  {
    SupersedesRows(claims, current, seen, rows, slot);
    SlotMembers(claims, current, seen, rows, slot);
    hide SlotsOf, ShouldSupersede, Replaces;
    if slot.to in rows {
      ReplacesIsShouldSupersede(seen, claims[slot.to]);
    }
  }

  /** Each candidate gets, in both tables, exactly the edges that the comparison calls for: from
      the current claim to it, of the right weight and for the current claim's key. */
  lemma EdgesWritten(db: Db, current: ClaimId, seen: Claim, now: int, p: ClaimId, layer: Layer, kind: EdgeKind)
    requires WellFormed(db) && current in db.claims && p in Candidates(FactsOf(db.claims), current)
    requires p in db.claims && Writes(seen, db.claims[p], kind)
    ensures var facts := FactsOf(db.claims);
            var key := EdgeBetween(facts, layer, current, p, kind);
            var edges := AfterClaim(db, current, seen, now).edges;
            && key in edges && edges[key].weight == Weight(kind) && edges[key].key == facts[current].key
            && (kind.Contradicts? ==> edges[key].polarities == [facts[current].polarity, facts[p].polarity])
  {
    AfterClaimTables(db, current, seen, now);
    hide Candidates, AfterClaim, WellFormed, SlotsOf, UpsertAll, Writes;
    var facts := FactsOf(db.claims);
    var rows := Candidates(facts, current);
    var slot := Slot(layer, current, p, kind);
    SlotsOnColumns(db.claims, current, seen, rows, slot);
    UpsertAllEffect(facts, db.edges, SlotsOf(db.claims, current, seen, rows));
    assert Settled(facts, AfterClaim(db, current, seen, now).edges, slot);
    match layer {
      case ClaimEdges =>
      case MemoryEdges =>
    }
  }

  /** No other edge is written, changed or removed. */
  lemma OtherEdgesStay(db: Db, current: ClaimId, seen: Claim, now: int, key: EdgeKey)
    requires WellFormed(db) && current in db.claims
    requires forall p, layer, kind | p in Candidates(FactsOf(db.claims), current) && p in db.claims && Writes(seen, db.claims[p], kind) ::
               key != EdgeBetween(FactsOf(db.claims), layer, current, p, kind)
    ensures var edges := AfterClaim(db, current, seen, now).edges;
            (key in edges <==> key in db.edges) && (key in db.edges ==> edges[key] == db.edges[key])
  {
    AfterClaimTables(db, current, seen, now);
    hide Candidates, AfterClaim, WellFormed, SlotsOf, UpsertAll, Writes;
    var facts := FactsOf(db.claims);
    var rows := Candidates(facts, current);
    var slots := SlotsOf(db.claims, current, seen, rows);
    forall slot | slot in slots && Of(facts, slot)
      ensures KeyOf(facts, slot) != key
    {
      SlotsOnColumns(db.claims, current, seen, rows, slot);
      KeyIsEdge(facts, slot);
    }
    hide KeyOf;
    UpsertAllUntouched(facts, db.edges, slots, key);
  }

  lemma KeyIsEdge(facts: Facts, slot: Slot)
    requires Of(facts, slot)
    ensures KeyOf(facts, slot) == EdgeBetween(facts, slot.layer, slot.from, slot.to, slot.kind)
  {
  }

  // ----- The counters -----

  /** How many of the candidates the current claim replaces, and to how many it is opposed. */
  function CountReplaced(claims: Claims, seen: Claim, rows: seq<ClaimId>): nat
    requires Known(claims, rows)
  {
    if rows == [] then 0
    else
      var prior := rows[|rows| - 1];
      CountReplaced(claims, seen, rows[..|rows| - 1]) + if Replaces(seen, claims[prior]) then 1 else 0
  }

  function CountOpposed(claims: Claims, seen: Claim, rows: seq<ClaimId>): (k: nat)
    requires Known(claims, rows)
    ensures k <= |rows|
  {
    if rows == [] then 0
    else
      var prior := rows[|rows| - 1];
      CountOpposed(claims, seen, rows[..|rows| - 1]) + if Opposed(seen.facts, claims[prior].facts) then 1 else 0
  }

  /** The reported numbers: one claim, the candidates it replaces, those it is opposed to, and all
      others. */
  lemma {:induction false} OutcomeOnColumns(claims: Claims, current: ClaimId, seen: Claim, rows: seq<ClaimId>)
    requires Known(claims, rows)
    ensures OutcomeOf(SlotsOf(claims, current, seen, rows))
            == Outcome(1, CountReplaced(claims, seen, rows), CountOpposed(claims, seen, rows),
                       |rows| - CountOpposed(claims, seen, rows))
    decreases |rows|
  {
    hide ShouldSupersede, Replaces;
    if rows != [] {
      var n := |rows| - 1;
      OutcomeOnColumns(claims, current, seen, rows[..n]);
      assert rows == rows[..n] + [rows[n]];
      OutcomeOneRowFurther(claims, current, seen, rows[..n], rows[n]);
      ReplacesIsShouldSupersede(seen, claims[rows[n]]);
    }
  }
}
