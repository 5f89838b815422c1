/** Claim reconciliation: the policy, the tables it reads and writes, the loops that apply it,
    and a closed form of what one call of the inner loop does. */
module ReconcileStore {
  import opened Sets
  import opened Options
  import opened Contracts

  type ClaimId = int
  type MemoryId = int

  // ----- Policy -----

  function VerificationRank(status: Option<VerificationStatus>): int {
    match status
    case Some(Verified) => 4
    case Some(UserConfirmedStatus) => 3
    case Some(Inferred) => 2
    case Some(Unverified) => 1
    case Some(Contradicted) => 0
    case None => 1
  }

  function ClaimStrength(authority: Option<AuthorityClass>, status: Option<VerificationStatus>): int {
    (match authority
     case Some(Repository) => 50
     case Some(TestVerified) => 45
     case Some(ToolVerified) => 40
     case Some(UserConfirmed) => 35
     case Some(SessionDerived) => 20
     case Some(ModelDerived) => 0
     case None => 10) + VerificationRank(status)
  }

  predicate SupersedingTypes(current: MemoryType, prior: MemoryType) {
    match (current, prior)
    case (Fix, Bug) => true
    case (Decision, Decision) => true
    case (Constraint, Constraint) => true
    case (Constraint, Decision) => true
    case (Fact, Fact) => true
    case (Task, Task) => true
    case _ => false
  }

  // ----- Tables -----

  /** The columns of a claim that reconciliation never writes. */
  datatype ClaimFacts = ClaimFacts(
    memoryId: MemoryId, memoryType: MemoryType, key: string, subject: string, polarity: Option<string>,
    authority: Option<AuthorityClass>, admitted: bool, validFrom: int, createdAt: int)

  datatype Claim = Claim(
    facts: ClaimFacts, verification: Option<VerificationStatus>, supersededBy: Option<ClaimId>, validTo: Option<int>)

  datatype Layer = ClaimEdges | MemoryEdges

  datatype EdgeKind = Supersedes | Contradicts | Confirms

  datatype EdgeKey = EdgeKey(layer: Layer, from: int, to: int, kind: EdgeKind)

  datatype EdgeData = EdgeData(weight: real, key: string, reason: string, polarities: seq<Option<string>>)

  /** `memories` holds `superseded_at`; `edges` holds both edge tables. */
  datatype Db = Db(
    claims: map<ClaimId, Claim>, memories: map<MemoryId, Option<int>>, edges: Edges)

  type Facts = map<ClaimId, ClaimFacts>

  function FactsOf(claims: map<ClaimId, Claim>): Facts {
    map id | id in claims :: claims[id].facts
  }

  /** Foreign keys and the unique index on `memory_id`. */
  ghost predicate WellFormed(db: Db) {
    && (forall id | id in db.claims :: db.claims[id].facts.memoryId in db.memories)
    && (forall a, b | a in db.claims && b in db.claims && a != b ::
          db.claims[a].facts.memoryId != db.claims[b].facts.memoryId)
    && (forall id | id in db.claims && db.claims[id].supersededBy.Some? :: db.claims[id].supersededBy.value in db.claims)
  }

  // ----- The candidate lookup -----

  /** `order by valid_from desc, created_at desc, id desc`. */
  predicate Before(facts: Facts, a: ClaimId, b: ClaimId)
    requires a in facts && b in facts
  {
    if facts[a].validFrom != facts[b].validFrom then facts[a].validFrom > facts[b].validFrom
    else if facts[a].createdAt != facts[b].createdAt then facts[a].createdAt > facts[b].createdAt
    else a > b
  }

  ghost predicate Eligible(facts: Facts, current: ClaimId, id: ClaimId)
    requires current in facts
  {
    && id in facts && id != current && facts[id].admitted
    && (facts[id].key == facts[current].key || facts[id].subject == facts[current].subject)
  }

  ghost function EligibleSet(facts: Facts, current: ClaimId): set<ClaimId>
    requires current in facts
  {
    set id | id in facts && Eligible(facts, current, id)
  }

  ghost function Newest(facts: Facts, pool: set<ClaimId>): (newest: ClaimId)
    requires pool != {} && pool <= facts.Keys
    ensures newest in pool
    ensures forall id | id in pool && id != newest :: Before(facts, newest, id)
  {
    HasMember(pool);
    var some :| some in pool;
    if pool == {some} then some
    else
      assert forall id | id in pool && id != some :: id in pool - {some};
      var other := Newest(facts, pool - {some});
      if Before(facts, some, other) then some else other
  }

  ghost function Latest(facts: Facts, pool: set<ClaimId>, limit: nat): (rows: seq<ClaimId>)
    requires pool <= facts.Keys
    ensures |rows| == (if |pool| < limit then |pool| else limit)
    ensures forall i | 0 <= i < |rows| :: rows[i] in pool
    ensures forall i, j | 0 <= i < j < |rows| :: rows[i] != rows[j]
  {
    if limit == 0 || pool == {} then []
    else
      var newest := Newest(facts, pool);
      [newest] + Latest(facts, pool - {newest}, limit - 1)
  }

  const LOOKUP_LIMIT := 12

  /** The prior claims one claim is compared with, newest first. */
  ghost function Candidates(facts: Facts, current: ClaimId): (rows: seq<ClaimId>)
    requires current in facts
    ensures |rows| <= LOOKUP_LIMIT
    ensures forall i | 0 <= i < |rows| :: Eligible(facts, current, rows[i])
    ensures forall i, j | 0 <= i < j < |rows| :: rows[i] != rows[j]
  {
    Latest(facts, EligibleSet(facts, current), LOOKUP_LIMIT)
  }

  /** The lookup returns the newest eligible claims: none that was left out comes before one
      that was returned, and none is left out below the limit. */
  lemma {:induction false} LatestAreNewest(facts: Facts, pool: set<ClaimId>, limit: nat)
    requires pool <= facts.Keys
    ensures forall id | id in Latest(facts, pool, limit) :: id in pool
    ensures forall i, j | 0 <= i < j < |Latest(facts, pool, limit)| ::
              Before(facts, Latest(facts, pool, limit)[i], Latest(facts, pool, limit)[j])
    ensures forall p, id | p in Latest(facts, pool, limit) && id in pool && id !in Latest(facts, pool, limit) ::
              Before(facts, p, id) && |Latest(facts, pool, limit)| == limit
  {
    hide Before;
    if limit > 0 && pool != {} {
      var newest := Newest(facts, pool);
      LatestAreNewest(facts, pool - {newest}, limit - 1);
    }
  }

  // ----- Single-row updates -----

  type Claims = map<ClaimId, Claim>
  type Memories = map<MemoryId, Option<int>>
  type Edges = map<EdgeKey, EdgeData>

  function MarkMemorySuperseded(memories: Memories, id: MemoryId, now: int): Memories {
    if id in memories && memories[id].None? then memories[id := Some(now)] else memories
  }

  function MarkClaimSuperseded(claims: Claims, id: ClaimId, winner: ClaimId, now: int): Claims {
    if id in claims && claims[id].supersededBy.None? then
      claims[id := claims[id].(supersededBy := Some(winner), validTo := Some(now))]
    else claims
  }

  lemma MarkKeepsFacts(claims: Claims, id: ClaimId, winner: ClaimId, now: int)
    ensures var after := MarkClaimSuperseded(claims, id, winner, now);
            after.Keys == claims.Keys && FactsOf(after) == FactsOf(claims)
  {
  }

  function MarkContradicted(claims: Claims, id: ClaimId): Claims {
    if id in claims then claims[id := claims[id].(verification := Some(Contradicted))] else claims
  }

  /** A guarded update of a claim: who wins over `id`, and when. */
  datatype Mark = Mark(id: ClaimId, winner: ClaimId, now: int)

  function MarkAll(claims: Claims, marks: seq<Mark>): Claims {
    if marks == [] then claims
    else
      var last := marks[|marks| - 1];
      MarkClaimSuperseded(MarkAll(claims, marks[..|marks| - 1]), last.id, last.winner, last.now)
  }

  /** Of any number of guarded updates of a claim the first one wins, and only if the claim was
      current before; its winner and time are never rewritten, and nothing else is touched. */
  lemma {:induction false} FirstMarkWins(claims: Claims, marks: seq<Mark>, id: ClaimId, k: nat)
    requires id in claims && k <= |marks| && forall j | 0 <= j < k :: marks[j].id != id
    requires k == |marks| || marks[k].id == id
    ensures var after := MarkAll(claims, marks);
            && after.Keys == claims.Keys
            && after[id] == if claims[id].supersededBy.Some? || k == |marks| then claims[id]
                            else claims[id].(supersededBy := Some(marks[k].winner), validTo := Some(marks[k].now))
    decreases |marks|
  {
    if marks != [] {
      var n := |marks| - 1;
      assert forall j | 0 <= j < n :: marks[..n][j] == marks[j];
      FirstMarkWins(claims, marks[..n], id, if k > n then n else k);
    }
  }

  function MarkAllMemories(memories: Memories, marks: seq<(MemoryId, int)>): Memories {
    if marks == [] then memories
    else
      var last := marks[|marks| - 1];
      MarkMemorySuperseded(MarkAllMemories(memories, marks[..|marks| - 1]), last.0, last.1)
  }

  /** The same of a memory's time of supersession. */
  lemma {:induction false} FirstMemoryMarkWins(memories: Memories, marks: seq<(MemoryId, int)>, id: MemoryId, k: nat)
    requires id in memories && k <= |marks| && forall j | 0 <= j < k :: marks[j].0 != id
    requires k == |marks| || marks[k].0 == id
    ensures var after := MarkAllMemories(memories, marks);
            && after.Keys == memories.Keys
            && after[id] == if memories[id].Some? || k == |marks| then memories[id] else Some(marks[k].1)
    decreases |marks|
  {
    if marks != [] {
      var n := |marks| - 1;
      assert forall j | 0 <= j < n :: marks[..n][j] == marks[j];
      FirstMemoryMarkWins(memories, marks[..n], id, if k > n then n else k);
    }
  }

  /** Setting a claim to contradicted never strengthens it, and puts it below every claim of the
      same authority that is not contradicted; it does not interfere with supersession. */
  lemma ContradictingWeakens(claims: Claims, id: ClaimId, other: Claim, winner: ClaimId, now: int)
    requires id in claims
    ensures var after := MarkContradicted(claims, id);
            && Strength(after[id]) <= Strength(claims[id])
            && (other.facts.authority == claims[id].facts.authority && other.verification != Some(Contradicted) ==>
                  Strength(after[id]) < Strength(other))
            && MarkContradicted(MarkClaimSuperseded(claims, id, winner, now), id)
               == MarkClaimSuperseded(after, id, winner, now)
  {
    var claim := claims[id];
    assert VerificationRank(Some(Contradicted)) <= VerificationRank(claim.verification);
    var a := MarkContradicted(MarkClaimSuperseded(claims, id, winner, now), id);
    var b := MarkClaimSuperseded(MarkContradicted(claims, id), id, winner, now);
    assert a.Keys == b.Keys && a[id] == b[id];
  }

  // ----- One comparison -----

  predicate ShouldSupersede(current: Claim, prior: Claim) {
    && SupersedingTypes(current.facts.memoryType, prior.facts.memoryType)
    && Strength(current) >= Strength(prior)
  }

  function Strength(claim: Claim): int {
    ClaimStrength(claim.facts.authority, claim.verification)
  }

  predicate Conflict(current: ClaimFacts, prior: ClaimFacts) {
    current.polarity.Some? && prior.polarity.Some? && current.polarity != prior.polarity
  }

  function ConflictKind(current: ClaimFacts, prior: ClaimFacts): EdgeKind {
    if Conflict(current, prior) then Contradicts else Confirms
  }

  /** An edge upsert, named by the two claims whatever table it goes to. */
  datatype Slot = Slot(layer: Layer, from: ClaimId, to: ClaimId, kind: EdgeKind)

  function KeyOf(facts: Facts, slot: Slot): EdgeKey
    requires slot.from in facts && slot.to in facts
  {
    match slot.layer
    case ClaimEdges => EdgeKey(ClaimEdges, slot.from, slot.to, slot.kind)
    case MemoryEdges => EdgeKey(MemoryEdges, facts[slot.from].memoryId, facts[slot.to].memoryId, slot.kind)
  }

  function DataOf(facts: Facts, slot: Slot): EdgeData
    requires slot.from in facts && slot.to in facts
  {
    var key := facts[slot.from].key;
    match slot.kind
    case Supersedes =>
      EdgeData(0.9, key,
               if slot.layer.ClaimEdges? then "claim_key_or_subject_replacement" else "claim_key_replacement", [])
    case Contradicts => EdgeData(0.86, key, "", [facts[slot.from].polarity, facts[slot.to].polarity])
    case Confirms => EdgeData(0.62, key, "", [])
  }

  function Upsert(facts: Facts, edges: Edges, slot: Slot): Edges
    requires slot.from in facts && slot.to in facts
  {
    edges[KeyOf(facts, slot) := DataOf(facts, slot)]
  }

  /** The upserts of one comparison, in the order the source issues them. */
  function RowSlots(current: ClaimId, seen: Claim, prior: ClaimId, read: Claim): seq<Slot> {
    var kind := ConflictKind(seen.facts, read.facts);
    (if ShouldSupersede(seen, read)
     then [Slot(MemoryEdges, current, prior, Supersedes), Slot(ClaimEdges, current, prior, Supersedes)] else [])
    + [Slot(MemoryEdges, current, prior, kind), Slot(ClaimEdges, current, prior, kind)]
  }

  function SlotsOf(claims: Claims, current: ClaimId, seen: Claim, rows: seq<ClaimId>): seq<Slot>
    requires Known(claims, rows)
  {
    if rows == [] then []
    else
      var prior := rows[|rows| - 1];
      SlotsOf(claims, current, seen, rows[..|rows| - 1]) + RowSlots(current, seen, prior, claims[prior])
  }

  predicate Known(claims: Claims, rows: seq<ClaimId>) {
    forall p | p in rows :: p in claims
  }

  predicate InFacts(facts: Facts, slots: seq<Slot>) {
    forall s | s in slots :: s.from in facts && s.to in facts
  }

  function UpsertAll(facts: Facts, edges: Edges, slots: seq<Slot>): Edges
    requires InFacts(facts, slots)
  {
    if slots == [] then edges
    else Upsert(facts, UpsertAll(facts, edges, slots[..|slots| - 1]), slots[|slots| - 1])
  }

  lemma {:induction false} SlotsInFacts(
    facts: Facts, claims: Claims, current: ClaimId, seen: Claim, rows: seq<ClaimId>)
    requires facts.Keys == claims.Keys && current in claims && Known(claims, rows)
    ensures InFacts(facts, SlotsOf(claims, current, seen, rows))
  {
    if rows != [] {
      SlotsInFacts(facts, claims, current, seen, rows[..|rows| - 1]);
    }
  }

  lemma {:induction false} UpsertAllAppend(
    facts: Facts, edges: Edges, a: seq<Slot>, b: seq<Slot>)
    requires InFacts(facts, a) && InFacts(facts, b)
    ensures InFacts(facts, a + b)
    ensures UpsertAll(facts, edges, a + b) == UpsertAll(facts, UpsertAll(facts, edges, a), b)
  {
    if b == [] {
      assert a + b == a;
    } else {
      var last := b[|b| - 1];
      assert (a + b)[..|a + b| - 1] == a + b[..|b| - 1];
      UpsertAllAppend(facts, edges, a, b[..|b| - 1]);
    }
  }

  lemma UpsertNone(facts: Facts, edges: Edges)
    ensures UpsertAll(facts, edges, []) == edges
  {
  }

  lemma UpsertPair(facts: Facts, edges: Edges, a: Slot, b: Slot)
    requires InFacts(facts, [a]) && InFacts(facts, [b])
    ensures a.from in facts && a.to in facts && b.from in facts && b.to in facts && InFacts(facts, [a, b])
    ensures UpsertAll(facts, edges, [a, b]) == Upsert(facts, Upsert(facts, edges, a), b)
  {
    hide Upsert;
    assert a in [a] && b in [b];
    assert [a, b][..1] == [a] && [a][..0] == [];
    assert UpsertAll(facts, edges, [a]) == Upsert(facts, UpsertAll(facts, edges, []), a);
  }

  // ----- One claim against its candidates: the closed form -----

  predicate Supersedable(claims: Claims, seen: Claim, rows: seq<ClaimId>, id: ClaimId) {
    id in rows && id in claims && ShouldSupersede(seen, claims[id])
  }

  /** The claims whose status one pass sets to contradicted: a conflicting candidate that is
      weaker than the current claim, and the current claim if a conflicting one is stronger. */
  ghost predicate Weakened(claims: Claims, current: ClaimId, seen: Claim, rows: seq<ClaimId>, id: ClaimId) {
    || (id in rows && id in claims && Conflict(seen.facts, claims[id].facts)
        && Strength(seen) > Strength(claims[id]))
    || (id == current && exists p :: StrongerConflict(claims, seen, rows, p))
  }

  predicate StrongerConflict(claims: Claims, seen: Claim, rows: seq<ClaimId>, p: ClaimId) {
    p in rows && p in claims && Conflict(seen.facts, claims[p].facts) && Strength(seen) < Strength(claims[p])
  }

  ghost function ClaimAfter(claims: Claims, current: ClaimId, seen: Claim, rows: seq<ClaimId>, now: int, id: ClaimId): Claim
    requires id in claims
  {
    var c := claims[id];
    var replaced := Supersedable(claims, seen, rows, id) && c.supersededBy.None?;
    Claim(c.facts,
          if Weakened(claims, current, seen, rows, id) then Some(Contradicted) else c.verification,
          if replaced then Some(current) else c.supersededBy,
          if replaced then Some(now) else c.validTo)
  }

  ghost function ClaimsAfter(claims: Claims, current: ClaimId, seen: Claim, rows: seq<ClaimId>, now: int): Claims {
    map id | id in claims :: ClaimAfter(claims, current, seen, rows, now, id)
  }

  ghost predicate MemoryReplaced(claims: Claims, seen: Claim, rows: seq<ClaimId>, id: MemoryId) {
    exists p :: Supersedable(claims, seen, rows, p) && claims[p].facts.memoryId == id
  }

  ghost function MemoriesAfter(memories: Memories, claims: Claims, seen: Claim, rows: seq<ClaimId>, now: int): Memories {
    map id | id in memories ::
      if memories[id].None? && MemoryReplaced(claims, seen, rows, id) then Some(now) else memories[id]
  }

  ghost function EdgesAfter(edges: Edges, claims: Claims, current: ClaimId, seen: Claim, rows: seq<ClaimId>): Edges
    requires current in claims && Known(claims, rows)
  {
    var facts := FactsOf(claims);
    SlotsInFacts(facts, claims, current, seen, rows);
    UpsertAll(facts, edges, SlotsOf(claims, current, seen, rows))
  }

  /** The tables after `current`, read as `seen`, has been compared with `rows`. */
  ghost function AfterRows(db: Db, current: ClaimId, seen: Claim, rows: seq<ClaimId>, now: int): Db
    requires current in db.claims && Known(db.claims, rows)
  {
    Db(ClaimsAfter(db.claims, current, seen, rows, now),
       MemoriesAfter(db.memories, db.claims, seen, rows, now),
       EdgesAfter(db.edges, db.claims, current, seen, rows))
  }

  /** `reconcile_single_claim` on a claim whose columns were read as `seen`. */
  ghost function AfterClaim(db: Db, current: ClaimId, seen: Claim, now: int): Db
    requires current in db.claims
  {
    AfterRows(db, current, seen, Candidates(FactsOf(db.claims), current), now)
  }

  // ----- The loops -----

  datatype Outcome = Outcome(claims: nat, supersedes: nat, contradicts: nat, confirms: nat)

  function Merge(a: Outcome, b: Outcome): Outcome {
    Outcome(a.claims + b.claims, a.supersedes + b.supersedes, a.contradicts + b.contradicts, a.confirms + b.confirms)
  }

  function CountKind(slots: seq<Slot>, kind: EdgeKind): nat {
    if slots == [] then 0
    else CountKind(slots[..|slots| - 1], kind)
         + (if slots[|slots| - 1].layer.ClaimEdges? && slots[|slots| - 1].kind == kind then 1 else 0)
  }

  function OutcomeOf(slots: seq<Slot>): Outcome {
    Outcome(1, CountKind(slots, Supersedes), CountKind(slots, Contradicts), CountKind(slots, Confirms))
  }

  lemma {:induction false} CountKindAppend(a: seq<Slot>, b: seq<Slot>, kind: EdgeKind)
    ensures CountKind(a + b, kind) == CountKind(a, kind) + CountKind(b, kind)
  {
    if b == [] {
      assert a + b == a;
    } else {
      assert (a + b)[..|a + b| - 1] == a + b[..|b| - 1];
      CountKindAppend(a, b[..|b| - 1], kind);
    }
  }

  function RowOutcome(seen: Claim, read: Claim): Outcome {
    Outcome(0, if ShouldSupersede(seen, read) then 1 else 0,
            if Conflict(seen.facts, read.facts) then 1 else 0,
            if Conflict(seen.facts, read.facts) then 0 else 1)
  }

  lemma RowCounts(current: ClaimId, seen: Claim, prior: ClaimId, read: Claim)
    ensures var slots := RowSlots(current, seen, prior, read);
            Outcome(0, CountKind(slots, Supersedes), CountKind(slots, Contradicts), CountKind(slots, Confirms))
            == RowOutcome(seen, read)
  {
    var kind := ConflictKind(seen.facts, read.facts);
    var first := [Slot(MemoryEdges, current, prior, Supersedes), Slot(ClaimEdges, current, prior, Supersedes)];
    var pair := [Slot(MemoryEdges, current, prior, kind), Slot(ClaimEdges, current, prior, kind)];
    forall k
      ensures CountKind(first + pair, k) == (if k.Supersedes? then 1 else 0) + (if k == kind then 1 else 0)
      ensures CountKind([] + pair, k) == if k == kind then 1 else 0
    {
      CountPair(current, prior, Supersedes, k);
      CountPair(current, prior, kind, k);
      CountKindAppend(first, pair, k);
      assert [] + pair == pair;
    }
  }

  lemma CountPair(current: ClaimId, prior: ClaimId, kind: EdgeKind, k: EdgeKind)
    ensures CountKind([Slot(MemoryEdges, current, prior, kind), Slot(ClaimEdges, current, prior, kind)], k)
         == if k == kind then 1 else 0
  {
    var pair := [Slot(MemoryEdges, current, prior, kind), Slot(ClaimEdges, current, prior, kind)];
    assert pair[..1] == [pair[0]] && pair[..1][..0] == [];
    assert CountKind(pair[..1], k) == CountKind(pair[..1][..0], k) == 0;
  }

  lemma OutcomeOneRowFurther(claims: Claims, current: ClaimId, seen: Claim, rows: seq<ClaimId>, prior: ClaimId)
    requires prior in claims && Known(claims, rows)
    ensures Known(claims, rows + [prior])
    ensures OutcomeOf(SlotsOf(claims, current, seen, rows + [prior]))
         == Merge(OutcomeOf(SlotsOf(claims, current, seen, rows)), RowOutcome(seen, claims[prior]))
  {
    assert (rows + [prior])[..|rows|] == rows;
    var a, b := SlotsOf(claims, current, seen, rows), RowSlots(current, seen, prior, claims[prior]);
    CountKindAppend(a, b, Supersedes);
    CountKindAppend(a, b, Contradicts);
    CountKindAppend(a, b, Confirms);
    RowCounts(current, seen, prior, claims[prior]);
  }

  // One iteration of the loop of `reconcile_single_claim`, table by table; `read` holds the
  // columns of `prior` as the lookup returned them.

  function RowClaims(claims: Claims, current: ClaimId, seen: Claim, prior: ClaimId, read: Claim, now: int): Claims {
    var c := if ShouldSupersede(seen, read) then MarkClaimSuperseded(claims, prior, current, now) else claims;
    if !Conflict(seen.facts, read.facts) then c
    else if Strength(seen) > Strength(read) then MarkContradicted(c, prior)
    else if Strength(seen) < Strength(read) then MarkContradicted(c, current)
    else c
  }

  function RowMemories(memories: Memories, seen: Claim, read: Claim, now: int): Memories {
    if ShouldSupersede(seen, read) then MarkMemorySuperseded(memories, read.facts.memoryId, now) else memories
  }

  lemma ClaimsOneRowFurther(claims: Claims, current: ClaimId, seen: Claim, rows: seq<ClaimId>, prior: ClaimId, now: int)
    requires current in claims && prior in claims && prior != current && prior !in rows
    ensures ClaimsAfter(claims, current, seen, rows + [prior], now)
         == RowClaims(ClaimsAfter(claims, current, seen, rows, now), current, seen, prior, claims[prior], now)
  {
    hide ShouldSupersede, Conflict, Strength;
    var more, read := rows + [prior], claims[prior];
    assert forall p :: p in more <==> p in rows || p == prior;
    assert prior in more;
    var stronger := Conflict(seen.facts, read.facts) && Strength(seen) < Strength(read);
    assert forall p :: StrongerConflict(claims, seen, more, p) <==>
             StrongerConflict(claims, seen, rows, p) || (p == prior && stronger);
    assert (exists p :: StrongerConflict(claims, seen, more, p)) <==>
           (exists p :: StrongerConflict(claims, seen, rows, p)) || stronger by {
      assert stronger ==> StrongerConflict(claims, seen, more, prior);
    }
    var before := ClaimsAfter(claims, current, seen, rows, now);
    var after := RowClaims(before, current, seen, prior, read, now);
    assert after.Keys == claims.Keys;
    forall id | id in claims
      ensures after[id] == ClaimAfter(claims, current, seen, more, now, id)
    {
    }
  }

  lemma MemoriesOneRowFurther(
    memories: Memories, claims: Claims, seen: Claim, rows: seq<ClaimId>, prior: ClaimId, now: int)
    requires prior in claims && claims[prior].facts.memoryId in memories
    ensures MemoriesAfter(memories, claims, seen, rows + [prior], now)
         == RowMemories(MemoriesAfter(memories, claims, seen, rows, now), seen, claims[prior], now)
  {
    hide ShouldSupersede;
    var more, read := rows + [prior], claims[prior];
    assert forall p :: p in more <==> p in rows || p == prior;
    assert forall p :: Supersedable(claims, seen, more, p) <==>
             Supersedable(claims, seen, rows, p) || (p == prior && ShouldSupersede(seen, read));
    forall id
      ensures MemoryReplaced(claims, seen, more, id) <==>
              MemoryReplaced(claims, seen, rows, id) || (ShouldSupersede(seen, read) && read.facts.memoryId == id)
    {
      if ShouldSupersede(seen, read) && read.facts.memoryId == id {
        assert Supersedable(claims, seen, more, prior);
      }
    }
  }

  lemma EdgesOneRowFurther(edges: Edges, claims: Claims, current: ClaimId, seen: Claim, rows: seq<ClaimId>, prior: ClaimId)
    requires current in claims && prior in claims && Known(claims, rows)
    ensures Known(claims, rows + [prior]) && InFacts(FactsOf(claims), RowSlots(current, seen, prior, claims[prior]))
    ensures EdgesAfter(edges, claims, current, seen, rows + [prior])
         == UpsertAll(FactsOf(claims), EdgesAfter(edges, claims, current, seen, rows), RowSlots(current, seen, prior, claims[prior]))
  {
    var more := rows + [prior];
    assert more[..|more| - 1] == rows;
    SlotsInFacts(FactsOf(claims), claims, current, seen, rows);
    UpsertAllAppend(FactsOf(claims), edges, SlotsOf(claims, current, seen, rows), RowSlots(current, seen, prior, claims[prior]));
  }

  /** The closed form one candidate further is the closed form so far and one more iteration. */
  lemma OneRowFurther(db: Db, current: ClaimId, seen: Claim, rows: seq<ClaimId>, i: nat, now: int)
    requires WellFormed(db) && current in db.claims && Known(db.claims, rows)
    requires i < |rows| && forall j | 0 <= j < |rows| :: rows[j] != current && (j < i ==> rows[j] != rows[i])
    ensures Known(db.claims, rows[..i]) && Known(db.claims, rows[..i + 1])
    ensures var before := AfterRows(db, current, seen, rows[..i], now);
            var read := db.claims[rows[i]];
            && before.claims.Keys == db.claims.Keys && FactsOf(before.claims) == FactsOf(db.claims)
            && InFacts(FactsOf(db.claims), RowSlots(current, seen, rows[i], read))
            && AfterRows(db, current, seen, rows[..i + 1], now)
               == Db(RowClaims(before.claims, current, seen, rows[i], read, now),
                     RowMemories(before.memories, seen, read, now),
                     UpsertAll(FactsOf(db.claims), before.edges, RowSlots(current, seen, rows[i], read)))
    ensures OutcomeOf(SlotsOf(db.claims, current, seen, rows[..i + 1]))
         == Merge(OutcomeOf(SlotsOf(db.claims, current, seen, rows[..i])), RowOutcome(seen, db.claims[rows[i]]))
  {
    hide Weakened, Supersedable, ShouldSupersede, Conflict, ClaimsAfter, MemoriesAfter, EdgesAfter, RowClaims;
    hide RowMemories, RowSlots, SlotsOf, UpsertAll, OutcomeOf;
    var done, prior := rows[..i], rows[i];
    assert rows[..i + 1] == done + [prior] && prior !in done;
    ClaimsOneRowFurther(db.claims, current, seen, done, prior, now);
    MemoriesOneRowFurther(db.memories, db.claims, seen, done, prior, now);
    EdgesOneRowFurther(db.edges, db.claims, current, seen, done, prior);
    OutcomeOneRowFurther(db.claims, current, seen, done, prior);
    ClaimsAfterKeeps(db.claims, current, seen, done, now);
  }

  lemma ClaimsAfterKeeps(claims: Claims, current: ClaimId, seen: Claim, rows: seq<ClaimId>, now: int)
    ensures var after := ClaimsAfter(claims, current, seen, rows, now);
            after.Keys == claims.Keys && FactsOf(after) == FactsOf(claims)
  {
    hide Weakened, Supersedable;
  }

  lemma NoRows(db: Db, current: ClaimId, seen: Claim, now: int)
    requires current in db.claims
    ensures AfterRows(db, current, seen, [], now) == db
    ensures OutcomeOf(SlotsOf(db.claims, current, seen, [])) == Outcome(1, 0, 0, 0)
  {
    var after := AfterRows(db, current, seen, [], now);
    assert after.claims == db.claims;
    assert after.memories == db.memories;
  }
}
