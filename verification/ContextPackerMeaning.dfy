/** What the context pack prefers, drops and limits, told on the fields of the items. */
module ContextPackerMeaning {
  import opened Options
  import opened Contracts
  import opened Sorting
  import opened ContextPacker

  // ----- Order -----

  /** From the last to the first source, for what was asked. */
  function SourcePlace(source: ContextSourceClass, intent: RetrievalIntent): nat {
    match intent
    case RepositoryOnly => (match source case FromRepository => 3 case FromConflict => 2 case FromMemory => 1 case FromSessionGraph => 0)
    case MemoryOnly => (match source case FromMemory => 2 case FromConflict => 1 case FromRepository => 0 case FromSessionGraph => 0)
    case SessionGraphOnly => (match source case FromSessionGraph => 3 case FromConflict => 2 case FromRepository => 1 case FromMemory => 0)
    case Hybrid => (match source case FromRepository => 3 case FromMemory => 2 case FromConflict => 1 case FromSessionGraph => 0)
    case NoRetrieval => (match source case FromConflict => 3 case FromRepository => 2 case FromMemory => 1 case FromSessionGraph => 0)
  }

  function VerificationPlace(verification: Option<VerificationStatus>): nat {
    match verification
    case Some(Contradicted) => 0
    case Some(Unverified) => 1
    case None => 2
    case Some(Inferred) => 3
    case Some(UserConfirmedStatus) => 4
    case Some(Verified) => 5
  }

  function AuthorityPlace(authority: Option<AuthorityClass>): nat {
    match authority
    case Some(ModelDerived) => 0
    case None => 1
    case Some(SessionDerived) => 2
    case Some(UserConfirmed) => 3
    case Some(ToolVerified) => 4
    case Some(TestVerified) => 5
    case Some(Repository) => 6
  }

  const SETTLED := {Decision, Fact, Constraint, Fix}

  function TypePlace(t: MemoryType): nat {
    if t in SETTLED then 4
    else if t == Task || t == Bug then 3
    else if t == ImplementationDetail then 2
    else if t == OpenQuestion then 1
    else 0
  }

  predicate AtLeastAsGood(a: ContextItem, b: ContextItem, intent: RetrievalIntent) {
    && SourcePlace(a.source, intent) >= SourcePlace(b.source, intent)
    && VerificationPlace(a.verification) >= VerificationPlace(b.verification)
    && AuthorityPlace(a.authority) >= AuthorityPlace(b.authority)
    && TypePlace(a.memoryType) >= TypePlace(b.memoryType)
    && a.tokens >= b.tokens
  }

  /** At least as good in source, verification, authority, type and size, and better in one. */
  predicate Dominates(a: ContextItem, b: ContextItem, intent: RetrievalIntent) {
    AtLeastAsGood(a, b, intent) && !AtLeastAsGood(b, a, intent)
  }

  lemma WeightsFollowPlaces(a: ContextItem, b: ContextItem, intent: RetrievalIntent)
    ensures SourcePlace(a.source, intent) >= SourcePlace(b.source, intent) <==> SourceWeight(a.source, intent) >= SourceWeight(b.source, intent)
    ensures VerificationPlace(a.verification) >= VerificationPlace(b.verification)
            <==> VerificationWeight(a.verification) >= VerificationWeight(b.verification)
    ensures AuthorityPlace(a.authority) >= AuthorityPlace(b.authority) <==> AuthorityWeight(a.authority) >= AuthorityWeight(b.authority)
    ensures TypePlace(a.memoryType) >= TypePlace(b.memoryType) <==> TypeWeight(a.memoryType) >= TypeWeight(b.memoryType)
  {
  }

  lemma DominatingPrecedes(a: ContextItem, b: ContextItem, intent: RetrievalIntent)
    requires Dominates(a, b, intent)
    ensures !Precedes(b, a, intent)
  {
    WeightsFollowPlaces(a, b, intent);
    WeightsFollowPlaces(b, a, intent);
    hide SourcePlace, VerificationPlace, AuthorityPlace, TypePlace, SourceWeight, VerificationWeight, AuthorityWeight, TypeWeight;
  }

  /** No item is considered before one that is at least as good in source, verification,
      authority, type and size, and better in one of them. */
  lemma OrderOnFields(items: seq<ContextItem>, intent: RetrievalIntent, i: nat, j: nat)
    requires i < j < |Ordered(items, intent)|
    ensures !Dominates(Ordered(items, intent)[j], Ordered(items, intent)[i], intent)
  {
    OrderedIsSorted(items, intent);
    hide Ordered, Dominates, Precedes;
    var s := Ordered(items, intent);
    if Dominates(s[j], s[i], intent) {
      DominatingPrecedes(s[j], s[i], intent);
    }
  }

  // ----- Repeated items -----

  /** The key written out for an item without a claim key. */
  ghost predicate WrittenKey(item: ContextItem, key: string) {
    item.claimKey.None? && key == SourceName(item.source) + ":" + item.folded
  }

  /** Both have the same claim key, or neither has one and source and text agree; or the claim key
      of one happens to spell the other's source and text. */
  ghost predicate SameItem(a: ContextItem, b: ContextItem) {
    || (a.claimKey == b.claimKey && (a.claimKey.None? ==> a.source == b.source && a.folded == b.folded))
    || (a.claimKey.Some? && WrittenKey(b, a.claimKey.value))
    || (b.claimKey.Some? && WrittenKey(a, b.claimKey.value))
  }

  lemma ColonEndsName(a: ContextSourceClass, x: string, b: ContextSourceClass, y: string)
    requires SourceName(a) + ":" + x == SourceName(b) + ":" + y
    ensures a == b && x == y
  {
    var s, t := SourceName(a) + ":" + x, SourceName(b) + ":" + y;
    assert s[0] == SourceName(a)[0] && t[0] == SourceName(b)[0];
    assert s[|SourceName(a)|] == ':' && t[|SourceName(b)|] == ':';
    assert x == s[|SourceName(a)| + 1..] && y == t[|SourceName(b)| + 1..];
  }

  lemma KeysAgreeIff(a: ContextItem, b: ContextItem)
    ensures DedupeKey(a) == DedupeKey(b) <==> SameItem(a, b)
  {
    if a.claimKey.None? && b.claimKey.None? && DedupeKey(a) == DedupeKey(b) {
      ColonEndsName(a.source, a.folded, b.source, b.folded);
    }
  }

  // ----- Limits -----

  /** How many items of a source a pack may hold; for memories, of each type. */
  function Limit(source: ContextSourceClass, intent: RetrievalIntent): nat {
    match source
    case FromRepository =>
      if intent == RepositoryOnly then 6 else if intent == Hybrid then 4 else if intent == MemoryOnly then 3 else 0
    case FromMemory => if intent == MemoryOnly then 3 else if intent == RepositoryOnly || intent == Hybrid then 2 else 0
    case FromSessionGraph => if intent == SessionGraphOnly then 6 else if intent == NoRetrieval then 0 else 2
    case FromConflict => if intent == NoRetrieval then 0 else 2
  }

  /** The items of the source, and for memories of the type. */
  function Alike(items: seq<ContextItem>, source: ContextSourceClass, t: MemoryType): (r: seq<ContextItem>)
    ensures |r| <= |items|
    ensures forall item :: item in r <==> item in items && item.source == source && (source == FromMemory ==> item.memoryType == t)
  {
    if items == [] then []
    else
      var last := items[|items| - 1];
      Alike(items[..|items| - 1], source, t)
      + if last.source == source && (source == FromMemory ==> last.memoryType == t) then [last] else []
  }

  lemma {:induction false} AlikeIsCounted(items: seq<ContextItem>, item: ContextItem, intent: RetrievalIntent)
    ensures CountIn(items, BucketOf(item)) == |Alike(items, item.source, item.memoryType)|
    ensures Quota(BucketOf(item), intent) == Limit(item.source, intent)
  {
    if items != [] {
      AlikeIsCounted(items[..|items| - 1], item, intent);
    }
  }

  /** Of no source, and for memories of no type, does the pack hold more than its limit. */
  lemma LimitsOnFields(items: seq<ContextItem>, budget: u32, intent: RetrievalIntent, item: ContextItem)
    ensures var s := Ordered(items, intent);
            |Alike(Picked(s, Taken(s, budget, intent, |s|)), item.source, item.memoryType)| <= Limit(item.source, intent)
  {
    var s := Ordered(items, intent);
    PackIsWithinLimits(s, budget, intent, |s|);
    AlikeIsCounted(Picked(s, Taken(s, budget, intent, |s|)), item, intent);
  }

  /** The pack leaves out an item only if it is the same as an item considered before it, or as
      many of its kind as allowed are packed, or it would take the pack over the budget. */
  lemma LeftOutOnFields(items: seq<ContextItem>, budget: u32, intent: RetrievalIntent, i: nat)
    requires i < |Ordered(items, intent)| && i !in Taken(Ordered(items, intent), budget, intent, |Ordered(items, intent)|)
    ensures var s := Ordered(items, intent);
            var selected := Picked(s, Taken(s, budget, intent, |s|));
            || (exists j :: 0 <= j < i && SameItem(s[j], s[i]))
            || |Alike(selected, s[i].source, s[i].memoryType)| == Limit(s[i].source, intent)
            || TokenSum(selected) + s[i].tokens > budget
  {
    var s := Ordered(items, intent);
    var selected := Picked(s, Taken(s, budget, intent, |s|));
    LeftOutIsJustified(s, budget, intent, i);
    AlikeIsCounted(selected, s[i], intent);
    UsedIsCappedSum(selected);
    hide DedupeKey, SameItem, Ordered, Taken, Alike, CountIn, BucketOf, Quota, Limit, UsedTokens, TokenSum;
    if j :| 0 <= j < i && DedupeKey(s[j]) == DedupeKey(s[i]) {
      KeysAgreeIff(s[j], s[i]);
    }
  }

  /** No two items of the pack are the same. */
  lemma NoItemTwice(items: seq<ContextItem>, budget: u32, intent: RetrievalIntent, a: nat, b: nat)
    requires a < b < |Taken(Ordered(items, intent), budget, intent, |Ordered(items, intent)|)|
    ensures var s := Ordered(items, intent);
            var selected := Picked(s, Taken(s, budget, intent, |s|));
            !SameItem(selected[a], selected[b])
  {
    var s := Ordered(items, intent);
    var taken := Taken(s, budget, intent, |s|);
    PackHasDistinctKeys(s, budget, intent, |s|);
    KeysAgreeIff(s[taken[a]], s[taken[b]]);
    hide Ordered, Taken, DedupeKey, SameItem;
  }
}
