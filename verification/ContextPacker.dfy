/** `build_context_pack`: sort, then take items under per-bucket quotas and a token budget. */
module ContextPacker {
  import opened Options
  import opened Contracts
  import opened Sorting

  // ----- Priorities, buckets, quotas -----

  function SourceWeight(source: ContextSourceClass, intent: RetrievalIntent): int {
    match source
    case FromRepository => if intent.RepositoryOnly? then 70 else if intent.Hybrid? then 60 else 30
    case FromMemory => if intent.MemoryOnly? then 60 else if intent.Hybrid? then 50 else 25
    case FromSessionGraph => if intent.SessionGraphOnly? then 55 else if intent.Hybrid? || intent.MemoryOnly? then 30 else 10
    case FromConflict => 45
  }

  function VerificationWeight(verification: Option<VerificationStatus>): int {
    match verification
    case None => 0
    case Some(v) =>
      match v
      case Verified => 25
      case UserConfirmedStatus => 20
      case Inferred => 8
      case Unverified => -4
      case Contradicted => -15
  }

  function AuthorityWeight(authority: Option<AuthorityClass>): int {
    match authority
    case None => 0
    case Some(a) =>
      match a
      case Repository => 20
      case TestVerified => 18
      case ToolVerified => 16
      case UserConfirmed => 14
      case SessionDerived => 4
      case ModelDerived => -10
  }

  function TypeWeight(t: MemoryType): int {
    match t
    case Decision => 14
    case Fact => 14
    case Constraint => 14
    case Fix => 14
    case Task => 10
    case Bug => 10
    case ImplementationDetail => 8
    case OpenQuestion => 6
    case Summary => -6
    case Risk => -6
    case ChangeLog => -6
  }

  function ContextPriority(item: ContextItem, intent: RetrievalIntent): int {
    SourceWeight(item.source, intent) + VerificationWeight(item.verification) + AuthorityWeight(item.authority)
    + TypeWeight(item.memoryType)
  }

  /** The sort order: by priority, then by tokens, both descending. */
  predicate Precedes(a: ContextItem, b: ContextItem, intent: RetrievalIntent) {
    var p, q := ContextPriority(a, intent), ContextPriority(b, intent);
    p > q || (p == q && a.tokens >= b.tokens)
  }

  function Ordered(items: seq<ContextItem>, intent: RetrievalIntent): seq<ContextItem> {
    Sort(items, (a: ContextItem, b: ContextItem) => Precedes(a, b, intent))
  }

  datatype Bucket = RepositoryBucket | SessionGraphBucket | ConflictBucket | MemoryBucket(t: MemoryType)

  function BucketOf(item: ContextItem): Bucket {
    match item.source
    case FromRepository => RepositoryBucket
    case FromSessionGraph => SessionGraphBucket
    case FromConflict => ConflictBucket
    case FromMemory => MemoryBucket(item.memoryType)
  }

  function Quota(bucket: Bucket, intent: RetrievalIntent): nat {
    match intent
    case NoRetrieval => 0
    case RepositoryOnly => if bucket.RepositoryBucket? then 6 else 2
    case MemoryOnly => if bucket.SessionGraphBucket? || bucket.ConflictBucket? then 2 else 3
    case SessionGraphOnly => if bucket.SessionGraphBucket? then 6 else if bucket.ConflictBucket? then 2 else 0
    case Hybrid => if bucket.RepositoryBucket? then 4 else 2
  }

  // ----- The choice -----

  function CountIn(items: seq<ContextItem>, bucket: Bucket): nat {
    if items == [] then 0
    else CountIn(items[..|items| - 1], bucket) + if BucketOf(items[|items| - 1]) == bucket then 1 else 0
  }

  predicate SeenBefore(s: seq<ContextItem>, i: nat)
    requires i < |s|
  {
    exists j :: 0 <= j < i && DedupeKey(s[j]) == DedupeKey(s[i])
  }

  /** Is the item taken when `chosen` has been chosen before it? */
  predicate Fits(item: ContextItem, chosen: seq<ContextItem>, budget: u32, intent: RetrievalIntent) {
    && CountIn(chosen, BucketOf(item)) < Quota(BucketOf(item), intent)
    && SaturatingAdd(UsedTokens(chosen), item.tokens) <= budget
  }

  /** The indexes of the items taken from the first `n`. */
  function Taken(s: seq<ContextItem>, budget: u32, intent: RetrievalIntent, n: nat): (taken: seq<nat>)
    requires n <= |s|
    ensures forall k | 0 <= k < |taken| :: taken[k] < n
  {
    if n == 0 then []
    else
      var before := Taken(s, budget, intent, n - 1);
      if !SeenBefore(s, n - 1) && Fits(s[n - 1], Picked(s, before), budget, intent) then before + [n - 1] else before
  }

  /** The set `seen` after the first `n` items. */
  function SeenKeys(s: seq<ContextItem>, n: nat): set<string>
    requires n <= |s|
  {
    set j | 0 <= j < n :: DedupeKey(s[j])
  }

  lemma SeenStep(s: seq<ContextItem>, n: nat)
    requires n < |s|
    ensures SeenKeys(s, n + 1) == SeenKeys(s, n) + {DedupeKey(s[n])}
    ensures SeenBefore(s, n) <==> DedupeKey(s[n]) in SeenKeys(s, n)
  {
    hide DedupeKey;
  }

  /** `perBucket` holds the bucket counts of the selection; a missing entry is zero. */
  ghost predicate Counts(perBucket: map<Bucket, nat>, selected: seq<ContextItem>) {
    forall b :: CountIn(selected, b) == if b in perBucket then perBucket[b] else 0
  }

  /** The loop, on the sorted items. */
  method BuildContextPack(items: seq<ContextItem>, budget: u32, intent: RetrievalIntent)
    returns (selected: seq<ContextItem>, used: u32)
    ensures var s := Ordered(items, intent);
            selected == Picked(s, Taken(s, budget, intent, |s|)) && used == UsedTokens(selected)
  {
    hide Ordered, UsedTokens, DedupeKey, BucketOf, Quota, SeenBefore, SeenKeys, CountIn;
    var candidates := Ordered(items, intent);
    selected, used := [], 0;
    var seen: set<string> := {};
    var perBucket: map<Bucket, nat> := map[];
    NothingUsed(candidates);
    for n := 0 to |candidates|
      invariant selected == Picked(candidates, Taken(candidates, budget, intent, n)) && used == UsedTokens(selected)
      invariant seen == SeenKeys(candidates, n)
      invariant Counts(perBucket, selected)
    {
      var item := candidates[n];
      var key := DedupeKey(item);
      SeenStep(candidates, n);
      if key in seen {
        assert seen + {key} == seen;
        continue;
      }
      seen := seen + {key};
      var bucket := BucketOf(item);
      var count := if bucket in perBucket then perBucket[bucket] else 0;
      if count >= Quota(bucket, intent) {
        continue;
      }
      if SaturatingAdd(used, item.tokens) > budget {
        continue;
      }
      PickedAppend(candidates, Taken(candidates, budget, intent, n), n);
      SelectAppend(selected, item);
      used := SaturatingAdd(used, item.tokens);
      perBucket := perBucket[bucket := count + 1];
      selected := selected + [item];
    }
  }

  lemma NothingUsed(s: seq<ContextItem>)
    ensures UsedTokens([]) == 0 && SeenKeys(s, 0) == {} && Counts(map[], []) && Picked(s, []) == []
    ensures forall b :: CountIn([], b) == 0
  {
  }

  lemma SelectAppend(items: seq<ContextItem>, item: ContextItem)
    ensures UsedTokens(items + [item]) == SaturatingAdd(UsedTokens(items), item.tokens)
    ensures forall b :: CountIn(items + [item], b) == CountIn(items, b) + if BucketOf(item) == b then 1 else 0
  {
    UsedAppend(items, item);
    assert (items + [item])[..|items|] == items;
  }

  // ----- What the pack promises -----

  /** Indexes ascend, and keys are distinct. */
  predicate Distinct(s: seq<ContextItem>, taken: seq<nat>)
    requires forall k | 0 <= k < |taken| :: taken[k] < |s|
  {
    && (forall a, b | 0 <= a < b < |taken| :: taken[a] < taken[b])
    && (forall a, b | 0 <= a < b < |taken| :: DedupeKey(s[taken[a]]) != DedupeKey(s[taken[b]]))
  }

  lemma {:induction false} PackHasDistinctKeys(s: seq<ContextItem>, budget: u32, intent: RetrievalIntent, n: nat)
    requires n <= |s|
    ensures Distinct(s, Taken(s, budget, intent, n))
  {
    hide DedupeKey, Fits;
    if n > 0 {
      PackHasDistinctKeys(s, budget, intent, n - 1);
      var before := Taken(s, budget, intent, n - 1);
      if !SeenBefore(s, n - 1) {
        DistinctAppend(s, before, n - 1);
      }
    }
  }

  lemma DistinctAppend(s: seq<ContextItem>, before: seq<nat>, i: nat)
    requires i < |s| && !SeenBefore(s, i) && (forall k | 0 <= k < |before| :: before[k] < i) && Distinct(s, before)
    ensures Distinct(s, before + [i])
  {
    hide DedupeKey;
    var taken := before + [i];
    forall a, b | 0 <= a < b < |taken|
      ensures taken[a] < taken[b] && DedupeKey(s[taken[a]]) != DedupeKey(s[taken[b]])
    {
      assert taken[a] == before[a];
      if b < |before| {
        assert taken[b] == before[b];
      }
    }
  }

  /** Every bucket is within its quota, and the usage within the budget. */
  lemma {:induction false} PackIsWithinLimits(s: seq<ContextItem>, budget: u32, intent: RetrievalIntent, n: nat)
    requires n <= |s|
    ensures var selected := Picked(s, Taken(s, budget, intent, n));
            (forall bucket :: CountIn(selected, bucket) <= Quota(bucket, intent)) && UsedTokens(selected) <= budget
  {
    hide UsedTokens, Quota, BucketOf, SeenBefore, CountIn;
    if n == 0 {
      NothingUsed(s);
    } else {
      PackIsWithinLimits(s, budget, intent, n - 1);
      var before := Taken(s, budget, intent, n - 1);
      PickedAppend(s, before, n - 1);
      SelectAppend(Picked(s, before), s[n - 1]);
    }
  }

  /** The usage is the exact token sum of the pack if and only if that sum fits the counter; a
      budget below the counter's limit ensures it, and then the sum is within the budget. */
  lemma UsageIsExactIff(s: seq<ContextItem>, budget: u32, intent: RetrievalIntent)
    ensures var selected := Picked(s, Taken(s, budget, intent, |s|));
            && (UsedTokens(selected) == TokenSum(selected) <==> TokenSum(selected) <= U32_MAX)
            && (budget < U32_MAX ==> TokenSum(selected) <= budget)
  {
    var selected := Picked(s, Taken(s, budget, intent, |s|));
    PackIsWithinLimits(s, budget, intent, |s|);
    UsedIsCappedSum(selected);
  }

  /** Later choices only use more. */
  lemma {:induction false} LimitsOnlyTighten(s: seq<ContextItem>, budget: u32, intent: RetrievalIntent, m: nat, n: nat, bucket: Bucket)
    requires m <= n <= |s|
    ensures var early, late := Picked(s, Taken(s, budget, intent, m)), Picked(s, Taken(s, budget, intent, n));
            UsedTokens(early) <= UsedTokens(late) && CountIn(early, bucket) <= CountIn(late, bucket)
    decreases n
  {
    hide UsedTokens, DedupeKey, Quota, BucketOf, Fits;
    if m < n {
      LimitsOnlyTighten(s, budget, intent, m, n - 1, bucket);
      var before := Taken(s, budget, intent, n - 1);
      PickedAppend(s, before, n - 1);
      SelectAppend(Picked(s, before), s[n - 1]);
    }
  }

  lemma {:induction false} TakenIff(s: seq<ContextItem>, budget: u32, intent: RetrievalIntent, i: nat, n: nat)
    requires i < n <= |s|
    ensures i in Taken(s, budget, intent, n)
            <==> !SeenBefore(s, i) && Fits(s[i], Picked(s, Taken(s, budget, intent, i)), budget, intent)
    decreases n
  {
    hide SeenBefore, Fits;
    var before := Taken(s, budget, intent, n - 1);
    if i < n - 1 {
      TakenIff(s, budget, intent, i, n - 1);
    } else {
      assert i !in before;
    }
  }

  /** Each left-out item is still justified at the end: an item sorted before it has its key,
      its bucket is full, or it would exceed the budget. */
  lemma LeftOutIsJustified(s: seq<ContextItem>, budget: u32, intent: RetrievalIntent, i: nat)
    requires i < |s| && i !in Taken(s, budget, intent, |s|)
    ensures var selected := Picked(s, Taken(s, budget, intent, |s|));
            || SeenBefore(s, i)
            || CountIn(selected, BucketOf(s[i])) == Quota(BucketOf(s[i]), intent)
            || SaturatingAdd(UsedTokens(selected), s[i].tokens) > budget
  {
    hide UsedTokens, SeenBefore, Quota, BucketOf, CountIn;
    TakenIff(s, budget, intent, i, |s|);
    LimitsOnlyTighten(s, budget, intent, i, |s|, BucketOf(s[i]));
    PackIsWithinLimits(s, budget, intent, |s|);
  }

  lemma PrecedesIsTotalOrder(intent: RetrievalIntent)
    ensures TotalOrder((a: ContextItem, b: ContextItem) => Precedes(a, b, intent))
  {
    hide ContextPriority;
  }

  /** The pack is built from a rearrangement of the items in which no item comes before one of
      higher priority. */
  lemma OrderedIsSorted(items: seq<ContextItem>, intent: RetrievalIntent)
    ensures var s := Ordered(items, intent);
            && multiset(s) == multiset(items)
            && forall i, j | 0 <= i < j < |s| :: Precedes(s[i], s[j], intent)
  {
    hide Precedes;
    var le := (a: ContextItem, b: ContextItem) => Precedes(a, b, intent);
    PrecedesIsTotalOrder(intent);
    SortIsSorted(items, le);
    SortIsPermutation(items, le);
    assert forall i, j | 0 <= i < j < |Ordered(items, intent)| :: le(Ordered(items, intent)[i], Ordered(items, intent)[j]);
  }

  // ----- Keys that are lost -----

  /** Some item with this key is in the pack. */
  ghost predicate KeyTaken(s: seq<ContextItem>, budget: u32, intent: RetrievalIntent, key: string) {
    exists i :: i in Taken(s, budget, intent, |s|) && DedupeKey(s[i]) == key
  }

  /** A key is marked as seen before quota and budget are checked. So the first item with a key
      decides for all: the key is in the pack if and only if that item fits when its turn comes,
      whatever later items with the key would do. */
  lemma KeyIsTakenIff(s: seq<ContextItem>, budget: u32, intent: RetrievalIntent, i: nat)
    requires i < |s| && !SeenBefore(s, i)
    ensures KeyTaken(s, budget, intent, DedupeKey(s[i]))
            <==> Fits(s[i], Picked(s, Taken(s, budget, intent, i)), budget, intent)
  {
    hide Fits, DedupeKey;
    TakenIff(s, budget, intent, i, |s|);
    hide Taken;
    if k :| k in Taken(s, budget, intent, |s|) && DedupeKey(s[k]) == DedupeKey(s[i]) {
      TakenIff(s, budget, intent, k, |s|);
    }
  }

  /** Of two items with one key the one of higher priority, or of equal priority and larger, does
      not fit: the other one is dropped with it, though alone it would have been packed. */
  lemma KeyIsLostWithItsFirstItem(big: ContextItem, small: ContextItem, budget: u32, intent: RetrievalIntent)
    requires DedupeKey(big) == DedupeKey(small) && big.tokens > budget >= small.tokens
    requires ContextPriority(big, intent) >= ContextPriority(small, intent) && Quota(BucketOf(small), intent) > 0
    ensures Ordered([big, small], intent) == [big, small] && Ordered([small], intent) == [small]
    ensures Taken([big, small], budget, intent, 2) == []
    ensures Taken([small], budget, intent, 1) == [0]
  {
    hide DedupeKey, Quota, BucketOf, ContextPriority;
    var s := [big, small];
    assert s[1] == small && s[0] == big;
    TwoOrdered(big, small, intent);
    assert Picked(s, []) == [] && Picked([small], []) == [];
    NothingUsed(s);
    assert !Fits(big, [], budget, intent);
    assert Taken(s, budget, intent, 1) == [];
    assert SeenBefore(s, 1);
    assert Fits(small, [], budget, intent) && !SeenBefore([small], 0);
  }

  lemma TwoOrdered(big: ContextItem, small: ContextItem, intent: RetrievalIntent)
    requires Precedes(big, small, intent)
    ensures Ordered([big, small], intent) == [big, small] && Ordered([small], intent) == [small]
  {
    hide Precedes;
    var le := (a: ContextItem, b: ContextItem) => Precedes(a, b, intent);
    assert [big, small][1..] == [small] && [small][1..] == [];
    assert Sort([small], le) == [small];
    assert Sort([big, small], le) == [big] + [small];
  }
}
