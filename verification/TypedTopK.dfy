/** The typed vector partitions: what each one holds, and the merge of their nearest answers. */
module TypedTopK {
  import opened Options
  import opened Sorting
  import opened Text

  /** An embedded memory; `distance` is its distance from the query under consideration. */
  datatype Memory = Memory(id: int, memoryType: string, distance: real)

  // ----- Partition names -----

  function CanonicalChar(c: char): char {
    var l := Lower(c);
    if 'a' <= l <= 'z' || '0' <= l <= '9' || l == '_' then l else '_'
  }

  function Canonical(s: string): string {
    seq(|s|, i requires 0 <= i < |s| => CanonicalChar(s[i]))
  }

  function Suffix(memoryType: string): string {
    var canonical := Canonical(memoryType);
    if canonical == "" then "all"
    else if canonical == "implementation_detail" then "impl_detail"
    else if canonical == "open_question" then "open_q"
    else canonical
  }

  function TypedCollectionName(collection: string, memoryType: string): string {
    collection + "_" + Suffix(memoryType)
  }

  /** Two types share a partition if and only if their suffixes agree. */
  lemma NamesAgreeIff(collection: string, a: string, b: string)
    ensures TypedCollectionName(collection, a) == TypedCollectionName(collection, b) <==> Suffix(a) == Suffix(b)
  {
    var x, y := TypedCollectionName(collection, a), TypedCollectionName(collection, b);
    assert x[|collection| + 1..] == Suffix(a) && y[|collection| + 1..] == Suffix(b);
  }

  /** Types that differ in ASCII case only share a partition. */
  lemma CaseIsFolded(a: string, b: string)
    requires LowerAll(a) == LowerAll(b)
    ensures Suffix(a) == Suffix(b)
  {
    assert |LowerAll(a)| == |a| && |LowerAll(b)| == |b|;
    forall i | 0 <= i < |a|
      ensures Canonical(a)[i] == Canonical(b)[i]
    {
      assert LowerAll(a)[i] == LowerAll(b)[i];
    }
    assert Canonical(a) == Canonical(b);
  }

  predicate IsLetter(c: char) {
    'a' <= c <= 'z' || 'A' <= c <= 'Z'
  }

  /** The same letter in either case, the same digit, or neither is a letter or digit. */
  predicate NamedAlike(c: char, d: char) {
    if IsLetter(c) && IsLetter(d) then c == d || c as int == d as int + 32 || d as int == c as int + 32
    else if IsLetter(c) || IsLetter(d) || '0' <= c <= '9' || '0' <= d <= '9' then c == d
    else true
  }

  lemma CharsAgreeIff(c: char, d: char)
    ensures CanonicalChar(c) == CanonicalChar(d) <==> NamedAlike(c, d)
  {
  }

  /** Canonical names agree if and only if the types are as long and alike at every place. */
  lemma CanonicalAgreeIff(a: string, b: string)
    ensures Canonical(a) == Canonical(b) <==> |a| == |b| && forall i | 0 <= i < |a| :: NamedAlike(a[i], b[i])
  {
    hide CanonicalChar, NamedAlike;
    assert |Canonical(a)| == |a| && |Canonical(b)| == |b|;
    forall i | 0 <= i < |a| && i < |b|
      ensures Canonical(a)[i] == Canonical(b)[i] <==> NamedAlike(a[i], b[i])
    {
      CharsAgreeIff(a[i], b[i]);
    }
  }

  /** A type in lower-case letters, digits and underscores is its own suffix, unless it is empty
      or one of the two long names; and every suffix is such a type. */
  lemma SuffixIsPlain(t: string)
    ensures Suffix(t) != "" && forall i | 0 <= i < |Suffix(t)| :: IsPlain(Suffix(t)[i])
    ensures (forall i | 0 <= i < |t| :: IsPlain(t[i])) && t !in {"", "implementation_detail", "open_question"} ==> Suffix(t) == t
  {
    if forall i | 0 <= i < |t| :: IsPlain(t[i]) {
      assert Canonical(t) == t;
    }
  }

  predicate IsPlain(c: char) {
    'a' <= c <= 'z' || '0' <= c <= '9' || c == '_'
  }

  /** Two types share a partition if and only if their canonical names agree, or one is a long
      name and the other its alias, or one is empty and the other is `all`. */
  lemma SuffixesAgreeIff(a: string, b: string)
    ensures Suffix(a) == Suffix(b) <==> Canonical(a) == Canonical(b) || Aliases(Canonical(a), Canonical(b)) || Aliases(Canonical(b), Canonical(a))
  {
    hide Canonical;
  }

  predicate Aliases(name: string, alias: string) {
    || (name == "implementation_detail" && alias == "impl_detail")
    || (name == "open_question" && alias == "open_q")
    || (name == "" && alias == "all")
  }

  // ----- What the upsert writes -----

  predicate BelongsTo(m: Memory, suffix: string) {
    m.memoryType != "" && Suffix(m.memoryType) == suffix
  }

  /** The memories of one type, in order. */
  function OfSuffix(memories: seq<Memory>, suffix: string): seq<Memory> {
    if memories == [] then []
    else
      var n := |memories| - 1;
      OfSuffix(memories[..n], suffix) + if BelongsTo(memories[n], suffix) then [memories[n]] else []
  }

  /** The batch for each partition: the typed memories under their suffix, and all under `all`. */
  ghost predicate Bucketed(memories: seq<Memory>, n: nat, byType: map<string, seq<Memory>>)
    requires n <= |memories|
  {
    && (forall s :: s in byType <==> s == "all" || OfSuffix(memories[..n], s) != [])
    && (forall s | s in byType :: byType[s] == (if s == "all" then memories else []) + OfSuffix(memories[..n], s))
  }

  /** The bucketing loop of the typed upsert. */
  method BucketByType(memories: seq<Memory>) returns (byType: map<string, seq<Memory>>)
    ensures Bucketed(memories, |memories|, byType)
  {
    hide *;
    byType := map["all" := memories];
    NothingBucketed(memories);
    for n := 0 to |memories|
      invariant Bucketed(memories, n, byType)
    {
      var m := memories[n];
      OneBucketed(memories, n, byType);
      if m.memoryType == "" {
        continue;
      }
      var suffix := Suffix(m.memoryType);
      byType := byType[suffix := (if suffix in byType then byType[suffix] else []) + [m]];
    }
  }

  lemma NothingBucketed(memories: seq<Memory>)
    ensures Bucketed(memories, 0, map["all" := memories])
  {
    assert memories + [] == memories;
  }

  lemma OneBucketed(memories: seq<Memory>, n: nat, byType: map<string, seq<Memory>>)
    requires n < |memories| && Bucketed(memories, n, byType)
    ensures var m := memories[n];
            var suffix := Suffix(m.memoryType);
            if m.memoryType == "" then Bucketed(memories, n + 1, byType)
            else Bucketed(memories, n + 1, byType[suffix := (if suffix in byType then byType[suffix] else []) + [m]])
  {
    hide Suffix, OfSuffix;
    var m := memories[n];
    var suffix := Suffix(m.memoryType);
    forall s
      ensures OfSuffix(memories[..n + 1], s)
              == OfSuffix(memories[..n], s) + if m.memoryType != "" && suffix == s then [m] else []
    {
      OfSuffixStep(memories, n, s);
    }
    if m.memoryType == "" {
      assert forall s :: OfSuffix(memories[..n], s) + [] == OfSuffix(memories[..n], s);
    } else if suffix == "all" {
      assert memories + OfSuffix(memories[..n], suffix) + [m] == memories + (OfSuffix(memories[..n], suffix) + [m]);
    }
  }

  lemma OfSuffixStep(memories: seq<Memory>, n: nat, s: string)
    requires n < |memories|
    ensures OfSuffix(memories[..n + 1], s) == OfSuffix(memories[..n], s) + if BelongsTo(memories[n], s) then [memories[n]] else []
  {
    assert memories[..n + 1][..n] == memories[..n];
  }

  /** The batch for `all` is the given memories, each once, if and only if no memory's type is
      spelled `all`. */
  lemma AllHoldsEachOnceIff(memories: seq<Memory>, byType: map<string, seq<Memory>>)
    requires Bucketed(memories, |memories|, byType)
    ensures byType["all"] == memories <==> forall m | m in memories :: !BelongsTo(m, "all")
  {
    assert memories[..|memories|] == memories;
    NoneOfSuffix(memories, "all");
    assert |byType["all"]| == |memories| + |OfSuffix(memories, "all")|;
  }

  lemma {:induction false} NoneOfSuffix(memories: seq<Memory>, suffix: string)
    ensures OfSuffix(memories, suffix) == [] <==> forall m | m in memories :: !BelongsTo(m, suffix)
  {
    hide BelongsTo;
    if memories != [] {
      var n := |memories| - 1;
      NoneOfSuffix(memories[..n], suffix);
      assert memories == memories[..n] + [memories[n]];
    }
  }

  // ----- Nearest answers -----

  function ByDistance(): (Memory, Memory) -> bool {
    (a: Memory, b: Memory) => a.distance <= b.distance
  }

  /** `hits` are the nearest `limit` of `memories`, in order of distance, and `rest` the others.
      This is what is assumed of one partition's query. */
  ghost predicate Nearest(memories: seq<Memory>, limit: nat, hits: seq<Memory>, rest: seq<Memory>) {
    && multiset(memories) == multiset(hits) + multiset(rest)
    && |hits| == (if |memories| < limit then |memories| else limit)
    && Ascending(hits)
    && (forall i, j | 0 <= i < |hits| && 0 <= j < |rest| :: hits[i].distance <= rest[j].distance)
  }

  function Flatten(lists: seq<seq<Memory>>): seq<Memory> {
    if lists == [] then [] else Flatten(lists[..|lists| - 1]) + lists[|lists| - 1]
  }

  function Truncate(s: seq<Memory>, limit: nat): seq<Memory> {
    if |s| < limit then s else s[..limit]
  }

  /** The answers of the partitions, flattened, sorted by distance and truncated. */
  function Merge(answers: seq<seq<Memory>>, limit: nat): seq<Memory> {
    Truncate(Sort(Flatten(answers), ByDistance()), limit)
  }

  // ----- Counting -----

  /** How many are at most `d` away. */
  function Within(s: seq<Memory>, d: real): nat {
    if s == [] then 0 else Within(s[..|s| - 1], d) + if s[|s| - 1].distance <= d then 1 else 0
  }

  /** The same of a bag of memories. */
  lemma {:induction false} WithinAppend(a: seq<Memory>, b: seq<Memory>, d: real)
    ensures Within(a + b, d) == Within(a, d) + Within(b, d)
    decreases |b|
  {
    if b == [] {
      assert a + b == a;
    } else {
      assert (a + b)[..|a + b| - 1] == a + b[..|b| - 1];
      WithinAppend(a, b[..|b| - 1], d);
    }
  }

  lemma RemoveOne(s: seq<Memory>, k: nat, d: real)
    requires k < |s|
    ensures var rest := s[..k] + s[k + 1..];
            && multiset(s) == multiset(rest) + multiset{s[k]}
            && Within(s, d) == Within(rest, d) + if s[k].distance <= d then 1 else 0
  {
    var before, after := s[..k], s[k + 1..];
    assert s == (before + [s[k]]) + after;
    WithinAppend(before + [s[k]], after, d);
    WithinAppend(before, after, d);
    assert (before + [s[k]])[..k] == before;
  }

  lemma SameWithoutOne(a: seq<Memory>, b: seq<Memory>, j: nat, k: nat)
    requires multiset(a) == multiset(b) && j < |a| && k < |b| && a[j] == b[k]
    ensures multiset(a[..j] + a[j + 1..]) == multiset(b[..k] + b[k + 1..])
  {
    RemoveOne(a, j, 0.0);
    RemoveOne(b, k, 0.0);
    hide Within;
    assert multiset(a[..j] + a[j + 1..]) == multiset(a) - multiset{a[j]};
    assert multiset(b[..k] + b[k + 1..]) == multiset(b) - multiset{b[k]};
  }

  /** Rearranging does not change the count. */
  lemma {:induction false} WithinPermuted(a: seq<Memory>, b: seq<Memory>, d: real)
    requires multiset(a) == multiset(b)
    ensures Within(a, d) == Within(b, d)
    decreases |a|
  {
    hide Within;
    if a == [] {
      assert |multiset(b)| == 0;
    } else {
      assert a[0] in multiset(b);
      var k :| 0 <= k < |b| && b[k] == a[0];
      RemoveOne(a, 0, d);
      RemoveOne(b, k, d);
      SameWithoutOne(a, b, 0, k);
      WithinPermuted(a[..0] + a[1..], b[..k] + b[k + 1..], d);
    }
  }

  lemma {:induction false} WithinBounds(s: seq<Memory>, d: real)
    ensures Within(s, d) <= |s|
    ensures (forall i | 0 <= i < |s| :: s[i].distance <= d) ==> Within(s, d) == |s|
    ensures (forall i | 0 <= i < |s| :: s[i].distance > d) ==> Within(s, d) == 0
  {
    if s != [] {
      WithinBounds(s[..|s| - 1], d);
    }
  }

  ghost predicate Ascending(s: seq<Memory>) {
    forall i, j | 0 <= i < j < |s| :: s[i].distance <= s[j].distance
  }

  lemma WithinSplit(s: seq<Memory>, d: real, j: nat)
    requires j <= |s|
    ensures Within(s, d) == Within(s[..j], d) + Within(s[j..], d)
  {
    assert s == s[..j] + s[j..];
    WithinAppend(s[..j], s[j..], d);
  }

  /** In a list sorted by distance, with `s[j]` farther than `d`, at most the first `j` are within. */
  lemma SortedWithin(s: seq<Memory>, d: real, j: nat)
    requires Ascending(s) && j < |s| && s[j].distance > d
    ensures Within(s, d) <= j
  {
    hide Within;
    WithinSplit(s, d, j);
    WithinBounds(s[..j], d);
    WithinBounds(s[j..], d);
  }

  /** In a list sorted by distance the first `j + 1` are within the distance of `s[j]`. */
  lemma FirstAreWithin(s: seq<Memory>, j: nat)
    requires Ascending(s) && j < |s|
    ensures Within(s, s[j].distance) >= j + 1
  {
    hide Within;
    WithinSplit(s, s[j].distance, j + 1);
    WithinBounds(s[..j + 1], s[j].distance);
  }

  // ----- The distances of a nearest answer -----

  lemma WithinHitsAndRest(memories: seq<Memory>, limit: nat, hits: seq<Memory>, rest: seq<Memory>, d: real)
    requires Nearest(memories, limit, hits, rest)
    ensures Within(memories, d) == Within(hits, d) + Within(rest, d)
  {
    hide Within;
    assert multiset(hits + rest) == multiset(memories);
    WithinPermuted(memories, hits + rest, d);
    WithinAppend(hits, rest, d);
  }

  /** The `j`-th hit has the `j`-th smallest distance. */
  lemma HitRank(memories: seq<Memory>, limit: nat, hits: seq<Memory>, rest: seq<Memory>, j: nat, d: real)
    requires Nearest(memories, limit, hits, rest) && j < |hits|
    ensures Within(memories, hits[j].distance) >= j + 1
    ensures d < hits[j].distance ==> Within(memories, d) <= j
  {
    hide Within;
    WithinHitsAndRest(memories, limit, hits, rest, hits[j].distance);
    WithinHitsAndRest(memories, limit, hits, rest, d);
    FirstAreWithin(hits, j);
    if d < hits[j].distance {
      SortedWithin(hits, d, j);
      forall i | 0 <= i < |rest|
        ensures rest[i].distance > d
      {
        assert hits[j].distance <= rest[i].distance;
      }
      WithinBounds(rest, d);
    }
  }

  /** All nearest answers have the same distances, whatever ties they break. */
  lemma DistancesAreUnique(
    memories: seq<Memory>, limit: nat, a: seq<Memory>, aRest: seq<Memory>, b: seq<Memory>, bRest: seq<Memory>)
    requires Nearest(memories, limit, a, aRest) && Nearest(memories, limit, b, bRest)
    ensures |a| == |b| && forall j | 0 <= j < |a| :: a[j].distance == b[j].distance
  {
    forall j | 0 <= j < |a|
      ensures a[j].distance == b[j].distance
    {
      HitRank(memories, limit, a, aRest, j, b[j].distance);
      HitRank(memories, limit, b, bRest, j, a[j].distance);
    }
  }

  // ----- The merge -----

  lemma DistanceOrder()
    ensures TotalOrder(ByDistance())
  {
  }

  /** A sorted list, cut: nearest to begin with, and the others. */
  lemma SortedIsNearest(s: seq<Memory>, limit: nat)
    ensures var sorted := Sort(s, ByDistance());
            var n := if |s| < limit then |s| else limit;
            && |sorted| == |s| && Truncate(sorted, limit) == sorted[..n]
            && Nearest(s, limit, sorted[..n], sorted[n..])
  {
    hide Sort, ByDistance;
    var sorted := Sort(s, ByDistance());
    SortedByDistance(s);
    SortIsPermutation(s, ByDistance());
    var n := if |s| < limit then |s| else limit;
    assert sorted == sorted[..n] + sorted[n..];
  }

  lemma SortedByDistance(s: seq<Memory>)
    ensures Ascending(Sort(s, ByDistance()))
  {
    hide Sort;
    DistanceOrder();
    SortIsSorted(s, ByDistance());
    var sorted := Sort(s, ByDistance());
    assert forall i, j | 0 <= i < j < |sorted| :: ByDistance()(sorted[i], sorted[j]);
  }

  /** Each partition was asked for its nearest `limit`. */
  ghost predicate Answered(parts: seq<seq<Memory>>, limit: nat, answers: seq<seq<Memory>>, rests: seq<seq<Memory>>) {
    && |answers| == |parts| == |rests|
    && forall i | 0 <= i < |parts| :: Nearest(parts[i], limit, answers[i], rests[i])
  }

  lemma FlattenStep(lists: seq<seq<Memory>>)
    requires lists != []
    ensures var k := |lists| - 1;
            && Flatten(lists) == Flatten(lists[..k]) + lists[k]
            && multiset(Flatten(lists)) == multiset(Flatten(lists[..k])) + multiset(lists[k])
  {
  }

  /** All of the parts is all of the answers and all of the rests. */
  lemma {:induction false} FlattenSplits(parts: seq<seq<Memory>>, limit: nat, answers: seq<seq<Memory>>, rests: seq<seq<Memory>>)
    requires Answered(parts, limit, answers, rests)
    ensures multiset(Flatten(parts)) == multiset(Flatten(answers)) + multiset(Flatten(rests))
    ensures |Flatten(answers)| <= |Flatten(parts)|
    ensures |Flatten(answers)| < |Flatten(parts)| ==> |Flatten(answers)| >= limit
    decreases |parts|
  {
    if parts == [] {
      assert Flatten(parts) == Flatten(answers) == Flatten(rests) == [];
    } else {
      var n := |parts| - 1;
      FlattenSplits(parts[..n], limit, answers[..n], rests[..n]);
      assert Nearest(parts[n], limit, answers[n], rests[n]);
      FlattenStep(parts);
      FlattenStep(answers);
      FlattenStep(rests);
      hide Flatten;
    }
  }

  /** What a partition left out has `limit` answers before it. */
  lemma {:induction false} LeftOutIsFar(
    parts: seq<seq<Memory>>, limit: nat, answers: seq<seq<Memory>>, rests: seq<seq<Memory>>, k: nat)
    requires Answered(parts, limit, answers, rests) && k < |Flatten(rests)|
    ensures Within(Flatten(answers), Flatten(rests)[k].distance) >= limit
    decreases |parts|
  {
    hide Within, Nearest;
    assert Flatten([]) == [];
    FlattenStep(rests);
    FlattenStep(answers);
    hide Flatten;
    var n := |parts| - 1;
    var far := Flatten(rests)[k];
    var before := Flatten(rests[..n]);
    WithinAppend(Flatten(answers[..n]), answers[n], far.distance);
    if k < |before| {
      LeftOutIsFar(parts[..n], limit, answers[..n], rests[..n], k);
    } else {
      assert Nearest(parts[n], limit, answers[n], rests[n]);
      HitsBeforeRest(parts[n], limit, answers[n], rests[n], k - |before|);
    }
  }

  lemma HitsBeforeRest(memories: seq<Memory>, limit: nat, hits: seq<Memory>, rest: seq<Memory>, k: nat)
    requires Nearest(memories, limit, hits, rest) && k < |rest|
    ensures Within(hits, rest[k].distance) == limit
  {
    assert |multiset(memories)| == |multiset(hits)| + |multiset(rest)|;
    WithinBounds(hits, rest[k].distance);
  }

  /** Merging exact partition answers is an exact answer for all of the partitions together. */
  lemma MergeIsNearest(
    parts: seq<seq<Memory>>, limit: nat, answers: seq<seq<Memory>>, rests: seq<seq<Memory>>) returns (rest: seq<Memory>)
    requires Answered(parts, limit, answers, rests)
    ensures Nearest(Flatten(parts), limit, Merge(answers, limit), rest)
  {
    hide Answered, Sort, Flatten, ByDistance, Within;
    var found, others := Flatten(answers), Flatten(rests);
    FlattenSplits(parts, limit, answers, rests);
    SortedIsNearest(found, limit);
    var sorted := Sort(found, ByDistance());
    var n := if |found| < limit then |found| else limit;
    var hits := sorted[..n];
    rest := sorted[n..] + others;
    forall i, k | 0 <= i < |hits| && 0 <= k < |others|
      ensures hits[i].distance <= others[k].distance
    {
      LeftOutIsFar(parts, limit, answers, rests, k);
      if hits[i].distance > others[k].distance {
        HitRank(found, limit, hits, sorted[n..], i, others[k].distance);
      }
    }
  }

  /** Partitioned top-k is global top-k: the merged answer has exactly the distances of the
      nearest `limit` over all of the queried partitions. */
  lemma PartitionedIsGlobal(parts: seq<seq<Memory>>, limit: nat, answers: seq<seq<Memory>>, rests: seq<seq<Memory>>)
    requires Answered(parts, limit, answers, rests)
    ensures var merged, whole := Merge(answers, limit), Truncate(Sort(Flatten(parts), ByDistance()), limit);
            |merged| == |whole| && forall j | 0 <= j < |merged| :: merged[j].distance == whole[j].distance
  {
    hide Answered, Sort, Flatten, ByDistance, Nearest;
    var rest := MergeIsNearest(parts, limit, answers, rests);
    SortedIsNearest(Flatten(parts), limit);
    var all := Flatten(parts);
    var n := if |all| < limit then |all| else limit;
    DistancesAreUnique(all, limit, Merge(answers, limit), rest, Sort(all, ByDistance())[..n], Sort(all, ByDistance())[n..]);
  }

  // ----- Partitions of types -----

  /** What is not known of the store: whether it keeps an id twice that one batch repeats. */
  datatype Store = Store(repeatsIds: bool)

  /** What the partition with this suffix holds after an upsert into empty partitions. Every
      memory is in `all`; the batch for `all` repeats those whose own type is spelled `all`. */
  function PartitionOf(store: Store, memories: seq<Memory>, suffix: string): seq<Memory> {
    (if suffix == "all" then memories else [])
    + (if suffix == "all" && !store.repeatsIds then [] else OfSuffix(memories, suffix))
  }

  /** The batches of the bucketing loop are these partitions. */
  lemma BatchesArePartitions(memories: seq<Memory>, byType: map<string, seq<Memory>>, suffix: string)
    requires Bucketed(memories, |memories|, byType)
    ensures (if suffix in byType then byType[suffix] else []) == PartitionOf(Store(true), memories, suffix)
  {
    hide OfSuffix;
    assert memories[..|memories|] == memories;
  }

  /** The partitions a query asks: those of the types, or `all` when no type is given. */
  function Targets(types: seq<string>): seq<string> {
    if types == [] then ["all"] else seq(|types|, t requires 0 <= t < |types| => Suffix(types[t]))
  }

  function Partitions(store: Store, memories: seq<Memory>, targets: seq<string>): seq<seq<Memory>> {
    seq(|targets|, t requires 0 <= t < |targets| => PartitionOf(store, memories, targets[t]))
  }

  /** What the typed query returns: the one answer as it is, or the merged ones. */
  function QueryResult(types: seq<string>, answers: seq<seq<Memory>>, limit: nat): seq<Memory>
    requires |answers| == |Targets(types)|
  {
    if types == [] then answers[0] else Merge(answers, limit)
  }

  predicate HeldIn(m: Memory, suffix: string) {
    suffix == "all" || BelongsTo(m, suffix)
  }

  predicate HeldTwiceIn(store: Store, m: Memory, suffix: string) {
    store.repeatsIds && suffix == "all" && BelongsTo(m, suffix)
  }

  /** The memory is in one of the partitions. */
  predicate Wanted(m: Memory, targets: seq<string>) {
    exists t :: 0 <= t < |targets| && HeldIn(m, targets[t])
  }

  /** The memory is in at most one of the listed partitions, and there once: a store that repeats
      ids has a memory twice in `all` whose own type is spelled `all`. */
  ghost predicate ListedOnce(store: Store, m: Memory, targets: seq<string>) {
    && (forall s, t | 0 <= s < t < |targets| :: !(HeldIn(m, targets[s]) && HeldIn(m, targets[t])))
    && (forall t | 0 <= t < |targets| :: !HeldTwiceIn(store, m, targets[t]))
  }

  /** The memories of the partitions, each once. */
  function AllWanted(memories: seq<Memory>, targets: seq<string>): seq<Memory> {
    if memories == [] then []
    else
      var n := |memories| - 1;
      AllWanted(memories[..n], targets) + if Wanted(memories[n], targets) then [memories[n]] else []
  }

  /** The memory, as often as one partition holds it. */
  function CopiesIn(store: Store, m: Memory, suffix: string): seq<Memory> {
    (if suffix == "all" then [m] else [])
    + (if BelongsTo(m, suffix) && (suffix != "all" || store.repeatsIds) then [m] else [])
  }

  function Copies(store: Store, m: Memory, targets: seq<string>): seq<Memory> {
    if targets == [] then []
    else
      var k := |targets| - 1;
      Copies(store, m, targets[..k]) + CopiesIn(store, m, targets[k])
  }

  lemma CopiesInOf(store: Store, m: Memory, suffix: string)
    ensures (forall x | x in CopiesIn(store, m, suffix) :: x == m)
    ensures |CopiesIn(store, m, suffix)| > 0 <==> HeldIn(m, suffix)
    ensures |CopiesIn(store, m, suffix)| > 1 <==> HeldTwiceIn(store, m, suffix)
  {
    hide BelongsTo;
  }

  lemma {:induction false} CopiesOf(store: Store, m: Memory, targets: seq<string>)
    ensures (forall x | x in Copies(store, m, targets) :: x == m)
    ensures |Copies(store, m, targets)| > 0 <==> Wanted(m, targets)
    ensures |Copies(store, m, targets)| <= 1 <==> ListedOnce(store, m, targets)
  {
    hide HeldIn, HeldTwiceIn, CopiesIn;
    if targets != [] {
      var k := |targets| - 1;
      CopiesOf(store, m, targets[..k]);
      CopiesInOf(store, m, targets[k]);
      assert forall t | 0 <= t < k :: targets[..k][t] == targets[t];
    }
  }

  lemma PartitionBag(store: Store, memories: seq<Memory>, suffix: string)
    ensures multiset(PartitionOf(store, memories, suffix))
            == (if suffix == "all" then multiset(memories) else multiset{})
               + (if suffix == "all" && !store.repeatsIds then multiset{} else multiset(OfSuffix(memories, suffix)))
  {
    hide OfSuffix;
  }

  lemma CopiesBag(store: Store, m: Memory, suffix: string)
    ensures multiset(CopiesIn(store, m, suffix))
            == (if suffix == "all" then multiset{m} else multiset{})
               + (if BelongsTo(m, suffix) && (suffix != "all" || store.repeatsIds) then multiset{m} else multiset{})
  {
    hide BelongsTo;
  }

  lemma PartitionStep(store: Store, memories: seq<Memory>, suffix: string)
    requires memories != []
    ensures var n := |memories| - 1;
            multiset(PartitionOf(store, memories, suffix))
            == multiset(PartitionOf(store, memories[..n], suffix)) + multiset(CopiesIn(store, memories[n], suffix))
  {
    hide *;
    var n := |memories| - 1;
    PartitionBag(store, memories, suffix);
    PartitionBag(store, memories[..n], suffix);
    CopiesBag(store, memories[n], suffix);
    OfSuffixStep(memories, n, suffix);
    assert memories[..n + 1] == memories == memories[..n] + [memories[n]];
    assert multiset(memories) == multiset(memories[..n]) + multiset{memories[n]};
    assert multiset(OfSuffix(memories, suffix))
        == multiset(OfSuffix(memories[..n], suffix)) + if BelongsTo(memories[n], suffix) then multiset{memories[n]} else multiset{};
  }

  lemma PartitionsStep(store: Store, memories: seq<Memory>, targets: seq<string>)
    requires targets != []
    ensures var k := |targets| - 1;
            multiset(Flatten(Partitions(store, memories, targets)))
            == multiset(Flatten(Partitions(store, memories, targets[..k]))) + multiset(PartitionOf(store, memories, targets[k]))
  {
    hide PartitionOf, Flatten;
    var k := |targets| - 1;
    assert Partitions(store, memories, targets)[..k] == Partitions(store, memories, targets[..k]);
    FlattenStep(Partitions(store, memories, targets));
  }

  lemma {:induction false} FlattenOne(store: Store, memories: seq<Memory>, targets: seq<string>)
    requires memories != []
    ensures var n := |memories| - 1;
            multiset(Flatten(Partitions(store, memories, targets)))
            == multiset(Flatten(Partitions(store, memories[..n], targets))) + multiset(Copies(store, memories[n], targets))
    decreases |targets|
  {
    hide CopiesIn, PartitionOf, Flatten, Partitions;
    var n, k := |memories| - 1, |targets| - 1;
    if targets == [] {
      NoTargetsHoldNothing(store, memories);
      NoTargetsHoldNothing(store, memories[..n]);
    } else {
      FlattenOne(store, memories, targets[..k]);
      PartitionsStep(store, memories, targets);
      PartitionsStep(store, memories[..n], targets);
      PartitionStep(store, memories, targets[k]);
    }
  }

  lemma NoTargetsHoldNothing(store: Store, memories: seq<Memory>)
    ensures Flatten(Partitions(store, memories, [])) == []
  {
    assert Partitions(store, memories, []) == [];
  }

  lemma AllWantedStep(memories: seq<Memory>, targets: seq<string>)
    requires memories != []
    ensures var n := |memories| - 1;
            AllWanted(memories, targets)
            == AllWanted(memories[..n], targets) + if Wanted(memories[n], targets) then [memories[n]] else []
  {
  }

  lemma SizesStep(store: Store, memories: seq<Memory>, targets: seq<string>)
    requires memories != []
    ensures var n := |memories| - 1;
            && |Flatten(Partitions(store, memories, targets))|
               == |Flatten(Partitions(store, memories[..n], targets))| + |Copies(store, memories[n], targets)|
            && |AllWanted(memories, targets)|
               == |AllWanted(memories[..n], targets)| + if Wanted(memories[n], targets) then 1 else 0
  {
    FlattenOne(store, memories, targets);
    AllWantedStep(memories, targets);
    hide *;
    var n := |memories| - 1;
    var before, held := Flatten(Partitions(store, memories[..n], targets)), Flatten(Partitions(store, memories, targets));
    assert |multiset(held)| == |multiset(before)| + |multiset(Copies(store, memories[n], targets))|;
  }

  lemma {:induction false} HeldAtLeastOnce(store: Store, memories: seq<Memory>, targets: seq<string>)
    ensures |AllWanted(memories, targets)| <= |Flatten(Partitions(store, memories, targets))|
    ensures |AllWanted(memories, targets)| == |Flatten(Partitions(store, memories, targets))|
            <==> forall m | m in memories :: ListedOnce(store, m, targets)
    decreases |memories|
  {
    hide *;
    if memories == [] {
      NothingHeld(store, targets);
    } else {
      var n := |memories| - 1;
      assert memories == memories[..n] + [memories[n]];
      HeldAtLeastOnce(store, memories[..n], targets);
      SizesStep(store, memories, targets);
      CopiesOf(store, memories[n], targets);
    }
  }

  lemma {:induction false} HeldOnce(store: Store, memories: seq<Memory>, targets: seq<string>)
    requires forall m | m in memories :: ListedOnce(store, m, targets)
    ensures multiset(Flatten(Partitions(store, memories, targets))) == multiset(AllWanted(memories, targets))
    decreases |memories|
  {
    hide *;
    if memories == [] {
      NothingHeld(store, targets);
    } else {
      var n := |memories| - 1;
      HeldOnce(store, memories[..n], targets);
      FlattenOne(store, memories, targets);
      CopiesOf(store, memories[n], targets);
      var copies := Copies(store, memories[n], targets);
      assert |copies| == 1 ==> copies[0] in copies && copies == [memories[n]];
      AllWantedStep(memories, targets);
    }
  }

  lemma {:induction false} NothingHeld(store: Store, targets: seq<string>)
    ensures Flatten(Partitions(store, [], targets)) == [] && AllWanted([], targets) == []
    decreases |targets|
  {
    if targets != [] {
      var k := |targets| - 1;
      NothingHeld(store, targets[..k]);
      assert Partitions(store, [], targets)[..k] == Partitions(store, [], targets[..k]);
    }
  }

  /** The partitions hold each wanted memory exactly once, if and only if no memory is listed
      more than once. */
  lemma PartitionsHoldEachOnceIff(store: Store, memories: seq<Memory>, targets: seq<string>)
    ensures multiset(Flatten(Partitions(store, memories, targets))) == multiset(AllWanted(memories, targets))
            <==> forall m | m in memories :: ListedOnce(store, m, targets)
  {
    hide *;
    HeldAtLeastOnce(store, memories, targets);
    if forall m | m in memories :: ListedOnce(store, m, targets) {
      HeldOnce(store, memories, targets);
    }
    var a, b := Flatten(Partitions(store, memories, targets)), AllWanted(memories, targets);
    assert |multiset(a)| == |a| && |multiset(b)| == |b|;
  }

  // ----- The typed query -----

  ghost predicate SameDistances(a: seq<Memory>, b: seq<Memory>) {
    |a| == |b| && forall j | 0 <= j < |a| :: a[j].distance == b[j].distance
  }

  /** With types or without, the query answers exactly for all its partitions together. */
  lemma ResultIsNearest(
    store: Store, memories: seq<Memory>, types: seq<string>, limit: nat, answers: seq<seq<Memory>>, rests: seq<seq<Memory>>)
    returns (rest: seq<Memory>)
    requires Answered(Partitions(store, memories, Targets(types)), limit, answers, rests)
    ensures |answers| == |Targets(types)|
    ensures Nearest(Flatten(Partitions(store, memories, Targets(types))), limit, QueryResult(types, answers, limit), rest)
  {
    hide PartitionOf, Suffix, Merge, Nearest;
    var parts := Partitions(store, memories, Targets(types));
    if types == [] {
      assert parts == [PartitionOf(store, memories, "all")] && parts[..0] == [];
      assert Flatten(parts) == Flatten([]) + parts[0] == parts[0];
      rest := rests[0];
    } else {
      rest := MergeIsNearest(parts, limit, answers, rests);
    }
  }

  /** For every list of types, the empty one included: when no memory is listed more than once,
      the query finds the nearest of all memories in the partitions it asks. And only then does
      it do so for limits that do not cut anything off. */
  lemma TypedQueryFindsNearestIff(
    store: Store, memories: seq<Memory>, types: seq<string>, limit: nat, answers: seq<seq<Memory>>, rests: seq<seq<Memory>>)
    requires Answered(Partitions(store, memories, Targets(types)), limit, answers, rests)
    ensures |answers| == |Targets(types)|
    ensures var found := QueryResult(types, answers, limit);
            var whole := Truncate(Sort(AllWanted(memories, Targets(types)), ByDistance()), limit);
            && ((forall m | m in memories :: ListedOnce(store, m, Targets(types))) ==> SameDistances(found, whole))
            && (limit >= |Flatten(Partitions(store, memories, Targets(types)))| && SameDistances(found, whole) ==>
                  forall m | m in memories :: ListedOnce(store, m, Targets(types)))
  {
    hide Answered, Partitions, Targets, QueryResult, ListedOnce, AllWanted, Sort, ByDistance, Flatten;
    var targets := Targets(types);
    var wanted, held := AllWanted(memories, targets), Flatten(Partitions(store, memories, targets));
    var rest := ResultIsNearest(store, memories, types, limit, answers, rests);
    var found := QueryResult(types, answers, limit);
    PartitionsHoldEachOnceIff(store, memories, targets);
    HeldAtLeastOnce(store, memories, targets);
    SortedIsNearest(wanted, limit);
    var n := if |wanted| < limit then |wanted| else limit;
    var sorted := Sort(wanted, ByDistance());
    if forall m | m in memories :: ListedOnce(store, m, targets) {
      NearestOfPermuted(held, wanted, limit, found, rest);
      DistancesAreUnique(wanted, limit, found, rest, sorted[..n], sorted[n..]);
    }
  }

  /** The `p`-th memory at distance 0, all others at distance 1. */
  function Nearby(memories: seq<Memory>, p: nat): seq<Memory> {
    seq(|memories|, i requires 0 <= i < |memories| => memories[i].(distance := if i == p then 0.0 else 1.0))
  }

  ghost predicate OthersFar(memories: seq<Memory>, p: nat) {
    forall i | 0 <= i < |memories| :: memories[i].distance == if i == p then 0.0 else 1.0
  }

  /** Nearer than 1 the partitions hold the `p`-th memory as often as it is listed. */
  lemma {:induction false} HeldNear(store: Store, memories: seq<Memory>, targets: seq<string>, p: nat, d: real)
    requires p < |memories| && memories[p].distance <= d
    ensures Within(Flatten(Partitions(store, memories, targets)), d) >= |Copies(store, memories[p], targets)|
    decreases |memories|
  {
    hide *;
    var n := |memories| - 1;
    var before, held := Flatten(Partitions(store, memories[..n], targets)), Flatten(Partitions(store, memories, targets));
    var copies := Copies(store, memories[n], targets);
    FlattenOne(store, memories, targets);
    assert multiset(held) == multiset(before + copies);
    WithinPermuted(held, before + copies, d);
    WithinAppend(before, copies, d);
    if p < n {
      HeldNear(store, memories[..n], targets, p, d);
    } else {
      CopiesOf(store, memories[n], targets);
      assert forall i | 0 <= i < |copies| :: copies[i] in copies;
      WithinBounds(copies, d);
    }
  }

  /** Among the wanted memories, each once, at most one is nearer than 1. */
  lemma {:induction false} OneWantedNear(memories: seq<Memory>, targets: seq<string>, p: nat, d: real)
    requires OthersFar(memories, p) && d < 1.0
    ensures Within(AllWanted(memories, targets), d) <= if p < |memories| then 1 else 0
    decreases |memories|
  {
    if memories != [] {
      var n := |memories| - 1;
      OneWantedNear(memories[..n], targets, p, d);
      AllWantedStep(memories, targets);
      hide AllWanted, Wanted;
      var rest := AllWanted(memories[..n], targets);
      WithinAppend(rest, [memories[n]], d);
      WithinAppend(rest, [], d);
      assert rest + [] == rest;
    }
  }

  /** And with the same types at other distances: a memory that is listed more than once shows up
      in the answer, for every limit of at least 2. */
  lemma RepetitionShowsUp(
    store: Store, memories: seq<Memory>, types: seq<string>, limit: nat, p: nat,
    answers: seq<seq<Memory>>, rests: seq<seq<Memory>>)
    requires limit >= 2 && p < |memories| && !ListedOnce(store, memories[p], Targets(types))
    requires Answered(Partitions(store, Nearby(memories, p), Targets(types)), limit, answers, rests)
    ensures |answers| == |Targets(types)|
    ensures !SameDistances(QueryResult(types, answers, limit),
                           Truncate(Sort(AllWanted(Nearby(memories, p), Targets(types)), ByDistance()), limit))
  {
    var moved, targets := Nearby(memories, p), Targets(types);
    NearbyIs(memories, p);
    SameTypeSameListing(store, memories[p], moved[p], targets);
    hide *;
    var held, wanted := Flatten(Partitions(store, moved, targets)), AllWanted(moved, targets);
    var rest := ResultIsNearest(store, moved, types, limit, answers, rests);
    TwoFoundNear(store, moved, targets, limit, p, QueryResult(types, answers, limit), rest);
    OneBestNear(moved, targets, limit, p);
    SecondDiffers(QueryResult(types, answers, limit), Truncate(Sort(wanted, ByDistance()), limit));
  }

  lemma NearbyIs(memories: seq<Memory>, p: nat)
    ensures |Nearby(memories, p)| == |memories| && OthersFar(Nearby(memories, p), p)
    ensures p < |memories| ==> Nearby(memories, p)[p].memoryType == memories[p].memoryType && Nearby(memories, p)[p].distance == 0.0
  {
  }

  lemma TwoFoundNear(
    store: Store, memories: seq<Memory>, targets: seq<string>, limit: nat, p: nat, found: seq<Memory>, rest: seq<Memory>)
    requires limit >= 2 && p < |memories| && memories[p].distance == 0.0 && !ListedOnce(store, memories[p], targets)
    requires Nearest(Flatten(Partitions(store, memories, targets)), limit, found, rest)
    ensures |found| >= 2 && found[1].distance <= 0.0
  {
    hide ListedOnce, Partitions, Flatten, Within, Copies;
    var held := Flatten(Partitions(store, memories, targets));
    CopiesOf(store, memories[p], targets);
    HeldNear(store, memories, targets, p, 0.0);
    WithinBounds(held, 0.0);
    HitRank(held, limit, found, rest, 1, 0.0);
  }

  lemma OneBestNear(memories: seq<Memory>, targets: seq<string>, limit: nat, p: nat)
    requires OthersFar(memories, p)
    ensures var whole := Truncate(Sort(AllWanted(memories, targets), ByDistance()), limit);
            |whole| >= 2 ==> whole[1].distance >= 1.0
  {
    var wanted := AllWanted(memories, targets);
    hide AllWanted, Sort, ByDistance, Within, OthersFar;
    SortedIsNearest(wanted, limit);
    var n := if |wanted| < limit then |wanted| else limit;
    var sorted := Sort(wanted, ByDistance());
    if n > 1 && sorted[..n][1].distance < 1.0 {
      HitRank(wanted, limit, sorted[..n], sorted[n..], 1, 0.0);
      OneWantedNear(memories, targets, p, sorted[..n][1].distance);
    }
  }

  lemma SecondDiffers(found: seq<Memory>, whole: seq<Memory>)
    requires |found| >= 2 && found[1].distance <= 0.0 && (|whole| >= 2 ==> whole[1].distance >= 1.0)
    ensures !SameDistances(found, whole)
  {
  }

  /** The partitions hold something within `d` exactly when some wanted memory is. */
  lemma {:induction false} SomethingWithin(store: Store, memories: seq<Memory>, targets: seq<string>, d: real)
    ensures var held, wanted := Flatten(Partitions(store, memories, targets)), AllWanted(memories, targets);
            Within(wanted, d) <= Within(held, d) && (Within(held, d) > 0 ==> Within(wanted, d) > 0)
    decreases |memories|
  {
    hide *;
    if memories == [] {
      NothingHeld(store, targets);
    } else {
      var n := |memories| - 1;
      var before, held := Flatten(Partitions(store, memories[..n], targets)), Flatten(Partitions(store, memories, targets));
      var copies := Copies(store, memories[n], targets);
      var own := if Wanted(memories[n], targets) then [memories[n]] else [];
      SomethingWithin(store, memories[..n], targets, d);
      FlattenOne(store, memories, targets);
      assert multiset(held) == multiset(before + copies);
      WithinPermuted(held, before + copies, d);
      WithinAppend(before, copies, d);
      AllWantedStep(memories, targets);
      WithinAppend(AllWanted(memories[..n], targets), own, d);
      CopiesOf(store, memories[n], targets);
      SameAsOne(copies, memories[n], own, d);
    }
  }

  lemma SameAsOne(copies: seq<Memory>, m: Memory, own: seq<Memory>, d: real)
    requires (forall x | x in copies :: x == m) && own == if |copies| > 0 then [m] else []
    ensures Within(own, d) <= Within(copies, d) && (Within(copies, d) > 0 ==> Within(own, d) > 0)
  {
    assert forall i | 0 <= i < |copies| :: copies[i] in copies;
    WithinBounds(copies, d);
    WithinBounds(own, d);
  }

  lemma {:induction false} SomethingHeld(store: Store, memories: seq<Memory>, targets: seq<string>)
    ensures Flatten(Partitions(store, memories, targets)) == [] <==> AllWanted(memories, targets) == []
    decreases |memories|
  {
    hide *;
    if memories == [] {
      NothingHeld(store, targets);
    } else {
      SomethingHeld(store, memories[..|memories| - 1], targets);
      SizesStep(store, memories, targets);
      CopiesOf(store, memories[|memories| - 1], targets);
    }
  }

  /** For a limit of at most 1 no repetition matters: the query always finds the nearest. */
  lemma NearestOneIsRight(
    store: Store, memories: seq<Memory>, types: seq<string>, limit: nat, answers: seq<seq<Memory>>, rests: seq<seq<Memory>>)
    requires limit <= 1 && Answered(Partitions(store, memories, Targets(types)), limit, answers, rests)
    ensures |answers| == |Targets(types)|
    ensures SameDistances(QueryResult(types, answers, limit),
                          Truncate(Sort(AllWanted(memories, Targets(types)), ByDistance()), limit))
  {
    hide Answered, Partitions, Targets, QueryResult, AllWanted, Sort, ByDistance, Flatten, Within;
    var targets := Targets(types);
    var held, wanted := Flatten(Partitions(store, memories, targets)), AllWanted(memories, targets);
    var rest := ResultIsNearest(store, memories, types, limit, answers, rests);
    var found := QueryResult(types, answers, limit);
    SomethingHeld(store, memories, targets);
    SortedIsNearest(wanted, limit);
    var n := if |wanted| < limit then |wanted| else limit;
    var sorted := Sort(wanted, ByDistance());
    if |found| == 1 {
      var whole := sorted[..n];
      HitRank(held, limit, found, rest, 0, whole[0].distance);
      HitRank(wanted, limit, whole, sorted[n..], 0, found[0].distance);
      SomethingWithin(store, memories, targets, found[0].distance);
      SomethingWithin(store, memories, targets, whole[0].distance);
    }
  }

  lemma SameTypeSameListing(store: Store, a: Memory, b: Memory, targets: seq<string>)
    requires a.memoryType == b.memoryType
    ensures ListedOnce(store, a, targets) <==> ListedOnce(store, b, targets)
  {
    hide Suffix;
    assert forall s :: BelongsTo(a, s) == BelongsTo(b, s);
  }

  lemma NearestOfPermuted(a: seq<Memory>, b: seq<Memory>, limit: nat, hits: seq<Memory>, rest: seq<Memory>)
    requires multiset(a) == multiset(b) && Nearest(a, limit, hits, rest)
    ensures Nearest(b, limit, hits, rest)
  {
    assert |multiset(a)| == |a| && |multiset(b)| == |b|;
  }

  /** Without types every memory is found once, unless its own type is spelled `all`. */
  lemma NoTypesFindAll(store: Store, memories: seq<Memory>)
    ensures AllWanted(memories, Targets([])) == memories
    ensures forall m :: ListedOnce(store, m, Targets([])) <==> !(store.repeatsIds && BelongsTo(m, "all"))
  {
    hide BelongsTo, ListedOnce;
    EveryoneWanted(memories, Targets([]));
    forall m
      ensures ListedOnce(store, m, Targets([])) <==> !(store.repeatsIds && BelongsTo(m, "all"))
    {
      OnlyAll(store, m, Targets([]));
    }
  }

  lemma OnlyAll(store: Store, m: Memory, targets: seq<string>)
    requires targets == ["all"]
    ensures ListedOnce(store, m, targets) <==> !(store.repeatsIds && BelongsTo(m, "all"))
  {
    hide BelongsTo;
    assert targets[0] == "all";
  }

  lemma {:induction false} EveryoneWanted(memories: seq<Memory>, targets: seq<string>)
    requires targets == ["all"]
    ensures AllWanted(memories, targets) == memories
  {
    if memories != [] {
      var n := |memories| - 1;
      EveryoneWanted(memories[..n], targets);
      assert HeldIn(memories[n], targets[0]);
      assert memories == memories[..n] + [memories[n]];
    }
  }

  /** An empty type asks `all`, which repeats what another listed type finds; a type listed twice
      repeats its memories as well. */
  lemma RepeatedTypeRepeatsHits(store: Store, m: Memory, types: seq<string>, answers: seq<seq<Memory>>, rests: seq<seq<Memory>>)
    requires m.memoryType == "decision" && (types == ["Decision", "decision"] || types == ["decision", ""])
    requires Answered(Partitions(store, [m], Targets(types)), 2, answers, rests)
    ensures |answers| == 2 && QueryResult(types, answers, 2) == [m, m] && AllWanted([m], Targets(types)) == [m]
  {
    hide *;
    TwoHeld(store, m, types);
    AnswerOf(Partitions(store, [m], Targets(types)), 2, answers, rests, 0);
    AnswerOf(Partitions(store, [m], Targets(types)), 2, answers, rests, 1);
    OneAnswer(m, answers[0], rests[0]);
    OneAnswer(m, answers[1], rests[1]);
    assert answers == [[m], [m]];
    MergeTwice(m);
    TypesAreMerged(types, answers, 2);
  }

  lemma AnswerOf(parts: seq<seq<Memory>>, limit: nat, answers: seq<seq<Memory>>, rests: seq<seq<Memory>>, i: nat)
    requires Answered(parts, limit, answers, rests) && i < |parts|
    ensures |answers| == |parts| == |rests| && Nearest(parts[i], limit, answers[i], rests[i])
  {
  }

  lemma TypesAreMerged(types: seq<string>, answers: seq<seq<Memory>>, limit: nat)
    requires types != [] && |answers| == |Targets(types)|
    ensures QueryResult(types, answers, limit) == Merge(answers, limit)
  {
  }

  lemma TwoTargets(types: seq<string>)
    requires types == ["Decision", "decision"] || types == ["decision", ""]
    ensures Suffix("decision") == "decision"
    ensures Targets(types) == ["decision", "decision"] || Targets(types) == ["decision", "all"]
  {
    assert LowerAll("Decision") == LowerAll("decision");
    CaseIsFolded("Decision", "decision");
    assert Canonical("decision") == "decision" && Canonical("") == "";
    assert Suffix("decision") == "decision" && Suffix("") == "all";
    hide Suffix, Canonical;
    assert Targets(types) == [Suffix(types[0]), Suffix(types[1])];
  }

  lemma HeldOnceIn(store: Store, m: Memory, suffix: string)
    requires m.memoryType == "decision" && Suffix("decision") == "decision" && (suffix == "decision" || suffix == "all")
    ensures PartitionOf(store, [m], suffix) == [m] && HeldIn(m, suffix)
  {
    OfSuffixStep([m], 0, suffix);
    assert [m][..1] == [m] && [m][..0] == [];
    assert OfSuffix([], suffix) == [];
    assert BelongsTo(m, "decision") && !BelongsTo(m, "all");
    hide BelongsTo, Suffix, OfSuffix;
    assert [] + [m] == [m] && [m] + [] == [m];
  }

  lemma TwoHeld(store: Store, m: Memory, types: seq<string>)
    requires m.memoryType == "decision" && (types == ["Decision", "decision"] || types == ["decision", ""])
    ensures |Targets(types)| == 2 && Partitions(store, [m], Targets(types)) == [[m], [m]] && AllWanted([m], Targets(types)) == [m]
  {
    TwoTargets(types);
    HeldOnceIn(store, m, "decision");
    HeldOnceIn(store, m, "all");
    hide Targets, Suffix, PartitionOf, HeldIn;
    var targets := Targets(types);
    assert HeldIn(m, targets[0]);
    assert AllWanted([m], targets) == AllWanted([], targets) + [m];
  }

  lemma MergeTwice(m: Memory)
    ensures Merge([[m], [m]], 2) == [m, m]
  {
    assert Flatten([]) == [] && Flatten([[m]]) == [] + [m];
    assert [[m], [m]][..1] == [[m]] && Flatten([[m], [m]]) == [m, m];
    assert [m, m][1..] == [m] && [m][1..] == [];
    assert Sort([m], ByDistance()) == [m];
    assert Sort([m, m], ByDistance()) == [m, m];
  }

  lemma OneAnswer(m: Memory, hits: seq<Memory>, rest: seq<Memory>)
    requires Nearest([m], 2, hits, rest)
    ensures hits == [m]
  {
    assert hits[0] in multiset(hits) + multiset(rest);
  }
}
