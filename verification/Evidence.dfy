/** The proof handles and provenance a pack lists: the last one for each key, in key order. */
module Evidence {
  import opened Options
  import opened Contracts

  // ----- Keys and their order -----

  datatype ProofKey = ProofKey(sourceRef: string, sessionId: Option<int>, sessionEventId: Option<int>, proofType: int)

  datatype SourceKey = SourceKey(sessionId: int, sessionEventId: int)

  function KeyOfProof(h: ProofHandle): ProofKey {
    ProofKey(h.sourceRef, h.sessionId, h.sessionEventId, h.proofType)
  }

  function KeyOfSource(h: ProvenanceHandle): SourceKey {
    SourceKey(h.sessionId, h.sessionEventId)
  }

  predicate StringLess(a: string, b: string) {
    b != "" && (a == "" || a[0] < b[0] || (a[0] == b[0] && StringLess(a[1..], b[1..])))
  }

  predicate OptionLess(a: Option<int>, b: Option<int>) {
    b.Some? && (a.None? || a.value < b.value)
  }

  predicate ProofLess(a: ProofKey, b: ProofKey) {
    || StringLess(a.sourceRef, b.sourceRef)
    || (a.sourceRef == b.sourceRef
        && (|| OptionLess(a.sessionId, b.sessionId)
            || (a.sessionId == b.sessionId
                && (|| OptionLess(a.sessionEventId, b.sessionEventId)
                    || (a.sessionEventId == b.sessionEventId && a.proofType < b.proofType)))))
  }

  predicate SourceLess(a: SourceKey, b: SourceKey) {
    a.sessionId < b.sessionId || (a.sessionId == b.sessionId && a.sessionEventId < b.sessionEventId)
  }

  ghost predicate StrictOrder<K(!new)>(less: (K, K) -> bool) {
    && (forall a :: !less(a, a))
    && (forall a, b, c :: less(a, b) && less(b, c) ==> less(a, c))
    && (forall a, b :: a == b || less(a, b) || less(b, a))
  }

  lemma {:induction false} StringLessIsOrder(a: string, b: string, c: string)
    ensures !StringLess(a, a)
    ensures StringLess(a, b) && StringLess(b, c) ==> StringLess(a, c)
    ensures a == b || StringLess(a, b) || StringLess(b, a)
    decreases |a| + |b| + |c|
  {
    if a != "" {
      if b != "" {
        StringLessIsOrder(a[1..], b[1..], if c == "" then "" else c[1..]);
        assert a == [a[0]] + a[1..] && b == [b[0]] + b[1..];
      } else {
        StringLessIsOrder(a[1..], "", "");
      }
    }
  }

  lemma KeyOrders()
    ensures StrictOrder(ProofLess) && StrictOrder(SourceLess)
  {
    forall a, b, c
      ensures !StringLess(a, a) && (StringLess(a, b) && StringLess(b, c) ==> StringLess(a, c))
      ensures a == b || StringLess(a, b) || StringLess(b, a)
    {
      StringLessIsOrder(a, b, c);
    }
    hide StringLess;
    forall a, b, c
      ensures !ProofLess(a, a) && (ProofLess(a, b) && ProofLess(b, c) ==> ProofLess(a, c))
      ensures a == b || ProofLess(a, b) || ProofLess(b, a)
    {
      assert !StringLess(a.sourceRef, a.sourceRef);
    }
  }

  // ----- An ordered map, as the list of its values -----

  /** `insert` into an ordered map: in its place, or instead of the value with the same key. */
  function Put<K, V>(s: seq<V>, keyOf: V -> K, less: (K, K) -> bool, v: V): seq<V> {
    if s == [] then [v]
    else if less(keyOf(v), keyOf(s[0])) then [v] + s
    else if less(keyOf(s[0]), keyOf(v)) then [s[0]] + Put(s[1..], keyOf, less, v)
    else [v] + s[1..]
  }

  ghost predicate InKeyOrder<K, V>(s: seq<V>, keyOf: V -> K, less: (K, K) -> bool) {
    forall i, j | 0 <= i < j < |s| :: less(keyOf(s[i]), keyOf(s[j]))
  }

  /** The last handle with the key `k` is `v`. */
  ghost predicate IsLast<K(!new), V(!new)>(handles: seq<V>, keyOf: V -> K, k: K, v: V) {
    exists i :: 0 <= i < |handles| && handles[i] == v && keyOf(v) == k
                && forall j | i < j < |handles| :: keyOf(handles[j]) != k
  }

  /** For each key of a handle the last handle with it, in key order, and nothing else. */
  ghost predicate ListsLast<K(!new), V(!new)>(handles: seq<V>, keyOf: V -> K, less: (K, K) -> bool, listed: seq<V>) {
    && InKeyOrder(listed, keyOf, less)
    && (forall v :: v in listed <==> IsLast(handles, keyOf, keyOf(v), v))
  }

  lemma {:induction false} PutIsInOrder<K(!new), V(!new)>(s: seq<V>, keyOf: V -> K, less: (K, K) -> bool, v: V)
    requires StrictOrder(less) && InKeyOrder(s, keyOf, less)
    ensures InKeyOrder(Put(s, keyOf, less, v), keyOf, less)
    ensures forall x :: x in Put(s, keyOf, less, v) <==> x == v || (x in s && keyOf(x) != keyOf(v))
  {
    var r := Put(s, keyOf, less, v);
    if s != [] {
      assert s == [s[0]] + s[1..];
      assert forall x | x in s[1..] :: less(keyOf(s[0]), keyOf(x));
      if less(keyOf(s[0]), keyOf(v)) {
        PutIsInOrder(s[1..], keyOf, less, v);
        var rest := Put(s[1..], keyOf, less, v);
        forall j | 0 <= j < |rest|
          ensures less(keyOf(s[0]), keyOf(rest[j]))
        {
          assert rest[j] in rest;
        }
      }
    }
  }

  lemma LastOfLonger<K(!new), V(!new)>(handles: seq<V>, keyOf: V -> K, v: V, x: V)
    ensures IsLast(handles + [v], keyOf, keyOf(x), x) <==> x == v || (IsLast(handles, keyOf, keyOf(x), x) && keyOf(x) != keyOf(v))
  {
    var longer := handles + [v];
    assert longer[|handles|] == v;
    if IsLast(handles, keyOf, keyOf(x), x) && keyOf(x) != keyOf(v) {
      var i :| 0 <= i < |handles| && handles[i] == x && forall j | i < j < |handles| :: keyOf(handles[j]) != keyOf(x);
      assert longer[i] == x;
    }
    if IsLast(longer, keyOf, keyOf(x), x) && x != v {
      var i :| 0 <= i < |longer| && longer[i] == x && forall j | i < j < |longer| :: keyOf(longer[j]) != keyOf(x);
      assert i < |handles| && handles[i] == x;
      assert forall j | i < j < |handles| :: longer[j] == handles[j];
    }
  }

  lemma OneMoreHandle<K(!new), V(!new)>(handles: seq<V>, keyOf: V -> K, less: (K, K) -> bool, listed: seq<V>, v: V)
    requires StrictOrder(less) && ListsLast(handles, keyOf, less, listed)
    ensures ListsLast(handles + [v], keyOf, less, Put(listed, keyOf, less, v))
  {
    hide IsLast, StrictOrder;
    PutIsInOrder(listed, keyOf, less, v);
    forall x
      ensures x in Put(listed, keyOf, less, v) <==> IsLast(handles + [v], keyOf, keyOf(x), x)
    {
      LastOfLonger(handles, keyOf, v, x);
    }
  }

  lemma NothingListed<K(!new), V(!new)>(keyOf: V -> K, less: (K, K) -> bool)
    ensures ListsLast<K, V>([], keyOf, less, [])
  {
  }

  /** The list is determined by the handles. */
  lemma ListsLastOnce<K(!new), V(!new)>(handles: seq<V>, keyOf: V -> K, less: (K, K) -> bool, a: seq<V>, b: seq<V>)
    requires StrictOrder(less) && ListsLast(handles, keyOf, less, a) && ListsLast(handles, keyOf, less, b)
    ensures a == b
  {
    hide IsLast;
    SameInOrder(keyOf, less, a, b);
  }

  lemma {:induction false} SameInOrder<K(!new), V(!new)>(keyOf: V -> K, less: (K, K) -> bool, a: seq<V>, b: seq<V>)
    requires StrictOrder(less) && InKeyOrder(a, keyOf, less) && InKeyOrder(b, keyOf, less)
    requires forall v :: v in a <==> v in b
    ensures a == b
    decreases |a|
  {
    HeadIn(a);
    HeadIn(b);
    if a != [] {
      HeadIsLeast(keyOf, less, b, a[0]);
      HeadIsLeast(keyOf, less, a, b[0]);
      assert a[0] == b[0];
      assert a == [a[0]] + a[1..] && b == [b[0]] + b[1..];
      forall v
        ensures v in a[1..] <==> v in b[1..]
      {
        NotInTail(keyOf, less, a, v);
        NotInTail(keyOf, less, b, v);
      }
      SameInOrder(keyOf, less, a[1..], b[1..]);
    }
  }

  lemma HeadIn<V>(s: seq<V>)
    ensures s == [] || s[0] in s
  {
  }

  lemma HeadIsLeast<K(!new), V(!new)>(keyOf: V -> K, less: (K, K) -> bool, s: seq<V>, x: V)
    requires InKeyOrder(s, keyOf, less) && x in s
    ensures x == s[0] || less(keyOf(s[0]), keyOf(x))
  {
    var i :| 0 <= i < |s| && s[i] == x;
  }

  lemma NotInTail<K(!new), V(!new)>(keyOf: V -> K, less: (K, K) -> bool, s: seq<V>, v: V)
    requires StrictOrder(less) && InKeyOrder(s, keyOf, less) && s != []
    ensures v in s[1..] <==> v in s && v != s[0]
  {
    assert s == [s[0]] + s[1..];
    if v in s[1..] {
      var k :| 0 <= k < |s[1..]| && s[1..][k] == v;
      assert less(keyOf(s[0]), keyOf(s[k + 1]));
    }
  }

  // ----- The handles of items -----

  function AllProofs(items: seq<ContextItem>): seq<ProofHandle> {
    if items == [] then [] else AllProofs(items[..|items| - 1]) + items[|items| - 1].proofs
  }

  function AllSources(items: seq<ContextItem>): seq<ProvenanceHandle> {
    if items == [] then [] else AllSources(items[..|items| - 1]) + items[|items| - 1].provenance
  }

  /** The two loops of `unique_proof_handles`. */
  method UniqueProofHandles(items: seq<ContextItem>) returns (keyed: seq<ProofHandle>)
    ensures ListsLast(AllProofs(items), KeyOfProof, ProofLess, keyed)
  {
    hide ListsLast, StrictOrder;
    keyed := [];
    ghost var seen: seq<ProofHandle> := [];
    KeyOrders();
    NothingListed(KeyOfProof, ProofLess);
    for n := 0 to |items|
      invariant seen == AllProofs(items[..n]) && ListsLast(seen, KeyOfProof, ProofLess, keyed)
    {
      ghost var before := seen;
      var proofs := items[n].proofs;
      for i := 0 to |proofs|
        invariant seen == before + proofs[..i] && ListsLast(seen, KeyOfProof, ProofLess, keyed)
      {
        OneMoreHandle(seen, KeyOfProof, ProofLess, keyed, proofs[i]);
        keyed := Put(keyed, KeyOfProof, ProofLess, proofs[i]);
        seen := seen + [proofs[i]];
      }
      assert proofs[..|proofs|] == proofs && items[..n + 1][..n] == items[..n];
    }
    assert items[..|items|] == items;
  }

  /** The two loops of `unique_sources`. */
  method UniqueSources(items: seq<ContextItem>) returns (keyed: seq<ProvenanceHandle>)
    ensures ListsLast(AllSources(items), KeyOfSource, SourceLess, keyed)
  {
    hide ListsLast, StrictOrder;
    keyed := [];
    ghost var seen: seq<ProvenanceHandle> := [];
    KeyOrders();
    NothingListed(KeyOfSource, SourceLess);
    for n := 0 to |items|
      invariant seen == AllSources(items[..n]) && ListsLast(seen, KeyOfSource, SourceLess, keyed)
    {
      ghost var before := seen;
      var sources := items[n].provenance;
      for i := 0 to |sources|
        invariant seen == before + sources[..i] && ListsLast(seen, KeyOfSource, SourceLess, keyed)
      {
        OneMoreHandle(seen, KeyOfSource, SourceLess, keyed, sources[i]);
        keyed := Put(keyed, KeyOfSource, SourceLess, sources[i]);
        seen := seen + [sources[i]];
      }
      assert sources[..|sources|] == sources && items[..n + 1][..n] == items[..n];
    }
    assert items[..|items|] == items;
  }

  /** Every handle's key has a last handle. */
  lemma {:induction false} SomeLast<K(!new), V(!new)>(handles: seq<V>, keyOf: V -> K, h: V) returns (v: V)
    requires h in handles
    ensures keyOf(v) == keyOf(h) && IsLast(handles, keyOf, keyOf(v), v)
    decreases |handles|
  {
    var n := |handles| - 1;
    if keyOf(handles[n]) == keyOf(h) {
      v := handles[n];
    } else {
      assert h in handles[..n];
      v := SomeLast(handles[..n], keyOf, h);
      LastOfLonger(handles[..n], keyOf, handles[n], v);
      assert handles == handles[..n] + [handles[n]];
    }
  }

  lemma {:induction false} InAllProofs(items: seq<ContextItem>, h: ProofHandle)
    ensures h in AllProofs(items) <==> exists x :: x in items && h in x.proofs
  {
    if items != [] {
      var n := |items| - 1;
      InAllProofs(items[..n], h);
      assert items == items[..n] + [items[n]];
    }
  }

  /** Both handles prove the same: by source, session, event and kind of proof. */
  predicate SameProof(a: ProofHandle, b: ProofHandle) {
    a.sourceRef == b.sourceRef && a.sessionId == b.sessionId && a.sessionEventId == b.sessionEventId && a.proofType == b.proofType
  }

  ghost predicate IsListed(keyed: seq<ProofHandle>, h: ProofHandle) {
    exists v :: v in keyed && SameProof(v, h)
  }

  ghost predicate NoneTwice(keyed: seq<ProofHandle>) {
    forall i, j | 0 <= i < j < |keyed| :: !SameProof(keyed[i], keyed[j])
  }

  lemma SameProofSameKey(a: ProofHandle, b: ProofHandle)
    ensures SameProof(a, b) <==> KeyOfProof(a) == KeyOfProof(b)
  {
  }

  lemma OrderedOnce(keyed: seq<ProofHandle>)
    requires InKeyOrder(keyed, KeyOfProof, ProofLess)
    ensures NoneTwice(keyed)
  {
    KeyOrders();
    hide ProofLess, KeyOfProof, SameProof;
    forall i, j | 0 <= i < j < |keyed|
      ensures !SameProof(keyed[i], keyed[j])
    {
      SameProofSameKey(keyed[i], keyed[j]);
      assert ProofLess(KeyOfProof(keyed[i]), KeyOfProof(keyed[j]));
    }
  }

  /** Whatever a handle of the items proves is listed once, and every listed handle is one of theirs. */
  lemma ListedKeys(items: seq<ContextItem>, keyed: seq<ProofHandle>)
    requires ListsLast(AllProofs(items), KeyOfProof, ProofLess, keyed)
    ensures forall x, h | x in items && h in x.proofs :: IsListed(keyed, h)
    ensures forall v | v in keyed :: exists x :: x in items && v in x.proofs
    ensures NoneTwice(keyed)
  {
    OrderedOnce(keyed);
    var all := AllProofs(items);
    hide AllProofs, InKeyOrder, ProofLess, KeyOfProof, NoneTwice, SameProof;
    forall x, h | x in items && h in x.proofs
      ensures IsListed(keyed, h)
    {
      InAllProofs(items, h);
      var v := SomeLast(all, KeyOfProof, h);
      SameProofSameKey(v, h);
    }
    forall v | v in keyed
      ensures exists x :: x in items && v in x.proofs
    {
      assert IsLast(all, KeyOfProof, KeyOfProof(v), v);
      InAllProofs(items, v);
    }
  }
}
