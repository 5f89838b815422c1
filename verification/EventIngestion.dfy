/** Session events: the one-row insert, the batched insert, and what the batch answers. */
module EventIngestion {
  import opened Options

  type RowId = int

  /** A row of `session_events` without its id; `body` stands for the columns no constraint names. */
  datatype Event = Event(session: int, eventId: string, key: string, body: string)

  type Table = map<RowId, Event>

  datatype Appended = Appended(id: RowId, duplicate: bool)

  /** The rows clash in `(session_id, idempotency_key)` or in `(session_id, event_id)`. */
  predicate Conflicts(a: Event, b: Event) {
    a.session == b.session && (a.key == b.key || a.eventId == b.eventId)
  }

  ghost predicate Unique(t: Table) {
    forall i, j | i in t && j in t && i != j :: !Conflicts(t[i], t[j])
  }

  predicate Blocked(t: Table, e: Event) {
    exists i :: i in t && Conflicts(t[i], e)
  }

  /** The generated ids: one for each row, all new. */
  ghost predicate NewIds(t: Table, params: seq<Event>, ids: seq<RowId>) {
    && |ids| == |params|
    && (forall i | 0 <= i < |ids| :: ids[i] !in t)
    && (forall i, j | 0 <= i < j < |ids| :: ids[i] != ids[j])
  }

  /** `insert ... on conflict do nothing` of one row. */
  function InsertRow(t: Table, e: Event, id: RowId): Table {
    if Blocked(t, e) then t else t[id := e]
  }

  /** The table after the first `n` one-row inserts. */
  function OneByOne(t: Table, params: seq<Event>, ids: seq<RowId>, n: nat): Table
    requires n <= |params| == |ids|
  {
    if n == 0 then t else InsertRow(OneByOne(t, params, ids, n - 1), params[n - 1], ids[n - 1])
  }

  /** Row `i` of a multi-row insert is stored: no row of the table and no earlier stored row of
      the batch stands in its way. */
  predicate Lands(t: Table, params: seq<Event>, i: nat)
    requires i < |params|
    decreases i
  {
    !Blocked(t, params[i]) && forall j | 0 <= j < i && Lands(t, params, j) :: !Conflicts(params[j], params[i])
  }

  /** `after` is the table once the first `n` rows of one multi-row insert are stored or dropped. */
  ghost predicate Inserted(t: Table, params: seq<Event>, ids: seq<RowId>, n: nat, after: Table)
    requires n <= |params| == |ids|
  {
    && (forall id | id in t :: id in after && after[id] == t[id])
    && (forall j | 0 <= j < n && Lands(t, params, j) :: ids[j] in after && after[ids[j]] == params[j])
    && (forall id | id in after :: id in t || exists j :: 0 <= j < n && Lands(t, params, j) && ids[j] == id)
  }

  ghost predicate BatchInserted(t: Table, params: seq<Event>, ids: seq<RowId>, after: Table) {
    NewIds(t, params, ids) && Inserted(t, params, ids, |params|, after)
  }

  // ----- The batch is the fold of one-row inserts -----

  lemma {:induction false} BlockedByStored(t: Table, params: seq<Event>, ids: seq<RowId>, n: nat, after: Table)
    requires n < |params| == |ids| && Inserted(t, params, ids, n, after)
    ensures Blocked(after, params[n]) <==> !Lands(t, params, n)
  {
    hide Lands;
    if Lands(t, params, n) {
      LandsMeans(t, params, n);
      forall id | id in after
        ensures !Conflicts(after[id], params[n])
      {
        assert id in t || exists j :: 0 <= j < n && Lands(t, params, j) && ids[j] == id;
      }
    } else {
      WhyNot(t, params, n);
      if k :| k in t && Conflicts(t[k], params[n]) {
        IsBlocked(after, k, params[n]);
      } else {
        var j :| 0 <= j < n && Lands(t, params, j) && Conflicts(params[j], params[n]);
        IsBlocked(after, ids[j], params[n]);
      }
    }
  }

  lemma LandsMeans(t: Table, params: seq<Event>, n: nat)
    requires n < |params| && Lands(t, params, n)
    ensures forall id | id in t :: !Conflicts(t[id], params[n])
    ensures forall j | 0 <= j < n && Lands(t, params, j) :: !Conflicts(params[j], params[n])
  {
  }

  lemma {:induction false} FoldIsBatch(t: Table, params: seq<Event>, ids: seq<RowId>, n: nat)
    requires n <= |params| && NewIds(t, params, ids)
    ensures Inserted(t, params, ids, n, OneByOne(t, params, ids, n))
  {
    hide Lands, Conflicts, Blocked;
    if n > 0 {
      FoldIsBatch(t, params, ids, n - 1);
      var before := OneByOne(t, params, ids, n - 1);
      BlockedByStored(t, params, ids, n - 1, before);
      OneMore(t, params, ids, n - 1, before, OneByOne(t, params, ids, n));
    }
  }

  lemma OneMore(t: Table, params: seq<Event>, ids: seq<RowId>, n: nat, before: Table, after: Table)
    requires n < |params| && NewIds(t, params, ids) && Inserted(t, params, ids, n, before)
    requires after == if Lands(t, params, n) then before[ids[n] := params[n]] else before
    ensures Inserted(t, params, ids, n + 1, after)
  {
    hide Lands;
    forall id | id in after && id !in t
      ensures exists j :: 0 <= j < n + 1 && Lands(t, params, j) && ids[j] == id
    {
      if id in before {
        var j :| 0 <= j < n && Lands(t, params, j) && ids[j] == id;
      } else {
        assert id == ids[n] && Lands(t, params, n);
      }
    }
  }

  lemma OnlyOneTable(t: Table, params: seq<Event>, ids: seq<RowId>, n: nat, a: Table, b: Table)
    requires n <= |params| == |ids| && Inserted(t, params, ids, n, a) && Inserted(t, params, ids, n, b)
    ensures a == b
  {
    SubTable(t, params, ids, n, a, b);
    SubTable(t, params, ids, n, b, a);
    forall id | id in a
      ensures id in b && a[id] == b[id]
    {
    }
    forall id | id in b
      ensures id in a
    {
    }
  }

  lemma SubTable(t: Table, params: seq<Event>, ids: seq<RowId>, n: nat, a: Table, b: Table)
    requires n <= |params| == |ids| && Inserted(t, params, ids, n, a) && Inserted(t, params, ids, n, b)
    ensures forall id | id in a :: id in b && a[id] == b[id]
  {
    hide Lands;
    forall id | id in a
      ensures id in b && a[id] == b[id]
    {
      if id !in t {
        var j :| 0 <= j < n && Lands(t, params, j) && ids[j] == id;
      }
    }
  }

  /** One multi-row insert leaves exactly the table that the one-row inserts leave. */
  lemma BatchIsFold(t: Table, params: seq<Event>, ids: seq<RowId>, after: Table)
    requires NewIds(t, params, ids)
    ensures BatchInserted(t, params, ids, after) <==> after == OneByOne(t, params, ids, |params|)
  {
    hide Inserted, OneByOne;
    FoldIsBatch(t, params, ids, |params|);
    if BatchInserted(t, params, ids, after) {
      OnlyOneTable(t, params, ids, |params|, after, OneByOne(t, params, ids, |params|));
    }
  }

  /** With other generated ids the one-row inserts store the same rows under those ids. */
  lemma SameUpToIds(t: Table, params: seq<Event>, ids: seq<RowId>, after: Table, other: seq<RowId>, i: nat)
    requires i < |params| && BatchInserted(t, params, ids, after) && NewIds(t, params, other)
    ensures var single := OneByOne(t, params, other, |params|);
            && (ids[i] in after <==> other[i] in single)
            && (ids[i] in after ==> after[ids[i]] == params[i] == single[other[i]])
  {
    var single := OneByOne(t, params, other, |params|);
    hide Lands, OneByOne, Inserted;
    FoldIsBatch(t, params, other, |params|);
    StoredIff(t, params, ids, after, i);
    StoredIff(t, params, other, single, i);
  }

  lemma StoredIff(t: Table, params: seq<Event>, ids: seq<RowId>, after: Table, i: nat)
    requires i < |params| && BatchInserted(t, params, ids, after)
    ensures ids[i] in after <==> Lands(t, params, i)
    ensures ids[i] in after ==> after[ids[i]] == params[i]
  {
    hide Lands;
    if ids[i] in after {
      var j :| 0 <= j < |params| && Lands(t, params, j) && ids[j] == ids[i];
    }
  }

  lemma {:induction false} FoldIsUnique(t: Table, params: seq<Event>, ids: seq<RowId>, n: nat)
    requires n <= |params| && NewIds(t, params, ids) && Unique(t)
    ensures Unique(OneByOne(t, params, ids, n))
  {
    if n > 0 {
      FoldIsUnique(t, params, ids, n - 1);
    }
  }

  /** Both uniqueness constraints hold after the batch. */
  lemma BatchIsUnique(t: Table, params: seq<Event>, ids: seq<RowId>, after: Table)
    requires BatchInserted(t, params, ids, after) && Unique(t)
    ensures Unique(after)
  {
    hide Unique, BatchInserted, OneByOne;
    assert NewIds(t, params, ids) by {
      NewIdsOf(t, params, ids, after);
    }
    BatchIsFold(t, params, ids, after);
    FoldIsUnique(t, params, ids, |params|);
  }

  lemma NewIdsOf(t: Table, params: seq<Event>, ids: seq<RowId>, after: Table)
    requires BatchInserted(t, params, ids, after)
    ensures NewIds(t, params, ids)
  {
  }

  // ----- The constraints on the columns -----

  /** The two unique indexes. */
  ghost predicate IndexesHold(t: Table) {
    forall i, j | i in t && j in t && i != j ::
      (t[i].session, t[i].key) != (t[j].session, t[j].key) && (t[i].session, t[i].eventId) != (t[j].session, t[j].eventId)
  }

  lemma UniqueIsIndexes(t: Table)
    ensures Unique(t) <==> IndexesHold(t)
  {
  }

  /** Some row among these ids has the session and key, or the session and event id. */
  ghost predicate InTheWay(t: Table, e: Event, id: RowId) {
    id in t && t[id].session == e.session && (t[id].key == e.key || t[id].eventId == e.eventId)
  }

  /** A row of the batch is dropped if and only if a row that was there before, or an earlier row
      of the batch that is stored, has its session and key or its session and event id. The
      indexes hold afterwards, and no other row changes. */
  lemma BatchOnColumns(t: Table, params: seq<Event>, ids: seq<RowId>, after: Table)
    requires BatchInserted(t, params, ids, after) && IndexesHold(t)
    ensures IndexesHold(after) && forall id | id in t :: id in after && after[id] == t[id]
    ensures forall id | id in after && id !in t :: id in ids
    ensures forall i | 0 <= i < |params| ::
              if ids[i] in after then after[ids[i]] == params[i]
              else (exists id :: InTheWay(t, params[i], id)) || exists j :: 0 <= j < i && InTheWay(after, params[i], ids[j])
    ensures forall i | 0 <= i < |params| && ids[i] in after ::
              (forall id :: !InTheWay(t, params[i], id)) && forall j | 0 <= j < i :: !InTheWay(after, params[i], ids[j])
  {
    UniqueIsIndexes(t);
    UniqueIsIndexes(after);
    BatchIsUnique(t, params, ids, after);
    hide Unique, IndexesHold, Lands;
    forall i | 0 <= i < |params| && ids[i] !in after
      ensures (exists id :: InTheWay(t, params[i], id)) || exists j :: 0 <= j < i && InTheWay(after, params[i], ids[j])
    {
      DroppedForARow(t, params, ids, after, i);
    }
    forall i | 0 <= i < |params| && ids[i] in after
      ensures after[ids[i]] == params[i]
      ensures (forall id :: !InTheWay(t, params[i], id)) && forall j | 0 <= j < i :: !InTheWay(after, params[i], ids[j])
    {
      StoredForNoRow(t, params, ids, after, i);
    }
  }

  lemma DroppedForARow(t: Table, params: seq<Event>, ids: seq<RowId>, after: Table, i: nat)
    requires BatchInserted(t, params, ids, after) && i < |params| && ids[i] !in after
    ensures (exists id :: InTheWay(t, params[i], id)) || exists j :: 0 <= j < i && InTheWay(after, params[i], ids[j])
  {
    StoredIff(t, params, ids, after, i);
    WhyNot(t, params, i);
    hide Lands;
    if k :| k in t && Conflicts(t[k], params[i]) {
      assert InTheWay(t, params[i], k);
    } else {
      var j :| 0 <= j < i && Lands(t, params, j) && Conflicts(params[j], params[i]);
      assert InTheWay(after, params[i], ids[j]);
    }
  }

  lemma StoredForNoRow(t: Table, params: seq<Event>, ids: seq<RowId>, after: Table, i: nat)
    requires BatchInserted(t, params, ids, after) && i < |params| && ids[i] in after
    ensures after[ids[i]] == params[i]
    ensures (forall id :: !InTheWay(t, params[i], id)) && forall j | 0 <= j < i :: !InTheWay(after, params[i], ids[j])
  {
    StoredIff(t, params, ids, after, i);
    LandsMeans(t, params, i);
    hide Lands, Inserted;
    forall id
      ensures !InTheWay(t, params[i], id)
    {
      assert InTheWay(t, params[i], id) ==> Conflicts(t[id], params[i]);
    }
    forall j | 0 <= j < i
      ensures !InTheWay(after, params[i], ids[j])
    {
      StoredIff(t, params, ids, after, j);
      assert InTheWay(after, params[i], ids[j]) ==> Conflicts(params[j], params[i]);
    }
  }

  /** After the batch every one of its rows is in the table, or blocked by one that is. */
  lemma EveryParamIsBlocked(t: Table, params: seq<Event>, ids: seq<RowId>, after: Table, i: nat)
    requires i < |params| && BatchInserted(t, params, ids, after)
    ensures Blocked(after, params[i])
  {
    hide Lands;
    StoredIff(t, params, ids, after, i);
    if Lands(t, params, i) {
      IsBlocked(after, ids[i], params[i]);
    } else {
      WhyNot(t, params, i);
      if k :| k in t && Conflicts(t[k], params[i]) {
        IsBlocked(after, k, params[i]);
      } else {
        var j :| 0 <= j < i && Lands(t, params, j) && Conflicts(params[j], params[i]);
        IsBlocked(after, ids[j], params[i]);
      }
    }
  }

  lemma IsBlocked(t: Table, id: RowId, e: Event)
    requires id in t && Conflicts(t[id], e)
    ensures Blocked(t, e)
  {
  }

  lemma WhyNot(t: Table, params: seq<Event>, i: nat)
    requires i < |params| && !Lands(t, params, i)
    ensures Blocked(t, params[i]) || exists j :: 0 <= j < i && Lands(t, params, j) && Conflicts(params[j], params[i])
  {
  }

  // ----- What the batch answers -----

  /** `inserted_by_idem` once the first `n` rows have been returned: keyed by the idempotency
      key alone. */
  function ByKeyAlone(t: Table, params: seq<Event>, ids: seq<RowId>, n: nat): map<string, RowId>
    requires n <= |params| == |ids|
  {
    if n == 0 then map[]
    else
      var before := ByKeyAlone(t, params, ids, n - 1);
      if Lands(t, params, n - 1) then before[params[n - 1].key := ids[n - 1]] else before
  }

  ghost predicate HasKey(t: Table, e: Event, id: RowId) {
    id in t && t[id].session == e.session && t[id].key == e.key
  }

  ghost predicate HasEventId(t: Table, e: Event, id: RowId) {
    id in t && t[id].session == e.session && t[id].eventId == e.eventId
  }

  /** The fallback lookup: by the key, else by the event id. */
  ghost predicate Resolves(t: Table, e: Event, id: RowId) {
    HasKey(t, e, id) || (HasEventId(t, e, id) && forall other :: !HasKey(t, e, other))
  }

  ghost predicate Answer(t: Table, params: seq<Event>, ids: seq<RowId>, after: Table, i: nat, r: Appended)
    requires i < |params| == |ids|
  {
    var inserted := ByKeyAlone(t, params, ids, |params|);
    if params[i].key in inserted then r == Appended(inserted[params[i].key], false)
    else r.duplicate && Resolves(after, params[i], r.id)
  }

  /** The batch left `after` and returned `results`. */
  ghost predicate Batch(t: Table, params: seq<Event>, ids: seq<RowId>, after: Table, results: seq<Appended>) {
    && BatchInserted(t, params, ids, after) && |results| == |params|
    && forall i | 0 <= i < |params| :: Answer(t, params, ids, after, i, results[i])
  }

  /** An entry of the map is a stored row with that key, whatever its session. */
  lemma {:induction false} KeyAloneIsStored(t: Table, params: seq<Event>, ids: seq<RowId>, n: nat, key: string)
    requires n <= |params| == |ids|
    ensures var m := ByKeyAlone(t, params, ids, n);
            && (forall j | 0 <= j < n && Lands(t, params, j) && params[j].key == key :: key in m)
            && (key in m ==>
                  exists j :: 0 <= j < n && Lands(t, params, j) && params[j].key == key && m[key] == ids[j])
  {
    hide Lands;
    if n > 0 {
      KeyAloneIsStored(t, params, ids, n - 1, key);
      var m, before := ByKeyAlone(t, params, ids, n), ByKeyAlone(t, params, ids, n - 1);
      if Lands(t, params, n - 1) && params[n - 1].key == key {
        assert m[key] == ids[n - 1];
      } else if key in m {
        assert m[key] == before[key];
        var j :| 0 <= j < n - 1 && Lands(t, params, j) && params[j].key == key && before[key] == ids[j];
      }
    }
  }

  /** The lookup finds a row for every row of the batch: it never fails. */
  lemma LookupFinds(t: Table, params: seq<Event>, ids: seq<RowId>, after: Table, i: nat)
    requires i < |params| && BatchInserted(t, params, ids, after)
    ensures exists id :: Resolves(after, params[i], id)
  {
    EveryParamIsBlocked(t, params, ids, after, i);
    hide Lands, Inserted;
    var id :| id in after && Conflicts(after[id], params[i]);
    if k :| HasKey(after, params[i], k) {
      assert Resolves(after, params[i], k);
    } else {
      assert Resolves(after, params[i], id);
    }
  }

  /** It finds one row only, and that row is the event's own or the one that blocks it. */
  lemma LookupIsUnique(t: Table, e: Event, a: RowId, b: RowId)
    requires Unique(t) && Resolves(t, e, a) && Resolves(t, e, b)
    ensures a == b && Conflicts(t[a], e)
  {
  }

  /** No key stored for one session is also used for another session of the batch. */
  ghost predicate KeysStayInSession(t: Table, params: seq<Event>) {
    forall i, j | 0 <= i < |params| && 0 <= j < |params| && Lands(t, params, j) && params[i].key == params[j].key ::
      params[i].session == params[j].session
  }

  ghost predicate OneSession(params: seq<Event>) {
    forall i, j | 0 <= i < |params| && 0 <= j < |params| :: params[i].session == params[j].session
  }

  /** The answer names a stored row of the event's session with its key or its event id. */
  ghost predicate Names(after: Table, e: Event, r: Appended) {
    InTheWay(after, e, r.id)
  }

  /** An answer marked as new is the id of a stored row with the same key. */
  lemma KeyAnswer(t: Table, params: seq<Event>, ids: seq<RowId>, after: Table, results: seq<Appended>, i: nat) returns (j: nat)
    requires i < |params| && Batch(t, params, ids, after, results)
    requires params[i].key in ByKeyAlone(t, params, ids, |params|)
    ensures j < |params| && Lands(t, params, j) && params[j].key == params[i].key && results[i] == Appended(ids[j], false)
    ensures ids[j] in after && after[ids[j]] == params[j]
  {
    hide Lands, Conflicts, Resolves, ByKeyAlone;
    KeyAloneIsStored(t, params, ids, |params|, params[i].key);
    assert Answer(t, params, ids, after, i, results[i]);
    j :| 0 <= j < |params| && Lands(t, params, j) && params[j].key == params[i].key
         && ByKeyAlone(t, params, ids, |params|)[params[i].key] == ids[j];
  }

  lemma AnswerIsRight(t: Table, params: seq<Event>, ids: seq<RowId>, after: Table, results: seq<Appended>, i: nat)
    requires Batch(t, params, ids, after, results)
    requires i < |params| && KeysStayInSession(t, params)
    ensures Names(after, params[i], results[i])
  {
    hide Lands, Inserted, ByKeyAlone;
    if params[i].key in ByKeyAlone(t, params, ids, |params|) {
      var j := KeyAnswer(t, params, ids, after, results, i);
    } else {
      assert Answer(t, params, ids, after, i, results[i]);
    }
  }

  /** Of two rows with one key in two sessions, of which one is stored, one gets a row of the
      other session. */
  lemma WrongAnswer(t: Table, params: seq<Event>, ids: seq<RowId>, after: Table, results: seq<Appended>, i: nat, j: nat)
    requires Batch(t, params, ids, after, results)
    requires i < |params| && j < |params| && Lands(t, params, j) && params[i].key == params[j].key
    requires params[i].session != params[j].session
    ensures !Names(after, params[i], results[i]) || !Names(after, params[j], results[j])
  {
    hide Lands, Inserted, ByKeyAlone;
    KeyAloneIsStored(t, params, ids, |params|, params[i].key);
    var k := KeyAnswer(t, params, ids, after, results, i);
    var k' := KeyAnswer(t, params, ids, after, results, j);
    assert Answer(t, params, ids, after, i, results[i]) && Answer(t, params, ids, after, j, results[j]);
    assert ids[k] == ids[k'] && after[ids[k]].session == params[k].session;
  }

  /** Every answer is right if and only if no stored key is shared across sessions. */
  lemma AnswersAreRightIff(t: Table, params: seq<Event>, ids: seq<RowId>, after: Table, results: seq<Appended>)
    requires Batch(t, params, ids, after, results)
    ensures KeysStayInSession(t, params) <==> forall i | 0 <= i < |params| :: Names(after, params[i], results[i])
  {
    hide Batch, Lands, Names;
    assert |results| == |params| by {
      SameLength(t, params, ids, after, results);
    }
    if KeysStayInSession(t, params) {
      forall i | 0 <= i < |params|
        ensures Names(after, params[i], results[i])
      {
        AnswerIsRight(t, params, ids, after, results, i);
      }
    } else {
      var i, j :| 0 <= i < |params| && 0 <= j < |params| && Lands(t, params, j) && params[i].key == params[j].key
                  && params[i].session != params[j].session;
      WrongAnswer(t, params, ids, after, results, i, j);
    }
  }

  lemma SameLength(t: Table, params: seq<Event>, ids: seq<RowId>, after: Table, results: seq<Appended>)
    requires Batch(t, params, ids, after, results)
    ensures |results| == |params| == |ids| && BatchInserted(t, params, ids, after)
  {
  }

  /** Two sessions, one key: both rows are stored, and both are answered with the second's id. */
  lemma SharedKeyIsAnsweredWrong(after: Table, results: seq<Appended>)
    requires Batch(map[], [Event(1, "a", "k", ""), Event(2, "b", "k", "")], [10, 20], after, results)
    ensures results == [Appended(20, false), Appended(20, false)]
    ensures 20 in after && after[20].session == 2
  {
    var params := [Event(1, "a", "k", ""), Event(2, "b", "k", "")];
    assert Lands(map[], params, 0) && Lands(map[], params, 1);
    assert ByKeyAlone(map[], params, [10, 20], 1) == map["k" := 10];
    assert ByKeyAlone(map[], params, [10, 20], 2) == map["k" := 20];
    assert Answer(map[], params, [10, 20], after, 0, results[0]);
    assert Answer(map[], params, [10, 20], after, 1, results[1]);
    assert [10, 20][1] == 20;
  }

  // ----- The duplicate flags -----

  /** Two stored rows of a batch never conflict. */
  lemma LandedDiffer(t: Table, params: seq<Event>, i: nat, j: nat)
    requires i < |params| && j < |params| && i != j && Lands(t, params, i) && Lands(t, params, j)
    ensures !Conflicts(params[i], params[j])
  {
  }

  /** A row is reported as new if and only if a row with its key was stored. */
  lemma FlagMeans(t: Table, params: seq<Event>, ids: seq<RowId>, after: Table, results: seq<Appended>, i: nat)
    requires i < |params| && Batch(t, params, ids, after, results)
    ensures !results[i].duplicate <==> exists j :: 0 <= j < |params| && Lands(t, params, j) && params[j].key == params[i].key
  {
    hide Lands, Conflicts, Resolves, ByKeyAlone;
    KeyAloneIsStored(t, params, ids, |params|, params[i].key);
    assert Answer(t, params, ids, after, i, results[i]);
  }

  ghost predicate FlagsAreExact(t: Table, params: seq<Event>, results: seq<Appended>) {
    |results| == |params| && forall i | 0 <= i < |params| :: results[i].duplicate == !Lands(t, params, i)
  }

  ghost predicate StoredKeysOccurOnce(t: Table, params: seq<Event>) {
    forall i, j | 0 <= i < |params| && 0 <= j < |params| && i != j && Lands(t, params, j) :: params[i].key != params[j].key
  }

  /** The flags say exactly which rows were dropped, if and only if no dropped row has the key of
      a stored one; so they do whenever the keys are distinct. */
  lemma FlagsAreExactInGeneral(t: Table, params: seq<Event>, ids: seq<RowId>, after: Table, results: seq<Appended>)
    requires Batch(t, params, ids, after, results)
    ensures FlagsAreExact(t, params, results)
            <==> forall i, j | 0 <= i < |params| && 0 <= j < |params| && Lands(t, params, j) && !Lands(t, params, i) ::
                   params[i].key != params[j].key
    ensures (forall i, j | 0 <= i < j < |params| :: params[i].key != params[j].key) ==> FlagsAreExact(t, params, results)
  {
    hide Batch, Lands;
    SameLength(t, params, ids, after, results);
    forall i | 0 <= i < |params|
      ensures !results[i].duplicate <==> exists j :: 0 <= j < |params| && Lands(t, params, j) && params[j].key == params[i].key
    {
      FlagMeans(t, params, ids, after, results, i);
    }
  }

  /** In one session the flags say exactly which rows were dropped, if and only if no stored
      row's key occurs again in the batch. */
  lemma FlagsAreExactIff(t: Table, params: seq<Event>, ids: seq<RowId>, after: Table, results: seq<Appended>)
    requires Batch(t, params, ids, after, results) && OneSession(params)
    ensures FlagsAreExact(t, params, results) <==> StoredKeysOccurOnce(t, params)
  {
    hide Batch, Lands;
    SameLength(t, params, ids, after, results);
    forall i | 0 <= i < |params|
      ensures !results[i].duplicate <==> exists j :: 0 <= j < |params| && Lands(t, params, j) && params[j].key == params[i].key
    {
      FlagMeans(t, params, ids, after, results, i);
    }
    forall i, j | 0 <= i < |params| && 0 <= j < |params| && i != j && Lands(t, params, j) && params[i].key == params[j].key
      ensures !Lands(t, params, i) && !results[i].duplicate
    {
      if Lands(t, params, i) {
        LandedDiffer(t, params, i, j);
      }
    }
  }

  /** One session, one key, two event ids: the second row is dropped, but reported as new. */
  lemma RepeatedKeyIsReportedNew(after: Table, results: seq<Appended>)
    requires Batch(map[], [Event(1, "a", "k", ""), Event(1, "b", "k", "")], [10, 20], after, results)
    ensures results == [Appended(10, false), Appended(10, false)] && 20 !in after
  {
    var params := [Event(1, "a", "k", ""), Event(1, "b", "k", "")];
    assert Lands(map[], params, 0) && !Lands(map[], params, 1);
    assert ByKeyAlone(map[], params, [10, 20], 1) == map["k" := 10];
    assert ByKeyAlone(map[], params, [10, 20], 2) == map["k" := 10];
    assert Answer(map[], params, [10, 20], after, 0, results[0]);
    assert Answer(map[], params, [10, 20], after, 1, results[1]);
    StoredIff(map[], params, [10, 20], after, 1);
  }

  // ----- Replay -----

  /** A replayed batch stores nothing, whatever ids are generated for it. */
  lemma ReplayStoresNothing(t: Table, params: seq<Event>, ids: seq<RowId>, after: Table, again: seq<RowId>, later: Table)
    requires BatchInserted(t, params, ids, after) && BatchInserted(after, params, again, later)
    ensures later == after && forall i | 0 <= i < |params| :: !Lands(after, params, i)
  {
    forall i | 0 <= i < |params|
      ensures !Lands(after, params, i)
    {
      EveryParamIsBlocked(t, params, ids, after, i);
    }
    hide Lands;
    assert Inserted(after, params, again, |params|, after);
    OnlyOneTable(after, params, again, |params|, later, after);
  }

  /** An id the lookup would give for a row is the one the batch gave. */
  lemma SameRow(t: Table, params: seq<Event>, ids: seq<RowId>, after: Table, results: seq<Appended>, i: nat, id: RowId)
    requires Unique(t) && Batch(t, params, ids, after, results)
    requires i < |params| && KeysStayInSession(t, params) && Resolves(after, params[i], id)
    ensures results[i].id == id
  {
    BatchIsUnique(t, params, ids, after);
    hide Lands, Inserted, Unique;
    if params[i].key in ByKeyAlone(t, params, ids, |params|) {
      var j := KeyAnswer(t, params, ids, after, results, i);
      assert HasKey(after, params[i], ids[j]);
    } else {
      assert Answer(t, params, ids, after, i, results[i]);
    }
    LookupIsUnique(after, params[i], results[i].id, id);
  }

  lemma ReplayAnswer(
    t: Table, params: seq<Event>, ids: seq<RowId>, after: Table, again: seq<RowId>, later: Table, second: seq<Appended>, i: nat)
    requires Unique(t) && BatchInserted(t, params, ids, after) && Batch(after, params, again, later, second) && i < |params|
    ensures second[i].duplicate && Resolves(after, params[i], second[i].id) && Names(after, params[i], second[i])
  {
    ReplayStoresNothing(t, params, ids, after, again, later);
    BatchIsUnique(t, params, ids, after);
    FlagMeans(after, params, again, later, second, i);
    hide Lands, Inserted, ByKeyAlone, Unique;
    assert Answer(after, params, again, later, i, second[i]);
    LookupIsUnique(after, params[i], second[i].id, second[i].id);
  }

  /** A replayed batch changes nothing and reports every row as a duplicate. It returns the ids
      of the first time if and only if no stored key is shared across sessions. */
  lemma ReplayIff(
    t: Table, params: seq<Event>, ids: seq<RowId>, after: Table, first: seq<Appended>,
    again: seq<RowId>, later: Table, second: seq<Appended>)
    requires Unique(t) && Batch(t, params, ids, after, first) && Batch(after, params, again, later, second)
    ensures later == after && |first| == |second| == |params| && forall i | 0 <= i < |params| :: second[i].duplicate
    ensures KeysStayInSession(t, params) <==> forall i | 0 <= i < |params| :: second[i].id == first[i].id
  {
    hide Lands, Batch, BatchInserted, Unique, Resolves, Names, KeysStayInSession;
    SameLength(t, params, ids, after, first);
    SameLength(after, params, again, later, second);
    ReplayStoresNothing(t, params, ids, after, again, later);
    forall i | 0 <= i < |params|
      ensures second[i].duplicate && Resolves(after, params[i], second[i].id) && Names(after, params[i], second[i])
    {
      ReplayAnswer(t, params, ids, after, again, later, second, i);
    }
    AnswersAreRightIff(t, params, ids, after, first);
    if KeysStayInSession(t, params) {
      forall i | 0 <= i < |params|
        ensures second[i].id == first[i].id
      {
        SameRow(t, params, ids, after, first, i, second[i].id);
      }
    } else {
      var i :| 0 <= i < |params| && !Names(after, params[i], first[i]);
      SameIdSameName(after, params[i], first[i], second[i]);
    }
  }

  lemma SameIdSameName(after: Table, e: Event, a: Appended, b: Appended)
    ensures a.id == b.id ==> (Names(after, e, a) <==> Names(after, e, b))
  {
  }
}
