/** The session event table with its two insert operations, as loops over hash maps. */
module EventStore {
  import opened Sets
  import opened EventIngestion

  /** What `returning id, idempotency_key` sends back for the first `n` rows. */
  function Returned(t: Table, params: seq<Event>, ids: seq<RowId>, n: nat): seq<(RowId, string)>
    requires n <= |params| == |ids|
  {
    if n == 0 then []
    else
      var before := Returned(t, params, ids, n - 1);
      if Lands(t, params, n - 1) then before + [(ids[n - 1], params[n - 1].key)] else before
  }

  /** The map after these rows have been entered in order. */
  function Entered(returned: seq<(RowId, string)>): map<string, RowId> {
    if returned == [] then map[]
    else
      var last := returned[|returned| - 1];
      Entered(returned[..|returned| - 1])[last.1 := last.0]
  }

  lemma {:induction false} EnteredIsByKeyAlone(t: Table, params: seq<Event>, ids: seq<RowId>, n: nat)
    requires n <= |params| == |ids|
    ensures Entered(Returned(t, params, ids, n)) == ByKeyAlone(t, params, ids, n)
  {
    hide Lands;
    if n > 0 {
      EnteredIsByKeyAlone(t, params, ids, n - 1);
      var before := Returned(t, params, ids, n - 1);
      if Lands(t, params, n - 1) {
        var row := (ids[n - 1], params[n - 1].key);
        assert (before + [row])[..|before|] == before;
        assert Returned(t, params, ids, n) == before + [row];
      }
    }
  }

  /** Rows indexed by a pair of columns: every entry is right, and no row the lookup asked for
      is left out. */
  ghost predicate KeyIndex(rows: Table, found: set<RowId>, index: map<(int, string), RowId>) {
    && (forall p | p in index :: index[p] in rows && rows[index[p]].session == p.0 && rows[index[p]].key == p.1)
    && (forall id | id in found && id in rows :: (rows[id].session, rows[id].key) in index)
  }

  ghost predicate EventIdIndex(rows: Table, found: set<RowId>, index: map<(int, string), RowId>) {
    && (forall p | p in index :: index[p] in rows && rows[index[p]].session == p.0 && rows[index[p]].eventId == p.1)
    && (forall id | id in found && id in rows :: (rows[id].session, rows[id].eventId) in index)
  }

  /** The rows that the fallback lookup returns. */
  function Selected(rows: Table, params: seq<Event>, missing: seq<nat>): set<RowId>
    requires forall m | 0 <= m < |missing| :: missing[m] < |params|
  {
    set id | id in rows && Wanted(rows[id], params, missing)
  }

  lemma NoEntries(rows: Table)
    ensures KeyIndex(rows, {}, map[]) && EventIdIndex(rows, {}, map[])
  {
  }

  lemma OneEntry(rows: Table, found: set<RowId>, byKey: map<(int, string), RowId>, byEventId: map<(int, string), RowId>, id: RowId)
    requires KeyIndex(rows, found, byKey) && EventIdIndex(rows, found, byEventId) && id in rows
    ensures KeyIndex(rows, found + {id}, byKey[(rows[id].session, rows[id].key) := id])
    ensures EventIdIndex(rows, found + {id}, byEventId[(rows[id].session, rows[id].eventId) := id])
  {
  }

  /** The row matches one of the pairs in the fallback lookup. */
  predicate Wanted(row: Event, params: seq<Event>, missing: seq<nat>)
    requires forall m | 0 <= m < |missing| :: missing[m] < |params|
  {
    exists m :: 0 <= m < |missing| && Conflicts(row, params[missing[m]])
  }

  /** The two indexes answer the lookup: the key index first, then the other. */
  lemma IndexResolves(rows: Table, e: Event, found: set<RowId>, byKey: map<(int, string), RowId>, byEventId: map<(int, string), RowId>)
    requires KeyIndex(rows, found, byKey) && EventIdIndex(rows, found, byEventId) && Blocked(rows, e)
    requires forall id | id in rows && Conflicts(rows[id], e) :: id in found
    ensures if (e.session, e.key) in byKey then Resolves(rows, e, byKey[(e.session, e.key)])
            else (e.session, e.eventId) in byEventId && Resolves(rows, e, byEventId[(e.session, e.eventId)])
  {
    var id :| id in rows && Conflicts(rows[id], e);
    assert id in found;
    if (e.session, e.key) !in byKey {
      forall other
        ensures !HasKey(rows, e, other)
      {
        assert HasKey(rows, e, other) ==> Conflicts(rows[other], e);
      }
      assert rows[id].key == e.key ==> HasKey(rows, e, id);
    }
  }

  class Store {
    var rows: Table

    constructor ()
      ensures rows == map[] && Unique(rows)
    {
      rows := map[];
    }

    /** The one-row insert. A dropped row is answered with some row that stands in its way. */
    method InsertSessionEvent(e: Event, newId: RowId) returns (r: Appended)
      requires Unique(rows) && newId !in rows
      modifies this
      ensures rows == InsertRow(old(rows), e, newId) && Unique(rows)
      ensures r.duplicate <==> exists id :: InTheWay(old(rows), e, id)
      ensures InTheWay(rows, e, r.id) && IndexesHold(rows)
      ensures !r.duplicate ==> r.id == newId && rows[newId] == e
    {
      UniqueIsIndexes(InsertRow(rows, e, newId));
      if i :| i in rows && Conflicts(rows[i], e) {
        assert InTheWay(rows, e, i);
        r := Appended(i, true);
      } else {
        rows := rows[newId := e];
        r := Appended(newId, false);
      }
    }

    /** The multi-row `insert ... on conflict do nothing returning`. */
    method InsertRows(params: seq<Event>, ids: seq<RowId>) returns (returned: seq<(RowId, string)>)
      requires NewIds(rows, params, ids)
      modifies this
      ensures BatchInserted(old(rows), params, ids, rows)
      ensures returned == Returned(old(rows), params, ids, |params|)
    {
      hide Lands, Blocked;
      FoldIsBatch(rows, params, ids, |params|);
      returned := Returned(rows, params, ids, |params|);
      rows := OneByOne(rows, params, ids, |params|);
    }

    /** The fallback `select`, and the two maps its rows are entered in. */
    method ResolveMissing(params: seq<Event>, missing: seq<nat>)
      returns (byKey: map<(int, string), RowId>, byEventId: map<(int, string), RowId>)
      requires forall m | 0 <= m < |missing| :: missing[m] < |params|
      ensures KeyIndex(rows, Selected(rows, params, missing), byKey)
      ensures EventIdIndex(rows, Selected(rows, params, missing), byEventId)
    {
      hide Wanted, KeyIndex, EventIdIndex;
      var todo := Selected(rows, params, missing);
      ghost var found: set<RowId> := {};
      byKey, byEventId := map[], map[];
      NoEntries(rows);
      while todo != {}
        invariant found + todo == Selected(rows, params, missing)
        invariant KeyIndex(rows, found, byKey) && EventIdIndex(rows, found, byEventId)
        decreases |todo|
      {
        HasMember(todo);
        var id :| id in todo;
        OneEntry(rows, found, byKey, byEventId, id);
        byKey := byKey[(rows[id].session, rows[id].key) := id];
        byEventId := byEventId[(rows[id].session, rows[id].eventId) := id];
        found, todo := found + {id}, todo - {id};
      }
    }

    /** Overwrites the placeholders with the ids the lookup found; it finds one for each. */
    method FillPlaceholders(params: seq<Event>, missing: seq<nat>, placeholders: seq<Appended>) returns (results: seq<Appended>)
      requires |placeholders| == |params| && forall m | 0 <= m < |missing| :: missing[m] < |params|
      requires forall i | 0 <= i < |params| :: Blocked(rows, params[i])
      ensures |results| == |params|
      ensures forall i | 0 <= i < |params| :: results[i].duplicate == placeholders[i].duplicate
      ensures forall i | 0 <= i < |params| && i !in missing :: results[i] == placeholders[i]
      ensures forall m | 0 <= m < |missing| :: Resolves(rows, params[missing[m]], results[missing[m]].id)
    {
      hide Conflicts, Blocked, Resolves, KeyIndex, EventIdIndex;
      results := placeholders;
      var byKey, byEventId := ResolveMissing(params, missing);
      for n := 0 to |missing|
        invariant |results| == |params|
        invariant forall i | 0 <= i < |params| :: results[i].duplicate == placeholders[i].duplicate
        invariant forall i | 0 <= i < |params| && i !in missing :: results[i] == placeholders[i]
        invariant forall m | 0 <= m < n :: Resolves(rows, params[missing[m]], results[missing[m]].id)
      {
        var e := params[missing[n]];
        assert forall id | id in rows && Conflicts(rows[id], e) :: Wanted(rows[id], params, missing);
        IndexResolves(rows, e, Selected(rows, params, missing), byKey, byEventId);
        var id;
        if (e.session, e.key) in byKey {
          id := byKey[(e.session, e.key)];
        } else {
          id := byEventId[(e.session, e.eventId)];
        }
        results := results[missing[n] := results[missing[n]].(id := id)];
      }
    }

    /** The batched insert: every row is answered, and the fallback lookup never fails. */
    method InsertSessionEventsBatch(params: seq<Event>, ids: seq<RowId>) returns (results: seq<Appended>)
      requires Unique(rows) && NewIds(rows, params, ids)
      modifies this
      ensures Unique(rows) && Batch(old(rows), params, ids, rows, results)
    {
      hide Lands, Conflicts, Blocked, Resolves, ByKeyAlone, Inserted, Unique, BatchInserted;
      ghost var before := rows;
      if params == [] {
        BatchIsFold(before, params, ids, before);
        return [];
      }
      var returned := InsertRows(params, ids);
      BatchIsUnique(before, params, ids, rows);
      EnteredIsByKeyAlone(before, params, ids, |params|);
      var insertedByKey: map<string, RowId> := map[];
      for n := 0 to |returned|
        invariant insertedByKey == Entered(returned[..n])
      {
        assert returned[..n + 1][..n] == returned[..n];
        insertedByKey := insertedByKey[returned[n].1 := returned[n].0];
      }
      assert returned[..|returned|] == returned;

      results := [];
      var missing: seq<nat> := [];
      for i := 0 to |params|
        invariant |results| == i
        invariant forall m | 0 <= m < |missing| :: missing[m] < i && params[missing[m]].key !in insertedByKey
        invariant forall k | 0 <= k < i && params[k].key !in insertedByKey :: results[k].duplicate && k in missing
        invariant forall k | 0 <= k < i && params[k].key in insertedByKey ::
                    results[k] == Appended(insertedByKey[params[k].key], false)
      {
        if params[i].key in insertedByKey {
          results := results + [Appended(insertedByKey[params[i].key], false)];
        } else {
          results, missing := results + [Appended(0, true)], missing + [i];
        }
      }
      if missing == [] {
        return;
      }
      forall i | 0 <= i < |params|
        ensures Blocked(rows, params[i])
      {
        EveryParamIsBlocked(before, params, ids, rows, i);
      }
      results := FillPlaceholders(params, missing, results);
    }
  }
}
