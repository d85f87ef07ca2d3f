/**
 * The soft-delete state machine of the generic controller, on the value of
 * the store: which entry each operation changes, how, and which keys it
 * saves. The controller's methods are specified by these functions; the
 * lemmas state what holds across several calls.
 */
module SoftDelete {
  import opened Base
  import opened Entities

  /** Where an identifier stands: not stored, stored and soft-deleted, stored and active. */
  datatype Lookup = Absent | Deleted | Active

  function LookupOf<K(==), A>(rows: map<K, Entity<A>>, id: K): (l: Lookup)
    ensures l == Absent <==> id !in rows
    ensures l == Deleted <==> id in rows && rows[id].IsDeleted()
    ensures l == Active <==> id in rows && !rows[id].IsDeleted()
  {
    if id !in rows then Absent
    else if rows[id].deletedAt.Some? then Deleted
    else Active
  }

  /** The store after `restore(id)`: only a deleted entry changes, and only its `deletedAt`, which is cleared. */
  function RestoreRows<K(==), A>(rows: map<K, Entity<A>>, id: K): (rows': map<K, Entity<A>>)
    ensures rows'.Keys == rows.Keys
    ensures forall k :: k in rows && k != id ==> rows'[k] == rows[k]
    ensures id in rows ==> SameExceptDeletedAt(rows[id], rows'[id]) && !rows'[id].IsDeleted()
    ensures LookupOf(rows, id) != Deleted ==> rows' == rows
  {
    if LookupOf(rows, id) == Deleted then rows[id := rows[id].(deletedAt := None)] else rows
  }

  /** The keys `restore(id)` saves: `id` once when it was deleted, none otherwise. */
  function RestoreSaves<K(==), A>(rows: map<K, Entity<A>>, id: K): (saved: seq<K>)
    ensures saved == [id] <==> LookupOf(rows, id) == Deleted
    ensures saved == [] <==> LookupOf(rows, id) != Deleted
  {
    if LookupOf(rows, id) == Deleted then [id] else []
  }

  /** The store after `delete(id)` at instant `now`: only an active entry changes, and only its `deletedAt`, which becomes `now`. */
  function DeleteRows<K(==), A>(rows: map<K, Entity<A>>, id: K, now: Timestamp): (rows': map<K, Entity<A>>)
    ensures rows'.Keys == rows.Keys
    ensures forall k :: k in rows && k != id ==> rows'[k] == rows[k]
    ensures id in rows ==> SameExceptDeletedAt(rows[id], rows'[id]) && rows'[id].IsDeleted()
    ensures LookupOf(rows, id) == Active ==> rows'[id].deletedAt == Some(now)
    ensures LookupOf(rows, id) != Active ==> rows' == rows
  {
    if LookupOf(rows, id) == Active then rows[id := rows[id].(deletedAt := Some(now))] else rows
  }

  /** The keys `delete(id)` saves: `id` once when it was active, none otherwise. */
  function DeleteSaves<K(==), A>(rows: map<K, Entity<A>>, id: K): (saved: seq<K>)
    ensures saved == [id] <==> LookupOf(rows, id) == Active
    ensures saved == [] <==> LookupOf(rows, id) != Active
  {
    if LookupOf(rows, id) == Active then [id] else []
  }

  /** Deleting an active entity and then restoring it gives back the store as it was. */
  lemma DeleteThenRestore<K, A>(rows: map<K, Entity<A>>, id: K, now: Timestamp)
    requires LookupOf(rows, id) == Active
    ensures RestoreRows(DeleteRows(rows, id, now), id) == rows
  {
  }

  /** Restoring a deleted entity and deleting it again at its old deletion instant gives back the store as it was. */
  lemma RestoreThenDelete<K, A>(rows: map<K, Entity<A>>, id: K)
    requires LookupOf(rows, id) == Deleted
    ensures DeleteRows(RestoreRows(rows, id), id, rows[id].deletedAt.value) == rows
  {
  }

  /** After `delete`, a stored key is in the deleted state, so `details` answers 401 rather than 404. */
  lemma DeleteThenLookup<K, A>(rows: map<K, Entity<A>>, id: K, now: Timestamp)
    ensures id in rows ==> LookupOf(DeleteRows(rows, id, now), id) == Deleted
    ensures id !in rows ==> LookupOf(DeleteRows(rows, id, now), id) == Absent
  {
  }

  /** After `restore`, a stored key is active again, so `details` answers 200. */
  lemma RestoreThenLookup<K, A>(rows: map<K, Entity<A>>, id: K)
    ensures id in rows ==> LookupOf(RestoreRows(rows, id), id) == Active
    ensures id !in rows ==> LookupOf(RestoreRows(rows, id), id) == Absent
  {
  }

  /** The requests a client can send to one controller. */
  datatype Request<K> =
    | List(page: Int32, size: Int32)
    | Details(id: K)
    | Restore(id: K)
    | Delete(id: K, now: Timestamp)

  /** The store after one request. */
  function Step<K(==), A>(rows: map<K, Entity<A>>, req: Request<K>): map<K, Entity<A>>
  {
    match req
    case List(_, _) => rows
    case Details(_) => rows
    case Restore(id) => RestoreRows(rows, id)
    case Delete(id, now) => DeleteRows(rows, id, now)
  }

  /** The keys one request saves. */
  function StepSaves<K(==), A>(rows: map<K, Entity<A>>, req: Request<K>): seq<K>
  {
    match req
    case List(_, _) => []
    case Details(_) => []
    case Restore(id) => RestoreSaves(rows, id)
    case Delete(id, _) => DeleteSaves(rows, id)
  }

  /** The store after a sequence of requests, served one after another. */
  function Run<K(==), A>(rows: map<K, Entity<A>>, reqs: seq<Request<K>>): map<K, Entity<A>>
    decreases |reqs|
  {
    if reqs == [] then rows else Run(Step(rows, reqs[0]), reqs[1..])
  }

  /** The keys saved while serving a sequence of requests, in order. */
  function RunSaves<K(==), A>(rows: map<K, Entity<A>>, reqs: seq<Request<K>>): seq<K>
    decreases |reqs|
  {
    if reqs == [] then [] else StepSaves(rows, reqs[0]) + RunSaves(Step(rows, reqs[0]), reqs[1..])
  }

  /** One request saves exactly when it changes the store, and saves at most once. */
  lemma StepSavesIffChanged<K, A>(rows: map<K, Entity<A>>, req: Request<K>)
    ensures |StepSaves(rows, req)| <= 1
    ensures StepSaves(rows, req) != [] <==> Step(rows, req) != rows
  {
  }

  /**
   * No entity is ever physically removed or added, and no field but
   * `deletedAt` ever changes, whatever requests are served.
   */
  lemma {:induction false} RunKeepsEveryEntity<K, A>(rows: map<K, Entity<A>>, reqs: seq<Request<K>>)
    ensures Run(rows, reqs).Keys == rows.Keys
    ensures forall k :: k in rows ==> SameExceptDeletedAt(rows[k], Run(rows, reqs)[k])
    decreases |reqs|
  {
    if reqs != [] {
      var next := Step(rows, reqs[0]);
      RunKeepsEveryEntity(next, reqs[1..]);
      assert next.Keys == rows.Keys;
      assert forall k :: k in rows ==> SameExceptDeletedAt(rows[k], next[k]);
    }
  }

  /**
   * Serving requests saves at most once per request, saves only keys already
   * stored, and leaves the store unchanged when it saves nothing.
   */
  lemma {:induction false} RunSavesOnlyStoredKeys<K, A>(rows: map<K, Entity<A>>, reqs: seq<Request<K>>)
    ensures |RunSaves(rows, reqs)| <= |reqs|
    ensures forall i :: 0 <= i < |RunSaves(rows, reqs)| ==> RunSaves(rows, reqs)[i] in rows
    ensures RunSaves(rows, reqs) == [] ==> Run(rows, reqs) == rows
    decreases |reqs|
  {
    if reqs != [] {
      var next := Step(rows, reqs[0]);
      StepSavesIffChanged(rows, reqs[0]);
      RunSavesOnlyStoredKeys(next, reqs[1..]);
      var first := StepSaves(rows, reqs[0]);
      assert forall i :: 0 <= i < |first| ==> first[i] in rows;
      assert next.Keys == rows.Keys;
    }
  }

  /** A repeated delete saves nothing the second time: the pair saves at most once. */
  lemma DeleteTwiceSavesOnce<K, A>(rows: map<K, Entity<A>>, id: K, first: Timestamp, second: Timestamp)
    ensures RunSaves(rows, [Delete(id, first), Delete(id, second)]) == DeleteSaves(rows, id)
    ensures Run(rows, [Delete(id, first), Delete(id, second)]) == DeleteRows(rows, id, first)
  {
    var reqs := [Delete(id, first), Delete(id, second)];
    var once := DeleteRows(rows, id, first);
    assert LookupOf(once, id) != Active;
    assert reqs[1..] == [Delete(id, second)] && reqs[1..][1..] == [];
    assert Run(once, reqs[1..]) == Run(DeleteRows(once, id, second), []);
    assert RunSaves(once, reqs[1..]) == DeleteSaves(once, id) + RunSaves(once, []);
  }

  /** A repeated restore saves nothing the second time: the pair saves at most once. */
  lemma RestoreTwiceSavesOnce<K, A>(rows: map<K, Entity<A>>, id: K)
    ensures RunSaves(rows, [Restore(id), Restore(id)]) == RestoreSaves(rows, id)
    ensures Run(rows, [Restore(id), Restore(id)]) == RestoreRows(rows, id)
  {
    var reqs: seq<Request<K>> := [Restore(id), Restore(id)];
    var once := RestoreRows(rows, id);
    assert LookupOf(once, id) != Deleted;
    assert reqs[1..] == [Restore(id)] && reqs[1..][1..] == [];
    assert Run(once, reqs[1..]) == Run(RestoreRows(once, id), []);
    assert RunSaves(once, reqs[1..]) == RestoreSaves(once, id) + RunSaves(once, []);
  }
}
