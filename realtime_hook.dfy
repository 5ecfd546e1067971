/** The realtime collection hook of the main application: a snapshot of one
    table kept in step with the store's change feed, an optional equality
    filter, and optimistic add/update/delete that reconcile with the store's
    reply or roll back. Every call to the store is one atomic step whose
    reply is a parameter; so are the clock readings used for the temporary
    id. */
module RealtimeHook {
  import opened JsValues
  import opened Seqs
  import opened Snapshot

  datatype InsertReply = Inserted(row: Record) | InsertFailed(insertError: StoreError)
  datatype UpdateReply = Updated(row: Record) | UpdateFailed(updateError: StoreError)
  datatype DeleteReply = Deleted | DeleteFailed(deleteError: StoreError)

  /** How an `async` mutation settles: it resolves with a value or rethrows. */
  datatype Outcome<T> = Resolved(value: T) | Rejected(error: StoreError)

  /** The temporary id `temp-${Date.now()}` for a clock reading in ms. */
  function TempId(now: nat): (r: string)
    ensures |r| > 5 && r[..5] == "temp-"
    ensures AllDigits(r[5..]) && DigitsValue(r[5..]) == now
  {
    var r := "temp-" + NatToString(now);
    assert r[5..] == NatToString(now);
    NatToStringRoundTrip(now);
    r
  }

  /** Two temporary ids agree exactly when the clock readings do. */
  lemma TempIdInjective(now: nat, later: nat)
    ensures TempId(now) == TempId(later) <==> now == later
  {
    if TempId(now) == TempId(later) {
      assert NatToString(now) == TempId(now)[5..];
      assert NatToString(later) == TempId(later)[5..];
      NatToStringInjective(now, later);
    }
  }

  /** The optimistic row `{ ...newItem, id: tempId }`. */
  function Placeholder(newItem: Record, now: nat): (p: Record)
    ensures IdOf(p) == Some(Str(TempId(now)))
    ensures p.Keys == newItem.Keys + {"id"}
    ensures forall k :: k in newItem && k != "id" ==> k in p && p[k] == newItem[k]
  {
    newItem["id" := Str(TempId(now))]
  }

  /** The key `item.id === id` compares with for a string id parameter. */
  function Key(id: string): Option<Value> {
    Some(Str(id))
  }

  /** The updates object leaves the id of a matching row alone. */
  predicate KeepsId(updates: Record, id: string) {
    "id" !in updates || updates["id"] == Str(id)
  }

  class RealtimeData {
    const table: string
    const filter: Option<string>
    const filterValue: Option<Value>
    var data: seq<Record>
    var loading: bool
    var error: Option<StoreError>

    /** The hook's initial state: `initialData` (by default empty), loading,
        no error. */
    constructor (table: string, filter: Option<string>, filterValue: Option<Value>, initialData: Option<seq<Record>>)
      ensures this.table == table && this.filter == filter && this.filterValue == filterValue
      ensures data == initialData.GetOr([]) && loading && error == None
    {
      this.table := table;
      this.filter := filter;
      this.filterValue := filterValue;
      data := initialData.GetOr([]);
      loading := true;
      error := None;
    }

    /** `fetchData`: the select it issues carries `.eq(filter, filterValue)`
        only when both are given; the rows replace the snapshot, an error is
        stored instead, and loading is over in both cases. */
    method FetchData(reply: FetchReply) returns (issued: Query)
      modifies this`data, this`loading, this`error
      ensures issued.table == table && issued.order.None? && issued.limit.None?
      ensures issued.eq.Some? <==> Truthy(filter) && filterValue.Some?
      ensures issued.eq.Some? ==> issued.eq.value == (filter.value, filterValue.value)
      ensures !loading
      ensures reply.Fetched? ==> data == reply.rows && error == old(error)
      ensures reply.FetchFailed? ==> data == old(data) && error == Some(reply.fetchError)
    {
      loading := true;
      var query := Query(table, None, None, None);
      if Truthy(filter) && filterValue.Some? {
        query := query.(eq := Some((filter.value, filterValue.value)));
      }
      issued := query;
      match reply {
        case Fetched(rows) =>
          data := rows;
        case FetchFailed(e) =>
          error := Some(e);
      }
      loading := false;
    }

    /** The change-feed handler. */
    method OnChange(ev: ChangeEvent)
      modifies this`data
      ensures data == ApplyChange(old(data), ev, EqFilter(filter, filterValue))
    {
      data := ApplyChange(data, ev, EqFilter(filter, filterValue));
    }

    /** `addItem` as written: the placeholder is appended under the id made
        from the clock reading `now`; on success every row with that id is
        replaced by the inserted row, which is returned; on failure the
        rollback removes the rows whose id is made from a second reading
        `nowAtRollback`, the error is stored and rethrown. */
    method AddItem(newItem: Record, now: nat, reply: InsertReply, nowAtRollback: nat)
      returns (out: Outcome<Record>)
      modifies this`data, this`error
      ensures var optimistic := old(data) + [Placeholder(newItem, now)];
        match reply
        case Inserted(row) =>
          out == Resolved(row) && error == old(error) &&
          data == MapById(optimistic, Key(TempId(now)), SetTo(row))
        case InsertFailed(e) =>
          out == Rejected(e) && error == Some(e) &&
          data == RemoveById(optimistic, Key(TempId(nowAtRollback)))
    {
      var tempId := TempId(now);
      data := data + [Placeholder(newItem, now)];
      match reply
      case Inserted(row) =>
        data := MapById(data, Key(tempId), SetTo(row));
        out := Resolved(row);
      case InsertFailed(e) =>
        data := RemoveById(data, Key(TempId(nowAtRollback)));
        error := Some(e);
        out := Rejected(e);
    }

    /** `addItem` with the rollback keyed on the temporary id it created. */
    method AddItemFixed(newItem: Record, now: nat, reply: InsertReply)
      returns (out: Outcome<Record>)
      modifies this`data, this`error
      ensures var optimistic := old(data) + [Placeholder(newItem, now)];
        match reply
        case Inserted(row) =>
          out == Resolved(row) && error == old(error) &&
          data == MapById(optimistic, Key(TempId(now)), SetTo(row))
        case InsertFailed(e) =>
          out == Rejected(e) && error == Some(e) &&
          data == RemoveById(optimistic, Key(TempId(now)))
      ensures NoneWithId(old(data), Key(TempId(now))) ==>
        data == (if reply.Inserted? then old(data) + [reply.row] else old(data))
    {
      ghost var before := data;
      var tempId := TempId(now);
      data := data + [Placeholder(newItem, now)];
      match reply
      case Inserted(row) =>
        data := MapById(data, Key(tempId), SetTo(row));
        out := Resolved(row);
        if NoneWithId(before, Key(tempId)) {
          AddSuccessReplacesPlaceholderOnce(before, newItem, now, row);
        }
      case InsertFailed(e) =>
        data := RemoveById(data, Key(tempId));
        error := Some(e);
        out := Rejected(e);
        if NoneWithId(before, Key(tempId)) {
          RollbackRemovesPlaceholderIff(before, newItem, now, now);
        }
    }

    /** `updateItem`: the row found in the snapshot before the call is
        remembered, the updates are merged into every matching row, and then
        either the server row replaces them and is returned, or, if a row was
        found, the matching rows are set back to it; the error is stored and
        rethrown. */
    method UpdateItem(id: string, updates: Record, reply: UpdateReply)
      returns (out: Outcome<Record>)
      modifies this`data, this`error
      ensures var merged := MapById(old(data), Key(id), MergeIn(updates));
        match reply
        case Updated(row) =>
          out == Resolved(row) && error == old(error) &&
          data == MapById(merged, Key(id), SetTo(row))
        case UpdateFailed(e) =>
          out == Rejected(e) && error == Some(e) &&
          data == match FindById(old(data), Key(id))
                  case Some(original) => MapById(merged, Key(id), SetTo(original))
                  case None => merged
    {
      var originalItem := FindById(data, Key(id));
      data := MapById(data, Key(id), MergeIn(updates));
      match reply
      case Updated(row) =>
        data := MapById(data, Key(id), SetTo(row));
        out := Resolved(row);
      case UpdateFailed(e) =>
        if originalItem.Some? {
          data := MapById(data, Key(id), SetTo(originalItem.value));
        }
        error := Some(e);
        out := Rejected(e);
    }

    /** `deleteItem`: the row found before the call is remembered and every
        matching row is removed; on success it resolves with true, on
        failure the remembered row, if any, is appended at the end, and the
        error is stored and rethrown. */
    method DeleteItem(id: string, reply: DeleteReply) returns (out: Outcome<bool>)
      modifies this`data, this`error
      ensures var removed := RemoveById(old(data), Key(id));
        match reply
        case Deleted =>
          out == Resolved(true) && error == old(error) && data == removed
        case DeleteFailed(e) =>
          out == Rejected(e) && error == Some(e) &&
          data == removed + match FindById(old(data), Key(id))
                            case Some(original) => [original]
                            case None => []
    {
      var originalItem := FindById(data, Key(id));
      data := RemoveById(data, Key(id));
      match reply
      case Deleted =>
        out := Resolved(true);
      case DeleteFailed(e) =>
        if originalItem.Some? {
          data := data + [originalItem.value];
        }
        error := Some(e);
        out := Rejected(e);
    }
  }

  // ---------------------------------------------------------------------
  // What the mutations do to the snapshot
  // ---------------------------------------------------------------------

  /** A successful add replaces the placeholder exactly once: the snapshot
      ends up as before plus the inserted row at the end, provided no row
      already carried the temporary id. */
  lemma AddSuccessReplacesPlaceholderOnce(s: seq<Record>, newItem: Record, now: nat, row: Record)
    requires NoneWithId(s, Key(TempId(now)))
    ensures MapById(s + [Placeholder(newItem, now)], Key(TempId(now)), SetTo(row)) == s + [row]
  {
    var key := Key(TempId(now));
    MapByIdAppend(s, [Placeholder(newItem, now)], key, SetTo(row));
    MapByIdAbsent(s, key, SetTo(row));
  }

  /** The rollback of a failed add restores the snapshot exactly when the
      clock still reads what it read when the placeholder was made;
      otherwise the placeholder stays at the end. */
  lemma RollbackRemovesPlaceholderIff(s: seq<Record>, newItem: Record, now: nat, nowAtRollback: nat)
    requires NoneWithId(s, Key(TempId(nowAtRollback)))
    ensures RemoveById(s + [Placeholder(newItem, now)], Key(TempId(nowAtRollback))) ==
            (if now == nowAtRollback then s else s + [Placeholder(newItem, now)])
    ensures RemoveById(s + [Placeholder(newItem, now)], Key(TempId(nowAtRollback))) == s <==>
            now == nowAtRollback
  {
    var p := Placeholder(newItem, now);
    var key := Key(TempId(nowAtRollback));
    RemoveByIdAppend(s, [p], key);
    RemoveByIdAbsent(s, key);
    TempIdInjective(now, nowAtRollback);
    if now != nowAtRollback {
      RemoveByIdAbsent([p], key);
      assert |s + [p]| != |s|;
    } else {
      assert RemoveById([p], key) == [];
    }
  }

  /** A successful update ends with the server row where the id matched,
      as if the merge had never happened, when the updates keep the id. */
  lemma UpdateSuccessSetsServerRow(s: seq<Record>, id: string, updates: Record, row: Record)
    requires KeepsId(updates, id)
    ensures MapById(MapById(s, Key(id), MergeIn(updates)), Key(id), SetTo(row)) ==
            MapById(s, Key(id), SetTo(row))
  {
    MergeKeepsId(s, id, updates);
    MapByIdThenReplace(s, Key(id), MergeIn(updates), row);
  }

  lemma MergeKeepsId(s: seq<Record>, id: string, updates: Record)
    requires KeepsId(updates, id)
    ensures forall i :: 0 <= i < |s| && IdOf(s[i]) == Key(id) ==>
      IdOf(MergeIn(updates).ApplyTo(s[i])) == Key(id)
  {
    forall i | 0 <= i < |s| && IdOf(s[i]) == Key(id)
      ensures IdOf(MergeIn(updates).ApplyTo(s[i])) == Key(id)
    {
      var merged := s[i] + updates;
      assert "id" in merged;
      assert merged["id"] == if "id" in updates then updates["id"] else s[i]["id"];
    }
  }

  /** The rollback of a failed update restores the snapshot when the
      updates keep the id and the id is carried by one row only (more
      generally: all rows carrying it are equal). */
  lemma UpdateRollbackRestores(s: seq<Record>, id: string, updates: Record)
    requires KeepsId(updates, id)
    requires FindById(s, Key(id)).Some?
    requires forall i :: 0 <= i < |s| && IdOf(s[i]) == Key(id) ==> s[i] == FindById(s, Key(id)).value
    ensures var original := FindById(s, Key(id)).value;
      MapById(MapById(s, Key(id), MergeIn(updates)), Key(id), SetTo(original)) == s
  {
    var original := FindById(s, Key(id)).value;
    UpdateSuccessSetsServerRow(s, id, updates, original);
    ReplaceBySelf(s, Key(id), original);
  }

  /** An update whose changes rename the row defeats the rollback: the
      merged row no longer carries the id, so it is not set back. */
  lemma UpdateRollbackMissesRenamedRow(s: seq<Record>, id: string, updates: Record, k: int)
    requires 0 <= k < |s| && IdOf(s[k]) == Key(id)
    requires "id" in updates && updates["id"] != Str(id)
    ensures var original := FindById(s, Key(id)).value;
      MapById(MapById(s, Key(id), MergeIn(updates)), Key(id), SetTo(original))[k] == s[k] + updates
  {
    var merged := MapById(s, Key(id), MergeIn(updates));
    MapByIdAt(s, Key(id), MergeIn(updates), k);
    assert merged[k] == s[k] + updates;
    assert IdOf(merged[k]) == Some(updates["id"]);
    MapByIdAt(merged, Key(id), SetTo(FindById(s, Key(id)).value), k);
  }

  /** A failed delete of the single row with the id at position `k` brings
      the row back, but at the end: the rows are the same, the order is not
      (unless it was already last). */
  lemma DeleteRollbackMovesRowToEnd(s: seq<Record>, id: string, k: int)
    requires 0 <= k < |s| && IdOf(s[k]) == Key(id)
    requires forall i :: 0 <= i < |s| && i != k ==> IdOf(s[i]) != Key(id)
    ensures FindById(s, Key(id)) == Some(s[k])
    ensures RemoveById(s, Key(id)) + [s[k]] == s[..k] + s[k + 1..] + [s[k]]
    ensures multiset(RemoveById(s, Key(id)) + [s[k]]) == multiset(s)
  {
    assert NoneWithId(s[..k], Key(id)) by {
      forall i | 0 <= i < k ensures IdOf(s[..k][i]) != Key(id) { assert s[..k][i] == s[i]; }
    }
    FindByIdFirst(s, Key(id), k);
    RemoveByIdSingle(s, Key(id), k);
    MoveToEndKeepsMultiset(s, k);
  }
}
