/** The in-memory snapshot of one table that both realtime hooks keep: an
    ordered sequence of id-keyed rows, the pure `map`/`filter`/append
    transforms their `setData` updaters apply to it, and the shapes of what
    the store sends back. */
module Snapshot {
  import opened JsValues
  import opened Seqs

  /** `(row as any).id`; `None` is `undefined`, so two rows without an id
      compare equal under `===`, as they do in the source. */
  function IdOf(r: Record): Option<Value> {
    Field(r, "id")
  }

  /** No row of `s` carries the id `id`. */
  predicate NoneWithId(s: seq<Record>, id: Option<Value>) {
    forall i :: 0 <= i < |s| ==> IdOf(s[i]) != id
  }

  // ---------------------------------------------------------------------
  // The per-row edits used inside `map`
  // ---------------------------------------------------------------------

  /** What a `map` updater does to a row whose id matches. */
  datatype Edit =
    | SetTo(row: Record)          // `item.id === id ? row : item`
    | MergeIn(updates: Record)    // `item.id === id ? { ...item, ...updates } : item`
  {
    function ApplyTo(item: Record): Record {
      match this
      case SetTo(row) => row
      case MergeIn(updates) => item + updates
    }
  }

  /** `s.map(item => item.id === id ? edit(item) : item)` */
  function MapById(s: seq<Record>, id: Option<Value>, edit: Edit): (r: seq<Record>)
    ensures |r| == |s|
  {
    if s == [] then []
    else [if IdOf(s[0]) == id then edit.ApplyTo(s[0]) else s[0]] + MapById(s[1..], id, edit)
  }

  /** Each position is edited exactly when its row has the id; length and
      order are kept. */
  lemma {:induction false} MapByIdAt(s: seq<Record>, id: Option<Value>, edit: Edit, i: int)
    requires 0 <= i < |s|
    ensures MapById(s, id, edit)[i] == if IdOf(s[i]) == id then edit.ApplyTo(s[i]) else s[i]
  {
    if i > 0 {
      MapByIdAt(s[1..], id, edit, i - 1);
    }
  }

  /** An id that no row has leaves the snapshot unchanged. */
  lemma {:induction false} MapByIdAbsent(s: seq<Record>, id: Option<Value>, edit: Edit)
    requires NoneWithId(s, id)
    ensures MapById(s, id, edit) == s
  {
    if s != [] {
      MapByIdAbsent(s[1..], id, edit);
      assert [s[0]] + s[1..] == s;
    }
  }

  /** `map` distributes over concatenation. */
  lemma {:induction false} MapByIdAppend(a: seq<Record>, b: seq<Record>, id: Option<Value>, edit: Edit)
    ensures MapById(a + b, id, edit) == MapById(a, id, edit) + MapById(b, id, edit)
  {
    if a != [] {
      assert (a + b)[1..] == a[1..] + b;
      MapByIdAppend(a[1..], b, id, edit);
    } else {
      assert a + b == b;
    }
  }

  /** Replacing the rows with an id by `row` after an edit that keeps their
      id is the same as replacing them straight away. */
  lemma {:induction false} MapByIdThenReplace(s: seq<Record>, id: Option<Value>, first: Edit, row: Record)
    requires forall i :: 0 <= i < |s| && IdOf(s[i]) == id ==> IdOf(first.ApplyTo(s[i])) == id
    ensures MapById(MapById(s, id, first), id, SetTo(row)) == MapById(s, id, SetTo(row))
  {
    if s != [] {
      assert forall i :: 0 <= i < |s[1..]| && IdOf(s[1..][i]) == id ==> IdOf(first.ApplyTo(s[1..][i])) == id by {
        forall i | 0 <= i < |s[1..]| && IdOf(s[1..][i]) == id
          ensures IdOf(first.ApplyTo(s[1..][i])) == id
        {
          assert s[1..][i] == s[i + 1];
        }
      }
      MapByIdThenReplace(s[1..], id, first, row);
    }
  }

  /** Replacing the rows with an id by `row` changes nothing when each of
      those rows already is `row`. */
  lemma {:induction false} ReplaceBySelf(s: seq<Record>, id: Option<Value>, row: Record)
    requires forall i :: 0 <= i < |s| && IdOf(s[i]) == id ==> s[i] == row
    ensures MapById(s, id, SetTo(row)) == s
  {
    if s != [] {
      ReplaceBySelf(s[1..], id, row);
      assert [s[0]] + s[1..] == s;
    }
  }

  // ---------------------------------------------------------------------
  // Removal and lookup
  // ---------------------------------------------------------------------

  /** `s.filter(item => item.id !== id)` */
  function RemoveById(s: seq<Record>, id: Option<Value>): (r: seq<Record>)
    ensures |r| <= |s|
    ensures NoneWithId(r, id)
  {
    Filter(s, (item: Record) => IdOf(item) != id)
  }

  /** Removal drops exactly the rows with the id: what is left is a
      subsequence of the snapshot, in the same order, and every other row
      keeps its multiplicity. */
  lemma RemoveByIdExactly(s: seq<Record>, id: Option<Value>, x: Record)
    ensures IsSubsequence(RemoveById(s, id), s)
    ensures multiset(RemoveById(s, id))[x] == if IdOf(x) != id then multiset(s)[x] else 0
  {
    FilterIsSubsequence(s, (item: Record) => IdOf(item) != id);
    FilterMultiplicity(s, (item: Record) => IdOf(item) != id, x);
  }

  /** Removal distributes over concatenation. */
  lemma RemoveByIdAppend(a: seq<Record>, b: seq<Record>, id: Option<Value>)
    ensures RemoveById(a + b, id) == RemoveById(a, id) + RemoveById(b, id)
  {
    FilterAppend(a, b, (item: Record) => IdOf(item) != id);
  }

  /** Removing an id that no row has changes nothing. */
  lemma RemoveByIdAbsent(s: seq<Record>, id: Option<Value>)
    requires NoneWithId(s, id)
    ensures RemoveById(s, id) == s
  {
    FilterKeepsAll(s, (item: Record) => IdOf(item) != id);
  }

  /** Removal of the id of the single row at index `k` leaves the rows
      before and after it. */
  lemma RemoveByIdSingle(s: seq<Record>, id: Option<Value>, k: int)
    requires 0 <= k < |s| && IdOf(s[k]) == id
    requires forall i :: 0 <= i < |s| && i != k ==> IdOf(s[i]) != id
    ensures RemoveById(s, id) == s[..k] + s[k + 1..]
  {
    var before, after := s[..k], s[k + 1..];
    assert s == before + ([s[k]] + after);
    assert NoneWithId(before, id) by {
      forall i | 0 <= i < |before| ensures IdOf(before[i]) != id { assert before[i] == s[i]; }
    }
    assert NoneWithId(after, id) by {
      forall i | 0 <= i < |after| ensures IdOf(after[i]) != id { assert after[i] == s[k + 1 + i]; }
    }
    assert RemoveById([s[k]], id) == [] by {
      assert |RemoveById([s[k]], id)| <= 1 && NoneWithId(RemoveById([s[k]], id), id);
    }
    calc {
      RemoveById(s, id);
      { RemoveByIdAppend(before, [s[k]] + after, id); }
      RemoveById(before, id) + RemoveById([s[k]] + after, id);
      { RemoveByIdAppend([s[k]], after, id); }
      RemoveById(before, id) + (RemoveById([s[k]], id) + RemoveById(after, id));
      { RemoveByIdAbsent(before, id); RemoveByIdAbsent(after, id); }
      before + ([] + after);
    }
  }

  /** `s.find(item => item.id === id)` */
  function FindById(s: seq<Record>, id: Option<Value>): (r: Option<Record>)
    ensures r.None? <==> NoneWithId(s, id)
    ensures r.Some? ==> IdOf(r.value) == id && r.value in s
  {
    if s == [] then None
    else if IdOf(s[0]) == id then Some(s[0])
    else FindById(s[1..], id)
  }

  /** `find` returns the first row with the id. */
  lemma {:induction false} FindByIdFirst(s: seq<Record>, id: Option<Value>, k: int)
    requires 0 <= k < |s| && IdOf(s[k]) == id
    requires NoneWithId(s[..k], id)
    ensures FindById(s, id) == Some(s[k])
  {
    if k > 0 {
      assert IdOf(s[..k][0]) != id;
      assert s[1..][..k - 1] == s[..k][1..];
      FindByIdFirst(s[1..], id, k - 1);
    }
  }

  // ---------------------------------------------------------------------
  // Push-channel events
  // ---------------------------------------------------------------------

  /** A change notification: its event type with `payload.new` or `payload.old`. */
  datatype ChangeEvent =
    | Insert(newRow: Record)
    | Update(newRow: Record)
    | Delete(oldRow: Record)

  /** The equality filter a hook applies when both its column and its value
      are given: `column && value !== undefined`. */
  function EqFilter(column: Option<string>, value: Option<Value>): (g: Option<(string, Value)>)
    ensures g.Some? <==> Truthy(column) && value.Some?
    ensures g.Some? ==> g.value == (column.value, value.value)
  {
    if Truthy(column) && value.Some? then Some((column.value, value.value)) else None
  }

  /** The snapshot after one event. An INSERT is appended, if `guard` is set
      only when the new row's field equals the filter value; an UPDATE
      replaces the rows with the new row's id; a DELETE drops the rows with
      the old row's id. */
  function ApplyChange(s: seq<Record>, ev: ChangeEvent, guard: Option<(string, Value)>): (r: seq<Record>)
    ensures ev.Insert? ==> r == s || r == s + [ev.newRow]
    ensures ev.Update? ==> |r| == |s|
    ensures ev.Delete? ==> |r| <= |s| && NoneWithId(r, IdOf(ev.oldRow))
  {
    match ev
    case Insert(row) =>
      if guard.None? || Field(row, guard.value.0) == Some(guard.value.1) then s + [row] else s
    case Update(row) => MapById(s, IdOf(row), SetTo(row))
    case Delete(row) => RemoveById(s, IdOf(row))
  }

  /** An INSERT appends at the end or leaves the snapshot alone, and which
      one is decided by the guard alone. */
  lemma InsertEventAppendsIfMatching(s: seq<Record>, row: Record, guard: Option<(string, Value)>)
    ensures var r := ApplyChange(s, Insert(row), guard);
      var matches := guard.None? || Field(row, guard.value.0) == Some(guard.value.1);
      (matches ==> |r| == |s| + 1 && r[..|s|] == s && r[|s|] == row) &&
      (!matches ==> r == s)
  {
    var r := ApplyChange(s, Insert(row), guard);
    if guard.None? || Field(row, guard.value.0) == Some(guard.value.1) {
      assert r == s + [row];
      assert r[..|s|] == s;
    }
  }

  /** An UPDATE keeps length and order, puts the new row exactly where the
      id matched, and is a no-op for an id that no row has, whatever the
      hook's filter: the filter only ever guards INSERTs. */
  lemma UpdateEventReplacesInPlace(s: seq<Record>, row: Record, guard: Option<(string, Value)>, i: int)
    requires 0 <= i < |s|
    ensures var r := ApplyChange(s, Update(row), guard);
      |r| == |s| && r[i] == (if IdOf(s[i]) == IdOf(row) then row else s[i])
    ensures NoneWithId(s, IdOf(row)) ==> ApplyChange(s, Update(row), guard) == s
  {
    MapByIdAt(s, IdOf(row), SetTo(row), i);
    if NoneWithId(s, IdOf(row)) {
      MapByIdAbsent(s, IdOf(row), SetTo(row));
    }
  }

  /** A DELETE removes exactly the rows carrying the old row's id and keeps
      the order of the others, whatever the hook's filter. */
  lemma DeleteEventRemovesExactly(s: seq<Record>, row: Record, guard: Option<(string, Value)>, x: Record)
    ensures var r := ApplyChange(s, Delete(row), guard);
      IsSubsequence(r, s) && NoneWithId(r, IdOf(row)) &&
      multiset(r)[x] == if IdOf(x) != IdOf(row) then multiset(s)[x] else 0
  {
    RemoveByIdExactly(s, IdOf(row), x);
  }

  // ---------------------------------------------------------------------
  // What the store is asked and what it answers
  // ---------------------------------------------------------------------

  /** A select query as the builder chain leaves it: the table, an optional
      `.eq(column, value)`, an optional `.order(column, { ascending })` and an
      optional `.limit(n)`. */
  datatype Query = Query(
    table: string,
    eq: Option<(string, Value)>,
    order: Option<(string, bool)>,
    limit: Option<int>)

  /** The error object a failed store call produces. */
  datatype StoreError = StoreError(message: string)

  datatype FetchReply = Fetched(rows: seq<Record>) | FetchFailed(fetchError: StoreError)
}
