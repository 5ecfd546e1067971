/** The simpler realtime hook of the `frontend` application: the initial
    select may be filtered, ordered and limited, but the change feed is
    applied without any filter, and there are no mutations. */
module FrontendRealtimeHook {
  import opened JsValues
  import opened Snapshot

  /** The `orderBy` option: a column and an optional direction. */
  datatype OrderBy = OrderBy(column: string, ascending: Option<bool>)

  /** `fetchData`'s query chain: `select('*')`, then `.eq` only when the
      column is non-empty and the value is defined, `.order` only when
      `orderBy` is given (ascending unless it says otherwise), and `.limit`
      only when the limit is truthy, so that a limit of 0 means no limit. */
  method BuildQuery(table: string, column: Option<string>, value: Option<Value>,
                    orderBy: Option<OrderBy>, limit: Option<int>)
    returns (query: Query)
    ensures query.table == table
    ensures query.eq.Some? <==> Truthy(column) && value.Some?
    ensures query.eq.Some? ==> query.eq.value == (column.value, value.value)
    ensures query.order.Some? <==> orderBy.Some?
    ensures query.order.Some? ==>
      query.order.value.0 == orderBy.value.column &&
      (query.order.value.1 <==> orderBy.value.ascending != Some(false))
    ensures query.limit.Some? <==> limit.Some? && limit.value != 0
    ensures query.limit.Some? ==> query.limit == limit
  {
    query := Query(table, None, None, None);
    if Truthy(column) && value.Some? {
      query := query.(eq := Some((column.value, value.value)));
    }
    if orderBy.Some? {
      query := query.(order := Some((orderBy.value.column, orderBy.value.ascending.GetOr(true))));
    }
    if limit.Some? && limit.value != 0 {
      query := query.(limit := limit);
    }
  }

  class RealtimeData {
    const table: string
    const column: Option<string>
    const value: Option<Value>
    const orderBy: Option<OrderBy>
    const limit: Option<int>
    var data: seq<Record>
    var loading: bool
    var error: Option<StoreError>

    /** The hook's initial state: an empty snapshot, loading, no error. */
    constructor (table: string, column: Option<string>, value: Option<Value>,
                 orderBy: Option<OrderBy>, limit: Option<int>)
      ensures this.table == table && this.column == column && this.value == value
      ensures this.orderBy == orderBy && this.limit == limit
      ensures data == [] && loading && error == None
    {
      this.table := table;
      this.column := column;
      this.value := value;
      this.orderBy := orderBy;
      this.limit := limit;
      data := [];
      loading := true;
      error := None;
    }

    /** `fetchData`: issues the query BuildQuery makes; the rows replace the
        snapshot or the error is stored, and loading is over either way. */
    method FetchData(reply: FetchReply) returns (issued: Query)
      modifies this`data, this`loading, this`error
      ensures issued.table == table
      ensures issued.eq.Some? <==> Truthy(column) && value.Some?
      ensures issued.eq.Some? ==> issued.eq.value == (column.value, value.value)
      ensures issued.order.Some? <==> orderBy.Some?
      ensures issued.order.Some? ==>
        issued.order.value.0 == orderBy.value.column &&
        (issued.order.value.1 <==> orderBy.value.ascending != Some(false))
      ensures issued.limit.Some? <==> limit.Some? && limit.value != 0
      ensures issued.limit.Some? ==> issued.limit == limit
      ensures !loading
      ensures reply.Fetched? ==> data == reply.rows && error == old(error)
      ensures reply.FetchFailed? ==> data == old(data) && error == Some(reply.fetchError)
    {
      loading := true;
      issued := BuildQuery(table, column, value, orderBy, limit);
      match reply {
        case Fetched(rows) =>
          data := rows;
        case FetchFailed(e) =>
          error := Some(e);
      }
      loading := false;
    }

    /** The change-feed handler: an INSERT is always appended, even when the
        initial select was filtered by `column` and `value`. */
    method OnChange(ev: ChangeEvent)
      modifies this`data
      ensures data == ApplyChange(old(data), ev, None)
      ensures ev.Insert? ==> data == old(data) + [ev.newRow]
    {
      data := ApplyChange(data, ev, None);
    }
  }
}
