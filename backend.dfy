/**
 * The hosted backend as the views and forms see it. Nothing here talks to a
 * server: each request a handler issues is recorded as a `Call` value in a
 * ghost trace, and the answer it gets back is an argument of the handler.
 */
module Backend {
  import opened Wrappers

  /** A request to the hosted database, RPC or file store. */
  datatype Call<R> =
    | Select(table: string, newestFirstBy: string)   // select('*').order(col, { ascending: false })
    | Insert(table: string, rows: seq<R>)
    | Update(table: string, id: string, row: R)      // update(row).eq('id', id)
    | Delete(table: string, id: string)              // delete().eq('id', id)
    | Rpc(enumName: string)                          // rpc('get_enum_values', { enum_name })
    | Upload(bucket: string, path: string)

  /** What a handler does that outlives it, in the order it does it. */
  datatype Effect<R> =
    | Request(call: Call<R>)
    | Loading(on: bool)
    | Uploading(on: bool)
    | CallbackInvoked          // the parent's onComplete() was called

  /** The answer to a `Select`: rows (possibly null) or an error. */
  datatype Response<R> = Fetched(data: Option<seq<R>>) | FetchFailed(message: string)

  /** `data || []`: a null answer reads as no rows. */
  function OrEmpty<T>(data: Option<seq<T>>): (r: seq<T>)
    ensures data.Some? ==> r == data.value
    ensures data.None? ==> r == []
  {
    if data.Some? then data.value else []
  }

  /**
   * JavaScript truthiness of a record's `id`: present and not the empty string.
   * Ids are modelled as their text (the backend's UUIDs).
   */
  predicate IdPresent(id: Option<string>)
  {
    id.Some? && id.value != ""
  }

  /**
   * The request a form's submit issues: an update keyed on the id when the
   * record has one, an insert of the one record otherwise; never both.
   */
  function SaveCall<R>(table: string, id: Option<string>, row: R): (c: Call<R>)
    ensures c.Update? <==> IdPresent(id)
    ensures c.Insert? <==> !IdPresent(id)
    ensures c.Update? ==> c.table == table && c.id == id.value && c.row == row
    ensures c.Insert? ==> c.table == table && c.rows == [row]
  {
    if IdPresent(id) then Update(table, id.value, row) else Insert(table, [row])
  }
}
