/**
 * The skill matrix registry: the in-memory list of training records, its search
 * filter, the completion badge, the shortened record id, the expanded-row
 * slot, and the fetch and delete handlers.
 */
module TrainingListing {
  import opened Wrappers
  import opened Text
  import opened Backend
  import opened Listing
  import opened TrainingRecords

  /** The fields the search box looks in. */
  const SearchedFields: set<TrainingField> := {TraineeName, TrainingTopic, Trainer}

  /** The search predicate of the filter effect. */
  predicate RecordMatches(r: TrainingRecord, term: string)
  {
    || FieldMatches(Get(r.text, TraineeName), term)
    || FieldMatches(Get(r.text, TrainingTopic), term)
    || FieldMatches(Get(r.text, Trainer), term)
  }

  /**
   * A record is kept exactly when one of the searched fields is present and its
   * lower-cased text includes the lower-cased term.
   */
  lemma RecordMatchesIff(r: TrainingRecord, term: string)
    ensures RecordMatches(r, term) <==>
      exists f :: f in SearchedFields && f in r.text && Includes(Lower(r.text[f]), Lower(term))
  {
    forall f | f in SearchedFields
      ensures FieldMatches(Get(r.text, f), term) <==> f in r.text && Includes(Lower(r.text[f]), Lower(term))
    {
      FieldMatchesGet(r.text, f, term);
    }
  }

  /** With an empty term a record is kept exactly when some searched field is present. */
  lemma EmptyTermKeeps(r: TrainingRecord)
    ensures RecordMatches(r, "") <==> exists f :: f in SearchedFields && f in r.text
  {
    forall f | f in SearchedFields
      ensures FieldMatches(Get(r.text, f), "") <==> f in r.text
    {
      EmptyTermMatchesPresent(Get(r.text, f));
    }
    if RecordMatches(r, "") {
      var f :| f in SearchedFields && FieldMatches(Get(r.text, f), "");
      assert f in r.text;
    }
  }

  /** The filtered list: the records that match, in their original order. */
  function FilterRecords(rows: seq<TrainingRecord>, term: string): (r: seq<TrainingRecord>)
    ensures forall x :: multiset(r)[x] == if RecordMatches(x, term) then multiset(rows)[x] else 0
    ensures forall x :: x in r <==> x in rows && RecordMatches(x, term)
    ensures IsSubsequence(r, rows)
  {
    var keep := (x: TrainingRecord) => RecordMatches(x, term);
    FilterCounts(rows, keep);
    FilterIsSubsequence(rows, keep);
    Filter(rows, keep)
  }

  /** The empty search is the identity on rows that have at least one searched field. */
  lemma EmptySearchKeepsRows(rows: seq<TrainingRecord>)
    requires forall x :: x in rows ==> exists f :: f in SearchedFields && f in x.text
    ensures FilterRecords(rows, "") == rows
  {
    forall x | x in rows ensures RecordMatches(x, "") {
      EmptyTermKeeps(x);
    }
    FilterKeepsAll(rows, (x: TrainingRecord) => RecordMatches(x, ""));
  }

  /** The status badge: COMPLETED when the training is marked complete, else PENDING. */
  function CompletionBadge(r: TrainingRecord): (b: Badge)
    ensures r.isCompleted <==> b == Badge("status-complete", "COMPLETED")
    ensures !r.isCompleted <==> b == Badge("status-open", "PENDING")
  {
    if r.isCompleted then Badge("status-complete", "COMPLETED") else Badge("status-open", "PENDING")
  }

  /** `id.toString().slice(0, 8)`: the first eight characters of the id, or all of a shorter one. */
  function ShortId(id: string): (s: string)
    ensures |s| <= 8 && |s| <= |id|
    ensures s == id[..|s|]
    ensures |s| < 8 ==> s == id
  {
    if |id| <= 8 then id else id[..8]
  }

  const Table := "training"
  const NewestFirstBy := "created_at"

  /** The component's state. */
  class TrainingListView {
    var records: seq<TrainingRecord>
    var filteredRecords: seq<TrainingRecord>
    var loading: bool
    var searchTerm: string
    var expandedRow: Option<string>
    /** The backend requests issued so far, with the loading flag's changes. */
    ghost var trace: seq<Effect<TrainingRecord>>

    /** Once the [searchTerm, records] effect has run, the shown list is the filtered full list. */
    ghost predicate Valid()
      reads this
    {
      filteredRecords == FilterRecords(records, searchTerm)
    }

    constructor()
      ensures Valid()
      ensures records == [] && filteredRecords == [] && loading && searchTerm == ""
      ensures expandedRow == None && trace == []
    {
      records, filteredRecords := [], [];
      loading := true;
      searchTerm := "";
      expandedRow := None;
      trace := [];
    }

    /** Typing in the search box; the filter effect then recomputes the shown list. */
    method SetSearchTerm(term: string)
      modifies this
      ensures Valid()
      ensures searchTerm == term && filteredRecords == FilterRecords(records, term)
      ensures records == old(records) && loading == old(loading)
      ensures expandedRow == old(expandedRow) && trace == old(trace)
    {
      searchTerm := term;
      filteredRecords := FilterRecords(records, searchTerm);
    }

    /** Fetches every training record, newest first; `response` is the backend's answer. */
    method FetchTrainingData(response: Response<TrainingRecord>)
      requires Valid()
      modifies this
      ensures Valid()
      ensures records == RowsAfterFetch(old(records), response)
      ensures response.FetchFailed? ==> filteredRecords == old(filteredRecords)
      ensures !loading
      ensures searchTerm == old(searchTerm) && expandedRow == old(expandedRow)
      ensures trace == old(trace) + [Loading(true), Request(Select(Table, NewestFirstBy)), Loading(false)]
    {
      loading := true;
      if response.Fetched? {
        records := OrEmpty(response.data);
        filteredRecords := OrEmpty(response.data);
        // The list changed, so the filter effect runs again over it.
        filteredRecords := FilterRecords(records, searchTerm);
      }
      loading := false;
      trace := trace + [Loading(true), Request(Select(Table, NewestFirstBy)), Loading(false)];
    }

    /**
     * Deletes the record with `id` once the user confirms; `deleteError` is the
     * backend's answer to the delete and `refetch` its answer to the fetch that
     * follows a successful one.
     */
    method HandleDelete(id: string, confirmed: bool, deleteError: Option<string>, refetch: Response<TrainingRecord>)
      requires Valid()
      modifies this
      ensures Valid()
      ensures !confirmed ==> unchanged(this)
      ensures confirmed && deleteError.Some? ==>
        && records == old(records) && filteredRecords == old(filteredRecords) && loading == old(loading)
        && trace == old(trace) + [Request(Delete(Table, id))]
      ensures confirmed && deleteError.None? ==>
        && records == RowsAfterFetch(old(records), refetch) && !loading
        && trace == old(trace) + [Request(Delete(Table, id)), Loading(true),
                                  Request(Select(Table, NewestFirstBy)), Loading(false)]
      ensures searchTerm == old(searchTerm) && expandedRow == old(expandedRow)
    {
      if confirmed {
        trace := trace + [Request(Delete(Table, id))];
        if deleteError.None? {
          FetchTrainingData(refetch);
        }
      }
    }

    /** The VIEW INFO / CLOSE button of the row with `id`. */
    method ToggleRow(id: string)
      modifies this
      ensures expandedRow == Toggle(old(expandedRow), id)
      ensures records == old(records) && filteredRecords == old(filteredRecords)
      ensures loading == old(loading) && searchTerm == old(searchTerm) && trace == old(trace)
    {
      expandedRow := Toggle(expandedRow, id);
    }
  }
}
