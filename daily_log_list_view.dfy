/**
 * The operations review board: the in-memory list of daily logs, its search
 * filter, the safety and task badges, the alert row class, the expanded-row
 * slot, and the fetch and delete handlers.
 */
module DailyLogListing {
  import opened Wrappers
  import opened Text
  import opened Backend
  import opened Listing
  import opened DailyLogs

  /** The fields the search box looks in. */
  const SearchedFields: set<LogText> := {LogBy, Department, Discipline, DailyLogDetails}

  /** The search predicate of the filter effect. */
  predicate LogMatches(log: DailyLog, term: string)
  {
    || FieldMatches(Get(log.text, LogBy), term)
    || FieldMatches(Get(log.text, Department), term)
    || FieldMatches(Get(log.text, Discipline), term)
    || FieldMatches(Get(log.text, DailyLogDetails), term)
  }

  /**
   * A log is kept exactly when one of the searched fields is present and its
   * lower-cased text includes the lower-cased term.
   */
  lemma LogMatchesIff(log: DailyLog, term: string)
    ensures LogMatches(log, term) <==>
      exists f :: f in SearchedFields && f in log.text && Includes(Lower(log.text[f]), Lower(term))
  {
    forall f | f in SearchedFields
      ensures FieldMatches(Get(log.text, f), term) <==> f in log.text && Includes(Lower(log.text[f]), Lower(term))
    {
      FieldMatchesGet(log.text, f, term);
    }
  }

  /** With an empty term a log is kept exactly when some searched field is present. */
  lemma EmptyTermKeeps(log: DailyLog)
    ensures LogMatches(log, "") <==> exists f :: f in SearchedFields && f in log.text
  {
    forall f | f in SearchedFields
      ensures FieldMatches(Get(log.text, f), "") <==> f in log.text
    {
      EmptyTermMatchesPresent(Get(log.text, f));
    }
    if LogMatches(log, "") {
      var f :| f in SearchedFields && FieldMatches(Get(log.text, f), "");
      assert f in log.text;
    }
  }

  /** The filtered list: the logs that match, in their original order. */
  function FilterLogs(rows: seq<DailyLog>, term: string): (r: seq<DailyLog>)
    ensures forall l :: multiset(r)[l] == if LogMatches(l, term) then multiset(rows)[l] else 0
    ensures forall l :: l in r <==> l in rows && LogMatches(l, term)
    ensures IsSubsequence(r, rows)
  {
    var keep := (l: DailyLog) => LogMatches(l, term);
    FilterCounts(rows, keep);
    FilterIsSubsequence(rows, keep);
    Filter(rows, keep)
  }

  /** The empty search is the identity on rows that have at least one searched field. */
  lemma EmptySearchKeepsRows(rows: seq<DailyLog>)
    requires forall l :: l in rows ==> exists f :: f in SearchedFields && f in l.text
    ensures FilterLogs(rows, "") == rows
  {
    forall l | l in rows ensures LogMatches(l, "") {
      EmptyTermKeeps(l);
    }
    FilterKeepsAll(rows, (l: DailyLog) => LogMatches(l, ""));
  }

  /** The class of a summary row: red exactly when a safety incident is recorded. */
  function RowClass(log: DailyLog): (c: string)
    ensures c == "row-red-alert" <==> FlagSet(log, SafetyIncidents)
    ensures c != "row-red-alert" ==> c == ""
  {
    if FlagSet(log, SafetyIncidents) then "row-red-alert" else ""
  }

  /** The safety badge: INCIDENT in danger style when an incident is recorded, else CLEAR. */
  function SafetyBadge(log: DailyLog): (b: Badge)
    ensures FlagSet(log, SafetyIncidents) <==> b == Badge("danger", "INCIDENT")
    ensures !FlagSet(log, SafetyIncidents) <==> b == Badge("success", "CLEAR")
  {
    if FlagSet(log, SafetyIncidents) then Badge("danger", "INCIDENT") else Badge("success", "CLEAR")
  }

  /** The tasks badge: COMPLETE when all the day's work was completed, else PENDING. */
  function TasksBadge(log: DailyLog): (b: Badge)
    ensures FlagSet(log, AllWorkDayCompleted) <==> b == Badge("success", "COMPLETE")
    ensures !FlagSet(log, AllWorkDayCompleted) <==> b == Badge("neutral", "PENDING")
  {
    if FlagSet(log, AllWorkDayCompleted) then Badge("success", "COMPLETE") else Badge("neutral", "PENDING")
  }

  /** A red row and an INCIDENT badge always go together. */
  lemma AlertRowShowsIncident(log: DailyLog)
    ensures RowClass(log) == "row-red-alert" <==> SafetyBadge(log).text == "INCIDENT"
  {
  }

  const Table := "daily_logs"
  const NewestFirstBy := "created_at"

  /** The component's state. */
  class DailyLogListView {
    var logs: seq<DailyLog>
    var filteredLogs: seq<DailyLog>
    var loading: bool
    var searchTerm: string
    var expandedRow: Option<string>
    /** The backend requests issued so far, with the loading flag's changes. */
    ghost var trace: seq<Effect<DailyLog>>

    /** Once the [searchTerm, logs] effect has run, the shown list is the filtered full list. */
    ghost predicate Valid()
      reads this
    {
      filteredLogs == FilterLogs(logs, searchTerm)
    }

    constructor()
      ensures Valid()
      ensures logs == [] && filteredLogs == [] && loading && searchTerm == ""
      ensures expandedRow == None && trace == []
    {
      logs, filteredLogs := [], [];
      loading := true;
      searchTerm := "";
      expandedRow := None;
      trace := [];
    }

    /** Typing in the search box; the filter effect then recomputes the shown list. */
    method SetSearchTerm(term: string)
      modifies this
      ensures Valid()
      ensures searchTerm == term && filteredLogs == FilterLogs(logs, term)
      ensures logs == old(logs) && loading == old(loading)
      ensures expandedRow == old(expandedRow) && trace == old(trace)
    {
      searchTerm := term;
      filteredLogs := FilterLogs(logs, searchTerm);
    }

    /** Fetches every log, newest first; `response` is the backend's answer. */
    method FetchLogs(response: Response<DailyLog>)
      requires Valid()
      modifies this
      ensures Valid()
      ensures logs == RowsAfterFetch(old(logs), response)
      ensures response.FetchFailed? ==> filteredLogs == old(filteredLogs)
      ensures !loading
      ensures searchTerm == old(searchTerm) && expandedRow == old(expandedRow)
      ensures trace == old(trace) + [Loading(true), Request(Select(Table, NewestFirstBy)), Loading(false)]
    {
      loading := true;
      if response.Fetched? {
        logs := OrEmpty(response.data);
        filteredLogs := OrEmpty(response.data);
        // The list changed, so the filter effect runs again over it.
        filteredLogs := FilterLogs(logs, searchTerm);
      }
      loading := false;
      trace := trace + [Loading(true), Request(Select(Table, NewestFirstBy)), Loading(false)];
    }

    /**
     * Deletes the log with `id` once the user confirms; `deleteError` is the
     * backend's answer to the delete and `refetch` its answer to the fetch that
     * follows a successful one.
     */
    method HandleDelete(id: string, confirmed: bool, deleteError: Option<string>, refetch: Response<DailyLog>)
      requires Valid()
      modifies this
      ensures Valid()
      ensures !confirmed ==> unchanged(this)
      ensures confirmed && deleteError.Some? ==>
        && logs == old(logs) && filteredLogs == old(filteredLogs) && loading == old(loading)
        && trace == old(trace) + [Request(Delete(Table, id))]
      ensures confirmed && deleteError.None? ==>
        && logs == RowsAfterFetch(old(logs), refetch) && !loading
        && trace == old(trace) + [Request(Delete(Table, id)), Loading(true),
                                  Request(Select(Table, NewestFirstBy)), Loading(false)]
      ensures searchTerm == old(searchTerm) && expandedRow == old(expandedRow)
    {
      if confirmed {
        trace := trace + [Request(Delete(Table, id))];
        if deleteError.None? {
          FetchLogs(refetch);
        }
      }
    }

    /** The MORE INFO / CLOSE button of the row with `id`. */
    method ToggleRow(id: string)
      modifies this
      ensures expandedRow == Toggle(old(expandedRow), id)
      ensures logs == old(logs) && filteredLogs == old(filteredLogs)
      ensures loading == old(loading) && searchTerm == old(searchTerm) && trace == old(trace)
    {
      expandedRow := Toggle(expandedRow, id);
    }
  }
}
