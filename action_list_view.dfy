/**
 * The action registry board: the in-memory list of actions, its search filter,
 * the priority and status badges, the expanded-row slot, and the fetch and
 * delete handlers.
 */
module ActionListing {
  import opened Wrappers
  import opened Text
  import opened Backend
  import opened Listing
  import opened ActionItems

  /** The fields the search box looks in. */
  const SearchedFields: set<ActionField> := {Responsibility, MainEquipment, PlantArea, Issue, Contractor}

  /** The search predicate of the filter effect. */
  predicate ActionMatches(a: ActionItem, term: string)
  {
    || FieldMatches(Get(a.fields, Responsibility), term)
    || FieldMatches(Get(a.fields, MainEquipment), term)
    || FieldMatches(Get(a.fields, PlantArea), term)
    || FieldMatches(Get(a.fields, Issue), term)
    || FieldMatches(Get(a.fields, Contractor), term)
  }

  /**
   * An action is kept exactly when one of the searched fields is present and its
   * lower-cased text includes the lower-cased term.
   */
  lemma ActionMatchesIff(a: ActionItem, term: string)
    ensures ActionMatches(a, term) <==>
      exists f :: f in SearchedFields && f in a.fields && Includes(Lower(a.fields[f]), Lower(term))
  {
    forall f | f in SearchedFields
      ensures FieldMatches(Get(a.fields, f), term) <==> f in a.fields && Includes(Lower(a.fields[f]), Lower(term))
    {
      FieldMatchesGet(a.fields, f, term);
    }
  }

  /** With an empty term an action is kept exactly when some searched field is present. */
  lemma EmptyTermKeeps(a: ActionItem)
    ensures ActionMatches(a, "") <==> exists f :: f in SearchedFields && f in a.fields
  {
    forall f | f in SearchedFields
      ensures FieldMatches(Get(a.fields, f), "") <==> f in a.fields
    {
      EmptyTermMatchesPresent(Get(a.fields, f));
    }
    if ActionMatches(a, "") {
      var f :| f in SearchedFields && FieldMatches(Get(a.fields, f), "");
      assert f in a.fields;
    }
  }

  /** The filtered list: the actions that match, in their original order. */
  function FilterActions(rows: seq<ActionItem>, term: string): (r: seq<ActionItem>)
    ensures forall a :: multiset(r)[a] == if ActionMatches(a, term) then multiset(rows)[a] else 0
    ensures forall a :: a in r <==> a in rows && ActionMatches(a, term)
    ensures IsSubsequence(r, rows)
  {
    var keep := (a: ActionItem) => ActionMatches(a, term);
    FilterCounts(rows, keep);
    FilterIsSubsequence(rows, keep);
    Filter(rows, keep)
  }

  /**
   * The empty search is the identity on rows that have at least one searched
   * field; rows with none of them are hidden even then.
   */
  lemma EmptySearchKeepsRows(rows: seq<ActionItem>)
    requires forall a :: a in rows ==> exists f :: f in SearchedFields && f in a.fields
    ensures FilterActions(rows, "") == rows
  {
    forall a | a in rows ensures ActionMatches(a, "") {
      EmptyTermKeeps(a);
    }
    FilterKeepsAll(rows, (a: ActionItem) => ActionMatches(a, ""));
  }

  /** Typing more into the search box never brings a hidden action back. */
  lemma NarrowingSearch(rows: seq<ActionItem>, shorter: string, longer: string)
    requires Includes(longer, shorter)
    ensures forall a :: a in FilterActions(rows, longer) ==> a in FilterActions(rows, shorter)
  {
    forall a | ActionMatches(a, longer) ensures ActionMatches(a, shorter) {
      forall f | f in SearchedFields
        ensures FieldMatches(Get(a.fields, f), longer) ==> FieldMatches(Get(a.fields, f), shorter)
      {
        SearchNarrowing(Get(a.fields, f), shorter, longer);
      }
    }
  }

  /** The priority badge class. */
  function PriorityClass(p: Option<string>): (c: string)
    ensures c == "prio-high" <==> p == Some("High") || p == Some("Urgent")
    ensures c == "prio-medium" <==> p == Some("Medium")
    ensures c == "prio-low" <==> p != Some("High") && p != Some("Urgent") && p != Some("Medium")
  {
    if p == Some("High") || p == Some("Urgent") then "prio-high"
    else if p == Some("Medium") then "prio-medium"
    else "prio-low"
  }

  /** The status badge class. */
  function StatusClass(s: Option<string>): (c: string)
    ensures c == "status-complete" <==> s == Some("Closed") || s == Some("Complete")
    ensures c == "status-progress" <==> s == Some("In Progress")
    ensures c == "status-hold" <==> s == Some("On Hold")
    ensures c == "status-open" <==>
      s != Some("Closed") && s != Some("Complete") && s != Some("In Progress") && s != Some("On Hold")
  {
    if s == Some("Closed") || s == Some("Complete") then "status-complete"
    else if s == Some("In Progress") then "status-progress"
    else if s == Some("On Hold") then "status-hold"
    else "status-open"
  }

  const Table := "actions"
  const NewestFirstBy := "date_raised"

  /** The component's state. */
  class ActionListView {
    var actions: seq<ActionItem>
    var filteredActions: seq<ActionItem>
    var loading: bool
    var searchTerm: string
    var expandedRow: Option<string>
    /** The backend requests issued so far, with the loading flag's changes. */
    ghost var trace: seq<Effect<ActionItem>>

    /** Once the [searchTerm, actions] effect has run, the shown list is the filtered full list. */
    ghost predicate Valid()
      reads this
    {
      filteredActions == FilterActions(actions, searchTerm)
    }

    constructor()
      ensures Valid()
      ensures actions == [] && filteredActions == [] && loading && searchTerm == ""
      ensures expandedRow == None && trace == []
    {
      actions, filteredActions := [], [];
      loading := true;
      searchTerm := "";
      expandedRow := None;
      trace := [];
    }

    /** Typing in the search box; the filter effect then recomputes the shown list. */
    method SetSearchTerm(term: string)
      modifies this
      ensures Valid()
      ensures searchTerm == term && filteredActions == FilterActions(actions, term)
      ensures actions == old(actions) && loading == old(loading)
      ensures expandedRow == old(expandedRow) && trace == old(trace)
    {
      searchTerm := term;
      filteredActions := FilterActions(actions, searchTerm);
    }

    /** Fetches every action, newest first by date raised; `response` is the backend's answer. */
    method FetchActions(response: Response<ActionItem>)
      requires Valid()
      modifies this
      ensures Valid()
      ensures actions == RowsAfterFetch(old(actions), response)
      ensures response.FetchFailed? ==> filteredActions == old(filteredActions)
      ensures !loading
      ensures searchTerm == old(searchTerm) && expandedRow == old(expandedRow)
      ensures trace == old(trace) + [Loading(true), Request(Select(Table, NewestFirstBy)), Loading(false)]
    {
      loading := true;
      if response.Fetched? {
        actions := OrEmpty(response.data);
        filteredActions := OrEmpty(response.data);
        // The list changed, so the filter effect runs again over it.
        filteredActions := FilterActions(actions, searchTerm);
      }
      loading := false;
      trace := trace + [Loading(true), Request(Select(Table, NewestFirstBy)), Loading(false)];
    }

    /**
     * Deletes the action with `id` once the user confirms; `deleteError` is the
     * backend's answer to the delete and `refetch` its answer to the fetch that
     * follows a successful one.
     */
    method HandleDelete(id: string, confirmed: bool, deleteError: Option<string>, refetch: Response<ActionItem>)
      requires Valid()
      modifies this
      ensures Valid()
      ensures !confirmed ==> unchanged(this)
      ensures confirmed && deleteError.Some? ==>
        && actions == old(actions) && filteredActions == old(filteredActions) && loading == old(loading)
        && trace == old(trace) + [Request(Delete(Table, id))]
      ensures confirmed && deleteError.None? ==>
        && actions == RowsAfterFetch(old(actions), refetch) && !loading
        && trace == old(trace) + [Request(Delete(Table, id)), Loading(true),
                                  Request(Select(Table, NewestFirstBy)), Loading(false)]
      ensures searchTerm == old(searchTerm) && expandedRow == old(expandedRow)
    {
      if confirmed {
        trace := trace + [Request(Delete(Table, id))];
        if deleteError.None? {
          FetchActions(refetch);
        }
      }
    }

    /** The MORE INFO / CLOSE button of the row with `id`. */
    method ToggleRow(id: string)
      modifies this
      ensures expandedRow == Toggle(old(expandedRow), id)
      ensures actions == old(actions) && filteredActions == old(filteredActions)
      ensures loading == old(loading) && searchTerm == old(searchTerm) && trace == old(trace)
    {
      expandedRow := Toggle(expandedRow, id);
    }
  }
}
