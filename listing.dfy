/**
 * What the three list views (actions, daily logs, training) have in common:
 * `Array.prototype.filter` over the in-memory rows, the single-slot
 * expanded-row toggle, the rows a fetch leaves behind, and badges.
 */
module Listing {
  import opened Wrappers
  import opened Backend

  // ---------------------------------------------------------------------------
  // Order-preserving filtering

  /** `a` is `b` with some elements removed, the rest in their original order. */
  predicate IsSubsequence<T(==)>(a: seq<T>, b: seq<T>)
    decreases |b|
  {
    a == [] ||
    (b != [] && ((a[0] == b[0] && IsSubsequence(a[1..], b[1..])) || IsSubsequence(a, b[1..])))
  }

  /** `rows.filter(keep)`: the rows that satisfy `keep`, in their original order. */
  function Filter<T(==,!new)>(rows: seq<T>, keep: T -> bool): (r: seq<T>)
    ensures |r| <= |rows|
    ensures forall x :: x in r ==> x in rows && keep(x)
  {
    if rows == [] then
      []
    else
      var rest := Filter(rows[1..], keep);
      if keep(rows[0]) then [rows[0]] + rest else rest
  }

  /** Each row that passes the test is kept as often as it occurs, every other row is dropped. */
  lemma {:induction false} FilterCounts<T(!new)>(rows: seq<T>, keep: T -> bool)
    ensures forall x :: multiset(Filter(rows, keep))[x] == if keep(x) then multiset(rows)[x] else 0
  {
    if rows != [] {
      FilterCounts(rows[1..], keep);
      assert rows == [rows[0]] + rows[1..];
    }
  }

  /** The filtered rows keep the order they had. */
  lemma {:induction false} FilterIsSubsequence<T(!new)>(rows: seq<T>, keep: T -> bool)
    ensures IsSubsequence(Filter(rows, keep), rows)
  {
    if rows != [] {
      FilterIsSubsequence(rows[1..], keep);
      var r := Filter(rows, keep);
      if keep(rows[0]) {
        assert r[0] == rows[0] && r[1..] == Filter(rows[1..], keep);
      }
    }
  }

  /** When every row satisfies the test the filter gives back the rows unchanged. */
  lemma {:induction false} FilterKeepsAll<T(!new)>(rows: seq<T>, keep: T -> bool)
    requires forall x :: x in rows ==> keep(x)
    ensures Filter(rows, keep) == rows
  {
    if rows != [] {
      FilterKeepsAll(rows[1..], keep);
    }
  }

  // ---------------------------------------------------------------------------
  // toggleRow

  /**
   * `setExpandedRow(expandedRow === id ? null : id)`: the slot holds at most one
   * id; toggling the expanded row collapses it, any other id replaces it.
   */
  function Toggle(expanded: Option<string>, id: string): (e: Option<string>)
    ensures e.None? <==> expanded == Some(id)
    ensures e.Some? ==> e.value == id
  {
    if expanded == Some(id) then None else Some(id)
  }

  /**
   * Clicking the same row twice restores the slot when it was empty or held
   * that row; a different row that was expanded stays collapsed.
   */
  lemma ToggleTwice(expanded: Option<string>, id: string)
    ensures Toggle(Toggle(expanded, id), id) == if expanded == Some(id) then expanded else None
  {
  }

  /** Among rows with distinct ids at most one is expanded. */
  lemma AtMostOneExpanded(ids: seq<string>, expanded: Option<string>, i: int, j: int)
    requires forall p, q :: 0 <= p < q < |ids| ==> ids[p] != ids[q]
    requires 0 <= i < |ids| && 0 <= j < |ids|
    requires expanded == Some(ids[i]) && expanded == Some(ids[j])
    ensures i == j
  {
  }

  /** The class of a summary row: highlighted while it is the expanded one. */
  function ExpandedRowClass(expanded: Option<string>, id: string): (c: string)
    ensures c == "row-expanded-active" <==> expanded == Some(id)
    ensures c != "row-expanded-active" ==> c == ""
  {
    if expanded == Some(id) then "row-expanded-active" else ""
  }

  // ---------------------------------------------------------------------------
  // fetch

  /** The full row list after a fetch: replaced on success, kept on error. */
  function RowsAfterFetch<R>(rows: seq<R>, response: Response<R>): (r: seq<R>)
    ensures response.Fetched? ==> r == OrEmpty(response.data)
    ensures response.FetchFailed? ==> r == rows
  {
    match response
    case Fetched(data) => OrEmpty(data)
    case FetchFailed(_) => rows
  }

  /** A badge: a style class and the text shown in it. */
  datatype Badge = Badge(style: string, text: string)
}
