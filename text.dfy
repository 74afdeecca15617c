/**
 * The string operations the views and forms call on record fields:
 * `toLowerCase`, `toUpperCase`, `includes`, optional chaining over a possibly missing field,
 * and `split('.')` followed by `pop()`.
 * Case mapping is modelled on ASCII letters only.
 */
module Text {
  import opened Wrappers

  // ---------------------------------------------------------------------------
  // toLowerCase

  function LowerChar(c: char): char
  {
    if 'A' <= c <= 'Z' then (c as int + 32) as char else c
  }

  /** `s.toLowerCase()`, restricted to ASCII. */
  function Lower(s: string): (r: string)
    ensures |r| == |s|
    ensures forall i :: 0 <= i < |s| ==> r[i] == LowerChar(s[i])
  {
    seq(|s|, i requires 0 <= i < |s| => LowerChar(s[i]))
  }

  /** Lower-casing twice is lower-casing once. */
  lemma LowerIdempotent(s: string)
    ensures Lower(Lower(s)) == Lower(s)
  {
    assert forall i :: 0 <= i < |s| ==> Lower(Lower(s))[i] == Lower(s)[i];
  }

  /** Lower-casing commutes with taking a slice. */
  lemma LowerSlice(s: string, i: int, j: int)
    requires 0 <= i <= j <= |s|
    ensures Lower(s)[i..j] == Lower(s[i..j])
  {
    assert forall k :: 0 <= k < j - i ==> Lower(s)[i..j][k] == Lower(s[i..j])[k];
  }

  function UpperChar(c: char): char
  {
    if 'a' <= c <= 'z' then (c as int - 32) as char else c
  }

  /** `s.toUpperCase()`, restricted to ASCII. */
  function Upper(s: string): (r: string)
    ensures |r| == |s|
    ensures forall i :: 0 <= i < |s| ==> r[i] == UpperChar(s[i])
  {
    seq(|s|, i requires 0 <= i < |s| => UpperChar(s[i]))
  }

  /** Upper-casing changes only case: lower-casing undoes it. */
  lemma LowerUpper(s: string)
    ensures Lower(Upper(s)) == Lower(s)
  {
    assert forall i :: 0 <= i < |s| ==> Lower(Upper(s))[i] == Lower(s)[i];
  }

  // ---------------------------------------------------------------------------
  // includes

  /** `needle` occurs in `hay` starting at position `i`. */
  ghost predicate OccursAt(hay: string, needle: string, i: int)
  {
    0 <= i && i + |needle| <= |hay| && hay[i..i + |needle|] == needle
  }

  /** `hay.includes(needle)`: true exactly when `needle` occurs somewhere in `hay`. */
  function Includes(hay: string, needle: string): (b: bool)
    ensures b <==> exists i :: OccursAt(hay, needle, i)
    decreases |hay|
  {
    if |needle| > |hay| then
      false
    else if hay[..|needle|] == needle then
      assert OccursAt(hay, needle, 0);
      true
    else
      ShiftOccurrence(hay, needle);
      Includes(hay[1..], needle)
  }

  /** Occurrences in `hay[1..]` are the occurrences in `hay` past position 0. */
  lemma ShiftOccurrence(hay: string, needle: string)
    requires |hay| > 0
    requires !OccursAt(hay, needle, 0)
    ensures (exists i :: OccursAt(hay[1..], needle, i)) <==> (exists i :: OccursAt(hay, needle, i))
  {
    if i :| OccursAt(hay[1..], needle, i) {
      assert hay[i + 1..i + 1 + |needle|] == hay[1..][i..i + |needle|];
      assert OccursAt(hay, needle, i + 1);
    }
    if i :| OccursAt(hay, needle, i) {
      assert i > 0;
      assert hay[1..][i - 1..i - 1 + |needle|] == hay[i..i + |needle|];
      assert OccursAt(hay[1..], needle, i - 1);
    }
  }

  /** The empty string is included in every string. */
  lemma IncludesEmpty(hay: string)
    ensures Includes(hay, "")
  {
    assert OccursAt(hay, "", 0);
  }

  // ---------------------------------------------------------------------------
  // field?.toLowerCase().includes(term.toLowerCase())

  /**
   * The per-field test of every list view's search: a missing field gives
   * undefined, which is falsy, so it never matches; a present field matches when
   * its lower-cased text includes the lower-cased term.
   */
  predicate FieldMatches(field: Option<string>, term: string)
  {
    field.Some? && Includes(Lower(field.value), Lower(term))
  }

  /** The search test on a field looked up in a record. */
  lemma FieldMatchesGet<K>(m: map<K, string>, k: K, term: string)
    ensures FieldMatches(Get(m, k), term) <==> k in m && Includes(Lower(m[k]), Lower(term))
  {
  }

  /** With an empty term a field matches exactly when it is present. */
  lemma EmptyTermMatchesPresent(field: Option<string>)
    ensures FieldMatches(field, "") <==> field.Some?
  {
    if field.Some? {
      IncludesEmpty(Lower(field.value));
    }
  }

  /** A field that literally contains the term matches it. */
  lemma LiteralOccurrenceMatches(text: string, term: string, i: int)
    requires OccursAt(text, term, i)
    ensures FieldMatches(Some(text), term)
  {
    LowerSlice(text, i, i + |term|);
    assert OccursAt(Lower(text), Lower(term), i);
  }

  /** The search is case-insensitive in the term: lower-casing the term first changes nothing. */
  lemma TermCaseIrrelevant(field: Option<string>, term: string)
    ensures FieldMatches(field, Lower(term)) == FieldMatches(field, term)
  {
    LowerIdempotent(term);
  }

  /** An occurrence of an occurrence is an occurrence. */
  lemma OccursTransitive(a: string, b: string, c: string, i: int, j: int)
    requires OccursAt(a, b, i) && OccursAt(b, c, j)
    ensures OccursAt(a, c, i + j)
  {
    assert forall k :: 0 <= k < |c| ==> c[k] == b[j + k] == a[i + j + k];
    assert a[i + j..i + j + |c|] == c;
  }

  /**
   * Typing more of a search narrows it: a field that matches a term also
   * matches every term that term contains.
   */
  lemma SearchNarrowing(field: Option<string>, shorter: string, longer: string)
    requires Includes(longer, shorter)
    ensures FieldMatches(field, longer) ==> FieldMatches(field, shorter)
  {
    if FieldMatches(field, longer) {
      var i :| OccursAt(Lower(field.value), Lower(longer), i);
      var j :| OccursAt(longer, shorter, j);
      LowerSlice(longer, j, j + |shorter|);
      assert OccursAt(Lower(longer), Lower(shorter), j);
      OccursTransitive(Lower(field.value), Lower(longer), Lower(shorter), i, j);
    }
  }

  // ---------------------------------------------------------------------------
  // split('.') and pop()

  /** The parts of a list joined with '.' between consecutive parts (`parts.join('.')`). */
  function JoinWithDot(parts: seq<string>): string
    requires |parts| >= 1
  {
    if |parts| == 1 then parts[0] else JoinWithDot(parts[..|parts| - 1]) + "." + parts[|parts| - 1]
  }

  /** `s.split('.')`: the dot-free pieces between the dots of `s`, in order. */
  function SplitOnDot(s: string): (parts: seq<string>)
    ensures |parts| >= 1
    ensures forall k :: 0 <= k < |parts| ==> '.' !in parts[k]
    ensures JoinWithDot(parts) == s
    decreases |s|
  {
    if |s| == 0 then
      [""]
    else
      var init := SplitOnDot(s[..|s| - 1]);
      var c := s[|s| - 1];
      if c == '.' then
        init + [""]
      else
        var parts := init[..|init| - 1] + [init[|init| - 1] + [c]];
        assert parts[..|parts| - 1] == init[..|init| - 1];
        assert s == s[..|s| - 1] + [c];
        parts
  }

  /** `s.split('.').length` is one more than the number of dots in `s`. */
  lemma {:induction false} SplitCount(s: string)
    ensures |SplitOnDot(s)| == 1 + multiset(s)['.']
    decreases |s|
  {
    if |s| > 0 {
      var t, c := s[..|s| - 1], s[|s| - 1];
      SplitCount(t);
      assert s == t + [c];
      assert multiset(s) == multiset(t) + multiset{c};
      assert |SplitOnDot(s)| == |SplitOnDot(t)| + (if c == '.' then 1 else 0);
    }
  }

  /**
   * `name.split('.').pop()`: the text after the last '.' of `name`, or all of
   * `name` when it has no '.'. It is the longest dot-free suffix of `name`.
   */
  function LastDotSegment(name: string): (ext: string)
    ensures '.' !in ext
    ensures |ext| <= |name| && ext == name[|name| - |ext|..]
    ensures |ext| < |name| ==> name[|name| - |ext| - 1] == '.'
    ensures |ext| == |name| <==> '.' !in name
  {
    var parts := SplitOnDot(name);
    LastPartIsSuffix(name);
    parts[|parts| - 1]
  }

  lemma {:induction false} LastPartIsSuffix(s: string)
    ensures var p := SplitOnDot(s)[|SplitOnDot(s)| - 1];
      && |p| <= |s| && p == s[|s| - |p|..]
      && (|p| < |s| ==> s[|s| - |p| - 1] == '.')
      && (|p| == |s| <==> '.' !in s)
    decreases |s|
  {
    if |s| > 0 {
      var t := s[..|s| - 1];
      LastPartIsSuffix(t);
      assert s == t + [s[|s| - 1]];
    }
  }
}
