/**
 * The search and sort of the note list (frontend/hooks/useNoteFilter.js,
 * `filteredAndSortedNotes`): a pure function of the notes, the search query,
 * the sort mode and the view filter, computed on a copy of the notes.
 *
 * `a.title.localeCompare(b.title)` depends on the locale; it is a parameter
 * `collate`, with `collate(a, b)` standing for `a.localeCompare(b) <= 0`.
 * `Array.prototype.sort` is stable; the sort here is a stable insertion sort.
 */
module NoteFilter {
  import JsString

  /** The fields of a listed note that the search and the sort read. */
  datatype NoteItem = NoteItem(id: int, title: string, content: string)

  type Collation = (string, string) -> bool

  /** What `Array.prototype.sort` needs of a comparator: any two items are ordered, transitively. */
  ghost predicate IsTotalPreorder(collate: Collation) {
    && (forall a, b :: collate(a, b) || collate(b, a))
    && (forall a, b, c :: collate(a, b) && collate(b, c) ==> collate(a, c))
  }

  /** The comparator returns at most zero for `(a, b)`: `a` may come before `b`. */
  predicate InOrder(sortBy: string, collate: Collation, a: NoteItem, b: NoteItem) {
    if sortBy == "oldest" then a.id <= b.id
    else if sortBy == "alphabetical" then collate(a.title, b.title)
    else b.id <= a.id
  }

  /** The order of the chosen mode is a total preorder. */
  ghost predicate SortableBy(sortBy: string, collate: Collation) {
    sortBy == "alphabetical" ==> IsTotalPreorder(collate)
  }

  predicate Sorted(s: seq<NoteItem>, sortBy: string, collate: Collation) {
    forall i, j :: 0 <= i < j < |s| ==> InOrder(sortBy, collate, s[i], s[j])
  }

  /** The lowercased title or content contains the lowercased, untrimmed query. */
  predicate Matches(n: NoteItem, searchQuery: string) {
    var q := JsString.ToLowerCase(searchQuery);
    JsString.Includes(JsString.ToLowerCase(n.title), q) || JsString.Includes(JsString.ToLowerCase(n.content), q)
  }

  /** A blank query keeps every note. */
  predicate Kept(n: NoteItem, searchQuery: string) {
    JsString.IsBlank(searchQuery) || Matches(n, searchQuery)
  }

  function Select(notes: seq<NoteItem>, searchQuery: string): (r: seq<NoteItem>)
    ensures forall n :: multiset(r)[n] == if Matches(n, searchQuery) then multiset(notes)[n] else 0
  {
    if notes == [] then []
    else
      assert notes == [notes[0]] + notes[1..];
      (if Matches(notes[0], searchQuery) then [notes[0]] else []) + Select(notes[1..], searchQuery)
  }

  /** The search step: every note when the trimmed query is empty, otherwise the matching ones. */
  function FilterNotes(notes: seq<NoteItem>, searchQuery: string): (r: seq<NoteItem>)
    ensures forall n :: multiset(r)[n] == if Kept(n, searchQuery) then multiset(notes)[n] else 0
  {
    if JsString.IsBlank(searchQuery) then notes else Select(notes, searchQuery)
  }

  /** `x` placed after every item that may come before it. */
  function Insert(s: seq<NoteItem>, x: NoteItem, sortBy: string, collate: Collation): (r: seq<NoteItem>)
    ensures multiset(r) == multiset(s) + multiset{x}
  {
    if s == [] then [x]
    else if !InOrder(sortBy, collate, s[0], x) then [x] + s
    else
      assert s == [s[0]] + s[1..];
      [s[0]] + Insert(s[1..], x, sortBy, collate)
  }

  function SortNotes(s: seq<NoteItem>, sortBy: string, collate: Collation): (r: seq<NoteItem>)
    ensures multiset(r) == multiset(s)
  {
    if s == [] then []
    else
      assert s == s[..|s| - 1] + [s[|s| - 1]];
      Insert(SortNotes(s[..|s| - 1], sortBy, collate), s[|s| - 1], sortBy, collate)
  }

  lemma TotalOrder(sortBy: string, collate: Collation, a: NoteItem, b: NoteItem, c: NoteItem)
    requires SortableBy(sortBy, collate)
    ensures InOrder(sortBy, collate, a, b) || InOrder(sortBy, collate, b, a)
    ensures InOrder(sortBy, collate, a, b) && InOrder(sortBy, collate, b, c) ==> InOrder(sortBy, collate, a, c)
  {
  }

  lemma {:induction false} InsertSorted(s: seq<NoteItem>, x: NoteItem, sortBy: string, collate: Collation)
    requires SortableBy(sortBy, collate) && Sorted(s, sortBy, collate)
    ensures Sorted(Insert(s, x, sortBy, collate), sortBy, collate)
  {
    var r := Insert(s, x, sortBy, collate);
    if s == [] {
    } else if !InOrder(sortBy, collate, s[0], x) {
      TotalOrder(sortBy, collate, s[0], x, s[0]);
      forall j | 1 <= j < |r|
        ensures InOrder(sortBy, collate, x, r[j])
      {
        assert r[j] == s[j - 1];
        TotalOrder(sortBy, collate, x, s[0], s[j - 1]);
      }
    } else {
      var tail := Insert(s[1..], x, sortBy, collate);
      InsertSorted(s[1..], x, sortBy, collate);
      forall j | 0 <= j < |tail|
        ensures InOrder(sortBy, collate, s[0], tail[j])
      {
        assert tail[j] in multiset(tail);
        assert tail[j] in multiset(s[1..]) || tail[j] == x;
        if tail[j] != x {
          var k :| 0 <= k < |s[1..]| && s[1..][k] == tail[j];
          assert s[k + 1] == tail[j];
        }
      }
      assert r == [s[0]] + tail;
    }
  }

  lemma {:induction false} SortNotesSorted(s: seq<NoteItem>, sortBy: string, collate: Collation)
    requires SortableBy(sortBy, collate)
    ensures Sorted(SortNotes(s, sortBy, collate), sortBy, collate)
  {
    if s != [] {
      SortNotesSorted(s[..|s| - 1], sortBy, collate);
      InsertSorted(SortNotes(s[..|s| - 1], sortBy, collate), s[|s| - 1], sortBy, collate);
    }
  }

  /** `filteredAndSortedNotes`; the view filter `filter` is among its inputs but is never read. */
  function FilteredAndSorted(notes: seq<NoteItem>, searchQuery: string, sortBy: string, filter: string,
                             collate: Collation): (r: seq<NoteItem>)
    ensures forall n :: multiset(r)[n] == if Kept(n, searchQuery) then multiset(notes)[n] else 0
  {
    SortNotes(FilterNotes(notes, searchQuery), sortBy, collate)
  }

  /**
   * The list shown holds each kept note as often as the input does and no
   * other note, in the order of the sort mode: ascending id for `'oldest'`,
   * title collation for `'alphabetical'`, descending id for `'recent'` and
   * every other mode.
   */
  lemma FilteredAndSortedCorrect(notes: seq<NoteItem>, searchQuery: string, sortBy: string, filter: string,
                                 collate: Collation)
    requires SortableBy(sortBy, collate)
    ensures var r := FilteredAndSorted(notes, searchQuery, sortBy, filter, collate);
            && Sorted(r, sortBy, collate)
            && forall n :: multiset(r)[n] == if Kept(n, searchQuery) then multiset(notes)[n] else 0
  {
    SortNotesSorted(FilterNotes(notes, searchQuery), sortBy, collate);
  }

  /** A query that is empty once trimmed shows every note. */
  lemma BlankQueryKeepsAll(notes: seq<NoteItem>, searchQuery: string, sortBy: string, filter: string,
                           collate: Collation)
    requires JsString.IsBlank(searchQuery)
    ensures multiset(FilteredAndSorted(notes, searchQuery, sortBy, filter, collate)) == multiset(notes)
  {
  }

  /** The view filter does not change the list. */
  lemma FilterStateIgnored(notes: seq<NoteItem>, searchQuery: string, sortBy: string, f1: string, f2: string,
                           collate: Collation)
    ensures FilteredAndSorted(notes, searchQuery, sortBy, f1, collate) == FilteredAndSorted(notes, searchQuery, sortBy, f2, collate)
  {
  }
}
