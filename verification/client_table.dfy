/**
 * The client-side table controller `useClientTable`: a search filter over the
 * rows, the page count and the current page's slice, and the three pieces of
 * state (`currentPage`, `perPage`, `search`) that drive them.
 *
 * `String(item[key])` is supplied by the caller as `fieldText`, so rows and
 * keys can be of any type.
 */
module ClientTable {
  import opened Strings

  /** The `initialPerPage` used when the caller gives none. */
  const DefaultPerPage := 10

  // ---------------------------------------------------------------------
  // Search filter
  // ---------------------------------------------------------------------

  /** `searchKeys.some(key => String(item[key]).toLowerCase().includes(needle))` */
  function AnyKeyMatches<T, K>(item: T, keys: seq<K>, fieldText: (T, K) -> string, needle: string): (r: bool)
    ensures r <==> exists i :: 0 <= i < |keys| && Contains(ToLower(fieldText(item, keys[i])), needle)
  {
    if keys == [] then false
    else
      var head := Contains(ToLower(fieldText(item, keys[0])), needle);
      var rest := AnyKeyMatches(item, keys[1..], fieldText, needle);
      assert rest ==> exists i :: 0 <= i < |keys| && Contains(ToLower(fieldText(item, keys[i])), needle) by {
        if rest {
          var j :| 0 <= j < |keys| - 1 && Contains(ToLower(fieldText(item, keys[1..][j])), needle);
          assert keys[1..][j] == keys[j + 1];
        }
      }
      head || rest
  }

  /** `data.filter(keep)`: the rows `keep` accepts, in the order of `data`. */
  function Keep<T>(data: seq<T>, keep: T -> bool): (r: seq<T>)
    ensures |r| <= |data|
    ensures forall j :: 0 <= j < |r| ==> keep(r[j])
    ensures multiset(r) <= multiset(data)
    ensures forall x | x in data && keep(x) :: multiset(r)[x] == multiset(data)[x]
  {
    if data == [] then []
    else
      var rest := Keep(data[1..], keep);
      assert data == [data[0]] + data[1..];
      if keep(data[0]) then [data[0]] + rest else rest
  }

  /** `data.filter(item => AnyKeyMatches(item, ...))`, keeping the order of `data`. */
  function KeepMatching<T, K>(data: seq<T>, keys: seq<K>, fieldText: (T, K) -> string, needle: string): (r: seq<T>)
    ensures |r| <= |data|
    ensures forall j :: 0 <= j < |r| ==> AnyKeyMatches(r[j], keys, fieldText, needle)
    ensures multiset(r) <= multiset(data)
    ensures forall x | x in data && AnyKeyMatches(x, keys, fieldText, needle) :: multiset(r)[x] == multiset(data)[x]
  {
    Keep(data, item => AnyKeyMatches(item, keys, fieldText, needle))
  }

  /** `filteredData`: all of `data` when the search is empty, the matching rows otherwise. */
  function FilterRows<T, K>(data: seq<T>, keys: seq<K>, fieldText: (T, K) -> string, search: string): (r: seq<T>)
    ensures search == "" ==> r == data
    ensures |r| <= |data|
    ensures search != "" ==> forall j :: 0 <= j < |r| ==> AnyKeyMatches(r[j], keys, fieldText, ToLower(search))
    ensures search != "" ==> multiset(r) <= multiset(data)
    ensures search != "" ==> forall x | x in data && AnyKeyMatches(x, keys, fieldText, ToLower(search)) ::
      multiset(r)[x] == multiset(data)[x]
  {
    if search == "" then data else KeepMatching(data, keys, fieldText, ToLower(search))
  }

  /** `filter` preserves order: filtering a concatenation filters each part. */
  lemma {:induction false} KeepAppend<T>(a: seq<T>, b: seq<T>, keep: T -> bool)
    ensures Keep(a + b, keep) == Keep(a, keep) + Keep(b, keep)
  {
    if a == [] {
      assert a + b == b;
    } else {
      assert (a + b)[1..] == a[1..] + b;
      KeepAppend(a[1..], b, keep);
    }
  }

  /** `filter` with every row accepted returns the rows unchanged. */
  lemma {:induction false} KeepAll<T>(data: seq<T>, keep: T -> bool)
    requires forall j :: 0 <= j < |data| ==> keep(data[j])
    ensures Keep(data, keep) == data
  {
    if data != [] {
      KeepAll(data[1..], keep);
      assert data == [data[0]] + data[1..];
    }
  }

  /** The search filter preserves order: filtering a concatenation filters each part. */
  lemma KeepMatchingAppend<T, K>(a: seq<T>, b: seq<T>, keys: seq<K>, fieldText: (T, K) -> string, needle: string)
    ensures KeepMatching(a + b, keys, fieldText, needle)
         == KeepMatching(a, keys, fieldText, needle) + KeepMatching(b, keys, fieldText, needle)
  {
    KeepAppend(a, b, item => AnyKeyMatches(item, keys, fieldText, needle));
  }

  /** A row is kept exactly when it matches: with no row left out, `data` is returned unchanged. */
  lemma KeepMatchingAll<T, K>(data: seq<T>, keys: seq<K>, fieldText: (T, K) -> string, needle: string)
    requires forall j :: 0 <= j < |data| ==> AnyKeyMatches(data[j], keys, fieldText, needle)
    ensures KeepMatching(data, keys, fieldText, needle) == data
  {
    KeepAll(data, item => AnyKeyMatches(item, keys, fieldText, needle));
  }

  /** With no search keys, a non-empty search matches nothing. */
  lemma {:induction false} NoKeysMatchNothing<T, K>(data: seq<T>, keys: seq<K>, fieldText: (T, K) -> string, search: string)
    requires keys == [] && search != ""
    ensures FilterRows(data, keys, fieldText, search) == []
  {
    if data != [] {
      NoKeysMatchNothing(data[1..], keys, fieldText, search);
    }
  }

  /** Search is case-insensitive: queries with the same lower-case form filter alike. */
  lemma SearchIgnoresCase<T, K>(data: seq<T>, keys: seq<K>, fieldText: (T, K) -> string, q1: string, q2: string)
    requires ToLower(q1) == ToLower(q2)
    ensures FilterRows(data, keys, fieldText, q1) == FilterRows(data, keys, fieldText, q2)
  {
  }

  // ---------------------------------------------------------------------
  // Page count and page slice
  // ---------------------------------------------------------------------

  /** `Math.ceil(n / perPage) || 1` */
  function PageCount(n: nat, perPage: int): (r: int)
    requires perPage >= 1
    ensures r >= 1
    ensures n == 0 ==> r == 1
    ensures n > 0 ==> (r - 1) * perPage < n <= r * perPage
  {
    var c := (n + perPage - 1) / perPage;
    assert c * perPage <= n + perPage - 1 < c * perPage + perPage;
    if c == 0 then 1 else c
  }

  /** How JavaScript's `Array.prototype.slice` reads one index: negative counts from the end. */
  function ClampIndex(i: int, len: nat): (r: nat)
    ensures r <= len
    ensures 0 <= i <= len ==> r == i
    ensures i > len ==> r == len
    ensures i < 0 && len + i >= 0 ==> r == len + i
    ensures len + i < 0 ==> r == 0
  {
    if i < 0 then (if len + i < 0 then 0 else len + i)
    else if i > len then len
    else i
  }

  /** `s.slice(start, end)` */
  function JsSlice<T>(s: seq<T>, start: int, end: int): (r: seq<T>)
    ensures |r| <= |s|
    ensures var a := ClampIndex(start, |s|); var b := ClampIndex(end, |s|);
            |r| == (if a < b then b - a else 0) && forall i :: 0 <= i < |r| ==> r[i] == s[a + i]
    ensures 0 <= start <= end <= |s| ==> r == s[start..end]
    ensures 0 <= start <= |s| <= end ==> r == s[start..]
    ensures ClampIndex(end, |s|) <= ClampIndex(start, |s|) ==> r == []
  {
    var a := ClampIndex(start, |s|);
    var b := ClampIndex(end, |s|);
    if a < b then s[a..b] else []
  }

  /** `paginatedData`: the rows of page `page` (counted from 1) of `perPage` rows each. */
  function PageSlice<T>(rows: seq<T>, page: int, perPage: int): (r: seq<T>)
    requires perPage >= 1
    ensures |r| <= perPage
  {
    var start := (page - 1) * perPage;
    JsSlice(rows, start, start + perPage)
  }

  /** `a <= b` scales by a non-negative factor. */
  lemma MulMonotone(a: int, b: int, k: int)
    requires a <= b && k >= 0
    ensures a * k <= b * k
  {
  }

  /** The slice of a page whose first index `lo` is not negative: `perPage` rows from `lo`, clipped at the end. */
  lemma PageSliceFrom<T>(rows: seq<T>, page: int, perPage: int, lo: int)
    requires perPage >= 1 && lo == (page - 1) * perPage && lo >= 0
    ensures var a := if lo < |rows| then lo else |rows|;
            var b := if lo + perPage < |rows| then lo + perPage else |rows|;
            PageSlice(rows, page, perPage) == rows[a..b]
  {
  }

  /** For a page counted from 1, the slice is the clipped range of `perPage` rows starting at `(page - 1) * perPage`. */
  lemma PageSliceRange<T>(rows: seq<T>, page: int, perPage: int)
    requires perPage >= 1 && page >= 1
    ensures var lo := if (page - 1) * perPage < |rows| then (page - 1) * perPage else |rows|;
            var hi := if page * perPage < |rows| then page * perPage else |rows|;
            PageSlice(rows, page, perPage) == rows[lo..hi]
  {
    var lo := (page - 1) * perPage;
    MulMonotone(0, page - 1, perPage);
    assert page * perPage == lo + perPage;
    PageSliceFrom(rows, page, perPage, lo);
  }

  /** A page after the last one is empty. */
  lemma PageBeyondLastIsEmpty<T>(rows: seq<T>, page: int, perPage: int)
    requires perPage >= 1 && page > PageCount(|rows|, perPage)
    ensures PageSlice(rows, page, perPage) == []
  {
    var c := PageCount(|rows|, perPage);
    var lo := (page - 1) * perPage;
    MulMonotone(c, page - 1, perPage);
    assert |rows| <= c * perPage;
    PageSliceFrom(rows, page, perPage, lo);
  }

  /** A page from 1 to the page count of a non-empty sequence is non-empty. */
  lemma PageInRangeIsNonEmpty<T>(rows: seq<T>, page: int, perPage: int)
    requires perPage >= 1 && |rows| > 0 && 1 <= page <= PageCount(|rows|, perPage)
    ensures PageSlice(rows, page, perPage) != []
  {
    var c := PageCount(|rows|, perPage);
    var lo := (page - 1) * perPage;
    MulMonotone(page - 1, c - 1, perPage);
    MulMonotone(0, page - 1, perPage);
    assert lo < |rows|;
    PageSliceFrom(rows, page, perPage, lo);
  }

  /** Page 0 asks for `slice(-perPage, 0)`, which is always empty. */
  lemma PageZeroIsEmpty<T>(rows: seq<T>, perPage: int)
    requires perPage >= 1
    ensures PageSlice(rows, 0, perPage) == []
  {
    assert ClampIndex(0, |rows|) == 0;
  }

  /** A negative page counts back from the end: page -1 holds the perPage rows before the last perPage. */
  lemma NegativePageCountsFromEnd<T>(rows: seq<T>, page: int, perPage: int)
    requires perPage >= 1 && page <= -1 && |rows| + (page - 1) * perPage >= 0
    ensures var lo := |rows| + (page - 1) * perPage;
            lo + perPage <= |rows| && PageSlice(rows, page, perPage) == rows[lo..lo + perPage]
  {
    var lo := |rows| + (page - 1) * perPage;
    assert (page - 1) * perPage + perPage == page * perPage;
    assert page * perPage <= -perPage by { MulMonotone(page, -1, perPage); }
  }

  /** Both facts about a page number at once: non-empty within range, empty beyond it. */
  lemma PageInRangeOrBeyond<T>(rows: seq<T>, page: int, perPage: int)
    requires perPage >= 1
    ensures |rows| > 0 && 1 <= page <= PageCount(|rows|, perPage) ==> PageSlice(rows, page, perPage) != []
    ensures page > PageCount(|rows|, perPage) ==> PageSlice(rows, page, perPage) == []
  {
    if |rows| > 0 && 1 <= page <= PageCount(|rows|, perPage) {
      PageInRangeIsNonEmpty(rows, page, perPage);
    }
    if page > PageCount(|rows|, perPage) {
      PageBeyondLastIsEmpty(rows, page, perPage);
    }
  }

  /** Position `m` of page `q + 1` holds row `q * perPage + m`. */
  lemma PagePosition<T>(rows: seq<T>, q: nat, m: nat, perPage: int)
    requires 1 <= perPage && m < perPage
    requires q * perPage + m < |rows|
    ensures m < |PageSlice(rows, q + 1, perPage)| && PageSlice(rows, q + 1, perPage)[m] == rows[q * perPage + m]
  {
    var lo := q * perPage;
    assert (q + 1 - 1) * perPage == lo;
    PageSliceFrom(rows, q + 1, perPage, lo);
  }

  /** Every row sits on page `i / perPage + 1`, at position `i % perPage`. */
  lemma RowOnItsPage<T>(rows: seq<T>, i: nat, perPage: int)
    requires perPage >= 1 && i < |rows|
    ensures var page := i / perPage + 1;
            i % perPage < |PageSlice(rows, page, perPage)| && PageSlice(rows, page, perPage)[i % perPage] == rows[i]
  {
    var q := i / perPage;
    var m := i % perPage;
    assert i == q * perPage + m;
    PagePosition(rows, q, m, perPage);
  }

  // ---------------------------------------------------------------------
  // The controller's state
  // ---------------------------------------------------------------------

  /** The state held by one `useClientTable` instance, with the rows and keys of the latest render. */
  class Table<T, K> {
    var data: seq<T>
    const searchKeys: seq<K>
    const fieldText: (T, K) -> string
    var currentPage: int
    var perPage: int
    var search: string

    ghost predicate Valid()
      reads this
    {
      perPage >= 1
    }

    /** `filteredData` (also returned as `allData`) */
    function Filtered(): (r: seq<T>)
      reads this
      ensures search == "" ==> r == data
      ensures multiset(r) <= multiset(data)
    {
      FilterRows(data, searchKeys, fieldText, search)
    }

    /** `totalEntries` */
    function TotalEntries(): (r: nat)
      reads this
      ensures r <= |data|
      ensures search == "" ==> r == |data|
    {
      |Filtered()|
    }

    /** `totalPages` */
    function TotalPages(): (r: int)
      reads this
      requires Valid()
      ensures r >= 1
      ensures TotalEntries() == 0 ==> r == 1
      ensures TotalEntries() > 0 ==> TotalEntries() <= r * perPage
    {
      PageCount(TotalEntries(), perPage)
    }

    /** `data` as returned to the caller: the current page of the filtered rows. */
    function Rows(): (r: seq<T>)
      reads this
      requires Valid()
      ensures |r| <= perPage
      ensures TotalEntries() > 0 && 1 <= currentPage <= TotalPages() ==> r != []
      ensures currentPage > TotalPages() ==> r == []
    {
      PageInRangeOrBeyond(Filtered(), currentPage, perPage);
      PageSlice(Filtered(), currentPage, perPage)
    }

    constructor (data: seq<T>, searchKeys: seq<K>, fieldText: (T, K) -> string, initialPerPage: int)
      requires initialPerPage >= 1
      ensures Valid()
      ensures this.data == data && this.searchKeys == searchKeys && this.fieldText == fieldText
      ensures currentPage == 1 && perPage == initialPerPage && search == ""
      ensures Filtered() == data
    {
      this.data := data;
      this.searchKeys := searchKeys;
      this.fieldText := fieldText;
      currentPage := 1;
      perPage := initialPerPage;
      search := "";
    }

    /** The hook called with only `data` (and the row text): `initialPerPage = 10`, `searchKeys = []`. */
    constructor WithDefaults(data: seq<T>, fieldText: (T, K) -> string)
      ensures Valid()
      ensures this.data == data && this.searchKeys == [] && this.fieldText == fieldText
      ensures currentPage == 1 && perPage == DefaultPerPage && search == ""
    {
      this.data := data;
      this.searchKeys := [];
      this.fieldText := fieldText;
      currentPage := 1;
      perPage := DefaultPerPage;
      search := "";
    }

    /** A re-render with a newly fetched `data`. */
    method SetData(rows: seq<T>)
      requires Valid()
      modifies this
      ensures Valid()
      ensures data == rows
      ensures currentPage == old(currentPage) && perPage == old(perPage) && search == old(search)
    {
      data := rows;
    }

    /** The raw `setCurrentPage`: stores `p` as given. */
    method SetCurrentPage(p: int)
      requires Valid()
      modifies this
      ensures Valid()
      ensures currentPage == p
      ensures data == old(data) && perPage == old(perPage) && search == old(search)
    {
      currentPage := p;
    }

    /** The raw `setPerPage`: does not itself touch the current page. */
    method SetPerPage(n: int)
      requires Valid() && n >= 1
      modifies this
      ensures Valid()
      ensures perPage == n
      ensures data == old(data) && currentPage == old(currentPage) && search == old(search)
    {
      perPage := n;
    }

    /** `handleSearch` (exposed as `setSearch`): stores the query and goes back to page 1. */
    method HandleSearch(query: string)
      requires Valid()
      modifies this
      ensures Valid()
      ensures search == query && currentPage == 1
      ensures data == old(data) && perPage == old(perPage)
      ensures 1 <= currentPage <= TotalPages()
      ensures TotalEntries() > 0 ==> Rows() != []
    {
      search := query;
      currentPage := 1;
      if TotalEntries() > 0 {
        PageInRangeIsNonEmpty(Filtered(), 1, perPage);
      }
    }

    /** The overflow check run on every render: a page past the last one goes back to 1. */
    method ResetOverflow()
      requires Valid()
      modifies this
      ensures Valid()
      ensures currentPage == if old(currentPage) > old(TotalPages()) then 1 else old(currentPage)
      ensures currentPage <= TotalPages()
      ensures data == old(data) && perPage == old(perPage) && search == old(search)
      ensures currentPage >= 1 && TotalEntries() > 0 ==> Rows() != []
    {
      if currentPage > TotalPages() {
        currentPage := 1;
      }
      if currentPage >= 1 && TotalEntries() > 0 {
        PageInRangeIsNonEmpty(Filtered(), currentPage, perPage);
      }
    }
  }
}
