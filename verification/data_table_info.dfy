/**
 * The `DataTableInfo` line "Showing {start} to {end} of {totalEntries} entries",
 * and its agreement with the table controller's page slice.
 */
module DataTableInfo {
  import ClientTable

  /** Entry `q * perPage` (counted from 0) begins page `q` (counted from 0). */
  lemma FirstOfPage(q: int, perPage: int)
    requires perPage >= 1
    ensures (q * perPage) % perPage == 0 && (q * perPage) / perPage == q
  {
    var m := q * perPage;
    var d := m / perPage;
    var k := m % perPage;
    assert 0 <= k < perPage;
    assert m == d * perPage + k;
    assert (q - d) * perPage == k;
    if q - d >= 1 {
      assert false;
    } else if q - d <= -1 {
      assert false;
    }
  }

  /** The first entry shown (counted from 1), or 0 when there are none. */
  function Start(totalEntries: int, currentPage: int, perPage: int): (r: int)
    ensures totalEntries == 0 ==> r == 0
    ensures totalEntries != 0 && perPage >= 1 ==> (r - 1) % perPage == 0 && (r - 1) / perPage == currentPage - 1
  {
    if totalEntries == 0 then 0
    else if perPage < 1 then (currentPage - 1) * perPage + 1
    else
      FirstOfPage(currentPage - 1, perPage);
      (currentPage - 1) * perPage + 1
  }

  /** The last entry shown: the end of the page, capped by the number of entries. */
  function End(totalEntries: int, currentPage: int, perPage: int): (r: int)
    ensures r <= totalEntries && r <= currentPage * perPage
    ensures r == totalEntries || r == currentPage * perPage
  {
    if currentPage * perPage < totalEntries then currentPage * perPage else totalEntries
  }

  /** On a real page, "Showing 0" is printed exactly when there are no entries. */
  lemma StartZeroIffEmpty(totalEntries: nat, currentPage: int, perPage: int)
    requires currentPage >= 1 && perPage >= 1
    ensures Start(totalEntries, currentPage, perPage) == 0 <==> totalEntries == 0
    ensures totalEntries > 0 ==> Start(totalEntries, currentPage, perPage) >= 1
  {
    if totalEntries > 0 {
      assert (currentPage - 1) * perPage >= 0 by {
        assert currentPage - 1 >= 0;
      }
    }
  }

  /**
   * For a non-empty table on one of its pages, the printed range is exactly the
   * rows the controller shows: `rows[start - 1 .. end]` is the page slice, so
   * `end - start + 1` is its length.
   */
  lemma InfoMatchesPageSlice<T>(rows: seq<T>, currentPage: int, perPage: int)
    requires perPage >= 1 && |rows| > 0
    requires 1 <= currentPage <= ClientTable.PageCount(|rows|, perPage)
    ensures var s := Start(|rows|, currentPage, perPage);
            var e := End(|rows|, currentPage, perPage);
            1 <= s <= e <= |rows|
            && e - s + 1 == |ClientTable.PageSlice(rows, currentPage, perPage)|
            && rows[s - 1..e] == ClientTable.PageSlice(rows, currentPage, perPage)
  {
    var n := |rows|;
    var c := ClientTable.PageCount(n, perPage);
    var lo := (currentPage - 1) * perPage;
    var hi := currentPage * perPage;
    assert hi == lo + perPage;
    assert 0 <= lo <= (c - 1) * perPage < n by {
      assert currentPage - 1 >= 0;
      assert currentPage - 1 <= c - 1;
    }
    assert Start(n, currentPage, perPage) == lo + 1;
    ClientTable.PageSliceRange(rows, currentPage, perPage);
  }
}
