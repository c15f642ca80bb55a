/** The side menu: a fixed table of (date, page number) entries, filtered
    by a search term; it shows the number of entries and the sum of their
    page numbers, and a click selects an entry by its place in the full
    table. */
module SideMenu {
  import opened Common

  datatype MenuItem = MenuItem(date: string, pageNo: string)

  /** The table: eight entries with a placeholder date and pages 1 to 8. */
  const MenuItems: seq<MenuItem> := [
    MenuItem("dd-mm-yyyy", "1"),
    MenuItem("dd-mm-yyyy", "2"),
    MenuItem("dd-mm-yyyy", "3"),
    MenuItem("dd-mm-yyyy", "4"),
    MenuItem("dd-mm-yyyy", "5"),
    MenuItem("dd-mm-yyyy", "6"),
    MenuItem("dd-mm-yyyy", "7"),
    MenuItem("dd-mm-yyyy", "8")
  ]

  /** An entry matches when its date or its page number contains the
      term. */
  predicate Matches(item: MenuItem, term: string)
  {
    Contains(item.date, term) || Contains(item.pageNo, term)
  }

  /** `items.filter(...)`: the matching entries in table order. */
  function FilterItems(items: seq<MenuItem>, term: string): seq<MenuItem>
    decreases |items|
  {
    if items == [] then [] else
    var last := items[|items| - 1];
    FilterItems(items[..|items| - 1], term) + (if Matches(last, term) then [last] else [])
  }

  /** The table positions of the matching entries, in increasing order. */
  function MatchingPositions(items: seq<MenuItem>, term: string): seq<int>
    decreases |items|
  {
    if items == [] then [] else
    var n := |items|;
    MatchingPositions(items[..n - 1], term) + (if Matches(items[n - 1], term) then [n - 1] else [])
  }

  /** The filter keeps exactly the matching entries and keeps them in table
      order: its i-th entry is the table entry at the i-th matching
      position, and the positions increase. */
  lemma {:induction false} FilterInOrder(items: seq<MenuItem>, term: string)
    ensures |FilterItems(items, term)| == |MatchingPositions(items, term)|
    ensures forall i :: 0 <= i < |MatchingPositions(items, term)| ==>
      0 <= MatchingPositions(items, term)[i] < |items|
      && FilterItems(items, term)[i] == items[MatchingPositions(items, term)[i]]
    ensures forall i, j :: 0 <= i < j < |MatchingPositions(items, term)| ==>
      MatchingPositions(items, term)[i] < MatchingPositions(items, term)[j]
    ensures forall k :: k in MatchingPositions(items, term) <==> 0 <= k < |items| && Matches(items[k], term)
    decreases |items|
  {
    if items != [] {
      var n := |items|;
      var front := items[..n - 1];
      FilterInOrder(front, term);
      var ps := MatchingPositions(items, term);
      var pf := MatchingPositions(front, term);
      var fs := FilterItems(items, term);
      forall i | 0 <= i < |ps| ensures 0 <= ps[i] < n && fs[i] == items[ps[i]] {
        if i < |pf| {
          assert ps[i] == pf[i] && fs[i] == FilterItems(front, term)[i];
          assert front[pf[i]] == items[pf[i]];
        }
      }
      forall i, j | 0 <= i < j < |ps| ensures ps[i] < ps[j] {
        if j >= |pf| {
          assert ps[i] == pf[i];
        }
      }
      forall k ensures k in ps <==> 0 <= k < n && Matches(items[k], term) {
        if 0 <= k < n - 1 {
          assert items[k] == front[k];
        }
      }
    }
  }

  /** The list shown for a search term. */
  function FilteredItems(term: string): seq<MenuItem>
  {
    FilterItems(MenuItems, term)
  }

  /** Every entry contains the empty term, so an empty search shows the
      whole table. */
  lemma {:induction false} EmptyTermKeepsAll(items: seq<MenuItem>)
    ensures FilterItems(items, "") == items
    decreases |items|
  {
    if items != [] {
      EmptyTermKeepsAll(items[..|items| - 1]);
      ContainsEmpty(items[|items| - 1].date);
      assert items[..|items| - 1] + [items[|items| - 1]] == items;
    }
  }

  // ---------------------------------------------------------------------
  // The counts above the list
  // ---------------------------------------------------------------------

  predicate AllDecimal(items: seq<MenuItem>)
  {
    forall i :: 0 <= i < |items| ==> IsDecimal(items[i].pageNo)
  }

  /** "Total pages": the sum of parseInt of each page number. */
  function PageSum(items: seq<MenuItem>): nat
    requires AllDecimal(items)
    decreases |items|
  {
    if items == [] then 0
    else PageSum(items[..|items| - 1]) + DecimalValue(items[|items| - 1].pageNo)
  }

  /** Filtering keeps page numbers decimal and never raises the total. */
  lemma {:induction false} FilterPageSum(items: seq<MenuItem>, term: string)
    requires AllDecimal(items)
    ensures AllDecimal(FilterItems(items, term))
    ensures PageSum(FilterItems(items, term)) <= PageSum(items)
    decreases |items|
  {
    if items != [] {
      var n := |items|;
      var front := items[..n - 1];
      assert AllDecimal(front) by {
        forall i | 0 <= i < n - 1 ensures IsDecimal(front[i].pageNo) {
          assert front[i] == items[i];
        }
      }
      FilterPageSum(front, term);
      var last := items[n - 1];
      var f := FilterItems(front, term);
      assert PageSum(items) == PageSum(front) + DecimalValue(last.pageNo);
      if Matches(last, term) {
        var g := f + [last];
        assert FilterItems(items, term) == g;
        assert AllDecimal(g) by {
          forall i | 0 <= i < |g| ensures IsDecimal(g[i].pageNo) {
            if i < |f| {
              assert g[i] == f[i];
            }
          }
        }
        assert g[..|g| - 1] == f;
        assert PageSum(g) == PageSum(f) + DecimalValue(last.pageNo);
      } else {
        assert FilterItems(items, term) == f;
      }
    }
  }

  /** The whole table's page numbers add up to 36. */
  lemma MenuPageTotal()
    ensures AllDecimal(MenuItems)
    ensures PageSum(MenuItems) == 36
  {
    var m := MenuItems;
    assert AllDecimal(m);
    assert m[..1][..0] == [];
    assert PageSum(m[..1]) == 1;
    assert m[..2][..1] == m[..1];
    assert PageSum(m[..2]) == 3;
    assert m[..3][..2] == m[..2];
    assert PageSum(m[..3]) == 6;
    assert m[..4][..3] == m[..3];
    assert PageSum(m[..4]) == 10;
    assert m[..5][..4] == m[..4];
    assert PageSum(m[..5]) == 15;
    assert m[..6][..5] == m[..5];
    assert PageSum(m[..6]) == 21;
    assert m[..7][..6] == m[..6];
    assert PageSum(m[..7]) == 28;
    assert m[..8][..7] == m[..7];
    assert m[..8] == m;
  }

  /** With no search term the menu lists eight entries and 36 pages. */
  lemma FullMenuCounts()
    ensures FilteredItems("") == MenuItems
    ensures |FilteredItems("")| == 8
    ensures AllDecimal(FilteredItems(""))
    ensures PageSum(FilteredItems("")) == 36
  {
    EmptyTermKeepsAll(MenuItems);
    MenuPageTotal();
  }

  // ---------------------------------------------------------------------
  // Selection
  // ---------------------------------------------------------------------

  /** `findIndex` for an entry with the same date and page number, -1 when
      there is none. */
  function OriginalIndex(items: seq<MenuItem>, item: MenuItem): int
    decreases |items|
  {
    if items == [] then -1
    else if items[0].date == item.date && items[0].pageNo == item.pageNo then 0
    else
      var k := OriginalIndex(items[1..], item);
      if k == -1 then -1 else k + 1
  }

  predicate DistinctItems(items: seq<MenuItem>)
  {
    forall i, j :: 0 <= i < j < |items| ==> items[i] != items[j]
  }

  /** In a table without repeated entries, an entry's index is its
      position. */
  lemma {:induction false} OriginalIndexOf(items: seq<MenuItem>, k: int)
    requires DistinctItems(items) && 0 <= k < |items|
    ensures OriginalIndex(items, items[k]) == k
    decreases |items|
  {
    if k > 0 {
      assert items[0] != items[k];
      var t := items[1..];
      assert DistinctItems(t) by {
        forall i, j | 0 <= i < j < |t| ensures t[i] != t[j] {
          assert t[i] == items[i + 1] && t[j] == items[j + 1];
        }
      }
      assert t[k - 1] == items[k];
      OriginalIndexOf(t, k - 1);
    }
  }

  /** handleItemClick on the i-th listed entry: the selection is the
      entry's position in the full table, not its place in the filtered
      list. */
  function ClickSelection(term: string, i: int): Option<int>
    requires 0 <= i < |FilteredItems(term)|
  {
    Some(OriginalIndex(MenuItems, FilteredItems(term)[i]))
  }

  /** The footer for a selection: nothing when none, otherwise the page
      number of that table entry (empty text past the table's end). */
  function Footer(selected: Option<int>): Option<string>
  {
    if selected.None? then None
    else if 0 <= selected.value < |MenuItems| then Some(MenuItems[selected.value].pageNo)
    else Some("")
  }

  lemma MenuItemsDistinct()
    ensures DistinctItems(MenuItems)
  {
    var m := MenuItems;
    forall i, j | 0 <= i < j < |m| ensures m[i] != m[j] {
      assert m[i].pageNo[0] as int == '1' as int + i;
      assert m[j].pageNo[0] as int == '1' as int + j;
    }
  }

  /** Clicking the i-th listed entry selects the table position the
      filter took it from, and the footer then shows that entry's page
      number. */
  lemma ClickSelectsOriginal(term: string, i: int)
    requires 0 <= i < |FilteredItems(term)|
    ensures |MatchingPositions(MenuItems, term)| == |FilteredItems(term)|
    ensures ClickSelection(term, i) == Some(MatchingPositions(MenuItems, term)[i])
    ensures Footer(ClickSelection(term, i)) == Some(FilteredItems(term)[i].pageNo)
  {
    FilterInOrder(MenuItems, term);
    MenuItemsDistinct();
    OriginalIndexOf(MenuItems, MatchingPositions(MenuItems, term)[i]);
  }
}
