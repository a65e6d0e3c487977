/** The generic searchable, paginated table (src/components/Tables/Table.tsx).
    A record is modelled as the map from its field names to their string
    forms (what `String(value)` gives); the caller's data, headers and
    callbacks are props, passed as parameters; the component's own state is
    the three fields of `TableState`. */
module DataTable {
  import opened Wrappers
  import opened Arithmetic

  type Record = map<string, string>

  /** The choices offered by the items-per-page selector. */
  const PageSizes: set<nat> := {20, 40, 50, 100}

  // ----- Search -----

  /** Lower-casing, restricted to ASCII letters. */
  function LowerChar(c: char): char {
    if 'A' <= c <= 'Z' then (c as int + 32) as char else c
  }

  function Lower(s: string): (r: string)
    ensures |r| == |s|
    ensures forall i :: 0 <= i < |s| ==> r[i] == LowerChar(s[i])
  {
    if s == [] then [] else [LowerChar(s[0])] + Lower(s[1..])
  }

  /** `s.includes(t)`: `t` occurs in `s` at some position. */
  predicate Includes(s: string, t: string) {
    exists i :: 0 <= i <= |s| && t <= s[i..]
  }

  /** The search predicate: some field value contains the term, ignoring case. */
  predicate Matches(item: Record, term: string) {
    exists k :: k in item && Includes(Lower(item[k]), Lower(term))
  }

  /** `s.filter(keep)`: the elements satisfying `keep`, in order. */
  function FilterBy<T>(s: seq<T>, keep: T -> bool): (r: seq<T>)
    ensures |r| <= |s|
  {
    if s == [] then []
    else (if keep(s[0]) then [s[0]] else []) + FilterBy(s[1..], keep)
  }

  /** Every position moved one place to the right. */
  function Shift(idx: seq<nat>): (r: seq<nat>)
    ensures |r| == |idx|
    ensures forall j :: 0 <= j < |idx| ==> r[j] == idx[j] + 1
  {
    if idx == [] then [] else [idx[0] + 1] + Shift(idx[1..])
  }

  /** Positions of the elements satisfying `keep`, in increasing order. */
  ghost function KeptIndices<T>(s: seq<T>, keep: T -> bool): seq<nat> {
    if s == [] then []
    else if keep(s[0]) then [0] + Shift(KeptIndices(s[1..], keep))
    else Shift(KeptIndices(s[1..], keep))
  }

  /** The j-th element the filter keeps is the element at the j-th kept position. */
  lemma {:induction false} FilterAtKeptIndex<T>(s: seq<T>, keep: T -> bool)
    ensures |FilterBy(s, keep)| == |KeptIndices(s, keep)|
    ensures forall j :: 0 <= j < |KeptIndices(s, keep)| ==>
      KeptIndices(s, keep)[j] < |s| && FilterBy(s, keep)[j] == s[KeptIndices(s, keep)[j]]
  {
    if s != [] {
      FilterAtKeptIndex(s[1..], keep);
      var shifted := ShiftedTail(s, keep);
      var K, F, r := KeptIndices(s, keep), FilterBy(s, keep), FilterBy(s[1..], keep);
      if keep(s[0]) {
        assert K == [0] + shifted;
        assert F == [s[0]] + r;
        forall j | 0 < j < |K| ensures K[j] < |s| && F[j] == s[K[j]] {
          assert K[j] == shifted[j - 1] && F[j] == r[j - 1];
        }
      } else {
        assert K == shifted;
        assert F == r;
      }
    }
  }

  /** The tail's kept positions, moved up by one, pick the same records out of `s`. */
  lemma ShiftedTail<T>(s: seq<T>, keep: T -> bool) returns (shifted: seq<nat>)
    requires s != []
    requires |FilterBy(s[1..], keep)| == |KeptIndices(s[1..], keep)|
    requires forall j :: 0 <= j < |KeptIndices(s[1..], keep)| ==>
      KeptIndices(s[1..], keep)[j] < |s[1..]| && FilterBy(s[1..], keep)[j] == s[1..][KeptIndices(s[1..], keep)[j]]
    ensures shifted == Shift(KeptIndices(s[1..], keep))
    ensures |shifted| == |FilterBy(s[1..], keep)|
    ensures forall j :: 0 <= j < |shifted| ==> shifted[j] < |s| && FilterBy(s[1..], keep)[j] == s[shifted[j]]
  {
    var tail := s[1..];
    var rest := KeptIndices(tail, keep);
    shifted := Shift(rest);
    forall j | 0 <= j < |shifted| ensures shifted[j] < |s| && FilterBy(tail, keep)[j] == s[shifted[j]] {
      assert tail[rest[j]] == s[rest[j] + 1];
    }
  }

  /** The kept positions increase strictly. */
  lemma {:induction false} KeptIndicesIncrease<T>(s: seq<T>, keep: T -> bool)
    ensures forall a, b :: 0 <= a < b < |KeptIndices(s, keep)| ==> KeptIndices(s, keep)[a] < KeptIndices(s, keep)[b]
  {
    if s != [] {
      KeptIndicesIncrease(s[1..], keep);
      var rest := KeptIndices(s[1..], keep);
      var shifted := Shift(rest);
      assert forall a, b :: 0 <= a < b < |shifted| ==> shifted[a] < shifted[b] by {
        forall a, b | 0 <= a < b < |shifted| ensures shifted[a] < shifted[b] {
          assert rest[a] < rest[b];
        }
      }
      assert forall b :: 0 <= b < |shifted| ==> 0 < shifted[b];
    }
  }

  /** The kept positions are exactly the positions whose element satisfies
      `keep`. With FilterAtKeptIndex and KeptIndicesIncrease: the filter is the
      subsequence of kept elements with their order preserved. */
  lemma {:induction false} KeptIndicesExact<T>(s: seq<T>, keep: T -> bool)
    ensures forall i :: 0 <= i < |s| ==> (i in KeptIndices(s, keep) <==> keep(s[i]))
  {
    if s != [] {
      KeptIndicesExact(s[1..], keep);
      var rest := KeptIndices(s[1..], keep);
      var shifted := Shift(rest);
      forall i | 0 <= i < |s| ensures (i in KeptIndices(s, keep) <==> keep(s[i])) {
        if i == 0 {
          assert 0 !in shifted;
        } else {
          assert s[i] == s[1..][i - 1];
          assert i in shifted <==> i - 1 in rest by {
            if i in shifted {
              var j :| 0 <= j < |shifted| && shifted[j] == i;
              assert rest[j] == i - 1;
            }
            if i - 1 in rest {
              var j :| 0 <= j < |rest| && rest[j] == i - 1;
              assert shifted[j] == i;
            }
          }
        }
      }
    }
  }

  /** An element survives the filter iff it is in the sequence and satisfies `keep`. */
  lemma {:induction false} FilterMembership<T>(s: seq<T>, keep: T -> bool, x: T)
    ensures x in FilterBy(s, keep) <==> x in s && keep(x)
  {
    if s != [] {
      FilterMembership(s[1..], keep, x);
      assert s == [s[0]] + s[1..];
    }
  }

  /** Filtering a concatenation filters each part. */
  lemma {:induction false} FilterConcat<T>(a: seq<T>, b: seq<T>, keep: T -> bool)
    ensures FilterBy(a + b, keep) == FilterBy(a, keep) + FilterBy(b, keep)
  {
    if a == [] {
      assert a + b == b;
    } else {
      var head := if keep(a[0]) then [a[0]] else [];
      assert (a + b)[0] == a[0];
      assert (a + b)[1..] == a[1..] + b;
      FilterConcat(a[1..], b, keep);
      calc {
        FilterBy(a + b, keep);
        head + FilterBy(a[1..] + b, keep);
        head + (FilterBy(a[1..], keep) + FilterBy(b, keep));
        (head + FilterBy(a[1..], keep)) + FilterBy(b, keep);
      }
    }
  }

  /** The callback given to `data.filter`. */
  function SearchKeep(term: string): Record -> bool {
    (item: Record) => Matches(item, term)
  }

  /** `filteredData`: the records matching the search term. */
  function Filter(data: seq<Record>, term: string): (r: seq<Record>)
    ensures |r| <= |data|
    ensures forall x :: x in r <==> x in data && Matches(x, term)
  {
    var keep := SearchKeep(term);
    forall x ensures x in FilterBy(data, keep) <==> x in data && Matches(x, term) {
      FilterMembership(data, keep, x);
    }
    FilterBy(data, keep)
  }

  /** `filteredData` is the subsequence of the matching records in their
      original order: its j-th record is the record at the j-th matching
      position, those positions increase, and they are all the matching ones. */
  lemma FilterKeepsOrder(data: seq<Record>, term: string)
    ensures var idx := KeptIndices(data, SearchKeep(term));
      && |Filter(data, term)| == |idx|
      && (forall j :: 0 <= j < |idx| ==> idx[j] < |data| && Filter(data, term)[j] == data[idx[j]])
      && (forall a, b :: 0 <= a < b < |idx| ==> idx[a] < idx[b])
      && (forall i :: 0 <= i < |data| ==> (i in idx <==> Matches(data[i], term)))
  {
    FilterAtKeptIndex(data, SearchKeep(term));
    KeptIndicesIncrease(data, SearchKeep(term));
    KeptIndicesExact(data, SearchKeep(term));
  }

  /** Searching a concatenation of two lists searches each list. */
  lemma FilterSplits(a: seq<Record>, b: seq<Record>, term: string)
    ensures Filter(a + b, term) == Filter(a, term) + Filter(b, term)
  {
    FilterConcat(a, b, SearchKeep(term));
  }

  /** The empty string occurs in every string, so an empty search keeps every
      record that has at least one field, and only those. */
  lemma EmptyTermMatches(item: Record)
    ensures Matches(item, "") <==> |item| > 0
  {
    if |item| > 0 {
      var k :| k in item;
      assert "" <= Lower(item[k])[0..];
    }
  }

  // ----- Pagination -----

  /** `Math.ceil(n / perPage)`. */
  function TotalPages(n: nat, perPage: nat): (r: nat)
    requires perPage > 0
    ensures n <= r * perPage < n + perPage
  {
    (n + perPage - 1) / perPage
  }

  /** A JavaScript `slice` bound: negative values count from the end; the
      result is clamped to `[0, len]`. */
  function ClampIndex(i: int, len: nat): (r: nat)
    ensures r <= len
  {
    if i < 0 then (if len + i < 0 then 0 else len + i)
    else if i > len then len
    else i
  }

  /** `s.slice(start, end)`. */
  function Slice<T>(s: seq<T>, start: int, end: int): seq<T> {
    var a, b := ClampIndex(start, |s|), ClampIndex(end, |s|);
    if a < b then s[a..b] else []
  }

  /** `(currentPage - 1) * itemsPerPage`. */
  function StartIndex(page: int, perPage: nat): int {
    (page - 1) * perPage
  }

  /** The records shown on `page`: from `StartIndex` up to `perPage` further. */
  function PageItems<T>(s: seq<T>, page: int, perPage: nat): seq<T> {
    var start := StartIndex(page, perPage);
    Slice(s, start, start + perPage)
  }

  /** From page 1 on, a page shows the records at positions
      `[start, min(start + perPage, n))`, so never more than `perPage`. */
  lemma PageItemsBounds<T>(s: seq<T>, page: int, perPage: nat)
    requires page >= 1
    ensures var start := StartIndex(page, perPage);
      && start >= 0
      && var stop := if start + perPage < |s| then start + perPage else |s|;
      && PageItems(s, page, perPage) == (if start < stop then s[start..stop] else [])
      && |PageItems(s, page, perPage)| <= perPage
  {
    var start := StartIndex(page, perPage);
    MulMonotone(0, page - 1, perPage);
    assert PageItems(s, page, perPage) == Slice(s, start, start + perPage);
  }

  /** Every filtered record is shown on exactly one page among pages
      1..TotalPages: record `k` at position `k % perPage` of page
      `k / perPage + 1`. */
  lemma EveryRecordOnItsPage<T>(s: seq<T>, perPage: nat, k: nat)
    requires perPage > 0 && k < |s|
    ensures var page := k / perPage + 1;
      && 1 <= page <= TotalPages(|s|, perPage)
      && k % perPage < |PageItems(s, page, perPage)|
      && PageItems(s, page, perPage)[k % perPage] == s[k]
  {
    var q, r := k / perPage, k % perPage;
    var page := q + 1;
    assert k == q * perPage + r;
    assert StartIndex(page, perPage) == q * perPage;
    PageItemsBounds(s, page, perPage);
    var total := TotalPages(|s|, perPage);
    MulCancel(q, total, perPage);
  }

  /** The "Showing a to b of n" summary (a = start + 1, b = min(start + perPage, n)). */
  function ShowingRange(n: nat, page: int, perPage: nat): (int, int) {
    var start := StartIndex(page, perPage);
    (start + 1, if start + perPage < n then start + perPage else n)
  }

  /** On an existing page, the summary counts exactly the rows shown. */
  lemma ShowingCountsRows<T>(s: seq<T>, page: int, perPage: nat)
    requires perPage > 0 && 1 <= page <= TotalPages(|s|, perPage)
    ensures var (a, b) := ShowingRange(|s|, page, perPage);
      b - a + 1 == |PageItems(s, page, perPage)| > 0
  {
    PageItemsBounds(s, page, perPage);
    var start, total := StartIndex(page, perPage), TotalPages(|s|, perPage);
    MulMonotone(page - 1, total - 1, perPage);
    assert (total - 1) * perPage == total * perPage - perPage;
    assert start < |s|;
  }

  /** The buttons of the numbered page list: 1 to `totalPages`. */
  function PageNumbers(totalPages: nat): (r: seq<nat>)
    ensures |r| == totalPages
    ensures forall i :: 0 <= i < totalPages ==> r[i] == i + 1
  {
    seq(totalPages, i requires 0 <= i < totalPages => i + 1)
  }

  // ----- Rendering of the body -----

  /** Which optional callbacks the caller supplied. */
  datatype Callbacks = Callbacks(onView: bool, onEdit: bool, onDelete: bool)

  /** A row button, with the argument its click passes to the callback. */
  datatype Button = ViewButton(id: Option<string>) | EditButton(id: Option<string>) | DeleteButton(id: Option<string>)

  /** A rendered row: the record and, when the action column is shown, its buttons. */
  datatype Row = Row(item: Record, actions: Option<seq<Button>>)

  datatype Body = NoData(colSpan: nat) | Rows(rows: seq<Row>)

  /** `item.id`, or `undefined` when the record has no `id` field. */
  function Id(item: Record): Option<string> {
    if "id" in item then Some(item["id"]) else None
  }

  /** The header cells: the caller's headers, then "Actions" when shown. */
  function HeaderRow(headers: seq<string>, showActions: bool): (r: seq<string>)
    ensures |r| == |headers| + (if showActions then 1 else 0)
    ensures r[..|headers|] == headers
    ensures showActions ==> r[|headers|] == "Actions"
  {
    headers + (if showActions then ["Actions"] else [])
  }

  function ActionButtons(cb: Callbacks, item: Record): (r: seq<Button>)
    ensures ViewButton(Id(item)) in r <==> cb.onView
    ensures EditButton(Id(item)) in r <==> cb.onEdit
    ensures DeleteButton(Id(item)) in r <==> cb.onDelete
    ensures forall b :: b in r ==> b.id == Id(item)
    ensures |r| <= 3
  {
    (if cb.onView then [ViewButton(Id(item))] else [])
    + (if cb.onEdit then [EditButton(Id(item))] else [])
    + (if cb.onDelete then [DeleteButton(Id(item))] else [])
  }

  /** The table body for the records of the current page: one row per record,
      or a single "No data available" cell spanning every column. */
  function RenderBody(items: seq<Record>, headers: seq<string>, cb: Callbacks, showActions: bool): (b: Body)
    ensures b.NoData? <==> items == []
    ensures b.NoData? ==> b.colSpan == |HeaderRow(headers, showActions)|
    ensures b.Rows? ==> |b.rows| == |items|
    ensures b.Rows? ==> forall i :: 0 <= i < |items| ==>
      && b.rows[i].item == items[i]
      && (b.rows[i].actions.Some? <==> showActions)
      && (showActions ==> b.rows[i].actions.value == ActionButtons(cb, items[i]))
  {
    if |items| > 0 then
      Rows(seq(|items|, i requires 0 <= i < |items| =>
        Row(items[i], if showActions then Some(ActionButtons(cb, items[i])) else None)))
    else
      NoData(|headers| + (if showActions then 1 else 0))
  }

  // ----- The component state -----

  class TableState {
    var searchTerm: string
    var currentPage: int
    var itemsPerPage: nat

    /** The page size is always one of the selector's choices. */
    ghost predicate Valid()
      reads this
    {
      itemsPerPage in PageSizes
    }

    constructor ()
      ensures Valid()
      ensures searchTerm == "" && currentPage == 1 && itemsPerPage == 20
    {
      searchTerm := "";
      currentPage := 1;
      itemsPerPage := 20;
    }

    function FilteredData(data: seq<Record>): seq<Record>
      reads this
    {
      Filter(data, searchTerm)
    }

    function Pages(data: seq<Record>): nat
      reads this
      requires Valid()
    {
      TotalPages(|FilteredData(data)|, itemsPerPage)
    }

    function CurrentItems(data: seq<Record>): (r: seq<Record>)
      reads this
      requires Valid()
      ensures |r| <= itemsPerPage
      ensures forall x :: x in r ==> x in data && Matches(x, searchTerm)
    {
      var filtered := FilteredData(data);
      var items := PageItems(filtered, currentPage, itemsPerPage);
      assert forall x :: x in items ==> x in filtered by {
        forall x | x in items ensures x in filtered {
          var a := ClampIndex(StartIndex(currentPage, itemsPerPage), |filtered|);
          var j :| 0 <= j < |items| && items[j] == x;
          assert items[j] == filtered[a + j];
        }
      }
      items
    }

    predicate PreviousDisabled()
      reads this
    {
      currentPage == 1
    }

    predicate NextDisabled(data: seq<Record>)
      reads this
      requires Valid()
    {
      currentPage == Pages(data)
    }

    method HandleSearchChange(value: string)
      modifies this
      ensures searchTerm == value && currentPage == 1 && itemsPerPage == old(itemsPerPage)
    {
      searchTerm := value;
      currentPage := 1;
    }

    /** Stores the page as given, without clamping. */
    method HandlePageChange(page: int)
      modifies this
      ensures currentPage == page
      ensures searchTerm == old(searchTerm) && itemsPerPage == old(itemsPerPage)
    {
      currentPage := page;
    }

    /** The selector only offers the values of `PageSizes`. */
    method HandleItemsPerPageChange(n: nat)
      requires n in PageSizes
      modifies this
      ensures Valid()
      ensures itemsPerPage == n && currentPage == 1 && searchTerm == old(searchTerm)
    {
      itemsPerPage := n;
      currentPage := 1;
    }

    /** The Previous button: a click does nothing while it is disabled; the
        page never drops below 1. */
    method ClickPrevious()
      modifies this
      ensures old(PreviousDisabled()) ==> currentPage == old(currentPage)
      ensures !old(PreviousDisabled()) ==> currentPage == old(currentPage) - 1
      ensures old(currentPage) >= 1 ==> currentPage >= 1
      ensures searchTerm == old(searchTerm) && itemsPerPage == old(itemsPerPage)
    {
      if !PreviousDisabled() {
        HandlePageChange(currentPage - 1);
      }
    }

    /** The Next button: disabled only on the page equal to the page count, so
        with no results (0 pages) it stays enabled and moves past the end. */
    method ClickNext(data: seq<Record>)
      requires Valid()
      modifies this
      ensures Valid()
      ensures old(NextDisabled(data)) ==> currentPage == old(currentPage)
      ensures !old(NextDisabled(data)) ==> currentPage == old(currentPage) + 1
      ensures searchTerm == old(searchTerm) && itemsPerPage == old(itemsPerPage)
    {
      if !NextDisabled(data) {
        HandlePageChange(currentPage + 1);
      }
    }

    /** A numbered page button; button `index` exists for `index < Pages(data)`. */
    method ClickPageButton(data: seq<Record>, index: nat)
      requires Valid() && index < Pages(data)
      modifies this
      ensures Valid()
      ensures currentPage == index + 1 && 1 <= currentPage <= old(Pages(data))
      ensures searchTerm == old(searchTerm) && itemsPerPage == old(itemsPerPage)
    {
      HandlePageChange(PageNumbers(Pages(data))[index]);
    }
  }
}
