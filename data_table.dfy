/** The dashboard data table: a case-insensitive search over the string and
    number fields of each row, then pagination of what is left, with the
    current page and the query as the component's state. */
module DataTable {
  import opened JsValues
  import opened Seqs

  const DefaultPageSize: nat := 5

  function Min(a: int, b: int): int {
    if a <= b then a else b
  }

  // ---------------------------------------------------------------------
  // Search
  // ---------------------------------------------------------------------

  /** One field matches: a string when it contains the query after both are
      lower-cased, a number when its decimal text contains the query as
      typed; any other value never matches. */
  predicate ValueMatches(v: Value, query: string)
    ensures ValueMatches(v, query) ==> v.Str? || v.Num?
    ensures (v.Str? || v.Num?) && query == "" ==> ValueMatches(v, query)
  {
    match v
    case Str(s) =>
      ContainsEmptyAndLength(Lower(s), "");
      assert Lower("") == "";
      Contains(Lower(s), Lower(query))
    case Num(n) =>
      ContainsEmptyAndLength(IntToString(n), "");
      Contains(IntToString(n), query)
    case _ => false
  }

  /** `Object.entries(item).some(...)` */
  predicate ItemMatches(item: Record, query: string)
    ensures ItemMatches(item, query) ==> exists key :: key in item && (item[key].Str? || item[key].Num?)
  {
    exists key :: key in item && ValueMatches(item[key], query)
  }

  /** `filteredData`: the rows that match, or all rows when not searchable. */
  function FilteredData(data: seq<Record>, searchable: bool, query: string): (r: seq<Record>)
    ensures |r| <= |data|
    ensures searchable ==> forall i :: 0 <= i < |r| ==> ItemMatches(r[i], query)
  {
    if searchable then Filter(data, (item: Record) => ItemMatches(item, query)) else data
  }

  /** Without search the table shows its data as given; with search it keeps
      exactly the matching rows, each as often as it occurs, in the original
      order. */
  lemma SearchKeepsExactlyMatchingRows(data: seq<Record>, searchable: bool, query: string, x: Record)
    ensures !searchable ==> FilteredData(data, searchable, query) == data
    ensures IsSubsequence(FilteredData(data, searchable, query), data)
    ensures multiset(FilteredData(data, searchable, query))[x] ==
            if !searchable || ItemMatches(x, query) then multiset(data)[x] else 0
  {
    var keep := (item: Record) => ItemMatches(item, query);
    if searchable {
      FilterIsSubsequence(data, keep);
      FilterMultiplicity(data, keep, x);
    } else {
      SubsequenceOfSelf(data);
    }
  }

  lemma {:induction false} SubsequenceOfSelf(s: seq<Record>)
    ensures IsSubsequence(s, s)
  {
    if s != [] {
      SubsequenceOfSelf(s[1..]);
    }
  }

  /** The empty query keeps exactly the rows that have at least one string
      or number field. */
  lemma EmptyQueryKeepsTextOrNumberRows(item: Record)
    ensures ItemMatches(item, "") <==>
            exists key :: key in item && (item[key].Str? || item[key].Num?)
  {
    if exists key :: key in item && (item[key].Str? || item[key].Num?) {
      var key :| key in item && (item[key].Str? || item[key].Num?);
      match item[key]
      case Str(s) => ContainsEmptyAndLength(Lower(s), "");
      case Num(n) => ContainsEmptyAndLength(IntToString(n), "");
    }
  }

  /** String fields are searched without regard to ASCII case. */
  lemma StringSearchIgnoresCase(s: string, query: string)
    ensures ValueMatches(Str(s), query) == ValueMatches(Str(s), Lower(query))
    ensures ValueMatches(Str(s), query) == ValueMatches(Str(Lower(s)), query)
  {
    assert Lower(Lower(query)) == Lower(query);
    assert Lower(Lower(s)) == Lower(s);
  }

  // ---------------------------------------------------------------------
  // Pagination
  // ---------------------------------------------------------------------

  /** `Math.ceil(count / pageSize)` */
  function TotalPages(count: nat, pageSize: nat): (pages: nat)
    requires pageSize > 0
    ensures (pages - 1) * pageSize < count <= pages * pageSize
    ensures pages == 0 <==> count == 0
  {
    var pages := (count + pageSize - 1) / pageSize;
    DivisionBounds(count + pageSize - 1, pageSize);
    pages
  }

  lemma DivisionBounds(a: nat, b: nat)
    requires b > 0
    ensures (a / b) * b <= a < (a / b) * b + b
  {
  }

  /** The first row index of a page, `(currentPage - 1) * pageSize`. */
  function StartIndex(page: int, pageSize: nat): nat
    requires page >= 1
  {
    (page - 1) * pageSize
  }

  /** The rows before a page's start index are exactly the rows of the
      pages before it, so each page picks up where the previous one ends. */
  lemma StartIndexCountsEarlierPages(filtered: seq<Record>, page: int, pageSize: nat)
    requires page >= 1 && pageSize > 0
    ensures FirstPages(filtered, pageSize, page - 1) == filtered[..Min(StartIndex(page, pageSize), |filtered|)]
    ensures FirstPages(filtered, pageSize, page) ==
            FirstPages(filtered, pageSize, page - 1) + PageItems(filtered, page, pageSize)
  {
    FirstPagesArePrefix(filtered, pageSize, page - 1);
  }

  /** `filteredData.slice(startIndex, startIndex + pageSize)` */
  function PageItems(filtered: seq<Record>, page: int, pageSize: nat): (r: seq<Record>)
    requires page >= 1 && pageSize > 0
    ensures |r| <= pageSize
  {
    var start := StartIndex(page, pageSize);
    filtered[Min(start, |filtered|)..Min(start + pageSize, |filtered|)]
  }

  /** Pages 1 to n, one after the other. */
  function FirstPages(filtered: seq<Record>, pageSize: nat, n: nat): seq<Record>
    requires pageSize > 0
  {
    if n == 0 then [] else FirstPages(filtered, pageSize, n - 1) + PageItems(filtered, n, pageSize)
  }

  lemma {:induction false} FirstPagesArePrefix(filtered: seq<Record>, pageSize: nat, n: nat)
    requires pageSize > 0
    ensures FirstPages(filtered, pageSize, n) == filtered[..Min(n * pageSize, |filtered|)]
  {
    if n > 0 {
      FirstPagesArePrefix(filtered, pageSize, n - 1);
      assert (n - 1) * pageSize + pageSize == n * pageSize;
      var a := Min((n - 1) * pageSize, |filtered|);
      var b := Min(n * pageSize, |filtered|);
      assert filtered[..a] + filtered[a..b] == filtered[..b];
    }
  }

  /** The pages 1 to totalPages, concatenated, give the filtered rows back. */
  lemma PagesRebuildFilteredRows(filtered: seq<Record>, pageSize: nat)
    requires pageSize > 0
    ensures FirstPages(filtered, pageSize, TotalPages(|filtered|, pageSize)) == filtered
  {
    FirstPagesArePrefix(filtered, pageSize, TotalPages(|filtered|, pageSize));
  }

  /** The "Showing from-to of total entries" line. */
  datatype Showing = Showing(from: int, to: int, total: nat)

  function ShowingRange(filtered: seq<Record>, page: int, pageSize: nat): (sh: Showing)
    requires page >= 1
    ensures sh.total == |filtered| && sh.to <= sh.total
    ensures sh.from == (page - 1) * pageSize + 1 >= 1
  {
    var start := StartIndex(page, pageSize);
    Showing(start + 1, Min(start + pageSize, |filtered|), |filtered|)
  }

  /** For a page that exists the line counts within 1..total, and the rows
      it names are exactly those on the page. */
  lemma ShowingMatchesPage(filtered: seq<Record>, page: int, pageSize: nat)
    requires pageSize > 0 && 1 <= page <= TotalPages(|filtered|, pageSize)
    ensures var sh := ShowingRange(filtered, page, pageSize);
      1 <= sh.from <= sh.to <= sh.total == |filtered| &&
      filtered[sh.from - 1..sh.to] == PageItems(filtered, page, pageSize)
  {
    var pages := TotalPages(|filtered|, pageSize);
    assert (page - 1) * pageSize <= (pages - 1) * pageSize by {
      MultiplyMonotone(page - 1, pages - 1, pageSize);
    }
  }

  lemma MultiplyMonotone(a: nat, b: nat, c: nat)
    requires a <= b
    ensures a * c <= b * c
  {
  }

  /** The controls are rendered only when there is more than one page. */
  predicate ControlsShown(totalPages: nat) {
    totalPages > 1
  }

  /** The controls appear exactly when the rows do not fit on one page. */
  lemma ControlsShownIffMoreThanOnePage(count: nat, pageSize: nat)
    requires pageSize > 0
    ensures ControlsShown(TotalPages(count, pageSize)) <==> count > pageSize
  {
    var pages := TotalPages(count, pageSize);
    if pages <= 1 {
      MultiplyMonotone(pages, 1, pageSize);
    } else {
      MultiplyMonotone(1, pages - 1, pageSize);
    }
  }

  /** Every row on a page is a row of the data, and with search on it
      matches the query. */
  lemma PageRowsComeFromData(data: seq<Record>, searchable: bool, query: string, page: int, pageSize: nat)
    requires page >= 1 && pageSize > 0
    ensures var r := PageItems(FilteredData(data, searchable, query), page, pageSize);
      |r| <= pageSize &&
      (forall i :: 0 <= i < |r| ==> r[i] in data) &&
      (searchable ==> forall i :: 0 <= i < |r| ==> ItemMatches(r[i], query))
  {
    var filtered := FilteredData(data, searchable, query);
    var r := PageItems(filtered, page, pageSize);
    var start := Min(StartIndex(page, pageSize), |filtered|);
    forall i | 0 <= i < |r| ensures r[i] in data && (searchable ==> ItemMatches(r[i], query)) {
      assert r[i] == filtered[start + i];
      SearchKeepsExactlyMatchingRows(data, searchable, query, r[i]);
      assert multiset(filtered)[r[i]] > 0;
    }
  }

  // ---------------------------------------------------------------------
  // The component's state
  // ---------------------------------------------------------------------

  class DataTableView {
    const pageSize: nat
    const searchable: bool
    var currentPage: int
    var searchQuery: string

    ghost predicate Valid()
      reads this
    {
      pageSize > 0 && currentPage >= 1
    }

    /** The props' defaults are a page size of 5 and no search box; the
        state starts on page 1 with an empty query. */
    constructor (pageSize: Option<nat>, searchable: Option<bool>)
      requires pageSize != Some(0)
      ensures Valid()
      ensures this.pageSize == pageSize.GetOr(DefaultPageSize)
      ensures this.searchable == searchable.GetOr(false)
      ensures currentPage == 1 && searchQuery == ""
    {
      this.pageSize := pageSize.GetOr(DefaultPageSize);
      this.searchable := searchable.GetOr(false);
      currentPage := 1;
      searchQuery := "";
    }

    function Filtered(data: seq<Record>): seq<Record>
      reads this
    {
      FilteredData(data, searchable, searchQuery)
    }

    function Pages(data: seq<Record>): nat
      reads this
      requires Valid()
    {
      TotalPages(|Filtered(data)|, pageSize)
    }

    /** `paginatedData`: the rows of the current page, at most a page of
        rows of the data, each matching the query when search is on. */
    function Visible(data: seq<Record>): (r: seq<Record>)
      reads this
      requires Valid()
      ensures |r| <= pageSize
      ensures forall i :: 0 <= i < |r| ==> r[i] in data
      ensures searchable ==> forall i :: 0 <= i < |r| ==> ItemMatches(r[i], searchQuery)
    {
      PageRowsComeFromData(data, searchable, searchQuery, currentPage, pageSize);
      PageItems(Filtered(data), currentPage, pageSize)
    }

    /** Typing in the search box stores the query and goes back to page 1. */
    method OnSearchInput(query: string)
      requires Valid()
      modifies this`searchQuery, this`currentPage
      ensures Valid()
      ensures searchQuery == query && currentPage == 1
    {
      searchQuery := query;
      currentPage := 1;
    }

    /** The previous-page button: disabled on page 1, absent when the
        controls are hidden. */
    method ClickPrevious(data: seq<Record>)
      requires Valid()
      modifies this`currentPage
      ensures Valid()
      ensures currentPage ==
        if ControlsShown(Pages(data)) && old(currentPage) != 1 then old(currentPage) - 1 else old(currentPage)
    {
      if ControlsShown(Pages(data)) && currentPage != 1 {
        currentPage := currentPage - 1;
      }
    }

    /** The next-page button: disabled on the last page, absent when the
        controls are hidden. */
    method ClickNext(data: seq<Record>)
      requires Valid()
      modifies this`currentPage
      ensures Valid()
      ensures currentPage ==
        if ControlsShown(Pages(data)) && old(currentPage) != Pages(data) then old(currentPage) + 1 else old(currentPage)
    {
      if ControlsShown(Pages(data)) && currentPage != Pages(data) {
        currentPage := currentPage + 1;
      }
    }

    /** One of the numbered buttons 1..totalPages. */
    method ClickPage(data: seq<Record>, page: int)
      requires Valid()
      requires ControlsShown(Pages(data)) && 1 <= page <= Pages(data)
      modifies this`currentPage
      ensures Valid() && currentPage == page
    {
      currentPage := page;
    }
  }
}
