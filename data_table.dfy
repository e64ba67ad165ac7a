/**
 * The paging arithmetic and the column-filter update of the generic data
 * table of the renderer (`DattaDataTable`). Pages are numbered from 0; the
 * table shows one page of the data it is given and reports page requests to
 * its owner, which decides what the next `page` is.
 */
module DataTable {
  /** `Array.prototype.slice` index normalisation: a negative index counts from the end. */
  function SliceIndex(len: nat, i: int): (r: nat)
    ensures r <= len
    ensures 0 <= i ==> r == if i <= len then i else len
    ensures i < 0 ==> r == if len + i >= 0 then len + i else 0
  {
    if i < 0 then (if len + i >= 0 then len + i else 0)
    else if i <= len then i else len
  }

  /** `s.slice(start, end)`: empty when the normalised end is not after the normalised start. */
  function JsSlice<T>(s: seq<T>, start: int, end: int): (r: seq<T>)
    ensures |r| <= |s|
    ensures SliceIndex(|s|, start) <= SliceIndex(|s|, end) ==>
      r == s[SliceIndex(|s|, start)..SliceIndex(|s|, end)]
    ensures SliceIndex(|s|, end) < SliceIndex(|s|, start) ==> r == []
  {
    var a := SliceIndex(|s|, start);
    var b := SliceIndex(|s|, end);
    if a <= b then s[a..b] else []
  }

  /** `Math.ceil(total / rowsPerPage)`: the least number of pages of `rowsPerPage` rows that hold `total` rows. */
  function TotalPages(total: nat, rowsPerPage: nat): (r: nat)
    requires rowsPerPage > 0
    ensures total <= r * rowsPerPage
    ensures r > 0 ==> (r - 1) * rowsPerPage < total
  {
    (total + rowsPerPage - 1) / rowsPerPage
  }

  /** The rows the table renders for `page`. */
  function CurrentRows<T>(data: seq<T>, page: int, rowsPerPage: nat): (r: seq<T>)
    ensures |r| <= rowsPerPage
    ensures 0 <= page ==> page * rowsPerPage <= |data| ==>
      r == data[page * rowsPerPage..if page * rowsPerPage + rowsPerPage <= |data| then page * rowsPerPage + rowsPerPage else |data|]
    ensures 0 <= page ==> page * rowsPerPage >= |data| ==> r == []
  {
    JsSlice(data, page * rowsPerPage, page * rowsPerPage + rowsPerPage)
  }

  /** The first row number of the "Affichage de … à …" banner (1-based). */
  function StartIndex(page: int, rowsPerPage: nat): int {
    page * rowsPerPage + 1
  }

  /** The last row number of the banner: one page after the first, cut at the total. */
  function EndIndex(page: int, rowsPerPage: nat, total: nat): int {
    var e := StartIndex(page, rowsPerPage) + rowsPerPage - 1;
    if e <= total then e else total
  }

  /** The pagination bar is rendered only when there is more than one page of rows. */
  predicate ShowPagination(total: nat, rowsPerPage: nat) {
    total > rowsPerPage
  }

  /** The controls of the pagination bar. */
  datatype Control = Previous | Next | PageButton(i: nat)

  /** Whether the control is drawn with the `disabled` class; a purely visual mark. */
  predicate Disabled(c: Control, page: int, totalPages: nat) {
    match c
    case Previous => page == 0
    case Next => page + 1 >= totalPages
    case PageButton(_) => false
  }

  /** The page a click on the control asks the owner for; the `disabled` class does not stop the handler. */
  function Requested(c: Control, page: int): (r: int)
    ensures c.Previous? ==> r == page - 1
    ensures c.Next? ==> r == page + 1
    ensures c.PageButton? ==> r == c.i
  {
    match c
    case Previous => page - 1
    case Next => page + 1
    case PageButton(i) => i
  }

  /** The page buttons, one per page, each asking for its own page. */
  function PageButtons(totalPages: nat): (r: seq<Control>)
    ensures |r| == totalPages
    ensures forall i :: 0 <= i < |r| ==> r[i] == PageButton(i) && Requested(r[i], 0) == i
  {
    seq(totalPages, i requires 0 <= i < totalPages => PageButton(i))
  }

  /** `{ ...columnFilters, [key]: value }`. */
  function FilterChange(filters: map<string, string>, key: string, value: string): (r: map<string, string>)
    ensures r.Keys == filters.Keys + {key}
    ensures r[key] == value
    ensures forall k :: k in filters && k != key ==> r[k] == filters[k]
  {
    filters[key := value]
  }

  /** The pages 0 .. k-1, one after the other. */
  function PagesUpTo<T>(data: seq<T>, rowsPerPage: nat, k: nat): seq<T> {
    if k == 0 then [] else PagesUpTo(data, rowsPerPage, k - 1) + CurrentRows(data, k - 1, rowsPerPage)
  }

  /** The first `k` pages are exactly the first `k * rowsPerPage` rows (or all of them). */
  lemma {:induction false} PagesUpToPrefix<T>(data: seq<T>, rowsPerPage: nat, k: nat)
    ensures PagesUpTo(data, rowsPerPage, k) == data[..Clip(k * rowsPerPage, |data|)]
  {
    if k > 0 {
      PagesUpToPrefix(data, rowsPerPage, k - 1);
      var a := (k - 1) * rowsPerPage;
      MulSucc(k, rowsPerPage);
      PrefixStep(data, PagesUpTo(data, rowsPerPage, k - 1), JsSlice(data, a, a + rowsPerPage), a, rowsPerPage);
    }
  }

  function Clip(i: nat, len: nat): (r: nat)
    ensures r <= len
  {
    if i <= len then i else len
  }

  lemma MulSucc(k: nat, c: nat)
    requires k > 0
    ensures k * c == (k - 1) * c + c
  {
  }

  /** One more page after the first `a` rows extends the prefix by that page. */
  lemma PrefixStep<T>(data: seq<T>, prefix: seq<T>, page: seq<T>, a: nat, rowsPerPage: nat)
    requires prefix == data[..Clip(a, |data|)] && page == JsSlice(data, a, a + rowsPerPage)
    ensures prefix + page == data[..Clip(a + rowsPerPage, |data|)]
  {
    if a <= |data| {
      var b := Clip(a + rowsPerPage, |data|);
      assert data[..a] + data[a..b] == data[..b];
    }
  }

  /** The pages 0 .. totalPages-1 partition the data: read one after the other they are the data. */
  lemma PagesPartition<T>(data: seq<T>, rowsPerPage: nat)
    requires rowsPerPage > 0
    ensures PagesUpTo(data, rowsPerPage, TotalPages(|data|, rowsPerPage)) == data
  {
    PagesUpToPrefix(data, rowsPerPage, TotalPages(|data|, rowsPerPage));
  }

  /** Every page before `totalPages` shows at least one row; every page after it shows none. */
  lemma PagesNonEmpty<T>(data: seq<T>, page: int, rowsPerPage: nat)
    requires rowsPerPage > 0
    ensures 0 <= page < TotalPages(|data|, rowsPerPage) ==> CurrentRows(data, page, rowsPerPage) != []
    ensures page >= TotalPages(|data|, rowsPerPage) ==> CurrentRows(data, page, rowsPerPage) == []
  {
    var n := TotalPages(|data|, rowsPerPage);
    if 0 <= page < n {
      assert page * rowsPerPage <= (n - 1) * rowsPerPage by {
        MulMonotone(page, n - 1, rowsPerPage);
      }
    } else if page >= n {
      MulMonotone(n, page, rowsPerPage);
    }
  }

  lemma MulMonotone(a: int, b: int, c: nat)
    requires a <= b
    ensures a * c <= b * c
  {
  }

  /** On a page that shows rows, the banner's range counts exactly the rendered rows. */
  lemma BannerCountsRows<T>(data: seq<T>, page: int, rowsPerPage: nat)
    requires rowsPerPage > 0 && 0 <= page < TotalPages(|data|, rowsPerPage)
    ensures EndIndex(page, rowsPerPage, |data|) - StartIndex(page, rowsPerPage) + 1 == |CurrentRows(data, page, rowsPerPage)|
    ensures StartIndex(page, rowsPerPage) >= 1 && EndIndex(page, rowsPerPage, |data|) <= |data|
  {
    PagesNonEmpty(data, page, rowsPerPage);
  }

  /**
   * Previous on the first page asks for page -1. Its rows are empty, and the
   * banner range still runs from `1 - rowsPerPage` to 0.
   */
  lemma PreviousFromFirstPage<T>(data: seq<T>, rowsPerPage: nat)
    requires rowsPerPage > 0
    ensures Disabled(Previous, 0, TotalPages(|data|, rowsPerPage))
    ensures Requested(Previous, 0) == -1
    ensures CurrentRows(data, -1, rowsPerPage) == []
    ensures StartIndex(-1, rowsPerPage) == 1 - rowsPerPage && EndIndex(-1, rowsPerPage, |data|) == 0
  {
  }

  /**
   * Two clicks on Previous from the first page ask for page -2, whose slice
   * bounds are both negative and count from the end: the LAST rows are shown.
   */
  lemma TwoBackShowsTail<T>(data: seq<T>, rowsPerPage: nat)
    requires rowsPerPage > 0 && |data| >= 2 * rowsPerPage
    ensures Requested(Previous, Requested(Previous, 0)) == -2
    ensures CurrentRows(data, -2, rowsPerPage) == data[|data| - 2 * rowsPerPage..|data| - rowsPerPage]
  {
  }

  /** Next on the last page asks for a page past the end, which shows no rows. */
  lemma NextFromLastPage<T>(data: seq<T>, rowsPerPage: nat)
    requires rowsPerPage > 0 && data != []
    ensures Disabled(Next, TotalPages(|data|, rowsPerPage) - 1, TotalPages(|data|, rowsPerPage))
    ensures CurrentRows(data, Requested(Next, TotalPages(|data|, rowsPerPage) - 1), rowsPerPage) == []
  {
    PagesNonEmpty(data, TotalPages(|data|, rowsPerPage), rowsPerPage);
  }

  /** The pagination bar is shown exactly when there are at least two pages. */
  lemma PaginationIffSeveralPages(total: nat, rowsPerPage: nat)
    requires rowsPerPage > 0
    ensures ShowPagination(total, rowsPerPage) <==> TotalPages(total, rowsPerPage) >= 2
  {
    var n := TotalPages(total, rowsPerPage);
    if n >= 2 {
      MulMonotone(1, n - 1, rowsPerPage);
    }
  }

  /** Changing one filter twice keeps only the second value; changing two different keys commutes. */
  lemma FilterChangeLaws(filters: map<string, string>, k1: string, v1: string, k2: string, v2: string)
    ensures FilterChange(FilterChange(filters, k1, v1), k1, v2) == FilterChange(filters, k1, v2)
    ensures k1 != k2 ==> FilterChange(FilterChange(filters, k1, v1), k2, v2) == FilterChange(FilterChange(filters, k2, v2), k1, v1)
  {
  }
}
