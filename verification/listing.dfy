/** What the server-paginated list pages (orders, subscriptions) do with a
    page response, and the shortened identifier their ID columns show. */
module Listing {
  import opened Common
  import opened Text
  import DataTable

  /** The page block of a list response: `number || 0`, `size || defaultSize`,
      `totalElements || 0`, `totalPages || 1`. */
  function ServerPagination(number: JsNum, size: JsNum, totalElements: JsNum, totalPages: JsNum, defaultSize: int): (p: DataTable.Pagination)
    ensures p.totalPages != 0
    ensures !JsTruthy(size) ==> p.size == defaultSize
    ensures !JsTruthy(number) ==> p.number == 0
    ensures !JsTruthy(totalElements) ==> p.totalElements == 0
  {
    DataTable.Pagination(JsNumOr(number, 0), JsNumOr(size, defaultSize), JsNumOr(totalElements, 0), JsNumOr(totalPages, 1))
  }

  /** A well-formed page from the server reaches the table unchanged, and a
      response without a page block still gives the table a well-formed
      single empty page. */
  lemma ServerPaginationKeepsWellFormed(p: DataTable.Pagination, defaultSize: int)
    requires DataTable.WellFormed(p)
    requires defaultSize > 0
    ensures ServerPagination(Number(p.number), Number(p.size), Number(p.totalElements), Number(p.totalPages), defaultSize) == p
    ensures DataTable.WellFormed(ServerPagination(Undefined, Undefined, Undefined, Undefined, defaultSize))
    ensures ServerPagination(Undefined, Undefined, Undefined, Undefined, defaultSize) == DataTable.Pagination(0, defaultSize, 0, 1)
  {
  }

  /** `val?.slice(0, 8) + '...'`: a missing id renders as "undefined...". */
  function ShortId(id: Option<string>): (r: string)
    ensures id.None? ==> r == "undefined..."
    ensures id.Some? ==> 3 <= |r| <= 11 && r[..|r| - 3] <= id.value && r[|r| - 3..] == "..."
    ensures id.Some? && |id.value| >= 8 ==> |r| == 11
  {
    match id
    case None => "undefined..."
    case Some(s) => Take(s, 8) + "..."
  }

  /** Two ids that share their first eight characters look the same in
      the column; ids that differ there look different. */
  lemma ShortIdKeepsPrefix(a: string, b: string)
    requires |a| >= 8 && |b| >= 8
    ensures ShortId(Some(a)) == ShortId(Some(b)) <==> a[..8] == b[..8]
  {
    var ra := ShortId(Some(a));
    var rb := ShortId(Some(b));
    assert ra[..8] == a[..8];
    assert rb[..8] == b[..8];
    if a[..8] == b[..8] {
      assert ra == a[..8] + "..." && rb == b[..8] + "...";
    }
  }
}
