/** The moderation pages' status tabs: the list they fetch once, filtered
    by the selected tab, the per-status counts shown on the tabs, and the
    pagination worked out locally from the filtered list. */
module StatusTabs {
  import opened Common
  import opened Search
  import DataTable

  /** The item filter of one status tab. */
  function HasStatus<T>(statusOf: T -> Option<string>, s: string): T -> bool {
    (x: T) => statusOf(x) == Some(s)
  }

  /** `filter === 'ALL' ? data : data.filter(item => item.status === filter)`. */
  function StatusFilter<T>(items: seq<T>, filter: string, statusOf: T -> Option<string>): (r: seq<T>)
    ensures filter == "ALL" ==> r == items
    ensures filter != "ALL" ==> forall x :: x in r ==> x in items && statusOf(x) == Some(filter)
    ensures filter != "ALL" ==> forall x :: x in items && statusOf(x) == Some(filter) ==> x in r
    ensures filter != "ALL" ==> |r| == Count(items, HasStatus(statusOf, filter))
    ensures Subseq(r, items)
  {
    if filter == "ALL" then
      SubseqRefl(items);
      items
    else Filter(items, HasStatus(statusOf, filter))
  }

  /** The counts on the tabs, taken from the unfiltered list. */
  datatype TabCounts = TabCounts(all: nat, pending: nat, approved: nat, rejected: nat)

  function Counts<T>(items: seq<T>, statusOf: T -> Option<string>): (c: TabCounts)
    ensures c.all == |items|
  {
    TabCounts(|items|,
      Count(items, HasStatus(statusOf, "PENDING")),
      Count(items, HasStatus(statusOf, "APPROVED")),
      Count(items, HasStatus(statusOf, "REJECTED")))
  }

  /** Each tab's count is the length of the list that tab shows, and the
      three status counts never add up to more than the total. */
  lemma CountsMatchTabs<T>(items: seq<T>, statusOf: T -> Option<string>)
    ensures Counts(items, statusOf).all == |StatusFilter(items, "ALL", statusOf)|
    ensures Counts(items, statusOf).pending == |StatusFilter(items, "PENDING", statusOf)|
    ensures Counts(items, statusOf).approved == |StatusFilter(items, "APPROVED", statusOf)|
    ensures Counts(items, statusOf).rejected == |StatusFilter(items, "REJECTED", statusOf)|
    ensures Counts(items, statusOf).pending + Counts(items, statusOf).approved
      + Counts(items, statusOf).rejected <= Counts(items, statusOf).all
  {
    var p := HasStatus(statusOf, "PENDING");
    var a := HasStatus(statusOf, "APPROVED");
    var r := HasStatus(statusOf, "REJECTED");
    var pa := (x: T) => p(x) || a(x);
    CountDisjoint(items, p, a);
    CountDisjoint(items, pa, r);
    CountOr(items, p, a);
  }

  /** Counting under a disjunction of exclusive predicates adds the counts. */
  lemma {:induction false} CountOr<T>(s: seq<T>, p: T -> bool, q: T -> bool)
    requires forall x :: !(p(x) && q(x))
    ensures Count(s, (x: T) => p(x) || q(x)) == Count(s, p) + Count(s, q)
  {
    if |s| > 0 {
      CountOr(s[1..], p, q);
    }
  }

  /** `Math.ceil(n / d)` for a natural number over a positive one. */
  function CeilDiv(n: nat, d: nat): (c: nat)
    requires d > 0
    ensures (c - 1) * d < n <= c * d || (n == 0 && c == 0)
  {
    (n + d - 1) / d
  }

  /** The pagination a moderation page builds after filtering:
      `number || 0`, `size || defaultSize`, the filtered length as the
      total, and `Math.ceil(length / pageSize) || 1` pages. */
  function LocalPagination(number: JsNum, size: JsNum, defaultSize: int, filtered: nat, pageSize: nat): (p: DataTable.Pagination)
    requires pageSize > 0
    ensures p.number == JsNumOr(number, 0) && p.size == JsNumOr(size, defaultSize)
    ensures p.totalElements == filtered
    ensures p.totalPages >= 1
    ensures filtered <= p.totalPages * pageSize
    ensures p.totalPages == 1 || (p.totalPages - 1) * pageSize < filtered
  {
    var pages := CeilDiv(filtered, pageSize);
    DataTable.Pagination(JsNumOr(number, 0), JsNumOr(size, defaultSize), filtered, if pages == 0 then 1 else pages)
  }

  /** When the server's page number is 0 and the size is the local page
      size, the footer's pagination is well formed. */
  lemma LocalPaginationWellFormed(filtered: nat, pageSize: nat)
    requires pageSize > 0
    ensures DataTable.WellFormed(LocalPagination(Undefined, Number(pageSize), pageSize, filtered, pageSize))
  {
  }

  /** Where a moderation page is: the selected tab and the page number. */
  datatype TabState = TabState(filter: string, page: int)

  /** A page opened on a tab: that tab, first page. */
  function Opening(tab: string): (t: TabState)
    ensures t.filter == tab && t.page == 0
  {
    TabState(tab, 0)
  }

  /** A click on a tab selects it and goes back to the first page, as if
      the page had just been opened on it. */
  function SelectTab(st: TabState, tab: string): (r: TabState)
    ensures r.filter == tab && r.page == 0
    ensures r == Opening(tab)
  {
    Opening(tab)
  }

  /** Whatever page was open, reselecting the same tab lands on page 0, so
      switching tabs never leaves the page number past the new list. */
  lemma SelectTabForgetsPage(st: TabState, other: TabState, tab: string)
    ensures SelectTab(st, tab) == SelectTab(other, tab)
  {
  }
}
