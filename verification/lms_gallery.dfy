/** The student gallery review page: the same gallery entries, opening on
    the pending tab with a fixed page size of 20, where only pending
    submissions can be approved or rejected. */
module LmsGallery {
  import opened Common
  import opened Text
  import opened Search
  import opened StatusTabs
  import opened Galleries
  import DataTable

  /** The page size the review table assumes. */
  const PageSize: nat := 20

  /** The tab the page opens on. */
  const InitialReviewTab: TabState := Opening("PENDING")

  /** `loadItems`: filter by tab, then pagination with pages of 20. */
  function LoadReview(data: seq<GalleryItem>, filter: string, number: JsNum, size: JsNum): (l: Loaded)
    ensures l.all == data
    ensures filter == "ALL" ==> l.items == data
    ensures filter != "ALL" ==> forall g :: g in l.items <==> g in data && g.status == Some(filter)
    ensures filter != "ALL" ==> |l.items| == Count(data, HasStatus(StatusOf, filter))
    ensures Subseq(l.items, data)
    ensures l.pagination.totalElements == |l.items|
    ensures l.pagination.totalPages >= 1 && |l.items| <= l.pagination.totalPages * 20
    ensures l.pagination.totalPages == 1 || (l.pagination.totalPages - 1) * 20 < |l.items|
    ensures l.pagination.size == JsNumOr(size, 20)
  {
    var items := StatusFilter(data, filter, StatusOf);
    Loaded(data, items, LocalPagination(number, size, PageSize, |items|, PageSize))
  }

  /** The size the page asks the server for: the whole list at once. */
  const FetchSize := 100

  /** As written, the footer takes the server's size (100, the size asked
      for) while the page count divides by 20, and the table shows every
      filtered row at once. With more than 20 and at most 100 rows the
      footer reads "1–n of n" on page "1 / 2" or more, and Next is enabled
      although every row is already shown; it would fetch the server's
      second page of 100. The footer is not a well-formed pagination. */
  lemma ReviewFooterOffersMissingPage(data: seq<GalleryItem>, filter: string)
    requires 20 < |LoadReview(data, filter, Number(0), Number(FetchSize)).items| <= FetchSize
    ensures var l := LoadReview(data, filter, Number(0), Number(FetchSize));
      l.pagination.totalPages >= 2 && !DataTable.NextDisabled(l.pagination)
      && DataTable.RangeEnd(l.pagination) == |l.items|
      && !DataTable.WellFormed(l.pagination)
  {
  }

  /** The footer the page evidently intends: pages counted with the same
      size the footer shows, `response.size || 20`. */
  function LoadReviewIntended(data: seq<GalleryItem>, filter: string, number: JsNum, size: JsNum): (l: Loaded)
    requires JsNumOr(size, 20) > 0
    ensures l.all == data && l.items == StatusFilter(data, filter, StatusOf)
    ensures l.pagination.size == JsNumOr(size, 20) && l.pagination.totalElements == |l.items|
    ensures l.pagination.totalPages >= 1 && |l.items| <= l.pagination.totalPages * l.pagination.size
    ensures l.pagination.totalPages == 1 || (l.pagination.totalPages - 1) * l.pagination.size < |l.items|
  {
    var items := StatusFilter(data, filter, StatusOf);
    Loaded(data, items, LocalPagination(number, size, PageSize, |items|, JsNumOr(size, 20)))
  }

  /** With the intended footer, page 0 is always a well-formed pagination,
      and when the server's page of 100 holds every shown row the footer
      has one page, counts every row and disables Next. */
  lemma IntendedFooterIsWellFormed(data: seq<GalleryItem>, filter: string, size: JsNum)
    requires JsNumOr(size, 20) > 0
    ensures DataTable.WellFormed(LoadReviewIntended(data, filter, Number(0), size).pagination)
    ensures var l := LoadReviewIntended(data, filter, Number(0), Number(FetchSize));
      |l.items| <= FetchSize ==>
        l.pagination.totalPages == 1 && DataTable.NextDisabled(l.pagination)
        && DataTable.RangeEnd(l.pagination) == |l.items|
  {
  }

  /** The review page loads the same lists as the galleries page would
      with pages of 20; only the opening tab differs. */
  lemma SameLoadAsGalleries(data: seq<GalleryItem>, filter: string, number: JsNum, size: JsNum)
    ensures LoadReview(data, filter, number, size) == Load(data, filter, number, size, 20)
  {
  }

  datatype ReviewAction = ApproveItem | RejectItem | EditItem | DeleteItem

  /** Approve and Reject only on pending rows; Edit and Delete on all. */
  predicate ReviewOffered(a: ReviewAction, status: Option<string>) {
    match a
    case ApproveItem => status == Some("PENDING")
    case RejectItem => status == Some("PENDING")
    case _ => true
  }

  /** A row the review page lets one approve or reject is one the
      galleries page would let one approve or reject as well; the reverse
      fails for rejected entries, which the galleries page can approve. */
  lemma ReviewIsStricterThanGalleries(status: Option<string>)
    ensures ReviewOffered(ApproveItem, status) ==> Galleries.Offered(Approve, status)
    ensures ReviewOffered(RejectItem, status) ==> Galleries.Offered(Reject, status)
    ensures Galleries.Offered(Approve, Some("REJECTED")) && !ReviewOffered(ApproveItem, Some("REJECTED"))
    ensures forall s :: ReviewOffered(EditItem, s) && ReviewOffered(DeleteItem, s)
  {
  }

  /** On the opening tab the page shows exactly the pending entries, and
      every row it shows can be approved or rejected there. */
  lemma OpeningTabOffersReview(data: seq<GalleryItem>, number: JsNum, size: JsNum)
    ensures var shown := LoadReview(data, InitialReviewTab.filter, number, size).items;
      (forall g :: g in shown <==> (g in data && g.status == Some("PENDING")))
      && (forall g :: g in shown ==> ReviewOffered(ApproveItem, g.status) && ReviewOffered(RejectItem, g.status))
  {
  }

  /** The fields the search box looks at. */
  function ReviewFields(g: GalleryItem): seq<Option<string>> {
    [g.name, g.userName, g.categoryName, g.status]
  }

  predicate ReviewHit(term: string, g: GalleryItem) {
    FieldHit(term, g.name) || FieldHit(term, g.userName) || FieldHit(term, g.categoryName) || FieldHit(term, g.status)
  }

  /** The page's hit test is the search box's test on its fields. */
  lemma ReviewHitMatches(term: string)
    ensures forall g :: ReviewHit(term, g) == Matches(term, ReviewFields(g))
  {
  }

  /** The search box of the review table: name, submitter, category or
      status (not the description). */
  function FilteredReview(items: seq<GalleryItem>, term: string): (r: seq<GalleryItem>)
    ensures term == "" ==> r == items
    ensures term != "" ==> forall g :: g in r ==> g in items && ReviewHit(term, g)
    ensures forall g :: g in items && ReviewHit(term, g) ==> g in r
    ensures term != "" ==> |r| == Count(items, (g: GalleryItem) => ReviewHit(term, g))
    ensures Subseq(r, items)
  {
    ReviewHitMatches(term);
    SearchCount(items, term, ReviewFields, (g: GalleryItem) => ReviewHit(term, g));
    SearchList(items, term, ReviewFields)
  }

  /** "PENDING" lower-cases to the search term "pending". */
  lemma PendingHit()
    ensures FieldHit("pending", Some("PENDING"))
  {
    assert Lower("PENDING") == Lower("pending");
    FieldHitSelf("pending");
  }

  /** Searching for "pending" on the pending tab keeps every row: the
      status field always contains it. */
  lemma SearchingTheTabKeepsAll(items: seq<GalleryItem>)
    requires forall g :: g in items ==> g.status == Some("PENDING")
    ensures FilteredReview(items, "pending") == items
  {
    PendingHit();
    forall g | g in items
      ensures Matches("pending", ReviewFields(g))
    {
      assert g.status in ReviewFields(g);
    }
    SearchKeepsAll(items, "pending", ReviewFields);
  }
}
