/** The art galleries page: gallery entries moderated through status tabs
    that open on the approved ones, with approve, reject and revoke
    buttons on each card, and a search box over the shown entries. */
module Galleries {
  import opened Common
  import opened Search
  import opened StatusTabs
  import DataTable

  /** A gallery entry as the gallery endpoint returns it. */
  datatype GalleryItem = GalleryItem(
    id: string,
    name: Option<string>,
    description: Option<string>,
    userName: Option<string>,
    categoryName: Option<string>,
    status: Option<string>)

  function StatusOf(g: GalleryItem): Option<string> {
    g.status
  }

  /** The tab the page opens on. */
  const InitialTab: TabState := Opening("APPROVED")

  /** What a successful fetch leaves on the page: the unfiltered list for
      the counts, the filtered list for the cards, and the pagination. */
  datatype Loaded = Loaded(all: seq<GalleryItem>, items: seq<GalleryItem>, pagination: DataTable.Pagination)

  /** `loadItems` with the page's adjustable page size. */
  function Load(data: seq<GalleryItem>, filter: string, number: JsNum, size: JsNum, pageSize: nat): (l: Loaded)
    requires pageSize > 0
    ensures l.all == data
    ensures filter == "ALL" ==> l.items == data
    ensures filter != "ALL" ==> forall g :: g in l.items <==> g in data && g.status == Some(filter)
    ensures filter != "ALL" ==> |l.items| == Count(data, HasStatus(StatusOf, filter))
    ensures Subseq(l.items, data)
    ensures l.pagination.totalElements == |l.items|
    ensures l.pagination.totalPages >= 1 && |l.items| <= l.pagination.totalPages * pageSize
    ensures l.pagination.totalPages == 1 || (l.pagination.totalPages - 1) * pageSize < |l.items|
    ensures l.pagination.size == JsNumOr(size, pageSize) && l.pagination.number == JsNumOr(number, 0)
  {
    var items := StatusFilter(data, filter, StatusOf);
    Loaded(data, items, LocalPagination(number, size, pageSize, |items|, pageSize))
  }

  /** On the opening tab the page shows exactly the approved entries, each
      as often as it comes in the answer, in the answer's order. */
  lemma OpeningTabShowsApproved(data: seq<GalleryItem>, pageSize: nat)
    requires pageSize > 0
    ensures var shown := Load(data, InitialTab.filter, Undefined, Undefined, pageSize).items;
      (forall g :: g in shown <==> (g in data && g.status == Some("APPROVED")))
      && |shown| == Count(data, (g: GalleryItem) => g.status == Some("APPROVED"))
      && Subseq(shown, data)
  {
    forall g: GalleryItem
      ensures HasStatus(StatusOf, "APPROVED")(g) == (g.status == Some("APPROVED"))
    {
      assert StatusOf(g) == g.status;
    }
    CountExt(data, HasStatus(StatusOf, "APPROVED"), (g: GalleryItem) => g.status == Some("APPROVED"));
  }

  /** The tab counts of the page (see `StatusTabs.CountsMatchTabs`). */
  function TabCountsOf(l: Loaded): (c: TabCounts)
    ensures c.all == |l.all|
    ensures c.pending + c.approved + c.rejected <= c.all
    ensures c.approved == |StatusFilter(l.all, "APPROVED", StatusOf)|
  {
    CountsMatchTabs(l.all, StatusOf);
    Counts(l.all, StatusOf)
  }

  datatype Moderation = Approve | Reject | Revoke

  /** The status buttons of a card: Approve unless approved; Reject unless
      approved or rejected; Revoke only when approved. */
  predicate Offered(a: Moderation, status: Option<string>) {
    match a
    case Approve => status != Some("APPROVED")
    case Reject => status != Some("APPROVED") && status != Some("REJECTED")
    case Revoke => status == Some("APPROVED")
  }

  /** The status a button asks the server for; revoking is a rejection. */
  function Target(a: Moderation): string {
    match a
    case Approve => "APPROVED"
    case Reject => "REJECTED"
    case Revoke => "REJECTED"
  }

  /** Exactly one of Approve and Revoke is on every card, and no offered
      button asks for the status the entry already has. */
  lemma ModerationButtons(status: Option<string>)
    ensures Offered(Approve, status) != Offered(Revoke, status)
    ensures forall a :: Offered(a, status) ==> status != Some(Target(a))
    ensures Offered(Reject, status) ==> Offered(Approve, status)
  {
  }

  /** Per status: pending (or unknown) offers approve and reject, rejected
      only approve, approved only revoke. */
  lemma ModerationByStatus()
    ensures Offered(Approve, Some("PENDING")) && Offered(Reject, Some("PENDING")) && !Offered(Revoke, Some("PENDING"))
    ensures Offered(Approve, Some("REJECTED")) && !Offered(Reject, Some("REJECTED")) && !Offered(Revoke, Some("REJECTED"))
    ensures !Offered(Approve, Some("APPROVED")) && !Offered(Reject, Some("APPROVED")) && Offered(Revoke, Some("APPROVED"))
  {
  }

  /** The fields the search box looks at. */
  function GalleryFields(g: GalleryItem): seq<Option<string>> {
    [g.name, g.description, g.userName, g.categoryName]
  }

  predicate GalleryHit(term: string, g: GalleryItem) {
    FieldHit(term, g.name) || FieldHit(term, g.description) || FieldHit(term, g.userName) || FieldHit(term, g.categoryName)
  }

  /** The page's hit test is the search box's test on its fields. */
  lemma GalleryHitMatches(term: string)
    ensures forall g :: GalleryHit(term, g) == Matches(term, GalleryFields(g))
  {
  }

  /** The search box over the shown entries. */
  function FilteredItems(items: seq<GalleryItem>, term: string): (r: seq<GalleryItem>)
    ensures term == "" ==> r == items
    ensures term != "" ==> forall g :: g in r ==> g in items && GalleryHit(term, g)
    ensures forall g :: g in items && GalleryHit(term, g) ==> g in r
    ensures term != "" ==> |r| == Count(items, (g: GalleryItem) => GalleryHit(term, g))
    ensures Subseq(r, items)
  {
    GalleryHitMatches(term);
    SearchCount(items, term, GalleryFields, (g: GalleryItem) => GalleryHit(term, g));
    SearchList(items, term, GalleryFields)
  }
}
