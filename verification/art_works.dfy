/** The art works page: the list request, which fetches everything at once
    while a search term is typed and filters it locally, the pagination
    that follows from it, the page reset on a new term or category, the
    art work form and the request body it sends. */
module ArtWorks {
  import opened Common
  import opened Text
  import opened Search
  import Catalog
  import Listing
  import DataTable

  /** An art work as the list endpoint returns it. */
  datatype ArtWork = ArtWork(
    id: string,
    name: Option<string>,
    description: Option<string>,
    categoryId: Option<string>,
    artistName: Option<string>,
    artMedium: Option<string>,
    size: Option<string>,
    basePrice: JsNum,
    discountPrice: JsNum,
    imageUrl: Option<string>,
    active: Option<bool>)

  /** The search term, the selected category ("" for all) and the page. */
  datatype Filters = Filters(searchTerm: string, category: string, page: int, pageSize: int)

  /** The query of `loadItems`. */
  datatype Query = Query(page: int, size: int, categoryId: Option<string>)

  predicate Searching(f: Filters) {
    f.searchTerm != ""
  }

  /** While searching, page 0 of size 1000 (everything, to filter locally);
      otherwise the current page. The category goes along only when one is
      selected. */
  function QueryOf(f: Filters): (q: Query)
    ensures Searching(f) ==> q.page == 0 && q.size == 1000
    ensures !Searching(f) ==> q.page == f.page && q.size == f.pageSize
    ensures q.categoryId.Some? <==> f.category != ""
    ensures q.categoryId.Some? ==> q.categoryId.value == f.category
  {
    Query(if Searching(f) then 0 else f.page, if Searching(f) then 1000 else f.pageSize,
      if f.category != "" then Some(f.category) else None)
  }

  /** The fields the search box looks at. */
  function ArtWorkFields(a: ArtWork): seq<Option<string>> {
    [a.name, a.description, a.artistName]
  }

  predicate ArtWorkHit(term: string, a: ArtWork) {
    FieldHit(term, a.name) || FieldHit(term, a.description) || FieldHit(term, a.artistName)
  }

  /** The page's hit test is the search box's test on its fields. */
  lemma ArtWorkHitMatches(term: string)
    ensures forall a :: ArtWorkHit(term, a) == Matches(term, ArtWorkFields(a))
  {
  }

  /** A page of art works as the server returns it. */
  datatype Response = Response(content: Option<seq<ArtWork>>, number: JsNum, size: JsNum, totalElements: JsNum, totalPages: JsNum)

  datatype Loaded = Loaded(items: seq<ArtWork>, pagination: DataTable.Pagination)

  /** What `loadItems` shows for a response: the content (`|| []`),
      filtered on name, description or artist while searching, with the
      server's pagination, or while searching a single page holding all
      the matches. */
  function Load(f: Filters, r: Response): (l: Loaded)
    ensures var content := if r.content.Some? then r.content.value else [];
      Subseq(l.items, content)
      && (!Searching(f) ==> l.items == content)
      && (Searching(f) ==> forall a :: a in l.items <==> a in content && ArtWorkHit(f.searchTerm, a))
      && (Searching(f) ==> |l.items| == Count(content, (a: ArtWork) => ArtWorkHit(f.searchTerm, a)))
    ensures Searching(f) ==> l.pagination == DataTable.Pagination(0, |l.items|, |l.items|, 1)
    ensures !Searching(f) ==>
      l.pagination == Listing.ServerPagination(r.number, r.size, r.totalElements, r.totalPages, f.pageSize)
  {
    var content := if r.content.Some? then r.content.value else [];
    var items := SearchList(content, f.searchTerm, ArtWorkFields);
    ArtWorkHitMatches(f.searchTerm);
    SearchCount(content, f.searchTerm, ArtWorkFields, (a: ArtWork) => ArtWorkHit(f.searchTerm, a));
    if Searching(f) then Loaded(items, DataTable.Pagination(0, |items|, |items|, 1))
    else Loaded(items, Listing.ServerPagination(r.number, r.size, r.totalElements, r.totalPages, f.pageSize))
  }

  /** While searching, the footer object is page 0 of 1 and counts the
      matches; read with the table's button rule, both page buttons are
      disabled, so the page number can not move away from the results. */
  lemma SearchingShowsOnePage(f: Filters, r: Response)
    requires Searching(f)
    ensures DataTable.PrevDisabled(Load(f, r).pagination) && DataTable.NextDisabled(Load(f, r).pagination)
    ensures Load(f, r).pagination.totalElements == |Load(f, r).items|
    ensures Load(f, r).pagination.number == 0 && Load(f, r).pagination.totalPages == 1
  {
  }

  /** Typing in the search box sets the term and goes back to page 0. */
  function SetSearchTerm(f: Filters, term: string): (g: Filters)
    ensures g.searchTerm == term && g.page == 0
    ensures g.category == f.category && g.pageSize == f.pageSize
  {
    f.(searchTerm := term, page := 0)
  }

  /** Choosing a category sets it and goes back to page 0. */
  function SetCategory(f: Filters, category: string): (g: Filters)
    ensures g.category == category && g.page == 0
    ensures g.searchTerm == f.searchTerm && g.pageSize == f.pageSize
  {
    f.(category := category, page := 0)
  }

  /** After a new term or a new category the list is fetched from page 0,
      whatever page was open before; dropping the category drops the
      parameter. */
  lemma NewFilterRestartsAtFirstPage(f: Filters, term: string, category: string)
    ensures QueryOf(SetSearchTerm(f, term)).page == 0
    ensures QueryOf(SetCategory(f, category)).page == 0
    ensures QueryOf(SetCategory(f, "")).categoryId.None?
  {
  }

  /** The art work form; prices are held as the text of their inputs. */
  datatype ArtWorkForm = ArtWorkForm(
    name: string,
    description: string,
    categoryId: string,
    artistName: string,
    artMedium: string,
    size: string,
    basePrice: string,
    discountPrice: string,
    imageUrl: string,
    active: bool)

  function CreateForm(): (f: ArtWorkForm)
    ensures f.active && f.name == "" && f.basePrice == "" && f.discountPrice == "" && f.categoryId == ""
  {
    ArtWorkForm("", "", "", "", "", "", "", "", "", true)
  }

  /** The form opened on an art work: `|| ''` on every field, `?? true`
      on the active flag. */
  function EditForm(a: ArtWork): (f: ArtWorkForm)
    ensures f.name == OrEmpty(a.name) && f.categoryId == OrEmpty(a.categoryId)
    ensures f.basePrice == Catalog.PriceText(a.basePrice) && f.discountPrice == Catalog.PriceText(a.discountPrice)
    ensures f.active == Coalesce(a.active, true)
    ensures f.description == OrEmpty(a.description) && f.artistName == OrEmpty(a.artistName)
    ensures f.artMedium == OrEmpty(a.artMedium) && f.size == OrEmpty(a.size) && f.imageUrl == OrEmpty(a.imageUrl)
  {
    ArtWorkForm(OrEmpty(a.name), OrEmpty(a.description), OrEmpty(a.categoryId), OrEmpty(a.artistName),
      OrEmpty(a.artMedium), OrEmpty(a.size), Catalog.PriceText(a.basePrice), Catalog.PriceText(a.discountPrice),
      OrEmpty(a.imageUrl), Coalesce(a.active, true))
  }

  /** The request body; `N` is whatever `parseFloat` yields. */
  datatype ArtWorkPayload<N> = ArtWorkPayload(
    name: string,
    description: string,
    categoryId: string,
    artistName: string,
    artMedium: string,
    size: string,
    basePrice: N,
    discountPrice: Option<N>,
    imageUrl: string,
    active: bool)

  /** `handleSubmit`'s body: the base price always parsed, the discount
      parsed or null when its field is empty, the rest as typed. */
  function Payload<N>(f: ArtWorkForm, parseFloat: string -> N): (p: ArtWorkPayload<N>)
    ensures p.basePrice == parseFloat(f.basePrice)
    ensures p.discountPrice.None? <==> f.discountPrice == ""
    ensures f.discountPrice != "" ==> p.discountPrice == Some(parseFloat(f.discountPrice))
    ensures p.name == f.name && p.categoryId == f.categoryId && p.active == f.active
    ensures p.description == f.description && p.artistName == f.artistName
    ensures p.artMedium == f.artMedium && p.size == f.size && p.imageUrl == f.imageUrl
  {
    ArtWorkPayload(f.name, f.description, f.categoryId, f.artistName, f.artMedium, f.size,
      parseFloat(f.basePrice), Catalog.OptionalPrice(f.discountPrice, parseFloat), f.imageUrl, f.active)
  }

  /** Saving an untouched edit form sends null as the discount exactly
      when the art work had none, and keeps a stored `active: false`. */
  lemma EditPayloadKeepsDiscountAndActive<N>(a: ArtWork, parseFloat: string -> N)
    ensures Payload(EditForm(a), parseFloat).discountPrice.None? <==> !JsTruthy(a.discountPrice)
    ensures a.active == Some(false) ==> !Payload(EditForm(a), parseFloat).active
  {
    Catalog.DiscountRoundTrip(a.discountPrice, parseFloat);
  }
}
