/** The exhibitions page: the page of exhibitions a response yields, the
    search over the cards, the exhibition form and the request it sends. */
module Exhibitions {
  import opened Common
  import opened Text
  import opened Search
  import Listing
  import DataTable

  /** An exhibition as the list endpoint returns it. */
  datatype Exhibition = Exhibition(
    id: string,
    name: Option<string>,
    description: Option<string>,
    categoryId: Option<string>,
    categoryName: Option<string>,
    startDate: Option<string>,
    endDate: Option<string>,
    location: Option<string>,
    imageUrl: Option<string>,
    artistCount: JsNum,
    artworksCount: JsNum,
    active: Option<bool>)

  /** The page size the list starts with. */
  const PageSize := 20

  datatype Response = Response(content: Option<seq<Exhibition>>, number: JsNum, size: JsNum, totalElements: JsNum, totalPages: JsNum)

  datatype Loaded = Loaded(items: seq<Exhibition>, pagination: DataTable.Pagination)

  /** `loadItems`: the content (`|| []`) and the server's pagination with
      the usual defaults. */
  function Load(r: Response, pageSize: int): (l: Loaded)
    ensures l.items == (if r.content.Some? then r.content.value else [])
    ensures l.pagination == Listing.ServerPagination(r.number, r.size, r.totalElements, r.totalPages, pageSize)
    ensures r.size == Undefined ==> l.pagination.size == pageSize
  {
    Loaded(if r.content.Some? then r.content.value else [],
      Listing.ServerPagination(r.number, r.size, r.totalElements, r.totalPages, pageSize))
  }

  /** An empty answer still gives a footer that makes sense: page 1 of 1,
      no elements, the page's own size; read with the table's button rule,
      both buttons are disabled. */
  lemma EmptyAnswerGivesOnePage()
    ensures var l := Load(Response(None, Undefined, Undefined, Undefined, Undefined), PageSize);
      l.items == [] && DataTable.WellFormed(l.pagination)
      && l.pagination == DataTable.Pagination(0, PageSize, 0, 1)
      && DataTable.PrevDisabled(l.pagination) && DataTable.NextDisabled(l.pagination)
  {
    Listing.ServerPaginationKeepsWellFormed(DataTable.Pagination(0, PageSize, 0, 1), PageSize);
  }

  /** The fields the search box looks at. */
  function ExhibitionFields(x: Exhibition): seq<Option<string>> {
    [x.name, x.description, x.location, x.categoryName]
  }

  predicate ExhibitionHit(term: string, x: Exhibition) {
    FieldHit(term, x.name) || FieldHit(term, x.description) || FieldHit(term, x.location) || FieldHit(term, x.categoryName)
  }

  /** The page's hit test is the search box's test on its fields. */
  lemma ExhibitionHitMatches(term: string)
    ensures forall x :: ExhibitionHit(term, x) == Matches(term, ExhibitionFields(x))
  {
  }

  /** `filteredItems`: name, description, location or category. */
  function FilteredExhibitions(items: seq<Exhibition>, term: string): (r: seq<Exhibition>)
    ensures term == "" ==> r == items
    ensures term != "" ==> forall x :: x in r ==> x in items && ExhibitionHit(term, x)
    ensures forall x :: x in items && ExhibitionHit(term, x) ==> x in r
    ensures term != "" ==> |r| == Count(items, (x: Exhibition) => ExhibitionHit(term, x))
    ensures Subseq(r, items)
  {
    ExhibitionHitMatches(term);
    SearchCount(items, term, ExhibitionFields, (x: Exhibition) => ExhibitionHit(term, x));
    SearchList(items, term, ExhibitionFields)
  }

  /** Searching for a place finds every exhibition held there. */
  lemma LocationSearchFindsExhibition(items: seq<Exhibition>, place: string)
    ensures forall x :: x in items && x.location == Some(place) ==> x in FilteredExhibitions(items, place)
  {
    FieldHitSelf(place);
  }

  /** The exhibition form. The two counts hold what their number inputs
      show: the number put there on opening, or the text typed since. */
  datatype ExhibitionForm = ExhibitionForm(
    name: string,
    description: string,
    categoryId: string,
    startDate: string,
    endDate: string,
    location: string,
    imageUrl: string,
    artistCount: string,
    artworksCount: string,
    active: bool)

  /** The form of a new exhibition: no artists, no art works, active. */
  function CreateForm(): (f: ExhibitionForm)
    ensures f.name == "" && f.startDate == "" && f.endDate == "" && f.location == "" && f.active
    ensures ParseInt(f.artistCount) == Some(0) && ParseInt(f.artworksCount) == Some(0)
  {
    ParseIntRoundTrip(0);
    ExhibitionForm("", "", "", "", "", "", "", IntToDecimal(0), IntToDecimal(0), true)
  }

  /** The form opened on an exhibition: `|| ''` on the text fields,
      `|| 0` on the counts, `?? true` on the active flag. */
  function EditForm(x: Exhibition): (f: ExhibitionForm)
    ensures f.name == OrEmpty(x.name) && f.startDate == OrEmpty(x.startDate) && f.endDate == OrEmpty(x.endDate)
    ensures ParseInt(f.artistCount) == Some(JsNumOr(x.artistCount, 0))
    ensures ParseInt(f.artworksCount) == Some(JsNumOr(x.artworksCount, 0))
    ensures f.active == Coalesce(x.active, true)
    ensures f.description == OrEmpty(x.description) && f.categoryId == OrEmpty(x.categoryId)
    ensures f.location == OrEmpty(x.location) && f.imageUrl == OrEmpty(x.imageUrl)
  {
    ParseIntRoundTrip(JsNumOr(x.artistCount, 0));
    ParseIntRoundTrip(JsNumOr(x.artworksCount, 0));
    ExhibitionForm(OrEmpty(x.name), OrEmpty(x.description), OrEmpty(x.categoryId), OrEmpty(x.startDate),
      OrEmpty(x.endDate), OrEmpty(x.location), OrEmpty(x.imageUrl),
      IntToDecimal(JsNumOr(x.artistCount, 0)), IntToDecimal(JsNumOr(x.artworksCount, 0)), Coalesce(x.active, true))
  }

  /** The request body: the form with both counts through `parseInt`; a
      None count is the NaN of a failed parse. */
  datatype ExhibitionPayload = ExhibitionPayload(
    name: string,
    description: string,
    categoryId: string,
    startDate: string,
    endDate: string,
    location: string,
    imageUrl: string,
    artistCount: Option<int>,
    artworksCount: Option<int>,
    active: bool)

  datatype ExhibitionRequest = CreateExhibition(body: ExhibitionPayload) | UpdateExhibition(id: string, body: ExhibitionPayload)

  function Payload(f: ExhibitionForm): (p: ExhibitionPayload)
    ensures p.name == f.name && p.description == f.description && p.categoryId == f.categoryId
    ensures p.startDate == f.startDate && p.endDate == f.endDate && p.location == f.location
    ensures p.imageUrl == f.imageUrl && p.active == f.active
    ensures p.artistCount == ParseInt(f.artistCount) && p.artworksCount == ParseInt(f.artworksCount)
    ensures f.artistCount == "" ==> p.artistCount.None?
  {
    ParseIntEmpty();
    ExhibitionPayload(f.name, f.description, f.categoryId, f.startDate, f.endDate, f.location, f.imageUrl,
      ParseInt(f.artistCount), ParseInt(f.artworksCount), f.active)
  }

  /** `handleSubmit`: a create in create mode, otherwise an update of the
      selected exhibition (with none selected the update throws before
      sending). The Save button sits outside the form, so the fields
      marked required are not checked. */
  function Submit(mode: ModalMode, selected: Option<Exhibition>, f: ExhibitionForm): (r: Option<ExhibitionRequest>)
    ensures mode == CreateMode ==> r == Some(CreateExhibition(Payload(f)))
    ensures mode != CreateMode && selected.Some? ==> r == Some(UpdateExhibition(selected.value.id, Payload(f)))
    ensures r.None? <==> mode != CreateMode && selected.None?
  {
    if mode == CreateMode then Some(CreateExhibition(Payload(f)))
    else if selected.Some? then Some(UpdateExhibition(selected.value.id, Payload(f)))
    else None
  }

  /** The untouched create form is sent as it is: no name, no dates, and
      zero artists and art works. */
  lemma BlankExhibitionIsSent(selected: Option<Exhibition>)
    ensures var r := Submit(CreateMode, selected, CreateForm());
      r.Some? && r.value.body.name == "" && r.value.body.startDate == ""
      && r.value.body.artistCount == Some(0) && r.value.body.artworksCount == Some(0)
  {
  }

  /** Saving an untouched edit form sends back the stored counts (0 for a
      missing one) and the stored active flag (true when missing). */
  lemma EditRoundTrip(x: Exhibition)
    ensures var r := Submit(EditMode, Some(x), EditForm(x));
      r == Some(UpdateExhibition(x.id, r.value.body))
      && r.value.body.name == OrEmpty(x.name)
      && r.value.body.artistCount == Some(JsNumOr(x.artistCount, 0))
      && r.value.body.artworksCount == Some(JsNumOr(x.artworksCount, 0))
      && r.value.body.active == Coalesce(x.active, true)
  {
  }
}
