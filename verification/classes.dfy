/** The art classes page: the search over the class cards, the discount
    badge on a card, the class form and the request body it sends. */
module Classes {
  import opened Common
  import opened Text
  import opened Search
  import Catalog

  /** An art class as the list endpoint returns it. */
  datatype ArtClass = ArtClass(
    id: string,
    name: Option<string>,
    description: Option<string>,
    categoryId: Option<string>,
    categoryName: Option<string>,
    proficiency: Option<string>,
    basePrice: JsNum,
    discountPrice: JsNum,
    durationWeeks: Option<int>,
    imageUrl: Option<string>,
    active: Option<bool>)

  /** The fields the search box looks at. */
  function ClassFields(c: ArtClass): seq<Option<string>> {
    [c.name, c.description, c.categoryName, c.proficiency]
  }

  predicate ClassHit(term: string, c: ArtClass) {
    FieldHit(term, c.name) || FieldHit(term, c.description) || FieldHit(term, c.categoryName) || FieldHit(term, c.proficiency)
  }

  /** `filteredItems`: name, description, category or proficiency. */
  function FilteredClasses(items: seq<ArtClass>, term: string): (r: seq<ArtClass>)
    ensures term == "" ==> r == items
    ensures term != "" ==> forall c :: c in r ==> c in items && ClassHit(term, c)
    ensures forall c :: c in items && ClassHit(term, c) ==> c in r
    ensures term != "" ==> |r| == Count(items, (c: ArtClass) => ClassHit(term, c))
    ensures Subseq(r, items)
  {
    ClassHitMatches(term);
    SearchCount(items, term, ClassFields, (c: ArtClass) => ClassHit(term, c));
    SearchList(items, term, ClassFields)
  }

  /** The page's hit test is the search box's test on its fields. */
  lemma ClassHitMatches(term: string)
    ensures forall c :: ClassHit(term, c) == Matches(term, ClassFields(c))
  {
  }

  /** Searching for a proficiency level finds every class of that level. */
  lemma LevelSearchFindsLevel(items: seq<ArtClass>, level: string)
    ensures forall c :: c in items && c.proficiency == Some(level) ==> c in FilteredClasses(items, level)
  {
    FieldHitSelf(level);
  }

  /** The badge condition of the class cards as written:
      `discountPrice < basePrice`, with no check that a discount exists. */
  predicate DiscountBadgeAsWritten(discount: JsNum, base: JsNum) {
    JsLess(discount, base)
  }

  /** A class without a discount (null) and a base price of 500 gets the
      badge, whose percentage `(500 - null) / 500` reads "-100%", while the
      card shows the full price of 500 and strikes nothing through. */
  lemma NullDiscountShowsFullBadge()
    ensures DiscountBadgeAsWritten(Null, Number(500))
    ensures Catalog.ShownPrice(Null, Number(500)) == Number(500)
    ensures !JsTruthy(Null)
  {
  }

  /** The badge condition the cards evidently intend, the one the art
      works cards use: a discount exists and is below the base price. */
  predicate DiscountBadge(discount: JsNum, base: JsNum) {
    Catalog.DiscountShown(discount, base)
  }

  /** The intended badge appears only together with the discounted price,
      and never for a class without a discount; where a discount exists
      the two conditions agree. */
  lemma DiscountBadgeMatchesPrice(discount: JsNum, base: JsNum)
    ensures DiscountBadge(discount, base) ==> Catalog.ShownPrice(discount, base) == discount
    ensures !JsTruthy(discount) ==> !DiscountBadge(discount, base)
    ensures JsTruthy(discount) ==> (DiscountBadge(discount, base) <==> DiscountBadgeAsWritten(discount, base))
  {
    Catalog.BadgeAgreesWithPrice(discount, base);
  }

  /** The class form; numbers are held as the text of their inputs. */
  datatype ClassForm = ClassForm(
    name: string,
    description: string,
    basePrice: string,
    discountPrice: string,
    durationWeeks: string,
    proficiency: string,
    categoryId: string,
    imageUrl: string,
    active: bool)

  /** The form of a new class: a beginners' class, active. */
  function CreateForm(): (f: ClassForm)
    ensures f.proficiency == "Beginner" && f.active
    ensures f.name == "" && f.basePrice == "" && f.discountPrice == "" && f.durationWeeks == ""
  {
    ClassForm("", "", "", "", "", "Beginner", "", "", true)
  }

  /** The form opened on a class: `|| ''` on the fields, `?? true` on the
      active flag, so a stored `false` survives. */
  function EditForm(c: ArtClass): (f: ClassForm)
    ensures f.name == OrEmpty(c.name) && f.proficiency == OrEmpty(c.proficiency)
    ensures f.basePrice == Catalog.PriceText(c.basePrice) && f.discountPrice == Catalog.PriceText(c.discountPrice)
    ensures ParseInt(f.durationWeeks) == (if c.durationWeeks.Some? && c.durationWeeks.value != 0 then c.durationWeeks else None)
    ensures f.active == Coalesce(c.active, true)
    ensures f.description == OrEmpty(c.description) && f.categoryId == OrEmpty(c.categoryId)
    ensures f.imageUrl == OrEmpty(c.imageUrl)
  {
    NumberTextReadsBack(c.durationWeeks);
    ClassForm(OrEmpty(c.name), OrEmpty(c.description), Catalog.PriceText(c.basePrice),
      Catalog.PriceText(c.discountPrice), NumberText(c.durationWeeks), OrEmpty(c.proficiency),
      OrEmpty(c.categoryId), OrEmpty(c.imageUrl), Coalesce(c.active, true))
  }

  /** The request body; `N` is whatever `parseFloat` yields, and a None
      duration is the NaN of a failed `parseInt`. */
  datatype ClassPayload<N> = ClassPayload(
    name: string,
    description: string,
    basePrice: N,
    discountPrice: Option<N>,
    durationWeeks: Option<int>,
    proficiency: string,
    categoryId: string,
    imageUrl: string,
    active: bool)

  function Payload<N>(f: ClassForm, parseFloat: string -> N): (p: ClassPayload<N>)
    ensures p.discountPrice.None? <==> f.discountPrice == ""
    ensures p.basePrice == parseFloat(f.basePrice)
    ensures p.durationWeeks == ParseInt(f.durationWeeks)
    ensures p.proficiency == f.proficiency && p.active == f.active
    ensures p.name == f.name && p.description == f.description
    ensures p.categoryId == f.categoryId && p.imageUrl == f.imageUrl
    ensures f.discountPrice != "" ==> p.discountPrice == Some(parseFloat(f.discountPrice))
  {
    ClassPayload(f.name, f.description, parseFloat(f.basePrice), Catalog.OptionalPrice(f.discountPrice, parseFloat),
      ParseInt(f.durationWeeks), f.proficiency, f.categoryId, f.imageUrl, f.active)
  }

  /** Saving an untouched edit form sends back the stored duration, null
      as discount exactly when there was none, and the active flag as
      stored (true when missing). */
  lemma EditRoundTrip<N>(c: ArtClass, parseFloat: string -> N)
    requires c.durationWeeks.Some? && c.durationWeeks.value != 0
    ensures Payload(EditForm(c), parseFloat).durationWeeks == c.durationWeeks
    ensures Payload(EditForm(c), parseFloat).discountPrice.None? <==> !JsTruthy(c.discountPrice)
    ensures Payload(EditForm(c), parseFloat).active == Coalesce(c.active, true)
  {
    Catalog.DiscountRoundTrip(c.discountPrice, parseFloat);
  }

  /** A new class sent without touching the form is a beginners' class
      with no discount and no duration (NaN). */
  lemma BlankClassPayload<N>(parseFloat: string -> N)
    ensures Payload(CreateForm(), parseFloat).proficiency == "Beginner"
    ensures Payload(CreateForm(), parseFloat).discountPrice.None?
    ensures Payload(CreateForm(), parseFloat).durationWeeks.None?
  {
    ParseIntEmpty();
  }
}
