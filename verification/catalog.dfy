/** What the catalogue cards of the art works and classes pages share: the
    shown price, the struck-through base price and the discount badge, and
    the price fields of their forms and request bodies. Prices are whole
    amounts; the discount percentage is not modelled. */
module Catalog {
  import opened Common
  import opened Text

  /** The price on a card: `discountPrice || basePrice`. */
  function ShownPrice(discount: JsNum, base: JsNum): (p: JsNum)
    ensures JsTruthy(discount) ==> p == discount
    ensures !JsTruthy(discount) ==> p == base
  {
    if JsTruthy(discount) then discount else base
  }

  /** The art works rule for the discount badge and the struck-through
      base price: `discountPrice && discountPrice < basePrice`. */
  predicate DiscountShown(discount: JsNum, base: JsNum) {
    JsTruthy(discount) && JsLess(discount, base)
  }

  /** Whenever the badge is shown the card's price is the discounted one
      and it is below the base price; without a discount price the card
      shows the base price and no badge. */
  lemma BadgeAgreesWithPrice(discount: JsNum, base: JsNum)
    ensures DiscountShown(discount, base) ==>
      ShownPrice(discount, base) == discount && ToNumber(base).Some? && discount.n < ToNumber(base).value
    ensures !JsTruthy(discount) ==> !DiscountShown(discount, base) && ShownPrice(discount, base) == base
  {
  }

  /** `x || ''` for a price read into a form. */
  function PriceText(x: JsNum): (t: string)
    ensures !JsTruthy(x) ==> t == ""
    ensures JsTruthy(x) ==> ParseInt(t) == Some(x.n)
  {
    match x
    case Number(n) =>
      ParseIntRoundTrip(n);
      NumberText(Some(n))
    case _ => ""
  }

  /** `text ? parseFloat(text) : null`: an empty discount field is sent as
      null. The number parser is a parameter. */
  function OptionalPrice<N>(text: string, parse: string -> N): (r: Option<N>)
    ensures r.None? <==> text == ""
    ensures r.Some? ==> r.value == parse(text)
  {
    if text == "" then None else Some(parse(text))
  }

  /** Reading a stored discount into the form and sending it back sends
      null exactly when the record had no discount (missing, null or 0). */
  lemma DiscountRoundTrip<N>(discount: JsNum, parse: string -> N)
    ensures OptionalPrice(PriceText(discount), parse).None? <==> !JsTruthy(discount)
  {
    if JsTruthy(discount) {
      assert |IntToDecimal(discount.n)| > 0;
    }
  }
}
