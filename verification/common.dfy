/** Values as the dashboard's JavaScript sees them: fields that may be
    missing, server calls that may fail, and the `||` / `??` fallbacks the
    pages use to fill form fields and table cells. */
module Common {

  /** A field that may be absent (`undefined`) in a server record. */
  datatype Option<+T> = None | Some(value: T)

  /** The outcome of one server call: the decoded body, or a thrown error. */
  datatype Fetch<+T> = Ok(body: T) | Failed

  /** A numeric field of a server record, keeping apart the two JavaScript
      "no value" cases because relational operators treat them differently:
      `undefined` converts to NaN, `null` converts to 0. */
  datatype JsNum = Undefined | Null | Number(n: int)

  /** An integer as it is sent in a JSON payload: `null`, a number, or the
      result of a failed `parseInt` (NaN, which JSON also writes as null). */
  datatype JsonInt = NullInt | IntValue(n: int) | NaN

  /** What a page's modal was opened for. */
  datatype ModalMode = ViewMode | EditMode | CreateMode

  /** The form after a page's `handleOpenModal`: edit with a row fills it
      from the row, create resets it to the blank form, and viewing (or edit
      with nothing selected) keeps whatever it held. */
  function OpenForm<T, F>(mode: ModalMode, item: Option<T>, form: F, blank: F, fill: T -> F): (f: F)
    ensures mode == EditMode && item.Some? ==> f == fill(item.value)
    ensures mode == CreateMode ==> f == blank
    ensures mode == ViewMode || (mode == EditMode && item.None?) ==> f == form
  {
    if mode == EditMode && item.Some? then fill(item.value)
    else if mode == CreateMode then blank
    else form
  }

  /** `x || d` for a string field: the empty string is falsy too. */
  function StrOr(x: Option<string>, d: string): (r: string)
    ensures x.Some? && x.value != "" ==> r == x.value
    ensures x.None? || x.value == "" ==> r == d
  {
    match x
    case Some(s) => if s != "" then s else d
    case None => d
  }

  /** `x || ''`, the fallback every search filter and edit form uses. */
  function OrEmpty(x: Option<string>): (r: string)
    ensures x.Some? ==> r == x.value
    ensures x.None? ==> r == ""
  {
    StrOr(x, "")
  }

  /** `x || d` for a numeric field: 0 is falsy, so it is replaced as well. */
  function IntOr(x: Option<int>, d: int): (r: int)
    ensures x.Some? && x.value != 0 ==> r == x.value
    ensures x.None? || x.value == 0 ==> r == d
  {
    match x
    case Some(n) => if n != 0 then n else d
    case None => d
  }

  /** `x ?? d`: only a missing value is replaced; `false` and 0 survive. */
  function Coalesce<T>(x: Option<T>, d: T): (r: T)
    ensures x.Some? ==> r == x.value
    ensures x.None? ==> r == d
  {
    match x
    case Some(v) => v
    case None => d
  }

  /** JavaScript truthiness of an optional boolean (`x || false`). */
  predicate IsTrue(x: Option<bool>) {
    x == Some(true)
  }

  /** JavaScript truthiness of a numeric field. */
  predicate JsTruthy(x: JsNum) {
    x.Number? && x.n != 0
  }

  /** `a || d` for a numeric field, as a plain integer. */
  function JsNumOr(x: JsNum, d: int): (r: int)
    ensures JsTruthy(x) ==> r == x.n
    ensures !JsTruthy(x) ==> r == d
  {
    if JsTruthy(x) then x.n else d
  }

  /** The number a relational operator sees, or None for NaN. */
  function ToNumber(x: JsNum): Option<int> {
    match x
    case Undefined => None
    case Null => Some(0)
    case Number(n) => Some(n)
  }

  /** JavaScript `a < b` on numeric fields: false whenever either side is NaN. */
  predicate JsLess(a: JsNum, b: JsNum) {
    ToNumber(a).Some? && ToNumber(b).Some? && ToNumber(a).value < ToNumber(b).value
  }

  /** JavaScript `a >= b` on numeric fields: false whenever either side is NaN. */
  predicate JsAtLeast(a: JsNum, b: JsNum) {
    ToNumber(a).Some? && ToNumber(b).Some? && ToNumber(a).value >= ToNumber(b).value
  }

  /** `>=` and `<` are not complementary in JavaScript: with an undefined
      operand both are false. */
  lemma UndefinedComparesFalse(b: JsNum)
    ensures !JsLess(Undefined, b) && !JsAtLeast(Undefined, b)
    ensures !JsLess(b, Undefined) && !JsAtLeast(b, Undefined)
  {
  }

  /** When both operands are numbers (or null), `>=` is exactly "not `<`". */
  lemma AtLeastIsNotLess(a: JsNum, b: JsNum)
    requires !a.Undefined? && !b.Undefined?
    ensures JsAtLeast(a, b) <==> !JsLess(a, b)
  {
  }
}
