/** The admin's "create order" wizard: pick a customer (step 1), fill a
    cart with art works or materials (step 2), review and confirm with a
    shipping address (step 3). The cart never holds two items of the same
    product id and type, and quantities never drop below 1. */
module CreateOrder {
  import opened Common
  import opened Text
  import opened Search
  import FormComponents

  datatype ProductType = ArtWork | Material

  /** The enum name the backend expects for an item type. */
  function TypeName(t: ProductType): (s: string)
    ensures s == "ART_WORK" || s == "MATERIAL"
    ensures s == "ART_WORK" <==> t == ArtWork
  {
    match t
    case ArtWork => "ART_WORK"
    case Material => "MATERIAL"
  }

  /** A product as the art-work or material list returns it. Prices are in
      minor currency units. */
  datatype Product = Product(
    id: string,
    title: Option<string>,
    name: Option<string>,
    price: Option<int>,
    imageUrls: Option<seq<string>>,
    imageUrl: Option<string>)

  datatype CartItem = CartItem(
    id: string,
    itemId: string,
    name: Option<string>,
    price: int,
    quantity: int,
    itemType: ProductType,
    image: Option<string>)

  datatype User = User(id: string, address: Option<string>)

  /** The product picker's filter on `title || name || ''`: a product is
      listed when the name its card shows contains the query, in any
      letter case; an empty query lists every product. */
  function ProductMatches(p: Product, query: string): (b: bool)
    ensures query == "" ==> b
    ensures b <==> FieldHit(query, DisplayName(p))
  {
    assert Lower("") == "";
    ContainsEmpty(Lower(OrEmpty(DisplayName(p))));
    query == "" || Contains(Lower(StrOr(p.title, OrEmpty(p.name))), Lower(query))
  }

  /** `title || name`: a missing or empty title gives way to the name. */
  function DisplayName(p: Product): (n: Option<string>)
    ensures p.title.Some? && p.title.value != "" ==> n == p.title
    ensures p.title.None? || p.title.value == "" ==> n == p.name
  {
    if p.title.Some? && p.title.value != "" then p.title else p.name
  }

  /** `imageUrls?.[0] || imageUrl`. */
  function FirstImage(p: Product): (i: Option<string>)
    ensures p.imageUrls.Some? && |p.imageUrls.value| > 0 && p.imageUrls.value[0] != "" ==>
      i == Some(p.imageUrls.value[0])
    ensures p.imageUrls.None? || |p.imageUrls.value| == 0 || p.imageUrls.value[0] == "" ==> i == p.imageUrl
  {
    if p.imageUrls.Some? && |p.imageUrls.value| > 0 && p.imageUrls.value[0] != "" then Some(p.imageUrls.value[0])
    else p.imageUrl
  }

  /** The cart line a product becomes. */
  function NewItem(p: Product, t: ProductType): (c: CartItem)
    ensures c.id == p.id && c.itemId == p.id && c.itemType == t
    ensures c.quantity == 1 && c.price == IntOr(p.price, 0)
    ensures c.name == DisplayName(p) && c.image == FirstImage(p)
  {
    CartItem(p.id, p.id, DisplayName(p), IntOr(p.price, 0), 1, t, FirstImage(p))
  }

  predicate InCart(cart: seq<CartItem>, id: string, t: ProductType) {
    exists i :: 0 <= i < |cart| && cart[i].id == id && cart[i].itemType == t
  }

  /** No two lines share a product id and type. */
  predicate KeysUnique(cart: seq<CartItem>) {
    forall i, j :: 0 <= i < j < |cart| ==> !(cart[i].id == cart[j].id && cart[i].itemType == cart[j].itemType)
  }

  predicate QuantitiesPositive(cart: seq<CartItem>) {
    forall i :: 0 <= i < |cart| ==> cart[i].quantity >= 1
  }

  /** Adding a product of the current type: a product already in the cart
      with that type is refused, anything else is appended with quantity 1. */
  function AddToCart(cart: seq<CartItem>, p: Product, t: ProductType): (r: seq<CartItem>)
    ensures InCart(cart, p.id, t) ==> r == cart
    ensures !InCart(cart, p.id, t) ==> r == cart + [NewItem(p, t)]
    ensures KeysUnique(cart) ==> KeysUnique(r)
    ensures QuantitiesPositive(cart) ==> QuantitiesPositive(r)
    ensures InCart(r, p.id, t)
  {
    if InCart(cart, p.id, t) then cart
    else
      var r := cart + [NewItem(p, t)];
      assert r[|cart|].id == p.id && r[|cart|].itemType == t;
      r
  }

  /** Adding the same product twice is the same as adding it once. */
  lemma AddToCartIdempotent(cart: seq<CartItem>, p: Product, t: ProductType)
    ensures AddToCart(AddToCart(cart, p, t), p, t) == AddToCart(cart, p, t)
  {
  }

  /** The same product may sit in the cart once as an art work and once as
      a material. */
  lemma SameIdBothTypes(p: Product)
    ensures |AddToCart(AddToCart([], p, ArtWork), p, Material)| == 2
  {
    var c := AddToCart([], p, ArtWork);
    assert !InCart(c, p.id, Material);
  }

  /** `Math.max(1, q + delta)`. */
  function ClampQuantity(q: int, delta: int): (n: int)
    ensures n >= 1
    ensures q + delta >= 1 ==> n == q + delta
    ensures q + delta < 1 ==> n == 1
  {
    if q + delta > 1 then q + delta else 1
  }

  /** `+`/`-` on a line: every line with that id, of either type, moves by
      `delta`, never below 1. */
  function UpdateQuantity(cart: seq<CartItem>, id: string, delta: int): (r: seq<CartItem>)
    ensures |r| == |cart|
    ensures forall i :: 0 <= i < |cart| && cart[i].id != id ==> r[i] == cart[i]
    ensures forall i :: 0 <= i < |cart| && cart[i].id == id ==>
      r[i] == cart[i].(quantity := ClampQuantity(cart[i].quantity, delta))
    ensures KeysUnique(cart) ==> KeysUnique(r)
    ensures QuantitiesPositive(cart) ==> QuantitiesPositive(r)
  {
    seq(|cart|, i requires 0 <= i < |cart| =>
      if cart[i].id == id then cart[i].(quantity := ClampQuantity(cart[i].quantity, delta)) else cart[i])
  }

  /** `+` then `-` on the same id restores a cart whose quantities are at
      least 1. */
  lemma PlusThenMinus(cart: seq<CartItem>, id: string)
    requires QuantitiesPositive(cart)
    ensures UpdateQuantity(UpdateQuantity(cart, id, 1), id, -1) == cart
  {
    var r := UpdateQuantity(UpdateQuantity(cart, id, 1), id, -1);
    assert forall i :: 0 <= i < |cart| ==> r[i] == cart[i];
  }

  /** Removing by id drops every line with that id, of either type, and
      keeps the rest in order. */
  function RemoveFromCart(cart: seq<CartItem>, id: string): (r: seq<CartItem>)
    ensures forall x :: x in r ==> x in cart && x.id != id
    ensures forall x :: x in cart && x.id != id ==> x in r
    ensures Subseq(r, cart)
  {
    Filter(cart, (x: CartItem) => x.id != id)
  }

  /** Removal keeps the cart's invariants. */
  lemma RemoveKeepsInvariants(cart: seq<CartItem>, id: string)
    ensures KeysUnique(cart) ==> KeysUnique(RemoveFromCart(cart, id))
    ensures QuantitiesPositive(cart) ==> QuantitiesPositive(RemoveFromCart(cart, id))
  {
    var apart := (x: CartItem, y: CartItem) => !(x.id == y.id && x.itemType == y.itemType);
    if KeysUnique(cart) {
      FilterKeepsPairwise(cart, (x: CartItem) => x.id != id, apart);
    }
    var r := RemoveFromCart(cart, id);
    assert forall i :: 0 <= i < |r| ==> r[i] in cart;
  }

  /** `cart.reduce((sum, item) => sum + item.price * item.quantity, 0)`. */
  function Total(cart: seq<CartItem>): (t: int)
    ensures cart == [] ==> t == 0
  {
    if |cart| == 0 then 0 else Total(cart[..|cart| - 1]) + cart[|cart| - 1].price * cart[|cart| - 1].quantity
  }

  /** The total of two carts side by side is the sum of their totals. */
  lemma {:induction false} TotalAppend(a: seq<CartItem>, b: seq<CartItem>)
    ensures Total(a + b) == Total(a) + Total(b)
    decreases |b|
  {
    if |b| == 0 {
      assert a + b == a;
    } else {
      assert (a + b)[..|a + b| - 1] == a + b[..|b| - 1];
      TotalAppend(a, b[..|b| - 1]);
    }
  }

  /** With non-negative prices and positive quantities, the total is
      non-negative. */
  lemma {:induction false} TotalNonNegative(cart: seq<CartItem>)
    requires forall i :: 0 <= i < |cart| ==> cart[i].price >= 0 && cart[i].quantity >= 1
    ensures Total(cart) >= 0
  {
    if |cart| > 0 {
      TotalNonNegative(cart[..|cart| - 1]);
    }
  }

  /** Adding a product raises the total by its price, or leaves it. */
  lemma AddRaisesTotal(cart: seq<CartItem>, p: Product, t: ProductType)
    ensures Total(AddToCart(cart, p, t)) == Total(cart) + (if InCart(cart, p.id, t) then 0 else IntOr(p.price, 0))
  {
    if !InCart(cart, p.id, t) {
      TotalAppend(cart, [NewItem(p, t)]);
      assert [NewItem(p, t)][..0] == [];
    }
  }

  /** One line of the order request. */
  datatype OrderLine = OrderLine(itemId: string, quantity: int, itemType: string)

  datatype OrderRequest = OrderRequest(userId: string, items: seq<OrderLine>, shippingAddress: string, notes: string)

  /** `shippingAddress || user.address || 'Address not provided'`. */
  function ShippingAddress(typed: string, user: User): (a: string)
    ensures typed != "" ==> a == typed
    ensures typed == "" && user.address.Some? && user.address.value != "" ==> a == user.address.value
    ensures a != ""
  {
    if typed != "" then typed else StrOr(user.address, "Address not provided")
  }

  /** Confirm: nothing is sent without a customer or with an empty cart;
      otherwise one line per cart item, in order. */
  function Submit(user: Option<User>, cart: seq<CartItem>, typed: string): (r: Option<OrderRequest>)
    ensures r.Some? <==> user.Some? && |cart| > 0
    ensures r.Some? ==> r.value.userId == user.value.id && |r.value.items| == |cart|
    ensures r.Some? ==> r.value.shippingAddress == ShippingAddress(typed, user.value) && r.value.notes == "Created by Admin"
    ensures r.Some? ==> forall i :: 0 <= i < |cart| ==>
      r.value.items[i] == OrderLine(cart[i].itemId, cart[i].quantity, TypeName(cart[i].itemType))
  {
    if user.None? || |cart| == 0 then None
    else
      Some(OrderRequest(user.value.id,
        seq(|cart|, i requires 0 <= i < |cart| => OrderLine(cart[i].itemId, cart[i].quantity, TypeName(cart[i].itemType))),
        ShippingAddress(typed, user.value), "Created by Admin"))
  }

  /** The request carries exactly the cart's quantities, so a request from
      a well-formed cart never asks for less than one of anything. */
  lemma SubmittedQuantitiesPositive(user: User, cart: seq<CartItem>, typed: string)
    requires QuantitiesPositive(cart) && |cart| > 0
    ensures forall k :: 0 <= k < |Submit(Some(user), cart, typed).value.items| ==>
      Submit(Some(user), cart, typed).value.items[k].quantity >= 1
  {
  }

  /** The state of the wizard. The product type survives reopening. */
  datatype Wizard = Wizard(
    open: bool,
    step: int,
    user: Option<User>,
    productType: ProductType,
    cart: seq<CartItem>,
    address: string)

  /** What the admin can do; each control exists only on its own step. */
  datatype Action =
    | Open
    | SelectUser(u: User)
    | SetType(t: ProductType)
    | Add(p: Product)
    | ChangeQuantity(id: string, delta: int)
    | Remove(id: string)
    | TypeAddress(text: string)
    | UseDefaultAddress
    | Next
    | Back

  /** The Next button's disabled rule. */
  predicate NextDisabled(w: Wizard) {
    (w.step == 1 && w.user.None?) || (w.step == 2 && |w.cart| == 0)
  }

  /** "Use User's Default Address" is offered while the address is empty
      and the customer has one. */
  predicate DefaultAddressOffered(w: Wizard) {
    w.address == "" && w.user.Some? && w.user.value.address.Some? && w.user.value.address.value != ""
  }

  /** One action. Opening resets step, customer, cart and address; Back on
      step 1 closes the wizard; Next is ignored while disabled and does not
      exist on step 3. */
  function Step(w: Wizard, a: Action): (r: Wizard)
    ensures a == Open ==> r == Wizard(true, 1, None, w.productType, [], "")
    ensures a == Back && w.open && w.step <= 1 ==> !r.open
    ensures a == Back && w.open && w.step > 1 ==> r == w.(step := w.step - 1)
    ensures a == Next && w.open && w.step < 3 && !NextDisabled(w) ==> r == w.(step := w.step + 1)
    ensures a == Next && (NextDisabled(w) || w.step >= 3) ==> r == w
    ensures a != Open && !w.open ==> r == w
    ensures w.open && a.SelectUser? ==> r == (if w.step == 1 then w.(user := Some(a.u)) else w)
    ensures w.open && a.SetType? ==> r == (if w.step == 2 then w.(productType := a.t) else w)
    ensures w.open && (a.Add? || a.ChangeQuantity? || a.Remove?) ==>
      r == w.(cart := r.cart) && (w.step != 2 ==> r.cart == w.cart)
    ensures w.open && w.step == 2 && a.Add? ==> r.cart == AddToCart(w.cart, a.p, w.productType)
    ensures w.open && w.step == 2 && a.ChangeQuantity? ==> r.cart == UpdateQuantity(w.cart, a.id, a.delta)
    ensures w.open && w.step == 2 && a.Remove? ==> r.cart == RemoveFromCart(w.cart, a.id)
    ensures w.open && a.TypeAddress? ==> r == (if w.step == 3 then w.(address := a.text) else w)
    ensures w.open && a == UseDefaultAddress ==>
      r == (if w.step == 3 && DefaultAddressOffered(w) then w.(address := w.user.value.address.value) else w)
  {
    if a == Open then Wizard(true, 1, None, w.productType, [], "")
    else if !w.open then w
    else match a
      case SelectUser(u) => if w.step == 1 then w.(user := Some(u)) else w
      case SetType(t) => if w.step == 2 then w.(productType := t) else w
      case Add(p) => if w.step == 2 then w.(cart := AddToCart(w.cart, p, w.productType)) else w
      case ChangeQuantity(id, delta) => if w.step == 2 then w.(cart := UpdateQuantity(w.cart, id, delta)) else w
      case Remove(id) => if w.step == 2 then w.(cart := RemoveFromCart(w.cart, id)) else w
      case TypeAddress(text) => if w.step == 3 then w.(address := text) else w
      case UseDefaultAddress => if w.step == 3 && DefaultAddressOffered(w) then w.(address := w.user.value.address.value) else w
      case Next => if w.step < 3 && !NextDisabled(w) then w.(step := w.step + 1) else w
      case Back => if w.step > 1 then w.(step := w.step - 1) else w.(open := false)
  }

  /** What holds of every open wizard: the step is 1, 2 or 3, past step 1
      a customer is chosen, on step 3 the cart is not empty, and the cart
      keeps unique keys and positive quantities. */
  predicate Valid(w: Wizard) {
    1 <= w.step <= 3
    && (w.step >= 2 ==> w.user.Some?)
    && (w.step == 3 ==> |w.cart| > 0)
    && KeysUnique(w.cart) && QuantitiesPositive(w.cart)
  }

  /** Every action keeps the wizard valid. */
  lemma StepKeepsValid(w: Wizard, a: Action)
    requires Valid(w)
    ensures Valid(Step(w, a))
  {
    match a {
      case Remove(id) => RemoveKeepsInvariants(w.cart, id);
      case _ =>
    }
  }

  /** The wizard after a sequence of actions. */
  function Run(w: Wizard, actions: seq<Action>): (r: Wizard)
    requires Valid(w)
    ensures Valid(r)
    decreases |actions|
  {
    if |actions| == 0 then w
    else
      StepKeepsValid(w, actions[0]);
      Run(Step(w, actions[0]), actions[1..])
  }

  /** Confirming from step 3, however the admin got there from opening the
      wizard, always produces a request: the submit guard never fires. */
  lemma ConfirmOnStepThreeSends(productType: ProductType, actions: seq<Action>)
    requires Valid(Wizard(true, 1, None, productType, [], ""))
    ensures var w := Run(Wizard(true, 1, None, productType, [], ""), actions);
      w.step == 3 ==> Submit(w.user, w.cart, w.address).Some?
  {
  }

  /** The Confirm button as written: its busy flag is passed as
      `isLoading`, a prop the button does not read, so the button's own
      `loading` stays at its default. */
  predicate ConfirmDisabledAsWritten(submitting: bool) {
    FormComponents.ButtonDisabled(None, None)
  }

  /** The Confirm button as intended: disabled while the request is out. */
  predicate ConfirmDisabled(submitting: bool) {
    FormComponents.ButtonDisabled(None, Some(submitting))
  }

  /** While the order request is in flight the written Confirm button can
      be pressed again, which would send a second order; the intended one
      cannot. */
  lemma ConfirmStaysEnabledWhileSubmitting()
    ensures !ConfirmDisabledAsWritten(true)
    ensures ConfirmDisabled(true)
    ensures forall s :: ConfirmDisabled(s) <==> s
  {
  }
}
