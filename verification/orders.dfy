/** The orders page: which of ship and deliver each order offers, the
    shipment form that shipping pre-fills, the check before a shipment is
    sent, and the line totals of the details modal. */
module Orders {
  import opened Common
  import opened Text
  import CreateOrder

  datatype OrderAction = ViewDetails | Ship | Deliver

  /** The buttons of a row, and the same two in the details modal: Ship
      only while processing, Deliver only once shipped; View on every row. */
  predicate Offered(a: OrderAction, status: Option<string>) {
    match a
    case ViewDetails => true
    case Ship => status == Some("PROCESSING")
    case Deliver => status == Some("SHIPPED")
  }

  /** The status the server moves an order to when a button succeeds. */
  function Target(a: OrderAction): Option<string> {
    match a
    case ViewDetails => None
    case Ship => Some("SHIPPED")
    case Deliver => Some("DELIVERED")
  }

  /** No order offers both Ship and Deliver; a shipped order offers
      Deliver; a delivered one offers neither, so the workflow only runs
      forward. */
  lemma ShipThenDeliver(status: Option<string>)
    ensures !(Offered(Ship, status) && Offered(Deliver, status))
    ensures Offered(Ship, status) ==> Offered(Deliver, Target(Ship)) && !Offered(Ship, Target(Ship))
    ensures !Offered(Ship, Target(Deliver)) && !Offered(Deliver, Target(Deliver))
  {
  }

  /** The shipment form of the ship modal. */
  datatype Shipment = Shipment(carrier: string, trackingNumber: string)

  /** The view state the ship flow touches: whether the details modal is
      open, the order being shipped (the ship modal is open while it is a
      non-empty id) and the shipment form. */
  datatype View = View(detailsOpen: bool, shipOrderBy: Option<string>, shipment: Shipment)

  predicate ShipModalOpen(v: View) {
    v.shipOrderBy.Some? && v.shipOrderBy.value != ""
  }

  /** The tracking number made up from the clock: "TRK-" and the last six
      digits of the millisecond timestamp `now`. */
  function TrackingFor(now: nat): (t: string)
    ensures 4 < |t| <= 10 && t[..4] == "TRK-"
    ensures forall i :: 4 <= i < |t| ==> IsDigit(t[i])
    ensures |t| - 4 == (if |NatToDecimal(now)| < 6 then |NatToDecimal(now)| else 6)
    ensures NatToDecimal(now) == NatToDecimal(now)[..|NatToDecimal(now)| - (|t| - 4)] + t[4..]
  {
    var digits := TakeLast(NatToDecimal(now), 6);
    assert ("TRK-" + digits)[4..] == digits;
    "TRK-" + digits
  }

  /** A timestamp of at least six digits, as any clock reading since 1970
      is, gives a tracking number of exactly ten characters. */
  lemma TrackingLength(now: nat)
    requires now >= 100000
    ensures |TrackingFor(now)| == 10
  {
    DecimalLength(now, 5);
  }

  function Pow10(k: nat): (p: nat)
    ensures p >= 1
  {
    if k == 0 then 1 else 10 * Pow10(k - 1)
  }

  /** A number of at least 10^k has more than k decimal digits. */
  lemma {:induction false} DecimalLength(n: nat, k: nat)
    requires n >= Pow10(k)
    ensures |NatToDecimal(n)| > k
  {
    if k > 0 {
      assert n / 10 >= Pow10(k - 1);
      DecimalLength(n / 10, k - 1);
    }
  }

  /** `handleShip`: pre-fill carrier and tracking number, open the ship
      modal for the order and close the details modal. */
  function HandleShip(v: View, id: string, now: nat): (w: View)
    ensures w.shipment.carrier == "FedEx" && w.shipment.trackingNumber == TrackingFor(now)
    ensures w.shipOrderBy == Some(id) && !w.detailsOpen
    ensures ShipModalOpen(w) <==> id != ""
  {
    View(false, Some(id), Shipment("FedEx", TrackingFor(now)))
  }

  /** The request `confirmShip` sends. */
  datatype ShipRequest = ShipRequest(orderId: string, body: Shipment)

  /** `confirmShip`: nothing is sent while either field is empty. */
  function ConfirmShip(orderId: string, s: Shipment): (r: Option<ShipRequest>)
    ensures r.None? <==> s.carrier == "" || s.trackingNumber == ""
    ensures r.Some? ==> r.value.orderId == orderId && r.value.body == s
  {
    if s.carrier == "" || s.trackingNumber == "" then None else Some(ShipRequest(orderId, s))
  }

  /** Confirming the pre-filled form straight away always sends it, for
      the order that was clicked. */
  lemma PrefilledShipmentIsSent(v: View, id: string, now: nat)
    ensures var w := HandleShip(v, id, now);
      ConfirmShip(w.shipOrderBy.value, w.shipment) == Some(ShipRequest(id, w.shipment))
  {
  }

  /** The amount of one item line in the details modal:
      `Number(price || 0) * Number(quantity || 0)`. */
  function LineTotal(price: Option<int>, quantity: Option<int>): (t: int)
    ensures price.None? || quantity.None? ==> t == 0
    ensures price.Some? && quantity.Some? ==> t == price.value * quantity.value
  {
    IntOr(price, 0) * IntOr(quantity, 0)
  }

  /** The sum of the line totals of the items of an order. */
  function LinesTotal(lines: seq<CreateOrder.CartItem>): int {
    if |lines| == 0 then 0
    else LinesTotal(lines[..|lines| - 1]) + LineTotal(Some(lines[|lines| - 1].price), Some(lines[|lines| - 1].quantity))
  }

  /** The line totals of an order placed from the cart add up to the total
      the order wizard showed for it. */
  lemma {:induction false} LinesAddUpToCartTotal(cart: seq<CreateOrder.CartItem>)
    ensures LinesTotal(cart) == CreateOrder.Total(cart)
  {
    if |cart| > 0 {
      LinesAddUpToCartTotal(cart[..|cart| - 1]);
    }
  }
}
