/** The order tracking page's rules: how far along its four steps an order is shown, which
    status change the viewer is offered, and the subtotal it displays. */
module OrderTracking {
  import opened Wrappers
  import opened SharedTypes
  import UserRoutes

  const StepNames: seq<string> := ["Order Placed", "Payment in Escrow", "Shipped", "Delivered"]

  /** `statusMap[status] ?? -1`: the index of the status's step, -1 when it has none. */
  function CurrentStepIndex(s: OrderStatus): (i: int)
    ensures -1 <= i < |StepNames|
  {
    match s
    case Placed => 0
    case Paid => 1
    case Shipped => 2
    case Delivered => 3
    case _ => -1
  }

  /** The status whose step is `i`. */
  function StepStatus(i: nat): OrderStatus
    requires i < |StepNames|
  {
    [Placed, Paid, Shipped, Delivered][i]
  }

  /** The step map is one-to-one onto the four steps: each step belongs to exactly one
      status, and the statuses without a step are LogisticsPickedUp, Disputed and Cancelled. */
  lemma StepIndexBijective(s: OrderStatus)
    ensures forall i :: 0 <= i < |StepNames| ==> CurrentStepIndex(StepStatus(i)) == i
    ensures CurrentStepIndex(s) >= 0 ==> StepStatus(CurrentStepIndex(s)) == s
    ensures CurrentStepIndex(s) == -1 <==> s == LogisticsPickedUp || s == Disputed || s == Cancelled
  {
  }

  /** Step `i` is drawn complete. */
  predicate StepCompleted(i: nat, s: OrderStatus) {
    i <= CurrentStepIndex(s)
  }

  /** The completed steps are exactly the first `CurrentStepIndex(s) + 1`; a status without a
      step shows none completed. */
  lemma CompletedStepsArePrefix(s: OrderStatus)
    ensures forall i, j :: 0 <= i <= j < |StepNames| && StepCompleted(j, s) ==> StepCompleted(i, s)
    ensures CurrentStepIndex(s) == -1 ==> forall i :: 0 <= i < |StepNames| ==> !StepCompleted(i, s)
    ensures forall i :: 0 <= i < |StepNames| ==> (StepCompleted(i, s) <==> i < CurrentStepIndex(s) + 1)
  {
  }

  /** What `renderActionButtons` shows. */
  datatype ActionOffer = NoActions | RequestStatus(target: OrderStatus) | DisputeOnly

  /** The viewer's offer: none without a logged-in user; the seller of a Paid order may mark it
      Shipped (checked first); the buyer of a Shipped order may confirm delivery; anyone else
      sees only the dispute button, which sends no status request. `buyerId` and `sellerId`
      are the ids of the fetched buyer and seller. */
  function ActionFor(viewer: Option<string>, status: OrderStatus, buyerId: string, sellerId: string): (a: ActionOffer)
    ensures viewer.None? <==> a == NoActions
  {
    if viewer.None? then NoActions
    else if viewer.value == sellerId && status == Paid then RequestStatus(Shipped)
    else if viewer.value == buyerId && status == Shipped then RequestStatus(Delivered)
    else DisputeOnly
  }

  /** A status request is offered exactly to the seller of a Paid order and the buyer of a
      Shipped one, and it always asks for the next step. */
  lemma RequestOfferedIff(viewer: Option<string>, status: OrderStatus, buyerId: string, sellerId: string)
    ensures ActionFor(viewer, status, buyerId, sellerId).RequestStatus? <==>
      viewer.Some? && ((viewer.value == sellerId && status == Paid) || (viewer.value == buyerId && status == Shipped))
    ensures ActionFor(viewer, status, buyerId, sellerId).RequestStatus? ==>
      CurrentStepIndex(ActionFor(viewer, status, buyerId, sellerId).target) == CurrentStepIndex(status) + 1
    ensures ActionFor(viewer, status, buyerId, sellerId) == RequestStatus(Shipped) <==>
      viewer.Some? && viewer.value == sellerId && status == Paid
    ensures ActionFor(viewer, status, buyerId, sellerId) == DisputeOnly <==>
      viewer.Some? && !((viewer.value == sellerId && status == Paid) || (viewer.value == buyerId && status == Shipped))
  {
  }

  /** The displayed subtotal. */
  function Subtotal(order: Order, listing: Listing): (r: real)
    ensures order.quantity >= 0.0 && listing.price >= 0.0 ==> r >= 0.0
  {
    order.quantity * listing.price
  }

  /** For an order as placed, at the listing's price of that moment, the subtotal shown is the
      order's total less its fees. */
  lemma SubtotalOfPlacedOrder(id: string, listingId: string, listing: Listing, buyerId: string, quantity: real,
                              now: int, later: int)
    ensures var o := UserRoutes.NewOrder(id, listingId, listing, buyerId, quantity, now, later);
      Subtotal(o, listing) == o.total - o.fees
  {
    var o := UserRoutes.NewOrder(id, listingId, listing, buyerId, quantity, now, later);
    assert o.quantity * listing.price == listing.price * quantity;
  }
}
