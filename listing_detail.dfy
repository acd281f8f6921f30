/** The listing detail page's rules: the order attempt, the quantity input, the order button
    and the seller's initials. */
module ListingDetail {
  import opened Wrappers
  import opened JsStrings
  import opened SharedTypes
  import UserRoutes

  datatype OrderPayload = OrderPayload(listingId: string, buyerId: string, quantity: int)

  datatype OrderAttempt = Ignored | InvalidQuantity | SendOrder(payload: OrderPayload)

  /** `handlePlaceOrder` up to the request: nothing without a user or a listing; a quantity
      not above 0 or above the listing's is refused; otherwise the listing's id, the user's id
      and the quantity are sent. */
  function PlaceOrderAttempt(userId: Option<string>, listing: Option<Listing>, quantity: int): (r: OrderAttempt)
    ensures r.SendOrder? <==> userId.Some? && listing.Some? && 0 < quantity && quantity as real <= listing.value.quantity
    ensures r.SendOrder? ==> r.payload == OrderPayload(listing.value.id, userId.value, quantity)
    ensures r == InvalidQuantity <==>
      userId.Some? && listing.Some? && (quantity <= 0 || quantity as real > listing.value.quantity)
  {
    if userId.None? || listing.None? then Ignored
    else if quantity <= 0 || quantity as real > listing.value.quantity then InvalidQuantity
    else SendOrder(OrderPayload(listing.value.id, userId.value, quantity))
  }

  /** An order the page sends is accepted by the server when the ids are non-empty and the
      stored listing still has the quantity the page showed. */
  lemma SentOrderAccepted(userId: string, listing: Listing, quantity: int, stored: map<string, Listing>)
    requires userId != "" && listing.id != ""
    requires listing.id in stored && stored[listing.id].quantity == listing.quantity
    requires PlaceOrderAttempt(Some(userId), Some(listing), quantity).SendOrder?
    ensures var p := PlaceOrderAttempt(Some(userId), Some(listing), quantity).payload;
      UserRoutes.OrderRejected(stored, p.listingId, p.buyerId, Some(p.quantity as real)).None?
  {
  }

  /** `Math.max(1, parseInt(value, 10) || 1)`: a parse that fails or gives 0 counts as 1. */
  function ClampQuantity(input: string): (q: int)
    ensures q >= 1
    ensures match ParseInt(input, 10)
      case Some(n) => q == if n >= 1 then n else 1
      case None => q == 1
  {
    var parsed := ParseInt(input, 10);
    var orOne := if parsed.None? || parsed.value == 0 then 1 else parsed.value;
    if 1 >= orOne then 1 else orOne
  }

  /** A quantity from the input never trips the page's lower bound: it is refused only when
      it exceeds what the listing has. */
  lemma ClampedQuantityOnlyTooLarge(userId: string, listing: Listing, input: string)
    ensures PlaceOrderAttempt(Some(userId), Some(listing), ClampQuantity(input)) == InvalidQuantity <==>
      ClampQuantity(input) as real > listing.quantity
  {
  }

  /** The button is disabled while an order is being placed and when the viewer's id equals the
      seller's; an absent user or seller has no id, so with neither loaded the ids are equal. */
  predicate OrderButtonDisabled(isPlacingOrder: bool, userId: Option<string>, farmerId: Option<string>)
    ensures !isPlacingOrder && userId.Some? && farmerId.Some? ==>
      (OrderButtonDisabled(isPlacingOrder, userId, farmerId) <==> userId.value == farmerId.value)
  {
    isPlacingOrder || userId == farmerId
  }

  lemma OwnListingDisabled(isPlacingOrder: bool, userId: Option<string>, farmerId: Option<string>)
    ensures userId.Some? && farmerId.Some? && userId.value == farmerId.value ==>
      OrderButtonDisabled(isPlacingOrder, userId, farmerId)
    ensures !isPlacingOrder && userId.Some? && farmerId.Some? && userId.value != farmerId.value ==>
      !OrderButtonDisabled(isPlacingOrder, userId, farmerId)
    ensures OrderButtonDisabled(isPlacingOrder, None, None)
  {
  }

  /** `${s[0]}` in a template: the first character, or the text "undefined" for an empty
      string. */
  function FirstCharText(s: string): (r: string)
    ensures s != "" ==> r == [s[0]]
  {
    if s == "" then "undefined" else [s[0]]
  }

  /** `getInitials` (an absent name is ""): with two or more space-separated words, the first
      characters of the first two; otherwise the first two characters of the name. */
  function GetInitials(name: string): (r: string)
    ensures ' ' !in name ==> r == name[..if |name| < 2 then |name| else 2]
  {
    var names := Split(name, ' ');
    SplitManyIffContains(name, ' ');
    if |names| > 1 then FirstCharText(names[0]) + FirstCharText(names[1])
    else name[..if |name| < 2 then |name| else 2]
  }

  /** Any name of two or more space-separated words, empty words included, gives the first
      character texts of its first two words; every name that contains a space is such a join
      (`JoinSplit`). */
  lemma {:induction false} InitialsOfWords(parts: seq<string>)
    requires |parts| >= 2
    requires forall i :: 0 <= i < |parts| ==> ' ' !in parts[i]
    ensures GetInitials(Join(parts, ' ')) == FirstCharText(parts[0]) + FirstCharText(parts[1])
  {
    SplitJoin(parts, ' ');
  }

  /** Three words give the initials of the first two. */
  lemma InitialsOfThreeWords()
    ensures GetInitials("Ann Bea Cox") == "AB"
  {
    var parts: seq<string> := ["Ann", "Bea", "Cox"];
    assert parts[1..][1..] == ["Cox"];
    assert Join(parts[1..], ' ') == "Bea" + " " + "Cox";
    assert Join(parts, ' ') == "Ann Bea Cox";
    InitialsOfWords(parts);
  }

  /** A doubled space leaves an empty second word, whose initial is the text "undefined". */
  lemma InitialsOfDoubledSpace()
    ensures GetInitials("A  B") == "Aundefined"
  {
    var parts: seq<string> := ["A", "", "B"];
    assert parts[1..][1..] == ["B"];
    assert Join(parts[1..], ' ') == "" + " " + "B";
    assert Join(parts, ' ') == "A  B";
    InitialsOfWords(parts);
  }

  /** Two words separated by one space give their first letters. */
  lemma InitialsOfTwoWords(first: string, last: string)
    requires first != "" && last != "" && ' ' !in first && ' ' !in last
    ensures GetInitials(first + " " + last) == [first[0], last[0]]
  {
    assert first + " " + last == first + [' '] + last;
    SplitPrefix(first, last, ' ');
    SplitWithoutSep(last, ' ');
  }

  /** A leading space leaves the first word empty, and its initial is the text "undefined". */
  lemma InitialsOfLeadingSpace(last: string)
    requires last != "" && ' ' !in last
    ensures GetInitials(" " + last) == "undefined" + [last[0]]
  {
    assert " " + last == "" + [' '] + last;
    SplitPrefix("", last, ' ');
    SplitWithoutSep(last, ' ');
  }
}
