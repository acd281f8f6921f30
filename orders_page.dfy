/** The orders page: the viewer's orders newest first, the listings looked up by id, and the
    role the viewer plays in each order. */
module OrdersPage {
  import opened Wrappers
  import opened Seqs
  import opened SharedTypes

  /** The viewer is the buyer or the seller of the order. */
  predicate Participates(o: Order, userId: string) {
    o.buyerId == userId || o.sellerId == userId
  }

  /** `userOrders`: the fetched orders in which the viewer takes part, in their fetched order. */
  function UserOrders(all: seq<Order>, userId: string): (r: seq<Order>)
    ensures forall o :: multiset(r)[o] == if Participates(o, userId) then multiset(all)[o] else 0
    ensures forall o :: o in r <==> o in all && (o.buyerId == userId || o.sellerId == userId)
  {
    var r := Filter(all, (o: Order) => Participates(o, userId));
    assert forall o :: multiset(r)[o] == if Participates(o, userId) then multiset(all)[o] else 0 by {
      forall o ensures multiset(r)[o] == if Participates(o, userId) then multiset(all)[o] else 0 {
        FilterMultiplicity(all, (o: Order) => Participates(o, userId), o);
      }
    }
    assert forall o :: o in r <==> multiset(r)[o] > 0;
    assert forall o :: o in all <==> multiset(all)[o] > 0;
    r
  }

  /** `compare(a, b) <= 0` for the newest-first comparator: `b.createdAt - a.createdAt`, the
      dates being millisecond timestamps. */
  predicate NewerOrSame(a: Order, b: Order) {
    b.createdAt - a.createdAt <= 0
  }

  /** `sortedOrders`: a sorted copy, newest first, of the same orders. */
  function SortedOrders(orders: seq<Order>): (r: seq<Order>)
    ensures multiset(r) == multiset(orders)
    ensures forall i :: 0 <= i < |r| - 1 ==> r[i].createdAt >= r[i + 1].createdAt
  {
    var leq := (a: Order, b: Order) => NewerOrSame(a, b);
    SortBySorted(orders, leq);
    SortBy(orders, leq)
  }

  /** The sort is stable: the orders created at any one moment keep their fetched order, also
      among orders of other times. */
  lemma SameTimeStable(orders: seq<Order>, t: int)
    ensures Filter(SortedOrders(orders), (o: Order) => o.createdAt == t)
         == Filter(orders, (o: Order) => o.createdAt == t)
  {
    SortByStable(orders, (a: Order, b: Order) => NewerOrSame(a, b), (o: Order) => o.createdAt == t);
  }

  /** A list whose orders all share one creation time is left unchanged. */
  lemma SameTimeKeepsOrder(orders: seq<Order>, t: int)
    requires forall o :: o in orders ==> o.createdAt == t
    ensures SortedOrders(orders) == orders
  {
    SortByAllTiesIdentity(orders, (a: Order, b: Order) => NewerOrSame(a, b));
  }

  /** Entry `k` is the last of `ls` with the id. */
  predicate LastWithId(ls: seq<Listing>, id: string, k: int) {
    0 <= k < |ls| && ls[k].id == id && forall j :: k < j < |ls| ==> ls[j].id != id
  }

  /** `new Map(allListings.map(l => [l.id, l]))`: each id of a listing is a key, and a later
      listing with the same id replaces an earlier one. */
  function ListingsById(ls: seq<Listing>): (m: map<string, Listing>)
    ensures forall id :: id in m <==> exists k :: 0 <= k < |ls| && ls[k].id == id
    ensures forall id :: id in m ==> m[id].id == id
    ensures forall id :: id in m ==> exists k :: LastWithId(ls, id, k) && ls[k] == m[id]
  {
    if ls == [] then map[]
    else
      var n := |ls| - 1;
      var m := ListingsById(ls[..n]);
      LastWinsKeys(ls, m);
      LastWinsValues(ls, ls[..n], m);
      m[ls[n].id := ls[n]]
  }

  /** Adding the last listing to the map of the others keeps every id of a listing a key. */
  lemma LastWinsKeys(ls: seq<Listing>, m: map<string, Listing>)
    requires ls != []
    requires forall id :: id in m <==> exists k :: 0 <= k < |ls| - 1 && ls[k].id == id
    ensures var r := m[ls[|ls| - 1].id := ls[|ls| - 1]];
      forall id :: id in r <==> exists k :: 0 <= k < |ls| && ls[k].id == id
  {
    var n := |ls| - 1;
    var r := m[ls[n].id := ls[n]];
    forall id ensures id in r <==> exists k :: 0 <= k < |ls| && ls[k].id == id {
      if exists k :: 0 <= k < |ls| && ls[k].id == id {
        var k :| 0 <= k < |ls| && ls[k].id == id;
        if k < n {
          assert id in m;
        }
      }
    }
  }

  /** Adding the last listing to the map of the others sends each key to the last listing with
      that id. */
  lemma LastWinsValues(ls: seq<Listing>, front: seq<Listing>, m: map<string, Listing>)
    requires ls != [] && front == ls[..|ls| - 1]
    requires forall id :: id in m ==> exists k :: LastWithId(front, id, k) && front[k] == m[id]
    ensures var r := m[ls[|ls| - 1].id := ls[|ls| - 1]];
      forall id :: id in r ==> exists k :: LastWithId(ls, id, k) && ls[k] == r[id]
  {
    var n := |ls| - 1;
    var r := m[ls[n].id := ls[n]];
    forall id | id in r ensures exists k :: LastWithId(ls, id, k) && ls[k] == r[id] {
      if id == ls[n].id {
        assert LastWithId(ls, id, n);
      } else {
        var k :| LastWithId(front, id, k) && front[k] == m[id];
        assert LastWithId(ls, id, k);
      }
    }
  }

  /** Looking an order's listing up: the entry of a listing whose id is the order's listing id,
      or nothing when no listing has that id. */
  lemma ListingLookup(ls: seq<Listing>, o: Order)
    ensures o.listingId in ListingsById(ls) <==> exists l :: l in ls && l.id == o.listingId
    ensures o.listingId in ListingsById(ls) ==>
      ListingsById(ls)[o.listingId] in ls && ListingsById(ls)[o.listingId].id == o.listingId
  {
    var m := ListingsById(ls);
    if exists l :: l in ls && l.id == o.listingId {
      var l :| l in ls && l.id == o.listingId;
      var k :| 0 <= k < |ls| && ls[k] == l;
    }
    if o.listingId in m {
      var k :| LastWithId(ls, o.listingId, k) && ls[k] == m[o.listingId];
    }
  }

  /** The listings' ids are distinct: the map sends each id to its one listing. */
  lemma DistinctIdsLookup(ls: seq<Listing>, k: nat)
    requires forall i, j :: 0 <= i < j < |ls| ==> ls[i].id != ls[j].id
    requires k < |ls|
    ensures ls[k].id in ListingsById(ls) && ListingsById(ls)[ls[k].id] == ls[k]
  {
    var m := ListingsById(ls);
    var j :| LastWithId(ls, ls[k].id, j) && ls[j] == m[ls[k].id];
    assert j == k;
  }

  datatype RoleLabel = BuyerLabel | SellerLabel

  /** `userRole`: buyer when the order's buyer is the viewer, seller otherwise (also when no
      user is loaded). */
  function RoleOf(o: Order, user: Option<string>): (r: RoleLabel)
    ensures r == BuyerLabel <==> user.Some? && o.buyerId == user.value
  {
    if user == Some(o.buyerId) then BuyerLabel else SellerLabel
  }

  /** On the viewer's own orders the label names a part they really play: buyer means the
      viewer bought, seller means the viewer sold. */
  lemma RoleLabelTruthful(all: seq<Order>, userId: string, o: Order)
    requires o in UserOrders(all, userId)
    ensures RoleOf(o, Some(userId)) == BuyerLabel ==> o.buyerId == userId
    ensures RoleOf(o, Some(userId)) == SellerLabel ==> o.sellerId == userId && o.buyerId != userId
  {
  }

  /** What the table lists: the viewer's orders, each once as fetched, newest first. */
  lemma DisplayedOrders(all: seq<Order>, userId: string)
    ensures var r := SortedOrders(UserOrders(all, userId));
      && (forall o :: o in r <==> o in all && Participates(o, userId))
      && (forall o :: multiset(r)[o] == if Participates(o, userId) then multiset(all)[o] else 0)
      && (forall i :: 0 <= i < |r| - 1 ==> r[i].createdAt >= r[i + 1].createdAt)
  {
    var u := UserOrders(all, userId);
    var r := SortedOrders(u);
    assert forall o :: o in r <==> multiset(r)[o] > 0;
    assert forall o :: o in u <==> multiset(u)[o] > 0;
  }
}
