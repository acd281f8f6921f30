/** The marketplace page: listings narrowed by a search term and a category, then ordered by the
    chosen sort key; and the category choices. */
module Marketplace {
  import opened Seqs
  import opened JsStrings
  import opened SharedTypes

  /** The search rule: the lowercased name contains the lowercased term. */
  predicate MatchesSearch(l: Listing, term: string) {
    Contains(ToLower(l.name), ToLower(term))
  }

  /** The category rule: "all" keeps every listing, any other value only exact matches. */
  predicate MatchesCategory(l: Listing, category: string) {
    category == "all" || l.category == category
  }

  predicate Matches(l: Listing, term: string, category: string) {
    MatchesSearch(l, term) && MatchesCategory(l, category)
  }

  /** `compare(a, b) <= 0` for the comparator of a sort key; `collate` is `localeCompare`, a
      given function of the viewer's locale. Prices are compared by their difference. */
  function SortLeq(sortBy: string, collate: (string, string) -> int): (Listing, Listing) -> bool {
    if sortBy == "price-asc" then (a: Listing, b: Listing) => a.price - b.price <= 0.0
    else if sortBy == "price-desc" then (a: Listing, b: Listing) => b.price - a.price <= 0.0
    else if sortBy == "name-asc" then (a: Listing, b: Listing) => collate(a.name, b.name) <= 0
    else (a: Listing, b: Listing) => true
  }

  /** `filteredListings`: the two filters, then the (stable) sort. */
  function FilteredListings(listings: seq<Listing>, term: string, category: string, sortBy: string,
                            collate: (string, string) -> int): (r: seq<Listing>)
    ensures |r| <= |listings|
  {
    var searched := Filter(listings, (l: Listing) => MatchesSearch(l, term));
    var inCategory := Filter(searched, (l: Listing) => MatchesCategory(l, category));
    SortBy(inCategory, SortLeq(sortBy, collate))
  }

  /** The filters alone equal one filter by both rules. */
  lemma FiltersCompose(listings: seq<Listing>, term: string, category: string)
    ensures Filter(Filter(listings, (l: Listing) => MatchesSearch(l, term)), (l: Listing) => MatchesCategory(l, category))
         == Filter(listings, (l: Listing) => Matches(l, term, category))
  {
    FilterFilter(listings, (l: Listing) => MatchesSearch(l, term), (l: Listing) => MatchesCategory(l, category),
                 (l: Listing) => Matches(l, term, category));
  }

  /** The result holds exactly the matching listings: each as often as in the input when it
      matches, and not at all otherwise. */
  lemma FilteredExactlyMatching(listings: seq<Listing>, term: string, category: string, sortBy: string,
                                collate: (string, string) -> int, l: Listing)
    ensures multiset(FilteredListings(listings, term, category, sortBy, collate))[l] ==
      if Matches(l, term, category) then multiset(listings)[l] else 0
    ensures l in FilteredListings(listings, term, category, sortBy, collate) <==>
      l in listings && MatchesSearch(l, term) && MatchesCategory(l, category)
  {
    FiltersCompose(listings, term, category);
    FilterMultiplicity(listings, (l: Listing) => Matches(l, term, category), l);
    var r := FilteredListings(listings, term, category, sortBy, collate);
    assert l in r <==> multiset(r)[l] > 0;
    assert l in listings <==> multiset(listings)[l] > 0;
  }

  /** Every listing shown has the term in its lowercased name and the selected category, or any
      category under "all". */
  lemma FilteredListingsMatch(listings: seq<Listing>, term: string, category: string, sortBy: string,
                              collate: (string, string) -> int, i: nat)
    requires i < |FilteredListings(listings, term, category, sortBy, collate)|
    ensures var l := FilteredListings(listings, term, category, sortBy, collate)[i];
      Contains(ToLower(l.name), ToLower(term)) && (category == "all" || l.category == category)
  {
    FilteredExactlyMatching(listings, term, category, sortBy, collate,
                            FilteredListings(listings, term, category, sortBy, collate)[i]);
  }

  /** Under "price-asc" the prices do not decrease along the result. */
  lemma PriceAscSorted(listings: seq<Listing>, term: string, category: string, collate: (string, string) -> int)
    ensures var r := FilteredListings(listings, term, category, "price-asc", collate);
      forall i :: 0 <= i < |r| - 1 ==> r[i].price <= r[i + 1].price
  {
    var searched := Filter(listings, (l: Listing) => MatchesSearch(l, term));
    var inCategory := Filter(searched, (l: Listing) => MatchesCategory(l, category));
    SortBySorted(inCategory, SortLeq("price-asc", collate));
  }

  /** The sort is stable: under "price-asc" the matching listings of any one price keep their
      order. */
  lemma SamePriceStable(listings: seq<Listing>, term: string, category: string, collate: (string, string) -> int,
                        p: real)
    ensures Filter(FilteredListings(listings, term, category, "price-asc", collate), (l: Listing) => l.price == p)
         == Filter(Filter(listings, (l: Listing) => Matches(l, term, category)), (l: Listing) => l.price == p)
  {
    var searched := Filter(listings, (l: Listing) => MatchesSearch(l, term));
    var inCategory := Filter(searched, (l: Listing) => MatchesCategory(l, category));
    SortByStable(inCategory, SortLeq("price-asc", collate), (l: Listing) => l.price == p);
    FiltersCompose(listings, term, category);
  }

  /** Under "price-desc" the matching listings of any one price keep their order too. */
  lemma SamePriceDescStable(listings: seq<Listing>, term: string, category: string, collate: (string, string) -> int,
                            p: real)
    ensures Filter(FilteredListings(listings, term, category, "price-desc", collate), (l: Listing) => l.price == p)
         == Filter(Filter(listings, (l: Listing) => Matches(l, term, category)), (l: Listing) => l.price == p)
  {
    var searched := Filter(listings, (l: Listing) => MatchesSearch(l, term));
    var inCategory := Filter(searched, (l: Listing) => MatchesCategory(l, category));
    SortByStable(inCategory, SortLeq("price-desc", collate), (l: Listing) => l.price == p);
    FiltersCompose(listings, term, category);
  }

  /** Under "name-asc" the matching listings of any one name keep their order, given that a
      name collates equal to itself. */
  lemma SameNameStable(listings: seq<Listing>, term: string, category: string, collate: (string, string) -> int,
                       n: string)
    requires collate(n, n) == 0
    ensures Filter(FilteredListings(listings, term, category, "name-asc", collate), (l: Listing) => l.name == n)
         == Filter(Filter(listings, (l: Listing) => Matches(l, term, category)), (l: Listing) => l.name == n)
  {
    var searched := Filter(listings, (l: Listing) => MatchesSearch(l, term));
    var inCategory := Filter(searched, (l: Listing) => MatchesCategory(l, category));
    SortByStable(inCategory, SortLeq("name-asc", collate), (l: Listing) => l.name == n);
    FiltersCompose(listings, term, category);
  }

  /** Under "price-desc" the prices do not increase along the result. */
  lemma PriceDescSorted(listings: seq<Listing>, term: string, category: string, collate: (string, string) -> int)
    ensures var r := FilteredListings(listings, term, category, "price-desc", collate);
      forall i :: 0 <= i < |r| - 1 ==> r[i].price >= r[i + 1].price
  {
    var searched := Filter(listings, (l: Listing) => MatchesSearch(l, term));
    var inCategory := Filter(searched, (l: Listing) => MatchesCategory(l, category));
    SortBySorted(inCategory, SortLeq("price-desc", collate));
  }

  /** Under "name-asc", with a collation that orders any two names one way or the other, each
      name collates at or before the next. */
  lemma NameAscSorted(listings: seq<Listing>, term: string, category: string, collate: (string, string) -> int)
    requires forall x, y :: collate(x, y) <= 0 || collate(y, x) <= 0
    ensures var r := FilteredListings(listings, term, category, "name-asc", collate);
      forall i :: 0 <= i < |r| - 1 ==> collate(r[i].name, r[i + 1].name) <= 0
  {
    var searched := Filter(listings, (l: Listing) => MatchesSearch(l, term));
    var inCategory := Filter(searched, (l: Listing) => MatchesCategory(l, category));
    var leq := SortLeq("name-asc", collate);
    assert TotalOn(inCategory, leq) by {
      forall a, b | a in inCategory && b in inCategory ensures leq(a, b) || leq(b, a) {
        assert collate(a.name, b.name) <= 0 || collate(b.name, a.name) <= 0;
      }
    }
    SortBySorted(inCategory, leq);
  }

  /** Any other sort key calls every pair equal, so the matching listings keep their order. */
  lemma UnknownSortKeepsOrder(listings: seq<Listing>, term: string, category: string, sortBy: string,
                              collate: (string, string) -> int)
    requires sortBy != "price-asc" && sortBy != "price-desc" && sortBy != "name-asc"
    ensures FilteredListings(listings, term, category, sortBy, collate)
         == Filter(listings, (l: Listing) => Matches(l, term, category))
  {
    var searched := Filter(listings, (l: Listing) => MatchesSearch(l, term));
    var inCategory := Filter(searched, (l: Listing) => MatchesCategory(l, category));
    SortByAllTiesIdentity(inCategory, SortLeq(sortBy, collate));
    FiltersCompose(listings, term, category);
  }

  /** `listings.map(l => l.category)`. */
  function CategoryColumn(listings: seq<Listing>): (r: seq<string>)
    ensures |r| == |listings|
    ensures forall i :: 0 <= i < |listings| ==> r[i] == listings[i].category
  {
    seq(|listings|, i requires 0 <= i < |listings| => listings[i].category)
  }

  /** The category choices: "all", then each category of a listing once. */
  function Categories(listings: seq<Listing>): (r: seq<string>)
    ensures |r| >= 1 && r[0] == "all"
    ensures forall c :: c in r[1..] <==> exists l :: l in listings && l.category == c
    ensures NoDuplicates(r[1..])
  {
    var column := CategoryColumn(listings);
    var r := ["all"] + Distinct(column);
    assert r[1..] == Distinct(column);
    assert forall c :: c in column <==> exists l :: l in listings && l.category == c by {
      forall c ensures c in column <==> exists l :: l in listings && l.category == c {
        if c in column {
          var i :| 0 <= i < |column| && column[i] == c;
          assert listings[i] in listings;
        }
        if exists l :: l in listings && l.category == c {
          var l :| l in listings && l.category == c;
          var i :| 0 <= i < |listings| && listings[i] == l;
          assert column[i] == c;
        }
      }
    }
    r
  }

  /** The categories after "all" come in the order in which they first appear among the
      listings. */
  lemma CategoriesInFirstAppearanceOrder(listings: seq<Listing>, i: nat, j: nat)
    requires 1 <= i < j < |Categories(listings)|
    ensures FirstIndex(CategoryColumn(listings), Categories(listings)[i])
          < FirstIndex(CategoryColumn(listings), Categories(listings)[j])
  {
    var column := CategoryColumn(listings);
    assert Categories(listings)[1..] == Distinct(column);
    DistinctInFirstOccurrenceOrder(column, i - 1, j - 1);
  }
}
