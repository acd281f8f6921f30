/** The API route handlers of the worker: registration, login sessions, profiles, roles, KYC,
    listing creation, order placement and the find-or-create step of Google sign-in. Each
    handler is a method over the entity stores it touches; fresh ids, tokens, salts and clock
    readings are parameters. */
module UserRoutes {
  import opened Wrappers
  import opened JsStrings
  import opened Seqs
  import opened SharedTypes
  import opened AuthUtils
  import opened EntityStore

  /** A handler's reply: `Ok` for `ok`, `Bad` for `bad` (400), `Missing` for `notFound` (404)
      and `Unauthorized` for the 401 replies of `/api/auth/me`. */
  datatype Response<T> = Ok(data: T) | Bad(message: string) | Missing(message: string) | Unauthorized

  const MsgRegisterFields := "Name, email, and password are required"
  const MsgUserExists := "User with this email already exists"
  const MsgLoginFields := "Email and password are required"
  const MsgInvalidCredentials := "Invalid credentials"
  const MsgLoggedOut := "Logged out"
  const MsgUserNotFoundLower := "user not found"
  const MsgUserNotFound := "User not found"
  const MsgMissingRole := "Missing role"
  const MsgEmailRequired := "Email is required"
  const MsgNoUserWithEmail := "User with that email not found"
  const MsgAlreadyAdmin := "User is already an admin"
  const MsgMissingFields := "Missing required fields"
  const MsgOpenOrder :=
    "An open order for this product already exists. You cannot create a new listing until it is resolved."
  const MsgListingNotFound := "Listing not found"
  const MsgNotEnoughQuantity := "Not enough quantity available"

  /** The password that logs in without a password check (used by the social sign-in flow). */
  const MockPassword := "social_login_mock_password"

  /** Every user blob is stored under its own id. */
  ghost predicate KeyedById(users: map<string, User>) {
    forall id :: id in users ==> users[id].id == id
  }

  /** The user as every route returns it: the password hash and salt removed. */
  function WithoutCredentials(u: User): (r: User)
    ensures r.passwordHash.None? && r.passwordSalt.None?
    ensures r.(passwordHash := u.passwordHash, passwordSalt := u.passwordSalt) == u
  {
    u.(passwordHash := None, passwordSalt := None)
  }

  // ---------------------------------------------------------------- sessions

  /** The session key-value namespace, holding `session:<token>` to user id. */
  class SessionStore {
    var kv: map<string, string>

    constructor ()
      ensures kv == map[]
    {
      kv := map[];
    }

    function Get(token: string): (r: Option<string>)
      reads this
      ensures r.Some? <==> SessionKey(token) in kv
      ensures r.Some? ==> r.value == kv[SessionKey(token)]
    {
      if SessionKey(token) in kv then Some(kv[SessionKey(token)]) else None
    }

    method Put(token: string, userId: string)
      modifies this
      ensures kv == old(kv)[SessionKey(token) := userId]
      ensures Get(token) == Some(userId)
      ensures forall t :: t != token ==> Get(t) == old(Get(t))
    {
      kv := kv[SessionKey(token) := userId];
      forall t | t != token ensures Get(t) == old(Get(t)) {
        SessionKeyInjective(t, token);
      }
    }

    method Delete(token: string)
      modifies this
      ensures kv == old(kv) - {SessionKey(token)}
      ensures Get(token) == None
      ensures forall t :: t != token ==> Get(t) == old(Get(t))
    {
      kv := kv - {SessionKey(token)};
      forall t | t != token ensures Get(t) == old(Get(t)) {
        SessionKeyInjective(t, token);
      }
    }
  }

  function SessionKey(token: string): string {
    "session:" + token
  }

  /** Distinct tokens have distinct keys. */
  lemma SessionKeyInjective(t1: string, t2: string)
    ensures SessionKey(t1) == SessionKey(t2) ==> t1 == t2
  {
    if SessionKey(t1) == SessionKey(t2) {
      assert t1 == SessionKey(t1)[8..];
      assert t2 == SessionKey(t2)[8..];
    }
  }

  /** `authHeader?.split(" ")[1]`, kept only when it is a non-empty string. */
  function BearerToken(header: Option<string>): (token: Option<string>)
    ensures token.Some? ==> token.value != "" && ' ' !in token.value
  {
    if header.None? then None
    else
      var parts := Split(header.value, ' ');
      if |parts| >= 2 && parts[1] != "" then Some(parts[1]) else None
  }

  /** The header `Bearer <token>` carries the token (one without spaces). */
  lemma BearerTokenOfHeader(token: string)
    requires token != "" && ' ' !in token
    ensures BearerToken(Some("Bearer " + token)) == Some(token)
  {
    assert "Bearer " + token == "Bearer" + [' '] + token;
    SplitPrefix("Bearer", token, ' ');
    SplitWithoutSep(token, ' ');
  }

  /** A header without a space carries no token. */
  lemma NoTokenWithoutSpace(header: string)
    requires ' ' !in header
    ensures BearerToken(Some(header)) == None
  {
    SplitWithoutSep(header, ' ');
  }

  // ---------------------------------------------------------------- registration and login

  /** The user registration stores: id the lower-cased e-mail, a Farmer whose KYC is not
      submitted, no location, and the hex-encoded hash and salt. */
  function RegisteredUser(name: string, email: string, hashed: HashedPassword): (u: User)
    ensures u.id == ToLower(email) && u.name == name && u.role == Farmer && u.kycStatus == NotSubmitted
    ensures u.location == "" && u.avatarUrl.None?
    ensures u.passwordHash == Some(hashed.hash) && u.passwordSalt == Some(hashed.salt)
  {
    User(ToLower(email), name, Farmer, NotSubmitted, "", None, Some(hashed.hash), Some(hashed.salt))
  }

  /** `POST /api/auth/register`; a field that is absent or not a string is `None`. */
  method Register(users: IndexedEntity<User>, name: Option<string>, email: Option<string>,
                  password: Option<string>, derive: Derivation, salt: Salt)
    returns (r: Response<User>)
    requires users.Valid()
    modifies users
    ensures users.Valid()
    ensures KeyedById(old(users.states)) ==> KeyedById(users.states)
    ensures name.None? || email.None? || password.None? ==> r == Bad(MsgRegisterFields) && unchanged(users)
    ensures name.Some? && email.Some? && password.Some? && old(users.Exists(ToLower(email.value))) ==>
      r == Bad(MsgUserExists) && unchanged(users)
    ensures name.Some? && email.Some? && password.Some? && !old(users.Exists(ToLower(email.value))) ==>
      var u := RegisteredUser(name.value, email.value, HashPassword(derive, password.value, salt));
      r == Ok(WithoutCredentials(u)) &&
      users.states == old(users.states)[u.id := u] && users.index == old(users.index) + [u.id]
  {
    if name.None? || email.None? || password.None? {
      return Bad(MsgRegisterFields);
    }
    var id := ToLower(email.value);
    if users.Exists(id) {
      return Bad(MsgUserExists);
    }
    var newUser := RegisteredUser(name.value, email.value, HashPassword(derive, password.value, salt));
    var _ := users.Create(id, newUser);
    r := Ok(WithoutCredentials(newUser));
  }

  /** The credential check of `POST /api/auth/login`: the mock password passes outright;
      otherwise the user needs a non-empty hash and salt that the password verifies against. */
  predicate LoginAccepted(derive: Derivation, user: User, password: string)
    ensures LoginAccepted(derive, user, password) && password != MockPassword ==>
      user.passwordHash.Some? && |user.passwordHash.value| == 2 * KeyLength && IsLowerHex(user.passwordHash.value)
  {
    || password == MockPassword
    || (&& user.passwordHash.Some? && user.passwordHash.value != ""
        && user.passwordSalt.Some? && user.passwordSalt.value != ""
        && PasswordMatches(derive, password, user.passwordHash.value, user.passwordSalt.value))
  }

  /** A registered user can log in with the password they registered with. */
  lemma RegisterThenLogin(derive: Derivation, name: string, email: string, password: string, salt: Salt)
    ensures LoginAccepted(derive, RegisteredUser(name, email, HashPassword(derive, password, salt)), password)
  {
    HashThenVerify(derive, password, salt);
  }

  /** A user without stored credentials (or with empty ones) logs in with the mock password
      and with nothing else. */
  lemma NoCredentialsOnlyMock(derive: Derivation, user: User, password: string)
    requires user.passwordHash.None? || user.passwordHash == Some("")
    ensures LoginAccepted(derive, user, password) <==> password == MockPassword
  {
  }

  /** `POST /api/auth/login`, with the fresh session token given. */
  method Login(users: IndexedEntity<User>, sessions: SessionStore, email: Option<string>,
               password: Option<string>, derive: Derivation, token: string)
    returns (r: Response<AuthResponse>)
    modifies sessions
    ensures email.None? || password.None? ==> r == Bad(MsgLoginFields) && unchanged(sessions)
    ensures email.Some? && password.Some? ==>
      var id := ToLower(email.value);
      if users.Exists(id) && LoginAccepted(derive, users.states[id], password.value) then
        r == Ok(AuthResponse(token, WithoutCredentials(users.states[id]))) &&
        sessions.kv == old(sessions.kv)[SessionKey(token) := users.states[id].id]
      else
        r == Bad(MsgInvalidCredentials) && unchanged(sessions)
  {
    if email.None? || password.None? {
      return Bad(MsgLoginFields);
    }
    var id := ToLower(email.value);
    if !users.Exists(id) {
      return Bad(MsgInvalidCredentials);
    }
    var user := users.states[id];
    if password.value != MockPassword {
      if user.passwordHash.None? || user.passwordHash.value == "" || user.passwordSalt.None? || user.passwordSalt.value == "" {
        return Bad(MsgInvalidCredentials);
      }
      var valid := VerifyPassword(derive, password.value, user.passwordHash.value, user.passwordSalt.value);
      if !valid {
        return Bad(MsgInvalidCredentials);
      }
    }
    sessions.Put(token, user.id);
    r := Ok(AuthResponse(token, WithoutCredentials(user)));
  }

  /** `POST /api/auth/logout`: deletes the session of the header's token, if any. */
  method Logout(sessions: SessionStore, header: Option<string>) returns (r: Response<string>)
    modifies sessions
    ensures r == Ok(MsgLoggedOut)
    ensures BearerToken(header).Some? ==> sessions.kv == old(sessions.kv) - {SessionKey(BearerToken(header).value)}
    ensures BearerToken(header).None? ==> unchanged(sessions)
  {
    var token := BearerToken(header);
    if token.Some? {
      sessions.Delete(token.value);
    }
    r := Ok(MsgLoggedOut);
  }

  /** `GET /api/auth/me`: the user of the header's session. */
  function Me(users: IndexedEntity<User>, sessions: SessionStore, header: Option<string>): (r: Response<User>)
    reads users, sessions
    ensures r.Ok? || r.Unauthorized?
    ensures r.Ok? ==>
      && BearerToken(header).Some?
      && sessions.Get(BearerToken(header).value).Some?
      && var id := sessions.Get(BearerToken(header).value).value;
         id != "" && users.Exists(id) && r.data == WithoutCredentials(users.states[id])
  {
    var token := BearerToken(header);
    if token.None? then Unauthorized
    else
      var userId := sessions.Get(token.value);
      if userId.None? || userId.value == "" then Unauthorized
      else if !users.Exists(userId.value) then Unauthorized
      else Ok(WithoutCredentials(users.states[userId.value]))
  }

  /** After a session maps a token to a stored user, `me` with `Bearer <token>` answers
      with that user. */
  lemma SessionIdentifiesUser(users: IndexedEntity<User>, sessions: SessionStore, token: string)
    requires token != "" && ' ' !in token
    requires sessions.Get(token).Some? && sessions.Get(token).value != ""
    requires users.Exists(sessions.Get(token).value)
    ensures Me(users, sessions, Some("Bearer " + token)) == Ok(WithoutCredentials(users.states[sessions.Get(token).value]))
  {
    BearerTokenOfHeader(token);
  }

  // ---------------------------------------------------------------- users

  /** `GET /api/users/:id`. */
  function GetUser(users: IndexedEntity<User>, id: string): (r: Response<User>)
    reads users
    ensures r.Ok? <==> users.Exists(id)
    ensures r.Ok? ==> r.data == WithoutCredentials(users.states[id]) && r.data.passwordHash.None?
    ensures !r.Ok? ==> r == Missing(MsgUserNotFoundLower)
  {
    if users.Exists(id) then Ok(WithoutCredentials(users.states[id])) else Missing(MsgUserNotFoundLower)
  }

  /** The record `POST /api/users/:id` writes: the new location when one is given; the new
      name when one is given and the user's KYC is not verified. */
  function UpdatedProfile(u: User, name: Option<string>, location: Option<string>): (r: User)
    ensures r.(name := u.name, location := u.location) == u
    ensures u.kycStatus == Verified ==> r.name == u.name
    ensures name.Some? && u.kycStatus != Verified ==> r.name == name.value
    ensures name.None? ==> r.name == u.name
    ensures location.Some? ==> r.location == location.value
    ensures location.None? ==> r.location == u.location
  {
    var renamed := if name.Some? && u.kycStatus != Verified then u.(name := name.value) else u;
    if location.Some? then renamed.(location := location.value) else renamed
  }

  /** Updating a profile never touches id, role, KYC status or credentials. */
  lemma UpdatedProfileKeepsIdentity(u: User, name: Option<string>, location: Option<string>)
    ensures UpdatedProfile(u, name, location).id == u.id
    ensures UpdatedProfile(u, name, location).role == u.role
    ensures UpdatedProfile(u, name, location).kycStatus == u.kycStatus
    ensures UpdatedProfile(u, name, location).passwordHash == u.passwordHash
    ensures UpdatedProfile(u, name, location).passwordSalt == u.passwordSalt
  {
    assert UpdatedProfile(u, name, location).(name := u.name, location := u.location) == u;
  }

  /** `POST /api/users/:id`; a body field that is absent or not a string is `None`. */
  method UpdateProfile(users: IndexedEntity<User>, id: string, name: Option<string>, location: Option<string>)
    returns (r: Response<User>)
    requires users.Valid()
    modifies users
    ensures users.Valid() && users.index == old(users.index)
    ensures KeyedById(old(users.states)) ==> KeyedById(users.states)
    ensures !old(users.Exists(id)) ==> r == Missing(MsgUserNotFoundLower) && unchanged(users)
    ensures old(users.Exists(id)) ==>
      var u := UpdatedProfile(old(users.states[id]), name, location);
      users.states == old(users.states)[id := u] && r == Ok(WithoutCredentials(u))
  {
    if !users.Exists(id) {
      return Missing(MsgUserNotFoundLower);
    }
    var _ := users.Mutate(id, (u: User) => UpdatedProfile(u, name, location));
    r := Ok(WithoutCredentials(users.states[id]));
  }

  /** `POST /api/users/:id/role`. */
  method SetRole(users: IndexedEntity<User>, id: string, role: Option<UserRole>) returns (r: Response<User>)
    requires users.Valid()
    modifies users
    ensures users.Valid() && users.index == old(users.index)
    ensures KeyedById(old(users.states)) ==> KeyedById(users.states)
    ensures role.None? ==> r == Bad(MsgMissingRole) && unchanged(users)
    ensures role.Some? && !old(users.Exists(id)) ==> r == Missing(MsgUserNotFound) && unchanged(users)
    ensures role.Some? && old(users.Exists(id)) ==>
      var u := old(users.states[id]).(role := role.value);
      users.states == old(users.states)[id := u] && r == Ok(WithoutCredentials(u))
  {
    if role.None? {
      return Bad(MsgMissingRole);
    }
    if !users.Exists(id) {
      return Missing(MsgUserNotFound);
    }
    var _ := users.Mutate(id, (u: User) => u.(role := role.value));
    r := Ok(WithoutCredentials(users.states[id]));
  }

  /** `POST /api/users/promote`: the e-mail is used as the id as given, not lower-cased. */
  method Promote(users: IndexedEntity<User>, email: Option<string>) returns (r: Response<User>)
    requires users.Valid()
    modifies users
    ensures users.Valid() && users.index == old(users.index)
    ensures KeyedById(old(users.states)) ==> KeyedById(users.states)
    ensures email.None? ==> r == Bad(MsgEmailRequired) && unchanged(users)
    ensures email.Some? && !old(users.Exists(email.value)) ==> r == Missing(MsgNoUserWithEmail) && unchanged(users)
    ensures email.Some? && old(users.Exists(email.value)) && old(users.states[email.value].role) == Admin ==>
      r == Bad(MsgAlreadyAdmin) && unchanged(users)
    ensures email.Some? && old(users.Exists(email.value)) && old(users.states[email.value].role) != Admin ==>
      var u := old(users.states[email.value]).(role := Admin);
      users.states == old(users.states)[email.value := u] && r == Ok(WithoutCredentials(u))
  {
    if email.None? {
      return Bad(MsgEmailRequired);
    }
    var id := email.value;
    if !users.Exists(id) {
      return Missing(MsgNoUserWithEmail);
    }
    if users.states[id].role == Admin {
      return Bad(MsgAlreadyAdmin);
    }
    var _ := users.Mutate(id, (u: User) => u.(role := Admin));
    r := Ok(WithoutCredentials(users.states[id]));
  }

  /** `POST /api/users/:id/submit-kyc`: the status goes to Pending, then (after a delay)
      to Verified; nothing else of the user changes. */
  method SubmitKyc(users: IndexedEntity<User>, id: string) returns (r: Response<User>)
    requires users.Valid()
    modifies users
    ensures users.Valid() && users.index == old(users.index)
    ensures KeyedById(old(users.states)) ==> KeyedById(users.states)
    ensures !old(users.Exists(id)) ==> r == Missing(MsgUserNotFound) && unchanged(users)
    ensures old(users.Exists(id)) ==>
      var u := old(users.states[id]).(kycStatus := Verified);
      users.states == old(users.states)[id := u] && r == Ok(WithoutCredentials(u))
  {
    if !users.Exists(id) {
      return Missing(MsgUserNotFound);
    }
    var _ := users.Mutate(id, (u: User) => u.(kycStatus := Pending));
    var _ := users.Mutate(id, (u: User) => u.(kycStatus := Verified));
    r := Ok(WithoutCredentials(users.states[id]));
  }

  // ---------------------------------------------------------------- listings

  /** The farmer's listings whose names equal `name` ignoring case. */
  function SameProductListings(all: seq<Listing>, farmerId: string, name: string): seq<Listing> {
    Filter(all, (l: Listing) => l.farmerId == farmerId && ToLower(l.name) == ToLower(name))
  }

  /** An order is open until it is Delivered or Cancelled. */
  predicate IsOpen(o: Order) {
    o.status != Delivered && o.status != Cancelled
  }

  predicate SomeOpenOrderFor(orders: seq<Order>, listings: seq<Listing>) {
    exists i, j :: 0 <= i < |orders| && 0 <= j < |listings| && listings[j].id == orders[i].listingId && IsOpen(orders[i])
  }

  /** The guard of `POST /api/listings`, in the order the handler evaluates it. */
  predicate ConflictingOpenOrder(all: seq<Listing>, orders: seq<Order>, farmerId: string, name: string) {
    var same := SameProductListings(all, farmerId, name);
    |same| > 0 && SomeOpenOrderFor(orders, same)
  }

  /** The guard rejects exactly when an open order is placed against some listing of the same
      farmer whose name equals the new one ignoring case. */
  lemma ConflictingOpenOrderIff(all: seq<Listing>, orders: seq<Order>, farmerId: string, name: string)
    ensures ConflictingOpenOrder(all, orders, farmerId, name) <==>
      exists i, j :: 0 <= i < |orders| && 0 <= j < |all| &&
        all[j].farmerId == farmerId && ToLower(all[j].name) == ToLower(name) &&
        all[j].id == orders[i].listingId && IsOpen(orders[i])
  {
    var p := (l: Listing) => l.farmerId == farmerId && ToLower(l.name) == ToLower(name);
    var same := SameProductListings(all, farmerId, name);
    if ConflictingOpenOrder(all, orders, farmerId, name) {
      var i, j :| 0 <= i < |orders| && 0 <= j < |same| && same[j].id == orders[i].listingId && IsOpen(orders[i]);
      FilterMembership(all, p, same[j]);
      var j' :| 0 <= j' < |all| && all[j'] == same[j];
      assert all[j'].id == orders[i].listingId;
    }
    if exists i, j :: 0 <= i < |orders| && 0 <= j < |all| && p(all[j]) && all[j].id == orders[i].listingId && IsOpen(orders[i]) {
      var i, j :| 0 <= i < |orders| && 0 <= j < |all| && p(all[j]) && all[j].id == orders[i].listingId && IsOpen(orders[i]);
      FilterMembership(all, p, all[j]);
      var j' :| 0 <= j' < |same| && same[j'] == all[j];
      assert same[j'].id == orders[i].listingId;
    }
  }

  /** An order that is Delivered or Cancelled never blocks a new listing. */
  lemma ClosedOrdersNeverConflict(all: seq<Listing>, orders: seq<Order>, farmerId: string, name: string)
    requires forall i :: 0 <= i < |orders| ==> !IsOpen(orders[i])
    ensures !ConflictingOpenOrder(all, orders, farmerId, name)
  {
  }

  function FromDraft(id: string, d: ListingDraft): (l: Listing)
    ensures l.id == id && l.farmerId == d.farmerId && l.name == d.name && l.description == d.description
    ensures l.category == d.category && l.price == d.price && l.unit == d.unit && l.quantity == d.quantity
    ensures l.grade == d.grade && l.harvestDate == d.harvestDate && l.imageUrl == d.imageUrl
  {
    Listing(id, d.farmerId, d.name, d.description, d.category, d.price, d.unit, d.quantity, d.grade,
            d.harvestDate, d.imageUrl)
  }

  /** `POST /api/listings`, with the fresh listing id given; a missing name or farmer id is
      the empty string. */
  method CreateListing(listings: IndexedEntity<Listing>, orders: IndexedEntity<Order>, draft: ListingDraft,
                       newId: string)
    returns (r: Response<Listing>)
    requires listings.Valid() && orders.Valid()
    requires !listings.Exists(newId)
    modifies listings
    ensures listings.Valid()
    ensures draft.name == "" || draft.farmerId == "" ==> r == Bad(MsgMissingFields) && unchanged(listings)
    ensures draft.name != "" && draft.farmerId != "" ==>
      var conflict := ConflictingOpenOrder(old(listings.Items()), orders.Items(), draft.farmerId, draft.name);
      (conflict ==> r == Bad(MsgOpenOrder) && unchanged(listings)) &&
      (!conflict ==>
         && r == Ok(FromDraft(newId, draft))
         && listings.states == old(listings.states)[newId := FromDraft(newId, draft)]
         && listings.index == old(listings.index) + [newId])
  {
    if draft.name == "" || draft.farmerId == "" {
      return Bad(MsgMissingFields);
    }
    var all := listings.Items();
    var same := SameProductListings(all, draft.farmerId, draft.name);
    if |same| > 0 {
      var allOrders := orders.Items();
      if SomeOpenOrderFor(allOrders, same) {
        return Bad(MsgOpenOrder);
      }
    }
    var listing := FromDraft(newId, draft);
    var _ := listings.Create(newId, listing);
    r := Ok(listing);
  }

  // ---------------------------------------------------------------- orders

  datatype OrderRejection = MissingFields | ListingNotFound | NotEnoughQuantity

  /** The guards of `POST /api/orders`, in order: a falsy listing id, buyer id or quantity
      (absent or 0); no such listing; more than the listing has. */
  function OrderRejected(listings: map<string, Listing>, listingId: string, buyerId: string,
                         quantity: Option<real>): (r: Option<OrderRejection>)
    ensures r == Some(MissingFields) <==> listingId == "" || buyerId == "" || quantity.None? || quantity.value == 0.0
    ensures r.None? <==>
      listingId != "" && buyerId != "" && quantity.Some? && quantity.value != 0.0 &&
      listingId in listings && quantity.value <= listings[listingId].quantity
  {
    if listingId == "" || buyerId == "" || quantity.None? || quantity.value == 0.0 then Some(MissingFields)
    else if listingId !in listings then Some(ListingNotFound)
    else if quantity.value > listings[listingId].quantity then Some(NotEnoughQuantity)
    else None
  }

  const FeeRate: real := 0.025

  /** Milliseconds between the Placed and the Paid entries of a new order's history. */
  const PaidDelay: int := 1000

  /** The order `POST /api/orders` creates, from the request, the listing read, and two clock
      readings: `now` (creation time, the Placed entry) and `later` (the Paid entry is one
      second after it). */
  function NewOrder(id: string, listingId: string, listing: Listing, buyerId: string, quantity: real,
                    now: int, later: int): (o: Order)
    ensures o.id == id && o.listingId == listingId && o.buyerId == buyerId && o.quantity == quantity
    ensures o.sellerId == listing.farmerId
    ensures o.fees == FeeRate * (listing.price * quantity)
    ensures o.total - o.fees == listing.price * quantity
    ensures o.status == Paid && o.createdAt == now
    ensures o.statusHistory == [StatusEntry(Placed, now), StatusEntry(Paid, later + PaidDelay)]
    ensures o.disputeReason.None? && o.disputeEvidenceUrl.None?
  {
    var subtotal := listing.price * quantity;
    var fees := subtotal * 0.025;
    Order(id, listingId, buyerId, listing.farmerId, quantity, subtotal + fees, fees, Paid, now,
          [StatusEntry(Placed, now), StatusEntry(Paid, later + 1000)], None, None)
  }

  /** A new order's history is ordered in time, ends in its current status, and its total is
      41 times its fee. */
  lemma NewOrderConsistent(id: string, listingId: string, listing: Listing, buyerId: string, quantity: real,
                           now: int, later: int)
    requires now <= later
    ensures var o := NewOrder(id, listingId, listing, buyerId, quantity, now, later);
      && o.statusHistory[|o.statusHistory| - 1].status == o.status
      && o.statusHistory[0].timestamp < o.statusHistory[1].timestamp
      && o.total == 41.0 * o.fees
  {
  }

  /** The worked example: 4 units at 2.00 cost 8.00 plus 0.20 fees, 8.20 in all, and leave 6
      of 10. */
  lemma OrderExample(listing: Listing, id: string, buyerId: string, now: int)
    requires listing.id != "" && buyerId != "" && listing.quantity == 10.0 && listing.price == 2.0
    ensures OrderRejected(map[listing.id := listing], listing.id, buyerId, Some(4.0)).None?
    ensures var o := NewOrder(id, listing.id, listing, buyerId, 4.0, now, now);
      o.fees == 0.2 && o.total == 8.2 && listing.quantity - o.quantity == 6.0
  {
  }

  /** The guard lets a negative quantity through, and the listing's quantity then grows. */
  lemma NegativeQuantityAccepted(listing: Listing)
    requires listing.id != "" && listing.quantity >= 0.0
    ensures OrderRejected(map[listing.id := listing], listing.id, "buyer", Some(-1.0)).None?
    ensures listing.quantity - (-1.0) > listing.quantity
  {
  }

  /** An accepted order never drives a listing's quantity below zero. */
  lemma AcceptedOrderKeepsStockNonNegative(listings: map<string, Listing>, listingId: string, buyerId: string,
                                           quantity: Option<real>)
    requires OrderRejected(listings, listingId, buyerId, quantity).None?
    ensures listings[listingId].quantity - quantity.value >= 0.0
  {
  }

  /** `POST /api/orders`, with the fresh order id and the two clock readings given: creates the
      order, then writes the listing's quantity less the ordered amount. */
  method PlaceOrder(listings: IndexedEntity<Listing>, orders: IndexedEntity<Order>, listingId: string,
                    buyerId: string, quantity: Option<real>, newId: string, now: int, later: int)
    returns (r: Response<Order>)
    requires listings.Valid() && orders.Valid()
    requires !orders.Exists(newId)
    modifies listings, orders
    ensures listings.Valid() && orders.Valid()
    ensures OrderRejected(old(listings.states), listingId, buyerId, quantity) == Some(MissingFields) ==>
      r == Bad(MsgMissingFields) && unchanged(listings, orders)
    ensures OrderRejected(old(listings.states), listingId, buyerId, quantity) == Some(ListingNotFound) ==>
      r == Missing(MsgListingNotFound) && unchanged(listings, orders)
    ensures OrderRejected(old(listings.states), listingId, buyerId, quantity) == Some(NotEnoughQuantity) ==>
      r == Bad(MsgNotEnoughQuantity) && unchanged(listings, orders)
    ensures OrderRejected(old(listings.states), listingId, buyerId, quantity).None? ==>
      var l := old(listings.states[listingId]);
      var o := NewOrder(newId, listingId, l, buyerId, quantity.value, now, later);
      && r == Ok(o)
      && orders.states == old(orders.states)[newId := o] && orders.index == old(orders.index) + [newId]
      && listings.states == old(listings.states)[listingId := l.(quantity := l.quantity - quantity.value)]
      && listings.index == old(listings.index)
  {
    if listingId == "" || buyerId == "" || quantity.None? || quantity.value == 0.0 {
      return Bad(MsgMissingFields);
    }
    if !listings.Exists(listingId) {
      return Missing(MsgListingNotFound);
    }
    var listing := listings.states[listingId];
    var q := quantity.value;
    if q > listing.quantity {
      return Bad(MsgNotEnoughQuantity);
    }
    var order := NewOrder(newId, listingId, listing, buyerId, q, now, later);
    var _ := orders.Create(newId, order);
    var _ := listings.Mutate(listingId, (l: Listing) => l.(quantity := listing.quantity - q));
    r := Ok(order);
  }

  // ---------------------------------------------------------------- Google sign-in

  /** The display name of a Google account: its name when present and non-empty, else the part
      of the e-mail before the first `@`. */
  function GoogleDisplayName(email: string, name: Option<string>): (r: string)
    ensures name.Some? && name.value != "" ==> r == name.value
    ensures !(name.Some? && name.value != "") ==> r <= email && '@' !in r && (|r| == |email| || email[|r|] == '@')
  {
    SplitFirstIsPrefix(email, '@');
    if name.Some? && name.value != "" then name.value else Split(email, '@')[0]
  }

  /** The user the Google callback creates: empty credential strings, so that only the mock
      password can log them in. */
  function GoogleUser(email: string, name: string): (u: User)
    ensures u.id == email && u.name == name && u.role == Farmer && u.kycStatus == NotSubmitted
    ensures u.location == "" && u.avatarUrl.None?
    ensures u.passwordHash == Some("") && u.passwordSalt == Some("")
  {
    User(email, name, Farmer, NotSubmitted, "", None, Some(""), Some(""))
  }

  lemma GoogleUserOnlyMock(derive: Derivation, email: string, name: string, password: string)
    ensures LoginAccepted(derive, GoogleUser(email, name), password) <==> password == MockPassword
  {
    NoCredentialsOnlyMock(derive, GoogleUser(email, name), password);
  }

  /** The find-or-create step of `GET /api/auth/google/callback`, after the token exchange:
      the stored user for the lower-cased e-mail, or a new one; then a session for the
      e-mail under the fresh token. */
  method GoogleFindOrCreate(users: IndexedEntity<User>, sessions: SessionStore, googleEmail: string,
                            googleName: Option<string>, token: string)
    returns (r: Response<AuthResponse>)
    requires users.Valid()
    modifies users, sessions
    ensures users.Valid()
    ensures KeyedById(old(users.states)) ==> KeyedById(users.states)
    ensures var email := ToLower(googleEmail);
      && sessions.kv == old(sessions.kv)[SessionKey(token) := email]
      && (old(users.Exists(email)) ==>
            r == Ok(AuthResponse(token, WithoutCredentials(old(users.states[email])))) && unchanged(users))
      && (!old(users.Exists(email)) ==>
            var u := GoogleUser(email, GoogleDisplayName(email, googleName));
            && r == Ok(AuthResponse(token, WithoutCredentials(u)))
            && users.states == old(users.states)[email := u] && users.index == old(users.index) + [email])
  {
    var email := ToLower(googleEmail);
    var name := GoogleDisplayName(email, googleName);
    var user: User;
    match users.GetState(email) {
      case Success(u) =>
        user := u;
      case Failure(_) =>
        user := GoogleUser(email, name);
        var _ := users.Create(email, user);
    }
    sessions.Put(token, email);
    r := Ok(AuthResponse(token, WithoutCredentials(user)));
  }
}
