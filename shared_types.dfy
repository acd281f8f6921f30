/** The records and enumerations shared by the worker and the web client. */
module SharedTypes {
  import opened Wrappers

  datatype UserRole = Farmer | Distributor | Investor | Admin | Logistics

  /** `NotSubmitted` is the status written "Not Submitted". */
  datatype KycStatus = NotSubmitted | Pending | Verified | Rejected

  datatype OrderStatus = Placed | Paid | LogisticsPickedUp | Shipped | Delivered | Disputed | Cancelled

  datatype Grade = A | B | C

  /** A user; `id` is the (lower-cased) e-mail address. The credential fields are optional:
      users created through Google sign-in carry empty strings there. */
  datatype User = User(
    id: string,
    name: string,
    role: UserRole,
    kycStatus: KycStatus,
    location: string,
    avatarUrl: Option<string>,
    passwordHash: Option<string>,
    passwordSalt: Option<string>)

  /** A listing of a farmer's product; `price` is per `unit`. */
  datatype Listing = Listing(
    id: string,
    farmerId: string,
    name: string,
    description: string,
    category: string,
    price: real,
    unit: string,
    quantity: real,
    grade: Grade,
    harvestDate: string,
    imageUrl: string)

  /** A listing without its id: the body a client sends to create one. */
  datatype ListingDraft = ListingDraft(
    farmerId: string,
    name: string,
    description: string,
    category: string,
    price: real,
    unit: string,
    quantity: real,
    grade: Grade,
    harvestDate: string,
    imageUrl: string)

  /** One entry of an order's status history; timestamps are milliseconds. */
  datatype StatusEntry = StatusEntry(status: OrderStatus, timestamp: int)

  datatype Order = Order(
    id: string,
    listingId: string,
    buyerId: string,
    sellerId: string,
    quantity: real,
    total: real,
    fees: real,
    status: OrderStatus,
    createdAt: int,
    statusHistory: seq<StatusEntry>,
    disputeReason: Option<string>,
    disputeEvidenceUrl: Option<string>)

  datatype AuthResponse = AuthResponse(token: string, user: User)

  datatype ChatMessage = ChatMessage(id: string, chatId: string, userId: string, text: string, ts: int)

  const AllUserRoles: seq<UserRole> := [Farmer, Distributor, Investor, Admin, Logistics]
  const AllKycStatuses: seq<KycStatus> := [NotSubmitted, Pending, Verified, Rejected]
  const AllOrderStatuses: seq<OrderStatus> :=
    [Placed, Paid, LogisticsPickedUp, Shipped, Delivered, Disputed, Cancelled]
  const AllGrades: seq<Grade> := [A, B, C]

  /** The enumerations have exactly the listed values, each once. */
  lemma EnumerationsComplete()
    ensures |AllUserRoles| == 5 && forall r: UserRole :: r in AllUserRoles
    ensures |AllKycStatuses| == 4 && forall k: KycStatus :: k in AllKycStatuses
    ensures |AllOrderStatuses| == 7 && forall s: OrderStatus :: s in AllOrderStatuses
    ensures |AllGrades| == 3 && forall g: Grade :: g in AllGrades
    ensures forall i, j :: 0 <= i < j < 7 ==> AllOrderStatuses[i] != AllOrderStatuses[j]
    ensures forall i, j :: 0 <= i < j < 5 ==> AllUserRoles[i] != AllUserRoles[j]
    ensures forall i, j :: 0 <= i < j < 4 ==> AllKycStatuses[i] != AllKycStatuses[j]
  {
    forall r: UserRole ensures r in AllUserRoles {
      match r
      case Farmer => assert AllUserRoles[0] == r;
      case Distributor => assert AllUserRoles[1] == r;
      case Investor => assert AllUserRoles[2] == r;
      case Admin => assert AllUserRoles[3] == r;
      case Logistics => assert AllUserRoles[4] == r;
    }
    forall k: KycStatus ensures k in AllKycStatuses {
      match k
      case NotSubmitted => assert AllKycStatuses[0] == k;
      case Pending => assert AllKycStatuses[1] == k;
      case Verified => assert AllKycStatuses[2] == k;
      case Rejected => assert AllKycStatuses[3] == k;
    }
    forall s: OrderStatus ensures s in AllOrderStatuses {
      match s
      case Placed => assert AllOrderStatuses[0] == s;
      case Paid => assert AllOrderStatuses[1] == s;
      case LogisticsPickedUp => assert AllOrderStatuses[2] == s;
      case Shipped => assert AllOrderStatuses[3] == s;
      case Delivered => assert AllOrderStatuses[4] == s;
      case Disputed => assert AllOrderStatuses[5] == s;
      case Cancelled => assert AllOrderStatuses[6] == s;
    }
    forall g: Grade ensures g in AllGrades {
      match g
      case A => assert AllGrades[0] == g;
      case B => assert AllGrades[1] == g;
      case C => assert AllGrades[2] == g;
    }
  }
}
