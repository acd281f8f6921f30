/** The persisted entity kinds: their storage names, their default records, and the chat
    board's message operations. */
module Entities {
  import opened Wrappers
  import opened SharedTypes
  import opened EntityStore

  datatype EntityKind = UserKind | ListingKind | OrderKind | ChatKind

  /** The key prefix of one blob of the kind. */
  function EntityName(k: EntityKind): string {
    match k
    case UserKind => "user"
    case ListingKind => "listing"
    case OrderKind => "order"
    case ChatKind => "chat"
  }

  /** The key of the kind's id index. */
  function IndexName(k: EntityKind): string {
    match k
    case UserKind => "users"
    case ListingKind => "listings"
    case OrderKind => "orders"
    case ChatKind => "chats"
  }

  /** No two kinds share a name, and no entity name is also an index name, so the kinds'
      keys never collide. */
  lemma NamesDistinct(k1: EntityKind, k2: EntityKind)
    ensures k1 != k2 ==> EntityName(k1) != EntityName(k2) && IndexName(k1) != IndexName(k2)
    ensures EntityName(k1) != IndexName(k2)
  {
  }

  /** A new empty store for the kind. */
  method NewStore<T>(k: EntityKind) returns (store: IndexedEntity<T>)
    ensures fresh(store) && store.Valid()
    ensures store.entityName == EntityName(k) && store.indexName == IndexName(k)
    ensures store.states == map[] && store.index == []
  {
    store := new IndexedEntity(EntityName(k), IndexName(k));
  }

  const InitialUser: User := User("", "", Farmer, NotSubmitted, "", None, None, None)

  const InitialListing: Listing := Listing("", "", "", "", "", 0.0, "", 0.0, A, "", "")

  /** The default order's `createdAt` is the empty string in the source; with timestamps
      modelled as milliseconds it is 0 here. */
  const InitialOrder: Order := Order("", "", "", "", 0.0, 0.0, 0.0, Placed, 0, [], None, None)

  /** A chat board: the chat and the messages posted to it, oldest first. */
  datatype ChatBoardState = ChatBoardState(id: string, title: string, messages: seq<ChatMessage>)

  const InitialChatBoard: ChatBoardState := ChatBoardState("", "", [])

  /** The default records: a Farmer whose KYC is not submitted; a grade-A listing with
      nothing for sale at no price; a Placed order with no quantity, no money, no history and
      no dispute; a board without messages. */
  lemma InitialStates()
    ensures InitialUser.role == Farmer && InitialUser.kycStatus == NotSubmitted
    ensures InitialUser.id == "" && InitialUser.name == "" && InitialUser.location == ""
    ensures InitialUser.passwordHash.None? && InitialUser.passwordSalt.None?
    ensures InitialListing.price == 0.0 && InitialListing.quantity == 0.0 && InitialListing.grade == A
    ensures InitialListing.id == InitialListing.farmerId == InitialListing.name == ""
    ensures InitialListing.description == InitialListing.category == InitialListing.unit == ""
    ensures InitialListing.harvestDate == InitialListing.imageUrl == ""
    ensures InitialOrder.status == Placed && InitialOrder.statusHistory == []
    ensures InitialOrder.quantity == InitialOrder.total == InitialOrder.fees == 0.0
    ensures InitialOrder.disputeReason.None? && InitialOrder.disputeEvidenceUrl.None?
    ensures InitialChatBoard.messages == []
  {
  }

  /** `listMessages`: the board's stored messages, as they are. */
  function ListMessages(boards: IndexedEntity<ChatBoardState>, chatId: string): (r: Result<seq<ChatMessage>, StoreError>)
    reads boards
    ensures r.Success? <==> boards.Exists(chatId)
    ensures r.Success? ==> r.value == boards.states[chatId].messages
  {
    match boards.GetState(chatId)
    case Success(board) => Success(board.messages)
    case Failure(e) => Failure(e)
  }

  /** The update `sendMessage` applies to a board: the message appended at the end. */
  function AppendMessage(msg: ChatMessage): ChatBoardState -> ChatBoardState {
    (s: ChatBoardState) => s.(messages := s.messages + [msg])
  }

  /** `sendMessage`, with the fresh message id and the clock reading given: appends one
      message by `userId` with `text` to board `chatId`, stamped with the board's id. */
  method SendMessage(boards: IndexedEntity<ChatBoardState>, chatId: string, userId: string, text: string,
                     msgId: string, now: int)
    returns (r: Result<ChatMessage, StoreError>)
    requires boards.Valid()
    modifies boards
    ensures boards.Valid() && boards.index == old(boards.index)
    ensures !old(boards.Exists(chatId)) ==> r == Failure(NotFound) && boards.states == old(boards.states)
    ensures old(boards.Exists(chatId)) ==>
      r == Success(ChatMessage(msgId, chatId, userId, text, now)) &&
      boards.states == old(boards.states)[chatId := old(boards.states[chatId]).(messages := old(boards.states[chatId].messages) + [r.value])]
    ensures r.Success? ==> ListMessages(boards, chatId) == Success(old(boards.states[chatId].messages) + [r.value])
  {
    var msg := ChatMessage(msgId, chatId, userId, text, now);
    var m := boards.Mutate(chatId, AppendMessage(msg));
    if m.Success? {
      r := Success(msg);
    } else {
      r := Failure(m.error);
    }
  }

  /** Appending leaves the board's id, its title and every earlier message as they were,
      and puts the new message last. */
  lemma AppendMessageKeepsHistory(s: ChatBoardState, msg: ChatMessage)
    ensures AppendMessage(msg)(s).id == s.id && AppendMessage(msg)(s).title == s.title
    ensures |AppendMessage(msg)(s).messages| == |s.messages| + 1
    ensures AppendMessage(msg)(s).messages[..|s.messages|] == s.messages
    ensures AppendMessage(msg)(s).messages[|s.messages|] == msg
  {
  }
}
