/**
 * Entities and DTOs of the sharing service. Timestamps are integers. An entity value has no
 * `id` field: the id is the key it is stored under. This matches the entities' equality,
 * which excludes `id` (Lombok's `@EqualsAndHashCode.Exclude`), so `==` on these datatypes
 * is the equality the services use when they compare users.
 */
module Domain {
  import opened Common

  /** Status of a booking (BookingStateEnum). */
  datatype BookingStatus = Waiting | Approved | Rejected

  /** The listing filter a caller asks for (RequestStateEnum). */
  datatype RequestState = All | Past | Future | Current | Waiting | Rejected

  /** A user; two users are equal when name and email agree. */
  datatype User = User(name: string, email: string)

  /** An item request that an item may answer. */
  datatype ItemRequest = ItemRequest(id: int, description: string, requesterId: int, creationTime: int)

  /** An item offered for sharing; `ownerId` is the key of its owner. */
  datatype Item = Item(name: string, description: string, available: bool, ownerId: int,
                       request: Option<ItemRequest>)

  /** A booking of item `itemId` by user `bookerId` for the interval from `start` to `end`. */
  datatype Booking = Booking(start: int, end: int, itemId: int, bookerId: int,
                             status: BookingStatus, creationTime: int)

  /** The body of a booking request. */
  datatype BookingRequest = BookingRequest(itemId: int, start: int, end: int)

  /** BookingDtoResponse and its nested item and booker summaries. */
  datatype ItemSummary = ItemSummary(id: int, name: string, description: string, available: bool)
  datatype UserSummary = UserSummary(id: int, name: string, email: string)
  datatype BookingResponse = BookingResponse(id: int, start: int, end: int, item: ItemSummary,
                                             booker: UserSummary, status: BookingStatus)

  /** The short booking view attached to an item as its last or next booking. */
  datatype BookingDto = BookingDto(id: int, start: int, end: int, bookerId: int,
                                   status: BookingStatus, creationTime: int)

  /** CommentDto as the service returns it. */
  datatype CommentDto = CommentDto(text: string, authorName: string, created: int)

  /** ItemResponseDto: an item view with its optional booking annotation. */
  datatype ItemResponse = ItemResponse(id: int, name: string, description: string, available: bool,
                                       lastBooking: Option<BookingDto>, nextBooking: Option<BookingDto>,
                                       comments: seq<CommentDto>, requestId: Option<int>)

  /** ItemDto: in an update request a `None` field means "leave unchanged". */
  datatype ItemDto = ItemDto(id: Option<int>, name: Option<string>, description: Option<string>,
                             available: Option<bool>, requestId: Option<int>)

  /** UserDto: in an update request a `None` field means "leave unchanged". */
  datatype UserDto = UserDto(name: Option<string>, email: Option<string>)

  /** No two stored users share an email (the `unique` column constraint on `email`). */
  ghost predicate EmailsUnique(users: map<int, User>) {
    forall a, b :: a in users && b in users && users[a].email == users[b].email ==> a == b
  }

  /**
   * With unique emails, comparing stored users by value (as the services do) is the same
   * as comparing their ids.
   */
  lemma SameUserIffSameId(users: map<int, User>, a: int, b: int)
    requires EmailsUnique(users)
    requires a in users && b in users
    ensures users[a] == users[b] <==> a == b
  {
  }

  /**
   * Example (one fixed table, not a general property): without unique emails the value
   * comparison can confuse two different users.
   */
  lemma SameUserWithoutUniqueEmails()
    ensures var users := map[1 := User("ann", "a@x"), 2 := User("ann", "a@x")];
            users[1] == users[2] && !EmailsUnique(users)
  {
  }
}
