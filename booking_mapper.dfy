/** Conversions between bookings, booking requests and booking views (BookingMapper). */
module BookingMapper {
  import opened Domain

  /**
   * A new booking built from a request: the request's interval, the looked-up item and
   * booker, status WAITING and creation time `now` (the clock read at mapping time). It has
   * no id until it is saved.
   */
  function FromBookingDtoRequest(bookerId: int, itemId: int, request: BookingRequest, now: int): (b: Booking)
    ensures b.status == BookingStatus.Waiting
    ensures b.creationTime == now
    ensures b.start == request.start && b.end == request.end
    ensures b.itemId == itemId && b.bookerId == bookerId
  {
    Booking(request.start, request.end, itemId, bookerId, BookingStatus.Waiting, now)
  }

  /** The response view of the booking stored under `id`, with item and booker summaries. */
  function ToBookingDtoResponse(id: int, b: Booking, item: Item, booker: User): (r: BookingResponse)
    ensures r.id == id && r.start == b.start && r.end == b.end && r.status == b.status
    ensures r.item == ItemSummary(b.itemId, item.name, item.description, item.available)
    ensures r.booker == UserSummary(b.bookerId, booker.name, booker.email)
  {
    BookingResponse(id, b.start, b.end,
                    ItemSummary(b.itemId, item.name, item.description, item.available),
                    UserSummary(b.bookerId, booker.name, booker.email),
                    b.status)
  }

  /** The short view used for an item's last and next booking. */
  function ToBookingDto(id: int, b: Booking): (d: BookingDto)
    ensures d.id == id && d.start == b.start && d.end == b.end && d.bookerId == b.bookerId
    ensures d.status == b.status && d.creationTime == b.creationTime
  {
    BookingDto(id, b.start, b.end, b.bookerId, b.status, b.creationTime)
  }

  /**
   * The response to a freshly created booking reports the request back: its interval, the
   * item and booker it names, and status WAITING. Two requests with the same response were
   * for the same interval, item and booker.
   */
  lemma NewBookingResponse(id: int, bookerId: int, request: BookingRequest, item: Item, booker: User, now: int)
    ensures var r := ToBookingDtoResponse(id, FromBookingDtoRequest(bookerId, request.itemId, request, now), item, booker);
            r.id == id && r.start == request.start && r.end == request.end &&
            r.status == BookingStatus.Waiting && r.item.id == request.itemId &&
            r.booker == UserSummary(bookerId, booker.name, booker.email)
  {
  }
}
