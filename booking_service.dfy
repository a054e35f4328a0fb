/**
 * BookingServiceImpl in its two versions. The server version (the one behind the gateway)
 * creates bookings without looking at the interval and pages its listings with
 * `from`/`size`; the earlier version checks the interval itself, after the other checks,
 * and returns whole sorted listings. Confirming, rejecting and reading a booking are the
 * same in both.
 */
module BookingService {
  import opened Common
  import opened Domain
  import opened Sequences
  import opened Store
  import opened BookingMapper
  import opened BookingRepository

  // ---------------------------------------------------------------------------------
  // Creation

  /**
   * The checks of `saveBooking` in the server version, in their order: the booker
   * exists, the item exists, the booker does not own it, it is available. The first
   * failing check decides the error; on success the result is the item to book.
   */
  function ServerCreateCheck(t: Tables, bookerId: int, request: BookingRequest): (r: Result<Item>)
    ensures r.Ok? <==> bookerId in t.users && t.HasItem(request.itemId) &&
                       t.ItemById(request.itemId).ownerId != bookerId && t.ItemById(request.itemId).available
    ensures r.Ok? ==> r.value == t.ItemById(request.itemId)
    ensures r.NotFound? <==> bookerId !in t.users || !t.HasItem(request.itemId) ||
                             t.ItemById(request.itemId).ownerId == bookerId
    ensures r.BadRequest? <==> bookerId in t.users && t.HasItem(request.itemId) &&
                               t.ItemById(request.itemId).ownerId != bookerId && !t.ItemById(request.itemId).available
  {
    if bookerId !in t.users then NotFound
    else if !t.HasItem(request.itemId) then NotFound
    else
      var item := t.ItemById(request.itemId);
      if bookerId == item.ownerId then NotFound
      else if !item.available then BadRequest
      else Ok(item)
  }

  /**
   * The checks of `saveBooking` in the earlier version: the same four, then the interval
   * (equal timestamps, or an end before the start, are a bad request).
   */
  function ValidatedCreateCheck(t: Tables, bookerId: int, request: BookingRequest): (r: Result<Item>)
    ensures !ServerCreateCheck(t, bookerId, request).Ok? ==> r == ServerCreateCheck(t, bookerId, request)
    ensures r.Ok? <==> ServerCreateCheck(t, bookerId, request).Ok? && request.start < request.end
    ensures ServerCreateCheck(t, bookerId, request).Ok? && !r.Ok? ==> r.BadRequest?
    ensures r.Ok? ==> r == ServerCreateCheck(t, bookerId, request)
  {
    var check := ServerCreateCheck(t, bookerId, request);
    if !check.Ok? then check
    else if request.start == request.end || request.end < request.start then BadRequest
    else check
  }

  /** The owner of an item can never book it. */
  lemma OwnerCannotBook(t: Tables, request: BookingRequest)
    requires t.HasItem(request.itemId)
    ensures ServerCreateCheck(t, t.ItemById(request.itemId).ownerId, request).NotFound?
    ensures ValidatedCreateCheck(t, t.ItemById(request.itemId).ownerId, request).NotFound?
  {
  }

  /** Appends the checked booking to the table and returns its response (`bookingRepository.save`). */
  method InsertBooking(db: Database, bookerId: int, request: BookingRequest, now: int) returns (r: Result<BookingResponse>)
    requires db.Valid()
    requires ServerCreateCheck(db.Snapshot(), bookerId, request).Ok?
    modifies db
    ensures db.Valid()
    ensures db.users == old(db.users) && db.items == old(db.items)
    ensures db.bookings == old(db.bookings) + [FromBookingDtoRequest(bookerId, request.itemId, request, now)]
    ensures r.Ok? && r.value.id == |db.bookings| && r.value.status == BookingStatus.Waiting
    ensures r == GetBooking(db.Snapshot(), bookerId, |db.bookings|)
  {
    ghost var before := db.Snapshot();
    var booking := FromBookingDtoRequest(bookerId, request.itemId, request, now);
    db.bookings := db.bookings + [booking];
    r := Ok(ResponseOf(db.Snapshot(), |db.bookings|));
    CreatedBookingVisible(before, bookerId, request, now, bookerId);
  }

  /** `saveBooking`, server version: no interval check (the gateway makes it). */
  method SaveBooking(db: Database, bookerId: int, request: BookingRequest, now: int) returns (r: Result<BookingResponse>)
    requires db.Valid()
    modifies db
    ensures db.Valid()
    ensures db.users == old(db.users) && db.items == old(db.items)
    ensures var check := ServerCreateCheck(old(db.Snapshot()), bookerId, request);
            (r.Ok? <==> check.Ok?) && (!check.Ok? ==> r == check.Propagate() && db.bookings == old(db.bookings))
    ensures r.Ok? ==> db.bookings == old(db.bookings) + [FromBookingDtoRequest(bookerId, request.itemId, request, now)]
    ensures r.Ok? ==> r.value.id == |db.bookings| && r.value.status == BookingStatus.Waiting
    ensures r.Ok? ==> r.value == ResponseOf(db.Snapshot(), |db.bookings|)
  {
    var check := ServerCreateCheck(db.Snapshot(), bookerId, request);
    if !check.Ok? {
      return check.Propagate();
    }
    r := InsertBooking(db, bookerId, request, now);
  }

  /** `saveBooking`, earlier version: the interval is checked last. */
  method SaveBookingValidated(db: Database, bookerId: int, request: BookingRequest, now: int)
    returns (r: Result<BookingResponse>)
    requires db.Valid()
    modifies db
    ensures db.Valid()
    ensures db.users == old(db.users) && db.items == old(db.items)
    ensures var check := ValidatedCreateCheck(old(db.Snapshot()), bookerId, request);
            (r.Ok? <==> check.Ok?) && (!check.Ok? ==> r == check.Propagate() && db.bookings == old(db.bookings))
    ensures r.Ok? ==> db.bookings == old(db.bookings) + [FromBookingDtoRequest(bookerId, request.itemId, request, now)]
    ensures r.Ok? ==> r.value.id == |db.bookings| && r.value.status == BookingStatus.Waiting
    ensures r.Ok? ==> r.value == ResponseOf(db.Snapshot(), |db.bookings|)
    ensures r.Ok? ==> db.bookings[|db.bookings| - 1].start < db.bookings[|db.bookings| - 1].end
  {
    var check := ValidatedCreateCheck(db.Snapshot(), bookerId, request);
    if !check.Ok? {
      return check.Propagate();
    }
    r := InsertBooking(db, bookerId, request, now);
  }

  // ---------------------------------------------------------------------------------
  // Reading one booking

  /** Whether `requester` equals (by name and email) the booking's booker or its item's owner. */
  predicate CanView(t: Tables, requester: User, b: Booking) {
    || (b.bookerId in t.users && requester == t.users[b.bookerId])
    || (t.HasItem(b.itemId) && t.OwnerOf(b) in t.users && requester == t.users[t.OwnerOf(b)])
  }

  /** The response view of the stored booking `id`. */
  function ResponseOf(t: Tables, id: int): (r: BookingResponse)
    requires t.Valid() && t.HasBooking(id)
    ensures r.id == id && r.status == t.BookingById(id).status
    ensures r.start == t.BookingById(id).start && r.end == t.BookingById(id).end
    ensures r.item.id == t.BookingById(id).itemId && r.booker.id == t.BookingById(id).bookerId
  {
    var b := t.BookingById(id);
    ToBookingDtoResponse(id, b, t.ItemById(b.itemId), t.users[b.bookerId])
  }

  /** `getBooking`: the booking, visible only to its booker and its item's owner. */
  function GetBooking(t: Tables, userId: int, bookingId: int): (r: Result<BookingResponse>)
    requires t.Valid()
    ensures r.Ok? || r.NotFound?
    ensures r.Ok? <==> userId in t.users && t.HasBooking(bookingId) &&
                       CanView(t, t.users[userId], t.BookingById(bookingId))
    ensures r.Ok? ==> r.value == ResponseOf(t, bookingId)
  {
    if userId !in t.users then NotFound
    else if !t.HasBooking(bookingId) then NotFound
    else
      var requester := t.users[userId];
      var b := t.BookingById(bookingId);
      if requester != t.users[b.bookerId] && requester != t.users[t.OwnerOf(b)] then NotFound
      else Ok(ResponseOf(t, bookingId))
  }

  /** With unique emails, visibility is decided by ids: booker or item owner. */
  lemma GetBookingByIds(t: Tables, userId: int, bookingId: int)
    requires t.Valid() && EmailsUnique(t.users)
    requires userId in t.users && t.HasBooking(bookingId)
    ensures GetBooking(t, userId, bookingId).Ok? <==>
            userId == t.BookingById(bookingId).bookerId || userId == t.OwnerOf(t.BookingById(bookingId))
  {
    var b := t.BookingById(bookingId);
    SameUserIffSameId(t.users, userId, b.bookerId);
    SameUserIffSameId(t.users, userId, t.OwnerOf(b));
  }

  /**
   * Creating a booking and reading it back: the booker and the item's owner both get the
   * response the creation returned; any user equal to neither gets NotFound.
   */
  lemma CreatedBookingVisible(t: Tables, bookerId: int, request: BookingRequest, now: int, viewer: int)
    requires t.Valid() && ServerCreateCheck(t, bookerId, request).Ok?
    requires viewer in t.users
    ensures var booking := FromBookingDtoRequest(bookerId, request.itemId, request, now);
            var t' := t.(bookings := t.bookings + [booking]);
            var id := |t'.bookings|;
            var ownerId := t.ItemById(request.itemId).ownerId;
            var response := ToBookingDtoResponse(id, booking, t.ItemById(request.itemId), t.users[bookerId]);
            && t'.Valid()
            && GetBooking(t', bookerId, id) == Ok(response)
            && GetBooking(t', ownerId, id) == Ok(response)
            && (t.users[viewer] != t.users[bookerId] && t.users[viewer] != t.users[ownerId] ==>
                  GetBooking(t', viewer, id) == NotFound)
  {
    var booking := FromBookingDtoRequest(bookerId, request.itemId, request, now);
    var t' := t.(bookings := t.bookings + [booking]);
    assert t'.BookingById(|t'.bookings|) == booking;
    assert t'.Valid() by {
      forall j | 0 <= j < |t'.bookings|
        ensures t'.HasItem(t'.bookings[j].itemId) && t'.bookings[j].bookerId in t'.users
      {
        if j < |t.bookings| {
          assert t'.bookings[j] == t.bookings[j];
        }
      }
    }
  }

  // ---------------------------------------------------------------------------------
  // Confirming or rejecting

  /**
   * The checks of `considerBooking`, in their order: the decider exists, the booking
   * exists, it is still WAITING (BadRequest otherwise, whoever asks), and the decider
   * equals its item's owner. On success the result is the stored booking.
   */
  function ConsiderCheck(t: Tables, deciderId: int, bookingId: int): (r: Result<Booking>)
    requires t.Valid()
    ensures r.Ok? || r.NotFound? || r.BadRequest?
    ensures r.BadRequest? <==> deciderId in t.users && t.HasBooking(bookingId) &&
                               t.BookingById(bookingId).status != BookingStatus.Waiting
    ensures r.Ok? <==> deciderId in t.users && t.HasBooking(bookingId) &&
                       t.BookingById(bookingId).status == BookingStatus.Waiting &&
                       t.users[deciderId] == t.users[t.OwnerOf(t.BookingById(bookingId))]
    ensures r.Ok? ==> r.value == t.BookingById(bookingId)
  {
    if deciderId !in t.users then NotFound
    else if !t.HasBooking(bookingId) then NotFound
    else
      var b := t.BookingById(bookingId);
      if b.status != BookingStatus.Waiting then BadRequest
      else if t.users[deciderId] != t.users[t.OwnerOf(b)] then NotFound
      else Ok(b)
  }

  /** The booking after the owner's decision: APPROVED or REJECTED, nothing else changed. */
  function Decide(b: Booking, approved: bool): (d: Booking)
    ensures d.status == if approved then BookingStatus.Approved else BookingStatus.Rejected
    ensures d.start == b.start && d.end == b.end && d.itemId == b.itemId && d.bookerId == b.bookerId
    ensures d.creationTime == b.creationTime
  {
    b.(status := if approved then BookingStatus.Approved else BookingStatus.Rejected)
  }

  /** `considerBooking`: sets the status of the fetched booking in place and saves it. */
  method ConsiderBooking(db: Database, deciderId: int, approved: bool, bookingId: int)
    returns (r: Result<BookingResponse>)
    requires db.Valid()
    modifies db
    ensures db.Valid()
    ensures db.users == old(db.users) && db.items == old(db.items) && |db.bookings| == |old(db.bookings)|
    ensures var check := ConsiderCheck(old(db.Snapshot()), deciderId, bookingId);
            (r.Ok? <==> check.Ok?) && (!check.Ok? ==> r == check.Propagate() && db.bookings == old(db.bookings))
    ensures r.Ok? ==> db.bookings == old(db.bookings)[bookingId - 1 := Decide(old(db.bookings)[bookingId - 1], approved)]
    ensures r.Ok? ==> r.value == ResponseOf(db.Snapshot(), bookingId)
  {
    var check := ConsiderCheck(db.Snapshot(), deciderId, bookingId);
    if !check.Ok? {
      return check.Propagate();
    }
    var booking := check.value;
    if approved {
      booking := booking.(status := BookingStatus.Approved);
    } else {
      booking := booking.(status := BookingStatus.Rejected);
    }
    DecisionKeepsValid(db.Snapshot(), bookingId, booking);
    db.bookings := db.bookings[bookingId - 1 := booking];
    r := Ok(ResponseOf(db.Snapshot(), bookingId));
  }

  /** Replacing a booking by one with the same item and booker keeps the tables consistent. */
  lemma DecisionKeepsValid(t: Tables, bookingId: int, b: Booking)
    requires t.Valid() && t.HasBooking(bookingId)
    requires b.itemId == t.BookingById(bookingId).itemId && b.bookerId == t.BookingById(bookingId).bookerId
    ensures t.(bookings := t.bookings[bookingId - 1 := b]).Valid()
  {
    var t' := t.(bookings := t.bookings[bookingId - 1 := b]);
    forall j | 0 <= j < |t'.bookings|
      ensures t'.HasItem(t'.bookings[j].itemId) && t'.bookings[j].bookerId in t'.users
    {
      if j != bookingId - 1 {
        assert t'.bookings[j] == t.bookings[j];
      }
    }
  }

  /**
   * APPROVED and REJECTED are final: once a decision is stored, every further decision on
   * that booking fails, with BadRequest for any existing user and either outcome.
   */
  lemma DecisionIsFinal(t: Tables, deciderId: int, approved: bool, bookingId: int, otherId: int)
    requires t.Valid() && ConsiderCheck(t, deciderId, bookingId).Ok?
    ensures var t' := t.(bookings := t.bookings[bookingId - 1 := Decide(t.BookingById(bookingId), approved)]);
            t'.Valid() &&
            ConsiderCheck(t', otherId, bookingId) == (if otherId in t.users then BadRequest else NotFound)
  {
    var b := t.BookingById(bookingId);
    DecisionKeepsValid(t, bookingId, Decide(b, approved));
  }

  /**
   * With unique emails, a user other than the item's owner gets NotFound on a WAITING
   * booking, so nothing is saved.
   */
  lemma NonOwnerCannotDecide(t: Tables, deciderId: int, bookingId: int)
    requires t.Valid() && EmailsUnique(t.users)
    requires deciderId in t.users && t.HasBooking(bookingId)
    requires t.BookingById(bookingId).status == BookingStatus.Waiting
    requires deciderId != t.OwnerOf(t.BookingById(bookingId))
    ensures ConsiderCheck(t, deciderId, bookingId) == NotFound
  {
    SameUserIffSameId(t.users, deciderId, t.OwnerOf(t.BookingById(bookingId)));
  }

  // ---------------------------------------------------------------------------------
  // Listing

  /** Whose bookings a listing shows: the caller's own, or those of the caller's items. */
  datatype Role = AsBooker | AsOwner

  /** The `switch (state)` of the listing methods: which repository query each state runs. */
  function QueryFor(role: Role, state: RequestState): (q: Query)
    ensures q.ByOwner() <==> role == AsOwner
  {
    match (role, state)
    case (AsBooker, All) => FindByBooker
    case (AsBooker, Past) => FindByBookerAndEndBefore
    case (AsBooker, Future) => FindByBookerAndStartAfter
    case (AsBooker, Current) => FindAllWithCurrentState
    case (AsBooker, Waiting) => FindByBookerAndStatus(BookingStatus.Waiting)
    case (AsBooker, Rejected) => FindByBookerAndStatus(BookingStatus.Rejected)
    case (AsOwner, All) => FindByItemOwner
    case (AsOwner, Past) => FindByItemOwnerAndEndBefore
    case (AsOwner, Future) => FindByItemOwnerAndStartAfter
    case (AsOwner, Current) => FindAllItemsBookingWithCurrentState
    case (AsOwner, Waiting) => FindByItemOwnerAndStatus(BookingStatus.Waiting)
    case (AsOwner, Rejected) => FindByItemOwnerAndStatus(BookingStatus.Rejected)
  }

  /** Different states run different queries. */
  lemma QueryForInjective(role: Role, s1: RequestState, s2: RequestState)
    requires QueryFor(role, s1) == QueryFor(role, s2)
    ensures s1 == s2
  {
  }

  /** The listing order: creation time ascending for CURRENT, descending for every other state. */
  function SortFor(state: RequestState): (d: Direction)
    ensures d == Asc <==> state == RequestState.Current
    ensures d == Desc <==> state != RequestState.Current
  {
    if state == RequestState.Current then Asc else Desc
  }

  /** The six views by their meaning: a time window or a status. */
  predicate InBucket(state: RequestState, b: Booking, now: int) {
    match state
    case All => true
    case Past => b.end < now
    case Future => b.start > now
    case Current => b.start <= now <= b.end
    case Waiting => b.status == BookingStatus.Waiting
    case Rejected => b.status == BookingStatus.Rejected
  }

  /** The party a listing is about: the booker, or the owner of the booked item. */
  predicate Party(role: Role, items: seq<Item>, user: int, b: Booking) {
    match role
    case AsBooker => b.bookerId == user
    case AsOwner => OwnedBy(items, b, user)
  }

  /**
   * For a booking whose start is not after its end, the query chosen for a state selects
   * exactly the bookings of the party that fall in that state's view.
   */
  lemma QueryForMeansBucket(role: Role, state: RequestState, items: seq<Item>, user: int, b: Booking, now: int)
    requires b.start <= b.end
    ensures Holds(QueryFor(role, state), items, user, b, now) <==> Party(role, items, user, b) && InBucket(state, b, now)
  {
    if role == AsBooker && state == RequestState.Current {
      CurrentStartClauseRedundant(b, now);
    }
  }

  /** The responses of the given stored rows. */
  function Responses(t: Tables, rows: seq<Row<Booking>>): (rs: seq<BookingResponse>)
    requires t.Valid()
    requires forall row :: row in rows ==> t.HasBooking(row.id)
    ensures |rs| == |rows|
    ensures forall k :: 0 <= k < |rows| ==> rs[k] == ResponseOf(t, rows[k].id)
  {
    seq(|rows|, k requires 0 <= k < |rows| => ResponseOf(t, rows[k].id))
  }

  /**
   * `rs` lists the bookings query `q` selects for `user` at `now`: every entry is the view
   * of a stored booking the query selects, every such booking appears exactly once, and
   * the entries are ordered by creation time in direction `dir`.
   */
  ghost predicate Lists(t: Tables, rs: seq<BookingResponse>, q: Query, user: int, now: int, dir: Direction)
    requires t.Valid()
  {
    && (forall k :: 0 <= k < |rs| ==>
          t.HasBooking(rs[k].id) && rs[k] == ResponseOf(t, rs[k].id) &&
          Holds(q, t.items, user, t.BookingById(rs[k].id), now))
    && (forall id :: t.HasBooking(id) && Holds(q, t.items, user, t.BookingById(id), now) ==>
          exists k :: 0 <= k < |rs| && rs[k].id == id)
    && (forall i, j :: 0 <= i < j < |rs| ==> rs[i].id != rs[j].id)
    && (forall i, j :: 0 <= i < j < |rs| && t.HasBooking(rs[i].id) && t.HasBooking(rs[j].id) ==>
          InOrder(t.BookingById(rs[i].id).creationTime, t.BookingById(rs[j].id).creationTime, dir))
  }

  /** Every row of a query's result is a stored booking under its own id. */
  lemma FindRowsStored(t: Tables, q: Query, user: int, now: int, dir: Direction)
    ensures var rows := Find(q, t.items, t.bookings, user, now, dir);
            forall k :: 0 <= k < |rows| ==>
              t.HasBooking(rows[k].id) && rows[k].value == t.BookingById(rows[k].id) &&
              Holds(q, t.items, user, rows[k].value, now)
  {
    var rows := Find(q, t.items, t.bookings, user, now, dir);
    forall k | 0 <= k < |rows|
      ensures t.HasBooking(rows[k].id) && rows[k].value == t.BookingById(rows[k].id)
    {
      assert rows[k] in rows;
    }
  }

  /** Every stored booking the query selects is in its result. */
  lemma FindComplete(t: Tables, q: Query, user: int, now: int, dir: Direction, id: int)
    requires t.HasBooking(id) && Holds(q, t.items, user, t.BookingById(id), now)
    ensures var rows := Find(q, t.items, t.bookings, user, now, dir);
            exists k :: 0 <= k < |rows| && rows[k].id == id
  {
    var rows := Find(q, t.items, t.bookings, user, now, dir);
    var row := Row(id, t.BookingById(id));
    assert row in Rows(t.bookings);
    assert row in rows;
  }

  /** The rows of a query's result carry distinct ids. */
  lemma FindDistinctIds(t: Tables, q: Query, user: int, now: int, dir: Direction)
    ensures var rows := Find(q, t.items, t.bookings, user, now, dir);
            forall i, j :: 0 <= i < j < |rows| ==> rows[i].id != rows[j].id
  {
    var rows := Find(q, t.items, t.bookings, user, now, dir);
    FindNoDuplicates(q, t.items, t.bookings, user, now, dir);
    FindRowsStored(t, q, user, now, dir);
  }

  /**
   * Rows that are stored bookings the query selects, all of them, each once and in
   * creation order, have responses that list the query's bookings.
   */
  lemma ResponsesList(t: Tables, rows: seq<Row<Booking>>, q: Query, user: int, now: int, dir: Direction)
    requires t.Valid()
    requires forall k :: 0 <= k < |rows| ==>
               t.HasBooking(rows[k].id) && rows[k].value == t.BookingById(rows[k].id) &&
               Holds(q, t.items, user, rows[k].value, now)
    requires forall id :: t.HasBooking(id) && Holds(q, t.items, user, t.BookingById(id), now) ==>
               exists k :: 0 <= k < |rows| && rows[k].id == id
    requires forall i, j :: 0 <= i < j < |rows| ==> rows[i].id != rows[j].id
    requires SortedBy(rows, CreationKey, dir)
    ensures forall row :: row in rows ==> t.HasBooking(row.id)
    ensures Lists(t, Responses(t, rows), q, user, now, dir)
  {
    var rs := Responses(t, rows);
    forall id | t.HasBooking(id) && Holds(q, t.items, user, t.BookingById(id), now)
      ensures exists k :: 0 <= k < |rs| && rs[k].id == id
    {
      var k :| 0 <= k < |rows| && rows[k].id == id;
      assert rs[k].id == id;
    }
    forall i, j | 0 <= i < j < |rs|
      ensures InOrder(t.BookingById(rs[i].id).creationTime, t.BookingById(rs[j].id).creationTime, dir)
    {
      assert InOrder(CreationKey(rows[i]), CreationKey(rows[j]), dir);
    }
  }

  /** The responses of a query's result list exactly that query's bookings. */
  lemma FindLists(t: Tables, q: Query, user: int, now: int, dir: Direction)
    requires t.Valid()
    ensures var rows := Find(q, t.items, t.bookings, user, now, dir);
            (forall row :: row in rows ==> t.HasBooking(row.id)) &&
            Lists(t, Responses(t, rows), q, user, now, dir)
  {
    var rows := Find(q, t.items, t.bookings, user, now, dir);
    FindRowsStored(t, q, user, now, dir);
    FindDistinctIds(t, q, user, now, dir);
    forall id | t.HasBooking(id) && Holds(q, t.items, user, t.BookingById(id), now)
      ensures exists k :: 0 <= k < |rows| && rows[k].id == id
    {
      FindComplete(t, q, user, now, dir, id);
    }
    ResponsesList(t, rows, q, user, now, dir);
  }

  /** `getAllUserBookings`, earlier version: the caller's bookings in the chosen view, whole and sorted. */
  function UserBookings(t: Tables, userId: int, state: RequestState, now: int): (r: Result<seq<BookingResponse>>)
    requires t.Valid()
    ensures r.Ok? || r.NotFound?
    ensures r.NotFound? <==> userId !in t.users
    ensures r.Ok? ==> Lists(t, r.value, QueryFor(AsBooker, state), userId, now, SortFor(state))
  {
    if userId !in t.users then NotFound
    else
      FindLists(t, QueryFor(AsBooker, state), userId, now, SortFor(state));
      Ok(Responses(t, Find(QueryFor(AsBooker, state), t.items, t.bookings, userId, now, SortFor(state))))
  }

  /**
   * `getAllItemsBooking`, earlier version: the bookings of the caller's items in the
   * chosen view. A caller who owns no items gets an empty list before any booking query;
   * that list is also what the query would have returned.
   */
  function ItemsBookings(t: Tables, userId: int, state: RequestState, now: int): (r: Result<seq<BookingResponse>>)
    requires t.Valid()
    ensures r.Ok? || r.NotFound?
    ensures r.NotFound? <==> userId !in t.users
    ensures userId in t.users && !t.OwnsAnyItem(userId) ==> r == Ok([])
    ensures r.Ok? ==> Lists(t, r.value, QueryFor(AsOwner, state), userId, now, SortFor(state))
  {
    if userId !in t.users then NotFound
    else if !t.OwnsAnyItem(userId) then
      assert forall id :: t.HasBooking(id) ==> !Holds(QueryFor(AsOwner, state), t.items, userId, t.BookingById(id), now) by {
        forall id | t.HasBooking(id) && Holds(QueryFor(AsOwner, state), t.items, userId, t.BookingById(id), now)
          ensures false
        {
          OwnerQueryNeedsOwnedItem(QueryFor(AsOwner, state), t, userId, t.BookingById(id), now);
        }
      }
      Ok([])
    else
      FindLists(t, QueryFor(AsOwner, state), userId, now, SortFor(state));
      Ok(Responses(t, Find(QueryFor(AsOwner, state), t.items, t.bookings, userId, now, SortFor(state))))
  }

  /**
   * `getAllUserBookings`, server version: page `from / size` of `size` entries. It is
   * exactly that page of the earlier version's whole listing.
   */
  function UserBookingsPage(t: Tables, userId: int, state: RequestState, from: nat, size: nat, now: int)
    : (r: Result<seq<BookingResponse>>)
    requires t.Valid() && size > 0
    ensures r.Ok? || r.NotFound?
    ensures r.NotFound? <==> userId !in t.users
    ensures r.Ok? ==> |r.value| <= size && r.value == Page(UserBookings(t, userId, state, now).value, from, size)
  {
    if userId !in t.users then NotFound
    else
      var rows := Find(QueryFor(AsBooker, state), t.items, t.bookings, userId, now, SortFor(state));
      FindLists(t, QueryFor(AsBooker, state), userId, now, SortFor(state));
      PagedResponses(t, rows, from, size);
      Ok(Responses(t, Page(rows, from, size)))
  }

  /**
   * `getAllItemsBooking`, server version: the same short-circuit, then one page of the
   * earlier version's whole listing.
   */
  function ItemsBookingsPage(t: Tables, userId: int, state: RequestState, from: nat, size: nat, now: int)
    : (r: Result<seq<BookingResponse>>)
    requires t.Valid() && size > 0
    ensures r.Ok? || r.NotFound?
    ensures r.NotFound? <==> userId !in t.users
    ensures userId in t.users && !t.OwnsAnyItem(userId) ==> r == Ok([])
    ensures r.Ok? ==> |r.value| <= size && r.value == Page(ItemsBookings(t, userId, state, now).value, from, size)
  {
    if userId !in t.users then NotFound
    else if !t.OwnsAnyItem(userId) then Ok([])
    else
      var rows := Find(QueryFor(AsOwner, state), t.items, t.bookings, userId, now, SortFor(state));
      FindLists(t, QueryFor(AsOwner, state), userId, now, SortFor(state));
      PagedResponses(t, rows, from, size);
      Ok(Responses(t, Page(rows, from, size)))
  }

  /** Paging the rows and then converting them is paging the converted list. */
  lemma PagedResponses(t: Tables, rows: seq<Row<Booking>>, from: nat, size: nat)
    requires t.Valid() && size > 0
    requires forall row :: row in rows ==> t.HasBooking(row.id)
    ensures forall row :: row in Page(rows, from, size) ==> t.HasBooking(row.id)
    ensures Responses(t, Page(rows, from, size)) == Page(Responses(t, rows), from, size)
  {
    var page := Page(rows, from, size);
    forall row | row in page
      ensures t.HasBooking(row.id)
    {
      var k :| 0 <= k < |page| && page[k] == row;
      assert rows[PageOffset(from, size) + k] == row;
    }
    var whole := Responses(t, rows);
    var paged := Page(whole, from, size);
    assert |paged| == |page|;
    forall k | 0 <= k < |page|
      ensures paged[k] == ResponseOf(t, page[k].id)
    {
    }
  }
}
