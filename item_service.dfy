/**
 * ItemServiceImpl over the database tables: reading and updating items, annotating an
 * item with its last and next booking for its owner, the "booked and finished" gate for
 * comments, text search and the owner's item list.
 */
module ItemService {
  import opened Common
  import opened Domain
  import opened Sequences
  import opened Store
  import opened BookingMapper
  import opened BookingRepository
  import opened ItemMapper
  import opened TextSearch
  import opened Updates

  // ---------------------------------------------------------------------------------
  // Last and next booking

  /** A booking that counts as the item's past one at `now`: started before it, not rejected. */
  predicate IsPast(b: Booking, now: int) {
    b.start < now && b.status != BookingStatus.Rejected
  }

  /** A booking that counts as the item's next one at `now`: starts after it, not rejected. */
  predicate IsNext(b: Booking, now: int) {
    b.start > now && b.status != BookingStatus.Rejected
  }

  function PastMatcher(now: int): Row<Booking> -> bool {
    (row: Row<Booking>) => IsPast(row.value, now)
  }

  function NextMatcher(now: int): Row<Booking> -> bool {
    (row: Row<Booking>) => IsNext(row.value, now)
  }

  /**
   * The last element of the start-ordered bookings that started before `now` and are not
   * rejected: one whose start is the latest among them.
   */
  function LastBooking(rows: seq<Row<Booking>>, now: int): (r: Option<Row<Booking>>)
    requires SortedBy(rows, StartKey, Asc)
    ensures r.None? <==> forall row :: row in rows ==> !IsPast(row.value, now)
    ensures r.Some? ==> r.value in rows && IsPast(r.value.value, now)
    ensures r.Some? ==> forall row :: row in rows && IsPast(row.value, now) ==> row.value.start <= r.value.value.start
  {
    var past := Filter(rows, PastMatcher(now));
    FilterKeepsOrder(rows, PastMatcher(now), StartKey, Asc);
    if past == [] then None
    else
      assert forall row :: row in past ==> row.value.start <= past[|past| - 1].value.start by {
        forall row | row in past
          ensures row.value.start <= past[|past| - 1].value.start
        {
          var k :| 0 <= k < |past| && past[k] == row;
          if k < |past| - 1 {
            assert InOrder(StartKey(past[k]), StartKey(past[|past| - 1]), Asc);
          }
        }
      }
      assert past[|past| - 1] in past;
      Some(past[|past| - 1])
  }

  /**
   * The first element of the start-ordered bookings that start after `now` and are not
   * rejected: one whose start is the earliest among them.
   */
  function NextBooking(rows: seq<Row<Booking>>, now: int): (r: Option<Row<Booking>>)
    requires SortedBy(rows, StartKey, Asc)
    ensures r.None? <==> forall row :: row in rows ==> !IsNext(row.value, now)
    ensures r.Some? ==> r.value in rows && IsNext(r.value.value, now)
    ensures r.Some? ==> forall row :: row in rows && IsNext(row.value, now) ==> r.value.value.start <= row.value.start
  {
    var next := Filter(rows, NextMatcher(now));
    FilterKeepsOrder(rows, NextMatcher(now), StartKey, Asc);
    if next == [] then None
    else
      assert forall row :: row in next ==> next[0].value.start <= row.value.start by {
        forall row | row in next
          ensures next[0].value.start <= row.value.start
        {
          var k :| 0 <= k < |next| && next[k] == row;
          if k > 0 {
            assert InOrder(StartKey(next[0]), StartKey(next[k]), Asc);
          }
        }
      }
      assert next[0] in next;
      Some(next[0])
  }

  /** A booking starting exactly at `now` is neither the last nor the next one. */
  lemma StartingNowIsNeither(rows: seq<Row<Booking>>, now: int)
    requires SortedBy(rows, StartKey, Asc)
    ensures LastBooking(rows, now).Some? ==> LastBooking(rows, now).value.value.start != now
    ensures NextBooking(rows, now).Some? ==> NextBooking(rows, now).value.value.start != now
  {
  }

  /**
   * Example data for `LastAndNextExample`: bookings of one item starting at -2, -1
   * (rejected), 0 and 1, in start order.
   */
  function ExampleRows(item: int, booker: int): (rows: seq<Row<Booking>>)
    ensures SortedBy(rows, StartKey, Asc)
  {
    [Row(1, Booking(-2, -1, item, booker, BookingStatus.Approved, 0)),
     Row(2, Booking(-1, 3, item, booker, BookingStatus.Rejected, 0)),
     Row(3, Booking(0, 4, item, booker, BookingStatus.Waiting, 0)),
     Row(4, Booking(1, 5, item, booker, BookingStatus.Waiting, 0))]
  }

  /**
   * Example (fixed data, not a general property): at time 0 the last booking is the one
   * starting at -2 (the later one at -1 is rejected and the one at 0 has not started
   * before now), and the next one is the one starting at 1.
   */
  lemma LastAndNextExample(item: int, booker: int)
    ensures LastBooking(ExampleRows(item, booker), 0) == Some(ExampleRows(item, booker)[0])
    ensures NextBooking(ExampleRows(item, booker), 0) == Some(ExampleRows(item, booker)[3])
  {
    var rows := ExampleRows(item, booker);
    assert rows[0] in rows && IsPast(rows[0].value, 0);
    assert rows[3] in rows && IsNext(rows[3].value, 0);
  }

  /** A stored booking of item `itemId` that is past at `now`. */
  predicate StoredPast(t: Tables, itemId: int, id: int, now: int) {
    t.HasBooking(id) && t.BookingById(id).itemId == itemId && IsPast(t.BookingById(id), now)
  }

  /** A stored booking of item `itemId` that is next at `now`. */
  predicate StoredNext(t: Tables, itemId: int, id: int, now: int) {
    t.HasBooking(id) && t.BookingById(id).itemId == itemId && IsNext(t.BookingById(id), now)
  }

  /**
   * `findByItem_Id(itemId, start ascending)`: the item's stored bookings under their ids,
   * ordered by start.
   */
  function ItemRows(t: Tables, itemId: int): (rows: seq<Row<Booking>>)
    ensures SortedBy(rows, StartKey, Asc)
    ensures forall row :: row in rows ==>
              t.HasBooking(row.id) && row.value == t.BookingById(row.id) && row.value.itemId == itemId
    ensures forall id :: t.HasBooking(id) && t.BookingById(id).itemId == itemId ==> Row(id, t.BookingById(id)) in rows
  {
    FindByItemId(t.bookings, itemId, Asc)
  }

  /** The item's last booking at `now` among the stored bookings, by id. */
  function ItemLast(t: Tables, itemId: int, now: int): (r: Option<Row<Booking>>)
    ensures r.None? <==> forall id :: !StoredPast(t, itemId, id, now)
    ensures r.Some? ==> StoredPast(t, itemId, r.value.id, now) && r.value.value == t.BookingById(r.value.id)
    ensures r.Some? ==> forall id :: StoredPast(t, itemId, id, now) ==> t.BookingById(id).start <= r.value.value.start
  {
    var rows := ItemRows(t, itemId);
    var r := LastBooking(rows, now);
    assert r.Some? ==> StoredPast(t, itemId, r.value.id, now) && r.value.value == t.BookingById(r.value.id) by {
      if r.Some? {
        assert r.value in rows;
      }
    }
    assert r.None? ==> forall id :: !StoredPast(t, itemId, id, now) by {
      forall id | StoredPast(t, itemId, id, now)
        ensures r.Some?
      {
        assert Row(id, t.BookingById(id)) in rows;
      }
    }
    assert r.Some? ==> forall id :: StoredPast(t, itemId, id, now) ==> t.BookingById(id).start <= r.value.value.start by {
      if r.Some? {
        forall id | StoredPast(t, itemId, id, now)
          ensures t.BookingById(id).start <= r.value.value.start
        {
          assert Row(id, t.BookingById(id)) in rows;
        }
      }
    }
    r
  }

  /** The item's next booking at `now` among the stored bookings, by id. */
  function ItemNext(t: Tables, itemId: int, now: int): (r: Option<Row<Booking>>)
    ensures r.None? <==> forall id :: !StoredNext(t, itemId, id, now)
    ensures r.Some? ==> StoredNext(t, itemId, r.value.id, now) && r.value.value == t.BookingById(r.value.id)
    ensures r.Some? ==> forall id :: StoredNext(t, itemId, id, now) ==> r.value.value.start <= t.BookingById(id).start
  {
    var rows := ItemRows(t, itemId);
    var r := NextBooking(rows, now);
    assert r.Some? ==> StoredNext(t, itemId, r.value.id, now) && r.value.value == t.BookingById(r.value.id) by {
      if r.Some? {
        assert r.value in rows;
      }
    }
    assert r.None? ==> forall id :: !StoredNext(t, itemId, id, now) by {
      forall id | StoredNext(t, itemId, id, now)
        ensures r.Some?
      {
        assert Row(id, t.BookingById(id)) in rows;
      }
    }
    assert r.Some? ==> forall id :: StoredNext(t, itemId, id, now) ==> r.value.value.start <= t.BookingById(id).start by {
      if r.Some? {
        forall id | StoredNext(t, itemId, id, now)
          ensures r.value.value.start <= t.BookingById(id).start
        {
          assert Row(id, t.BookingById(id)) in rows;
        }
      }
    }
    r
  }

  /**
   * `loadBookings`: sets the response's last booking to the latest-starting past booking
   * of the item and its next booking to the earliest-starting future one; a slot with no
   * candidate keeps its value. Nothing else in the response changes.
   */
  function LoadBookings(t: Tables, response: ItemResponse, now: int): (r: ItemResponse)
    ensures r.(lastBooking := response.lastBooking, nextBooking := response.nextBooking) == response
    ensures (forall id :: !StoredPast(t, response.id, id, now)) ==> r.lastBooking == response.lastBooking
    ensures (exists id :: StoredPast(t, response.id, id, now)) ==>
              && r.lastBooking.Some?
              && StoredPast(t, response.id, r.lastBooking.value.id, now)
              && r.lastBooking.value == ToBookingDto(r.lastBooking.value.id, t.BookingById(r.lastBooking.value.id))
              && forall id :: StoredPast(t, response.id, id, now) ==>
                   t.BookingById(id).start <= t.BookingById(r.lastBooking.value.id).start
    ensures (forall id :: !StoredNext(t, response.id, id, now)) ==> r.nextBooking == response.nextBooking
    ensures (exists id :: StoredNext(t, response.id, id, now)) ==>
              && r.nextBooking.Some?
              && StoredNext(t, response.id, r.nextBooking.value.id, now)
              && r.nextBooking.value == ToBookingDto(r.nextBooking.value.id, t.BookingById(r.nextBooking.value.id))
              && forall id :: StoredNext(t, response.id, id, now) ==>
                   t.BookingById(r.nextBooking.value.id).start <= t.BookingById(id).start
  {
    var last := ItemLast(t, response.id, now);
    var next := ItemNext(t, response.id, now);
    var withLast := if last.Some? then response.(lastBooking := Some(ToBookingDto(last.value.id, last.value.value)))
                    else response;
    if next.Some? then withLast.(nextBooking := Some(ToBookingDto(next.value.id, next.value.value))) else withLast
  }

  // ---------------------------------------------------------------------------------
  // Reading, creating and updating items

  /**
   * `getItem`: the item's response. The item's owner (by id) also gets its last and next
   * booking; anybody else gets neither.
   */
  function GetItem(t: Tables, userId: int, itemId: int, now: int): (r: Result<ItemResponse>)
    ensures r.Ok? || r.NotFound?
    ensures r.NotFound? <==> !t.HasItem(itemId)
    ensures r.Ok? ==> r.value.(lastBooking := None, nextBooking := None) == ToItemResponseDto(itemId, t.ItemById(itemId))
    ensures r.Ok? && t.ItemById(itemId).ownerId != userId ==> r.value.lastBooking.None? && r.value.nextBooking.None?
    ensures r.Ok? && t.ItemById(itemId).ownerId == userId ==>
              r.value == LoadBookings(t, ToItemResponseDto(itemId, t.ItemById(itemId)), now)
  {
    if !t.HasItem(itemId) then NotFound
    else
      var item := t.ItemById(itemId);
      var response := ToItemResponseDto(itemId, item);
      if item.ownerId == userId then Ok(LoadBookings(t, response, now)) else Ok(response)
  }

  /**
   * `saveItem`: stores the item built from the DTO under the next id. The request the DTO
   * names is looked up by the caller and passed in (None when absent or unknown).
   */
  method SaveItem(db: Database, ownerId: int, dto: ItemDto, request: Option<ItemRequest>)
    returns (r: Result<ItemResponse>)
    requires db.Valid()
    requires dto.name.Some? && dto.description.Some? && dto.available.Some?
    modifies db
    ensures db.Valid()
    ensures db.users == old(db.users) && db.bookings == old(db.bookings)
    ensures r.Ok? || r.NotFound?
    ensures r.NotFound? <==> ownerId !in old(db.users)
    ensures r.NotFound? ==> db.items == old(db.items)
    ensures r.Ok? ==> db.items == old(db.items) + [ToItem(ownerId, request, dto)]
    ensures r.Ok? ==> r.value == ToItemResponseDto(|db.items|, ToItem(ownerId, request, dto))
  {
    if ownerId !in db.users {
      return NotFound;
    }
    var item := ToItem(ownerId, request, dto);
    db.items := db.items + [item];
    r := Ok(ToItemResponseDto(|db.items|, item));
    assert db.Valid() by {
      var t := db.Snapshot();
      forall j | 0 <= j < |t.bookings|
        ensures t.HasItem(t.bookings[j].itemId)
      {
        assert old(db.Snapshot()).HasItem(t.bookings[j].itemId);
      }
    }
  }

  /**
   * `updateItem`: the caller must exist, the item must exist and belong to the caller (by
   * id, BadRequest otherwise); then the DTO's present fields are set on the item, and the
   * response carries its last and next booking.
   */
  method UpdateItem(db: Database, ownerId: int, dto: ItemDto, itemId: int, now: int)
    returns (r: Result<ItemResponse>)
    requires db.Valid()
    modifies db
    ensures db.Valid()
    ensures db.users == old(db.users) && db.bookings == old(db.bookings) && |db.items| == |old(db.items)|
    ensures r.NotFound? <==> ownerId !in old(db.users) || !old(db.Snapshot()).HasItem(itemId)
    ensures r.BadRequest? <==> ownerId in old(db.users) && old(db.Snapshot()).HasItem(itemId) &&
                               old(db.items)[itemId - 1].ownerId != ownerId
    ensures !r.Ok? ==> db.items == old(db.items)
    ensures r.Ok? ==> db.items == old(db.items)[itemId - 1 := PatchItem(old(db.items)[itemId - 1], dto)]
    ensures r.Ok? ==> r.value == LoadBookings(db.Snapshot(), ToItemResponseDto(itemId, db.items[itemId - 1]), now)
  {
    if ownerId !in db.users {
      return NotFound;
    }
    if !(1 <= itemId <= |db.items|) {
      return NotFound;
    }
    var item := db.items[itemId - 1];
    if item.ownerId != ownerId {
      return BadRequest;
    }
    if dto.name.Some? {
      item := item.(name := dto.name.value);
    }
    if dto.description.Some? {
      item := item.(description := dto.description.value);
    }
    if dto.available.Some? {
      item := item.(available := dto.available.value);
    }
    ReplacedItemKeepsValid(db.Snapshot(), itemId, item);
    db.items := db.items[itemId - 1 := item];
    r := Ok(LoadBookings(db.Snapshot(), ToItemResponseDto(itemId, item), now));
  }

  /** Replacing an item by one with the same owner keeps the tables consistent. */
  lemma ReplacedItemKeepsValid(t: Tables, itemId: int, item: Item)
    requires t.Valid() && t.HasItem(itemId) && item.ownerId == t.ItemById(itemId).ownerId
    ensures t.(items := t.items[itemId - 1 := item]).Valid()
  {
    var t' := t.(items := t.items[itemId - 1 := item]);
    forall i | 0 <= i < |t'.items|
      ensures t'.items[i].ownerId in t'.users
    {
      if i != itemId - 1 {
        assert t'.items[i] == t.items[i];
      }
    }
    forall j | 0 <= j < |t'.bookings|
      ensures t'.HasItem(t'.bookings[j].itemId) && t'.bookings[j].bookerId in t'.users
    {
      assert t.HasItem(t.bookings[j].itemId);
    }
  }

  // ---------------------------------------------------------------------------------
  // Comments

  /** A stored booking of item `itemId` made by a user equal to `author` that ended before `now`. */
  predicate FinishedBookingBy(t: Tables, itemId: int, author: User, id: int, now: int) {
    t.HasBooking(id) && t.BookingById(id).itemId == itemId &&
    t.BookingById(id).bookerId in t.users && t.users[t.BookingById(id).bookerId] == author &&
    t.BookingById(id).end < now
  }

  function AuthorMatcher(t: Tables, author: User, now: int): Row<Booking> -> bool {
    (row: Row<Booking>) => row.value.bookerId in t.users && t.users[row.value.bookerId] == author && row.value.end < now
  }

  /**
   * `addComment`: the author and the item must exist; the author must have booked the item
   * (as a user equal to them) for a period that ended before `now`, whatever that booking's
   * status. The comment is stamped with `now` and the author's name.
   */
  function AddComment(t: Tables, authorId: int, itemId: int, text: string, now: int): (r: Result<CommentDto>)
    ensures r.Ok? || r.NotFound? || r.BadRequest?
    ensures r.NotFound? <==> authorId !in t.users || !t.HasItem(itemId)
    ensures r.BadRequest? <==> authorId in t.users && t.HasItem(itemId) &&
                               forall id :: !FinishedBookingBy(t, itemId, t.users[authorId], id, now)
    ensures r.Ok? ==> r.value == CommentDto(text, t.users[authorId].name, now)
  {
    if authorId !in t.users then NotFound
    else if !t.HasItem(itemId) then NotFound
    else
      var author := t.users[authorId];
      var finished := Filter(ItemRows(t, itemId), AuthorMatcher(t, author, now));
      assert finished == [] <==> forall id :: !FinishedBookingBy(t, itemId, author, id, now) by {
        if finished != [] {
          assert finished[0] in finished;
          assert FinishedBookingBy(t, itemId, author, finished[0].id, now);
        }
        forall id | FinishedBookingBy(t, itemId, author, id, now)
          ensures finished != []
        {
          assert Row(id, t.BookingById(id)) in finished;
        }
      }
      if finished == [] then BadRequest
      else Ok(CommentDto(text, author.name, now))
  }

  /** The status of a booking plays no part in whether its booker may comment. */
  lemma CommentIgnoresStatus(t: Tables, authorId: int, itemId: int, text: string, now: int,
                             bookingId: int, status: BookingStatus)
    requires t.HasBooking(bookingId)
    ensures var t' := t.(bookings := t.bookings[bookingId - 1 := t.BookingById(bookingId).(status := status)]);
            AddComment(t', authorId, itemId, text, now) == AddComment(t, authorId, itemId, text, now)
  {
    var t' := t.(bookings := t.bookings[bookingId - 1 := t.BookingById(bookingId).(status := status)]);
    assert t'.users == t.users && |t'.bookings| == |t.bookings|;
    if authorId in t.users && t.HasItem(itemId) {
      var author := t.users[authorId];
      forall id | t.HasBooking(id)
        ensures FinishedBookingBy(t', itemId, author, id, now) <==> FinishedBookingBy(t, itemId, author, id, now)
      {
        var b := t.BookingById(id);
        assert t'.BookingById(id) == if id == bookingId then b.(status := status) else b;
      }
      assert (forall id :: !FinishedBookingBy(t', itemId, author, id, now)) <==>
             (forall id :: !FinishedBookingBy(t, itemId, author, id, now));
    }
  }

  // ---------------------------------------------------------------------------------
  // Listing and search

  /** Available items whose name or description contains the text, ignoring case. */
  function SearchMatcher(text: string): Row<Item> -> bool {
    (row: Row<Item>) => row.value.available && MatchesText(row.value.name, row.value.description, text)
  }

  /** The responses of the given item rows, without bookings. */
  function ItemResponses(rows: seq<Row<Item>>): (rs: seq<ItemResponse>)
    ensures |rs| == |rows|
    ensures forall k :: 0 <= k < |rows| ==> rs[k] == ToItemResponseDto(rows[k].id, rows[k].value)
  {
    seq(|rows|, k requires 0 <= k < |rows| => ToItemResponseDto(rows[k].id, rows[k].value))
  }

  /**
   * The `search` query: the stored items that are available and whose name or description
   * contains the text ignoring case, in id order.
   */
  function SearchMatches(t: Tables, text: string): (rows: seq<Row<Item>>)
    ensures forall row :: row in rows <==>
              t.HasItem(row.id) && row.value == t.ItemById(row.id) &&
              row.value.available && MatchesText(row.value.name, row.value.description, text)
    ensures IdsIncrease(rows)
  {
    RowIdsIncrease(t.items);
    FilterKeepsIdsIncreasing(Rows(t.items), SearchMatcher(text));
    Filter(Rows(t.items), SearchMatcher(text))
  }

  /**
   * `searchItem`: for an empty text, nothing (no query is run); otherwise page `from /
   * size` of the matching items. Search results never carry bookings.
   */
  function SearchItem(t: Tables, text: string, from: nat, size: nat): (r: seq<ItemResponse>)
    requires size > 0
    ensures text == [] ==> r == []
    ensures |r| <= size
    ensures forall k :: 0 <= k < |r| ==>
              && t.HasItem(r[k].id)
              && t.ItemById(r[k].id).available
              && MatchesText(t.ItemById(r[k].id).name, t.ItemById(r[k].id).description, text)
              && r[k] == ToItemResponseDto(r[k].id, t.ItemById(r[k].id))
              && r[k].lastBooking.None? && r[k].nextBooking.None?
    ensures forall i, j :: 0 <= i < j < |r| ==> r[i].id < r[j].id
    ensures text != [] ==> r == ItemResponses(Page(SearchMatches(t, text), from, size))
  {
    if text == [] then []
    else
      var rows := Page(SearchMatches(t, text), from, size);
      PageKeepsIdsIncreasing(SearchMatches(t, text), from, size);
      assert forall k :: 0 <= k < |rows| ==> rows[k] in SearchMatches(t, text);
      ItemResponses(rows)
  }

  /** Every matching item appears on some page of a non-empty search. */
  lemma SearchFindsEveryMatch(t: Tables, text: string, itemId: int, size: nat)
    requires size > 0 && text != []
    requires t.HasItem(itemId) && t.ItemById(itemId).available
    requires MatchesText(t.ItemById(itemId).name, t.ItemById(itemId).description, text)
    ensures exists from: nat :: ToItemResponseDto(itemId, t.ItemById(itemId)) in SearchItem(t, text, from, size)
  {
    var matches := SearchMatches(t, text);
    var row := Row(itemId, t.ItemById(itemId));
    assert row in matches;
    var k :| 0 <= k < |matches| && matches[k] == row;
    PageHoldsIndex(matches, k, size);
    assert SearchItem(t, text, k, size)[k - PageOffset(k, size)] == ToItemResponseDto(itemId, t.ItemById(itemId));
  }

  function OwnerMatcher(ownerId: int): Row<Item> -> bool {
    (row: Row<Item>) => row.value.ownerId == ownerId
  }

  /** `findByOwner_Id` sorted by id: the owner's stored items in id order. */
  function OwnedItems(t: Tables, ownerId: int): (rows: seq<Row<Item>>)
    ensures forall row :: row in rows <==> t.HasItem(row.id) && row.value == t.ItemById(row.id) && row.value.ownerId == ownerId
    ensures IdsIncrease(rows)
  {
    RowIdsIncrease(t.items);
    FilterKeepsIdsIncreasing(Rows(t.items), OwnerMatcher(ownerId));
    Filter(Rows(t.items), OwnerMatcher(ownerId))
  }

  /** The responses of the given item rows, each with its last and next booking. */
  function AnnotatedResponses(t: Tables, rows: seq<Row<Item>>, now: int): (rs: seq<ItemResponse>)
    ensures |rs| == |rows|
    ensures forall k :: 0 <= k < |rows| ==> rs[k] == LoadBookings(t, ToItemResponseDto(rows[k].id, rows[k].value), now)
  {
    seq(|rows|, k requires 0 <= k < |rows| => LoadBookings(t, ToItemResponseDto(rows[k].id, rows[k].value), now))
  }

  /**
   * `getAllOwnerItems`: a missing owner id is a bad request; otherwise page `from / size`
   * of the owner's items in id order, each with its last and next booking.
   */
  function GetAllOwnerItems(t: Tables, ownerId: Option<int>, from: nat, size: nat, now: int)
    : (r: Result<seq<ItemResponse>>)
    requires size > 0
    ensures r.Ok? || r.BadRequest?
    ensures r.BadRequest? <==> ownerId.None?
    ensures r.Ok? ==> |r.value| <= size
    ensures r.Ok? ==> forall k :: 0 <= k < |r.value| ==>
              && t.HasItem(r.value[k].id)
              && t.ItemById(r.value[k].id).ownerId == ownerId.value
              && r.value[k] == LoadBookings(t, ToItemResponseDto(r.value[k].id, t.ItemById(r.value[k].id)), now)
    ensures r.Ok? ==> forall i, j :: 0 <= i < j < |r.value| ==> r.value[i].id < r.value[j].id
    ensures r.Ok? ==> r.value == AnnotatedResponses(t, Page(OwnedItems(t, ownerId.value), from, size), now)
  {
    if ownerId.None? then BadRequest
    else
      var rows := Page(OwnedItems(t, ownerId.value), from, size);
      PageKeepsIdsIncreasing(OwnedItems(t, ownerId.value), from, size);
      assert forall k :: 0 <= k < |rows| ==> rows[k] in OwnedItems(t, ownerId.value);
      Ok(AnnotatedResponses(t, rows, now))
  }

  /** Every item of an owner appears, with its bookings loaded, on some page of the owner's list. */
  lemma OwnerFindsEveryItem(t: Tables, ownerId: int, itemId: int, size: nat, now: int)
    requires size > 0
    requires t.HasItem(itemId) && t.ItemById(itemId).ownerId == ownerId
    ensures exists from: nat :: GetAllOwnerItems(t, Some(ownerId), from, size, now).Ok? &&
              LoadBookings(t, ToItemResponseDto(itemId, t.ItemById(itemId)), now) in
              GetAllOwnerItems(t, Some(ownerId), from, size, now).value
  {
    var owned := OwnedItems(t, ownerId);
    var row := Row(itemId, t.ItemById(itemId));
    assert row in owned;
    var k :| 0 <= k < |owned| && owned[k] == row;
    PageHoldsIndex(owned, k, size);
    assert GetAllOwnerItems(t, Some(ownerId), k, size, now).value[k - PageOffset(k, size)] ==
           LoadBookings(t, ToItemResponseDto(itemId, t.ItemById(itemId)), now);
  }
}
