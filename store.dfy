/**
 * The relational tables behind the JPA repositories the booking and item services use.
 * Items and bookings are identity-keyed: the row at index i has id i + 1.
 */
module Store {
  import opened Domain

  /** A snapshot of the tables, as read-only operations see them. */
  datatype Tables = Tables(users: map<int, User>, items: seq<Item>, bookings: seq<Booking>)
  {
    predicate HasItem(id: int) {
      1 <= id <= |items|
    }

    function ItemById(id: int): Item
      requires HasItem(id)
    {
      items[id - 1]
    }

    predicate HasBooking(id: int) {
      1 <= id <= |bookings|
    }

    function BookingById(id: int): Booking
      requires HasBooking(id)
    {
      bookings[id - 1]
    }

    /** Whether the user owns at least one item (`countByOwner(user) != 0`). */
    predicate OwnsAnyItem(userId: int) {
      exists i :: 0 <= i < |items| && items[i].ownerId == userId
    }

    /** Referential integrity: every owner, booked item and booker exists. */
    ghost predicate Valid() {
      && (forall i :: 0 <= i < |items| ==> items[i].ownerId in users)
      && (forall j :: 0 <= j < |bookings| ==> HasItem(bookings[j].itemId) && bookings[j].bookerId in users)
    }

    /** The key of the owner of a stored booking's item. */
    function OwnerOf(b: Booking): int
      requires HasItem(b.itemId)
    {
      items[b.itemId - 1].ownerId
    }
  }

  /** The database the services update in place. */
  class Database {
    var users: map<int, User>
    var items: seq<Item>
    var bookings: seq<Booking>

    function Snapshot(): (t: Tables)
      reads this
      ensures t.users == users && t.items == items && t.bookings == bookings
    {
      Tables(users, items, bookings)
    }

    ghost predicate Valid()
      reads this
    {
      Snapshot().Valid()
    }

    /** A database holding the given users and items and no bookings yet. */
    constructor (users: map<int, User>, items: seq<Item>)
      requires Tables(users, items, []).Valid()
      ensures Valid() && Snapshot() == Tables(users, items, [])
    {
      this.users := users;
      this.items := items;
      this.bookings := [];
    }
  }
}
