/**
 * The booking queries of BookingRepository (both the paged and the sorted version), given
 * as predicates over one booking. Derived-query names compare the booker or the item's
 * owner by id, `EndBefore`/`StartAfter` are strict, and JPQL `between` is inclusive.
 */
module BookingRepository {
  import opened Domain
  import opened Sequences
  import opened Store

  /** The repository methods the services call, other than `findByItem_Id`. */
  datatype Query =
    | FindByBooker
    | FindByBookerAndEndBefore
    | FindByBookerAndStartAfter
    | FindAllWithCurrentState
    | FindByItemOwner
    | FindByItemOwnerAndEndBefore
    | FindByItemOwnerAndStartAfter
    | FindAllItemsBookingWithCurrentState
    | FindByBookerAndStatus(status: BookingStatus)
    | FindByItemOwnerAndStatus(status: BookingStatus)
  {
    /** Whether the query selects by the item's owner rather than by the booker. */
    predicate ByOwner() {
      FindByItemOwner? || FindByItemOwnerAndEndBefore? || FindByItemOwnerAndStartAfter? ||
      FindAllItemsBookingWithCurrentState? || FindByItemOwnerAndStatus?
    }
  }

  /** `b.item.owner = user`. */
  predicate OwnedBy(items: seq<Item>, b: Booking, user: int) {
    1 <= b.itemId <= |items| && items[b.itemId - 1].ownerId == user
  }

  /** `?2 between b.start and b.end`. */
  predicate Between(b: Booking, now: int) {
    b.start <= now <= b.end
  }

  /** Whether query `q`, asked for `user` at time `now`, selects booking `b`. */
  predicate Holds(q: Query, items: seq<Item>, user: int, b: Booking, now: int) {
    match q
    case FindByBooker => b.bookerId == user
    case FindByBookerAndEndBefore => b.bookerId == user && b.end < now
    case FindByBookerAndStartAfter => b.bookerId == user && b.start > now
    case FindAllWithCurrentState => b.bookerId == user && (Between(b, now) || now == b.start)
    case FindByItemOwner => OwnedBy(items, b, user)
    case FindByItemOwnerAndEndBefore => OwnedBy(items, b, user) && b.end < now
    case FindByItemOwnerAndStartAfter => OwnedBy(items, b, user) && b.start > now
    case FindAllItemsBookingWithCurrentState => OwnedBy(items, b, user) && Between(b, now)
    case FindByBookerAndStatus(s) => b.bookerId == user && b.status == s
    case FindByItemOwnerAndStatus(s) => OwnedBy(items, b, user) && b.status == s
  }

  /** The sort key `creationTime`. */
  function CreationKey(row: Row<Booking>): int {
    row.value.creationTime
  }

  /** The sort key `start`. */
  function StartKey(row: Row<Booking>): int {
    row.value.start
  }

  function Matcher(q: Query, items: seq<Item>, user: int, now: int): Row<Booking> -> bool {
    (row: Row<Booking>) => Holds(q, items, user, row.value, now)
  }

  /**
   * Runs query `q` over the bookings table: exactly the rows the query selects, each as
   * often as it is stored, ordered by creation time in direction `dir`.
   */
  function Find(q: Query, items: seq<Item>, bookings: seq<Booking>, user: int, now: int, dir: Direction)
    : (r: seq<Row<Booking>>)
    ensures forall row :: row in r <==> row in Rows(bookings) && Holds(q, items, user, row.value, now)
    ensures multiset(r) == multiset(Filter(Rows(bookings), Matcher(q, items, user, now)))
    ensures SortedBy(r, CreationKey, dir)
  {
    var selected := Filter(Rows(bookings), Matcher(q, items, user, now));
    var r := SortBy(selected, CreationKey, dir);
    SameMembers(r, selected);
    r
  }

  function ItemMatcher(itemId: int): Row<Booking> -> bool {
    (row: Row<Booking>) => row.value.itemId == itemId
  }

  /** `findByItem_Id`: all bookings of one item, ordered by start in direction `dir`. */
  function FindByItemId(bookings: seq<Booking>, itemId: int, dir: Direction): (r: seq<Row<Booking>>)
    ensures forall row :: row in r <==> row in Rows(bookings) && row.value.itemId == itemId
    ensures multiset(r) == multiset(Filter(Rows(bookings), ItemMatcher(itemId)))
    ensures SortedBy(r, StartKey, dir)
  {
    var selected := Filter(Rows(bookings), ItemMatcher(itemId));
    var r := SortBy(selected, StartKey, dir);
    SameMembers(r, selected);
    r
  }

  /** A query's result holds each stored booking at most once. */
  lemma FindNoDuplicates(q: Query, items: seq<Item>, bookings: seq<Booking>, user: int, now: int, dir: Direction)
    ensures NoDuplicates(Find(q, items, bookings, user, now, dir))
  {
    var rows := Rows(bookings);
    var r := Find(q, items, bookings, user, now, dir);
    RowsNoDuplicates(bookings);
    forall x
      ensures multiset(r)[x] <= 1
    {
      NoDuplicatesCountsAtMostOne(rows, x);
      FilterCounts(rows, Matcher(q, items, user, now), x);
    }
    CountsAtMostOneNoDuplicates(r);
  }

  /**
   * The booker's "current" query adds `or ?2 = b.start` to `between`; for a booking whose
   * start is not after its end this adds nothing.
   */
  lemma CurrentStartClauseRedundant(b: Booking, now: int)
    requires b.start <= b.end
    ensures (Between(b, now) || now == b.start) <==> Between(b, now)
  {
  }

  /**
   * Example (one fixed booking, not a general property): for an inverted interval the
   * extra clause matters. The booker's "current" query selects a booking at its start
   * time that the owner's "current" query does not.
   */
  lemma CurrentQueriesDifferOnInvertedInterval(items: seq<Item>)
    requires |items| >= 1 && items[0].ownerId == 7
    ensures var b := Booking(5, 3, 1, 2, BookingStatus.Approved, 0);
            Holds(FindAllWithCurrentState, items, 2, b, 5) &&
            !Holds(FindAllItemsBookingWithCurrentState, items, 7, b, 5)
  {
  }

  /**
   * For a booking with start not after end, exactly one of "ended", "current" and
   * "starts later" holds at any time: the PAST, CURRENT and FUTURE views partition a
   * user's bookings.
   */
  lemma TimeBucketsPartition(b: Booking, now: int)
    requires b.start <= b.end
    ensures (b.end < now) || Between(b, now) || (b.start > now)
    ensures !(b.end < now && Between(b, now))
    ensures !(b.end < now && b.start > now)
    ensures !(Between(b, now) && b.start > now)
  {
  }

  /** An owner query selects only bookings of items the user owns. */
  lemma OwnerQueryNeedsOwnedItem(q: Query, t: Tables, user: int, b: Booking, now: int)
    requires q.ByOwner() && Holds(q, t.items, user, b, now)
    ensures t.OwnsAnyItem(user)
  {
    assert t.items[b.itemId - 1].ownerId == user;
  }
}
