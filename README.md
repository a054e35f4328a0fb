# ShareIt core in Dafny

ShareIt is an item-sharing service. Users register with a unique email. Owners list
items, optionally in answer to an item request. Other users book an item for an
interval `[start, end]`. The owner approves or rejects each booking once. Users who
finished a booking may comment on the item. An item's owner sees the item's last and
next booking.

This project models the core of that service:

- the booking lifecycle in both service versions:
  - the paged server version;
  - the earlier unpaged version, which also rejects bad intervals;
- the gateway's interval guard;
- the booking queries of both repository versions;
- the JPA-backed item service and the booking and item mappers;
- the in-memory user and item repositories, and the user service with its email set.

Module layout:

- `Common`: `Option`, and `Result`, which stands for the service exceptions:
  - `NotFound` is `NotFoundException`;
  - `BadRequest` is `BadRequestException`;
  - `BadEmail` is `BadEmailException`.
- `Sequences`: filtering, stable sorting by a key, the `PageRequest.of(from / size, size)`
  window, and identity-keyed rows.
- `Domain`: users, items, bookings and the DTOs.
  - Entities carry no id. An id is the key under which an entity is stored.
  - So value equality is Lombok's id-free `equals`. `Domain.SameUserIffSameId` shows
    that this equals id equality when emails are unique.
- `Store`: the relational tables.
  - `Tables` is a snapshot read by the query operations.
  - `Database` is the class the updating operations modify.
  - The item or booking at index `i` has id `i + 1`.
- `BookingRepository`: each derived or JPQL query as a predicate, plus `Find`, which
  filters and sorts by creation time.
- `BookingMapper`, `ItemMapper`, `Updates` (the DTO patch semantics) and `TextSearch`
  (case-insensitive `contains`).
- `BookingService`, `BookingClient` and `ItemService`: the JPA-backed services.
- `UserStore`, `ItemStore` and `UserAccounts`: the in-memory repositories and the user
  service, as classes with map fields and an id counter.

The two service versions differ in three ways, and the model keeps each:

- The earlier `saveBooking` rejects `start == end` and `end < start` itself.
  - The server relies on the gateway for that check.
  - `BookingClient.GatewayAgreesOnCreation` shows that gateway plus server accept
    exactly the requests the earlier version accepts.
  - `BookingClient.GatewayReportsIntervalFirst` shows that the reported error can differ.
- The earlier listing operations return whole lists.
  - The server's return one page of them.
  - `BookingService.UserBookingsPage` is stated as `Page` of the unpaged result.
- The booker's "current" query also accepts `now == start`.
  - `BookingRepository.CurrentStartClauseRedundant` shows this adds nothing when
    `start <= end`.
  - `BookingRepository.CurrentQueriesDifferOnInvertedInterval` shows the difference
    when the interval is inverted.

The source snapshot mixes two generations of the item code, and the model follows each
file as written:

- `ItemRepositoryImpl` and `Item` hold the owner as an id.
- `ItemServiceImpl` reads `item.getOwner().getId()`.

## Model

| member | source | states |
|---|---|---|
| Sequences.SortBy | server/src/main/java/ru/practicum/shareit/booking/service/BookingServiceImpl.java:89-90 | The result is a permutation of the input, ordered by the sort key in the requested direction. This is `Sort.by(direction, key)` on a query. |
| Sequences.Page | server/src/main/java/ru/practicum/shareit/booking/service/BookingServiceImpl.java:90 | The page of `PageRequest.of(from / size, size)` holds at most `size` elements. It is empty past the end, full when the data reach past it, and otherwise holds the rest. Element `k` is element `(from / size) * size + k` of the input. |
| Sequences.Filter | server/src/main/java/ru/practicum/shareit/booking/repository/BookingRepository.java:15-42 | A `where` clause keeps exactly the elements that satisfy it, each as many times as it occurs. |
| Sequences.FilterKeepsOrder | server/src/main/java/ru/practicum/shareit/booking/repository/BookingRepository.java:15-42 | Filtering a sorted list leaves it sorted. |
| Sequences.PageOfMap | server/src/main/java/ru/practicum/shareit/booking/service/BookingServiceImpl.java:92-129 | Mapping responses over a page gives the page of the mapped list. |
| Domain.SameUserIffSameId | src/main/java/ru/practicum/shareit/booking/service/BookingServiceImpl.java:82-84 | When emails are unique, two stored users are equal exactly when their ids are equal. So the user-equality checks of the service act as id checks. |
| Domain.SameUserWithoutUniqueEmails | src/main/java/ru/practicum/shareit/booking/service/BookingServiceImpl.java:65-67 | Without unique emails, two different ids can hold equal users. |
| BookingMapper.FromBookingDtoRequest | src/main/java/ru/practicum/shareit/booking/BookingMapper.java:14-23 | A new booking has the requested interval, item and booker, status WAITING and creation time `now`. |
| BookingMapper.ToBookingDtoResponse | src/main/java/ru/practicum/shareit/booking/BookingMapper.java:25-37 | The response carries the booking's id, interval and status. It also carries the item's id, name, description and availability, and the booker's id, name and email. |
| BookingMapper.ToBookingDto | src/main/java/ru/practicum/shareit/item/service/ItemServiceImpl.java:100-111 | The short booking view keeps the id, interval, booker id, status and creation time. |
| BookingMapper.NewBookingResponse | src/main/java/ru/practicum/shareit/booking/service/BookingServiceImpl.java:51-53 | The response to a created booking reports the requested interval, item and booker, with status WAITING. |
| ItemMapper.RequestIdOf | src/main/java/ru/practicum/shareit/item/ItemMapper.java:21-23 | The request id is present exactly when the item answers a request, and it is that request's id. |
| ItemMapper.ToItemResponseDto | src/main/java/ru/practicum/shareit/item/ItemMapper.java:13-25 | The response copies id, name, description and availability. Comments are empty and there is no last or next booking. The request id is present exactly when the item has a request. |
| ItemMapper.ToItem | src/main/java/ru/practicum/shareit/item/ItemMapper.java:27-36 | The item takes the DTO's name, description and availability, the given owner and the given request. |
| ItemMapper.ToItemDto | src/main/java/ru/practicum/shareit/item/ItemMapper.java:38-49 | The DTO has every field present, and a request id exactly when the item has a request. |
| ItemMapper.ItemDtoRoundTrip | src/main/java/ru/practicum/shareit/item/ItemMapper.java:27-49 | Mapping an item to its DTO and back, with the same owner and request, gives the item again. |
| ItemMapper.RequestIdAgrees | src/main/java/ru/practicum/shareit/item/ItemMapper.java:13-49 | The DTO and the response report the same request id. |
| Updates.PatchItem | src/main/java/ru/practicum/shareit/item/service/ItemServiceImpl.java:66-74 | Each present DTO field replaces the item's field, and an absent one keeps it. The owner and the request never change. |
| Updates.PatchItemEmpty | src/main/java/ru/practicum/shareit/item/service/ItemServiceImpl.java:66-74 | A DTO with no name, description or availability leaves the item unchanged. |
| Updates.PatchItemIdempotent | src/main/java/ru/practicum/shareit/item/service/ItemServiceImpl.java:66-74 | Applying the same update twice equals applying it once. |
| Updates.PatchItemIgnoresIds | src/main/java/ru/practicum/shareit/item/service/ItemServiceImpl.java:66-74 | The DTO's id and request id have no effect on an update. |
| Updates.PatchUser | src/main/java/ru/practicum/shareit/user/repository/UserRepositoryImpl.java:47-53 | A present email or name replaces the user's, and an absent one keeps it. |
| Updates.PatchUserEmpty | src/main/java/ru/practicum/shareit/user/repository/UserRepositoryImpl.java:47-53 | An empty user DTO changes nothing. |
| Updates.PatchUserIdempotent | src/main/java/ru/practicum/shareit/user/service/UserServiceImpl.java:35-46 | Applying the same user update twice equals applying it once. |
| TextSearch.ToLower | src/main/java/ru/practicum/shareit/item/repository/ItemRepositoryImpl.java:73-74 | Lower-casing keeps the length and lower-cases each character. |
| TextSearch.ToLowerIdempotent | src/main/java/ru/practicum/shareit/item/repository/ItemRepositoryImpl.java:73-74 | Lower-casing twice equals lower-casing once. |
| TextSearch.Contains | src/main/java/ru/practicum/shareit/item/repository/ItemRepositoryImpl.java:73-74 | `contains` holds exactly when the text occurs at some position of the string. |
| TextSearch.ContainsEmpty | src/main/java/ru/practicum/shareit/item/repository/ItemRepositoryImpl.java:73-74 | Every string contains the empty text. |
| TextSearch.MatchIgnoresTextCase | src/main/java/ru/practicum/shareit/item/repository/ItemRepositoryImpl.java:73-74 | The match does not depend on the case of the search text. |
| TextSearch.MatchIgnoresNameCase | src/main/java/ru/practicum/shareit/item/repository/ItemRepositoryImpl.java:73-74 | The match does not depend on the case of the item name. |
| BookingRepository.Find | server/src/main/java/ru/practicum/shareit/booking/repository/BookingRepository.java:17-44 | A query returns exactly the stored bookings it selects, each as often as stored, ordered by creation time. |
| BookingRepository.FindByItemId | server/src/main/java/ru/practicum/shareit/booking/repository/BookingRepository.java:40 | `findByItem_Id` returns exactly the item's stored bookings, ordered by start. |
| BookingRepository.FindNoDuplicates | src/main/java/ru/practicum/shareit/booking/repository/BookingRepository.java:15-42 | No query result lists a booking twice. |
| BookingRepository.CurrentStartClauseRedundant | src/main/java/ru/practicum/shareit/booking/repository/BookingRepository.java:21-25 | If start is not after end, the booker's extra `?2 = b.start` clause selects nothing more than `between` does. |
| BookingRepository.CurrentQueriesDifferOnInvertedInterval | src/main/java/ru/practicum/shareit/booking/repository/BookingRepository.java:21-36 | With an inverted interval, the booker's and the owner's current queries disagree on a booking. |
| BookingRepository.TimeBucketsPartition | server/src/main/java/ru/practicum/shareit/booking/repository/BookingRepository.java:21-29 | If start is not after end, every booking is in exactly one of ended, current and future. |
| BookingRepository.OwnerQueryNeedsOwnedItem | src/main/java/ru/practicum/shareit/booking/service/BookingServiceImpl.java:138-140 | An owner query selects bookings only for a user who owns an item. |
| BookingService.ServerCreateCheck | server/src/main/java/ru/practicum/shareit/booking/service/BookingServiceImpl.java:36-47 | Booking is refused with NotFound when the booker or item is missing, or when the booker owns the item. Otherwise it is refused with BadRequest when the item is unavailable. In every other case it succeeds with the item. |
| BookingService.ValidatedCreateCheck | src/main/java/ru/practicum/shareit/booking/service/BookingServiceImpl.java:36-51 | The same checks in the same order, then BadRequest unless start is before end. It succeeds exactly when the server checks pass and `start < end`. |
| BookingService.OwnerCannotBook | server/src/main/java/ru/practicum/shareit/booking/service/BookingServiceImpl.java:42-44 | The owner's request for their own item is always NotFound. |
| BookingService.InsertBooking | server/src/main/java/ru/practicum/shareit/booking/service/BookingServiceImpl.java:48-49 | Appends the new booking and keeps integrity. The response equals what `getBooking` then returns to the booker. |
| BookingService.SaveBooking | server/src/main/java/ru/practicum/shareit/booking/service/BookingServiceImpl.java:36-50 | On failure, returns the check's error and stores nothing. On success, appends exactly one WAITING booking. It returns that booking's full response (interval, item, booker and status) under its new id. |
| BookingService.SaveBookingValidated | src/main/java/ru/practicum/shareit/booking/service/BookingServiceImpl.java:36-54 | As SaveBooking, with the interval check. It returns the same full response, and every booking it stores has `start < end`. |
| BookingService.ResponseOf | server/src/main/java/ru/practicum/shareit/booking/service/BookingServiceImpl.java:81 | The response of a stored booking reports its id, interval, status, item and booker. |
| BookingService.GetBooking | server/src/main/java/ru/practicum/shareit/booking/service/BookingServiceImpl.java:73-82 | Succeeds exactly when the user and the booking exist and the user equals the booker or the item's owner. Otherwise it is NotFound. |
| BookingService.GetBookingByIds | src/main/java/ru/practicum/shareit/booking/service/BookingServiceImpl.java:77-86 | When emails are unique, the visibility test is the same as comparing ids. |
| BookingService.CreatedBookingVisible | server/src/main/java/ru/practicum/shareit/booking/service/BookingServiceImpl.java:36-82 | After a booking is created, the booker and the owner read the same response for it, and a third party gets NotFound. |
| BookingService.ConsiderCheck | server/src/main/java/ru/practicum/shareit/booking/service/BookingServiceImpl.java:53-63 | NotFound when the user or the booking is missing. BadRequest when the booking is no longer WAITING, which is checked before ownership. NotFound when the user is not the owner. |
| BookingService.Decide | server/src/main/java/ru/practicum/shareit/booking/service/BookingServiceImpl.java:64-68 | The status becomes APPROVED or REJECTED, and everything else is kept. |
| BookingService.ConsiderBooking | server/src/main/java/ru/practicum/shareit/booking/service/BookingServiceImpl.java:53-70 | Only the decided booking changes. On error nothing changes. The response equals the stored booking's view. |
| BookingService.DecisionKeepsValid | server/src/main/java/ru/practicum/shareit/booking/service/BookingServiceImpl.java:64-69 | Changing a booking's status keeps referential integrity. |
| BookingService.DecisionIsFinal | src/main/java/ru/practicum/shareit/booking/service/BookingServiceImpl.java:62-64 | After a decision, any further decision on that booking is BadRequest. |
| BookingService.NonOwnerCannotDecide | src/main/java/ru/practicum/shareit/booking/service/BookingServiceImpl.java:65-67 | When emails are unique, a user who does not own the item gets NotFound for a WAITING booking. |
| BookingService.QueryFor | server/src/main/java/ru/practicum/shareit/booking/service/BookingServiceImpl.java:91-127 | Each state maps to its query. Owner queries are used exactly for the owner listing. |
| BookingService.QueryForInjective | src/main/java/ru/practicum/shareit/booking/service/BookingServiceImpl.java:94-129 | Different states select different queries. |
| BookingService.SortFor | src/main/java/ru/practicum/shareit/booking/service/BookingServiceImpl.java:93-113 | Ascending creation time exactly for CURRENT, otherwise descending. |
| BookingService.QueryForMeansBucket | src/main/java/ru/practicum/shareit/booking/service/BookingServiceImpl.java:94-129 | If start is not after end, a state's query selects exactly the user's bookings in that state's time or status bucket. |
| BookingService.Responses | server/src/main/java/ru/practicum/shareit/booking/service/BookingServiceImpl.java:128-129 | Maps each selected row to its booking response, in order. |
| BookingService.FindRowsStored | server/src/main/java/ru/practicum/shareit/booking/repository/BookingRepository.java:19-44 | Every row a query returns is a stored booking under its id, and it satisfies the query. |
| BookingService.FindComplete | server/src/main/java/ru/practicum/shareit/booking/repository/BookingRepository.java:19-44 | Every stored booking the query selects appears in the result. |
| BookingService.FindDistinctIds | server/src/main/java/ru/practicum/shareit/booking/repository/BookingRepository.java:19-44 | The ids in a query result are distinct. |
| BookingService.ResponsesList | src/main/java/ru/practicum/shareit/booking/service/BookingServiceImpl.java:128-130 | Responses of sound, complete, distinct and sorted rows form a listing. |
| BookingService.FindLists | src/main/java/ru/practicum/shareit/booking/service/BookingServiceImpl.java:89-130 | A query's responses are the listing: exactly the selected bookings, once each, ordered by creation time. |
| BookingService.UserBookings | src/main/java/ru/practicum/shareit/booking/service/BookingServiceImpl.java:89-131 | NotFound exactly for an unknown user. Otherwise the booker's listing for the state. |
| BookingService.ItemsBookings | src/main/java/ru/practicum/shareit/booking/service/BookingServiceImpl.java:135-180 | NotFound exactly for an unknown user. An empty list for a user who owns no item. Otherwise the owner's listing for the state. |
| BookingService.UserBookingsPage | server/src/main/java/ru/practicum/shareit/booking/service/BookingServiceImpl.java:85-130 | The same errors as the unpaged version. Success gives the requested page of the unpaged listing. |
| BookingService.ItemsBookingsPage | server/src/main/java/ru/practicum/shareit/booking/service/BookingServiceImpl.java:133-182 | The same errors as the unpaged version, an empty list for a user without items, and otherwise the requested page of the unpaged listing. |
| BookingService.PagedResponses | server/src/main/java/ru/practicum/shareit/booking/service/BookingServiceImpl.java:90-129 | Paging rows, then mapping them to responses, equals mapping first and paging after. |
| BookingClient.SaveBookingGuard | gateway/src/main/java/ru/practicum/shareit/booking/BookingClient.java:31-37 | Forwards the request unchanged exactly when start is before end. Otherwise BadRequest. |
| BookingClient.CreateThroughGateway | gateway/src/main/java/ru/practicum/shareit/booking/BookingClient.java:31-37 | The gateway guard first, then the server's checks. |
| BookingClient.GatewayAgreesOnCreation | gateway/src/main/java/ru/practicum/shareit/booking/BookingClient.java:32-35 | Gateway plus server accept exactly what the earlier validating service accepts, and for valid intervals they give the same result. |
| BookingClient.GatewayReportsIntervalFirst | gateway/src/main/java/ru/practicum/shareit/booking/BookingClient.java:32-35 | An inverted request from an unknown booker is BadRequest at the gateway but NotFound in the validating service. |
| ItemService.LastBooking | src/main/java/ru/practicum/shareit/item/service/ItemServiceImpl.java:96-103 | Among the non-rejected bookings that started before `now`, the one that starts latest. None exactly when there are none. |
| ItemService.NextBooking | src/main/java/ru/practicum/shareit/item/service/ItemServiceImpl.java:104-111 | Among the non-rejected bookings that start after `now`, the one that starts earliest. None exactly when there are none. |
| ItemService.StartingNowIsNeither | src/main/java/ru/practicum/shareit/item/service/ItemServiceImpl.java:97-105 | A booking that starts exactly at `now` is neither the last nor the next. |
| ItemService.ExampleRows | src/main/java/ru/practicum/shareit/item/service/ItemServiceImpl.java:94-95 | A fixed booking list of one item, sorted by start. |
| ItemService.LastAndNextExample | src/main/java/ru/practicum/shareit/item/service/ItemServiceImpl.java:96-111 | In the example, the rejected booking just before `now` is skipped, and so is the booking starting at `now`. |
| ItemService.ItemRows | src/main/java/ru/practicum/shareit/item/service/ItemServiceImpl.java:94-95 | The item's stored bookings, all of them, sorted by start. |
| ItemService.ItemLast | src/main/java/ru/practicum/shareit/item/service/ItemServiceImpl.java:95-103 | The stored past booking of the item that starts latest. None exactly when there is none. |
| ItemService.ItemNext | src/main/java/ru/practicum/shareit/item/service/ItemServiceImpl.java:95-111 | The stored upcoming booking of the item that starts earliest. None exactly when there is none. |
| ItemService.LoadBookings | src/main/java/ru/practicum/shareit/item/service/ItemServiceImpl.java:93-112 | Sets the last and next slots from those bookings and leaves a slot as it was when there is none. Nothing else changes. |
| ItemService.GetItem | src/main/java/ru/practicum/shareit/item/service/ItemServiceImpl.java:82-91 | NotFound exactly for a missing item. The owner, compared by id, gets the last and next bookings. Anyone else gets neither. |
| ItemService.SaveItem | src/main/java/ru/practicum/shareit/item/service/ItemServiceImpl.java:45-55 | NotFound exactly for an unknown owner. Otherwise appends the mapped item and returns its response under the new id. |
| ItemService.UpdateItem | src/main/java/ru/practicum/shareit/item/service/ItemServiceImpl.java:58-79 | NotFound for an unknown user or item, and BadRequest for a non-owner. Otherwise only that item is patched, and the response carries its bookings. |
| ItemService.ReplacedItemKeepsValid | src/main/java/ru/practicum/shareit/item/service/ItemServiceImpl.java:66-75 | Replacing an item while keeping its owner keeps referential integrity. |
| ItemService.AddComment | src/main/java/ru/practicum/shareit/item/service/ItemServiceImpl.java:153-168 | NotFound for an unknown author or item. BadRequest exactly when no booking of the item by an equal user has ended before `now`. Otherwise a comment with the text, the author's name and `now`. |
| ItemService.CommentIgnoresStatus | src/main/java/ru/practicum/shareit/item/service/ItemServiceImpl.java:160-163 | The permission to comment does not depend on any booking's status. |
| ItemService.ItemResponses | src/main/java/ru/practicum/shareit/item/service/ItemServiceImpl.java:146-149 | Maps each item row to its response, in order. |
| ItemService.SearchMatches | src/main/java/ru/practicum/shareit/item/repository/ItemRepository.java:16-20 | Exactly the available stored items whose name or description contains the text, ignoring case, in increasing id order. |
| ItemService.SearchItem | src/main/java/ru/practicum/shareit/item/service/ItemServiceImpl.java:141-150 | Empty text gives an empty list. Otherwise at most `size` responses, each of an available stored item that matches, with increasing ids and no bookings loaded. The result is exactly page `from / size` of all matches in id order. |
| ItemService.SearchFindsEveryMatch | src/main/java/ru/practicum/shareit/item/service/ItemServiceImpl.java:141-150 | Every available matching item appears on some page. |
| ItemService.OwnedItems | src/main/java/ru/practicum/shareit/item/repository/ItemRepository.java:14 | Exactly the owner's stored items, in increasing id order. |
| ItemService.AnnotatedResponses | src/main/java/ru/practicum/shareit/item/service/ItemServiceImpl.java:121-125 | Each item's response with its bookings loaded, in order. |
| ItemService.GetAllOwnerItems | src/main/java/ru/practicum/shareit/item/service/ItemServiceImpl.java:115-126 | BadRequest exactly when no owner is given. Otherwise at most `size` of the owner's items in increasing id order, each with its bookings loaded. The result is exactly page `from / size` of all the owner's items in id order. |
| ItemService.OwnerFindsEveryItem | src/main/java/ru/practicum/shareit/item/service/ItemServiceImpl.java:115-126 | Every item of the owner appears on some page of the owner's list, with its bookings loaded. |
| UserStore.OwnEmailNotTaken | src/main/java/ru/practicum/shareit/user/repository/UserRepositoryImpl.java:22-28 | When emails are unique, a user's own email is never taken from their own point of view. |
| UserStore.UserRepository.constructor | src/main/java/ru/practicum/shareit/user/repository/UserRepositoryImpl.java:15-16 | An empty table with the counter at zero. |
| UserStore.UserRepository.GenerateId | src/main/java/ru/practicum/shareit/user/repository/UserRepositoryImpl.java:18-20 | Advances the counter by one and returns it. |
| UserStore.UserRepository.CheckEmail | src/main/java/ru/practicum/shareit/user/repository/UserRepositoryImpl.java:22-28 | Passes exactly when no other stored user has the email. |
| UserStore.UserRepository.SaveUser | src/main/java/ru/practicum/shareit/user/repository/UserRepositoryImpl.java:35-39 | BadEmail exactly when the email is taken. Otherwise the user is stored under a fresh id larger than every existing one, and reading it back gives the user. Emails stay unique. |
| UserStore.UserRepository.UpdateUser | src/main/java/ru/practicum/shareit/user/repository/UserRepositoryImpl.java:42-55 | NotFound for an unknown id. BadEmail exactly when a new email belongs to another user. Otherwise the patched user replaces the old one, and emails stay unique. |
| UserStore.UserRepository.GetUser | src/main/java/ru/practicum/shareit/user/repository/UserRepositoryImpl.java:63-68 | The stored user, or none exactly when the id is absent. |
| UserStore.UserRepository.DeleteUser | src/main/java/ru/practicum/shareit/user/repository/UserRepositoryImpl.java:71-73 | The user is gone and every other user is unchanged. |
| ItemStore.ItemRepository.constructor | src/main/java/ru/practicum/shareit/item/repository/ItemRepositoryImpl.java:17-19 | An empty table with the counter at zero, over the given user repository. |
| ItemStore.ItemRepository.GenerateId | src/main/java/ru/practicum/shareit/item/repository/ItemRepositoryImpl.java:21-23 | Advances the counter by one and returns it. |
| ItemStore.ItemRepository.SaveItem | src/main/java/ru/practicum/shareit/item/repository/ItemRepositoryImpl.java:26-31 | NotFound exactly for an unknown owner. Otherwise stored under a fresh id, and reading it back gives the item. |
| ItemStore.ItemRepository.UpdateItem | src/main/java/ru/practicum/shareit/item/repository/ItemRepositoryImpl.java:34-52 | NotFound when the caller is not the owner or the owner is unknown. Otherwise only that item is patched. |
| ItemStore.ItemRepository.GetItem | src/main/java/ru/practicum/shareit/item/repository/ItemRepositoryImpl.java:55-60 | The stored item, or NotFound exactly when the id is absent. |
| ItemStore.ItemRepository.GetAllOwnerItems | src/main/java/ru/practicum/shareit/item/repository/ItemRepositoryImpl.java:63-67 | Exactly the owner's stored items. |
| ItemStore.ItemRepository.SearchItem | src/main/java/ru/practicum/shareit/item/repository/ItemRepositoryImpl.java:70-76 | Exactly the available items whose lower-cased name or description contains the lower-cased text. |
| ItemStore.ItemRepository.SearchEmptyText | src/main/java/ru/practicum/shareit/item/repository/ItemRepositoryImpl.java:70-76 | Searching for the empty text finds every available item. |
| ItemStore.ItemRepository.OwnerListsPartition | src/main/java/ru/practicum/shareit/item/repository/ItemRepositoryImpl.java:63-67 | Every item is in its owner's list and in no other. |
| UserAccounts.EmailsOf | src/main/java/ru/practicum/shareit/user/service/UserServiceImpl.java:25 | The set of emails in use is exactly the emails of the stored users. |
| UserAccounts.EmailSetMatchesScan | src/main/java/ru/practicum/shareit/user/service/UserServiceImpl.java:36-37 | The email-set test used on update agrees with the repository's scan over all users. |
| UserAccounts.EmailSetMatchesScanOnSave | src/main/java/ru/practicum/shareit/user/service/UserServiceImpl.java:25 | The email-set test used on save agrees with the repository's scan. |
| UserAccounts.EmailsAfterChange | src/main/java/ru/practicum/shareit/user/service/UserServiceImpl.java:40-42 | Replacing a user's email with an unused one removes the old email from the set, adds the new one, and keeps emails unique. |
| UserAccounts.EmailsAfterInsert | src/main/java/ru/practicum/shareit/user/service/UserServiceImpl.java:23-29 | Adding a user with an unused email adds exactly that email. |
| UserAccounts.EmailsAfterRemoval | src/main/java/ru/practicum/shareit/user/service/UserServiceImpl.java:64-69 | Removing a user removes exactly that user's email. |
| UserAccounts.UserService.constructor | src/main/java/ru/practicum/shareit/user/service/UserServiceImpl.java:19-20 | No users and no emails. |
| UserAccounts.UserService.SaveUser | src/main/java/ru/practicum/shareit/user/service/UserServiceImpl.java:23-29 | BadEmail exactly when the email is in the set. Otherwise the user is stored under a new id and the email is added. The set stays equal to the stored emails. |
| UserAccounts.UserService.UpdateUser | src/main/java/ru/practicum/shareit/user/service/UserServiceImpl.java:32-48 | NotFound for an unknown id. BadEmail exactly when a new email is in use and differs from the user's own. Otherwise the user is patched and the set swaps the old email for the new one. |
| UserAccounts.UserService.GetUser | src/main/java/ru/practicum/shareit/user/service/UserServiceImpl.java:58-61 | The stored user, or NotFound exactly when the id is absent. |
| UserAccounts.UserService.DeleteUser | src/main/java/ru/practicum/shareit/user/service/UserServiceImpl.java:64-69 | NotFound for an unknown id. Otherwise the user and their email are removed. |

## Left out

- Controllers, the gateway's forwarding of other calls, `ErrorHandler` and HTTP status codes are left out. Exceptions are modelled as `Result` error values.
- Comment storage is left out. `loadComments` always leaves the empty list of the mapper, and a created comment carries no id.
- Item requests and their service are left out. `ItemService.SaveItem` takes the looked-up request (or none) as a parameter.
- `getAllUsers` of the in-memory repositories and the user service is left out, because it only copies the map's values.
- The clock is one `now` parameter per operation.
  - `loadBookings` reads `LocalDateTime.now()` twice; the model uses one instant.
  - `fromBookingDtoRequest` reads the clock itself.
- Bean validation of DTOs is left out: blank names, email format, and the `@Positive` and `@PositiveOrZero` paging parameters.
  - `from` and `size` are natural numbers. The paged operations require `size > 0`, which the gateway controllers enforce.
- BookingMapper.ToBookingDto: the `BookingMapper` of the `src` module defines no `toBookingDto`, although `ItemServiceImpl.java:102` and `:110` call it. The model gives it the fields of the server's `BookingDto`.
- BookingService.SaveBooking: the server builds the new booking with its own `BookingMapper.toBooking` (server `BookingServiceImpl.java:48`), whose definition is not in this model. The model assumes that it behaves like the `src` module's `fromBookingDtoRequest`: the requested interval, item and booker, status WAITING, and creation time `now`.
- ItemMapper.ToItem: does not carry the DTO's id. `toItem` copies `itemDto.getId()` (`ItemMapper.java:29`), so a create request that carries an id makes `save` merge over the stored item with that id. The model does not capture that merge: a saved item always gets a new id.
- ItemMapper.ToItem: requires name, description and availability to be present, which the controller's validation guarantees.
- ItemService.SearchItem: the JPQL `upper(...) like upper(concat('%', ?1, '%'))` is modelled as case-insensitive `contains` over ASCII letters. `%` and `_` in the text are not treated as wildcards.
- ItemService.SearchItem: the search query has no sort, and its order is modelled as increasing id.
- TextSearch.ToLower: Unicode case mapping is not modelled; only `A`-`Z` are lowered.
- ItemStore.ItemRepository.GetAllOwnerItems: returns a map keyed by id rather than a list in `HashMap` iteration order.
- ItemStore.ItemRepository.SearchItem: returns a map keyed by id rather than a list in `HashMap` iteration order.
- ItemStore.ItemRepository.UpdateItem: requires the item to exist. The source dereferences the missing entry and fails with a `NullPointerException`.
- Entities are updated in place in the source, and callers may keep references to them.
  - The model replaces the stored value instead. So it does not capture aliasing between a returned entity and the stored one.
  - The repositories' maps are `static` in the source and shared between instances; each model instance has its own.
- UserAccounts.UserService: `UserServiceImpl` calls `getEmailUniqSet`, `addEmailToSet`, `removeEmailFromSet`, `saveUser(User)` returning the user, and `updateUser(User)`. The `UserRepository` interface (`UserRepository.java:9-19`) declares none of these, and `UserRepositoryImpl` does not implement them. The model gives that repository this behaviour:
  - `saveUser` stores the user under the next id and adds the email to the set. `UserServiceImpl.saveUser` (`UserServiceImpl.java:23-29`) never adds the email itself.
  - The invariant that the set equals the stored users' emails after a save rests on this assumption.
  - `updateUser(User)` stores the updated user under its id.
- Transactions, concurrency and database constraints are left out.
