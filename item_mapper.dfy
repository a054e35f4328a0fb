/** Conversions between items and item DTOs (ItemMapper). */
module ItemMapper {
  import opened Common
  import opened Domain

  /** The id of the request an item answers, if it answers one. */
  function RequestIdOf(item: Item): (r: Option<int>)
    ensures r.Some? <==> item.request.Some?
    ensures r.Some? ==> r.value == item.request.value.id
  {
    match item.request
    case Some(request) => Some(request.id)
    case None => None
  }

  /**
   * The response view of the item stored under `id`: its fields, no comments, no last or
   * next booking, and the request id exactly when the item answers a request.
   */
  function ToItemResponseDto(id: int, item: Item): (r: ItemResponse)
    ensures r.id == id && r.name == item.name && r.description == item.description
    ensures r.available == item.available
    ensures r.comments == [] && r.lastBooking.None? && r.nextBooking.None?
    ensures r.requestId.Some? <==> item.request.Some?
    ensures r.requestId.Some? ==> r.requestId.value == item.request.value.id
  {
    ItemResponse(id, item.name, item.description, item.available, None, None, [], RequestIdOf(item))
  }

  /**
   * The item described by a creation DTO, owned by `ownerId` and answering `request`. The
   * DTO's fields are present because creation requests are validated before they get here;
   * the DTO's id plays no part, as an item's id is the key it is saved under.
   */
  function ToItem(ownerId: int, request: Option<ItemRequest>, dto: ItemDto): (item: Item)
    requires dto.name.Some? && dto.description.Some? && dto.available.Some?
    ensures item.name == dto.name.value && item.description == dto.description.value
    ensures item.available == dto.available.value
    ensures item.ownerId == ownerId && item.request == request
  {
    Item(dto.name.value, dto.description.value, dto.available.value, ownerId, request)
  }

  /** The DTO view of the item stored under `id`, with the same optional request id rule. */
  function ToItemDto(id: int, item: Item): (d: ItemDto)
    ensures d.id == Some(id) && d.name == Some(item.name) && d.description == Some(item.description)
    ensures d.available == Some(item.available)
    ensures d.requestId.Some? <==> item.request.Some?
    ensures d.requestId.Some? ==> d.requestId.value == item.request.value.id
  {
    ItemDto(Some(id), Some(item.name), Some(item.description), Some(item.available), RequestIdOf(item))
  }

  /** Converting an item to its DTO and back, with its own owner and request, gives the item. */
  lemma ItemDtoRoundTrip(id: int, item: Item)
    ensures ToItem(item.ownerId, item.request, ToItemDto(id, item)) == item
  {
  }

  /** The DTO and the response view of an item agree on the request id. */
  lemma RequestIdAgrees(id: int, item: Item)
    ensures ToItemDto(id, item).requestId == ToItemResponseDto(id, item).requestId
  {
  }
}
