/**
 * Partial updates from DTOs: a field present in the DTO replaces the stored one, an
 * absent (null) field leaves it as it is. Used by the item and user stores and services.
 */
module Updates {
  import opened Common
  import opened Domain

  /** The item after `updateItem`'s setters: name, description and availability only. */
  function PatchItem(item: Item, dto: ItemDto): (r: Item)
    ensures dto.name.Some? ==> r.name == dto.name.value
    ensures dto.name.None? ==> r.name == item.name
    ensures dto.description.Some? ==> r.description == dto.description.value
    ensures dto.description.None? ==> r.description == item.description
    ensures dto.available.Some? ==> r.available == dto.available.value
    ensures dto.available.None? ==> r.available == item.available
    ensures r.ownerId == item.ownerId && r.request == item.request
  {
    var named := if dto.name.Some? then item.(name := dto.name.value) else item;
    var described := if dto.description.Some? then named.(description := dto.description.value) else named;
    if dto.available.Some? then described.(available := dto.available.value) else described
  }

  /** A DTO with no fields changes nothing. */
  lemma PatchItemEmpty(item: Item, id: Option<int>, requestId: Option<int>)
    ensures PatchItem(item, ItemDto(id, None, None, None, requestId)) == item
  {
  }

  /** Applying the same update twice is applying it once. */
  lemma PatchItemIdempotent(item: Item, dto: ItemDto)
    ensures PatchItem(PatchItem(item, dto), dto) == PatchItem(item, dto)
  {
  }

  /** The DTO's id and request id play no part in an update. */
  lemma PatchItemIgnoresIds(item: Item, dto: ItemDto, id: Option<int>, requestId: Option<int>)
    ensures PatchItem(item, dto.(id := id, requestId := requestId)) == PatchItem(item, dto)
  {
  }

  /** The user after the setters of `updateUser`: email and name only. */
  function PatchUser(user: User, dto: UserDto): (r: User)
    ensures dto.email.Some? ==> r.email == dto.email.value
    ensures dto.email.None? ==> r.email == user.email
    ensures dto.name.Some? ==> r.name == dto.name.value
    ensures dto.name.None? ==> r.name == user.name
  {
    var mailed := if dto.email.Some? then user.(email := dto.email.value) else user;
    if dto.name.Some? then mailed.(name := dto.name.value) else mailed
  }

  /** A DTO with no fields changes nothing. */
  lemma PatchUserEmpty(user: User)
    ensures PatchUser(user, UserDto(None, None)) == user
  {
  }

  /** Applying the same update twice is applying it once. */
  lemma PatchUserIdempotent(user: User, dto: UserDto)
    ensures PatchUser(PatchUser(user, dto), dto) == PatchUser(user, dto)
  {
  }
}
