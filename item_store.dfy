/**
 * ItemRepositoryImpl: the in-memory item table, a map from id to item with its own id
 * counter, checking owners against the in-memory user table.
 */
module ItemStore {
  import opened Common
  import opened Domain
  import opened TextSearch
  import opened Updates
  import opened UserStore

  class ItemRepository {
    const userRepository: UserRepository
    var items: map<int, Item>
    var generatedId: int

    /** Every id was handed out by the counter. */
    ghost predicate Valid()
      reads this
    {
      0 <= generatedId && forall id :: id in items ==> 1 <= id <= generatedId
    }

    constructor (userRepository: UserRepository)
      ensures Valid() && this.userRepository == userRepository
      ensures items == map[] && generatedId == 0
    {
      this.userRepository := userRepository;
      items := map[];
      generatedId := 0;
    }

    /** `generateId`: advances the counter and returns its new value. */
    method GenerateId() returns (id: int)
      modifies this
      ensures generatedId == old(generatedId) + 1 && id == generatedId
      ensures items == old(items)
    {
      generatedId := generatedId + 1;
      id := generatedId;
    }

    /** `saveItem`: an unknown owner is refused; otherwise the item is stored under a fresh id. */
    method SaveItem(item: Item) returns (r: Result<int>)
      requires Valid()
      modifies this
      ensures Valid()
      ensures r.Ok? || r.NotFound?
      ensures r.NotFound? <==> userRepository.GetUser(item.ownerId).None?
      ensures r.NotFound? ==> items == old(items) && generatedId == old(generatedId)
      ensures r.Ok? ==> r.value == generatedId == old(generatedId) + 1
      ensures r.Ok? ==> (forall id :: id in old(items) ==> id < r.value) && items == old(items)[r.value := item]
      ensures r.Ok? ==> GetItem(r.value) == Ok(item)
    {
      var owner := userRepository.GetUser(item.ownerId);
      if owner.None? {
        return NotFound;
      }
      var id := GenerateId();
      items := items[id := item];
      r := Ok(id);
    }

    /**
     * `updateItem`: the caller must own the item (NotFound otherwise, before the owner is
     * looked up) and must exist; then the DTO's present fields are set on the item.
     */
    method UpdateItem(ownerId: int, dto: ItemDto, itemId: int) returns (r: Result<Item>)
      requires Valid() && itemId in items
      modifies this
      ensures Valid() && generatedId == old(generatedId)
      ensures r.Ok? || r.NotFound?
      ensures r.NotFound? <==> old(items)[itemId].ownerId != ownerId || userRepository.GetUser(ownerId).None?
      ensures r.NotFound? ==> items == old(items)
      ensures r.Ok? ==> r.value == PatchItem(old(items)[itemId], dto) && items == old(items)[itemId := r.value]
    {
      if items[itemId].ownerId != ownerId {
        return NotFound;
      }
      var owner := userRepository.GetUser(ownerId);
      if owner.None? {
        return NotFound;
      }
      var item := items[itemId];
      if dto.name.Some? {
        item := item.(name := dto.name.value);
      }
      if dto.description.Some? {
        item := item.(description := dto.description.value);
      }
      if dto.available.Some? {
        item := item.(available := dto.available.value);
      }
      items := items[itemId := item];
      r := Ok(item);
    }

    /** `getItem`: the stored item, or NotFound. */
    function GetItem(itemId: int): (r: Result<Item>)
      reads this
      ensures r.Ok? || r.NotFound?
      ensures r.NotFound? <==> itemId !in items
      ensures r.Ok? ==> r.value == items[itemId]
    {
      if itemId !in items then NotFound else Ok(items[itemId])
    }

    /** `getAllOwnerItems`: exactly the stored items of that owner, under their ids. */
    function GetAllOwnerItems(ownerId: int): (r: map<int, Item>)
      reads this
      ensures forall id :: id in r <==> id in items && items[id].ownerId == ownerId
      ensures forall id :: id in r ==> r[id] == items[id]
    {
      map id | id in items && items[id].ownerId == ownerId :: items[id]
    }

    /**
     * `searchItem`: exactly the available stored items whose name or description contains
     * the text, ignoring case.
     */
    function SearchItem(text: string): (r: map<int, Item>)
      reads this
      ensures forall id :: id in r <==>
                id in items && items[id].available && MatchesText(items[id].name, items[id].description, text)
      ensures forall id :: id in r ==> r[id] == items[id]
    {
      map id | id in items && items[id].available && MatchesText(items[id].name, items[id].description, text) :: items[id]
    }

    /** Searching for the empty text finds every available item. */
    lemma SearchEmptyText()
      ensures forall id :: id in SearchItem([]) <==> id in items && items[id].available
    {
      forall id | id in items
        ensures MatchesText(items[id].name, items[id].description, [])
      {
        ContainsEmpty(ToLower(items[id].name));
      }
    }

    /** The owners' lists split the table: every item is in exactly its owner's list. */
    lemma OwnerListsPartition(id: int, ownerId: int)
      requires id in items
      ensures id in GetAllOwnerItems(ownerId) <==> ownerId == items[id].ownerId
    {
    }
  }
}
