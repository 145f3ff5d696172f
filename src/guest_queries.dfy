/** The client's query cache for guests (react-query), reduced to what the
    guest mutations do to it: the list lives under ["guests"], each guest
    under ["guest", id], and every successful mutation updates, removes or
    marks entries stale. Filters match by key prefix, as react-query's do by
    default. When stale entries are refetched is the library's scheduling and
    is left out. */
module GuestQueries {
  import opened Wrappers
  import opened Json
  import opened GuestTypes
  import GuestHandler

  datatype KeyPart = Str(s: string) | Num(n: int) | Nothing

  type QueryKey = seq<KeyPart>

  /** `guestQueryKeys.all`. */
  const ListKey: QueryKey := [Str("guests")]

  /** `guestQueryKeys.detail(id)`. */
  function DetailKey(id: int): QueryKey { [Str("guest"), Num(id)] }

  datatype Entry = Entry(data: Json, stale: bool)

  type Cache = map<QueryKey, Entry>

  /** A filter `{ queryKey: filter }` selects every key it is a prefix of. */
  predicate Selects(filter: QueryKey, key: QueryKey) { filter <= key }

  /** The list key and the detail keys select only themselves among each other. */
  lemma KeysDistinct(id: int, other: int)
    ensures !Selects(ListKey, DetailKey(id)) && !Selects(DetailKey(id), ListKey)
    ensures Selects(DetailKey(id), DetailKey(other)) <==> id == other
  {
    assert ListKey[0] != DetailKey(id)[0];
    if Selects(DetailKey(id), DetailKey(other)) {
      assert DetailKey(id)[1] == DetailKey(other)[1];
    }
  }

  /** `invalidateQueries`: the selected entries become stale, data kept. */
  function Invalidate(c: Cache, filter: QueryKey): (r: Cache)
    ensures r.Keys == c.Keys
    ensures forall k | k in c :: r[k].data == c[k].data
    ensures forall k | k in c :: r[k].stale == (c[k].stale || Selects(filter, k))
  {
    map k | k in c :: if Selects(filter, k) then Entry(c[k].data, true) else c[k]
  }

  /** `removeQueries`: the selected entries are dropped. */
  function Remove(c: Cache, filter: QueryKey): (r: Cache)
    ensures forall k :: k in r <==> k in c && !Selects(filter, k)
    ensures forall k | k in r :: r[k] == c[k]
  {
    map k | k in c && !Selects(filter, k) :: c[k]
  }

  /** `setQueryData`: a fresh entry for the key. */
  function SetData(c: Cache, key: QueryKey, data: Json): (r: Cache)
    ensures key in r && r[key] == Entry(data, false)
    ensures forall k | k != key :: (k in r <==> k in c) && (k in c ==> r[k] == c[k])
  {
    c[key := Entry(data, false)]
  }

  // ---------------------------------------------------------------------
  // What each mutation leaves in the cache

  /** Create: on success only the list is marked stale. */
  function AfterCreate(c: Cache, r: Result<Guest, string>): Cache {
    if r.Success? then Invalidate(c, ListKey) else c
  }

  /** Update: on success the returned guest becomes its own detail entry,
      then the list is marked stale. */
  function AfterUpdate(c: Cache, r: Result<Guest, string>): Cache {
    if r.Success? then Invalidate(SetData(c, DetailKey(r.value.id), GuestHandler.GuestJson(r.value)), ListKey) else c
  }

  /** Delete: on success the guest's detail entry is dropped and the list
      marked stale. */
  function AfterDelete(c: Cache, id: int, r: Result<(), string>): Cache {
    if r.Success? then Invalidate(Remove(c, DetailKey(id)), ListKey) else c
  }

  /** Import: on success the list is marked stale, whatever the summary says. */
  function AfterImport(c: Cache, r: Result<Json, string>): Cache {
    if r.Success? then Invalidate(c, ListKey) else c
  }

  /** A mutation that failed leaves the cache as it was. */
  lemma FailureKeepsCache(c: Cache, id: int, msg: string)
    ensures AfterCreate(c, Failure(msg)) == c && AfterUpdate(c, Failure(msg)) == c
    ensures AfterDelete(c, id, Failure(msg)) == c && AfterImport(c, Failure(msg)) == c
  {
  }

  /** After a successful create, the list (if cached) is stale and every
      other entry, every guest's detail among them, is untouched. */
  lemma CreateTouchesOnlyList(c: Cache, g: Guest)
    ensures var r := AfterCreate(c, Success(g));
      && r.Keys == c.Keys
      && (ListKey in c ==> r[ListKey] == Entry(c[ListKey].data, true))
      && forall id | DetailKey(id) in c :: r[DetailKey(id)] == c[DetailKey(id)]
  {
    forall id | DetailKey(id) in c
      ensures AfterCreate(c, Success(g))[DetailKey(id)] == c[DetailKey(id)]
    {
      KeysDistinct(id, id);
    }
  }

  /** After a successful update the cache holds the returned guest as its
      detail, fresh, and the list (if cached) is stale; other guests' details
      are untouched. */
  lemma UpdateStoresGuest(c: Cache, g: Guest)
    ensures var r := AfterUpdate(c, Success(g));
      && r[DetailKey(g.id)] == Entry(GuestHandler.GuestJson(g), false)
      && (ListKey in c ==> r[ListKey].stale)
      && forall id | id != g.id && DetailKey(id) in c :: r[DetailKey(id)] == c[DetailKey(id)]
  {
    KeysDistinct(g.id, g.id);
    forall id | id != g.id && DetailKey(id) in c
      ensures AfterUpdate(c, Success(g))[DetailKey(id)] == c[DetailKey(id)]
    {
      KeysDistinct(id, g.id);
    }
  }

  /** After a successful delete nothing is cached under the guest's detail
      key; other guests' details are untouched. */
  lemma DeleteDropsDetail(c: Cache, id: int)
    ensures var r := AfterDelete(c, id, Success(()));
      && DetailKey(id) !in r
      && (ListKey in c ==> ListKey in r && r[ListKey].stale)
      && forall other | other != id && DetailKey(other) in c ::
           DetailKey(other) in r && r[DetailKey(other)] == c[DetailKey(other)]
  {
    KeysDistinct(id, id);
    forall other | other != id && DetailKey(other) in c
      ensures DetailKey(other) in AfterDelete(c, id, Success(()))
      ensures AfterDelete(c, id, Success(()))[DetailKey(other)] == c[DetailKey(other)]
    {
      KeysDistinct(other, id);
      KeysDistinct(id, other);
    }
  }

  // ---------------------------------------------------------------------
  // The query client

  class QueryClient {
    var cache: Cache

    constructor ()
      ensures cache == map[]
    {
      cache := map[];
    }

    method SetQueryData(key: QueryKey, data: Json)
      modifies this
      ensures cache == SetData(old(cache), key, data)
    {
      cache := cache[key := Entry(data, false)];
    }

    method RemoveQueries(filter: QueryKey)
      modifies this
      ensures cache == Remove(old(cache), filter)
    {
      cache := map k | k in cache && !Selects(filter, k) :: cache[k];
    }

    method InvalidateQueries(filter: QueryKey)
      modifies this
      ensures cache == Invalidate(old(cache), filter)
    {
      cache := map k | k in cache :: if Selects(filter, k) then Entry(cache[k].data, true) else cache[k];
    }

    /** `queryClient.clear()`: every entry is dropped. */
    method Clear()
      modifies this
      ensures cache == map[]
    {
      cache := map[];
    }

    /** `useCreateGuestMutation` once the call has settled. */
    method CreateSettled(r: Result<Guest, string>)
      modifies this
      ensures cache == AfterCreate(old(cache), r)
    {
      if r.Success? {
        InvalidateQueries(ListKey);
      }
    }

    /** `useUpdateGuestMutation` once the call has settled. */
    method UpdateSettled(r: Result<Guest, string>)
      modifies this
      ensures cache == AfterUpdate(old(cache), r)
    {
      if r.Success? {
        SetQueryData(DetailKey(r.value.id), GuestHandler.GuestJson(r.value));
        InvalidateQueries(ListKey);
      }
    }

    /** `useDeleteGuestMutation` once the call has settled. */
    method DeleteSettled(id: int, r: Result<(), string>)
      modifies this
      ensures cache == AfterDelete(old(cache), id, r)
    {
      if r.Success? {
        RemoveQueries(DetailKey(id));
        InvalidateQueries(ListKey);
      }
    }

    /** `useImportGuestsMutation` once the call has settled. */
    method ImportSettled(r: Result<Json, string>)
      modifies this
      ensures cache == AfterImport(old(cache), r)
    {
      if r.Success? {
        InvalidateQueries(ListKey);
      }
    }
  }
}
