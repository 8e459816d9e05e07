/**
 * The services hook of the front end
 * (src/features/services/hooks/useServices.ts): which service is selected,
 * whether the operator is inside it and at which item, the items of the
 * selected service joined to their songs, and the calls it makes on the
 * services table.
 *
 * The list of the organisation's services, as the live query last
 * delivered it, is a parameter (`None` while it is loading).
 */
module UseServices {
  import opened Wrappers
  import opened Text
  import opened Types
  import opened Services

  /** What a call of the hook can end in besides success. */
  datatype HookError =
    | Rejected(reason: ServiceError)   // the mutation threw
    | NoSuchMutation                   // the backend has no `services.reorderServices`

  /** The song an item carries: `null` for a non-song item, `undefined` for a song not found. */
  datatype ItemSong = NoSong | SongNotFound | SongOf(song: Song)

  /** An entry of `serviceItems`. */
  datatype ResolvedItem = ResolvedItem(item: ServiceItem, song: ItemSong, index: int)

  /** Line 89: whether the loaded list holds a service with this id. */
  predicate Listed(services: seq<Service>, id: string) {
    exists s | s in services :: s.id == id
  }

  /** Lines 98-101: `selectedService` */
  function SelectedService(services: Option<seq<Service>>, selected: Option<string>): (r: Option<Service>)
    ensures r.Some? ==> services.Some? && selected.Some? && r.value in services.value && r.value.id == selected.value
    ensures services.Some? && selected.Some? && selected.value != "" && Listed(services.value, selected.value) ==> r.Some?
  {
    if selected.None? || selected.value == "" || services.None? then None
    else
      var i := FindService(services.value, selected.value);
      if i < |services.value| then Some(services.value[i]) else None
  }


  /** Lines 106-112: one item joined to its song. */
  function Resolve(item: ServiceItem, songs: seq<Song>, index: int): ResolvedItem {
    if item.kind == SongItem then
      var k := FindSong(songs, item.refId);
      ResolvedItem(item, if k < |songs| then SongOf(songs[k]) else SongNotFound, index)
    else ResolvedItem(item, NoSong, index)
  }

  /** Lines 104-113: `serviceItems`; the songs are `None` while their query loads. */
  function ServiceItems(selected: Option<Service>, songs: Option<seq<Song>>): (r: seq<ResolvedItem>)
    ensures selected.None? || songs.None? ==> r == []
    ensures selected.Some? && songs.Some? ==> |r| == |selected.value.items|
    ensures selected.Some? && songs.Some? ==>
      forall i | 0 <= i < |r| :: r[i].index == i && r[i].item == selected.value.items[i]
  {
    if selected.None? || songs.None? then []
    else seq(|selected.value.items|, i requires 0 <= i < |selected.value.items| => Resolve(selected.value.items[i], songs.value, i))
  }

  /**
   * A song item carries the first song with its id, or `undefined` when no
   * song has it; every other item carries `null`.
   */
  lemma ServiceItemSongs(selected: Service, songs: seq<Song>, i: nat)
    requires i < |selected.items|
    ensures var r := ServiceItems(Some(selected), Some(songs))[i]; var item := selected.items[i];
      && (item.kind != SongItem ==> r.song == NoSong)
      && (item.kind == SongItem ==> (r.song.SongOf? <==> exists s | s in songs :: s.id == item.refId))
      && (item.kind == SongItem ==> r.song != NoSong)
      && (r.song.SongOf? ==> exists k | 0 <= k < |songs| :: && songs[k] == r.song.song
                                                           && songs[k].id == item.refId
                                                           && forall m | 0 <= m < k :: songs[m].id != item.refId)
  {
    var item := selected.items[i];
    var r := ServiceItems(Some(selected), Some(songs))[i];
    assert r == Resolve(item, songs, i);
    if item.kind == SongItem {
      var k := FindSong(songs, item.refId);
      if k == |songs| {
        assert forall s | s in songs :: s.id != item.refId;
      }
    }
  }

  class ServicesHook {
    const table: ServiceTable
    const orgId: Option<string>
    var selectedServiceId: Option<string>
    var isInsideService: bool
    var serviceItemIndex: Option<int>

    /** Lines 52-56: nothing selected at first. */
    constructor(table: ServiceTable, orgId: Option<string>)
      ensures this.table == table && this.orgId == orgId
      ensures selectedServiceId == None && !isInsideService && serviceItemIndex == None
    {
      this.table := table;
      this.orgId := orgId;
      selectedServiceId := None;
      isInsideService := false;
      serviceItemIndex := None;
    }

    /** Lines 86-96: a selected id missing from the loaded list resets the selection. */
    method ValidateSelection(services: Option<seq<Service>>)
      modifies this
      ensures (services.Some? && old(selectedServiceId).Some? && old(selectedServiceId).value != "" &&
               !Listed(services.value, old(selectedServiceId).value)) ==>
        selectedServiceId == None && !isInsideService && serviceItemIndex == None
      ensures !(services.Some? && old(selectedServiceId).Some? && old(selectedServiceId).value != "" &&
                !Listed(services.value, old(selectedServiceId).value)) ==>
        selectedServiceId == old(selectedServiceId) && isInsideService == old(isInsideService) &&
        serviceItemIndex == old(serviceItemIndex)
      ensures services.Some? && selectedServiceId.Some? && selectedServiceId.value != "" ==>
        Listed(services.value, selectedServiceId.value)
    {
      if services.Some? && selectedServiceId.Some? && selectedServiceId.value != "" {
        var found := FindService(services.value, selectedServiceId.value) < |services.value|;
        if !found {
          selectedServiceId := None;
          isInsideService := false;
          serviceItemIndex := None;
        }
      }
    }

    /**
     * Lines 115-119: `createNewService` stores the trimmed name; no org (a
     * missing or empty id is falsy) or a blank name creates nothing.
     */
    method CreateNewService(name: string, now: int) returns (id: Option<string>)
      requires table.Valid()
      modifies table
      ensures table.Valid()
      ensures orgId.None? || orgId.value == "" || Trim(name) == "" ==> id == None && table.rows == old(table.rows)
      ensures orgId.Some? && orgId.value != "" && Trim(name) != "" ==> (id.Some? && id.value !in old(table.rows) &&
        table.rows == old(table.rows)[id.value := Service(id.value, now, orgId.value, Trim(name), None, [], now)])
    {
      if orgId.None? || orgId.value == "" || Trim(name) == "" {
        return None;
      }
      var created := table.Create(orgId.value, Trim(name), None, now);
      id := Some(created);
    }

    /** Lines 121-126 */
    method RenameExistingService(serviceId: string, name: string) returns (r: Result<string, ServiceError>)
      requires table.Valid()
      modifies table
      ensures table.Valid()
      ensures serviceId !in old(table.rows) ==> r == Failure(ServiceNotFound) && table.rows == old(table.rows)
      ensures serviceId in old(table.rows) ==> (r == Success(serviceId) &&
        table.rows == old(table.rows)[serviceId := old(table.rows)[serviceId].(name := name)])
    {
      r := table.Rename(serviceId, name);
    }

    /**
     * Lines 128-134: `deleteService`; deleting the selected service
     * deselects it and leaves the service, but not the item index.
     */
    method DeleteService(serviceId: string) returns (r: Result<(), ServiceError>)
      requires table.Valid()
      modifies this, table
      ensures table.Valid()
      ensures r.Failure? ==> table.rows == old(table.rows)
      ensures r.Success? ==> table.rows == old(table.rows) - {serviceId}
      ensures r.Success? <==> serviceId in old(table.rows)
      ensures serviceItemIndex == old(serviceItemIndex)
      ensures r.Success? && old(selectedServiceId) == Some(serviceId) ==> selectedServiceId == None && !isInsideService
      ensures r.Failure? || old(selectedServiceId) != Some(serviceId) ==>
        selectedServiceId == old(selectedServiceId) && isInsideService == old(isInsideService)
    {
      r := table.Remove(serviceId);
      if r.Failure? {
        return;
      }
      if selectedServiceId == Some(serviceId) {
        selectedServiceId := None;
        isInsideService := false;
      }
    }

    /** Lines 136-141: a song item has no label. */
    method AddSongToService(serviceId: string, songId: string, now: int) returns (r: Result<string, ServiceError>)
      requires table.Valid()
      modifies table
      ensures table.Valid()
      ensures serviceId !in old(table.rows) ==> r == Failure(ServiceNotFound) && table.rows == old(table.rows)
      ensures serviceId in old(table.rows) ==> (r == Success(serviceId) &&
        var s := old(table.rows)[serviceId];
        table.rows == old(table.rows)[serviceId := s.(items := s.items + [ServiceItem(SongItem, songId, None, now)])])
    {
      r := table.AddItem(serviceId, SongItem, songId, None, now);
    }

    /** Lines 143-154: a media item is labelled with the media's name. */
    method AddMediaToService(serviceId: string, mediaId: string, mediaName: string, now: int)
      returns (r: Result<string, ServiceError>)
      requires table.Valid()
      modifies table
      ensures table.Valid()
      ensures serviceId !in old(table.rows) ==> r == Failure(ServiceNotFound) && table.rows == old(table.rows)
      ensures serviceId in old(table.rows) ==> (r == Success(serviceId) &&
        var s := old(table.rows)[serviceId];
        table.rows == old(table.rows)[serviceId := s.(items := s.items + [ServiceItem(MediaItem, mediaId, Some(mediaName), now)])])
    {
      r := table.AddItem(serviceId, MediaItem, mediaId, Some(mediaName), now);
    }

    /** Lines 156-167: a scripture item is the reference, labelled with the text. */
    method AddScriptureToService(serviceId: string, reference: string, text: string, now: int)
      returns (r: Result<string, ServiceError>)
      requires table.Valid()
      modifies table
      ensures table.Valid()
      ensures serviceId !in old(table.rows) ==> r == Failure(ServiceNotFound) && table.rows == old(table.rows)
      ensures serviceId in old(table.rows) ==> (r == Success(serviceId) &&
        var s := old(table.rows)[serviceId];
        table.rows == old(table.rows)[serviceId := s.(items := s.items + [ServiceItem(ScriptureItem, reference, Some(text), now)])])
    {
      r := table.AddItem(serviceId, ScriptureItem, reference, Some(text), now);
    }

    /** Lines 169-174 */
    method RemoveFromService(serviceId: string, index: int) returns (r: Result<string, ServiceError>)
      requires table.Valid()
      modifies table
      ensures table.Valid()
      ensures serviceId !in old(table.rows) ==> r == Failure(ServiceNotFound) && table.rows == old(table.rows)
      ensures serviceId in old(table.rows) ==> (r == Success(serviceId) &&
        table.rows == old(table.rows)[serviceId := old(table.rows)[serviceId].(items := RemovedItem(old(table.rows)[serviceId].items, index))])
    {
      r := table.RemoveItem(serviceId, index);
    }

    /** Lines 176-180 */
    method EnterService(serviceId: string)
      modifies this
      ensures selectedServiceId == Some(serviceId) && isInsideService && serviceItemIndex == None
    {
      selectedServiceId := Some(serviceId);
      isInsideService := true;
      serviceItemIndex := None;
    }

    /** Lines 182-185: leaving keeps the service selected. */
    method ExitService()
      modifies this
      ensures selectedServiceId == old(selectedServiceId) && !isInsideService && serviceItemIndex == None
    {
      isInsideService := false;
      serviceItemIndex := None;
    }

    /** Line 209: `setServiceItemIndex` */
    method SetServiceItemIndex(index: Option<int>)
      modifies this
      ensures serviceItemIndex == index
      ensures selectedServiceId == old(selectedServiceId) && isInsideService == old(isInsideService)
    {
      serviceItemIndex := index;
    }

    /** Lines 187-194: moving an item onto itself calls nothing. */
    method ReorderServiceItems(serviceId: string, fromIndex: int, toIndex: int) returns (r: Result<(), HookError>)
      requires table.Valid()
      modifies table
      ensures table.Valid()
      ensures fromIndex == toIndex ==> r == Success(()) && table.rows == old(table.rows)
      ensures fromIndex != toIndex && serviceId !in old(table.rows) ==>
        r == Failure(Rejected(ServiceNotFound)) && table.rows == old(table.rows)
      ensures fromIndex != toIndex && serviceId in old(table.rows) ==>
        var moved := Reordered(old(table.rows)[serviceId].items, fromIndex, toIndex);
        && (moved.None? ==> r == Failure(Rejected(UndefinedItem)) && table.rows == old(table.rows))
        && (moved.Some? ==> (r == Success(()) &&
              table.rows == old(table.rows)[serviceId := old(table.rows)[serviceId].(items := moved.value)]))
    {
      if fromIndex == toIndex {
        return Success(());
      }
      var result := table.ReorderItems(serviceId, fromIndex, toIndex);
      if result.Failure? {
        return Failure(Rejected(result.error));
      }
      r := Success(());
    }

    /**
     * Lines 196-199: `reorderServices` names a mutation the backend does not
     * define, so every call that gets past the guard fails.
     */
    method ReorderServices(fromIndex: int, toIndex: int) returns (r: Result<(), HookError>)
      ensures r.Failure? <==> orgId.Some? && orgId.value != "" && fromIndex != toIndex
      ensures r.Failure? ==> r.error == NoSuchMutation
    {
      if orgId.None? || orgId.value == "" || fromIndex == toIndex {
        return Success(());
      }
      r := Failure(NoSuchMutation);
    }
  }
}
