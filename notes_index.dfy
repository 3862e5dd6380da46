/**
 * `getNotesService` (notes_frontend/src/services/notes/index.ts): the remote
 * backend when `createIfReachable` yields one, else the local backend.
 */
module NotesIndex {
  import opened Types
  import opened ApiService
  import opened LocalStorageService

  /** The backend handed to the presentation layer. */
  datatype Backend = Remote(base: string) | Local

  /**
   * The backend chosen for one acquisition, given the configuration and the
   * reply to the `/notes` probe. No probe is sent without a configured base.
   */
  function SelectBackend<J>(apiBase: Option<string>, backendUrl: Option<string>, notes: Reply<J>): (b: Backend)
    ensures !IsSet(apiBase) && !IsSet(backendUrl) ==> b == Local && ProbeRequests(apiBase, backendUrl) == []
    ensures FetchJson(notes).Err? ==> b == Local
    ensures b.Remote? <==> GetApiBase(apiBase, backendUrl).Some? && FetchJson(notes).Ok?
    ensures b.Remote? ==> b.base == StripTrailingSlashes(GetApiBase(apiBase, backendUrl).value)
  {
    match ReachableBase(apiBase, backendUrl, notes)
    case Some(base) => Remote(StripTrailingSlashes(base))
    case None => Local
  }

  /** A backend object, as `NotesService` is implemented by either class. */
  datatype NotesService = Api(api: ApiNotesService) | LocalStore(store: LocalStorageNotesService)

  /**
   * `getNotesService`: the remote backend if `createIfReachable` yields one,
   * else a new local backend over the storage as it stands.
   */
  method GetNotesService<H, J>(apiBase: Option<string>, backendUrl: Option<string>,
                               health: Reply<H>, notes: Reply<J>,
                               storageAvailable: bool, storage: Slot)
    returns (service: NotesService)
    ensures service.Api? <==> SelectBackend(apiBase, backendUrl, notes).Remote?
    ensures service.Api? ==> fresh(service.api) && service.api.base == SelectBackend(apiBase, backendUrl, notes).base
    ensures service.LocalStore? ==>
      fresh(service.store) && service.store.available == storageAvailable && service.store.slot == storage
  {
    var api := ApiNotesService.CreateIfReachable(apiBase, backendUrl, health, notes);
    if api != null {
      return Api(api);
    }
    var local := new LocalStorageNotesService(storageAvailable, storage);
    service := LocalStore(local);
  }
}
