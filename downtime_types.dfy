/** Entities shared by the downtime command: the cached downtime record, the
    downtime cache table keyed by downtime id, and the errors the command
    returns. Dates are instants in whole seconds. */
module DowntimeTypes {
  import opened Wrappers

  /** GOCDB's identifier of a downtime (the key of the source dictionary and
      of the cache table). */
  type DowntimeID = string

  /** The `element` argument: only these two values are accepted. */
  datatype Element = Site | Resource

  function ElementName(e: Element): string {
    match e
    case Site => "Site"
    case Resource => "Resource"
  }

  /** One row of the downtime cache, as written by `addOrModifyDowntimeCache`. */
  datatype DowntimeRecord = DowntimeRecord(
    id: DowntimeID,
    element: Element,
    name: string,
    startDate: int,
    endDate: int,
    severity: string,
    description: string,
    link: string,
    serviceType: Option<string>)

  /** The downtime cache table: at most one row per downtime id. */
  type Cache = map<DowntimeID, DowntimeRecord>

  /** Every row is stored under its own downtime id. */
  predicate KeyedById(cache: Cache) {
    forall id | id in cache :: cache[id].id == id
  }

  /** The error messages (`S_ERROR`) the downtime command produces or passes on. */
  datatype Failure =
    | MissingArgument(key: string)            // "name", "element" or "elementType" not in args
    | NotSiteOrResource(element: string)      // element is neither Site nor Resource
    | StorageElementUnavailable(se: string)   // the StorageElement object cannot be built
    | HostLookupFailed(se: string)            // getSEHost returned an error
    | NoHost(se: string)                      // getSEHost returned an empty host
    | SourceUnreachable(reason: string)       // getStatus raised URLError twice
    | SourceFailed(message: string)           // getStatus returned S_ERROR
    | SelectFailed(name: string)              // selectDowntimeCache returned S_ERROR
    | LinkListFailed(message: string)         // getCurrentDTLinkList returned S_ERROR
    | NameMissing                             // neither HOSTNAME nor SITENAME usable
    | ServiceTypeMismatch(declared: string, reported: string, name: string)  // CS-derived vs GOCDB service type
    | UpsertFailed(id: DowntimeID)            // addOrModifyDowntimeCache returned S_ERROR
    | NothingStored                           // _storeCommand on an empty list (unbound resQuery)
    | InventoryFailed(message: string)        // a site or storage host listing failed
}
