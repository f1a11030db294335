/** Ingestion of downtimes (`doNew`, `_cleanCommand`, `_storeCommand`) stated
    as functions of the cache before the call: the GOCDB fetch with its single
    retry, the reconciliation of the cache against the live link list, the
    normalisation of raw GOCDB records and the upsert of every normalised
    record. The class in DowntimeCommands performs the same steps in place
    and is proved equal to these functions. */
module DowntimeIngest {
  import opened Wrappers
  import opened Strings
  import opened DowntimeTypes
  import opened DowntimeNames

  // ---------------------------------------------------------------------------
  // The GOCDB client and the failures of the cache store, as inputs
  // ---------------------------------------------------------------------------

  /** One downtime as GOCDB returns it. `hostName` and `siteName` are the
      HOSTNAME and SITENAME keys (None: key absent); `serviceType` is
      SERVICE_TYPE; the dates are FORMATED_START_DATE / FORMATED_END_DATE.
      The five keys read without a default are always present here. */
  datatype RawDowntime = RawDowntime(
    hostName: Option<string>,
    siteName: Option<string>,
    serviceType: Option<string>,
    startDate: int,
    endDate: int,
    severity: string,
    description: string,
    portalUrl: string)

  /** One item of the dictionary `getStatus` returns, in its iteration order. */
  datatype Entry = Entry(id: DowntimeID, raw: RawDowntime)

  /** The arguments of `getStatus`. */
  datatype StatusQuery = StatusQuery(element: Element, names: seq<string>, hours: Option<int>)

  /** What one call of `getStatus` does: raise URLError, or return S_OK with a
      dictionary or None, or S_ERROR. */
  datatype Attempt = UrlError(reason: string) | Answered(reply: Result<Option<seq<Entry>>, string>)

  /** The GOCDB client: `getStatus(q, n)` is the outcome of the n-th call
      (0 or 1) with arguments `q`; `currentLinks` is what
      `getCurrentDTLinkList` returns. */
  datatype Gocdb = Gocdb(
    getStatus: (StatusQuery, nat) -> Attempt,
    currentLinks: Result<set<string>, string>)

  /** Failures of the cache store: the names whose `selectDowntimeCache` fails,
      the downtime ids whose `addOrModifyDowntimeCache` fails and the
      downtime ids whose `deleteDowntimeCache` fails. */
  datatype StoreFaults = StoreFaults(selectFails: set<string>, upsertFails: set<DowntimeID>,
                                     deleteFails: set<DowntimeID>)

  // ---------------------------------------------------------------------------
  // Fetch with one retry
  // ---------------------------------------------------------------------------

  function AsFailure(reply: Result<Option<seq<Entry>>, string>): Result<Option<seq<Entry>>, Failure> {
    match reply
    case Ok(v) => Ok(v)
    case Err(m) => Err(SourceFailed(m))
  }

  /** `getStatus` is called a second time only when the first call raised
      URLError, and the command gives up only when the second call raised
      URLError too. */
  function FetchStatus(gocdb: Gocdb, q: StatusQuery): (r: Result<Option<seq<Entry>>, Failure>)
    ensures gocdb.getStatus(q, 0).Answered? ==> r == AsFailure(gocdb.getStatus(q, 0).reply)
    ensures gocdb.getStatus(q, 0).UrlError? && gocdb.getStatus(q, 1).Answered? ==>
              r == AsFailure(gocdb.getStatus(q, 1).reply)
    ensures (r.Err? && r.error.SourceUnreachable?) <==>
              gocdb.getStatus(q, 0).UrlError? && gocdb.getStatus(q, 1).UrlError?
  {
    match gocdb.getStatus(q, 0)
    case Answered(reply) => AsFailure(reply)
    case UrlError(_) =>
      match gocdb.getStatus(q, 1)
      case Answered(reply) => AsFailure(reply)
      case UrlError(reason) => Err(SourceUnreachable(reason))
  }

  // ---------------------------------------------------------------------------
  // Normalisation of one GOCDB record
  // ---------------------------------------------------------------------------

  /** `downDic.get('HOSTNAME', downDic.get('SITENAME'))`: the host name when
      that key is present, even if it is empty, else the site name. */
  function RecordName(raw: RawDowntime): Option<string> {
    if raw.hostName.Some? then raw.hostName else raw.siteName
  }

  /** Python truthiness of an optional string. */
  predicate Truthy(s: Option<string>) {
    s.Some? && s.value != ""
  }

  /** The service type the command expects and the one GOCDB reports are both
      set and differ ignoring case. */
  predicate Mismatch(declared: Option<string>, reported: Option<string>) {
    Truthy(reported) && Truthy(declared) && Lower(declared.value) != Lower(reported.value)
  }

  function Normalise(e: Entry, element: Element, declared: Option<string>): (r: Result<DowntimeRecord, Failure>)
    ensures r.Ok? <==> Truthy(RecordName(e.raw)) && !Mismatch(declared, e.raw.serviceType)
    ensures !Truthy(RecordName(e.raw)) ==> r == Err(NameMissing)
    ensures Truthy(RecordName(e.raw)) && Mismatch(declared, e.raw.serviceType) ==>
              r.Err? && r.error.ServiceTypeMismatch?
    ensures r.Ok? ==>
              && r.value.id == e.id && r.value.element == element
              && r.value.name == RecordName(e.raw).value
              && r.value.startDate == e.raw.startDate && r.value.endDate == e.raw.endDate
              && r.value.severity == e.raw.severity && r.value.link == e.raw.portalUrl
              && r.value.serviceType == e.raw.serviceType
              && r.value.description == Without(e.raw.description, '\'')
              && '\'' !in r.value.description
              && (forall ch :: ch in r.value.description <==> ch in e.raw.description && ch != '\'')
  {
    var name := RecordName(e.raw);
    if !Truthy(name) then Err(NameMissing)
    else if Mismatch(declared, e.raw.serviceType) then
      Err(ServiceTypeMismatch(declared.value, e.raw.serviceType.value, name.value))
    else
      Ok(DowntimeRecord(e.id, element, name.value, e.raw.startDate, e.raw.endDate, e.raw.severity,
                        Without(e.raw.description, '\''), e.raw.portalUrl, e.raw.serviceType))
  }

  /** A HOSTNAME key with an empty value hides a usable SITENAME. */
  lemma EmptyHostNameHidesSiteName(e: Entry, element: Element, declared: Option<string>)
    requires e.raw.hostName == Some("") && Truthy(e.raw.siteName)
    ensures Normalise(e, element, declared) == Err(NameMissing)
  {
  }

  /** Normalising the records in iteration order, stopping at the first
      record that fails. */
  function NormaliseAll(es: seq<Entry>, element: Element, declared: Option<string>): Result<seq<DowntimeRecord>, Failure>
    decreases |es|
  {
    if es == [] then Ok([])
    else
      match NormaliseAll(es[..|es| - 1], element, declared)
      case Err(f) => Err(f)
      case Ok(done) =>
        match Normalise(es[|es| - 1], element, declared)
        case Err(f) => Err(f)
        case Ok(r) => Ok(done + [r])
  }

  /** Normalisation of the batch succeeds exactly when every record
      normalises, and then yields every record's normal form, in order. */
  lemma {:induction false} NormaliseAllSucceeds(es: seq<Entry>, element: Element, declared: Option<string>)
    ensures NormaliseAll(es, element, declared).Ok? <==>
              forall k | 0 <= k < |es| :: Normalise(es[k], element, declared).Ok?
    ensures NormaliseAll(es, element, declared).Ok? ==>
              var rs := NormaliseAll(es, element, declared).value;
              |rs| == |es| && forall k | 0 <= k < |es| :: rs[k] == Normalise(es[k], element, declared).value
    decreases |es|
  {
    if es != [] {
      var init := es[..|es| - 1];
      NormaliseAllSucceeds(init, element, declared);
      assert forall k | 0 <= k < |init| :: init[k] == es[k];
    }
  }

  /** The record at position `k` is the first one that fails to normalise. */
  predicate FirstFailureAt(es: seq<Entry>, element: Element, declared: Option<string>, k: int) {
    && 0 <= k < |es|
    && Normalise(es[k], element, declared).Err?
    && forall j | 0 <= j < k :: Normalise(es[j], element, declared).Ok?
  }

  /** A failed batch reports the error of its first failing record. */
  lemma {:induction false} NormaliseAllFirstError(es: seq<Entry>, element: Element, declared: Option<string>)
    requires NormaliseAll(es, element, declared).Err?
    ensures exists k :: FirstFailureAt(es, element, declared, k) &&
                        NormaliseAll(es, element, declared).error == Normalise(es[k], element, declared).error
    decreases |es|
  {
    var init := es[..|es| - 1];
    assert forall k | 0 <= k < |init| :: init[k] == es[k];
    if NormaliseAll(init, element, declared).Err? {
      NormaliseAllFirstError(init, element, declared);
      var k :| FirstFailureAt(init, element, declared, k) &&
                NormaliseAll(init, element, declared).error == Normalise(init[k], element, declared).error;
      assert FirstFailureAt(es, element, declared, k);
    } else {
      NormaliseAllSucceeds(init, element, declared);
      assert FirstFailureAt(es, element, declared, |es| - 1);
    }
  }

  // ---------------------------------------------------------------------------
  // Reconciliation of the cache (`_cleanCommand`)
  // ---------------------------------------------------------------------------

  /** A cached downtime is stale once it has ended or once GOCDB no longer
      lists its link among the current downtimes. */
  predicate Stale(r: DowntimeRecord, now: int, links: set<string>) {
    r.endDate < now || r.link !in links
  }

  /** The ids `selectDowntimeCache(element, name)` returns. */
  function CachedFor(cache: Cache, element: Element, name: string): set<DowntimeID> {
    set id | id in cache && cache[id].element == element && cache[id].name == name
  }

  /** The cache after reconciling one element name. The outcome of each
      delete is collected but never looked at, so a failed delete leaves
      its row and the reconciliation still succeeds. */
  function CleanName(cache: Cache, element: Element, name: string, now: int,
                     links: Result<set<string>, string>, faults: StoreFaults): (Result<(), Failure>, Cache)
  {
    if name in faults.selectFails then (Err(SelectFailed(name)), cache)
    else if CachedFor(cache, element, name) == {} then (Ok(()), cache)
    else if links.Err? then (Err(LinkListFailed(links.error)), cache)
    else
      (Ok(()), map id | id in cache && !(id in CachedFor(cache, element, name) && Stale(cache[id], now, links.value)
                                         && id !in faults.deleteFails)
                  :: cache[id])
  }

  /** The cache after reconciling the names in order, stopping at the first
      failure; the deletions made before a failure stay. */
  function CleanSpec(cache: Cache, element: Element, names: seq<string>, now: int,
                     links: Result<set<string>, string>, faults: StoreFaults): (Result<(), Failure>, Cache)
    decreases |names|
  {
    if names == [] then (Ok(()), cache)
    else
      var (status, before) := CleanSpec(cache, element, names[..|names| - 1], now, links, faults);
      if status.Err? then (status, before)
      else CleanName(before, element, names[|names| - 1], now, links, faults)
  }

  /** The record belongs to one of the names and is stale. */
  predicate Doomed(r: DowntimeRecord, element: Element, names: seq<string>, now: int, links: set<string>) {
    r.element == element && r.name in names && Stale(r, now, links)
  }

  /** When every select succeeds and the link list is available, a cached
      record is deleted exactly when it belongs to one of the names, is
      stale and its delete does not fail; every other record is kept
      unchanged. */
  lemma {:induction false} CleanRemovesExactlyStale(cache: Cache, element: Element, names: seq<string>, now: int,
                                                   links: set<string>, faults: StoreFaults)
    requires forall n | n in names :: n !in faults.selectFails
    ensures CleanSpec(cache, element, names, now, Ok(links), faults).0 == Ok(())
    ensures var after := CleanSpec(cache, element, names, now, Ok(links), faults).1;
            && (forall id :: id in after <==>
                  id in cache && !(Doomed(cache[id], element, names, now, links) && id !in faults.deleteFails))
            && (forall id | id in after :: after[id] == cache[id])
    decreases |names|
  {
    if names != [] {
      var init := names[..|names| - 1];
      var last := names[|names| - 1];
      assert names == init + [last];
      CleanRemovesExactlyStale(cache, element, init, now, links, faults);
      var before := CleanSpec(cache, element, init, now, Ok(links), faults).1;
      var after := CleanSpec(cache, element, names, now, Ok(links), faults).1;
      assert after == CleanName(before, element, last, now, Ok(links), faults).1;
      forall id
        ensures id in after <==> id in cache && !(Doomed(cache[id], element, names, now, links) && id !in faults.deleteFails)
      {
        if id in cache {
          if id in before {
            assert before[id] == cache[id];
            assert id in CachedFor(before, element, last) <==>
                   cache[id].element == element && cache[id].name == last;
          }
          assert cache[id].name in names <==> cache[id].name in init || cache[id].name == last;
        }
      }
    }
  }

  /** Names without cached records never need the link list: when no name
      has any, a failing link list does no harm and nothing is deleted. */
  lemma {:induction false} CleanSkipsLinkListWithoutCachedRows(cache: Cache, element: Element, names: seq<string>,
                                                              now: int, links: Result<set<string>, string>,
                                                              faults: StoreFaults)
    requires forall n | n in names :: n !in faults.selectFails && CachedFor(cache, element, n) == {}
    ensures CleanSpec(cache, element, names, now, links, faults) == (Ok(()), cache)
    decreases |names|
  {
    if names != [] {
      CleanSkipsLinkListWithoutCachedRows(cache, element, names[..|names| - 1], now, links, faults);
    }
  }

  /** Whatever the outcome, reconciliation only deletes, and only records that
      belong to one of the names, are stale against the link list and whose
      delete does not fail; a failed delete never fails the reconciliation; with
      no link list it deletes nothing. It fails exactly when the select of
      some name fails, or when the link list is unavailable and some name has
      cached records. */
  lemma {:induction false} CleanOnlyRemovesStale(cache: Cache, element: Element, names: seq<string>, now: int,
                                                links: Result<set<string>, string>, faults: StoreFaults)
    ensures var (status, after) := CleanSpec(cache, element, names, now, links, faults);
            && (forall id | id in after :: id in cache && after[id] == cache[id])
            && (forall id | id in cache && id !in after ::
                  links.Ok? && Doomed(cache[id], element, names, now, links.value) && id !in faults.deleteFails)
            && (links.Err? ==> after == cache)
            && (status.Err? <==>
                  exists n :: n in names &&
                    (n in faults.selectFails || (links.Err? && CachedFor(cache, element, n) != {})))
    decreases |names|
  {
    if names != [] {
      var init := names[..|names| - 1];
      var last := names[|names| - 1];
      assert names == init + [last];
      CleanOnlyRemovesStale(cache, element, init, now, links, faults);
      var (status, before) := CleanSpec(cache, element, init, now, links, faults);
      if status.Err? {
        var n :| n in init &&
                 (n in faults.selectFails || (links.Err? && CachedFor(cache, element, n) != {}));
        assert n in names;
      } else {
        assert forall n | n in init :: !(n in faults.selectFails || (links.Err? && CachedFor(cache, element, n) != {}));
        var (status', after) := CleanName(before, element, last, now, links, faults);
        if links.Err? {
          assert before == cache;
        }
        if status'.Err? {
          assert last in names;
        }
      }
    }
  }

  // ---------------------------------------------------------------------------
  // Upsert of the normalised records (`_storeCommand`)
  // ---------------------------------------------------------------------------

  /** The cache after upserting the records in order; a failing upsert
      leaves the row as it was. */
  function Upserted(cache: Cache, recs: seq<DowntimeRecord>, upsertFails: set<DowntimeID>): Cache
    decreases |recs|
  {
    if recs == [] then cache
    else
      var before := Upserted(cache, recs[..|recs| - 1], upsertFails);
      var r := recs[|recs| - 1];
      if r.id in upsertFails then before else before[r.id := r]
  }

  /** `_storeCommand` returns the outcome of the LAST upsert only; on an
      empty list its result variable is never bound, which is an error. */
  function StoreStatus(recs: seq<DowntimeRecord>, upsertFails: set<DowntimeID>): (r: Result<(), Failure>)
    ensures r.Ok? <==> recs != [] && recs[|recs| - 1].id !in upsertFails
    ensures recs == [] ==> r == Err(NothingStored)
  {
    if recs == [] then Err(NothingStored)
    else if recs[|recs| - 1].id in upsertFails then Err(UpsertFailed(recs[|recs| - 1].id))
    else Ok(())
  }

  /** The ids of the records whose upsert succeeds. */
  function WrittenIds(recs: seq<DowntimeRecord>, upsertFails: set<DowntimeID>): set<DowntimeID> {
    set k | 0 <= k < |recs| && recs[k].id !in upsertFails :: recs[k].id
  }

  predicate DistinctIds(recs: seq<DowntimeRecord>) {
    forall j, k | 0 <= j < k < |recs| :: recs[j].id != recs[k].id
  }

  /** Upserting records with distinct ids writes every record whose upsert
      succeeds under its id, adds no other row and leaves every other row
      unchanged; rows stay keyed by their id. */
  lemma UpsertWritesEveryRecord(cache: Cache, recs: seq<DowntimeRecord>, upsertFails: set<DowntimeID>)
    requires DistinctIds(recs)
    ensures var after := Upserted(cache, recs, upsertFails);
            && after.Keys == cache.Keys + WrittenIds(recs, upsertFails)
            && (forall k | 0 <= k < |recs| && recs[k].id !in upsertFails :: after[recs[k].id] == recs[k])
            && (forall id | id in cache && id !in WrittenIds(recs, upsertFails) :: after[id] == cache[id])
            && (KeyedById(cache) ==> KeyedById(after))
  {
    UpsertKeys(cache, recs, upsertFails);
    UpsertStoresRecords(cache, recs, upsertFails);
  }

  /** The upsert loop adds exactly the written ids, leaves every other row
      alone and keeps rows keyed by their id. */
  lemma {:induction false} UpsertKeys(cache: Cache, recs: seq<DowntimeRecord>, upsertFails: set<DowntimeID>)
    ensures var after := Upserted(cache, recs, upsertFails);
            && after.Keys == cache.Keys + WrittenIds(recs, upsertFails)
            && (forall id | id in cache && id !in WrittenIds(recs, upsertFails) :: after[id] == cache[id])
            && (KeyedById(cache) ==> KeyedById(after))
    decreases |recs|
  {
    if recs != [] {
      UpsertKeys(cache, recs[..|recs| - 1], upsertFails);
      WrittenIdsStep(recs, upsertFails);
    }
  }

  /** With distinct ids, every successfully upserted record is stored. */
  lemma {:induction false} UpsertStoresRecords(cache: Cache, recs: seq<DowntimeRecord>, upsertFails: set<DowntimeID>)
    requires DistinctIds(recs)
    ensures var after := Upserted(cache, recs, upsertFails);
            forall k | 0 <= k < |recs| && recs[k].id !in upsertFails :: recs[k].id in after && after[recs[k].id] == recs[k]
    decreases |recs|
  {
    if recs != [] {
      var init := recs[..|recs| - 1];
      var r := recs[|recs| - 1];
      assert forall k | 0 <= k < |init| :: init[k] == recs[k];
      assert DistinctIds(init);
      UpsertStoresRecords(cache, init, upsertFails);
      var before := Upserted(cache, init, upsertFails);
      var after := Upserted(cache, recs, upsertFails);
      forall k | 0 <= k < |recs| && recs[k].id !in upsertFails
        ensures recs[k].id in after && after[recs[k].id] == recs[k]
      {
        if k < |init| {
          assert recs[k].id != r.id;
          assert before[init[k].id] == init[k];
        }
      }
    }
  }

  /** The written ids grow by the last record's id when its upsert succeeds. */
  lemma WrittenIdsStep(recs: seq<DowntimeRecord>, upsertFails: set<DowntimeID>)
    requires recs != []
    ensures var init := recs[..|recs| - 1];
            var r := recs[|recs| - 1];
            WrittenIds(recs, upsertFails) ==
              WrittenIds(init, upsertFails) + (if r.id in upsertFails then {} else {r.id})
  {
    var init := recs[..|recs| - 1];
    assert forall k | 0 <= k < |init| :: init[k] == recs[k];
  }

  // ---------------------------------------------------------------------------
  // One run of `doNew`
  // ---------------------------------------------------------------------------

  /** `doNew` is called by `doMaster` with an element and a list of names, or
      on its own with the command arguments. */
  datatype Mode = Master(element: Element, names: seq<string>) | Single(args: Args)

  /** The horizon `doMaster` always queries GOCDB with. */
  const MasterHours: int := 120

  /** What `doNew` asks GOCDB for and the service type it expects. */
  datatype Plan = Plan(element: Element, names: seq<string>, hours: Option<int>, declared: Option<string>)

  /** In master mode the names are queried for the next 120 hours with no
      service type; otherwise the arguments are prepared and the one
      resulting name is queried. */
  function PlanFor(mode: Mode, lookups: Lookups): (r: Result<Plan, Failure>)
    ensures mode.Master? ==> r == Ok(Plan(mode.element, mode.names, Some(120), None))
    ensures mode.Single? ==> (r.Err? <==> Prepare(mode.args, lookups).Err?)
    ensures mode.Single? && r.Ok? ==>
              var q := Prepare(mode.args, lookups).value;
              r.value == Plan(q.element, [q.name], mode.args.hours, q.serviceType)
  {
    match mode
    case Master(element, names) => Ok(Plan(element, names, Some(MasterHours), None))
    case Single(args) =>
      match Prepare(args, lookups)
      case Err(f) => Err(f)
      case Ok(q) => Ok(Plan(q.element, [q.name], q.hours, q.serviceType))
  }

  /** The outcome of `doNew` and the cache it leaves. */
  ghost function NewSpec(cache: Cache, mode: Mode, gocdb: Gocdb, lookups: Lookups, now: int,
                         faults: StoreFaults): (Result<(), Failure>, Cache)
  {
    match PlanFor(mode, lookups)
    case Err(f) => (Err(f), cache)
    case Ok(p) =>
      match FetchStatus(gocdb, StatusQuery(p.element, p.names, p.hours))
      case Err(f) => (Err(f), cache)
      case Ok(None) => (Ok(()), cache)
      case Ok(Some(entries)) =>
        var (cleanStatus, cleaned) := CleanSpec(cache, p.element, p.names, now, gocdb.currentLinks, faults);
        if cleanStatus.Err? then (cleanStatus, cleaned)
        else
          match NormaliseAll(entries, p.element, p.declared)
          case Err(f) => (Err(f), cleaned)
          case Ok(recs) => (StoreStatus(recs, faults.upsertFails), Upserted(cleaned, recs, faults.upsertFails))
  }

  /** A batch with a record that cannot be normalised (no usable name, or a
      service type mismatch) upserts nothing, but the reconciliation that ran
      before normalisation keeps its deletions. */
  lemma BadRecordStoresNothing(cache: Cache, mode: Mode, gocdb: Gocdb, lookups: Lookups, now: int,
                               faults: StoreFaults, entries: seq<Entry>, k: nat)
    requires PlanFor(mode, lookups).Ok?
    requires var p := PlanFor(mode, lookups).value;
             FetchStatus(gocdb, StatusQuery(p.element, p.names, p.hours)) == Ok(Some(entries))
    requires k < |entries|
    requires var p := PlanFor(mode, lookups).value;
             Normalise(entries[k], p.element, p.declared).Err?
    ensures var p := PlanFor(mode, lookups).value;
            var (status, after) := NewSpec(cache, mode, gocdb, lookups, now, faults);
            && status.Err?
            && after == CleanSpec(cache, p.element, p.names, now, gocdb.currentLinks, faults).1
  {
    var p := PlanFor(mode, lookups).value;
    NormaliseAllSucceeds(entries, p.element, p.declared);
  }

  /** A successful run with distinct downtime ids, no store failure and a
      live link list leaves exactly: the cached records that were not stale
      for the queried names, plus every fetched downtime in its normal form. */
  lemma SuccessfulIngestion(cache: Cache, mode: Mode, gocdb: Gocdb, lookups: Lookups, now: int,
                            entries: seq<Entry>, links: set<string>)
    requires PlanFor(mode, lookups).Ok?
    requires var p := PlanFor(mode, lookups).value;
             FetchStatus(gocdb, StatusQuery(p.element, p.names, p.hours)) == Ok(Some(entries))
    requires gocdb.currentLinks == Ok(links)
    requires entries != []
    requires forall j, k | 0 <= j < k < |entries| :: entries[j].id != entries[k].id
    requires var p := PlanFor(mode, lookups).value;
             forall k | 0 <= k < |entries| :: Normalise(entries[k], p.element, p.declared).Ok?
    ensures var p := PlanFor(mode, lookups).value;
            var (status, after) := NewSpec(cache, mode, gocdb, lookups, now, StoreFaults({}, {}, {}));
            && status == Ok(())
            && (forall k | 0 <= k < |entries| ::
                  entries[k].id in after && after[entries[k].id] == Normalise(entries[k], p.element, p.declared).value)
            && (forall id | id in cache && !Doomed(cache[id], p.element, p.names, now, links) &&
                            (forall k | 0 <= k < |entries| :: entries[k].id != id) ::
                  id in after && after[id] == cache[id])
            && (forall id | id in after ::
                  (exists k :: 0 <= k < |entries| && entries[k].id == id) ||
                  (id in cache && !Doomed(cache[id], p.element, p.names, now, links)))
  {
    var p := PlanFor(mode, lookups).value;
    var faults := StoreFaults({}, {}, {});
    CleanRemovesExactlyStale(cache, p.element, p.names, now, links, faults);
    NormaliseAllSucceeds(entries, p.element, p.declared);
    NewSpecStores(cache, mode, gocdb, lookups, now, faults, entries);
    IngestedCache(cache, p.element, p.names, now, links, entries, p.declared);
  }

  /** The cache after cleaning with a live link list and upserting a valid
      batch with distinct ids and no upsert failure. */
  lemma IngestedCache(cache: Cache, element: Element, names: seq<string>, now: int, links: set<string>,
                      entries: seq<Entry>, declared: Option<string>)
    requires forall j, k | 0 <= j < k < |entries| :: entries[j].id != entries[k].id
    requires forall k | 0 <= k < |entries| :: Normalise(entries[k], element, declared).Ok?
    ensures NormaliseAll(entries, element, declared).Ok?
    ensures var cleaned := CleanSpec(cache, element, names, now, Ok(links), StoreFaults({}, {}, {})).1;
            var after := Upserted(cleaned, NormaliseAll(entries, element, declared).value, {});
            && (forall k | 0 <= k < |entries| ::
                  entries[k].id in after && after[entries[k].id] == Normalise(entries[k], element, declared).value)
            && (forall id | id in cache && !Doomed(cache[id], element, names, now, links) &&
                            (forall k | 0 <= k < |entries| :: entries[k].id != id) ::
                  id in after && after[id] == cache[id])
            && (forall id | id in after ::
                  (exists k :: 0 <= k < |entries| && entries[k].id == id) ||
                  (id in cache && !Doomed(cache[id], element, names, now, links)))
  {
    NormaliseAllSucceeds(entries, element, declared);
    var recs := NormaliseAll(entries, element, declared).value;
    assert forall k | 0 <= k < |recs| :: recs[k].id == entries[k].id;
    assert DistinctIds(recs);
    var cleaned := CleanSpec(cache, element, names, now, Ok(links), StoreFaults({}, {}, {})).1;
    UpsertWritesEveryRecord(cleaned, recs, {});
    var after := Upserted(cleaned, recs, {});
    forall k | 0 <= k < |entries|
      ensures entries[k].id in after && after[entries[k].id] == Normalise(entries[k], element, declared).value
    {
      assert after[recs[k].id] == recs[k];
    }
    IngestedKeeps(cache, element, names, now, links, entries, recs);
  }

  /** Rows that were not stale and not overwritten survive, and nothing but
      them and the written records is cached. */
  lemma IngestedKeeps(cache: Cache, element: Element, names: seq<string>, now: int, links: set<string>,
                      entries: seq<Entry>, recs: seq<DowntimeRecord>)
    requires |recs| == |entries| && forall k | 0 <= k < |recs| :: recs[k].id == entries[k].id
    requires DistinctIds(recs)
    ensures var cleaned := CleanSpec(cache, element, names, now, Ok(links), StoreFaults({}, {}, {})).1;
            var after := Upserted(cleaned, recs, {});
            && (forall id | id in cache && !Doomed(cache[id], element, names, now, links) &&
                            (forall k | 0 <= k < |entries| :: entries[k].id != id) ::
                  id in after && after[id] == cache[id])
            && (forall id | id in after ::
                  (exists k :: 0 <= k < |entries| && entries[k].id == id) ||
                  (id in cache && !Doomed(cache[id], element, names, now, links)))
  {
    var faults := StoreFaults({}, {}, {});
    CleanRemovesExactlyStale(cache, element, names, now, links, faults);
    var cleaned := CleanSpec(cache, element, names, now, Ok(links), faults).1;
    var after := Upserted(cleaned, recs, {});
    UpsertWritesEveryRecord(cleaned, recs, {});
    forall id | id in cache && !Doomed(cache[id], element, names, now, links) &&
                (forall k | 0 <= k < |entries| :: entries[k].id != id)
      ensures id in after && after[id] == cache[id]
    {
      assert id !in WrittenIds(recs, {});
    }
    forall id | id in after
      ensures (exists k :: 0 <= k < |entries| && entries[k].id == id) ||
              (id in cache && !Doomed(cache[id], element, names, now, links))
    {
      if id in WrittenIds(recs, {}) {
        var k :| 0 <= k < |recs| && recs[k].id == id;
        assert entries[k].id == id;
      }
    }
  }

  /** Once cleaning and normalisation succeed, the run ends with the store's
      status and the cleaned cache with the records upserted. */
  lemma NewSpecStores(cache: Cache, mode: Mode, gocdb: Gocdb, lookups: Lookups, now: int, faults: StoreFaults,
                      entries: seq<Entry>)
    requires PlanFor(mode, lookups).Ok?
    requires var p := PlanFor(mode, lookups).value;
             FetchStatus(gocdb, StatusQuery(p.element, p.names, p.hours)) == Ok(Some(entries))
    requires var p := PlanFor(mode, lookups).value;
             CleanSpec(cache, p.element, p.names, now, gocdb.currentLinks, faults).0.Ok?
    requires var p := PlanFor(mode, lookups).value;
             NormaliseAll(entries, p.element, p.declared).Ok?
    ensures var p := PlanFor(mode, lookups).value;
            var cleaned := CleanSpec(cache, p.element, p.names, now, gocdb.currentLinks, faults).1;
            var recs := NormaliseAll(entries, p.element, p.declared).value;
            NewSpec(cache, mode, gocdb, lookups, now, faults) ==
              (StoreStatus(recs, faults.upsertFails), Upserted(cleaned, recs, faults.upsertFails))
  {
  }

  /** No downtime reported (a None answer) is not evidence of staleness:
      the cache is left untouched and the run succeeds. */
  lemma NoDowntimesLeavesCacheUntouched(cache: Cache, mode: Mode, gocdb: Gocdb, lookups: Lookups, now: int,
                                        faults: StoreFaults)
    requires PlanFor(mode, lookups).Ok?
    requires var p := PlanFor(mode, lookups).value;
             FetchStatus(gocdb, StatusQuery(p.element, p.names, p.hours)) == Ok(None)
    ensures NewSpec(cache, mode, gocdb, lookups, now, faults) == (Ok(()), cache)
  {
  }

  /** An empty (but not None) answer reconciles the cache and then fails,
      because `_storeCommand` never binds its result. */
  lemma EmptyAnswerFailsAfterCleaning(cache: Cache, mode: Mode, gocdb: Gocdb, lookups: Lookups, now: int,
                                      faults: StoreFaults)
    requires PlanFor(mode, lookups).Ok?
    requires var p := PlanFor(mode, lookups).value;
             FetchStatus(gocdb, StatusQuery(p.element, p.names, p.hours)) == Ok(Some([]))
    ensures var p := PlanFor(mode, lookups).value;
            var cleaned := CleanSpec(cache, p.element, p.names, now, gocdb.currentLinks, faults);
            cleaned.0.Ok? ==> NewSpec(cache, mode, gocdb, lookups, now, faults) == (Err(NothingStored), cleaned.1)
  {
  }
}
