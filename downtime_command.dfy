/** The downtime command itself (`DowntimeCommand`): the downtime cache table
    and the `failed` metrics list are fields it updates in place; GOCDB, the
    configuration lookups and the clock are parameters. Each method is
    proved to do what the functions of DowntimeIngest and DowntimeResolution
    specify. */
module DowntimeCommands {
  import opened Wrappers
  import opened DowntimeTypes
  import opened DowntimeNames
  import opened DowntimeIngest
  import opened DowntimeResolution

  /** The inventories `doMaster` lists: GOC sites, storage element hosts, FTS3
      servers and computing elements, each a listing that may fail. */
  datatype Inventory = Inventory(
    gocSites: Result<seq<string>, string>,
    seHosts: Result<seq<string>, string>,
    ftsServers: Result<seq<string>, string>,
    computingElements: Result<seq<string>, string>)

  /** The resource names `doMaster` ingests: the storage hosts, extended by
      the FTS servers and then the computing elements whose listings
      succeeded. */
  function MasterResources(inv: Inventory): (resources: seq<string>)
    requires inv.seHosts.Ok?
    ensures |inv.seHosts.value| <= |resources|
    ensures resources[..|inv.seHosts.value|] == inv.seHosts.value
    ensures forall x :: x in resources <==>
              || x in inv.seHosts.value
              || (inv.ftsServers.Ok? && x in inv.ftsServers.value)
              || (inv.computingElements.Ok? && x in inv.computingElements.value)
  {
    var withFts := if inv.ftsServers.Ok? then inv.seHosts.value + inv.ftsServers.value else inv.seHosts.value;
    if inv.computingElements.Ok? then withFts + inv.computingElements.value else withFts
  }

  /** The message a failed ingestion appends to `metrics['failed']`. */
  function FailureOf(status: Result<(), Failure>): seq<Failure> {
    if status.Err? then [status.error] else []
  }

  /** `doNew` ended by the exception `_storeCommand` raises on an empty list:
      `doMaster` does not catch it, so it ends `doMaster` too. */
  predicate Raised(status: Result<(), Failure>) {
    status == Err(NothingStored)
  }

  /** The outcome of `doMaster`, the cache and the `failed` list it leaves.
      An ingestion that raises ends `doMaster` with the cache and the
      `failed` list as they stand. */
  ghost function MasterSpec(cache: Cache, failed: seq<Failure>, inv: Inventory, gocdb: Gocdb, lookups: Lookups,
                            now: int, faults: StoreFaults): (Result<seq<Failure>, Failure>, Cache, seq<Failure>)
  {
    if inv.gocSites.Err? then (Err(InventoryFailed(inv.gocSites.error)), cache, failed)
    else if inv.seHosts.Err? then (Err(InventoryFailed(inv.seHosts.error)), cache, failed)
    else
      var (siteStatus, afterSites) := NewSpec(cache, Master(Site, inv.gocSites.value), gocdb, lookups, now, faults);
      if Raised(siteStatus) then (Err(NothingStored), afterSites, failed)
      else
        var afterSiteFailed := failed + FailureOf(siteStatus);
        var (resourceStatus, afterResources) :=
          NewSpec(afterSites, Master(Resource, MasterResources(inv)), gocdb, lookups, now, faults);
        if Raised(resourceStatus) then (Err(NothingStored), afterResources, afterSiteFailed)
        else
          var failed' := afterSiteFailed + FailureOf(resourceStatus);
          (Ok(failed'), afterResources, failed')
  }

  /** Failing to list the GOC sites, or else the storage element hosts,
      ends `doMaster` with that error before any ingestion: the cache and
      `failed` are left as they were. */
  lemma MasterAbortsOnInventoryFailure(cache: Cache, failed: seq<Failure>, inv: Inventory, gocdb: Gocdb,
                                       lookups: Lookups, now: int, faults: StoreFaults)
    requires inv.gocSites.Err? || inv.seHosts.Err?
    ensures var e := if inv.gocSites.Err? then inv.gocSites.error else inv.seHosts.error;
            MasterSpec(cache, failed, inv, gocdb, lookups, now, faults) == (Err(InventoryFailed(e)), cache, failed)
  {
  }

  /** A failing site ingestion does not stop the resource ingestion, which
      runs on the cache the site ingestion left: each failure is appended to
      `failed` in order, and `doMaster` answers with the whole list. */
  lemma MasterIsolatesFailures(cache: Cache, failed: seq<Failure>, inv: Inventory, gocdb: Gocdb,
                               lookups: Lookups, now: int, faults: StoreFaults)
    requires inv.gocSites.Ok? && inv.seHosts.Ok?
    ensures var (siteStatus, afterSites) :=
              NewSpec(cache, Master(Site, inv.gocSites.value), gocdb, lookups, now, faults);
            var (resourceStatus, afterResources) :=
              NewSpec(afterSites, Master(Resource, MasterResources(inv)), gocdb, lookups, now, faults);
            var (res, cache', failed') := MasterSpec(cache, failed, inv, gocdb, lookups, now, faults);
            !Raised(siteStatus) && !Raised(resourceStatus) ==>
              && res == Ok(failed')
              && cache' == afterResources
              && failed' == failed + FailureOf(siteStatus) + FailureOf(resourceStatus)
              && |failed'| == |failed| + (if siteStatus.Err? then 1 else 0) + (if resourceStatus.Err? then 1 else 0)
  {
  }

  /** An empty answer for the sites or for the resources ends `doMaster`
      with the exception: a raising site ingestion skips the resources, and
      neither raising ingestion records anything in `failed`. */
  lemma MasterStopsWhenIngestionRaises(cache: Cache, failed: seq<Failure>, inv: Inventory, gocdb: Gocdb,
                                       lookups: Lookups, now: int, faults: StoreFaults)
    requires inv.gocSites.Ok? && inv.seHosts.Ok?
    ensures var (siteStatus, afterSites) :=
              NewSpec(cache, Master(Site, inv.gocSites.value), gocdb, lookups, now, faults);
            var (resourceStatus, afterResources) :=
              NewSpec(afterSites, Master(Resource, MasterResources(inv)), gocdb, lookups, now, faults);
            var (res, cache', failed') := MasterSpec(cache, failed, inv, gocdb, lookups, now, faults);
            && (Raised(siteStatus) ==> (res, cache', failed') == (Err(NothingStored), afterSites, failed))
            && (!Raised(siteStatus) && Raised(resourceStatus) ==>
                  (res, cache', failed') == (Err(NothingStored), afterResources, failed + FailureOf(siteStatus)))
  {
  }

  /** The rows `selectDowntimeCache(element, name, gOCDBServiceType)` returns;
      a service type of None does not filter. */
  function Selected(cache: Cache, q: Query): set<DowntimeRecord> {
    set id | id in cache && cache[id].element == q.element && cache[id].name == q.name &&
             (q.serviceType.None? || cache[id].serviceType == q.serviceType) :: cache[id]
  }

  class DowntimeCommand {
    /** The downtime cache table of the resource management database. */
    var cache: Cache
    /** `self.metrics['failed']` */
    var failed: seq<Failure>

    ghost predicate Valid()
      reads this
    {
      KeyedById(cache)
    }

    constructor (initial: Cache)
      requires KeyedById(initial)
      ensures Valid() && cache == initial && failed == []
    {
      cache := initial;
      failed := [];
    }

    /** `_storeCommand`: upsert every record in order and return the outcome
        of the last upsert. */
    method StoreCommand(recs: seq<DowntimeRecord>, upsertFails: set<DowntimeID>) returns (res: Result<(), Failure>)
      requires Valid()
      modifies this
      ensures Valid() && failed == old(failed)
      ensures res == StoreStatus(recs, upsertFails)
      ensures cache == Upserted(old(cache), recs, upsertFails)
    {
      // the source leaves its result unbound when there is nothing to store
      res := Err(NothingStored);
      var i := 0;
      while i < |recs|
        invariant 0 <= i <= |recs|
        invariant cache == Upserted(old(cache), recs[..i], upsertFails)
        invariant res == StoreStatus(recs[..i], upsertFails)
        invariant Valid() && failed == old(failed)
      {
        var dt := recs[i];
        assert recs[..i + 1][..i] == recs[..i];
        if dt.id in upsertFails {
          res := Err(UpsertFailed(dt.id));
        } else {
          cache := cache[dt.id := dt];
          res := Ok(());
        }
        i := i + 1;
      }
      assert recs[..i] == recs;
    }

    /** `_cleanCommand`: for each name, select its cached downtimes and, when
        there are any, delete those that have ended or whose link GOCDB no
        longer lists. */
    method CleanCommand(element: Element, names: seq<string>, now: int, links: Result<set<string>, string>,
                        faults: StoreFaults) returns (res: Result<(), Failure>)
      requires Valid()
      modifies this
      ensures Valid() && failed == old(failed)
      ensures (res, cache) == CleanSpec(old(cache), element, names, now, links, faults)
    {
      var i := 0;
      while i < |names|
        invariant 0 <= i <= |names|
        invariant CleanSpec(old(cache), element, names[..i], now, links, faults) == (Ok(()), cache)
        invariant Valid() && failed == old(failed)
      {
        var elementName := names[i];
        assert names[..i + 1][..i] == names[..i];
        if elementName in faults.selectFails {
          res := Err(SelectFailed(elementName));
          CleanStopsAtFailure(old(cache), element, names, i, now, links, faults);
          return;
        }
        var cached := CachedFor(cache, element, elementName);
        var before := cache;
        if cached != {} {
          if links.Err? {
            res := Err(LinkListFailed(links.error));
            CleanStopsAtFailure(old(cache), element, names, i, now, links, faults);
            return;
          }
          var todo := cached;
          while todo != {}
            invariant todo <= cached
            invariant cache == map id | id in before &&
                                        !(id in cached - todo && Stale(before[id], now, links.value)
                                          && id !in faults.deleteFails) :: before[id]
            invariant Valid() && failed == old(failed)
            decreases todo
          {
            var id :| id in todo;
            // the outcome of the delete is collected but never checked
            if Stale(before[id], now, links.value) && id !in faults.deleteFails {
              cache := cache - {id};
            }
            todo := todo - {id};
          }
          assert cached - todo == cached;
        }
        assert (Ok(()), cache) == CleanName(before, element, elementName, now, links, faults);
        i := i + 1;
      }
      assert names[..i] == names;
      res := Ok(());
    }

    /** `doNew`: fetch the downtimes of the names from GOCDB (one retry on a
        network error), reconcile the cache, normalise every record and
        upsert them all. */
    method DoNew(mode: Mode, gocdb: Gocdb, lookups: Lookups, now: int, faults: StoreFaults)
      returns (res: Result<(), Failure>)
      requires Valid()
      modifies this
      ensures Valid() && failed == old(failed)
      ensures (res, cache) == NewSpec(old(cache), mode, gocdb, lookups, now, faults)
    {
      var plan := PlanFor(mode, lookups);
      if plan.Err? {
        return Err(plan.error);
      }
      var element, elementNames, hours, declared := plan.value.element, plan.value.names, plan.value.hours,
                                                    plan.value.declared;
      var q := StatusQuery(element, elementNames, hours);
      var attempt := gocdb.getStatus(q, 0);
      if attempt.UrlError? {
        // a second chance
        attempt := gocdb.getStatus(q, 1);
        if attempt.UrlError? {
          return Err(SourceUnreachable(attempt.reason));
        }
      }
      if attempt.reply.Err? {
        return Err(SourceFailed(attempt.reply.error));
      }
      if attempt.reply.value.None? {
        return Ok(());
      }
      var results := attempt.reply.value.value;
      assert FetchStatus(gocdb, q) == Ok(Some(results));

      var cleanRes := CleanCommand(element, elementNames, now, gocdb.currentLinks, faults);
      if cleanRes.Err? {
        return cleanRes;
      }

      var uniformResult: seq<DowntimeRecord> := [];
      var i := 0;
      while i < |results|
        invariant 0 <= i <= |results|
        invariant NormaliseAll(results[..i], element, declared) == Ok(uniformResult)
        invariant Valid() && failed == old(failed)
        invariant cache == CleanSpec(old(cache), element, elementNames, now, gocdb.currentLinks, faults).1
      {
        assert results[..i + 1][..i] == results[..i];
        var dt := Normalise(results[i], element, declared);
        if dt.Err? {
          res := Err(dt.error);
          NormaliseStopsAtFailure(results, i, element, declared);
          return;
        }
        uniformResult := uniformResult + [dt.value];
        i := i + 1;
      }
      assert results[..i] == results;
      res := StoreCommand(uniformResult, faults.upsertFails);
    }

    /** `doCache`: report, among the cached downtimes of the element, the
        one that overlaps the target instant according to the tie-break of
        the mode: looking ahead (hours given), the first in
        (Name, Severity, StartDate) order; in the present, the last OUTAGE in
        (Name, Severity, EndDate) order, else the last WARNING. */
    method DoCache(args: Args, lookups: Lookups, now: int, faults: StoreFaults)
      returns (res: Result<Option<DowntimeRecord>, Failure>)
      requires Valid()
      ensures Prepare(args, lookups).Err? ==> res == Err(Prepare(args, lookups).error)
      ensures Prepare(args, lookups).Ok? ==>
                var q := Prepare(args, lookups).value;
                && (q.name in faults.selectFails ==> res == Err(SelectFailed(q.name)))
                && (q.name !in faults.selectFails ==> res.Ok?)
                && (res.Ok? && q.hours.Some? ==>
                      FuturePick(Selected(cache, q), TargetInstant(now, q.hours), res.value))
                && (res.Ok? && q.hours.None? ==> PresentPick(Selected(cache, q), now, res.value))
      // the reported row is the cached row stored under its own id
      ensures res.Ok? && res.value.Some? ==> res.value.value.id in cache && cache[res.value.value.id] == res.value.value
    {
      var params := Prepare(args, lookups);
      if params.Err? {
        return Err(params.error);
      }
      var q := params.value;
      if q.name in faults.selectFails {
        return Err(SelectFailed(q.name));
      }
      var uniformResult := Selected(cache, q);
      var targetDate := TargetInstant(now, q.hours);
      if q.hours.Some? {
        var first := FirstToStart(uniformResult, targetDate);
        res := Ok(first);
      } else {
        var latest := MostSevereLatestEnding(uniformResult, targetDate);
        res := Ok(latest);
      }
    }

    /** `doMaster`: list the sites and the resources, ingest the downtimes
        of both, record each failure in `failed` and go on; an ingestion
        that raises ends it. */
    method DoMaster(inv: Inventory, gocdb: Gocdb, lookups: Lookups, now: int,
                    faults: StoreFaults) returns (res: Result<seq<Failure>, Failure>)
      requires Valid()
      modifies this
      ensures Valid()
      ensures (res, cache, failed) ==
                MasterSpec(old(cache), old(failed), inv, gocdb, lookups, now, faults)
    {
      if inv.gocSites.Err? {
        return Err(InventoryFailed(inv.gocSites.error));
      }
      var gocSites := inv.gocSites.value;
      if inv.seHosts.Err? {
        return Err(InventoryFailed(inv.seHosts.error));
      }
      var resources := inv.seHosts.value;
      if inv.ftsServers.Ok? {
        resources := resources + inv.ftsServers.value;
      }
      if inv.computingElements.Ok? {
        resources := resources + inv.computingElements.value;
      }
      assert resources == MasterResources(inv);
      var siteRes := DoNew(Master(Site, gocSites), gocdb, lookups, now, faults);
      if Raised(siteRes) {
        return Err(NothingStored);
      }
      if siteRes.Err? {
        failed := failed + [siteRes.error];
      }
      assert failed == old(failed) + FailureOf(siteRes);
      ghost var afterSites := cache;
      var resourceRes := DoNew(Master(Resource, resources), gocdb, lookups, now, faults);
      assert (resourceRes, cache) ==
             NewSpec(afterSites, Master(Resource, MasterResources(inv)), gocdb, lookups, now, faults);
      if Raised(resourceRes) {
        return Err(NothingStored);
      }
      if resourceRes.Err? {
        failed := failed + [resourceRes.error];
      }
      assert failed == old(failed) + FailureOf(siteRes) + FailureOf(resourceRes);
      res := Ok(failed);
    }
  }

  // ---------------------------------------------------------------------------
  // The two scans of `doCache`
  // ---------------------------------------------------------------------------

  /** Looking ahead: keep the overlapping row that sorts first. */
  method FirstToStart(rows: set<DowntimeRecord>, target: int) returns (first: Option<DowntimeRecord>)
    ensures FuturePick(rows, target, first)
  {
    first := None;
    var rest := rows;
    while rest != {}
      invariant rest <= rows
      invariant FuturePick(rows - rest, target, first)
      decreases rest
    {
      var dt :| dt in rest;
      KeyLessTrichotomy(dt.name, dt.severity, dt.startDate, dt.name, dt.severity, dt.startDate);
      if Overlaps(dt, target) && (first.None? || StartOrderLess(dt, first.value)) {
        if first.Some? {
          forall r | r in rows - rest && Overlaps(r, target)
            ensures !StartOrderLess(r, dt)
          {
            if StartOrderLess(r, dt) {
              KeyLessTransitive(r.name, r.severity, r.startDate, dt.name, dt.severity, dt.startDate,
                                first.value.name, first.value.severity, first.value.startDate);
            }
          }
        }
        first := Some(dt);
      }
      rest := rest - {dt};
    }
    assert rows - rest == rows;
  }

  /** The present: keep the overlapping OUTAGE that sorts last and the
      overlapping WARNING that sorts last; report the outage if there is one. */
  method MostSevereLatestEnding(rows: set<DowntimeRecord>, target: int) returns (chosen: Option<DowntimeRecord>)
    ensures PresentPick(rows, target, chosen)
  {
    var outage: Option<DowntimeRecord> := None;
    var warning: Option<DowntimeRecord> := None;
    var rest := rows;
    while rest != {}
      invariant rest <= rows
      invariant outage.None? ==> NoCandidate(rows - rest, target, true)
      invariant outage.Some? ==> LatestCandidate(rows - rest, target, true, outage.value)
      invariant warning.None? ==> NoCandidate(rows - rest, target, false)
      invariant warning.Some? ==> LatestCandidate(rows - rest, target, false, warning.value)
      decreases rest
    {
      var dt :| dt in rest;
      KeyLessTrichotomy(dt.name, dt.severity, dt.endDate, dt.name, dt.severity, dt.endDate);
      if Overlaps(dt, target) {
        if IsOutage(dt) {
          if outage.None? || EndOrderLess(outage.value, dt) {
            if outage.Some? {
              KeepsLatest(rows - rest, target, true, outage.value, dt);
            }
            outage := Some(dt);
          }
        } else if IsWarning(dt) {
          if warning.None? || EndOrderLess(warning.value, dt) {
            if warning.Some? {
              KeepsLatest(rows - rest, target, false, warning.value, dt);
            }
            warning := Some(dt);
          }
        }
      }
      rest := rest - {dt};
    }
    assert rows - rest == rows;
    chosen := if outage.Some? then outage else warning;
  }

  /** A row that sorts after the latest candidate seen so far sorts after
      every candidate seen so far. */
  lemma KeepsLatest(seen: set<DowntimeRecord>, target: int, outage: bool, best: DowntimeRecord, dt: DowntimeRecord)
    requires LatestCandidate(seen, target, outage, best)
    requires EndOrderLess(best, dt)
    ensures forall r | r in seen && Candidate(r, target, outage) :: !EndOrderLess(dt, r)
  {
    forall r | r in seen && Candidate(r, target, outage)
      ensures !EndOrderLess(dt, r)
    {
      if EndOrderLess(dt, r) {
        KeyLessTransitive(best.name, best.severity, best.endDate, dt.name, dt.severity, dt.endDate,
                          r.name, r.severity, r.endDate);
      }
    }
  }

  /** Reconciliation stops at the first name whose select fails, or whose
      cached rows need the link list when it is unavailable. */
  lemma CleanStopsAtFailure(cache: Cache, element: Element, names: seq<string>, i: nat, now: int,
                            links: Result<set<string>, string>, faults: StoreFaults)
    requires i < |names|
    requires CleanSpec(cache, element, names[..i], now, links, faults).0 == Ok(())
    requires var before := CleanSpec(cache, element, names[..i], now, links, faults).1;
             CleanName(before, element, names[i], now, links, faults).0.Err?
    ensures CleanSpec(cache, element, names, now, links, faults) ==
              CleanName(CleanSpec(cache, element, names[..i], now, links, faults).1, element, names[i], now, links, faults)
    decreases |names| - i
  {
    if i + 1 < |names| {
      assert names[..i + 1][..i] == names[..i];
      CleanStaysFailed(cache, element, names, i + 1, now, links, faults);
    } else {
      assert names[..i] == names[..|names| - 1];
    }
  }

  /** Once reconciliation has failed on a prefix, the longer prefixes keep
      that outcome. */
  lemma {:induction false} CleanStaysFailed(cache: Cache, element: Element, names: seq<string>, j: nat, now: int,
                                           links: Result<set<string>, string>, faults: StoreFaults)
    requires 0 < j <= |names|
    requires CleanSpec(cache, element, names[..j], now, links, faults).0.Err?
    ensures CleanSpec(cache, element, names, now, links, faults) == CleanSpec(cache, element, names[..j], now, links, faults)
    decreases |names| - j
  {
    if j < |names| {
      assert names[..j + 1][..j] == names[..j];
      CleanStaysFailed(cache, element, names, j + 1, now, links, faults);
    } else {
      assert names[..j] == names;
    }
  }

  /** Normalisation of the batch stops at the first failing record. */
  lemma NormaliseStopsAtFailure(es: seq<Entry>, i: nat, element: Element, declared: Option<string>)
    requires i < |es|
    requires NormaliseAll(es[..i], element, declared).Ok?
    requires Normalise(es[i], element, declared).Err?
    ensures NormaliseAll(es, element, declared) == Err(Normalise(es[i], element, declared).error)
  {
    assert es[..i + 1][..i] == es[..i];
    NormaliseStaysFailed(es, i + 1, element, declared);
  }

  lemma {:induction false} NormaliseStaysFailed(es: seq<Entry>, j: nat, element: Element, declared: Option<string>)
    requires 0 < j <= |es|
    requires NormaliseAll(es[..j], element, declared).Err?
    ensures NormaliseAll(es, element, declared) == NormaliseAll(es[..j], element, declared)
    decreases |es| - j
  {
    if j < |es| {
      assert es[..j + 1][..j] == es[..j];
      NormaliseStaysFailed(es, j + 1, element, declared);
    } else {
      assert es[..j] == es;
    }
  }
}
