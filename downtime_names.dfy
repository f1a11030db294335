/** Name mapping of the downtime command (`_prepareCommand`): checks the
    command arguments, maps a DIRAC element name to the name GOCDB knows it
    by, and infers the GOCDB service type used to filter downtimes. The
    configuration lookups it consults are given as partial maps. */
module DowntimeNames {
  import opened Wrappers
  import opened Strings
  import opened DowntimeTypes

  /** The command arguments (`self.args`); `None` is a missing key. */
  datatype Args = Args(
    name: Option<string>,
    element: Option<string>,
    elementType: Option<string>,
    hours: Option<int>)

  /** Configuration lookups, each a partial map (a missing key is a failed
      lookup):
      - `gocSiteName`: getGOCSiteName, DIRAC site name to GOC site name;
      - `gocFtsName`: getGOCFTSName, FTS server to GOC name;
      - `seTypes`: for each storage element that can be instantiated, its
        `SEType` option, if it has one;
      - `seHosts`: CSHelpers.getSEHost, storage element to host (possibly ""). */
  datatype Lookups = Lookups(
    gocSiteName: map<string, string>,
    gocFtsName: map<string, string>,
    seTypes: map<string, Option<string>>,
    seHosts: map<string, string>)

  /** What `_prepareCommand` returns: element, GOCDB name, horizon in hours
      (None for "now") and GOCDB service type (None for no filter). */
  datatype Query = Query(element: Element, name: string, hours: Option<int>, serviceType: Option<string>)

  /** The GOCDB service type implied by a storage element type code such as
      "T1D0": tape wins over disk, and a code with neither tag gives none. */
  function SeServiceType(seType: string): (st: Option<string>)
    ensures (exists i :: TagAt(seType, 'T', i)) ==> st == Some("srm.nearline")
    ensures ((forall i :: !TagAt(seType, 'T', i)) && (exists i :: TagAt(seType, 'D', i)))
              ==> st == Some("srm")
    ensures (forall i :: !TagAt(seType, 'T', i) && !TagAt(seType, 'D', i)) ==> st == None
  {
    var diskSE := HasTag(seType, 'D');
    var tapeSE := HasTag(seType, 'T');
    if tapeSE then Some("srm.nearline")
    else if diskSE then Some("srm")
    else None
  }

  function Prepare(args: Args, lookups: Lookups): (r: Result<Query, Failure>)
    ensures r.Ok? ==> args.name.Some? && args.element.Some? && args.elementType.Some?
    ensures r.Ok? ==> ElementName(r.value.element) == args.element.value
    ensures r.Ok? ==> r.value.hours == args.hours
    ensures r.Ok? && r.value.element == Site ==> r.value.serviceType == None
  {
    if args.name.None? then Err(MissingArgument("name"))
    else if args.element.None? then Err(MissingArgument("element"))
    else if args.elementType.None? then Err(MissingArgument("elementType"))
    else if args.element.value != "Site" && args.element.value != "Resource" then
      Err(NotSiteOrResource(args.element.value))
    else
      var name := args.name.value;
      var elementType := args.elementType.value;
      if args.element.value == "Site" then
        // a site GOCDB does not know keeps its DIRAC name
        var gocName := if name in lookups.gocSiteName then lookups.gocSiteName[name] else name;
        Ok(Query(Site, gocName, args.hours, None))
      else if elementType == "StorageElement" then
        if name !in lookups.seTypes then Err(StorageElementUnavailable(name))
        else
          var serviceType := match lookups.seTypes[name]
                             case None => None
                             case Some(seType) => SeServiceType(seType);
          if name !in lookups.seHosts then Err(HostLookupFailed(name))
          else if lookups.seHosts[name] == "" then Err(NoHost(name))
          else Ok(Query(Resource, lookups.seHosts[name], args.hours, serviceType))
      else if elementType == "FTS" || elementType == "FTS3" then
        var gocName := if name in lookups.gocFtsName then lookups.gocFtsName[name] else name;
        Ok(Query(Resource, gocName, args.hours, Some("FTS")))
      else
        Ok(Query(Resource, name, args.hours, None))
  }

  /** The three mandatory arguments are checked in order, then the element. */
  lemma PrepareRejectsBadArguments(args: Args, lookups: Lookups)
    ensures args.name.None? ==> Prepare(args, lookups) == Err(MissingArgument("name"))
    ensures args.name.Some? && args.element.None? ==>
              Prepare(args, lookups) == Err(MissingArgument("element"))
    ensures args.name.Some? && args.element.Some? && args.elementType.None? ==>
              Prepare(args, lookups) == Err(MissingArgument("elementType"))
    ensures args.name.Some? && args.element.Some? && args.elementType.Some? &&
            args.element.value !in ["Site", "Resource"] ==>
              Prepare(args, lookups) == Err(NotSiteOrResource(args.element.value))
  {
  }

  /** A site is renamed exactly when the GOC site lookup succeeds, whatever
      its element type, and never gets a service type. */
  lemma PrepareSite(name: string, elementType: string, hours: Option<int>, lookups: Lookups)
    ensures var r := Prepare(Args(Some(name), Some("Site"), Some(elementType), hours), lookups);
            r.Ok? && r.value.element == Site && r.value.serviceType == None &&
            (name in lookups.gocSiteName ==> r.value.name == lookups.gocSiteName[name]) &&
            (name !in lookups.gocSiteName ==> r.value.name == name)
  {
  }

  /** A storage element is queried under its host with the service type of
      its SEType; an SE that cannot be built, a failed host lookup and an
      empty host are errors. */
  lemma PrepareStorageElement(name: string, hours: Option<int>, lookups: Lookups)
    ensures var r := Prepare(Args(Some(name), Some("Resource"), Some("StorageElement"), hours), lookups);
            && (name !in lookups.seTypes ==> r == Err(StorageElementUnavailable(name)))
            && (name in lookups.seTypes && name !in lookups.seHosts ==> r == Err(HostLookupFailed(name)))
            && (name in lookups.seTypes && name in lookups.seHosts && lookups.seHosts[name] == "" ==>
                  r == Err(NoHost(name)))
            && (r.Ok? <==> name in lookups.seTypes && name in lookups.seHosts && lookups.seHosts[name] != "")
            && (r.Ok? ==> r.value.name == lookups.seHosts[name])
            && (r.Ok? && lookups.seTypes[name].None? ==> r.value.serviceType == None)
            && (r.Ok? && lookups.seTypes[name].Some? ==>
                  r.value.serviceType == SeServiceType(lookups.seTypes[name].value))
  {
  }

  /** FTS and FTS3 servers always get the "FTS" service type; the name is
      translated only when the lookup succeeds. */
  lemma PrepareTransferService(name: string, elementType: string, hours: Option<int>, lookups: Lookups)
    requires elementType == "FTS" || elementType == "FTS3"
    ensures var r := Prepare(Args(Some(name), Some("Resource"), Some(elementType), hours), lookups);
            r.Ok? && r.value.serviceType == Some("FTS") &&
            r.value.name == (if name in lookups.gocFtsName then lookups.gocFtsName[name] else name)
  {
  }

  /** Every other resource passes through with no service type. */
  lemma PrepareOtherResource(name: string, elementType: string, hours: Option<int>, lookups: Lookups)
    requires elementType !in ["StorageElement", "FTS", "FTS3"]
    ensures Prepare(Args(Some(name), Some("Resource"), Some(elementType), hours), lookups)
              == Ok(Query(Resource, name, hours, None))
  {
  }
}
