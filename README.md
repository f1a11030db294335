# DIRAC downtime command and local configuration — a Dafny model

This project models two pieces of DIRAC.

**The Resource Status System's `DowntimeCommand`.** It asks the GOCDB for
scheduled downtimes of a site or a resource and keeps them in a local cache
table. It also answers, from that cache, which downtime affects an element now
or some hours ahead. The model has five parts:

- `DowntimeNames` turns the command's arguments into a GOCDB query
  (`_prepareCommand`). It resolves the site's GOC name, the storage element's
  host and service type, or the FTS server's name.
- `DowntimeIngest` specifies the ingestion pipeline of `doNew`:
  - a fetch, retried once;
  - the cleaning of stale cached rows (`_cleanCommand`);
  - the normalisation of every GOCDB answer, which stops at the first bad row;
  - the upsert loop (`_storeCommand`).
- `DowntimeResolution` specifies which cached row `doCache` reports:
  - looking ahead (hours given): the first overlapping row in
    (Name, Severity, StartDate) order;
  - in the present: the last overlapping outage in (Name, Severity, EndDate)
    order, or failing that the last overlapping warning in that order.
- `DowntimeCommands` holds the `DowntimeCommand` class. The class owns the
  cache and the list of failures collected by `doMaster`. Its methods follow
  the source loop for loop and are proved against the functions above.
- `Strings` and `Wrappers` are shared helpers. `Strings` covers ASCII case
  mapping, split and join, Python's string order, and the `D[1-9]` / `T[1-9]`
  searches.

**The Configuration System's `LocalConfiguration`.** It assembles a
component's configuration at start-up:

- it registers the command-line switches;
- it parses the command line;
- it applies the `-o`, `-s` and `--cert` switches and the custom switches;
- it chooses the component's section;
- it checks the mandatory options;
- it fills in the defaults.

The model has two parts:

- `LocalConfigurationSpec` states every operation as a function on a value
  snapshot (`Config`).
- `LocalConfigurations.LocalConfiguration` is the class. Its fields are the
  source's attributes, and every method is proved equal to its specification
  function on `State()`.

Things the model receives as inputs rather than computing itself:

- **Downtime command.** GOCDB answers (`Gocdb`), name and host lookups
  (`Lookups`), the storage back end's failures (`StoreFaults`), and the
  current time (`now`, in seconds).
- **Local configuration.** The command line, `gnu_getopt`, configuration file
  loading, the component-section lookups, and custom switch callbacks, all
  bundled in an `Environment`.

The model keeps these behaviours of the code, which are easy to overlook:

- `_cleanCommand` runs before the new rows are normalised. Its deletions
  therefore stay when normalisation later fails.
- A GOCDB answer that is an empty, but present, dictionary stores nothing. The
  source then reads an unbound `resQuery`. The model reports this as
  `Err(NothingStored)`. Nothing catches that exception in `doMaster`, so it
  ends `doMaster` as well: a raising site ingestion skips the resources, and
  neither raising ingestion is recorded in `failed`.
- `_cleanCommand` collects the outcome of each delete but never checks it. A
  failed delete leaves its row in the cache and the clean still succeeds.
- `StartDate < EndDate` is never assumed.

## Model

| member | source | states |
|---|---|---|
| DowntimeNames.SeServiceType | ResourceStatusSystem/Command/DowntimeCommand.py:143-151 | a `T[1-9]` tag means `srm.nearline`; otherwise a `D[1-9]` tag means `srm`; otherwise there is no service type |
| DowntimeNames.Prepare | ResourceStatusSystem/Command/DowntimeCommand.py:104-171 | a query is produced only for a named Site or Resource; its element, GOC name and hours come from the arguments and lookups as the source resolves them |
| DowntimeNames.PrepareRejectsBadArguments | ResourceStatusSystem/Command/DowntimeCommand.py:104-121 | a missing name, element or element type, and an element that is neither Site nor Resource, each give their own error, checked in that order and whatever the lookups say |
| DowntimeNames.PrepareSite | ResourceStatusSystem/Command/DowntimeCommand.py:126-132 | a site is always accepted, without a service type, under its GOC site name when the lookup finds one and under its own name otherwise |
| DowntimeNames.PrepareStorageElement | ResourceStatusSystem/Command/DowntimeCommand.py:135-160 | a storage element is accepted iff its SE type can be read and its host lookup gives a non-empty host; it is then queried under that host with the service type of its SE type, and each failure has its own error |
| DowntimeNames.PrepareTransferService | ResourceStatusSystem/Command/DowntimeCommand.py:162-169 | an FTS or FTS3 server is always accepted with service type `FTS`, under its GOC FTS name when the lookup finds one and under its own name otherwise |
| DowntimeNames.PrepareOtherResource | ResourceStatusSystem/Command/DowntimeCommand.py:162-171 | any other resource is queried under its own name, with no service type |
| DowntimeIngest.FetchStatus | ResourceStatusSystem/Command/DowntimeCommand.py:199-209 | the first answer is used unless the call raised a URL error, in which case the second answer is; the source is reported unreachable iff both calls raised URL errors |
| DowntimeIngest.Normalise | ResourceStatusSystem/Command/DowntimeCommand.py:223-247 | for a row carrying the five always-read keys, it is accepted iff its name is truthy and its service type does not contradict the declared one; every field is copied as the source maps it, and the description is the reported one with every `'` removed and the other characters kept in order (`Without`) |
| DowntimeIngest.EmptyHostNameHidesSiteName | ResourceStatusSystem/Command/DowntimeCommand.py:227-229 | an empty `HOSTNAME` is not replaced by `SITENAME`: the row is rejected as nameless |
| DowntimeIngest.NormaliseAllSucceeds | ResourceStatusSystem/Command/DowntimeCommand.py:223-247 | normalising a batch succeeds iff every row normalises, and it then yields exactly the rows' records, in order |
| DowntimeIngest.NormaliseAllFirstError | ResourceStatusSystem/Command/DowntimeCommand.py:223-237 | a failing batch reports the error of its first bad row |
| DowntimeIngest.CleanRemovesExactlyStale | ResourceStatusSystem/Command/DowntimeCommand.py:58-91 | when every select succeeds and the link list is available, the clean succeeds and deletes exactly the cached rows of the queried names that ended before now or whose link is no longer listed, except those whose delete fails; every other row is kept unchanged |
| DowntimeIngest.CleanSkipsLinkListWithoutCachedRows | ResourceStatusSystem/Command/DowntimeCommand.py:77-83 | when none of the queried names has cached rows, the clean succeeds and deletes nothing, even with a failing link list |
| DowntimeIngest.CleanOnlyRemovesStale | ResourceStatusSystem/Command/DowntimeCommand.py:63-91 | whatever the outcome, the clean only deletes stale rows of the queried names and never adds or changes one; a failed delete keeps its row and never fails the clean; the clean fails iff some select fails or the link list is unavailable for a name that has cached rows |
| DowntimeIngest.StoreStatus | ResourceStatusSystem/Command/DowntimeCommand.py:41-56 | storing succeeds iff there is at least one record and the last upsert succeeds; storing nothing is an error |
| DowntimeIngest.UpsertWritesEveryRecord | ResourceStatusSystem/Command/DowntimeCommand.py:46-56 | after the upsert loop the cache's ids are the old ids plus those of the successful upserts, each such record is stored under its id, every other row is untouched, and the cache stays keyed by id |
| DowntimeIngest.PlanFor | ResourceStatusSystem/Command/DowntimeCommand.py:185-200 | the master mode asks for the downtimes ongoing now or starting within the next 120 hours, for the given element and names with no service type, and the single mode queries what `Prepare` resolves, failing as it fails |
| DowntimeIngest.BadRecordStoresNothing | ResourceStatusSystem/Command/DowntimeCommand.py:215-251 | when any fetched row fails normalisation, the command fails and the cache is exactly the cleaned cache: nothing is stored, but the deletions stay |
| DowntimeIngest.SuccessfulIngestion | ResourceStatusSystem/Command/DowntimeCommand.py:185-253 | with distinct ids, valid rows and no store failure, the run succeeds; afterwards every fetched downtime is cached in normal form, every non-stale cached row not overwritten is kept, and nothing else is in the cache |
| DowntimeIngest.NoDowntimesLeavesCacheUntouched | ResourceStatusSystem/Command/DowntimeCommand.py:212-213 | a GOCDB answer of None succeeds and neither cleans nor stores anything |
| DowntimeIngest.EmptyAnswerFailsAfterCleaning | ResourceStatusSystem/Command/DowntimeCommand.py:215-251 | an empty answer still cleans the cache, then fails with `NothingStored` and keeps the cleaned cache |
| DowntimeResolution.TargetInstant | ResourceStatusSystem/Command/DowntimeCommand.py:275-286 | the target is now, or exactly `hours` hours later |
| DowntimeResolution.KeyLessTransitive | ResourceStatusSystem/Command/DowntimeCommand.py:289 | the (Name, Severity, date) sort key orders rows transitively |
| DowntimeResolution.KeyLessTrichotomy | ResourceStatusSystem/Command/DowntimeCommand.py:303 | of two different sort keys exactly one sorts first |
| DowntimeResolution.FuturePickDeterministic | ResourceStatusSystem/Command/DowntimeCommand.py:284-298 | looking ahead, whether a downtime is reported, and its sort key, is fixed by the cached rows and the target |
| DowntimeResolution.PresentPickDeterministic | ResourceStatusSystem/Command/DowntimeCommand.py:299-323 | in the present, whether a downtime is reported, and its sort key, is fixed by the cached rows and the target |
| DowntimeResolution.OutageDominatesWarning | ResourceStatusSystem/Command/DowntimeCommand.py:305-323 | when any overlapping outage exists, an outage is reported, whatever warnings overlap |
| DowntimeResolution.PresentReportsLatestEnding | ResourceStatusSystem/Command/DowntimeCommand.py:303-323 | of overlapping rows with the reported row's name and severity, none ends later than the reported one |
| DowntimeResolution.FutureReportsEarliestStarting | ResourceStatusSystem/Command/DowntimeCommand.py:289-298 | looking ahead, of overlapping rows with the reported row's name and severity, none starts earlier than the reported one |
| DowntimeCommands.MasterResources | ResourceStatusSystem/Command/DowntimeCommand.py:344-358 | the master's resource list starts with the SE hosts and contains exactly those, the FTS servers and the computing elements whose listings succeeded |
| DowntimeCommands.MasterAbortsOnInventoryFailure | ResourceStatusSystem/Command/DowntimeCommand.py:334-341 | a failed GOC site listing, or else a failed SE host listing, is returned before any ingestion, with the cache and `failed` untouched |
| DowntimeCommands.MasterIsolatesFailures | ResourceStatusSystem/Command/DowntimeCommand.py:334-372 | once the sites and SE hosts are listed and neither ingestion raises, the resource ingestion runs on the cache the site ingestion left, the run succeeds, and `failed` grows by exactly the site failure then the resource failure, each when it happened |
| DowntimeCommands.MasterStopsWhenIngestionRaises | ResourceStatusSystem/Command/DowntimeCommand.py:46-56 | an ingestion that stores nothing raises out of `doMaster`: after the site ingestion the resources are skipped and `failed` is unchanged; after the resource ingestion only the site failure is recorded |
| DowntimeCommands.DowntimeCommand.constructor | ResourceStatusSystem/Command/DowntimeCommand.py:27-39 | a command starts with the given cache and no failures |
| DowntimeCommands.DowntimeCommand.StoreCommand | ResourceStatusSystem/Command/DowntimeCommand.py:41-56 | the loop's status is `StoreStatus` and its cache is `Upserted`; the failures are unchanged |
| DowntimeCommands.DowntimeCommand.CleanCommand | ResourceStatusSystem/Command/DowntimeCommand.py:58-91 | the nested loops return the status and leave the cache that `CleanSpec` describes |
| DowntimeCommands.DowntimeCommand.DoNew | ResourceStatusSystem/Command/DowntimeCommand.py:173-253 | the result and the new cache are those of `NewSpec`: plan, fetch with one retry, clean, normalise and store |
| DowntimeCommands.DowntimeCommand.DoCache | ResourceStatusSystem/Command/DowntimeCommand.py:255-325 | preparation and select errors are passed on; otherwise the reported row is the `FuturePick` (hours given) or the `PresentPick` (no hours) of the matching cached rows at the target instant, and it is the cached row stored under its own id |
| DowntimeCommands.DowntimeCommand.DoMaster | ResourceStatusSystem/Command/DowntimeCommand.py:327-372 | the result, cache and failed list are those of `MasterSpec`, so the two lemmas above describe it |
| DowntimeCommands.FirstToStart | ResourceStatusSystem/Command/DowntimeCommand.py:289-298 | the scan returns the first overlapping row in (Name, Severity, StartDate) order, or none when nothing overlaps |
| DowntimeCommands.MostSevereLatestEnding | ResourceStatusSystem/Command/DowntimeCommand.py:303-323 | the scan returns the last overlapping outage in (Name, Severity, EndDate) order, else the last overlapping warning in that order, else none |
| Strings.WithoutConcat | ResourceStatusSystem/Command/DowntimeCommand.py:244 | removing a character from a concatenation removes it from each part, so with `WithoutSingle` the kept characters stay in order and keep their counts |
| Strings.WithoutSingle | ResourceStatusSystem/Command/DowntimeCommand.py:244 | one character is dropped exactly when it is the removed one |
| Strings.JoinSplit | ConfigurationSystem/Client/LocalConfiguration.py:316-318 | re-joining the pieces of a split with the same separator restores the string |
| Strings.SplitPartsOmitSeparator | ConfigurationSystem/Client/LocalConfiguration.py:314 | no piece of a split contains the separator |
| Strings.SplitAtFirst | ConfigurationSystem/Client/LocalConfiguration.py:316-318 | the first piece of a split is the text before the first separator, and the re-joined rest is the text after it |
| Strings.StrLessTransitive | ResourceStatusSystem/Command/DowntimeCommand.py:289 | Python's string order is transitive |
| Strings.StrLessTotal | ResourceStatusSystem/Command/DowntimeCommand.py:289 | Python's string order is total on distinct strings |
| LocalConfigurationSpec.AbsolutePath | ConfigurationSystem/Client/LocalConfiguration.py:40-44 | an empty path has no absolute form; an absolute path is kept; a relative path becomes the section, a `/` and the path |
| LocalConfigurationSpec.AbsolutePathIdempotent | ConfigurationSystem/Client/LocalConfiguration.py:40-44 | resolving an already-resolved path changes nothing |
| LocalConfigurationSpec.SetOptionValue | ConfigurationSystem/Client/LocalConfiguration.py:59-61 | an empty path is refused; otherwise the value is stored under the resolved path and nothing else changes |
| LocalConfigurationSpec.DefaultEntryNeverOverwrites | ConfigurationSystem/Client/LocalConfiguration.py:49-55 | an empty path raises; an absolute path gets the default only when it is not set; a relative path is queued among the optional entries; a value already set is never replaced |
| LocalConfigurationSpec.DefaultsNeverOverwrite | ConfigurationSystem/Client/LocalConfiguration.py:136-139 | applying the optional defaults keeps every key and every value that was already set |
| LocalConfigurationSpec.DefaultsRaiseOnEmptyPath | ConfigurationSystem/Client/LocalConfiguration.py:136-139 | applying the defaults raises iff one of the entries has an empty path |
| LocalConfigurationSpec.DefaultsOnlyWriteDefaults | ConfigurationSystem/Client/LocalConfiguration.py:136-139 | every option in the store afterwards either held the same value before or is the resolved path of a queued default, holding that default's value |
| LocalConfigurationSpec.DefaultsWriteFirstValue | ConfigurationSystem/Client/LocalConfiguration.py:136-139 | an unset option receives the non-empty value of the first queued default resolving to it, when no empty path raised up to it; later defaults do not replace it |
| LocalConfigurationSpec.DefaultsApplied | ConfigurationSystem/Client/LocalConfiguration.py:136-139 | when nothing is raised, every default's resolved path is present afterwards |
| LocalConfigurationSpec.ShortOptionsCoverAll | ConfigurationSystem/Client/LocalConfiguration.py:156-162 | the getopt short-option string contains every registered short option |
| LocalConfigurationSpec.LongOptionsMembers | ConfigurationSystem/Client/LocalConfiguration.py:163-166 | the long-option list holds exactly the registered long options |
| LocalConfigurationSpec.LongOptionsDistinct | ConfigurationSystem/Client/LocalConfiguration.py:163-166 | the long-option list has no duplicates |
| LocalConfigurationSpec.BasicOptionStrings | ConfigurationSystem/Client/LocalConfiguration.py:63-71 | the basic switches alone give the short string `o:s:c:h` and the long list `option=`, `section=`, `cert=`, `help` |
| LocalConfigurationSpec.ShortOptionShadowed | ConfigurationSystem/Client/LocalConfiguration.py:159-162 | registering a short option that the string built so far already contains leaves the getopt string as if it had never been registered, whatever is registered after it |
| LocalConfigurationSpec.SplitArgumentsMembers | ConfigurationSystem/Client/LocalConfiguration.py:177-178 | the extra configuration files are exactly the arguments ending in `.cfg`, and the remaining arguments exactly the others |
| LocalConfigurationSpec.SplitArgumentsConcat | ConfigurationSystem/Client/LocalConfiguration.py:177-178 | splitting a concatenation splits each part, preserving order |
| LocalConfigurationSpec.SplitArgumentsPartition | ConfigurationSystem/Client/LocalConfiguration.py:177-178 | the two lists together are a permutation of the arguments |
| LocalConfigurationSpec.OptionSwitchSplitsAtFirstEquals | ConfigurationSystem/Client/LocalConfiguration.py:313-319 | `-o path=value` stores everything after the first `=` under the path; a value without `=` is an error that leaves the configuration unchanged |
| LocalConfigurationSpec.SectionSwitch | ConfigurationSystem/Client/LocalConfiguration.py:307-311 | `-s` sets the section to its value when that value starts with `/`, refuses any other non-empty value, and raises on an empty one |
| LocalConfigurationSpec.UseCertFlag | ConfigurationSystem/Client/LocalConfiguration.py:321-326 | the flag is `yes` iff the lower-cased value is `y`, `yes` or `true`, else `no` |
| LocalConfigurationSpec.CertSwitch | ConfigurationSystem/Client/LocalConfiguration.py:321-326 | `--cert` only writes the server-certificate flag |
| LocalConfigurationSpec.UnmatchedSwitchIgnored | ConfigurationSystem/Client/LocalConfiguration.py:241-247 | a switch that matches no registered option changes nothing |
| LocalConfigurationSpec.SwitchWithoutCallbackUnprocessed | ConfigurationSystem/Client/LocalConfiguration.py:248-255 | a switch whose options have no callback is recorded as unprocessed once per matching option, and nothing else changes |
| LocalConfigurationSpec.StepCallbackReplies | ConfigurationSystem/Client/LocalConfiguration.py:247-252 | a matching option's callback: an error reply adds its message, a non-dictionary reply adds the message naming the switch, a success adds nothing, an exception or exit stops the loop |
| LocalConfigurationSpec.DispatchAllEffects | ConfigurationSystem/Client/LocalConfiguration.py:241-255 | dispatching the switches changes only the store, the current section and the unprocessed switches, which only grow, and only appends messages |
| LocalConfigurationSpec.StoppedDispatchIdle | ConfigurationSystem/Client/LocalConfiguration.py:241-255 | once a callback has raised or exited, the remaining options are not looked at |
| LocalConfigurationSpec.ScriptSectionIsAbsolute | ConfigurationSystem/Client/LocalConfiguration.py:303-305 | a script, or a component of no type, always gets an absolute section, also used for logging, and a script name's leading `/` is dropped |
| LocalConfigurationSpec.MandatoryStatus | ConfigurationSystem/Client/LocalConfiguration.py:92-105 | the check passes iff every mandatory option resolves and is set to a non-empty value |
| LocalConfigurationSpec.Verdict | ConfigurationSystem/Client/LocalConfiguration.py:119-127 | the result is success iff there are no errors and the mandatory check passes; with errors, the message starts with a newline |
| LocalConfigurationSpec.VerdictListsErrors | ConfigurationSystem/Client/LocalConfiguration.py:263-264 | when no error spans lines, the message after its leading newline splits on newlines back into the errors, in order |
| Strings.SplitJoin | ConfigurationSystem/Client/LocalConfiguration.py:263-264 | splitting on the separator undoes joining parts that do not contain it |
| LocalConfigurationSpec.UserDataKeeps | ConfigurationSystem/Client/LocalConfiguration.py:206-265 | reading the user data keeps the registered options, the mandatory and optional entries, the initialisation flag and the component type; a command line already parsed is not parsed again |
| LocalConfigurationSpec.InitializeOnce | ConfigurationSystem/Client/LocalConfiguration.py:108-132 | `initialize` marks the object initialised and parsed without parsing the command line, turns a component of no type into a script and keeps any other type, and a second `initialize` or a later `loadUserData` succeeds without changing anything |
| LocalConfigurationSpec.LoadUserDataDefaults | ConfigurationSystem/Client/LocalConfiguration.py:129-139 | `loadUserData` never replaces a value that is set after the user data is read, and a second call succeeds without changing anything |
| LocalConfigurations.LocalConfiguration.constructor | ConfigurationSystem/Client/LocalConfiguration.py:19-35 | a new object has the given section, the store as its configuration, `/DIRAC` as logging section, an `Unknown` component of no type, the four basic switches registered in order, and nothing parsed or initialised |
| LocalConfigurations.LocalConfiguration.RegisterCmdOpt | ConfigurationSystem/Client/LocalConfiguration.py:73-75 | the option is appended to the registered options and nothing else changes |
| LocalConfigurations.LocalConfiguration.AddDefaultEntry | ConfigurationSystem/Client/LocalConfiguration.py:49-55 | the new state and the raise are those of `DefaultEntry` |
| LocalConfigurations.LocalConfiguration.BuildOptionSpec | ConfigurationSystem/Client/LocalConfiguration.py:156-166 | the loop builds `ShortOptions` and `LongOptions` of the registered options |
| LocalConfigurations.LocalConfiguration.ParseCommandLine | ConfigurationSystem/Client/LocalConfiguration.py:154-180 | the exit code and new state are those of `ParseSpec`: a getopt error shows the help and exits 0, otherwise the switches, files and arguments are recorded |
| LocalConfigurations.LocalConfiguration.SetOptionByCmd | ConfigurationSystem/Client/LocalConfiguration.py:313-319 | the reply and new state are those of `OptionSwitch` |
| LocalConfigurations.LocalConfiguration.SetSectionByCmd | ConfigurationSystem/Client/LocalConfiguration.py:307-311 | the reply and new state are those of `SectionSwitch` |
| LocalConfigurations.LocalConfiguration.SetUseCertByCmd | ConfigurationSystem/Client/LocalConfiguration.py:321-326 | the reply and new state are those of `CertSwitch` |
| LocalConfigurations.LocalConfiguration.Invoke | ConfigurationSystem/Client/LocalConfiguration.py:248-249 | calling a switch's callback gives the reply and state of `Call`: the three basic setters, the help exit, or the custom callback's reply |
| LocalConfigurations.LocalConfiguration.DispatchStep | ConfigurationSystem/Client/LocalConfiguration.py:246-255 | one switch against one registered option gives the state, messages and interruption of `Step` |
| LocalConfigurations.LocalConfiguration.DispatchSwitch | ConfigurationSystem/Client/LocalConfiguration.py:245-255 | the inner loop gives the state, messages and interruption of `DispatchOne` |
| LocalConfigurations.LocalConfiguration.DispatchSwitches | ConfigurationSystem/Client/LocalConfiguration.py:241-255 | the nested loops give the errors, the interruption and the state of `DispatchAll` |
| LocalConfigurations.LocalConfiguration.SetDefaultSection | ConfigurationSystem/Client/LocalConfiguration.py:225-239 | the section chosen, and the error, are those of `DefaultSection` |
| LocalConfigurations.LocalConfiguration.AddUserDataToConfiguration | ConfigurationSystem/Client/LocalConfiguration.py:206-265 | the outcome and new state are those of `UserDataSpec` |
| LocalConfigurations.LocalConfiguration.ReadUserData | ConfigurationSystem/Client/LocalConfiguration.py:210-265 | after parsing, loading the files, choosing the section and dispatching the switches give the outcome and state of `UserDataAfterParse` |
| LocalConfigurations.LocalConfiguration.CheckMandatoryOptions | ConfigurationSystem/Client/LocalConfiguration.py:92-105 | the loop computes `MandatoryStatus` of the current state |
| LocalConfigurations.LocalConfiguration.Conclude | ConfigurationSystem/Client/LocalConfiguration.py:119-127 | an interruption becomes its failure or exit; otherwise the outcome is the `Verdict` of the messages and the mandatory check |
| LocalConfigurations.LocalConfiguration.ApplyOptionalDefaults | ConfigurationSystem/Client/LocalConfiguration.py:136-139 | the loop changes only the store, as `ApplyDefaults` does, and reports whether an empty path raised |
| LocalConfigurations.LocalConfiguration.Initialize | ConfigurationSystem/Client/LocalConfiguration.py:108-127 | the outcome and new state are those of `InitializeSpec` |
| LocalConfigurations.ApplyEntries | ConfigurationSystem/Client/LocalConfiguration.py:136-139 | the loop over the queued defaults gives the store and the raise of `ApplyDefaults` |
| LocalConfigurations.LocalConfiguration.LoadUserData | ConfigurationSystem/Client/LocalConfiguration.py:129-152 | the outcome and new state are those of `LoadUserDataSpec` |

## Left out

- GOCDB transport, the database client and the site/host/FTS lookups are not modelled as code. They are inputs (`Gocdb`, `Lookups`, `StoreFaults`, `Inventory`).
- `datetime.utcnow()` is the parameter `now`, in whole seconds. Date parsing and formatting are not modelled.
- DowntimeIngest.CleanRemovesExactlyStale: `_cleanCommand` reads the clock and GOCDB's link list afresh for each element name. The model reads them once per clean, so it does not capture a clock that moves or a link list that changes or fails between two names.
- DowntimeIngest.Normalise: a GOCDB row always carries `FORMATED_START_DATE`, `FORMATED_END_DATE`, `SEVERITY`, `DESCRIPTION` and `GOCDB_PORTAL_URL` in the model. The source reads these five keys with `downDic[...]`, so a row that lacks one raises a KeyError that neither `doNew` nor `doMaster` catches. That exception is not modelled, and the claim that a row is accepted iff its name is truthy and its service type agrees holds only for rows that carry all five keys.
- Sorting is modelled by the position of the chosen row in the sort order. Rows tying on the whole sort key may be returned in either order, because Python's stable sort depends on the database's row order, which is not modelled.
- `re.search('D[1-9]', ...)` is modelled by `TagAt`, a letter followed by a digit 1-9. No general regular expressions are modelled.
- Case mapping (`upper`, `lower`) is ASCII only.
- DowntimeCommands.DowntimeCommand.DoMaster: returns the list of failures rather than the whole metrics dictionary. The counters the source keeps beside it are not modelled.
- DowntimeCommands.DowntimeCommand.DoCache: the database `select` is modelled as `Selected`, the set of cached rows matching the element, name and service type. Column order and the `meta` argument are not modelled.
- `gnu_getopt` is an input function. Its own parsing rules are not modelled.
- Loading configuration files (`DIRACSYSCONFIG`, the CLI `.cfg` files) is an input function. Merging its options into the configuration is map union, not the configuration tree's deep merge.
- Remote configuration synchronisation, `csDisabled`/`enableCS`, and logging (`gLogger`) are not modelled. The non-strict synchronisation therefore always succeeds here.
- Custom switch callbacks are functions from the switch value to a reply. They do not change the configuration in the model.
- `__showHelp` output is not modelled. Only its exit with code 0 is.
- Of the exceptions the `try` blocks catch, only the `IndexError` raised by an empty path or an empty `-s` value, and the help exit, are modelled.
- The getters, `disableParsingCommandLine`, `addMandatoryEntry`, `addCFGFile`, `deleteOption`, `getExtraCLICFGFiles` and the `setConfigurationFor*` helpers other than the script one are not part of this model.
