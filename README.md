# nsmaps station registry and travel-time store, in Dafny

A model of `nsmaps/station.py`, the station registry of nsmaps. The registry
holds the Dutch railway stations of the NS API. For one origin station it
builds a travel-time dataset: the shortest planned trip to every other station.
It writes that dataset once per origin to `traveltimes/traveltimes_from_<code>.json`.
Later, it reads those files back to find origins whose file misses destinations,
and rebuilds those files.

Modules, one file each:

- `records.dfy` (`Records`): the values that flow through the registry. These are
  a provider station record, a trip, a trip query and the provider's answer, a
  dataset entry `{name, id, travel_time_min, travel_time_planned}`, and the
  faults that end a run.
- `registry.dfy` (`Registry`): pure definitions behind the registry.
  - The constructor's filter: Dutch stations only, and in test mode only raw
    positions 0..5 or the code `UT`.
  - Lookup by name: the first station with that name.
  - Loading a file's entries onto the registry's travel times.
  - The missing stations.
  - The stale-travel-time finding below.
- `trips.dfy` (`Trips`):
  - the `%H:%M` parse of a planned duration;
  - the choice of the first strictly shortest trip;
  - what each destination contributes;
  - the dataset of one origin as a fold over the registry.
- `files.dfy` (`Files`): the travel-time file path (POSIX `os.path.join` semantics), and
  the file system as a class over a map from path to parsed dataset.
- `station.dfy` (`Nsmaps`):
  - the `Station` and `Stations` classes, whose methods follow the source loop
    for loop and update `travel_time_min` in place;
  - the specifications of the creation loop (`CreateRun`) and the
    reconciliation loop (`RecreateRun`, `RecreateStep`);
  - the lemmas about both loops.

The trip provider is a parameter `api: Query -> TripAnswer`. Its answer is one of:

- a list of trips;
- a `TypeError` or an `HTTPError`: the source catches both and skips the destination;
- any other exception: the source does not catch it, and the model ends the run with `Err`.

A planned duration that `strptime` rejects also ends the run with `Err`.

A missing station is one whose `travel_time_min` is still `None`; a time of 0
counts as present. Dataset entries appear in registry order, because the
destination loop runs over the registry, not over any API response.

The filtering loop of `recreate_missing_destinations` appends the whole missing
list, not the one station (line 202). Only the emptiness of the result is ever
used, so this has no effect on behaviour. `Nsmaps.FilterIgnored` keeps the
quirk as written.

## Model

| member | source | states |
|---|---|---|
| Registry.FilterIdxSpec | nsmaps/station.py:64-70 | keeping flagged items keeps exactly those, each once, in their original order (the item at `i` lands at the number of flags before `i`) |
| Registry.KeptSpec | nsmaps/station.py:59-70 | every kept station is Dutch; a station is kept iff it is Dutch and, in test mode, sits at raw index ≤ 5 or has code `UT`; provider order is preserved; there are no more kept stations than provider stations |
| Registry.Kept | nsmaps/station.py:64-70 | the kept records are provider records, all Dutch, and no more than the provider lists (the exact selection is `KeptSpec`) |
| Registry.TestModeKeepsAnchor | nsmaps/station.py:65-67 | in test mode a Dutch `UT` station is kept wherever the provider lists it |
| Registry.FindIndex | nsmaps/station.py:86-90 | the result is the first position with that name, and None iff no station has it |
| Registry.CodeOf | nsmaps/station.py:136-140 | None iff no station has the name; otherwise the code of the first station with that name |
| Registry.LastTimeFor | nsmaps/station.py:95-99 | some entry carries the name iff the result is Some, and then its value is the minutes of the last such entry (later entries overwrite earlier ones) |
| Registry.Load | nsmaps/station.py:92-99 | loading a file yields one travel time per registry station (what each holds is `LoadSpec`) |
| Registry.LoadSpec | nsmaps/station.py:92-99 | after a load, station `i` holds the last matching entry's minutes if it is the first registry station with its name and some entry names it; otherwise it keeps its old value |
| Registry.LoadKeepsValues | nsmaps/station.py:92-99 | a load never clears a travel time a station already holds |
| Registry.MissingSpec | nsmaps/station.py:185-191 | the missing stations are exactly those whose travel time is None, each once, in registry order; their number is the number of None times |
| Registry.MissingNeverGrows | nsmaps/station.py:185-191 | loading a file never adds a missing station, nor increases their number |
| Registry.ClearedLoadMissesAbsentNames | nsmaps/station.py:185-191 | corrected (see ## Findings): on cleared times and with unique names, station `i` is missing after the load iff no file entry carries its name |
| Registry.StaleTimesHideGap | nsmaps/station.py:193-198 | concrete case: with times left over from a first file, a second file lacking "C" reports nothing missing; on cleared times it reports ["C"] |
| Trips.ParseHM | nsmaps/station.py:171-172 | an accepted planned duration gives fewer than 24 * 60 minutes (its full meaning is `ParseHMSpec`) |
| Trips.ParseFormatHM | nsmaps/station.py:171-172 | a duration written `H:MM` or `HH:MM` parses back to its minutes |
| Trips.ParseHMAccepts | nsmaps/station.py:171-172 | every spelling of a time of day (hour 0..23 in one or two digits, a colon, minute 0..59 in one or two digits) parses to `60 * hour + minute` |
| Trips.ParseHMSpells | nsmaps/station.py:171-172 | every accepted string is such a spelling, of the hour and minute its value encodes |
| Trips.ParseHMSpec | nsmaps/station.py:171-172 | `strptime(s, "%H:%M")` succeeds iff `s` spells some hour 0..23 and minute 0..59 with nothing after, and its value is then `60 * hour + minute`; so "24:00", "1:60", "1:05x" and "100:00" fail the run |
| Trips.ShortestUpTo | nsmaps/station.py:169-174 | the choice succeeds iff every trip parses; it is a trip whose minutes are ≤ every trip's and strictly < every earlier trip's (first of the shortest); on failure the fault names the first unparsable trip |
| Trips.ShortestStopsAtFirstFailure | nsmaps/station.py:170-171 | once a trip fails to parse, the loop's result is that trip's fault however many trips follow |
| Trips.SelectShortest | nsmaps/station.py:169-174 | the loop returns the specified choice: an index into the trips whose minutes are ≤ every trip's, or the parse fault |
| Trips.TripDataStopsAtFault | nsmaps/station.py:151-171 | an uncaught fault at one destination is the result of the whole dataset build |
| Trips.DestinationOutcome | nsmaps/station.py:152-180 | the origin itself is always skipped; a contributed entry's minutes are the `%H:%M` parse of its planned string, and its id is the registry code of its name |
| Trips.TripData | nsmaps/station.py:142-183 | a dataset that builds starts with the origin's entry `(name, code, 0, "0:00")` (its full shape is `TripDataEntries`) |
| Trips.OutcomeFatalIff | nsmaps/station.py:152-171 | a destination ends the run iff its query raises an uncaught exception or returns an unparsable duration; it contributes an entry iff it is not the origin, got a non-empty list of trips and no fault |
| Trips.ResolvedEntry | nsmaps/station.py:166-180 | a contributed entry is the trip's destination name, the registry code of that name, the trip's minutes and its planned string, for a trip that is the first of least minutes |
| Trips.TripDataOkIff | nsmaps/station.py:151-171 | building the dataset succeeds iff no destination faults |
| Trips.TripDataEntries | nsmaps/station.py:145-180 | a dataset starts with the origin `(name, code, 0, "0:00")` and then holds exactly one entry per answered destination, in registry order |
| Files.TravelTimePathShape | nsmaps/station.py:45-46 | the file path is the data directory (with a separator added unless empty or already present), `traveltimes/traveltimes_from_`, the code and `.json` |
| Files.TravelTimePathInjective | nsmaps/station.py:45-46 | within one data directory, two codes share a file only if they are equal |
| Files.FileSystem.Write | nsmaps/station.py:133-134 | writing a path creates or replaces exactly that file and records the write |
| Nsmaps.Station.constructor | nsmaps/station.py:25-28 | a station holds its provider record and data directory, and no travel time |
| Nsmaps.TravelTimeFilepathSpec | nsmaps/station.py:45-46 | `Station.TravelTimeFilepath` (get_travel_time_filepath) is the station's data directory, `traveltimes/traveltimes_from_`, its code and `.json` |
| Nsmaps.SameFileIffSameCode | nsmaps/station.py:45-46 | two stations of one data directory share a file iff they have the same code |
| Nsmaps.Station.HasTravelTimeData | nsmaps/station.py:48-49 | true iff `<data_dir>/traveltimes/traveltimes_from_<code>.json` (with `os.path.join`'s separator) is an existing file |
| Nsmaps.CopiesForTypes | nsmaps/station.py:120-122 | the inner loop appends, in request order, one copy of the station per requested type name equal to its type |
| Nsmaps.TypeCopiesOnlyStation | nsmaps/station.py:120-122 | the inner loop appends only the station itself |
| Nsmaps.TypeCopiesNonEmpty | nsmaps/station.py:120-122 | the inner loop appends something iff a requested type names the station's type |
| Nsmaps.TypeCopiesSingle | nsmaps/station.py:120-122 | with no type name requested twice, the inner loop appends the station once or not at all |
| Nsmaps.ForTypesMembers | nsmaps/station.py:117-123 | a station is selected iff it is in the registry and a requested type names its type |
| Nsmaps.ForTypesIsFilter | nsmaps/station.py:117-123 | with no type name requested twice, the selection is the registry filtered by type, in registry order |
| Nsmaps.DistinctTypesDistinctNames | nsmaps/station.py:13-21 | distinct station types have distinct names, so a list of distinct types requests each name once |
| Nsmaps.CreateRun | nsmaps/station.py:125-134 | a creation run makes no more writes than there are origins and removes no file (its policy is stated by the lemmas below) |
| Nsmaps.CreateRunSkip | nsmaps/station.py:128-131 | an origin whose file exists is skipped |
| Nsmaps.CreateRunWrite | nsmaps/station.py:132-134 | an origin without a file gets its dataset written to its path before the loop continues |
| Nsmaps.CreateRunFail | nsmaps/station.py:132 | a fault while building an origin's dataset ends the loop, with nothing more written |
| Nsmaps.CreateKeepsExisting | nsmaps/station.py:125-134 | creation leaves every existing file's dataset as it was, and a file exists afterwards iff it existed or was written |
| Nsmaps.CreateNeverOverwrites | nsmaps/station.py:127-131 | every file the creation run writes did not exist before, and none is written twice |
| Nsmaps.CreateWritesOriginData | nsmaps/station.py:127-134 | every written file is the file of one of the origins and holds that origin's dataset |
| Nsmaps.CreateCoversOrigins | nsmaps/station.py:127-134 | a run that ends normally leaves a file for every origin, written by the run when it was absent |
| Nsmaps.UnignoredSpec | nsmaps/station.py:199-204 | the filtered list is non-empty iff some missing station's code is not on the ignore list |
| Nsmaps.FilterIgnored | nsmaps/station.py:199-203 | the loop gives one element per non-ignored missing station, each the whole missing list |
| Nsmaps.RewriteStep | nsmaps/station.py:199-207 | the end of one origin's iteration either leaves the disk as it was, or the origin's dataset builds and its file is replaced with that dataset, with the write recorded |
| Nsmaps.RecreateStep | nsmaps/station.py:195-207 | one origin's iteration keeps the set of files, and appends at most the origin's own path to the writes (what the files then hold is `RecreateStepSpec`) |
| Nsmaps.RecreateRun | nsmaps/station.py:193-209 | the reconciliation keeps the set of files and only appends to the writes made before it (what the files then hold is `RecreateRunContents`) |
| Nsmaps.RecreateStepSpec | nsmaps/station.py:195-207 | an origin without a file changes nothing; with one, the file is loaded onto the registry and rewritten iff some non-ignored station is then without a time, it is not a dry run and the dataset builds; a rewrite replaces exactly that file with the origin's freshly built dataset, without a rewrite the files are unchanged, and no file appears |
| Nsmaps.RecreateWritesExisting | nsmaps/station.py:193-209 | over the whole reconciliation the set of files is unchanged, earlier writes stay recorded, and every new write goes to an already existing file of a registry station |
| Nsmaps.RecreateRunContents | nsmaps/station.py:193-209 | after the whole reconciliation, a file it did not write keeps its dataset, and a file it wrote holds the freshly built dataset of a registry station whose file it is |
| Nsmaps.RecreateDryRun | nsmaps/station.py:204-207 | a dry run writes nothing and ends normally |
| Nsmaps.RecreateKeepsTimes | nsmaps/station.py:195-198 | as written, a travel time once loaded stays present for the rest of the reconciliation |
| Nsmaps.ClearedStepRewritesOnGap | nsmaps/station.py:196-207 | corrected (see ## Findings): on cleared times with unique names, an origin's file is rewritten iff it lacks the name of a non-ignored registry station (not a dry run, and the dataset builds) |
| Nsmaps.NothingMissingWhenAllTimed | nsmaps/station.py:185-191 | with every travel time present nothing is missing |
| Nsmaps.StaleSweepWritesNothing | nsmaps/station.py:193-204 | as written, once every registry station holds a time, the reconciliation rewrites no further file and ends normally |
| Nsmaps.Stations.constructor | nsmaps/station.py:59-70 | the registry's records are exactly the kept provider records in provider order, each a new station without a travel time |
| Nsmaps.Stations.FindStation | nsmaps/station.py:86-90 | the result is Some iff some station has the name, and then it is the first such station |
| Nsmaps.Stations.GetStationCode | nsmaps/station.py:136-140 | the code is None iff `find_station` finds nothing, and otherwise is the code of the station it finds |
| Nsmaps.Stations.GetStationsForTypes | nsmaps/station.py:117-123 | the nested loops give, per station in order, one copy per requested type naming its type |
| Nsmaps.Stations.TravelTimesFromJson | nsmaps/station.py:92-99 | the stations' new travel times are the old ones with the file's entries loaded in order |
| Nsmaps.Stations.GetMissingDestinations | nsmaps/station.py:185-191 | after loading the file onto the current times, the result is the stations still without a time, in registry order |
| Nsmaps.Stations.CollectMissing | nsmaps/station.py:187-191 | the loop returns exactly the stations whose travel time is None, in registry order (the meaning of `MissingOf` is `MissingSpec`) |
| Nsmaps.Stations.ClearTravelTimes | nsmaps/station.py:186 | corrected (see ## Findings): every station's travel time becomes None, the reset the source lacks before the load at line 186 |
| Nsmaps.Stations.GetMissingDestinationsCleared | nsmaps/station.py:185-191 | corrected (see ## Findings): the missing stations of the file alone, loaded onto cleared times |
| Nsmaps.Stations.CreateTripDataFromStation | nsmaps/station.py:142-183 | the loop returns the specified dataset of the origin, or the fault that ended it |
| Nsmaps.Stations.DestinationEntry | nsmaps/station.py:152-180 | one destination's iteration gives the specified outcome: skipped, the entry of its shortest trip, or the fault that ends the run |
| Nsmaps.Stations.CreateTraveltimesData | nsmaps/station.py:125-134 | the new files, the writes made and the outcome are those of the creation run |
| Nsmaps.Stations.WriteOrigin | nsmaps/station.py:132-134 | an origin's dataset is built; on a fault nothing is written and the fault is returned, otherwise the origin's file is created or replaced with the dataset and the write recorded |
| Nsmaps.Stations.Reconcile | nsmaps/station.py:195-209 | the new travel times, files, writes and outcome are those of the reconciliation run |
| Nsmaps.Stations.ReconcileOrigin | nsmaps/station.py:196-207 | one iteration leaves the times, files and writes of one reconciliation step |
| Nsmaps.Stations.ReconcileExisting | nsmaps/station.py:196-207 | for an origin whose file exists, the iteration leaves the times, files and writes of one reconciliation step |
| Nsmaps.Stations.LoadOrigin | nsmaps/station.py:198 | the origin's file is loaded onto the current (or, corrected, cleared) travel times, and the result is the stations then without a time |
| Nsmaps.Stations.RewriteOrigin | nsmaps/station.py:199-207 | given the origin's missing stations, the disk and outcome are those of one rewrite step |
| Nsmaps.Stations.RecreateMissingDestinations | nsmaps/station.py:193-209 | the reconciliation as written, with travel times accumulating across origins |
| Nsmaps.Stations.RecreateMissingDestinationsCleared | nsmaps/station.py:193-209 | corrected (see ## Findings): the reconciliation with each origin's file checked against cleared travel times |

## Left out

- The NS API client: the station list is a constructor parameter, and trip queries go to the `api` function parameter. Credentials and client construction are not modelled.
- The file system: it is a map from path to the parsed `stations` list. JSON encoding, `indent`/`sort_keys` formatting and the `int(...)` conversion on load are not modelled, because a written dataset is read back as the same entries.
- TravelTimesFromJson: takes the file's entries, not a file name. Opening a file that does not exist (which raises in the source) is not modelled, because the source only loads files whose existence it has just checked.
- Files.FileSystem.Exists: it is `os.path.exists` itself, the membership test of the file-system abstraction, so it promises nothing beyond that; what the source asks of it is stated by `Nsmaps.Station.HasTravelTimeData` and the creation and reconciliation lemmas.
- Files.JoinPath: models POSIX `posixpath.join` only; Windows paths (`\` separators, drive letters) are not modelled.
- Failures of file writes, and any exception other than those of the trip query and of `strptime`.
- The parse models ASCII digits only. Python's `strptime` also accepts other Unicode decimal digits.
- The source stores each trip's minutes back on the provider's trip objects (line 172). The model keeps minutes only in the choice it returns.
- `Station.get_lat`/`get_lon`: floating point; coordinates are not part of a station record here.
- `Station.__str__` and the logger calls: text output only.
- `Stations.__iter__`/`__len__`: plain accessors; the model reads the `stations` field directly.
- `update_station_data` is mostly I/O and needs contour files, which are not part of this model.
- The commented-out `from_json` and the throttling `time.sleep` are not part of the program's behaviour.
- `bin/create_contour_map.py` is not part of this model.
- Nsmaps.Station.constructor: it has no `travel_time_min` argument. The registry always uses the default `None`.

## Findings

| source | as written | input that shows it | evidently intended | confidence | as-written member | corrected member |
|---|---|---|---|---|---|---|
| nsmaps/station.py:185-198 | `travel_time_min` is never reset. Each origin's file is loaded on top of the times left by earlier origins' files, so a destination missing from a later file counts as present. | Registry names A, B, C. The first origin's file has A, B and C. The second origin's file has B and A only. C is still reported as not missing, so the second file is not rewritten. | Each origin's file is checked on its own: a destination is missing iff that file lacks it. | medium, not executed | Nsmaps.Stations.RecreateMissingDestinations, with Registry.StaleTimesHideGap and Nsmaps.StaleSweepWritesNothing | Nsmaps.Stations.RecreateMissingDestinationsCleared, with Nsmaps.ClearedStepRewritesOnGap and Registry.ClearedLoadMissesAbsentNames |
