/**
 * `nsmaps/station.py`: a Station wraps one provider record and carries the
 * transient `travel_time_min`; Stations is the registry, which loads travel-time
 * files onto its stations in place, builds trip datasets and writes them.
 */
module Nsmaps {
  import opened Records
  import opened Registry
  import opened Trips
  import opened Files

  /** Station codes whose gaps the reconciliation ignores. */
  const IgnoreStationIds: seq<string> := ["HRY", "WTM", "KRW", "VMW", "RTST", "WIJ", "SPV", "SPH"]

  class Station {
    const ns: NsStation
    const dataDir: string
    var travelTimeMin: Option<int>

    constructor (ns: NsStation, dataDir: string)
      ensures this.ns == ns && this.dataDir == dataDir && travelTimeMin == None
    {
      this.ns := ns;
      this.dataDir := dataDir;
      travelTimeMin := None;
    }

    function Name(): (r: string) { ns.longName }

    function Code(): (r: string) { ns.code }

    function TypeName(): (r: string) { ns.stationType }

    /** get_travel_time_filepath. */
    function TravelTimeFilepath(): (r: Path)
    {
      TravelTimePath(dataDir, ns.code)
    }

    /** has_travel_time_data: `data_dir/traveltimes/traveltimes_from_<code>.json` exists. */
    function HasTravelTimeData(fs: FileSystem): (r: bool)
      reads fs
      ensures r <==> DirPrefix(dataDir) + TravelTimePrefix + ns.code + TravelTimeSuffix in fs.files
    {
      TravelTimePathShape(dataDir, ns.code);
      fs.Exists(TravelTimeFilepath())
    }
  }

  /** A station's file is `traveltimes/traveltimes_from_<code>.json` below its data directory. */
  lemma TravelTimeFilepathSpec(s: Station)
    ensures s.TravelTimeFilepath() == DirPrefix(s.dataDir) + TravelTimePrefix + s.Code() + TravelTimeSuffix
  {
    TravelTimePathShape(s.dataDir, s.Code());
  }

  /** Two stations of one data directory share a travel-time file iff they have the same code. */
  lemma SameFileIffSameCode(s: Station, t: Station)
    requires s.dataDir == t.dataDir
    ensures s.TravelTimeFilepath() == t.TravelTimeFilepath() <==> s.Code() == t.Code()
  {
    if s.TravelTimeFilepath() == t.TravelTimeFilepath() {
      TravelTimePathInjective(s.dataDir, s.Code(), t.Code());
    }
  }

  /** The provider records behind a list of stations. */
  function NsOf(ss: seq<Station>): (r: seq<NsStation>)
    ensures |r| == |ss| && forall i :: 0 <= i < |ss| ==> r[i] == ss[i].ns
  {
    seq(|ss|, i requires 0 <= i < |ss| => ss[i].ns)
  }

  /** The current `travel_time_min` of each station of a list. */
  function TimesOf(ss: seq<Station>): (r: seq<Option<int>>)
    reads ss
    ensures |r| == |ss| && forall i :: 0 <= i < |ss| ==> r[i] == ss[i].travelTimeMin
  {
    seq(|ss|, i reads ss requires 0 <= i < |ss| => ss[i].travelTimeMin)
  }

  // ---------------------------------------------------------------------------
  // get_stations_for_types

  /** The names of the requested types, in request order. */
  function TypeNames(types: seq<StationType>): (r: seq<string>)
    ensures |r| == |types| && forall k :: 0 <= k < |types| ==> r[k] == types[k].Name()
  {
    seq(|types|, k requires 0 <= k < |types| => types[k].Name())
  }

  /** The inner loop: one copy of `s` for every requested type name that is `s`'s type. */
  function TypeCopies(s: Station, names: seq<string>): (r: seq<Station>)
  {
    if names == [] then []
    else TypeCopies(s, names[..|names| - 1]) + (if s.TypeName() == names[|names| - 1] then [s] else [])
  }

  /** get_stations_for_types: the inner loop's copies, station after station in registry order. */
  function ForTypes(ss: seq<Station>, names: seq<string>): (r: seq<Station>)
  {
    if ss == [] then []
    else ForTypes(ss[..|ss| - 1], names) + TypeCopies(ss[|ss| - 1], names)
  }

  /** Some requested type names the station's type. */
  predicate HasType(s: Station, names: seq<string>)
  {
    s.TypeName() in names
  }

  lemma {:induction false} TypeCopiesOnlyStation(s: Station, names: seq<string>)
    ensures forall x :: x in TypeCopies(s, names) ==> x == s
  {
    if names != [] {
      TypeCopiesOnlyStation(s, names[..|names| - 1]);
    }
  }

  lemma {:induction false} TypeCopiesNonEmpty(s: Station, names: seq<string>)
    ensures TypeCopies(s, names) != [] <==> HasType(s, names)
  {
    if names != [] {
      var init := names[..|names| - 1];
      TypeCopiesNonEmpty(s, init);
      assert names == init + [names[|names| - 1]];
    }
  }

  /** With no type requested twice, a station is copied at most once. */
  lemma {:induction false} TypeCopiesSingle(s: Station, names: seq<string>)
    requires UniqueNames(names)
    ensures TypeCopies(s, names) == (if HasType(s, names) then [s] else [])
  {
    if names != [] {
      var init := names[..|names| - 1];
      assert UniqueNames(init);
      assert names == init + [names[|names| - 1]];
      TypeCopiesSingle(s, init);
      if s.TypeName() == names[|names| - 1] {
        assert !HasType(s, init) by {
          forall k | 0 <= k < |init| ensures init[k] != s.TypeName() {
            assert init[k] == names[k];
          }
        }
      }
    }
  }

  /** A station is selected iff one of the requested types names its type. */
  lemma {:induction false} ForTypesMembers(ss: seq<Station>, names: seq<string>)
    ensures forall s :: s in ForTypes(ss, names) <==> s in ss && HasType(s, names)
  {
    if ss != [] {
      var init := ss[..|ss| - 1];
      var last := ss[|ss| - 1];
      ForTypesMembers(init, names);
      TypeCopiesOnlyStation(last, names);
      TypeCopiesNonEmpty(last, names);
      assert ss == init + [last];
      if HasType(last, names) {
        assert TypeCopies(last, names)[0] in TypeCopies(last, names);
      }
    }
  }

  function TypeFlags(ss: seq<Station>, names: seq<string>): (f: seq<bool>)
    ensures |f| == |ss| && forall i :: 0 <= i < |ss| ==> f[i] == HasType(ss[i], names)
  {
    seq(|ss|, i requires 0 <= i < |ss| => HasType(ss[i], names))
  }

  /**
   * With no type requested twice, the selection is the registry filtered by type:
   * each matching station once, in registry order.
   */
  lemma {:induction false} ForTypesIsFilter(ss: seq<Station>, names: seq<string>)
    requires UniqueNames(names)
    ensures ForTypes(ss, names) == FilterIdx(ss, TypeFlags(ss, names))
  {
    if ss != [] {
      var init := ss[..|ss| - 1];
      ForTypesIsFilter(init, names);
      TypeCopiesSingle(ss[|ss| - 1], names);
      assert TypeFlags(ss, names)[..|ss| - 1] == TypeFlags(init, names);
    }
  }

  /** Requesting each station type at most once requests each type name at most once. */
  lemma DistinctTypesDistinctNames(types: seq<StationType>)
    requires forall i, j :: 0 <= i < j < |types| ==> types[i] != types[j]
    ensures UniqueNames(TypeNames(types))
  {
  }

  // ---------------------------------------------------------------------------
  // create_traveltimes_data

  /** The file system as a value: existing paths with their datasets, and the writes so far. */
  datatype Disk = Disk(files: map<Path, Dataset>, writes: seq<Path>)

  /** What a creation run leaves: the files, the paths it wrote in order, and how it ended. */
  datatype Run = Run(files: map<Path, Dataset>, written: seq<Path>, result: Result<()>)

  /** How an origin's dataset is built; create_trip_data_from_station is `DatasetBuilder`. */
  type Builder = NsStation -> Result<Dataset>

  function DatasetBuilder(reg: seq<NsStation>, timestamp: string, api: TripProvider): (r: Builder)
  {
    (origin: NsStation) => TripData(reg, origin, timestamp, api)
  }

  /**
   * The loop over `stations_from`: an origin whose file exists is skipped;
   * otherwise its dataset is built and written, and a fault ends the loop.
   */
  function CreateRun(build: Builder, origins: seq<Station>, files: map<Path, Dataset>): (r: Run)
    ensures |r.written| <= |origins|
    ensures files.Keys <= r.files.Keys
    decreases |origins|
  {
    if origins == [] then Run(files, [], Ok(()))
    else
      var p := origins[0].TravelTimeFilepath();
      if p in files then CreateRun(build, origins[1..], files)
      else
        match build(origins[0].ns)
        case Err(f) => Run(files, [], Err(f))
        case Ok(ds) =>
          var rest := CreateRun(build, origins[1..], files[p := ds]);
          Run(rest.files, [p] + rest.written, rest.result)
  }

  /** A run preceded by the writes `done`. */
  function AfterWrites(done: seq<Path>, run: Run): (r: Run)
  {
    Run(run.files, done + run.written, run.result)
  }

  /** Creation loop, existing file: the origin is skipped. */
  lemma CreateRunSkip(build: Builder, origins: seq<Station>, i: nat, files: map<Path, Dataset>)
    requires i < |origins| && origins[i].TravelTimeFilepath() in files
    ensures CreateRun(build, origins[i..], files) == CreateRun(build, origins[i + 1..], files)
  {
    assert origins[i..][0] == origins[i];
    assert origins[i..][1..] == origins[i + 1..];
  }

  /** Creation loop, absent file and a dataset: the file is written and the loop goes on. */
  lemma CreateRunWrite(build: Builder, origins: seq<Station>, i: nat, files: map<Path, Dataset>, done: seq<Path>, ds: Dataset)
    requires i < |origins| && origins[i].TravelTimeFilepath() !in files && build(origins[i].ns) == Ok(ds)
    ensures var p := origins[i].TravelTimeFilepath();
            AfterWrites(done, CreateRun(build, origins[i..], files))
            == AfterWrites(done + [p], CreateRun(build, origins[i + 1..], files[p := ds]))
  {
    assert origins[i..][0] == origins[i];
    assert origins[i..][1..] == origins[i + 1..];
    var rest := CreateRun(build, origins[i + 1..], files[origins[i].TravelTimeFilepath() := ds]);
    assert done + ([origins[i].TravelTimeFilepath()] + rest.written) == done + [origins[i].TravelTimeFilepath()] + rest.written;
  }

  /** Creation loop, absent file and a fault: the loop ends with it, having written nothing more. */
  lemma CreateRunFail(build: Builder, origins: seq<Station>, i: nat, files: map<Path, Dataset>)
    requires i < |origins| && origins[i].TravelTimeFilepath() !in files && build(origins[i].ns).Err?
    ensures CreateRun(build, origins[i..], files) == Run(files, [], Err(build(origins[i].ns).fault))
  {
    assert origins[i..][0] == origins[i];
  }

  /** An existing file keeps its dataset, and a path exists afterwards iff it existed or was written. */
  ghost predicate KeepsExisting(files: map<Path, Dataset>, run: Run)
  {
    && (forall p :: p in files ==> p in run.files && run.files[p] == files[p])
    && (forall p :: p in run.files <==> p in files || p in run.written)
  }

  /** Every path written did not exist before, and none is written twice. */
  ghost predicate WritesFresh(files: map<Path, Dataset>, run: Run)
  {
    && (forall k :: 0 <= k < |run.written| ==> run.written[k] !in files)
    && (forall k, l :: 0 <= k < l < |run.written| ==> run.written[k] != run.written[l])
  }

  /** Every path written is the file of one of the origins and holds that origin's dataset. */
  ghost predicate WritesOriginData(build: Builder, origins: seq<Station>, run: Run)
  {
    forall k :: 0 <= k < |run.written| ==> WriteFromOrigin(build, origins, run, k)
  }

  /** The `k`-th write of the run exists afterwards and is the file of one of the origins. */
  ghost predicate WriteFromOrigin(build: Builder, origins: seq<Station>, run: Run, k: nat)
    requires k < |run.written|
  {
    && run.written[k] in run.files
    && exists j :: 0 <= j < |origins| && WrittenBy(build, origins[j], run, k)
  }

  /** The `k`-th write of the run is `origin`'s file, holding `origin`'s dataset. */
  ghost predicate WrittenBy(build: Builder, origin: Station, run: Run, k: nat)
    requires k < |run.written| && run.written[k] in run.files
  {
    origin.TravelTimeFilepath() == run.written[k]
    && build(origin.ns) == Ok(run.files[run.written[k]])
  }

  /** Every origin has a file afterwards, written by the run when it had none before. */
  ghost predicate CoversOrigins(origins: seq<Station>, files: map<Path, Dataset>, run: Run)
  {
    forall o :: o in origins ==>
      && o.TravelTimeFilepath() in run.files
      && (o.TravelTimeFilepath() !in files ==> o.TravelTimeFilepath() in run.written)
  }

  lemma {:induction false} CreateKeepsExisting(build: Builder, origins: seq<Station>, files: map<Path, Dataset>)
    ensures KeepsExisting(files, CreateRun(build, origins, files))
    decreases |origins|
  {
    if origins != [] {
      var p := origins[0].TravelTimeFilepath();
      if p in files {
        CreateKeepsExisting(build, origins[1..], files);
      } else if build(origins[0].ns).Ok? {
        var ds := build(origins[0].ns).value;
        CreateKeepsExisting(build, origins[1..], files[p := ds]);
      }
    }
  }

  /** Creation never overwrites: every path written did not exist before, and none is written twice. */
  lemma {:induction false} CreateNeverOverwrites(build: Builder, origins: seq<Station>, files: map<Path, Dataset>)
    ensures WritesFresh(files, CreateRun(build, origins, files))
    decreases |origins|
  {
    if origins != [] {
      var p := origins[0].TravelTimeFilepath();
      if p in files {
        CreateNeverOverwrites(build, origins[1..], files);
      } else if build(origins[0].ns).Ok? {
        var ds := build(origins[0].ns).value;
        var rest := CreateRun(build, origins[1..], files[p := ds]);
        var run := CreateRun(build, origins, files);
        CreateNeverOverwrites(build, origins[1..], files[p := ds]);
        assert run.written == [p] + rest.written;
        forall k | 0 < k < |run.written| ensures run.written[k] != p && run.written[k] !in files {
          assert run.written[k] == rest.written[k - 1];
        }
      }
    }
  }

  /** Every path written is the file of one of the origins and ends up holding that origin's dataset. */
  lemma {:induction false} CreateWritesOriginData(build: Builder, origins: seq<Station>, files: map<Path, Dataset>)
    ensures WritesOriginData(build, origins, CreateRun(build, origins, files))
    decreases |origins|
  {
    if origins != [] {
      var p := origins[0].TravelTimeFilepath();
      var tail := origins[1..];
      var run := CreateRun(build, origins, files);
      if p in files {
        CreateWritesOriginData(build, tail, files);
        assert run == CreateRun(build, tail, files);
        forall k | 0 <= k < |run.written| ensures WriteFromOrigin(build, origins, run, k) {
          assert WriteFromOrigin(build, tail, run, k);
          var j :| 0 <= j < |tail| && WrittenBy(build, tail[j], run, k);
          assert origins[j + 1] == tail[j];
        }
      } else if build(origins[0].ns).Ok? {
        var ds := build(origins[0].ns).value;
        var rest := CreateRun(build, tail, files[p := ds]);
        CreateWritesOriginData(build, tail, files[p := ds]);
        CreateKeepsExisting(build, tail, files[p := ds]);
        assert run.files == rest.files && run.written == [p] + rest.written;
        forall k | 0 <= k < |run.written| ensures WriteFromOrigin(build, origins, run, k) {
          if k == 0 {
            assert run.files[p] == ds;
            assert WrittenBy(build, origins[0], run, 0);
          } else {
            assert run.written[k] == rest.written[k - 1];
            assert WriteFromOrigin(build, tail, rest, k - 1);
            var j :| 0 <= j < |tail| && WrittenBy(build, tail[j], rest, k - 1);
            assert origins[j + 1] == tail[j];
            assert WrittenBy(build, origins[j + 1], run, k);
          }
        }
      }
    }
  }

  /** A run that ends normally leaves a file for every origin, written by this run when it was absent. */
  lemma {:induction false} CreateCoversOrigins(build: Builder, origins: seq<Station>, files: map<Path, Dataset>)
    requires CreateRun(build, origins, files).result.Ok?
    ensures CoversOrigins(origins, files, CreateRun(build, origins, files))
    decreases |origins|
  {
    if origins != [] {
      var p := origins[0].TravelTimeFilepath();
      var tail := origins[1..];
      assert forall o :: o in origins ==> o == origins[0] || o in tail;
      if p in files {
        CreateCoversOrigins(build, tail, files);
        CreateKeepsExisting(build, tail, files);
      } else {
        var ds := build(origins[0].ns).value;
        CreateCoversOrigins(build, tail, files[p := ds]);
        CreateKeepsExisting(build, tail, files[p := ds]);
        var rest := CreateRun(build, tail, files[p := ds]);
        assert forall q :: q in rest.written ==> q in [p] + rest.written;
      }
    }
  }

  // ---------------------------------------------------------------------------
  // recreate_missing_destinations

  /** The missing stations whose code is not on the ignore list. */
  function Unignored(missing: seq<Station>): (r: seq<Station>)
  {
    if missing == [] then []
    else
      Unignored(missing[..|missing| - 1])
      + (if missing[|missing| - 1].Code() !in IgnoreStationIds then [missing[|missing| - 1]] else [])
  }

  lemma {:induction false} UnignoredSpec(missing: seq<Station>)
    ensures |Unignored(missing)| > 0 <==> exists k :: 0 <= k < |missing| && missing[k].Code() !in IgnoreStationIds
  {
    if missing != [] {
      var init := missing[..|missing| - 1];
      UnignoredSpec(init);
      if exists k :: 0 <= k < |init| && init[k].Code() !in IgnoreStationIds {
        var k :| 0 <= k < |init| && init[k].Code() !in IgnoreStationIds;
        assert missing[k] == init[k];
      }
    }
  }

  /** The registry's travel times together with the file system. */
  datatype Sweep = Sweep(times: seq<Option<int>>, disk: Disk)

  /** The travel times after loading origin `i`'s file, starting from cleared times when `clear`. */
  function LoadedFor(stations: seq<Station>, i: nat, clear: bool, sw: Sweep): (r: seq<Option<int>>)
    requires i < |stations| && |sw.times| == |stations|
    requires stations[i].TravelTimeFilepath() in sw.disk.files
    ensures |r| == |stations|
  {
    Load(Names(NsOf(stations)), if clear then AllNone(|stations|) else sw.times,
         sw.disk.files[stations[i].TravelTimeFilepath()])
  }

  /**
   * One origin of the reconciliation loop: skipped without a file; otherwise its
   * file is loaded onto the registry, and the origin's dataset is rebuilt and
   * written over the file when some missing station is not ignored and this is
   * not a dry run. With `clear` the travel times are cleared before loading.
   */
  function RecreateStep(stations: seq<Station>, i: nat, build: Builder,
                        dryRun: bool, clear: bool, sw: Sweep): (r: (Sweep, Result<()>))
    requires i < |stations| && |sw.times| == |stations|
    ensures |r.0.times| == |stations|
    ensures r.0.disk.files.Keys == sw.disk.files.Keys
    ensures r.0.disk.writes == sw.disk.writes || r.0.disk.writes == sw.disk.writes + [stations[i].TravelTimeFilepath()]
  {
    if stations[i].TravelTimeFilepath() !in sw.disk.files then (sw, Ok(()))
    else
      var times := LoadedFor(stations, i, clear, sw);
      var rw := RewriteStep(stations, i, build, dryRun, times, sw.disk);
      (Sweep(times, rw.0), rw.1)
  }

  /** An origin with a file: its step is the load followed by the rewrite decision. */
  lemma RecreateStepLoaded(stations: seq<Station>, i: nat, build: Builder,
                           dryRun: bool, clear: bool, sw: Sweep)
    requires i < |stations| && |sw.times| == |stations|
    requires stations[i].TravelTimeFilepath() in sw.disk.files
    ensures var times := LoadedFor(stations, i, clear, sw);
            var rw := RewriteStep(stations, i, build, dryRun, times, sw.disk);
            RecreateStep(stations, i, build, dryRun, clear, sw) == (Sweep(times, rw.0), rw.1)
  {
  }

  /**
   * The end of one origin's iteration, once its file is loaded onto `times`: the
   * origin's dataset is rebuilt and written over its file when a missing station
   * is not ignored and this is not a dry run.
   */
  function RewriteStep(stations: seq<Station>, i: nat, build: Builder, dryRun: bool,
                       times: seq<Option<int>>, disk: Disk): (r: (Disk, Result<()>))
    requires i < |stations| && |times| == |stations|
    ensures r.0 == disk
            || (&& build(stations[i].ns).Ok?
                && r.0.files == disk.files[stations[i].TravelTimeFilepath() := build(stations[i].ns).value]
                && r.0.writes == disk.writes + [stations[i].TravelTimeFilepath()])
  {
    var p := stations[i].TravelTimeFilepath();
    if |Unignored(MissingOf(stations, times))| > 0 && !dryRun then
      match build(stations[i].ns)
      case Err(f) => (disk, Err(f))
      case Ok(ds) => (Disk(disk.files[p := ds], disk.writes + [p]), Ok(()))
    else (disk, Ok(()))
  }

  /** The reconciliation loop from registry position `i` on. */
  function RecreateRun(stations: seq<Station>, i: nat, build: Builder,
                       dryRun: bool, clear: bool, sw: Sweep): (r: (Sweep, Result<()>))
    requires i <= |stations| && |sw.times| == |stations|
    ensures |r.0.times| == |stations|
    ensures r.0.disk.files.Keys == sw.disk.files.Keys
    ensures |sw.disk.writes| <= |r.0.disk.writes| && r.0.disk.writes[..|sw.disk.writes|] == sw.disk.writes
    decreases |stations| - i
  {
    if i == |stations| then (sw, Ok(()))
    else
      var (next, r) := RecreateStep(stations, i, build, dryRun, clear, sw);
      if r.Err? then (next, r)
      else
        var rest := RecreateRun(stations, i + 1, build, dryRun, clear, next);
        assert rest.0.disk.writes[..|sw.disk.writes|] == rest.0.disk.writes[..|next.disk.writes|][..|sw.disk.writes|];
        rest
  }

  /** The reconciliation loop at `i` is one step followed by the rest of the loop, unless the step fails. */
  lemma RecreateRunUnfold(stations: seq<Station>, i: nat, build: Builder,
                          dryRun: bool, clear: bool, sw: Sweep)
    requires i < |stations| && |sw.times| == |stations|
    ensures var (next, r) := RecreateStep(stations, i, build, dryRun, clear, sw);
            RecreateRun(stations, i, build, dryRun, clear, sw)
            == if r.Err? then (next, r) else RecreateRun(stations, i + 1, build, dryRun, clear, next)
  {
  }

  /** Some registry station other than an ignored one is still without a travel time. */
  predicate HasActionableGap(stations: seq<Station>, times: seq<Option<int>>)
    requires |times| == |stations|
  {
    exists j :: 0 <= j < |stations| && times[j].None? && stations[j].Code() !in IgnoreStationIds
  }

  /**
   * One origin: nothing happens without a file; with one, the file is rewritten
   * exactly when, after loading it, a non-ignored registry station has no travel
   * time, this is not a dry run and the dataset could be built. A rewrite stores
   * the origin's freshly built dataset; only that one path is ever written, every
   * other file keeps its dataset, and no file appears or disappears.
   */
  lemma RecreateStepSpec(stations: seq<Station>, i: nat, build: Builder,
                         dryRun: bool, clear: bool, sw: Sweep)
    requires i < |stations| && |sw.times| == |stations|
    ensures var (next, r) := RecreateStep(stations, i, build, dryRun, clear, sw);
            var p := stations[i].TravelTimeFilepath();
            && (p !in sw.disk.files ==> next == sw && r.Ok?)
            && next.disk.files.Keys == sw.disk.files.Keys
            && (next.disk.writes == sw.disk.writes || next.disk.writes == sw.disk.writes + [p])
            && (next.disk.writes == sw.disk.writes ==> next.disk.files == sw.disk.files)
            && (next.disk.writes != sw.disk.writes ==>
                  build(stations[i].ns).Ok? && next.disk.files == sw.disk.files[p := build(stations[i].ns).value])
            && (p in sw.disk.files ==>
                  && next.times == LoadedFor(stations, i, clear, sw)
                  && (next.disk.writes != sw.disk.writes <==>
                        HasActionableGap(stations, next.times) && !dryRun
                        && build(stations[i].ns).Ok?)
                  && (r.Err? <==>
                        HasActionableGap(stations, next.times) && !dryRun
                        && build(stations[i].ns).Err?))
  {
    var p := stations[i].TravelTimeFilepath();
    if p in sw.disk.files {
      var times := LoadedFor(stations, i, clear, sw);
      var missing := MissingOf(stations, times);
      UnignoredSpec(missing);
      MissingSpec(stations, times);
      if HasActionableGap(stations, times) {
        var j :| 0 <= j < |stations| && times[j].None? && stations[j].Code() !in IgnoreStationIds;
        FilterIdxAt(stations, NoneFlags(times), j);
      }
      if |Unignored(missing)| > 0 {
        var k :| 0 <= k < |missing| && missing[k].Code() !in IgnoreStationIds;
        assert missing[k] in missing;
      }
    }
  }

  /** No file appears or disappears, and every write goes to the existing file of a registry station from `i` on. */
  ghost predicate WritesExistingOrigins(stations: seq<Station>, i: nat, before: Disk, after: Disk)
  {
    && after.files.Keys == before.files.Keys
    && |before.writes| <= |after.writes| && after.writes[..|before.writes|] == before.writes
    && forall k :: |before.writes| <= k < |after.writes| ==>
         after.writes[k] in before.files
         && exists j :: i <= j < |stations| && stations[j].TravelTimeFilepath() == after.writes[k]
  }

  /** Every travel time present before is present after. */
  ghost predicate KeepsTimes(before: seq<Option<int>>, after: seq<Option<int>>)
  {
    |after| == |before| && forall j :: 0 <= j < |before| && before[j].Some? ==> after[j].Some?
  }

  /**
   * The whole reconciliation: no file appears or disappears, and every write goes
   * to the file of a registry station that already had one.
   */
  lemma {:induction false} RecreateWritesExisting(stations: seq<Station>, i: nat, build: Builder,
                                                  dryRun: bool, clear: bool, sw: Sweep)
    requires i <= |stations| && |sw.times| == |stations|
    ensures WritesExistingOrigins(stations, i, sw.disk, RecreateRun(stations, i, build, dryRun, clear, sw).0.disk)
    decreases |stations| - i
  {
    if i < |stations| {
      var (step, r) := RecreateStep(stations, i, build, dryRun, clear, sw);
      RecreateStepSpec(stations, i, build, dryRun, clear, sw);
      var p := stations[i].TravelTimeFilepath();
      var next := RecreateRun(stations, i, build, dryRun, clear, sw).0;
      if r.Ok? {
        RecreateWritesExisting(stations, i + 1, build, dryRun, clear, step);
        assert next == RecreateRun(stations, i + 1, build, dryRun, clear, step).0;
        forall k | |sw.disk.writes| <= k < |next.disk.writes|
          ensures next.disk.writes[k] in sw.disk.files
          ensures exists j :: i <= j < |stations| && stations[j].TravelTimeFilepath() == next.disk.writes[k]
        {
          if k < |step.disk.writes| {
            assert next.disk.writes[k] == step.disk.writes[k] == p;
          } else {
            var j :| i + 1 <= j < |stations| && stations[j].TravelTimeFilepath() == next.disk.writes[k];
          }
        }
      } else {
        assert next == step;
      }
      assert WritesExistingOrigins(stations, i, sw.disk, next.disk);
    }
  }

  /**
   * What the files hold after the reconciliation from `i` on: the earlier writes
   * stay recorded, a file the run did not write keeps its dataset, and a file it wrote holds the freshly built
   * dataset of a registry station from `i` on whose file it is.
   */
  ghost predicate ContentsAfter(stations: seq<Station>, i: nat, build: Builder, before: Disk, after: Disk)
  {
    && |before.writes| <= |after.writes| && after.writes[..|before.writes|] == before.writes
    && (forall q :: q in before.files && q !in after.writes[|before.writes|..] ==>
          q in after.files && after.files[q] == before.files[q])
    && (forall q :: q in after.writes[|before.writes|..] ==>
          q in after.files
          && exists j :: i <= j < |stations| && stations[j].TravelTimeFilepath() == q
                         && build(stations[j].ns) == Ok(after.files[q]))
  }

  /** Nothing written, nothing changed. */
  lemma ContentsUnchanged(stations: seq<Station>, i: nat, build: Builder, disk: Disk)
    ensures ContentsAfter(stations, i, build, disk, disk)
  {
    assert disk.writes[|disk.writes|..] == [];
  }

  /** One origin either leaves the disk as it was (always so when it fails) or rewrites its file with its fresh dataset. */
  lemma RecreateStepDisk(stations: seq<Station>, i: nat, build: Builder, dryRun: bool, clear: bool, sw: Sweep)
    requires i < |stations| && |sw.times| == |stations|
    ensures var (next, r) := RecreateStep(stations, i, build, dryRun, clear, sw);
            && (r.Err? ==> next.disk == sw.disk)
            && (next.disk == sw.disk
                || (&& build(stations[i].ns).Ok?
                    && next.disk.files == sw.disk.files[stations[i].TravelTimeFilepath() := build(stations[i].ns).value]
                    && next.disk.writes == sw.disk.writes + [stations[i].TravelTimeFilepath()]))
  {
    if stations[i].TravelTimeFilepath() in sw.disk.files {
      RecreateStepLoaded(stations, i, build, dryRun, clear, sw);
    }
  }

  /** One step that leaves the disk or rewrites origin `i`'s file, followed by the rest of the loop. */
  lemma ContentsCompose(stations: seq<Station>, i: nat, build: Builder, before: Disk, mid: Disk, after: Disk)
    requires i < |stations|
    requires mid == before
             || (&& build(stations[i].ns).Ok?
                 && mid.files == before.files[stations[i].TravelTimeFilepath() := build(stations[i].ns).value]
                 && mid.writes == before.writes + [stations[i].TravelTimeFilepath()])
    requires ContentsAfter(stations, i + 1, build, mid, after)
    ensures ContentsAfter(stations, i, build, before, after)
  {
    var p := stations[i].TravelTimeFilepath();
    var n0, n1 := |before.writes|, |mid.writes|;
    assert after.writes[n0..] == mid.writes[n0..] + after.writes[n1..];
    if mid != before {
      assert mid.writes[n0..] == [p];
    } else {
      assert mid.writes[n0..] == [];
    }
    forall q | q in after.writes[n0..]
      ensures q in after.files
      ensures exists j :: i <= j < |stations| && stations[j].TravelTimeFilepath() == q
                          && build(stations[j].ns) == Ok(after.files[q])
    {
      if q !in after.writes[n1..] {
        assert q == p && mid != before;
      }
    }
  }

  /** What the rest of the loop after origin `i` keeps, the loop from `i` on keeps. */
  lemma ContentsStep(stations: seq<Station>, i: nat, build: Builder, dryRun: bool, clear: bool, sw: Sweep)
    requires i < |stations| && |sw.times| == |stations|
    requires var next := RecreateStep(stations, i, build, dryRun, clear, sw).0;
             ContentsAfter(stations, i + 1, build, next.disk, RecreateRun(stations, i + 1, build, dryRun, clear, next).0.disk)
    ensures ContentsAfter(stations, i, build, sw.disk, RecreateRun(stations, i, build, dryRun, clear, sw).0.disk)
  {
    var step := RecreateStep(stations, i, build, dryRun, clear, sw);
    RecreateStepDisk(stations, i, build, dryRun, clear, sw);
    RecreateRunUnfold(stations, i, build, dryRun, clear, sw);
    if step.1.Err? {
      ContentsUnchanged(stations, i, build, sw.disk);
    } else {
      var after := RecreateRun(stations, i + 1, build, dryRun, clear, step.0).0.disk;
      ContentsCompose(stations, i, build, sw.disk, step.0.disk, after);
    }
  }

  /** The reconciliation rewrites files only with freshly built datasets and leaves every other file as it was. */
  lemma {:induction false} RecreateRunContents(stations: seq<Station>, i: nat, build: Builder,
                                               dryRun: bool, clear: bool, sw: Sweep)
    requires i <= |stations| && |sw.times| == |stations|
    ensures ContentsAfter(stations, i, build, sw.disk, RecreateRun(stations, i, build, dryRun, clear, sw).0.disk)
    decreases |stations| - i
  {
    if i == |stations| {
      ContentsUnchanged(stations, i, build, sw.disk);
    } else {
      var next := RecreateStep(stations, i, build, dryRun, clear, sw).0;
      RecreateRunContents(stations, i + 1, build, dryRun, clear, next);
      ContentsStep(stations, i, build, dryRun, clear, sw);
    }
  }

  /** A dry run writes nothing and ends normally. */
  lemma {:induction false} RecreateDryRun(stations: seq<Station>, i: nat, build: Builder, clear: bool, sw: Sweep)
    requires i <= |stations| && |sw.times| == |stations|
    ensures RecreateRun(stations, i, build, true, clear, sw).0.disk == sw.disk
    ensures RecreateRun(stations, i, build, true, clear, sw).1.Ok?
    decreases |stations| - i
  {
    if i < |stations| {
      RecreateStepSpec(stations, i, build, true, clear, sw);
      RecreateDryRun(stations, i + 1, build, clear, RecreateStep(stations, i, build, true, clear, sw).0);
    }
  }

  /** Without clearing, a travel time once loaded is never lost during the reconciliation. */
  lemma {:induction false} RecreateKeepsTimes(stations: seq<Station>, i: nat, build: Builder, dryRun: bool, sw: Sweep)
    requires i <= |stations| && |sw.times| == |stations|
    ensures KeepsTimes(sw.times, RecreateRun(stations, i, build, dryRun, false, sw).0.times)
    decreases |stations| - i
  {
    if i < |stations| {
      var (step, r) := RecreateStep(stations, i, build, dryRun, false, sw);
      RecreateStepSpec(stations, i, build, dryRun, false, sw);
      var p := stations[i].TravelTimeFilepath();
      if p in sw.disk.files {
        LoadKeepsValues(Names(NsOf(stations)), sw.times, sw.disk.files[p]);
      }
      assert KeepsTimes(sw.times, step.times);
      if r.Ok? {
        RecreateKeepsTimes(stations, i + 1, build, dryRun, step);
        assert RecreateRun(stations, i, build, dryRun, false, sw) == RecreateRun(stations, i + 1, build, dryRun, false, step);
      } else {
        assert RecreateRun(stations, i, build, dryRun, false, sw).0 == step;
      }
    }
  }

  /**
   * With cleared travel times and unique station names, an origin with a file is
   * rewritten iff its file lacks the name of some non-ignored registry station
   * (and this is not a dry run and its dataset could be built).
   */
  lemma ClearedStepRewritesOnGap(stations: seq<Station>, i: nat, build: Builder,
                                 dryRun: bool, sw: Sweep)
    requires i < |stations| && |sw.times| == |stations|
    requires UniqueNames(Names(NsOf(stations)))
    requires stations[i].TravelTimeFilepath() in sw.disk.files
    ensures var file := sw.disk.files[stations[i].TravelTimeFilepath()];
            var next := RecreateStep(stations, i, build, dryRun, true, sw).0;
            (next.disk.writes != sw.disk.writes <==>
              && (exists j :: 0 <= j < |stations| && stations[j].Code() !in IgnoreStationIds
                              && forall e :: e in file ==> e.name != stations[j].Name())
              && !dryRun
              && build(stations[i].ns).Ok?)
  {
    var file := sw.disk.files[stations[i].TravelTimeFilepath()];
    var names := Names(NsOf(stations));
    RecreateStepSpec(stations, i, build, dryRun, true, sw);
    ClearedLoadMissesAbsentNames(names, file);
    var times := LoadedFor(stations, i, true, sw);
    forall j | 0 <= j < |stations|
      ensures times[j].None? <==> forall e :: e in file ==> e.name != stations[j].Name()
    {
      assert names[j] == stations[j].Name();
      if !times[j].None? {
        var e :| 0 <= e < |file| && file[e].name == names[j];
        assert file[e] in file;
      }
    }
  }

  /** With every travel time present, nothing is missing. */
  lemma NothingMissingWhenAllTimed(stations: seq<Station>, times: seq<Option<int>>)
    requires |times| == |stations|
    requires forall j :: 0 <= j < |stations| ==> times[j].Some?
    ensures MissingOf(stations, times) == []
  {
    MissingSpec(stations, times);
    NoFlagsNoCount(NoneFlags(times));
  }

  lemma {:induction false} NoFlagsNoCount(keep: seq<bool>)
    requires forall i :: 0 <= i < |keep| ==> !keep[i]
    ensures CountTrue(keep) == 0
  {
    if keep != [] {
      NoFlagsNoCount(keep[..|keep| - 1]);
    }
  }

  /**
   * As written, travel times are not cleared between origins: once every
   * registry station holds one (after a complete file, say), no origin's file is
   * rewritten any more, even one that lacks stations.
   */
  lemma {:induction false} StaleSweepWritesNothing(stations: seq<Station>, i: nat, build: Builder,
                                                   dryRun: bool, sw: Sweep)
    requires i <= |stations| && |sw.times| == |stations|
    requires forall j :: 0 <= j < |stations| ==> sw.times[j].Some?
    ensures RecreateRun(stations, i, build, dryRun, false, sw).0.disk == sw.disk
    ensures RecreateRun(stations, i, build, dryRun, false, sw).1.Ok?
    decreases |stations| - i
  {
    if i < |stations| {
      var p := stations[i].TravelTimeFilepath();
      var step := RecreateStep(stations, i, build, dryRun, false, sw).0;
      if p in sw.disk.files {
        var times := LoadedFor(stations, i, false, sw);
        LoadKeepsValues(Names(NsOf(stations)), sw.times, sw.disk.files[p]);
        NothingMissingWhenAllTimed(stations, times);
        assert step == Sweep(times, sw.disk);
      }
      StaleSweepWritesNothing(stations, i + 1, build, dryRun, step);
    }
  }

  // ---------------------------------------------------------------------------
  // The registry

  class Stations {
    const dataDir: string
    var stations: seq<Station>

    /** Every station is its own object, and all share the registry's data directory. */
    ghost predicate Valid()
      reads this
    {
      && (forall i, j :: 0 <= i < j < |stations| ==> stations[i] != stations[j])
      && (forall i :: 0 <= i < |stations| ==> stations[i].dataDir == dataDir)
    }

    /** Stations.__init__, with the provider's station list as a parameter. */
    constructor (dataDir: string, provider: seq<NsStation>, test: bool)
      ensures Valid() && this.dataDir == dataDir
      ensures NsOf(stations) == Kept(provider, test)
      ensures TimesOf(stations) == AllNone(|stations|)
      ensures forall i :: 0 <= i < |stations| ==> fresh(stations[i])
    {
      var list: seq<Station> := [];
      ghost var flags := KeepFlags(provider, test);
      var i := 0;
      while i < |provider|
        invariant 0 <= i <= |provider|
        invariant NsOf(list) == FilterIdx(provider[..i], flags[..i])
        invariant forall k :: 0 <= k < |list| ==> fresh(list[k]) && list[k].travelTimeMin == None && list[k].dataDir == dataDir
        invariant forall k, l :: 0 <= k < l < |list| ==> list[k] != list[l]
      {
        var nsStation := provider[i];
        var skip := (test && i > LastTestIndex && nsStation.code != Anchor) || nsStation.country != Country;
        assert provider[..i + 1][..i] == provider[..i] && flags[..i + 1][..i] == flags[..i];
        if !skip {
          var station := new Station(nsStation, dataDir);
          list := list + [station];
        }
        i := i + 1;
      }
      assert provider[..i] == provider && flags[..i] == flags;
      this.dataDir := dataDir;
      stations := list;
    }

    /** find_station: the first station called `name`, or None. */
    function FindStation(name: string): (r: Option<Station>)
      reads this
      ensures r.Some? <==> exists i :: 0 <= i < |stations| && stations[i].Name() == name
      ensures r.Some? ==> exists k :: 0 <= k < |stations| && r.value == stations[k] && stations[k].Name() == name
                                      && forall j :: 0 <= j < k ==> stations[j].Name() != name
    {
      match FindIndex(Names(NsOf(stations)), name)
      case None => None
      case Some(k) => Some(stations[k])
    }

    /** get_station_code: None exactly when find_station is, otherwise that station's code. */
    function GetStationCode(name: string): (r: Option<string>)
      reads this
      ensures r.None? <==> FindStation(name).None?
      ensures r.Some? ==> r.value == FindStation(name).value.Code()
    {
      CodeOf(NsOf(stations), name)
    }

    /** get_stations_for_types: for each station, one copy per requested type naming its type. */
    method GetStationsForTypes(types: seq<StationType>) returns (selected: seq<Station>)
      ensures selected == ForTypes(stations, TypeNames(types))
    {
      var names := TypeNames(types);
      selected := [];
      var i := 0;
      while i < |stations|
        invariant 0 <= i <= |stations|
        invariant selected == ForTypes(stations[..i], names)
      {
        var copies := CopiesForTypes(stations[i], names);
        assert stations[..i + 1][..i] == stations[..i];
        selected := selected + copies;
        i := i + 1;
      }
      assert stations[..i] == stations;
    }

    /** travel_times_from_json, given the file's `stations` list. */
    method TravelTimesFromJson(entries: Dataset)
      requires Valid()
      modifies stations
      ensures TimesOf(stations) == Load(Names(NsOf(stations)), old(TimesOf(stations)), entries)
    {
      ghost var names := Names(NsOf(stations));
      ghost var start := TimesOf(stations);
      var j := 0;
      while j < |entries|
        invariant 0 <= j <= |entries|
        invariant TimesOf(stations) == Load(names, start, entries[..j])
      {
        var entry := entries[j];
        var station := FindStation(entry.name);
        ghost var before := TimesOf(stations);
        LoadPrefixStep(names, start, entries, j);
        if station.Some? {
          ghost var k := FindIndex(names, entry.name).value;
          assert station.value == stations[k];
          station.value.travelTimeMin := Some(entry.travelTimeMin);
          forall i | 0 <= i < |stations|
            ensures TimesOf(stations)[i] == before[k := Some(entry.travelTimeMin)][i]
          {
            if i != k {
              assert stations[i] != stations[k];
            }
          }
        }
        j := j + 1;
      }
      assert entries[..j] == entries;
    }

    /** get_missing_destinations: load the file, then the stations still without a travel time. */
    method GetMissingDestinations(entries: Dataset) returns (missing: seq<Station>)
      requires Valid()
      modifies stations
      ensures TimesOf(stations) == Load(Names(NsOf(stations)), old(TimesOf(stations)), entries)
      ensures missing == MissingOf(stations, TimesOf(stations))
    {
      TravelTimesFromJson(entries);
      missing := CollectMissing();
    }

    /** The loop of get_missing_destinations: the stations whose travel time is None, in registry order. */
    method CollectMissing() returns (missing: seq<Station>)
      ensures missing == MissingOf(stations, TimesOf(stations))
    {
      ghost var flags := NoneFlags(TimesOf(stations));
      missing := [];
      var i := 0;
      while i < |stations|
        invariant 0 <= i <= |stations|
        invariant missing == FilterIdx(stations[..i], flags[..i])
      {
        FilterIdxPrefixStep(stations, flags, i);
        if stations[i].travelTimeMin.None? {
          missing := missing + [stations[i]];
        }
        i := i + 1;
      }
      assert stations[..i] == stations && flags[..i] == flags;
    }

    /** Sets every station's travel time back to None. */
    method ClearTravelTimes()
      requires Valid()
      modifies stations
      ensures TimesOf(stations) == AllNone(|stations|)
    {
      var i := 0;
      while i < |stations|
        invariant 0 <= i <= |stations|
        invariant forall k :: 0 <= k < i ==> stations[k].travelTimeMin.None?
      {
        stations[i].travelTimeMin := None;
        i := i + 1;
      }
    }

    /** get_missing_destinations on cleared travel times: the file alone decides what is missing. */
    method GetMissingDestinationsCleared(entries: Dataset) returns (missing: seq<Station>)
      requires Valid()
      modifies stations
      ensures TimesOf(stations) == Load(Names(NsOf(stations)), AllNone(|stations|), entries)
      ensures missing == MissingOf(stations, TimesOf(stations))
    {
      ClearTravelTimes();
      missing := GetMissingDestinations(entries);
    }

    /** create_trip_data_from_station, without the JSON serialisation. */
    method CreateTripDataFromStation(origin: Station, timestamp: string, api: TripProvider) returns (r: Result<Dataset>)
      ensures r == TripData(NsOf(stations), origin.ns, timestamp, api)
    {
      ghost var reg := NsOf(stations);
      var data := [Entry(origin.Name(), Some(origin.Code()), 0, "0:00")];
      var i := 0;
      while i < |stations|
        invariant 0 <= i <= |stations|
        invariant TripDataUpTo(reg, origin.ns, timestamp, api, i) == Ok(data)
      {
        var outcome := DestinationEntry(origin, stations[i], timestamp, api);
        match outcome {
          case Skipped =>
          case Fatal(f) =>
            TripDataStopsAtFault(reg, origin.ns, timestamp, api, i + 1, |reg|);
            return Err(f);
          case Resolved(entry) =>
            data := data + [entry];
        }
        i := i + 1;
      }
      r := Ok(data);
    }

    /** One iteration of the destination loop of create_trip_data_from_station. */
    method DestinationEntry(origin: Station, station: Station, timestamp: string, api: TripProvider) returns (outcome: Outcome)
      ensures outcome == DestinationOutcome(NsOf(stations), origin.ns, station.ns, timestamp, api)
    {
      if station.Code() == origin.Code() {
        return Skipped;
      }
      var via := "";
      var answer := api(Query(timestamp, origin.Code(), via, station.Code()));
      match answer {
        case TypeFault =>
          return Skipped;
        case HttpFault =>
          return Skipped;
        case OtherFault =>
          return Fatal(ProviderFailure(origin.Code(), station.Code()));
        case Trips(trips) =>
          if trips == [] {
            return Skipped;
          }
          var shortest := SelectShortest(trips);
          if shortest.Err? {
            return Fatal(shortest.fault);
          }
          var trip := trips[shortest.value.index];
          return Resolved(Entry(trip.destination, GetStationCode(trip.destination), shortest.value.minutes, trip.planned));
      }
    }

    /** create_traveltimes_data: build and write the dataset of every origin whose file does not exist. */
    method CreateTraveltimesData(fs: FileSystem, origins: seq<Station>, timestamp: string, api: TripProvider)
      returns (r: Result<()>)
      modifies fs
      ensures fs.files == CreateRun(DatasetBuilder(NsOf(stations), timestamp, api), origins, old(fs.files)).files
      ensures fs.writes == old(fs.writes) + CreateRun(DatasetBuilder(NsOf(stations), timestamp, api), origins, old(fs.files)).written
      ensures r == CreateRun(DatasetBuilder(NsOf(stations), timestamp, api), origins, old(fs.files)).result
    {
      ghost var build := DatasetBuilder(NsOf(stations), timestamp, api);
      ghost var goal := CreateRun(build, origins, fs.files);
      ghost var done: seq<Path> := [];
      var i := 0;
      while i < |origins|
        invariant 0 <= i <= |origins|
        invariant fs.writes == old(fs.writes) + done
        invariant AfterWrites(done, CreateRun(build, origins[i..], fs.files)) == goal
      {
        var origin := origins[i];
        var filenameOut := origin.TravelTimeFilepath();
        if fs.Exists(filenameOut) {
          CreateRunSkip(build, origins, i, fs.files);
          i := i + 1;
          continue;
        }
        ghost var files := fs.files;
        ghost var built := build(origin.ns);
        var written := WriteOrigin(fs, origin, timestamp, api);
        if written.Err? {
          CreateRunFail(build, origins, i, files);
          return written;
        }
        CreateRunWrite(build, origins, i, files, done, built.value);
        done := done + [filenameOut];
        i := i + 1;
      }
      assert origins[i..] == [];
      r := Ok(());
    }

    /** The body of create_traveltimes_data for an origin without a file: build its dataset and write it. */
    method WriteOrigin(fs: FileSystem, origin: Station, timestamp: string, api: TripProvider) returns (r: Result<()>)
      modifies fs
      ensures var built := DatasetBuilder(NsOf(stations), timestamp, api)(origin.ns);
              && (built.Err? ==> r == Err(built.fault) && fs.files == old(fs.files) && fs.writes == old(fs.writes))
              && (built.Ok? ==> r == Ok(()) && fs.files == old(fs.files)[origin.TravelTimeFilepath() := built.value]
                                && fs.writes == old(fs.writes) + [origin.TravelTimeFilepath()])
    {
      var data := CreateTripDataFromStation(origin, timestamp, api);
      assert DatasetBuilder(NsOf(stations), timestamp, api)(origin.ns) == data;
      if data.Err? {
        return Err(data.fault);
      }
      fs.Write(origin.TravelTimeFilepath(), data.value);
      r := Ok(());
    }

    /**
     * recreate_missing_destinations: for each registry station with a file, load
     * the file onto the registry (travel times accumulate across origins) and
     * rewrite the file when a non-ignored station is missing, unless a dry run.
     */
    method RecreateMissingDestinations(fs: FileSystem, timestamp: string, api: TripProvider, dryRun: bool)
      returns (r: Result<()>)
      requires Valid()
      modifies fs, stations
      ensures (Sweep(TimesOf(stations), Disk(fs.files, fs.writes)), r)
              == RecreateRun(stations, 0, DatasetBuilder(NsOf(stations), timestamp, api), dryRun, false,
                             Sweep(old(TimesOf(stations)), Disk(old(fs.files), old(fs.writes))))
    {
      r := Reconcile(fs, timestamp, api, dryRun, false);
    }

    /** The same loop with every origin's file checked against cleared travel times. */
    method RecreateMissingDestinationsCleared(fs: FileSystem, timestamp: string, api: TripProvider, dryRun: bool)
      returns (r: Result<()>)
      requires Valid()
      modifies fs, stations
      ensures (Sweep(TimesOf(stations), Disk(fs.files, fs.writes)), r)
              == RecreateRun(stations, 0, DatasetBuilder(NsOf(stations), timestamp, api), dryRun, true,
                             Sweep(old(TimesOf(stations)), Disk(old(fs.files), old(fs.writes))))
    {
      r := Reconcile(fs, timestamp, api, dryRun, true);
    }

    /** The reconciliation loop; `clear` selects the loader used for each origin. */
    method Reconcile(fs: FileSystem, timestamp: string, api: TripProvider, dryRun: bool, clear: bool)
      returns (r: Result<()>)
      requires Valid()
      modifies fs, stations
      ensures (Sweep(TimesOf(stations), Disk(fs.files, fs.writes)), r)
              == RecreateRun(stations, 0, DatasetBuilder(NsOf(stations), timestamp, api), dryRun, clear,
                             Sweep(old(TimesOf(stations)), Disk(old(fs.files), old(fs.writes))))
    {
      ghost var build := DatasetBuilder(NsOf(stations), timestamp, api);
      ghost var goal := RecreateRun(stations, 0, build, dryRun, clear, Sweep(TimesOf(stations), Disk(fs.files, fs.writes)));
      var i := 0;
      while i < |stations|
        invariant 0 <= i <= |stations|
        invariant RecreateRun(stations, i, build, dryRun, clear, Sweep(TimesOf(stations), Disk(fs.files, fs.writes))) == goal
      {
        ghost var sw := Sweep(TimesOf(stations), Disk(fs.files, fs.writes));
        RecreateRunUnfold(stations, i, build, dryRun, clear, sw);
        var step := ReconcileOrigin(fs, i, timestamp, api, dryRun, clear);
        assert (Sweep(TimesOf(stations), Disk(fs.files, fs.writes)), step) == RecreateStep(stations, i, build, dryRun, clear, sw);
        if step.Err? {
          return step;
        }
        i := i + 1;
      }
      r := Ok(());
    }

    /** One iteration of the reconciliation loop, for the registry station at `i`. */
    method ReconcileOrigin(fs: FileSystem, i: nat, timestamp: string, api: TripProvider, dryRun: bool, clear: bool)
      returns (r: Result<()>)
      requires Valid() && i < |stations|
      modifies fs, stations
      ensures (Sweep(TimesOf(stations), Disk(fs.files, fs.writes)), r)
              == RecreateStep(stations, i, DatasetBuilder(NsOf(stations), timestamp, api), dryRun, clear,
                              Sweep(old(TimesOf(stations)), Disk(old(fs.files), old(fs.writes))))
    {
      var station := stations[i];
      if !station.HasTravelTimeData(fs) {
        return Ok(());
      }
      r := ReconcileExisting(fs, i, timestamp, api, dryRun, clear);
    }

    /** One iteration of the reconciliation loop for a registry station whose file exists. */
    method ReconcileExisting(fs: FileSystem, i: nat, timestamp: string, api: TripProvider, dryRun: bool, clear: bool)
      returns (r: Result<()>)
      requires Valid() && i < |stations| && stations[i].TravelTimeFilepath() in fs.files
      modifies fs, stations
      ensures (Sweep(TimesOf(stations), Disk(fs.files, fs.writes)), r)
              == RecreateStep(stations, i, DatasetBuilder(NsOf(stations), timestamp, api), dryRun, clear,
                              Sweep(old(TimesOf(stations)), Disk(old(fs.files), old(fs.writes))))
    {
      ghost var build := DatasetBuilder(NsOf(stations), timestamp, api);
      ghost var sw := Sweep(TimesOf(stations), Disk(fs.files, fs.writes));
      RecreateStepLoaded(stations, i, build, dryRun, clear, sw);
      ghost var times := LoadedFor(stations, i, clear, sw);
      ghost var rw := RewriteStep(stations, i, build, dryRun, times, sw.disk);
      var stationsMissing := LoadOrigin(fs.files[stations[i].TravelTimeFilepath()], clear);
      assert TimesOf(stations) == times;
      r := RewriteOrigin(fs, i, stationsMissing, timestamp, api, dryRun, times);
      assert (Disk(fs.files, fs.writes), r) == rw;
    }

    /** The loader of one reconciliation iteration, chosen by `clear`. */
    method LoadOrigin(entries: Dataset, clear: bool) returns (missing: seq<Station>)
      requires Valid()
      modifies stations
      ensures TimesOf(stations) == Load(Names(NsOf(stations)), if clear then AllNone(|stations|) else old(TimesOf(stations)), entries)
      ensures missing == MissingOf(stations, TimesOf(stations))
    {
      if clear {
        missing := GetMissingDestinationsCleared(entries);
      } else {
        missing := GetMissingDestinations(entries);
      }
    }

    /** The end of one reconciliation iteration: the rewrite, given the origin's missing stations. */
    method RewriteOrigin(fs: FileSystem, i: nat, stationsMissing: seq<Station>, timestamp: string,
                         api: TripProvider, dryRun: bool, ghost times: seq<Option<int>>) returns (r: Result<()>)
      requires i < |stations| && times == TimesOf(stations) && stationsMissing == MissingOf(stations, times)
      modifies fs
      ensures TimesOf(stations) == times
      ensures (Disk(fs.files, fs.writes), r)
              == RewriteStep(stations, i, DatasetBuilder(NsOf(stations), timestamp, api), dryRun,
                             times, Disk(old(fs.files), old(fs.writes)))
    {
      var station := stations[i];
      var stationsMissingFiltered := FilterIgnored(stationsMissing);
      if |stationsMissingFiltered| > 0 && !dryRun {
        var data := CreateTripDataFromStation(station, timestamp, api);
        assert DatasetBuilder(NsOf(stations), timestamp, api)(station.ns) == data;
        if data.Err? {
          return Err(data.fault);
        }
        fs.Write(station.TravelTimeFilepath(), data.value);
      }
      r := Ok(());
    }
  }

  /** The inner loop of get_stations_for_types, for one station. */
  method CopiesForTypes(station: Station, names: seq<string>) returns (copies: seq<Station>)
    ensures copies == TypeCopies(station, names)
  {
    copies := [];
    var j := 0;
    while j < |names|
      invariant 0 <= j <= |names|
      invariant copies == TypeCopies(station, names[..j])
    {
      assert names[..j + 1][..j] == names[..j];
      if station.TypeName() == names[j] {
        copies := copies + [station];
      }
      j := j + 1;
    }
    assert names[..j] == names;
  }

  /**
   * The filtering loop of recreate_missing_destinations, as written: for every
   * missing station whose code is not ignored it appends the whole missing list,
   * so only the length of the result carries meaning.
   */
  method FilterIgnored(stationsMissing: seq<Station>) returns (filtered: seq<seq<Station>>)
    ensures |filtered| == |Unignored(stationsMissing)|
    ensures forall k :: 0 <= k < |filtered| ==> filtered[k] == stationsMissing
  {
    filtered := [];
    var k := 0;
    while k < |stationsMissing|
      invariant 0 <= k <= |stationsMissing|
      invariant |filtered| == |Unignored(stationsMissing[..k])|
      invariant forall j :: 0 <= j < |filtered| ==> filtered[j] == stationsMissing
    {
      assert stationsMissing[..k + 1][..k] == stationsMissing[..k];
      if stationsMissing[k].Code() !in IgnoreStationIds {
        filtered := filtered + [stationsMissing];
      }
      k := k + 1;
    }
    assert stationsMissing[..k] == stationsMissing;
  }
}
