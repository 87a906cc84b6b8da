/**
 * Building one origin's travel-time dataset: the `%H:%M` parse of a planned
 * duration, the choice of the shortest trip, what each destination contributes,
 * and the dataset as a whole.
 */
module Trips {
  import opened Records
  import opened Registry

  // ---------------------------------------------------------------------------
  // datetime.strptime(planned, "%H:%M")

  predicate IsDigit(c: char) { '0' <= c <= '9' }

  function DigitValue(c: char): (d: nat)
    requires IsDigit(c)
    ensures d < 10
  {
    c as int - '0' as int
  }

  function DigitChar(d: nat): (c: char)
    requires d < 10
    ensures IsDigit(c) && DigitValue(c) == d
  {
    ('0' as int + d) as char
  }

  /** The `%M` field: one digit, or two digits of which the first is 0..5; nothing may follow. */
  function ParseMinuteField(s: string): (r: Option<nat>)
  {
    if |s| == 1 && IsDigit(s[0]) then Some(DigitValue(s[0]))
    else if |s| == 2 && '0' <= s[0] <= '5' && IsDigit(s[1]) then Some(10 * DigitValue(s[0]) + DigitValue(s[1]))
    else None
  }

  /**
   * Minutes of a planned duration under `strptime("%H:%M")`: the hour is one
   * digit or two digits up to 23, then a colon, then the minute field, and the
   * whole string must be used up; the value is `hour * 60 + minute`. None is the
   * ValueError the source does not catch.
   */
  function ParseHM(s: string): (r: Option<nat>)
    ensures r.Some? ==> r.value < 24 * 60
  {
    if |s| >= 2 && IsDigit(s[0]) && s[1] == ':' then
      match ParseMinuteField(s[2..])
      case None => None
      case Some(m) => Some(60 * DigitValue(s[0]) + m)
    else if |s| >= 3 && IsDigit(s[0]) && IsDigit(s[1]) && s[2] == ':'
            && 10 * DigitValue(s[0]) + DigitValue(s[1]) <= 23 then
      match ParseMinuteField(s[3..])
      case None => None
      case Some(m) => Some(60 * (10 * DigitValue(s[0]) + DigitValue(s[1])) + m)
    else None
  }

  /** A planned duration as the trip provider writes it: the hour without a leading zero, two-digit minutes. */
  function FormatHM(hour: nat, minute: nat): (r: string)
    requires hour < 24 && minute < 60
  {
    (if hour < 10 then [DigitChar(hour)] else [DigitChar(hour / 10), DigitChar(hour % 10)])
    + ":" + [DigitChar(minute / 10), DigitChar(minute % 10)]
  }

  /** Parsing a duration written as `H:MM` gives back its minutes. */
  lemma ParseFormatHM(hour: nat, minute: nat)
    requires hour < 24 && minute < 60
    ensures ParseHM(FormatHM(hour, minute)) == Some(hour * 60 + minute)
  {
    var s := FormatHM(hour, minute);
    var mm := [DigitChar(minute / 10), DigitChar(minute % 10)];
    if hour < 10 {
      assert s == [DigitChar(hour), ':'] + mm;
      assert s[2..] == mm;
    } else {
      assert s == [DigitChar(hour / 10), DigitChar(hour % 10), ':'] + mm;
      assert s[3..] == mm;
    }
  }

  /**
   * The spellings `%H` and `%M` accept for the value `v`: two digits, the first
   * possibly 0, and also the single digit when `v` < 10.
   */
  function Spellings(v: nat): (r: set<string>)
    requires v < 100
  {
    {[DigitChar(v / 10), DigitChar(v % 10)]} + (if v < 10 then {[DigitChar(v)]} else {})
  }

  /** `s` is a spelling of `hour`, a colon and a spelling of `minute`, for a time of day. */
  ghost predicate SpellsHM(s: string, hour: nat, minute: nat)
  {
    && hour < 24 && minute < 60
    && exists hs, ms :: hs in Spellings(hour) && ms in Spellings(minute) && s == hs + ":" + ms
  }

  lemma DigitCharValue(c: char)
    requires IsDigit(c)
    ensures DigitChar(DigitValue(c)) == c
  {
  }

  /** The `%M` field accepts exactly the spellings of 0..59. */
  lemma MinuteFieldAccepts(ms: string, m: nat)
    requires m < 60 && ms in Spellings(m)
    ensures ParseMinuteField(ms) == Some(m)
  {
    if |ms| == 2 {
      assert ms == [DigitChar(m / 10), DigitChar(m % 10)];
    } else {
      assert ms == [DigitChar(m)];
    }
  }

  lemma MinuteFieldSpells(ms: string)
    requires ParseMinuteField(ms).Some?
    ensures ParseMinuteField(ms).value < 60 && ms in Spellings(ParseMinuteField(ms).value)
  {
    var m := ParseMinuteField(ms).value;
    DigitCharValue(ms[0]);
    if |ms| == 2 {
      DigitCharValue(ms[1]);
      assert m / 10 == DigitValue(ms[0]) && m % 10 == DigitValue(ms[1]);
      assert ms == [DigitChar(m / 10), DigitChar(m % 10)];
    } else {
      assert ms == [DigitChar(m)];
    }
  }

  /** Every spelling of a time of day parses to its minutes. */
  lemma ParseHMAccepts(s: string, hour: nat, minute: nat)
    requires SpellsHM(s, hour, minute)
    ensures ParseHM(s) == Some(60 * hour + minute)
  {
    var hs, ms :| hs in Spellings(hour) && ms in Spellings(minute) && s == hs + ":" + ms;
    MinuteFieldAccepts(ms, minute);
    if |hs| == 1 {
      assert hs == [DigitChar(hour)];
      assert s[0] == hs[0] && s[1] == ':' && s[2..] == ms;
    } else {
      assert hs == [DigitChar(hour / 10), DigitChar(hour % 10)];
      assert s[0] == hs[0] && s[1] == hs[1] && s[2] == ':' && s[3..] == ms;
    }
  }

  /** Whatever parses is a spelling of a time of day, namely of the minutes it parses to. */
  lemma ParseHMSpells(s: string)
    requires ParseHM(s).Some?
    ensures SpellsHM(s, ParseHM(s).value / 60, ParseHM(s).value % 60)
  {
    var v := ParseHM(s).value;
    DigitCharValue(s[0]);
    if s[1] == ':' {
      var hs, ms := s[..1], s[2..];
      MinuteFieldSpells(ms);
      var h, m := DigitValue(s[0]), ParseMinuteField(ms).value;
      assert v == 60 * h + m && v / 60 == h && v % 60 == m;
      assert hs == [DigitChar(h)] && hs in Spellings(h);
      assert s == hs + ":" + ms;
    } else {
      DigitCharValue(s[1]);
      var hs, ms := s[..2], s[3..];
      MinuteFieldSpells(ms);
      var h, m := 10 * DigitValue(s[0]) + DigitValue(s[1]), ParseMinuteField(ms).value;
      assert v == 60 * h + m && v / 60 == h && v % 60 == m;
      assert h / 10 == DigitValue(s[0]) && h % 10 == DigitValue(s[1]);
      assert hs == [DigitChar(h / 10), DigitChar(h % 10)] && hs in Spellings(h);
      assert s == hs + ":" + ms;
    }
  }

  /**
   * `strptime(s, "%H:%M")` in full: it succeeds iff `s` is a one- or two-digit
   * hour 0..23, a colon and a one- or two-digit minute 0..59 with nothing after,
   * and then the minutes are `60 * hour + minute`.
   */
  lemma ParseHMSpec(s: string)
    ensures ParseHM(s).Some? <==> exists hour, minute :: SpellsHM(s, hour, minute)
    ensures forall hour, minute :: SpellsHM(s, hour, minute) ==> ParseHM(s) == Some(60 * hour + minute)
  {
    forall hour, minute | SpellsHM(s, hour, minute) ensures ParseHM(s) == Some(60 * hour + minute) {
      ParseHMAccepts(s, hour, minute);
    }
    if ParseHM(s).Some? {
      ParseHMSpells(s);
    }
  }

  // ---------------------------------------------------------------------------
  // The shortest trip

  /** The position and minutes of the trip chosen so far. */
  datatype Choice = Choice(index: nat, minutes: nat)

  /** The planned duration of every trip, parsed (`DurationsAt` gives each element). */
  function Durations(trips: seq<Trip>): (r: seq<Option<nat>>)
    ensures |r| == |trips|
  {
    if trips == [] then []
    else Durations(trips[..|trips| - 1]) + [ParseHM(trips[|trips| - 1].planned)]
  }

  lemma {:induction false} DurationsAt(trips: seq<Trip>, j: nat)
    requires j < |trips|
    ensures Durations(trips)[j] == ParseHM(trips[j].planned)
  {
    if j < |trips| - 1 {
      DurationsAt(trips[..|trips| - 1], j);
    }
  }

  lemma DurationsSpec(trips: seq<Trip>)
    ensures forall j :: 0 <= j < |trips| ==> Durations(trips)[j] == ParseHM(trips[j].planned)
  {
    forall j | 0 <= j < |trips| ensures Durations(trips)[j] == ParseHM(trips[j].planned) {
      DurationsAt(trips, j);
    }
  }

  /**
   * The choice after the first `n` trips of the source's loop, given each
   * trip's parsed duration: each trip replaces the current choice only when
   * strictly shorter, and the first duration that does not parse ends the loop.
   */
  function ShortestUpTo(trips: seq<Trip>, durations: seq<Option<nat>>, n: nat): (r: Result<Choice>)
    requires 1 <= n <= |trips| == |durations|
    ensures r.Ok? <==> AllParse(durations, n)
    ensures r.Ok? ==> FirstShortest(durations, n, r.value)
    ensures r.Err? ==> FirstFailure(trips, durations, n, r.fault)
  {
    var last := trips[n - 1];
    if n == 1 then
      match durations[0]
      case None => Err(UnparsablePlannedTime(last.planned))
      case Some(m) => Ok(Choice(0, m))
    else
      match ShortestUpTo(trips, durations, n - 1)
      case Err(f) => Err(f)
      case Ok(c) =>
        match durations[n - 1]
        case None => Err(UnparsablePlannedTime(last.planned))
        case Some(m) => if m < c.minutes then Ok(Choice(n - 1, m)) else Ok(c)
  }

  /** The first `n` durations all parsed. */
  predicate AllParse(durations: seq<Option<nat>>, n: nat)
    requires n <= |durations|
  {
    forall j :: 0 <= j < n ==> durations[j].Some?
  }

  /**
   * Among the first `n` durations, all of which parsed, `c` is one of least
   * minutes and no earlier one is as short.
   */
  predicate FirstShortest(durations: seq<Option<nat>>, n: nat, c: Choice)
    requires n <= |durations|
  {
    && c.index < n && durations[c.index] == Some(c.minutes)
    && (forall j :: 0 <= j < n ==> durations[j].Some? && c.minutes <= durations[j].value)
    && (forall j :: 0 <= j < c.index ==> durations[j].Some? && c.minutes < durations[j].value)
  }

  /** `f` names the first of the first `n` trips whose planned duration did not parse. */
  predicate FirstFailure(trips: seq<Trip>, durations: seq<Option<nat>>, n: nat, f: Fault)
    requires n <= |trips| == |durations|
  {
    exists j :: 0 <= j < n && durations[j].None? && f == UnparsablePlannedTime(trips[j].planned)
                && AllParse(durations, j)
  }

  /** The loop over all trips, each parsed with `%H:%M`. */
  function Shortest(trips: seq<Trip>): (r: Result<Choice>)
    requires |trips| >= 1
  {
    ShortestUpTo(trips, Durations(trips), |trips|)
  }

  /** Once the duration at `i` does not parse, every longer run of the loop fails with that trip's string. */
  lemma {:induction false} ShortestStopsAtFirstFailure(trips: seq<Trip>, durations: seq<Option<nat>>, i: nat, n: nat)
    requires i < n <= |trips| == |durations|
    requires durations[i].None?
    requires i > 0 ==> ShortestUpTo(trips, durations, i).Ok?
    ensures ShortestUpTo(trips, durations, n) == Err(UnparsablePlannedTime(trips[i].planned))
  {
    if n > i + 1 {
      ShortestStopsAtFirstFailure(trips, durations, i, n - 1);
    }
  }

  /**
   * The inner loop of create_trip_data_from_station: the first trip of strictly
   * least planned minutes, or the parse failure that ends the run.
   */
  method SelectShortest(trips: seq<Trip>) returns (r: Result<Choice>)
    requires |trips| >= 1
    ensures r == Shortest(trips)
    ensures r.Ok? ==> r.value.index < |trips|
                      && forall j :: 0 <= j < |trips| ==>
                           ParseHM(trips[j].planned).Some? && r.value.minutes <= ParseHM(trips[j].planned).value
  {
    ghost var durations := Durations(trips);
    var shortest := Choice(0, 0);
    var i := 0;
    while i < |trips|
      invariant 0 <= i <= |trips|
      invariant i > 0 ==> ShortestUpTo(trips, durations, i) == Ok(shortest)
    {
      var minutes := ParseHM(trips[i].planned);
      DurationsAt(trips, i);
      if minutes.None? {
        ShortestStopsAtFirstFailure(trips, durations, i, |trips|);
        return Err(UnparsablePlannedTime(trips[i].planned));
      }
      if i == 0 || minutes.value < shortest.minutes {
        shortest := Choice(i, minutes.value);
      }
      i := i + 1;
    }
    r := Ok(shortest);
    DurationsSpec(trips);
  }

  // ---------------------------------------------------------------------------
  // What one destination contributes

  /** The query for one destination: no via station. */
  function TripQuery(timestamp: string, origin: NsStation, dest: NsStation): (r: Query)
  {
    Query(timestamp, origin.code, "", dest.code)
  }

  /** The first entry of every dataset: the origin itself, 0 minutes, `"0:00"`. */
  function OriginEntry(origin: NsStation): (r: Entry)
  {
    Entry(origin.longName, Some(origin.code), 0, "0:00")
  }

  datatype Outcome = Skipped | Resolved(entry: Entry) | Fatal(fault: Fault)

  /**
   * One iteration of the destination loop: the origin itself (by code), a
   * TypeError, an HTTPError and an empty answer give nothing; any other exception
   * and an unparsable duration end the run; otherwise the shortest trip gives an
   * entry named after the trip's destination, with the code of the first
   * registry station of that name.
   */
  function DestinationOutcome(reg: seq<NsStation>, origin: NsStation, dest: NsStation,
                              timestamp: string, api: TripProvider): (r: Outcome)
    ensures dest.code == origin.code ==> r.Skipped?
    ensures r.Resolved? ==> ParseHM(r.entry.planned) == Some(r.entry.travelTimeMin)
                            && r.entry.id == CodeOf(reg, r.entry.name)
  {
    if dest.code == origin.code then Skipped
    else
      match api(TripQuery(timestamp, origin, dest))
      case TypeFault => Skipped
      case HttpFault => Skipped
      case OtherFault => Fatal(ProviderFailure(origin.code, dest.code))
      case Trips(trips) =>
        if trips == [] then Skipped
        else
          match Shortest(trips)
          case Err(f) => Fatal(f)
          case Ok(c) =>
            var t := trips[c.index];
            DurationsAt(trips, c.index);
            Resolved(Entry(t.destination, CodeOf(reg, t.destination), c.minutes, t.planned))
  }

  /** What a registry station contributes to an origin's dataset. */
  type Contribution = NsStation -> Outcome

  /** The destination loop's step for one origin, as a function of the destination. */
  function Contributions(reg: seq<NsStation>, origin: NsStation, timestamp: string, api: TripProvider): (r: Contribution)
  {
    (dest: NsStation) => DestinationOutcome(reg, origin, dest, timestamp, api)
  }

  /**
   * The destination loop after the first `n` registry stations: the dataset so
   * far, which starts with the origin's entry, or the fault that ended the loop.
   */
  function Collect(contrib: Contribution, origin: NsStation, reg: seq<NsStation>, n: nat): (r: Result<Dataset>)
    requires n <= |reg|
    ensures r.Ok? ==> |r.value| >= 1 && r.value[0] == OriginEntry(origin)
  {
    if n == 0 then Ok([OriginEntry(origin)])
    else
      match Collect(contrib, origin, reg, n - 1)
      case Err(f) => Err(f)
      case Ok(ds) =>
        match contrib(reg[n - 1])
        case Skipped => Ok(ds)
        case Fatal(f) => Err(f)
        case Resolved(e) => Ok(ds + [e])
  }

  /** The dataset after the first `n` registry stations, or the fault that ended the run. */
  function TripDataUpTo(reg: seq<NsStation>, origin: NsStation, timestamp: string, api: TripProvider, n: nat): (r: Result<Dataset>)
    requires n <= |reg|
  {
    Collect(Contributions(reg, origin, timestamp, api), origin, reg, n)
  }

  /** create_trip_data_from_station before serialisation. */
  function TripData(reg: seq<NsStation>, origin: NsStation, timestamp: string, api: TripProvider): (r: Result<Dataset>)
    ensures r.Ok? ==> |r.value| >= 1 && r.value[0] == OriginEntry(origin)
  {
    TripDataUpTo(reg, origin, timestamp, api, |reg|)
  }

  lemma {:induction false} CollectStopsAtFault(contrib: Contribution, origin: NsStation, reg: seq<NsStation>, i: nat, n: nat)
    requires i <= n <= |reg|
    requires Collect(contrib, origin, reg, i).Err?
    ensures Collect(contrib, origin, reg, n) == Collect(contrib, origin, reg, i)
    decreases n - i
  {
    if i < n {
      CollectStopsAtFault(contrib, origin, reg, i, n - 1);
    }
  }

  /** A fault ends the destination loop: no later station changes the result. */
  lemma TripDataStopsAtFault(reg: seq<NsStation>, origin: NsStation, timestamp: string,
                             api: TripProvider, i: nat, n: nat)
    requires i <= n <= |reg|
    requires TripDataUpTo(reg, origin, timestamp, api, i).Err?
    ensures TripDataUpTo(reg, origin, timestamp, api, n) == TripDataUpTo(reg, origin, timestamp, api, i)
  {
    CollectStopsAtFault(Contributions(reg, origin, timestamp, api), origin, reg, i, n);
  }

  // ---------------------------------------------------------------------------
  // Properties of the dataset

  /** A destination other than the origin whose query gave a non-empty list of trips. */
  predicate Answered(origin: NsStation, dest: NsStation, timestamp: string, api: TripProvider)
  {
    dest.code != origin.code
    && var a := api(TripQuery(timestamp, origin, dest));
       a.Trips? && |a.trips| > 0
  }

  /** A destination whose query raised an uncaught exception or returned a trip with an unparsable duration. */
  predicate FaultAt(origin: NsStation, dest: NsStation, timestamp: string, api: TripProvider)
  {
    dest.code != origin.code
    && var a := api(TripQuery(timestamp, origin, dest));
       || a.OtherFault?
       || (a.Trips? && exists j :: 0 <= j < |a.trips| && ParseHM(a.trips[j].planned).None?)
  }

  /** How many of the first `n` registry stations are answered destinations. */
  function AnsweredCount(reg: seq<NsStation>, origin: NsStation, timestamp: string, api: TripProvider, n: nat): (r: nat)
    requires n <= |reg|
  {
    if n == 0 then 0
    else AnsweredCount(reg, origin, timestamp, api, n - 1)
         + (if Answered(origin, reg[n - 1], timestamp, api) then 1 else 0)
  }

  /** A destination ends the run exactly when its query faults. */
  lemma OutcomeFatalIff(reg: seq<NsStation>, origin: NsStation, dest: NsStation, timestamp: string, api: TripProvider)
    ensures DestinationOutcome(reg, origin, dest, timestamp, api).Fatal? <==> FaultAt(origin, dest, timestamp, api)
    ensures DestinationOutcome(reg, origin, dest, timestamp, api).Resolved? <==>
              Answered(origin, dest, timestamp, api) && !FaultAt(origin, dest, timestamp, api)
  {
    var a := api(TripQuery(timestamp, origin, dest));
    if a.Trips? {
      DurationsSpec(a.trips);
    }
  }

  /**
   * An entry a destination contributes is that of its first trip of least
   * planned minutes: the trip's destination name, that name's registry code, the
   * trip's minutes and its planned string.
   */
  lemma ResolvedEntry(reg: seq<NsStation>, origin: NsStation, dest: NsStation, timestamp: string, api: TripProvider, e: Entry)
    requires DestinationOutcome(reg, origin, dest, timestamp, api) == Resolved(e)
    ensures Answered(origin, dest, timestamp, api)
    ensures var trips := api(TripQuery(timestamp, origin, dest)).trips;
            exists k :: 0 <= k < |trips|
              && e == Entry(trips[k].destination, CodeOf(reg, trips[k].destination), e.travelTimeMin, trips[k].planned)
              && ParseHM(trips[k].planned) == Some(e.travelTimeMin)
              && (forall j :: 0 <= j < |trips| ==>
                    ParseHM(trips[j].planned).Some? && e.travelTimeMin <= ParseHM(trips[j].planned).value)
              && (forall j :: 0 <= j < k ==>
                    ParseHM(trips[j].planned).Some? && e.travelTimeMin < ParseHM(trips[j].planned).value)
  {
    var trips := api(TripQuery(timestamp, origin, dest)).trips;
    var c := Shortest(trips).value;
    DurationsSpec(trips);
    assert e.travelTimeMin == c.minutes;
  }

  /** The loop ends normally exactly when no station's contribution is a fault. */
  lemma {:induction false} CollectOkIff(contrib: Contribution, origin: NsStation, reg: seq<NsStation>, n: nat)
    requires n <= |reg|
    ensures Collect(contrib, origin, reg, n).Ok? <==> forall i :: 0 <= i < n ==> !contrib(reg[i]).Fatal?
  {
    if n > 0 {
      CollectOkIff(contrib, origin, reg, n - 1);
    }
  }

  /** The run ends with a fault exactly when some destination faults. */
  lemma TripDataOkIff(reg: seq<NsStation>, origin: NsStation, timestamp: string, api: TripProvider, n: nat)
    requires n <= |reg|
    ensures TripDataUpTo(reg, origin, timestamp, api, n).Ok? <==>
              forall i :: 0 <= i < n ==> !FaultAt(origin, reg[i], timestamp, api)
  {
    var contrib := Contributions(reg, origin, timestamp, api);
    CollectOkIff(contrib, origin, reg, n);
    forall i | 0 <= i < n
      ensures contrib(reg[i]).Fatal? <==> FaultAt(origin, reg[i], timestamp, api)
    {
      OutcomeFatalIff(reg, origin, reg[i], timestamp, api);
    }
  }

  /** How many of the first `n` registry stations contribute an entry. */
  function ResolvedCount(contrib: Contribution, reg: seq<NsStation>, n: nat): (r: nat)
    requires n <= |reg|
  {
    if n == 0 then 0
    else ResolvedCount(contrib, reg, n - 1) + (if contrib(reg[n - 1]).Resolved? then 1 else 0)
  }

  /**
   * `ds` starts with the origin's entry and then holds one entry per station
   * among the first `n` that contributes one, in registry order.
   */
  ghost predicate Shaped(contrib: Contribution, origin: NsStation, reg: seq<NsStation>, n: nat, ds: Dataset)
    requires n <= |reg|
  {
    && |ds| == 1 + ResolvedCount(contrib, reg, n)
    && ds[0] == OriginEntry(origin)
    && forall i :: 0 <= i < n && contrib(reg[i]).Resolved? ==> ContributedAt(contrib, reg, i, ds)
  }

  /** The `i`-th station's entry is at position 1 + (number of contributing stations before it). */
  ghost predicate ContributedAt(contrib: Contribution, reg: seq<NsStation>, i: nat, ds: Dataset)
    requires i < |reg|
  {
    1 + ResolvedCount(contrib, reg, i) < |ds| && contrib(reg[i]) == Resolved(ds[1 + ResolvedCount(contrib, reg, i)])
  }

  lemma {:induction false} CollectShape(contrib: Contribution, origin: NsStation, reg: seq<NsStation>, n: nat)
    requires n <= |reg|
    requires Collect(contrib, origin, reg, n).Ok?
    ensures Shaped(contrib, origin, reg, n, Collect(contrib, origin, reg, n).value)
  {
    if n > 0 {
      var prev := Collect(contrib, origin, reg, n - 1).value;
      var ds := Collect(contrib, origin, reg, n).value;
      CollectShape(contrib, origin, reg, n - 1);
      assert ds == if contrib(reg[n - 1]).Resolved? then prev + [contrib(reg[n - 1]).entry] else prev;
      forall i | 0 <= i < n && contrib(reg[i]).Resolved?
        ensures ContributedAt(contrib, reg, i, ds)
      {
        if i < n - 1 {
          assert ContributedAt(contrib, reg, i, prev);
        }
      }
    }
  }

  /** Where no destination faults, the contributing stations are exactly the answered ones. */
  lemma {:induction false} ResolvedAreAnswered(reg: seq<NsStation>, origin: NsStation, timestamp: string, api: TripProvider, n: nat)
    requires n <= |reg|
    requires forall i :: 0 <= i < n ==> !FaultAt(origin, reg[i], timestamp, api)
    ensures forall i :: 0 <= i < n ==>
              (Contributions(reg, origin, timestamp, api)(reg[i]).Resolved? <==> Answered(origin, reg[i], timestamp, api))
    ensures ResolvedCount(Contributions(reg, origin, timestamp, api), reg, n) == AnsweredCount(reg, origin, timestamp, api, n)
  {
    if n > 0 {
      ResolvedAreAnswered(reg, origin, timestamp, api, n - 1);
      OutcomeFatalIff(reg, origin, reg[n - 1], timestamp, api);
    }
  }

  /**
   * `ds` starts with the origin's entry and then holds exactly one entry per
   * answered destination among the first `n` registry stations, in registry
   * order: the `i`-th station's entry sits at position 1 + (number of answered
   * stations before it).
   */
  ghost predicate DatasetShape(reg: seq<NsStation>, origin: NsStation, timestamp: string, api: TripProvider,
                               n: nat, ds: Dataset)
    requires n <= |reg|
  {
    && |ds| == 1 + AnsweredCount(reg, origin, timestamp, api, n)
    && ds[0] == OriginEntry(origin)
    && forall i :: 0 <= i < n && Answered(origin, reg[i], timestamp, api) ==> EntryAt(reg, origin, timestamp, api, i, ds)
  }

  /** The answered `i`-th registry station's entry is at position 1 + (number of answered stations before it). */
  ghost predicate EntryAt(reg: seq<NsStation>, origin: NsStation, timestamp: string, api: TripProvider,
                          i: nat, ds: Dataset)
    requires i < |reg|
  {
    1 + AnsweredCount(reg, origin, timestamp, api, i) < |ds|
    && DestinationOutcome(reg, origin, reg[i], timestamp, api) == Resolved(ds[1 + AnsweredCount(reg, origin, timestamp, api, i)])
  }

  /** A dataset that builds has the shape `DatasetShape` describes. */
  lemma TripDataEntries(reg: seq<NsStation>, origin: NsStation, timestamp: string, api: TripProvider, n: nat)
    requires n <= |reg|
    requires TripDataUpTo(reg, origin, timestamp, api, n).Ok?
    ensures DatasetShape(reg, origin, timestamp, api, n, TripDataUpTo(reg, origin, timestamp, api, n).value)
  {
    var contrib := Contributions(reg, origin, timestamp, api);
    var ds := TripDataUpTo(reg, origin, timestamp, api, n).value;
    CollectShape(contrib, origin, reg, n);
    TripDataOkIff(reg, origin, timestamp, api, n);
    ResolvedAreAnswered(reg, origin, timestamp, api, n);
    forall i | 0 <= i < n && Answered(origin, reg[i], timestamp, api)
      ensures EntryAt(reg, origin, timestamp, api, i, ds)
    {
      ResolvedAreAnswered(reg, origin, timestamp, api, i);
      assert ContributedAt(contrib, reg, i, ds);
    }
  }
}
