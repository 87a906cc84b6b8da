/**
 * The station registry as values: which provider stations the registry keeps,
 * first-match lookup by name, and how a travel-time file is applied onto the
 * registry's `travel_time_min` fields and what is then still missing.
 */
module Registry {
  import opened Records

  /** The only country the registry keeps. */
  const Country: string := "NL"
  /** The station that test mode keeps wherever the provider lists it. */
  const Anchor: string := "UT"
  /** In test mode, raw positions 0 up to and including this one are kept. */
  const LastTestIndex: nat := 5

  // ---------------------------------------------------------------------------
  // Order-preserving filters

  /** The number of `true` flags. */
  function CountTrue(keep: seq<bool>): (r: nat)
    ensures r <= |keep|
  {
    if keep == [] then 0
    else CountTrue(keep[..|keep| - 1]) + (if keep[|keep| - 1] then 1 else 0)
  }

  /** The items whose flag is set, in their original order (the shape of a loop appending to a list). */
  function FilterIdx<T>(items: seq<T>, keep: seq<bool>): (r: seq<T>)
    requires |items| == |keep|
  {
    if items == [] then []
    else
      FilterIdx(items[..|items| - 1], keep[..|keep| - 1])
      + (if keep[|keep| - 1] then [items[|items| - 1]] else [])
  }

  /** One more step of the appending loop: the item at `i` is appended iff its flag is set. */
  lemma FilterIdxPrefixStep<T>(items: seq<T>, keep: seq<bool>, i: nat)
    requires |items| == |keep| && i < |items|
    ensures FilterIdx(items[..i + 1], keep[..i + 1]) == FilterIdx(items[..i], keep[..i]) + (if keep[i] then [items[i]] else [])
  {
    assert items[..i + 1][..i] == items[..i] && keep[..i + 1][..i] == keep[..i];
  }

  lemma {:induction false} FilterIdxLength<T>(items: seq<T>, keep: seq<bool>)
    requires |items| == |keep|
    ensures |FilterIdx(items, keep)| == CountTrue(keep)
  {
    if items != [] {
      FilterIdxLength(items[..|items| - 1], keep[..|keep| - 1]);
    }
  }

  /** The flagged item at position `i` lands at position "number of flags set before `i`". */
  lemma {:induction false} FilterIdxAt<T>(items: seq<T>, keep: seq<bool>, i: nat)
    requires |items| == |keep| && i < |items| && keep[i]
    ensures CountTrue(keep[..i]) < |FilterIdx(items, keep)|
    ensures FilterIdx(items, keep)[CountTrue(keep[..i])] == items[i]
  {
    var n := |items|;
    var p, kp := items[..n - 1], keep[..n - 1];
    FilterIdxLength(p, kp);
    if i < n - 1 {
      assert kp[..i] == keep[..i];
      FilterIdxAt(p, kp, i);
    }
  }

  /** Every item of the filter is a flagged item of the input. */
  lemma {:induction false} FilterIdxFrom<T>(items: seq<T>, keep: seq<bool>, k: nat)
    requires |items| == |keep| && k < |FilterIdx(items, keep)|
    ensures exists i :: 0 <= i < |items| && keep[i] && items[i] == FilterIdx(items, keep)[k]
  {
    var n := |items|;
    var p, kp := items[..n - 1], keep[..n - 1];
    if k < |FilterIdx(p, kp)| {
      FilterIdxFrom(p, kp, k);
      var i :| 0 <= i < |p| && kp[i] && p[i] == FilterIdx(p, kp)[k];
      assert keep[i] && items[i] == FilterIdx(items, keep)[k];
    } else {
      assert keep[n - 1] && items[n - 1] == FilterIdx(items, keep)[k];
    }
  }

  /**
   * The filter keeps exactly the flagged items, one each, in order: the item at
   * position `i` lands at position "number of flags set before `i`".
   */
  lemma FilterIdxSpec<T>(items: seq<T>, keep: seq<bool>)
    requires |items| == |keep|
    ensures |FilterIdx(items, keep)| == CountTrue(keep)
    ensures forall i :: 0 <= i < |items| && keep[i] ==>
              CountTrue(keep[..i]) < |FilterIdx(items, keep)| && FilterIdx(items, keep)[CountTrue(keep[..i])] == items[i]
    ensures forall x :: x in FilterIdx(items, keep) <==> exists i :: 0 <= i < |items| && keep[i] && items[i] == x
  {
    FilterIdxLength(items, keep);
    var r := FilterIdx(items, keep);
    forall i | 0 <= i < |items| && keep[i]
      ensures CountTrue(keep[..i]) < |r| && r[CountTrue(keep[..i])] == items[i]
    {
      FilterIdxAt(items, keep, i);
    }
    forall x
      ensures x in r <==> exists i :: 0 <= i < |items| && keep[i] && items[i] == x
    {
      if x in r {
        var k :| 0 <= k < |r| && r[k] == x;
        FilterIdxFrom(items, keep, k);
      }
    }
  }

  /** Flags set pointwise in `a` only where they are set in `b` give no more items. */
  lemma {:induction false} CountTrueMonotone(a: seq<bool>, b: seq<bool>)
    requires |a| == |b|
    requires forall i :: 0 <= i < |a| && a[i] ==> b[i]
    ensures CountTrue(a) <= CountTrue(b)
  {
    if a != [] {
      CountTrueMonotone(a[..|a| - 1], b[..|b| - 1]);
    }
  }

  // ---------------------------------------------------------------------------
  // Registry construction (Stations.__init__)

  /** Whether the provider station at raw position `i` survives the constructor's two `continue`s. */
  predicate KeepAt(provider: seq<NsStation>, i: nat, test: bool)
    requires i < |provider|
  {
    !(test && i > LastTestIndex && provider[i].code != Anchor) && provider[i].country == Country
  }

  function KeepFlags(provider: seq<NsStation>, test: bool): (f: seq<bool>)
    ensures |f| == |provider|
    ensures forall i :: 0 <= i < |provider| ==> f[i] == KeepAt(provider, i, test)
  {
    seq(|provider|, i requires 0 <= i < |provider| => KeepAt(provider, i, test))
  }

  /** The provider records the registry keeps, in provider order. */
  function Kept(provider: seq<NsStation>, test: bool): (r: seq<NsStation>)
    ensures |r| <= |provider|
    ensures forall s :: s in r ==> s in provider && s.country == Country
  {
    var f := KeepFlags(provider, test);
    FilterIdxSpec(provider, f);
    FilterIdx(provider, f)
  }

  /**
   * Every kept station is Dutch; a station is kept iff it is Dutch and, in test
   * mode, sits at raw position 0..5 or is the anchor; kept stations keep the
   * provider's order.
   */
  lemma KeptSpec(provider: seq<NsStation>, test: bool)
    ensures forall s :: s in Kept(provider, test) ==> s.country == Country
    ensures forall s :: s in Kept(provider, test) <==>
              exists i :: 0 <= i < |provider| && provider[i] == s && s.country == Country
                          && (!test || i <= LastTestIndex || s.code == Anchor)
    ensures forall i :: 0 <= i < |provider| && KeepAt(provider, i, test) ==>
              CountTrue(KeepFlags(provider, test)[..i]) < |Kept(provider, test)| &&
              Kept(provider, test)[CountTrue(KeepFlags(provider, test)[..i])] == provider[i]
    ensures |Kept(provider, test)| == CountTrue(KeepFlags(provider, test)) <= |provider|
  {
    FilterIdxSpec(provider, KeepFlags(provider, test));
  }

  /** A test-mode registry still holds the anchor, wherever the provider lists it, if the anchor is Dutch. */
  lemma TestModeKeepsAnchor(provider: seq<NsStation>, i: nat)
    requires i < |provider| && provider[i].code == Anchor && provider[i].country == Country
    ensures provider[i] in Kept(provider, true)
  {
    KeptSpec(provider, true);
  }

  // ---------------------------------------------------------------------------
  // Lookup by name (find_station, get_station_code)

  function Names(reg: seq<NsStation>): (r: seq<string>)
    ensures |r| == |reg|
    ensures forall i :: 0 <= i < |reg| ==> r[i] == reg[i].longName
  {
    seq(|reg|, i requires 0 <= i < |reg| => reg[i].longName)
  }

  /** The position of the first exact match of `name`, or None when there is none. */
  function FindIndex(names: seq<string>, name: string): (r: Option<nat>)
    ensures r.Some? ==> r.value < |names| && names[r.value] == name
    ensures r.Some? ==> forall j :: 0 <= j < r.value ==> names[j] != name
    ensures r.None? <==> forall j :: 0 <= j < |names| ==> names[j] != name
  {
    if names == [] then None
    else if names[0] == name then Some(0)
    else
      match FindIndex(names[1..], name)
      case None => None
      case Some(k) => Some(k + 1)
  }

  /** The code of the first station called `name`, or None. */
  function CodeOf(reg: seq<NsStation>, name: string): (r: Option<string>)
    ensures r.None? <==> forall j :: 0 <= j < |reg| ==> reg[j].longName != name
    ensures r.Some? ==> exists k :: 0 <= k < |reg| && reg[k].longName == name && r.value == reg[k].code
                                    && forall j :: 0 <= j < k ==> reg[j].longName != name
  {
    match FindIndex(Names(reg), name)
    case None => None
    case Some(k) => Some(reg[k].code)
  }

  // ---------------------------------------------------------------------------
  // Applying a travel-time file (travel_times_from_json)

  /** One file entry: the first station with that name gets the entry's minutes. */
  function LoadEntry(names: seq<string>, times: seq<Option<int>>, e: Entry): (r: seq<Option<int>>)
    requires |times| == |names|
    ensures |r| == |names|
  {
    match FindIndex(names, e.name)
    case None => times
    case Some(k) => times[k := Some(e.travelTimeMin)]
  }

  /** The entries of one file applied in file order onto the registry's current travel times. */
  function Load(names: seq<string>, times: seq<Option<int>>, entries: Dataset): (r: seq<Option<int>>)
    requires |times| == |names|
    ensures |r| == |names|
  {
    if entries == [] then times
    else LoadEntry(names, Load(names, times, entries[..|entries| - 1]), entries[|entries| - 1])
  }

  /** Loading one more entry of a file: the step of the source's loop over the file's entries. */
  lemma LoadPrefixStep(names: seq<string>, times: seq<Option<int>>, entries: Dataset, j: nat)
    requires |times| == |names| && j < |entries|
    ensures Load(names, times, entries[..j + 1]) == LoadEntry(names, Load(names, times, entries[..j]), entries[j])
  {
    assert entries[..j + 1][..j] == entries[..j];
  }

  /** The minutes of the last entry called `name`, or None when no entry is. */
  function LastTimeFor(entries: Dataset, name: string): (r: Option<int>)
    ensures r.Some? <==> exists j :: 0 <= j < |entries| && entries[j].name == name
    ensures r.Some? ==> exists j :: 0 <= j < |entries| && entries[j].name == name && entries[j].travelTimeMin == r.value
                                    && forall k :: j < k < |entries| ==> entries[k].name != name
  {
    if entries == [] then None
    else if entries[|entries| - 1].name == name then Some(entries[|entries| - 1].travelTimeMin)
    else
      var prefix := entries[..|entries| - 1];
      var r := LastTimeFor(prefix, name);
      assert r.Some? ==> exists j :: 0 <= j < |entries| && entries[j].name == name && entries[j].travelTimeMin == r.value
                                     && forall k :: j < k < |entries| ==> entries[k].name != name by {
        if r.Some? {
          var j :| 0 <= j < |prefix| && prefix[j].name == name && prefix[j].travelTimeMin == r.value
                   && forall k :: j < k < |prefix| ==> prefix[k].name != name;
          assert entries[j] == prefix[j];
          forall k | j < k < |entries| ensures entries[k].name != name {
            if k < |prefix| {
              assert entries[k] == prefix[k];
            }
          }
        }
      }
      r
  }

  /**
   * After a load, station `i` holds the minutes of the last file entry with its
   * name if it is the first registry station with that name and some entry has
   * it; otherwise it holds what it held before.
   */
  lemma {:induction false} LoadSpec(names: seq<string>, times: seq<Option<int>>, entries: Dataset)
    requires |times| == |names|
    ensures forall i {:trigger Load(names, times, entries)[i]} :: 0 <= i < |names| ==>
              Load(names, times, entries)[i] ==
                if FindIndex(names, names[i]) == Some(i) && LastTimeFor(entries, names[i]).Some?
                then LastTimeFor(entries, names[i]) else times[i]
  {
    if entries != [] {
      var prefix := entries[..|entries| - 1];
      var e := entries[|entries| - 1];
      LoadSpec(names, times, prefix);
      forall i | 0 <= i < |names|
        ensures Load(names, times, entries)[i] ==
                  if FindIndex(names, names[i]) == Some(i) && LastTimeFor(entries, names[i]).Some?
                  then LastTimeFor(entries, names[i]) else times[i]
      {
        if e.name == names[i] {
          assert LastTimeFor(entries, names[i]) == Some(e.travelTimeMin);
        } else {
          assert LastTimeFor(entries, names[i]) == LastTimeFor(prefix, names[i]);
        }
      }
    }
  }

  /** A value a station already holds is never cleared by a load. */
  lemma LoadKeepsValues(names: seq<string>, times: seq<Option<int>>, entries: Dataset)
    requires |times| == |names|
    ensures forall i :: 0 <= i < |names| && times[i].Some? ==> Load(names, times, entries)[i].Some?
  {
    LoadSpec(names, times, entries);
  }

  // ---------------------------------------------------------------------------
  // Missing destinations (get_missing_destinations)

  function NoneFlags(times: seq<Option<int>>): (f: seq<bool>)
    ensures |f| == |times|
    ensures forall i :: 0 <= i < |times| ==> f[i] == times[i].None?
  {
    seq(|times|, i requires 0 <= i < |times| => times[i].None?)
  }

  /** The registry stations whose travel time is still None, in registry order. */
  function MissingOf<T>(items: seq<T>, times: seq<Option<int>>): (r: seq<T>)
    requires |items| == |times|
  {
    FilterIdx(items, NoneFlags(times))
  }

  /** The missing stations are exactly those with no travel time, each once and in registry order. */
  lemma MissingSpec<T>(items: seq<T>, times: seq<Option<int>>)
    requires |items| == |times|
    ensures forall x :: x in MissingOf(items, times) <==> exists i :: 0 <= i < |items| && items[i] == x && times[i].None?
    ensures forall i :: 0 <= i < |items| && times[i].None? ==>
              CountTrue(NoneFlags(times)[..i]) < |MissingOf(items, times)| &&
              MissingOf(items, times)[CountTrue(NoneFlags(times)[..i])] == items[i]
    ensures |MissingOf(items, times)| == CountTrue(NoneFlags(times))
  {
    FilterIdxSpec(items, NoneFlags(times));
  }

  /**
   * Loading a file never adds a missing destination: what is missing afterwards
   * was missing before, and there are no more of them.
   */
  lemma MissingNeverGrows<T>(items: seq<T>, names: seq<string>, times: seq<Option<int>>, entries: Dataset)
    requires |items| == |names| == |times|
    ensures forall x :: x in MissingOf(items, Load(names, times, entries)) ==> x in MissingOf(items, times)
    ensures |MissingOf(items, Load(names, times, entries))| <= |MissingOf(items, times)|
  {
    var after := Load(names, times, entries);
    LoadKeepsValues(names, times, entries);
    var fa, ft := NoneFlags(after), NoneFlags(times);
    forall x | x in MissingOf(items, after)
      ensures x in MissingOf(items, times)
    {
      var k :| 0 <= k < |FilterIdx(items, fa)| && FilterIdx(items, fa)[k] == x;
      FilterIdxFrom(items, fa, k);
      var i :| 0 <= i < |items| && fa[i] && items[i] == x;
      FilterIdxAt(items, ft, i);
    }
    FilterIdxLength(items, fa);
    FilterIdxLength(items, ft);
    CountTrueMonotone(fa, ft);
  }

  // ---------------------------------------------------------------------------
  // Stale travel times

  function AllNone(n: nat): (r: seq<Option<int>>)
    ensures |r| == n && forall i :: 0 <= i < n ==> r[i].None?
  {
    seq(n, i => None)
  }

  predicate UniqueNames(names: seq<string>)
  {
    forall i, j :: 0 <= i < j < |names| ==> names[i] != names[j]
  }

  /**
   * On travel times that were all cleared, a registry with unique names misses
   * exactly the stations whose name no entry of the file carries.
   */
  lemma ClearedLoadMissesAbsentNames(names: seq<string>, entries: Dataset)
    requires UniqueNames(names)
    ensures forall i :: 0 <= i < |names| ==>
              (Load(names, AllNone(|names|), entries)[i].None? <==> forall j :: 0 <= j < |entries| ==> entries[j].name != names[i])
  {
    var cleared := AllNone(|names|);
    LoadSpec(names, cleared, entries);
    forall i | 0 <= i < |names|
      ensures Load(names, cleared, entries)[i].None? <==> forall j :: 0 <= j < |entries| ==> entries[j].name != names[i]
    {
      UniqueFirstMatch(names, i);
      assert Load(names, cleared, entries)[i] == LastTimeFor(entries, names[i]);
    }
  }

  /** With unique names, a station is the first match of its own name. */
  lemma UniqueFirstMatch(names: seq<string>, i: nat)
    requires UniqueNames(names) && i < |names|
    ensures FindIndex(names, names[i]) == Some(i)
  {
  }

  /**
   * Without clearing, a value loaded from one origin's file still stands when the
   * next origin's file is checked: station "C" is absent from the second file,
   * yet it is not reported missing. Cleared first, it is.
   */
  lemma StaleTimesHideGap()
    ensures var names := ["A", "B", "C"];
            var first := [Entry("A", Some("a"), 0, "0:00"), Entry("B", Some("b"), 5, "0:05"), Entry("C", Some("c"), 9, "0:09")];
            var second := [Entry("B", Some("b"), 0, "0:00"), Entry("A", Some("a"), 5, "0:05")];
            && (forall j :: 0 <= j < |second| ==> second[j].name != "C")
            && MissingOf(names, Load(names, Load(names, AllNone(3), first), second)) == []
            && MissingOf(names, Load(names, AllNone(3), second)) == ["C"]
  {
    var names := ["A", "B", "C"];
    var first := [Entry("A", Some("a"), 0, "0:00"), Entry("B", Some("b"), 5, "0:05"), Entry("C", Some("c"), 9, "0:09")];
    var second := [Entry("B", Some("b"), 0, "0:00"), Entry("A", Some("a"), 5, "0:05")];
    StaleMissing(names, first, second);
    ClearedMissing(names, second);
  }

  lemma StaleMissing(names: seq<string>, first: Dataset, second: Dataset)
    requires names == ["A", "B", "C"]
    requires |first| == 3 && first[0].name == "A" && first[1].name == "B" && first[2].name == "C"
    ensures MissingOf(names, Load(names, Load(names, AllNone(3), first), second)) == []
  {
    assert UniqueNames(names);
    ClearedLoadMissesAbsentNames(names, first);
    var afterFirst := Load(names, AllNone(3), first);
    forall i | 0 <= i < 3 ensures afterFirst[i].Some? {
      assert first[i].name == names[i];
    }
    LoadKeepsValues(names, afterFirst, second);
    var stale := Load(names, afterFirst, second);
    var f := NoneFlags(stale);
    assert f == [false, false, false];
    assert f[..2] == [false, false] && [false, false][..1] == [false] && [false][..0] == [];
    FilterIdxLength(names, f);
    assert CountTrue(f) == 0;
  }

  lemma ClearedMissing(names: seq<string>, second: Dataset)
    requires names == ["A", "B", "C"]
    requires second == [Entry("B", Some("b"), 0, "0:00"), Entry("A", Some("a"), 5, "0:05")]
    ensures MissingOf(names, Load(names, AllNone(3), second)) == ["C"]
  {
    assert UniqueNames(names);
    ClearedLoadMissesAbsentNames(names, second);
    var cleared := Load(names, AllNone(3), second);
    assert second[1].name == names[0] && second[0].name == names[1];
    assert cleared[0].Some? && cleared[1].Some? && cleared[2].None?;
    var f := NoneFlags(cleared);
    assert f == [false, false, true];
    assert f[..2] == [false, false] && [false, false][..1] == [false] && [false][..0] == [];
    assert names[..2] == ["A", "B"] && ["A", "B"][..1] == ["A"] && ["A"][..0] == [];
    assert FilterIdx(["A"], [false]) == [];
    assert FilterIdx(["A", "B"], [false, false]) == [];
    assert FilterIdx(names, f) == ["C"];
  }
}
