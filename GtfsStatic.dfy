/** The offline step that turns the static GTFS tables (stops, routes,
    trips, stop times) into the per-line station dataset read by the map.
    CSV files are given as their rows; a file missing from the archive is
    `None`; Python's `float()` is a parameter. */
module GtfsStatic {
  import opened Wrappers
  import opened Dicts
  import opened Strings
  import Sorting
  import SubwayMap

  /** A CSV record by column name. */
  type Row = map<string, string>

  /** `row.get(key, default).strip()`. */
  function Field(row: Row, key: string, default: string): string {
    Strip(if key in row then row[key] else default)
  }

  /** `float()` of a cell: `None` where it raises `ValueError`. */
  type FloatParser = string -> Option<real>

  // ---------------------------------------------------------------------
  // Keeping rows

  /** The pairs the kept rows yield, in row order. */
  function KeepPairs<R, V>(rows: seq<R>, f: R -> Option<(string, V)>): (ps: seq<(string, V)>)
    ensures forall p :: p in ps ==> exists i :: 0 <= i < |rows| && f(rows[i]) == Some(p)
    decreases |rows|
  {
    if |rows| == 0 then []
    else
      var prev := KeepPairs(rows[..|rows| - 1], f);
      var last := f(rows[|rows| - 1]);
      assert forall p :: p in prev ==> exists i :: 0 <= i < |rows| && f(rows[i]) == Some(p) by {
        forall p | p in prev ensures exists i :: 0 <= i < |rows| && f(rows[i]) == Some(p) {
          var i :| 0 <= i < |rows[..|rows| - 1]| && f(rows[..|rows| - 1][i]) == Some(p);
          assert rows[..|rows| - 1][i] == rows[i];
        }
      }
      if last.Some? then prev + [last.value] else prev
  }

  /** The dictionary filled by assigning each kept row's pair. */
  function Assigned<R, V>(rows: seq<R>, f: R -> Option<(string, V)>): Dict<V> {
    PutEach([], KeepPairs(rows, f))
  }

  lemma {:induction false} KeepPairsLast<R, V>(rows: seq<R>, f: R -> Option<(string, V)>, i: nat)
    requires i < |rows| && f(rows[i]).Some?
    requires forall j :: i < j < |rows| && f(rows[j]).Some? ==> f(rows[j]).value.0 != f(rows[i]).value.0
    ensures LastFor(KeepPairs(rows, f), f(rows[i]).value.0) == Some(f(rows[i]).value.1)
    decreases |rows|
  {
    var n := |rows|;
    var init := rows[..n - 1];
    var prev := KeepPairs(init, f);
    var last := f(rows[n - 1]);
    assert KeepPairs(rows, f) == if last.Some? then prev + [last.value] else prev;
    if i < n - 1 {
      assert init[i] == rows[i];
      assert forall j :: i < j < |init| ==> init[j] == rows[j];
      KeepPairsLast(init, f, i);
      if last.Some? {
        assert (prev + [last.value])[..|prev|] == prev;
      }
    }
  }

  /** A later row assigning the same key overwrites an earlier one: the key
      holds the value of the last kept row that names it. */
  lemma LastRowWins<R, V>(rows: seq<R>, f: R -> Option<(string, V)>, i: nat)
    requires i < |rows| && f(rows[i]).Some?
    requires forall j :: i < j < |rows| && f(rows[j]).Some? ==> f(rows[j]).value.0 != f(rows[i]).value.0
    ensures Get(Assigned(rows, f), f(rows[i]).value.0) == Some(f(rows[i]).value.1)
  {
    KeepPairsLast(rows, f, i);
    PutEachGet([], KeepPairs(rows, f), f(rows[i]).value.0);
  }

  /** Every entry comes from a kept row. */
  lemma AssignedFromRow<R, V>(rows: seq<R>, f: R -> Option<(string, V)>, k: string)
    ensures Get(Assigned(rows, f), k).Some? ==>
      exists i :: 0 <= i < |rows| && f(rows[i]) == Some((k, Get(Assigned(rows, f), k).value))
  {
    PutEachGet([], KeepPairs(rows, f), k);
  }

  lemma {:induction false} KeepPairsStep<R, V>(rows: seq<R>, f: R -> Option<(string, V)>, i: nat)
    requires i < |rows|
    ensures KeepPairs(rows[..i + 1], f)
      == KeepPairs(rows[..i], f) + (if f(rows[i]).Some? then [f(rows[i]).value] else [])
  {
    assert rows[..i + 1][..i] == rows[..i];
  }

  /** One row's step of a dictionary-filling loop. */
  lemma AssignStep<R, V>(rows: seq<R>, f: R -> Option<(string, V)>, i: nat)
    requires i < |rows|
    ensures PutEach([], KeepPairs(rows[..i + 1], f))
      == if f(rows[i]).Some? then Put(PutEach([], KeepPairs(rows[..i], f)), f(rows[i]).value.0, f(rows[i]).value.1)
         else PutEach([], KeepPairs(rows[..i], f))
  {
    KeepPairsStep(rows, f, i);
    var prev := KeepPairs(rows[..i], f);
    if f(rows[i]).Some? {
      var x := f(rows[i]).value;
      assert KeepPairs(rows[..i + 1], f) == prev + [x];
      PutEachSnoc([], prev, x);
    } else {
      assert KeepPairs(rows[..i + 1], f) == prev;
    }
  }

  /** One row's step of a list-appending loop. */
  lemma GroupStep<R, T>(rows: seq<R>, f: R -> Option<(string, T)>, i: nat)
    requires i < |rows|
    ensures Grouped(KeepPairs(rows[..i + 1], f))
      == if f(rows[i]).Some? then Append(Grouped(KeepPairs(rows[..i], f)), f(rows[i]).value.0, f(rows[i]).value.1)
         else Grouped(KeepPairs(rows[..i], f))
  {
    KeepPairsStep(rows, f, i);
    var prev := KeepPairs(rows[..i], f);
    if f(rows[i]).Some? {
      var x := f(rows[i]).value;
      assert KeepPairs(rows[..i + 1], f) == prev + [x];
      GroupedSnoc(prev, x);
    } else {
      assert KeepPairs(rows[..i + 1], f) == prev;
    }
  }

  // ---------------------------------------------------------------------
  // stops.txt

  datatype Stop = Stop(id: string, name: string, lat: real, lon: real, locationType: int)

  /** A station or stop row (location type 0 or 1, the cell defaulting to
      0) with both coordinates present. */
  predicate IsStationRow(row: Row) {
    && Field(row, "location_type", "0") in ["0", "1"]
    && Field(row, "stop_lat", "") != ""
    && Field(row, "stop_lon", "") != ""
  }

  /** The stop a row yields, keyed by its id: a station row whose
      coordinates both parse. */
  function StopEntry(parseFloat: FloatParser, row: Row): (r: Option<(string, Stop)>)
    ensures r.Some? <==> (IsStationRow(row)
      && parseFloat(Field(row, "stop_lat", "")).Some? && parseFloat(Field(row, "stop_lon", "")).Some?)
    ensures r.Some? ==> r.value.0 == r.value.1.id == Field(row, "stop_id", "")
    ensures r.Some? ==>
      && r.value.1.lat == parseFloat(Field(row, "stop_lat", "")).value
      && r.value.1.lon == parseFloat(Field(row, "stop_lon", "")).value
      && r.value.1.name == Field(row, "stop_name", "")
      && r.value.1.locationType in {0, 1}
  {
    var id := Field(row, "stop_id", "");
    var lat := parseFloat(Field(row, "stop_lat", ""));
    var lon := parseFloat(Field(row, "stop_lon", ""));
    var lt := Field(row, "location_type", "0");
    if IsStationRow(row) && lat.Some? && lon.Some? then
      Some((id, Stop(id, Field(row, "stop_name", ""), lat.value, lon.value, if lt == "0" then 0 else 1)))
    else None
  }

  function StopsOf(rows: seq<Row>, parseFloat: FloatParser): Dict<Stop> {
    Assigned(rows, (row: Row) => StopEntry(parseFloat, row))
  }

  /** `parse_gtfs_stops`. */
  method ParseStops(file: Option<seq<Row>>, parseFloat: FloatParser) returns (stops: Dict<Stop>)
    ensures file.None? ==> stops == []
    ensures file.Some? ==> stops == StopsOf(file.value, parseFloat)
  {
    stops := [];
    if file.None? {
      return;
    }
    var rows := file.value;
    ghost var f := (row: Row) => StopEntry(parseFloat, row);
    var i := 0;
    while i < |rows|
      invariant 0 <= i <= |rows|
      invariant stops == PutEach([], KeepPairs(rows[..i], f))
    {
      AssignStep(rows, f, i);
      var e := StopEntry(parseFloat, rows[i]);
      if e.Some? {
        stops := Put(stops, e.value.0, e.value.1);
      }
      i := i + 1;
    }
    assert rows[..i] == rows;
  }

  // ---------------------------------------------------------------------
  // routes.txt

  /** A route row with both an id and a short name maps the id to the
      short name. */
  function RouteEntry(row: Row): (r: Option<(string, string)>)
    ensures r.Some? <==> Field(row, "route_id", "") != "" && Field(row, "route_short_name", "") != ""
    ensures r.Some? ==> r.value == (Field(row, "route_id", ""), Field(row, "route_short_name", ""))
  {
    var id := Field(row, "route_id", "");
    var short := Field(row, "route_short_name", "");
    if id != "" && short != "" then Some((id, short)) else None
  }

  function RoutesOf(rows: seq<Row>): Dict<string> {
    Assigned(rows, RouteEntry)
  }

  /** `parse_gtfs_routes`. */
  method ParseRoutes(file: Option<seq<Row>>) returns (routes: Dict<string>)
    ensures file.None? ==> routes == []
    ensures file.Some? ==> routes == RoutesOf(file.value)
  {
    routes := [];
    if file.None? {
      return;
    }
    var rows := file.value;
    var i := 0;
    while i < |rows|
      invariant 0 <= i <= |rows|
      invariant routes == PutEach([], KeepPairs(rows[..i], RouteEntry))
    {
      AssignStep(rows, RouteEntry, i);
      var e := RouteEntry(rows[i]);
      if e.Some? {
        routes := Put(routes, e.value.0, e.value.1);
      }
      i := i + 1;
    }
    assert rows[..i] == rows;
  }

  /** Every route kept has a non-empty id and short name. */
  lemma RoutesNonEmpty(rows: seq<Row>, id: string)
    ensures Get(RoutesOf(rows), id).Some? ==> id != "" && Get(RoutesOf(rows), id).value != ""
  {
    AssignedFromRow(rows, RouteEntry, id);
  }

  // ---------------------------------------------------------------------
  // trips.txt and stop_times.txt

  /** A trip row with a trip id and a route id maps the trip to its route. */
  function TripEntry(row: Row): (r: Option<(string, string)>)
    ensures r.Some? <==> Field(row, "trip_id", "") != "" && Field(row, "route_id", "") != ""
    ensures r.Some? ==> r.value == (Field(row, "trip_id", ""), Field(row, "route_id", ""))
  {
    var trip := Field(row, "trip_id", "");
    var route := Field(row, "route_id", "");
    if trip != "" && route != "" then Some((trip, route)) else None
  }

  function TripToRouteOf(rows: seq<Row>): Dict<string> {
    Assigned(rows, TripEntry)
  }

  /** A stop-time row names its trip's route when that route is a known
      one; the pair is (route, trip). */
  function RouteTripEntry(tripToRoute: Dict<string>, routes: Dict<string>, row: Row): (r: Option<(string, string)>)
    ensures r.Some? <==> var route := Get(tripToRoute, Field(row, "trip_id", ""));
      route.Some? && route.value != "" && HasKey(routes, route.value)
    ensures r.Some? ==> r.value == (Get(tripToRoute, Field(row, "trip_id", "")).value, Field(row, "trip_id", ""))
  {
    var trip := Field(row, "trip_id", "");
    var route := Get(tripToRoute, trip);
    if route.Some? && route.value != "" && HasKey(routes, route.value) then Some((route.value, trip)) else None
  }

  /** The first-seen order of the distinct elements. */
  function Dedup(s: seq<string>): (r: seq<string>)
    ensures forall x :: x in r <==> x in s
    ensures forall i, j :: 0 <= i < j < |r| ==> r[i] != r[j]
    ensures |s| > 0 ==> |r| > 0 && r[0] == s[0]
    decreases |s|
  {
    if |s| == 0 then []
    else
      var prev := Dedup(s[..|s| - 1]);
      assert forall x :: x in s <==> x in s[..|s| - 1] || x == s[|s| - 1] by {
        assert s == s[..|s| - 1] + [s[|s| - 1]];
      }
      assert |s| > 1 ==> s[..|s| - 1][0] == s[0];
      if s[|s| - 1] in prev then prev else prev + [s[|s| - 1]]
  }

  /** `if v not in d[k]: d[k].append(v)` on a `defaultdict(list)`. */
  function AddUnique(d: Dict<seq<string>>, k: string, v: string): Dict<seq<string>> {
    var cur := Get(d, k).GetOr([]);
    Put(d, k, if v in cur then cur else cur + [v])
  }

  /** What `AddUnique` changes: the list of `k` alone. */
  lemma AddUniqueGet(d: Dict<seq<string>>, k: string, v: string, k': string)
    ensures var cur := Get(d, k).GetOr([]);
      Get(AddUnique(d, k, v), k') == if k' == k then Some(if v in cur then cur else cur + [v]) else Get(d, k')
    ensures HasKey(AddUnique(d, k, v), k') <==> k' == k || HasKey(d, k')
  {
  }

  function UniqueGrouped(pairs: seq<(string, string)>): Dict<seq<string>>
    decreases |pairs|
  {
    if |pairs| == 0 then []
    else AddUnique(UniqueGrouped(pairs[..|pairs| - 1]), pairs[|pairs| - 1].0, pairs[|pairs| - 1].1)
  }

  /** A route's trip list holds its trips once each, in the order first
      seen, and only routes that have trips are present. */
  lemma {:induction false} UniqueGroupedGet(pairs: seq<(string, string)>, k: string)
    ensures Get(UniqueGrouped(pairs), k) == if ValuesFor(pairs, k) == [] then None else Some(Dedup(ValuesFor(pairs, k)))
    decreases |pairs|
  {
    if |pairs| > 0 {
      var init := pairs[..|pairs| - 1];
      UniqueGroupedGet(init, k);
      UniqueGroupedLast(pairs, k);
    }
  }

  /** The step of `UniqueGroupedGet` for the last pair. */
  lemma UniqueGroupedLast(pairs: seq<(string, string)>, k: string)
    requires |pairs| > 0
    requires var init := pairs[..|pairs| - 1];
      Get(UniqueGrouped(init), k) == if ValuesFor(init, k) == [] then None else Some(Dedup(ValuesFor(init, k)))
    ensures Get(UniqueGrouped(pairs), k) == if ValuesFor(pairs, k) == [] then None else Some(Dedup(ValuesFor(pairs, k)))
  {
    var init := pairs[..|pairs| - 1];
    var last := pairs[|pairs| - 1];
    var g := UniqueGrouped(init);
    var cur := Get(g, last.0).GetOr([]);
    assert UniqueGrouped(pairs) == AddUnique(g, last.0, last.1);
    AddUniqueGet(g, last.0, last.1, k);
    if k == last.0 {
      var vs := ValuesFor(pairs, k);
      assert vs == ValuesFor(init, k) + [last.1];
      DedupSnoc(ValuesFor(init, k), last.1);
      assert cur == Dedup(ValuesFor(init, k));
    } else {
      assert ValuesFor(pairs, k) == ValuesFor(init, k);
    }
  }

  lemma DedupSnoc(s: seq<string>, x: string)
    ensures Dedup(s + [x]) == if x in Dedup(s) then Dedup(s) else Dedup(s) + [x]
  {
    assert (s + [x])[..|s|] == s;
  }

  /** A route has a trip list only when some pair names it; `i` is that
      pair. */
  lemma {:induction false} UniqueGroupedKeys(pairs: seq<(string, string)>, k: string) returns (i: nat)
    requires HasKey(UniqueGrouped(pairs), k)
    ensures i < |pairs| && pairs[i].0 == k
    decreases |pairs|
  {
    var init := pairs[..|pairs| - 1];
    var last := pairs[|pairs| - 1];
    AddUniqueGet(UniqueGrouped(init), last.0, last.1, k);
    if k == last.0 {
      i := |pairs| - 1;
    } else {
      i := UniqueGroupedKeys(init, k);
      assert init[i] == pairs[i];
    }
  }

  lemma UniqueStep<R>(rows: seq<R>, f: R -> Option<(string, string)>, i: nat)
    requires i < |rows|
    ensures UniqueGrouped(KeepPairs(rows[..i + 1], f))
      == if f(rows[i]).Some? then AddUnique(UniqueGrouped(KeepPairs(rows[..i], f)), f(rows[i]).value.0, f(rows[i]).value.1)
         else UniqueGrouped(KeepPairs(rows[..i], f))
  {
    KeepPairsStep(rows, f, i);
    var prev := KeepPairs(rows[..i], f);
    if f(rows[i]).Some? {
      var x := f(rows[i]).value;
      assert KeepPairs(rows[..i + 1], f) == prev + [x];
      assert (prev + [x])[..|prev|] == prev;
      assert UniqueGrouped(prev + [x]) == AddUnique(UniqueGrouped(prev), x.0, x.1);
    } else {
      assert KeepPairs(rows[..i + 1], f) == prev;
    }
  }

  function RouteTripsOf(rows: seq<Row>, tripToRoute: Dict<string>, routes: Dict<string>): Dict<seq<string>> {
    UniqueGrouped(KeepPairs(rows, (row: Row) => RouteTripEntry(tripToRoute, routes, row)))
  }

  /** Only known routes get a trip list. */
  lemma RouteTripsKnown(rows: seq<Row>, tripToRoute: Dict<string>, routes: Dict<string>)
    ensures forall i :: 0 <= i < |RouteTripsOf(rows, tripToRoute, routes)| ==>
      HasKey(routes, RouteTripsOf(rows, tripToRoute, routes)[i].0)
  {
    var f := (row: Row) => RouteTripEntry(tripToRoute, routes, row);
    var pairs := KeepPairs(rows, f);
    var rt := RouteTripsOf(rows, tripToRoute, routes);
    forall i | 0 <= i < |rt| ensures HasKey(routes, rt[i].0) {
      assert HasKey(rt, rt[i].0);
      var j := UniqueGroupedKeys(pairs, rt[i].0);
      assert pairs[j] in pairs;
    }
  }

  /** A stop-time row with a trip, a stop and an integer sequence number. */
  function StopTimeEntry(row: Row): (r: Option<(string, (string, int))>)
    ensures r.Some? <==> (Field(row, "trip_id", "") != "" && Field(row, "stop_id", "") != ""
      && Field(row, "stop_sequence", "") != "" && ParseInt(Field(row, "stop_sequence", "")).Some?)
    ensures r.Some? ==> r.value == (Field(row, "trip_id", ""),
      (Field(row, "stop_id", ""), ParseInt(Field(row, "stop_sequence", "")).value))
  {
    var trip := Field(row, "trip_id", "");
    var stop := Field(row, "stop_id", "");
    var sequence := Field(row, "stop_sequence", "");
    if trip == "" || stop == "" || sequence == "" then None
    else match ParseInt(sequence)
      case Some(n) => Some((trip, (stop, n)))
      case None => None
  }

  function TripStationsOf(rows: seq<Row>): Dict<seq<(string, int)>> {
    Grouped(KeepPairs(rows, StopTimeEntry))
  }

  function SequenceKey(p: (string, int)): real {
    p.1 as real
  }

  /** Each key of `items` is a known route. */
  predicate KeysIn<V>(items: Dict<V>, routes: Dict<string>) {
    forall i :: 0 <= i < |items| ==> HasKey(routes, items[i].0)
  }

  /** The line table: for each route in order, its first trip's stops sorted
      by sequence number, stored under the route's short name (a later route
      with the same short name replaces an earlier one). */
  function LineStationsOf(items: Dict<seq<string>>, routes: Dict<string>, tripStations: Dict<seq<(string, int)>>)
    : Dict<seq<(string, int)>>
    requires KeysIn(items, routes)
    decreases |items|
  {
    if |items| == 0 then []
    else
      var acc := LineStationsOf(items[..|items| - 1], routes, tripStations);
      var route := items[|items| - 1].0;
      var trips := items[|items| - 1].1;
      if |trips| == 0 then acc
      else match Get(tripStations, trips[0])
        case None => acc
        case Some(st) => Put(acc, Get(routes, route).value, Sorting.SortedBy(st, SequenceKey))
  }

  /** A line's list is the stops of the first trip of some route with that
      short name, sorted by sequence number. */
  lemma {:induction false} LineFromFirstTrip(items: Dict<seq<string>>, routes: Dict<string>,
                                             tripStations: Dict<seq<(string, int)>>, line: string)
    requires KeysIn(items, routes)
    ensures var r := Get(LineStationsOf(items, routes, tripStations), line);
      r.Some? ==> exists i :: (0 <= i < |items| && |items[i].1| > 0
        && Get(routes, items[i].0) == Some(line)
        && Get(tripStations, items[i].1[0]).Some?
        && r.value == Sorting.SortedBy(Get(tripStations, items[i].1[0]).value, SequenceKey))
    decreases |items|
  {
    if |items| > 0 {
      var n := |items|;
      var init := items[..n - 1];
      LineFromFirstTrip(init, routes, tripStations, line);
      var r := Get(LineStationsOf(items, routes, tripStations), line);
      var r0 := Get(LineStationsOf(init, routes, tripStations), line);
      var trips := items[n - 1].1;
      if r.Some? {
        if |trips| > 0 && Get(tripStations, trips[0]).Some? && Get(routes, items[n - 1].0).value == line {
          assert Get(routes, items[n - 1].0) == Some(line);
        } else {
          assert r == r0;
          var i :| 0 <= i < n - 1 && |init[i].1| > 0
            && Get(routes, init[i].0) == Some(line)
            && Get(tripStations, init[i].1[0]).Some?
            && r0.value == Sorting.SortedBy(Get(tripStations, init[i].1[0]).value, SequenceKey);
          assert init[i] == items[i];
        }
      }
    }
  }

  /** Each line's list is in non-decreasing sequence order and is a
      rearrangement of the representative trip's stops. */
  lemma LineStationsSorted(items: Dict<seq<string>>, routes: Dict<string>,
                           tripStations: Dict<seq<(string, int)>>, line: string)
    requires KeysIn(items, routes)
    ensures var r := Get(LineStationsOf(items, routes, tripStations), line);
      r.Some? ==> (Sorting.SortedOn(r.value, SequenceKey)
        && exists trip :: Get(tripStations, trip).Some? && multiset(r.value) == multiset(Get(tripStations, trip).value))
  {
    LineFromFirstTrip(items, routes, tripStations, line);
    var r := Get(LineStationsOf(items, routes, tripStations), line);
    if r.Some? {
      var i :| 0 <= i < |items| && |items[i].1| > 0
        && Get(routes, items[i].0) == Some(line)
        && Get(tripStations, items[i].1[0]).Some?
        && r.value == Sorting.SortedBy(Get(tripStations, items[i].1[0]).value, SequenceKey);
      var st := Get(tripStations, items[i].1[0]).value;
      Sorting.SortedBySorted(st, SequenceKey);
      Sorting.SortedByPerm(st, SequenceKey);
    }
  }

  method BuildTripToRoute(file: Option<seq<Row>>) returns (tripToRoute: Dict<string>)
    ensures file.None? ==> tripToRoute == []
    ensures file.Some? ==> tripToRoute == TripToRouteOf(file.value)
  {
    tripToRoute := [];
    if file.None? {
      return;
    }
    var rows := file.value;
    var i := 0;
    while i < |rows|
      invariant 0 <= i <= |rows|
      invariant tripToRoute == PutEach([], KeepPairs(rows[..i], TripEntry))
    {
      AssignStep(rows, TripEntry, i);
      var e := TripEntry(rows[i]);
      if e.Some? {
        tripToRoute := Put(tripToRoute, e.value.0, e.value.1);
      }
      i := i + 1;
    }
    assert rows[..i] == rows;
  }

  method BuildRouteTrips(rows: seq<Row>, tripToRoute: Dict<string>, routes: Dict<string>)
    returns (routeTrips: Dict<seq<string>>)
    ensures routeTrips == RouteTripsOf(rows, tripToRoute, routes)
  {
    routeTrips := [];
    ghost var f := (row: Row) => RouteTripEntry(tripToRoute, routes, row);
    var i := 0;
    while i < |rows|
      invariant 0 <= i <= |rows|
      invariant routeTrips == UniqueGrouped(KeepPairs(rows[..i], f))
    {
      UniqueStep(rows, f, i);
      var e := RouteTripEntry(tripToRoute, routes, rows[i]);
      if e.Some? {
        routeTrips := AddUnique(routeTrips, e.value.0, e.value.1);
      }
      i := i + 1;
    }
    assert rows[..i] == rows;
  }

  method BuildTripStations(rows: seq<Row>) returns (tripStations: Dict<seq<(string, int)>>)
    ensures tripStations == TripStationsOf(rows)
  {
    tripStations := [];
    var i := 0;
    while i < |rows|
      invariant 0 <= i <= |rows|
      invariant tripStations == Grouped(KeepPairs(rows[..i], StopTimeEntry))
    {
      GroupStep(rows, StopTimeEntry, i);
      var e := StopTimeEntry(rows[i]);
      if e.Some? {
        tripStations := Append(tripStations, e.value.0, e.value.1);
      }
      i := i + 1;
    }
    assert rows[..i] == rows;
  }

  method BuildLineStations(routeTrips: Dict<seq<string>>, routes: Dict<string>, tripStations: Dict<seq<(string, int)>>)
    returns (lineStations: Dict<seq<(string, int)>>)
    requires KeysIn(routeTrips, routes)
    ensures lineStations == LineStationsOf(routeTrips, routes, tripStations)
  {
    lineStations := [];
    var i := 0;
    while i < |routeTrips|
      invariant 0 <= i <= |routeTrips|
      invariant KeysIn(routeTrips[..i], routes)
      invariant lineStations == LineStationsOf(routeTrips[..i], routes, tripStations)
    {
      assert routeTrips[..i + 1][..i] == routeTrips[..i];
      var (route, trips) := routeTrips[i];
      if |trips| > 0 {
        var stations := Get(tripStations, trips[0]);
        if stations.Some? {
          var sorted := Sorting.SortByKey(stations.value, SequenceKey);
          lineStations := Put(lineStations, Get(routes, route).value, sorted);
        }
      }
      i := i + 1;
    }
    assert routeTrips[..i] == routeTrips;
  }

  /** `parse_gtfs_stop_times`: the representative station list of every
      line. Without a stop-times file the table is empty. */
  method ParseStopTimes(tripsFile: Option<seq<Row>>, stopTimesFile: Option<seq<Row>>, routes: Dict<string>)
    returns (lineStations: Dict<seq<(string, int)>>)
    ensures stopTimesFile.None? ==> lineStations == []
    ensures stopTimesFile.Some? ==>
      var tripToRoute := if tripsFile.None? then [] else TripToRouteOf(tripsFile.value);
      var rows := stopTimesFile.value;
      KeysIn(RouteTripsOf(rows, tripToRoute, routes), routes)
      && lineStations == LineStationsOf(RouteTripsOf(rows, tripToRoute, routes), routes, TripStationsOf(rows))
  {
    var tripToRoute := BuildTripToRoute(tripsFile);
    if stopTimesFile.None? {
      return [];
    }
    var rows := stopTimesFile.value;
    var routeTrips := BuildRouteTrips(rows, tripToRoute, routes);
    var tripStations := BuildTripStations(rows);
    RouteTripsKnown(rows, tripToRoute, routes);
    lineStations := BuildLineStations(routeTrips, routes, tripStations);
  }

  // ---------------------------------------------------------------------
  // generate_station_coords

  /** One of two ids extends the other. */
  predicate Related(stopId: string, base: string) {
    StartsWith(stopId, base) || StartsWith(base, stopId)
  }

  /** The first key, in order, related to `base`. */
  function FirstRelated(ks: seq<string>, base: string): (r: Option<nat>)
    ensures r.Some? ==> (r.value < |ks| && Related(ks[r.value], base)
      && forall j :: 0 <= j < r.value ==> !Related(ks[j], base))
    ensures r.None? ==> forall j :: 0 <= j < |ks| ==> !Related(ks[j], base)
    decreases |ks|
  {
    if |ks| == 0 then None
    else if Related(ks[0], base) then Some(0)
    else
      var r := FirstRelated(ks[1..], base);
      if r.Some? then Some(r.value + 1) else None
  }

  /** The stop a (direction-stripped) id matches: itself when it is a stop
      id, otherwise the first stop id related to it. */
  function MatchOf(stops: Dict<Stop>, base: string): (m: Option<string>)
    ensures m.Some? ==> HasKey(stops, m.value)
    ensures HasKey(stops, base) ==> m == Some(base)
  {
    if HasKey(stops, base) then Some(base)
    else
      var ks := Keys(stops);
      var r := FirstRelated(ks, base);
      if r.Some? then Some(ks[r.value]) else None
  }

  /** An id that is not a stop id matches the first stop id, in table order,
      that extends it or that it extends, and nothing when there is none. */
  lemma MatchOfFirst(stops: Dict<Stop>, base: string)
    requires !HasKey(stops, base)
    ensures var m := MatchOf(stops, base);
      && (m.Some? ==> exists i :: (0 <= i < |stops| && stops[i].0 == m.value
            && Related(m.value, base) && forall j :: 0 <= j < i ==> !Related(stops[j].0, base)))
      && (m.None? ==> forall i :: 0 <= i < |stops| ==> !Related(stops[i].0, base))
  {
    var ks := Keys(stops);
    var r := FirstRelated(ks, base);
    if r.Some? {
      assert stops[r.value].0 == ks[r.value];
    }
  }

  /** The matching loop with its early exit. */
  method FindMatch(stops: Dict<Stop>, base: string) returns (m: Option<string>)
    ensures m == MatchOf(stops, base)
  {
    if HasKey(stops, base) {
      return Some(base);
    }
    m := None;
    var i := 0;
    while i < |stops|
      invariant 0 <= i <= |stops|
      invariant forall j :: 0 <= j < i ==> !Related(stops[j].0, base)
    {
      if Related(stops[i].0, base) {
        m := Some(stops[i].0);
        FirstRelatedIs(Keys(stops), base, i);
        return;
      }
      i := i + 1;
    }
    FirstRelatedNone(Keys(stops), base);
  }

  lemma {:induction false} FirstRelatedIs(ks: seq<string>, base: string, i: nat)
    requires i < |ks| && Related(ks[i], base) && forall j :: 0 <= j < i ==> !Related(ks[j], base)
    ensures FirstRelated(ks, base) == Some(i)
    decreases |ks|
  {
    if i > 0 {
      FirstRelatedIs(ks[1..], base, i - 1);
    }
  }

  lemma {:induction false} FirstRelatedNone(ks: seq<string>, base: string)
    requires forall j :: 0 <= j < |ks| ==> !Related(ks[j], base)
    ensures FirstRelated(ks, base).None?
    decreases |ks|
  {
    if |ks| > 0 {
      FirstRelatedNone(ks[1..], base);
    }
  }

  type Entry = (string, SubwayMap.RawStation)

  function SeenIds(es: seq<Entry>): set<string> {
    set e | e in es :: e.1.stopId
  }

  /** The match, if usable (present and non-empty), of the station at a
      position of a line's list. */
  function UsableMatch(stops: Dict<Stop>, station: (string, int)): (m: Option<string>)
    ensures m.Some? ==> m.value != "" && HasKey(stops, m.value)
  {
    var m := MatchOf(stops, RStripNS(station.0));
    if m.Some? && m.value != "" then m else None
  }

  /** One line's records: each usable match the first time it occurs, with
      order the 1-based position in the list and key `line + stop_id`. */
  function LineEntries(line: string, stations: seq<(string, int)>, stops: Dict<Stop>): (es: seq<Entry>)
    ensures forall i :: 0 <= i < |es| ==>
      es[i].0 == line + es[i].1.stopId && es[i].1.line == line && 1 <= es[i].1.order <= |stations|
    decreases |stations|
  {
    if |stations| == 0 then []
    else
      LineStep(line, LineEntries(line, stations[..|stations| - 1], stops), stations[|stations| - 1], |stations|, stops)
  }

  /** The record, if any, that the station at 1-based position `n` adds
      after the records `prev` of the stations before it. */
  function LineStep(line: string, prev: seq<Entry>, station: (string, int), n: nat, stops: Dict<Stop>): (es: seq<Entry>)
    ensures es == prev || (|es| == |prev| + 1 && es[..|prev|] == prev && es[|prev|].1.order == n)
  {
    var m := UsableMatch(stops, station);
    if m.Some? && m.value !in SeenIds(prev) then
      var st := Get(stops, m.value).value;
      prev + [(line + m.value, SubwayMap.RawStation(st.lat, st.lon, line, st.name, n, m.value))]
    else
      prev
  }

  lemma SeenIdsSnoc(es: seq<Entry>, e: Entry)
    ensures SeenIds(es + [e]) == SeenIds(es) + {e.1.stopId}
  {
    assert forall x :: x in es + [e] <==> x in es || x == e;
  }

  /** `e` is the record of `station`: its usable match, with that stop's
      coordinates and name. */
  predicate RecordOf(e: SubwayMap.RawStation, station: (string, int), stops: Dict<Stop>) {
    && UsableMatch(stops, station) == Some(e.stopId)
    && HasKey(stops, e.stopId)
    && var st := Get(stops, e.stopId).value;
      e.lat == st.lat && e.lon == st.lon && e.name == st.name
  }

  /** `x` is the record of the station at its position in `stations`. */
  predicate EntryOk(x: Entry, stations: seq<(string, int)>, stops: Dict<Stop>) {
    1 <= x.1.order <= |stations| && RecordOf(x.1, stations[x.1.order - 1], stops)
  }

  /** Each of `es` is the record of the station at its position in
      `stations`. */
  predicate RecordsOk(es: seq<Entry>, stations: seq<(string, int)>, stops: Dict<Stop>) {
    forall i :: 0 <= i < |es| ==> EntryOk(es[i], stations, stops)
  }

  lemma RecordsOkExtend(es: seq<Entry>, stations: seq<(string, int)>, stops: Dict<Stop>)
    requires |stations| > 0 && RecordsOk(es, stations[..|stations| - 1], stops)
    ensures RecordsOk(es, stations, stops)
  {
    forall i | 0 <= i < |es| ensures EntryOk(es[i], stations, stops) {
      var o := es[i].1.order;
      assert EntryOk(es[i], stations[..|stations| - 1], stops);
      assert stations[..|stations| - 1][o - 1] == stations[o - 1];
    }
  }

  lemma RecordsOkSnoc(es: seq<Entry>, e: Entry, stations: seq<(string, int)>, stops: Dict<Stop>)
    requires RecordsOk(es, stations, stops) && EntryOk(e, stations, stops)
    ensures RecordsOk(es + [e], stations, stops)
  {
    forall i | 0 <= i < |es| + 1 ensures EntryOk((es + [e])[i], stations, stops) {
      if i < |es| {
        assert (es + [e])[i] == es[i];
      } else {
        assert (es + [e])[i] == e;
      }
    }
  }

  /** Every record of a line is the record of the station at its
      position. */
  lemma {:induction false} LineEntriesRecords(line: string, stations: seq<(string, int)>, stops: Dict<Stop>)
    ensures RecordsOk(LineEntries(line, stations, stops), stations, stops)
    decreases |stations|
  {
    if |stations| > 0 {
      var n := |stations|;
      var prev := LineEntries(line, stations[..n - 1], stops);
      LineEntriesRecords(line, stations[..n - 1], stops);
      RecordsOkExtend(prev, stations, stops);
      var es := LineStep(line, prev, stations[n - 1], n, stops);
      assert LineEntries(line, stations, stops) == es;
      if |es| > |prev| {
        LineStepNew(line, prev, stations[n - 1], n, stops);
        assert es == prev + [es[|prev|]];
        RecordsOkSnoc(prev, es[|prev|], stations, stops);
      }
    }
  }

  /** The record a step adds is the record of its station, at position
      `n`. */
  lemma LineStepNew(line: string, prev: seq<Entry>, station: (string, int), n: nat, stops: Dict<Stop>)
    requires |LineStep(line, prev, station, n, stops)| > |prev|
    ensures var e := LineStep(line, prev, station, n, stops)[|prev|].1;
      e.order == n && e.stopId !in SeenIds(prev) && RecordOf(e, station, stops)
  {
  }

  /** Records in strictly increasing order, no two for the same stop. */
  predicate OrderedDistinct(es: seq<Entry>) {
    forall i, j :: 0 <= i < j < |es| ==> es[i].1.order < es[j].1.order && es[i].1.stopId != es[j].1.stopId
  }

  lemma OrderedDistinctSnoc(es: seq<Entry>, e: Entry)
    requires OrderedDistinct(es)
    requires forall i :: 0 <= i < |es| ==> es[i].1.order < e.1.order
    requires e.1.stopId !in SeenIds(es)
    ensures OrderedDistinct(es + [e])
  {
    forall i, j | 0 <= i < j < |es| + 1
      ensures (es + [e])[i].1.order < (es + [e])[j].1.order && (es + [e])[i].1.stopId != (es + [e])[j].1.stopId
    {
      assert (es + [e])[i] == es[i];
      if j < |es| {
        assert (es + [e])[j] == es[j];
      } else {
        assert es[i] in es;
      }
    }
  }

  /** A line's records follow the order of its list, and no stop gets two
      records. */
  lemma {:induction false} LineEntriesOrdered(line: string, stations: seq<(string, int)>, stops: Dict<Stop>)
    ensures OrderedDistinct(LineEntries(line, stations, stops))
    decreases |stations|
  {
    if |stations| > 0 {
      var n := |stations|;
      var prev := LineEntries(line, stations[..n - 1], stops);
      var es := LineStep(line, prev, stations[n - 1], n, stops);
      assert LineEntries(line, stations, stops) == es;
      LineEntriesOrdered(line, stations[..n - 1], stops);
      if |es| > |prev| {
        LineStepNew(line, prev, stations[n - 1], n, stops);
        assert es == prev + [es[|prev|]];
        OrderedDistinctSnoc(prev, es[|prev|]);
      }
    }
  }

  /** Every usable match in the list gets a record. */
  lemma {:induction false} LineEntriesComplete(line: string, stations: seq<(string, int)>, stops: Dict<Stop>, k: nat)
    requires k < |stations| && UsableMatch(stops, stations[k]).Some?
    ensures UsableMatch(stops, stations[k]).value in SeenIds(LineEntries(line, stations, stops))
    decreases |stations|
  {
    var n := |stations|;
    var prev := LineEntries(line, stations[..n - 1], stops);
    var es := LineEntries(line, stations, stops);
    assert es == LineStep(line, prev, stations[n - 1], n, stops);
    LineStepSeen(line, prev, stations[n - 1], n, stops);
    var id := UsableMatch(stops, stations[k]).value;
    if k < n - 1 {
      assert stations[..n - 1][k] == stations[k];
      LineEntriesComplete(line, stations[..n - 1], stops, k);
      assert id in SeenIds(prev) && SeenIds(prev) <= SeenIds(es);
    } else {
      assert id == UsableMatch(stops, stations[n - 1]).value;
    }
  }

  /** A step keeps the ids seen so far and adds the station's usable match. */
  lemma LineStepSeen(line: string, prev: seq<Entry>, station: (string, int), n: nat, stops: Dict<Stop>)
    ensures SeenIds(prev) <= SeenIds(LineStep(line, prev, station, n, stops))
    ensures UsableMatch(stops, station).Some? ==>
      UsableMatch(stops, station).value in SeenIds(LineStep(line, prev, station, n, stops))
  {
    var m := UsableMatch(stops, station);
    if m.Some? && m.value !in SeenIds(prev) {
      var st := Get(stops, m.value).value;
      SeenIdsSnoc(prev, (line + m.value, SubwayMap.RawStation(st.lat, st.lon, line, st.name, n, m.value)));
    }
  }

  /** All lines' records, line by line. */
  function AllEntries(lineStations: Dict<seq<(string, int)>>, stops: Dict<Stop>): seq<Entry>
    decreases |lineStations|
  {
    if |lineStations| == 0 then []
    else
      var last := lineStations[|lineStations| - 1];
      AllEntries(lineStations[..|lineStations| - 1], stops) + LineEntries(last.0, last.1, stops)
  }

  function StationCoordsOf(lineStations: Dict<seq<(string, int)>>, stops: Dict<Stop>): Dict<SubwayMap.RawStation> {
    PutEach([], AllEntries(lineStations, stops))
  }

  /** The inner loop of `generate_station_coords` for one line. */
  method EmitLine(result0: Dict<SubwayMap.RawStation>, line: string, stations: seq<(string, int)>, stops: Dict<Stop>)
    returns (result: Dict<SubwayMap.RawStation>)
    ensures result == PutEach(result0, LineEntries(line, stations, stops))
  {
    result := result0;
    var seen: set<string> := {};
    var j := 0;
    while j < |stations|
      invariant 0 <= j <= |stations|
      invariant result == PutEach(result0, LineEntries(line, stations[..j], stops))
      invariant seen == SeenIds(LineEntries(line, stations[..j], stops))
    {
      ghost var prev := LineEntries(line, stations[..j], stops);
      assert stations[..j + 1][..j] == stations[..j];
      assert LineEntries(line, stations[..j + 1], stops) == LineStep(line, prev, stations[j], j + 1, stops);
      var base := RStripNS(stations[j].0);
      var m := FindMatch(stops, base);
      if m.Some? && m.value != "" && m.value !in seen {
        var st := Get(stops, m.value).value;
        var e := (line + m.value, SubwayMap.RawStation(st.lat, st.lon, line, st.name, j + 1, m.value));
        EmitStep(result0, prev, e);
        result := Put(result, e.0, e.1);
        seen := seen + {m.value};
      }
      j := j + 1;
    }
    assert stations[..j] == stations;
  }

  lemma EmitStep(result0: Dict<SubwayMap.RawStation>, prev: seq<Entry>, e: Entry)
    ensures PutEach(result0, prev + [e]) == Put(PutEach(result0, prev), e.0, e.1)
    ensures SeenIds(prev + [e]) == SeenIds(prev) + {e.1.stopId}
  {
    PutEachSnoc(result0, prev, e);
    SeenIdsSnoc(prev, e);
  }

  /** `generate_station_coords`. */
  method GenerateStationCoords(stops: Dict<Stop>, lineStations: Dict<seq<(string, int)>>)
    returns (result: Dict<SubwayMap.RawStation>)
    ensures result == StationCoordsOf(lineStations, stops)
  {
    result := [];
    var i := 0;
    while i < |lineStations|
      invariant 0 <= i <= |lineStations|
      invariant result == PutEach([], AllEntries(lineStations[..i], stops))
    {
      assert lineStations[..i + 1][..i] == lineStations[..i];
      var (line, stations) := lineStations[i];
      PutEachAppend([], AllEntries(lineStations[..i], stops), LineEntries(line, stations, stops));
      result := EmitLine(result, line, stations, stops);
      i := i + 1;
    }
    assert lineStations[..i] == lineStations;
  }

  /** Every record in the dataset belongs to one line's records and so
      carries the guarantees of `LineEntries`. */
  lemma {:induction false} FromSomeLine(lineStations: Dict<seq<(string, int)>>, stops: Dict<Stop>, e: Entry)
    requires e in AllEntries(lineStations, stops)
    ensures exists i :: 0 <= i < |lineStations| && e in LineEntries(lineStations[i].0, lineStations[i].1, stops)
    decreases |lineStations|
  {
    var n := |lineStations|;
    var last := lineStations[n - 1];
    if e !in LineEntries(last.0, last.1, stops) {
      FromSomeLine(lineStations[..n - 1], stops, e);
      var i :| 0 <= i < n - 1 && e in LineEntries(lineStations[..n - 1][i].0, lineStations[..n - 1][i].1, stops);
      assert lineStations[..n - 1][i] == lineStations[i];
    }
  }

  /** A dataset record keyed `k` is the record of a stop of some line, with
      `k == line + stop_id`: it carries the stop's coordinates and name and
      the position in that line's list of the station it matched. */
  lemma DatasetRecord(lineStations: Dict<seq<(string, int)>>, stops: Dict<Stop>, k: string)
    ensures var r := Get(StationCoordsOf(lineStations, stops), k);
      r.Some? ==> (k == r.value.line + r.value.stopId && HasKey(stops, r.value.stopId)
        && exists i :: (0 <= i < |lineStations| && lineStations[i].0 == r.value.line
          && EntryOk((k, r.value), lineStations[i].1, stops)))
  {
    var all := AllEntries(lineStations, stops);
    PutEachGet([], all, k);
    var r := Get(StationCoordsOf(lineStations, stops), k);
    if r.Some? {
      FromSomeLine(lineStations, stops, (k, r.value));
      var i :| 0 <= i < |lineStations| && (k, r.value) in LineEntries(lineStations[i].0, lineStations[i].1, stops);
      var es := LineEntries(lineStations[i].0, lineStations[i].1, stops);
      var t :| 0 <= t < |es| && es[t] == (k, r.value);
      LineEntriesRecords(lineStations[i].0, lineStations[i].1, stops);
      assert EntryOk(es[t], lineStations[i].1, stops);
    }
  }

  /** The parsing pipeline of the script's entry point, from the four CSV
      files to the station dataset. */
  method BuildDataset(stopsFile: Option<seq<Row>>, routesFile: Option<seq<Row>>, tripsFile: Option<seq<Row>>,
                      stopTimesFile: Option<seq<Row>>, parseFloat: FloatParser)
    returns (coords: Dict<SubwayMap.RawStation>)
    ensures stopTimesFile.None? ==> coords == []
    ensures DistinctKeys(coords)
  {
    var stops := ParseStops(stopsFile, parseFloat);
    var routes := ParseRoutes(routesFile);
    var lineStations := ParseStopTimes(tripsFile, stopTimesFile, routes);
    coords := GenerateStationCoords(stops, lineStations);
    PutEachDistinct([], AllEntries(lineStations, stops));
  }
}
