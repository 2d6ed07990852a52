/** The map component: the station table loaded from the GTFS-derived
    dataset, the bounding box fitted around it, the per-line route
    polylines, which polylines and markers are drawn, the view chosen when
    a station is selected, and the fullscreen toggle. */
module SubwayMap {
  import opened Wrappers
  import opened Dicts
  import Sorting

  /** A station record as the dataset file holds it. */
  datatype RawStation = RawStation(lat: real, lon: real, line: string, name: string, order: int, stopId: string)

  /** A station record of the in-memory table. */
  datatype StationCoord = StationCoord(lat: real, lon: real, line: string, name: string, order: int)

  /** Station id to record, in the object's enumeration order. */
  type Table = Dict<StationCoord>

  function ToCoord(r: RawStation): StationCoord {
    StationCoord(r.lat, r.lon, r.line, r.name, r.order)
  }

  /** Every raw record converted, keys and order kept. */
  function Converted(d: Dict<RawStation>): (t: Table)
    ensures |t| == |d| && forall i :: 0 <= i < |d| ==> t[i] == (d[i].0, ToCoord(d[i].1))
  {
    if |d| == 0 then [] else [(d[0].0, ToCoord(d[0].1))] + Converted(d[1..])
  }

  /** The load step: an absent `stations` object leaves the table empty,
      otherwise every entry is copied with its five fields, in order. */
  method LoadStationTable(data: Option<Dict<RawStation>>) returns (t: Table)
    ensures data.None? ==> t == []
    ensures data.Some? && DistinctKeys(data.value) ==> t == Converted(data.value)
    ensures data.Some? ==> forall k :: HasKey(t, k) <==> HasKey(data.value, k)
  {
    t := [];
    if data.None? {
      return;
    }
    var entries := data.value;
    var i := 0;
    while i < |entries|
      invariant 0 <= i <= |entries|
      invariant forall k :: HasKey(t, k) <==> HasKey(entries[..i], k)
      invariant DistinctKeys(entries) ==> t == Converted(entries[..i])
    {
      var (id, station) := entries[i];
      ghost var prev := t;
      t := Put(t, id, ToCoord(station));
      LoadStep(entries, i, prev, t);
      i := i + 1;
    }
    assert entries[..i] == entries;
  }

  /** One iteration of the load loop keeps its invariant. */
  lemma LoadStep(entries: Dict<RawStation>, i: nat, t: Table, t': Table)
    requires i < |entries|
    requires forall k :: HasKey(t, k) <==> HasKey(entries[..i], k)
    requires DistinctKeys(entries) ==> t == Converted(entries[..i])
    requires t' == Put(t, entries[i].0, ToCoord(entries[i].1))
    ensures forall k :: HasKey(t', k) <==> HasKey(entries[..i + 1], k)
    ensures DistinctKeys(entries) ==> t' == Converted(entries[..i + 1])
  {
    if DistinctKeys(entries) {
      assert !HasKey(entries[..i], entries[i].0);
      PutNew(t, entries[i].0, ToCoord(entries[i].1));
      ConvertedSnoc(entries, i);
    }
    forall k ensures HasKey(t', k) <==> HasKey(entries[..i + 1], k) {
      assert Get(t', k).Some? <==> k == entries[i].0 || HasKey(entries[..i], k);
      HasKeyPrefix(entries, i, k);
    }
  }

  lemma ConvertedSnoc(d: Dict<RawStation>, i: nat)
    requires i < |d|
    ensures Converted(d[..i + 1]) == Converted(d[..i]) + [(d[i].0, ToCoord(d[i].1))]
  {
    var a := Converted(d[..i + 1]);
    var b := Converted(d[..i]) + [(d[i].0, ToCoord(d[i].1))];
    forall j | 0 <= j < |a| ensures a[j] == b[j] {
      assert d[..i + 1][j] == d[j];
      if j < i { assert d[..i][j] == d[j]; }
    }
  }

  // ---------------------------------------------------------------------
  // Bounds

  /** A latitude/longitude box: south-west and north-east corners. */
  datatype Bounds = Bounds(south: real, west: real, north: real, east: real)

  /** The fixed New York City box used when the table is empty. */
  const DefaultBounds := Bounds(40.5, -74.3, 41.0, -73.7)

  function MinOf(xs: seq<real>): (m: real)
    requires |xs| > 0
    ensures forall i :: 0 <= i < |xs| ==> m <= xs[i]
    ensures exists i :: 0 <= i < |xs| && xs[i] == m
  {
    if |xs| == 1 then xs[0]
    else
      var rest := MinOf(xs[1..]);
      assert forall i :: 1 <= i < |xs| ==> xs[i] == xs[1..][i - 1];
      if xs[0] <= rest then xs[0] else rest
  }

  function MaxOf(xs: seq<real>): (m: real)
    requires |xs| > 0
    ensures forall i :: 0 <= i < |xs| ==> xs[i] <= m
    ensures exists i :: 0 <= i < |xs| && xs[i] == m
  {
    if |xs| == 1 then xs[0]
    else
      var rest := MaxOf(xs[1..]);
      assert forall i :: 1 <= i < |xs| ==> xs[i] == xs[1..][i - 1];
      if xs[0] >= rest then xs[0] else rest
  }

  function Lats(t: Table): (r: seq<real>)
    ensures |r| == |t| && forall i :: 0 <= i < |t| ==> r[i] == t[i].1.lat
  {
    if |t| == 0 then [] else [t[0].1.lat] + Lats(t[1..])
  }

  function Lons(t: Table): (r: seq<real>)
    ensures |r| == |t| && forall i :: 0 <= i < |t| ==> r[i] == t[i].1.lon
  {
    if |t| == 0 then [] else [t[0].1.lon] + Lons(t[1..])
  }

  predicate Inside(s: StationCoord, b: Bounds) {
    b.south <= s.lat <= b.north && b.west <= s.lon <= b.east
  }

  /** `calculateBounds`: the fixed box for an empty table, otherwise the
      smallest box holding every station: each edge is some station's
      coordinate. */
  function CalculateBounds(t: Table): (b: Bounds)
    ensures |t| == 0 ==> b == DefaultBounds
    ensures |t| > 0 ==> forall i :: 0 <= i < |t| ==> Inside(t[i].1, b)
    ensures |t| > 0 ==>
      && (exists i :: 0 <= i < |t| && t[i].1.lat == b.south)
      && (exists i :: 0 <= i < |t| && t[i].1.lat == b.north)
      && (exists i :: 0 <= i < |t| && t[i].1.lon == b.west)
      && (exists i :: 0 <= i < |t| && t[i].1.lon == b.east)
  {
    if |t| == 0 then DefaultBounds
    else Bounds(MinOf(Lats(t)), MinOf(Lons(t)), MaxOf(Lats(t)), MaxOf(Lons(t)))
  }

  /** Any box holding every station contains the computed one: it is the
      smallest. */
  lemma BoundsAreTight(t: Table, b: Bounds)
    requires |t| > 0 && forall i :: 0 <= i < |t| ==> Inside(t[i].1, b)
    ensures var c := CalculateBounds(t);
      b.south <= c.south && c.north <= b.north && b.west <= c.west && c.east <= b.east
  {
    var c := CalculateBounds(t);
    var i1 :| 0 <= i1 < |t| && t[i1].1.lat == c.south;
    var i2 :| 0 <= i2 < |t| && t[i2].1.lat == c.north;
    var i3 :| 0 <= i3 < |t| && t[i3].1.lon == c.west;
    var i4 :| 0 <= i4 < |t| && t[i4].1.lon == c.east;
    assert Inside(t[i1].1, b) && Inside(t[i2].1, b) && Inside(t[i3].1, b) && Inside(t[i4].1, b);
  }

  // ---------------------------------------------------------------------
  // Route lines

  datatype Coord = Coord(lat: real, lon: real)

  /** The `{ order, coords }` item pushed for a station. */
  datatype Point = Point(order: int, coords: Coord)

  function PointOf(s: StationCoord): Point {
    Point(s.order, Coord(s.lat, s.lon))
  }

  function OrderKey(p: Point): real {
    p.order as real
  }

  /** The points pushed for `line`, in table order. */
  function LinePoints(vs: seq<StationCoord>, line: string): (ps: seq<Point>)
    ensures forall p :: p in ps ==> exists i :: 0 <= i < |vs| && vs[i].line == line && PointOf(vs[i]) == p
    decreases |vs|
  {
    if |vs| == 0 then []
    else
      var front := LinePoints(vs[..|vs| - 1], line);
      var last := vs[|vs| - 1];
      assert forall i :: 0 <= i < |vs| - 1 ==> vs[..|vs| - 1][i] == vs[i];
      front + (if last.line == line then [PointOf(last)] else [])
  }

  function LinesOf(vs: seq<StationCoord>): set<string> {
    set s | s in vs :: s.line
  }

  /** The points of `line`, ordered by `order`. */
  function OrderedLinePoints(vs: seq<StationCoord>, line: string): seq<Point> {
    Sorting.SortedBy(LinePoints(vs, line), OrderKey)
  }

  function CoordsOf(ps: seq<Point>): (cs: seq<Coord>)
    ensures |cs| == |ps| && forall i :: 0 <= i < |ps| ==> cs[i] == ps[i].coords
  {
    if |ps| == 0 then [] else [ps[0].coords] + CoordsOf(ps[1..])
  }

  /** The polyline of `line`: its stations' coordinates in `order`. */
  function RouteOf(t: Table, line: string): seq<Coord> {
    CoordsOf(OrderedLinePoints(Values(t), line))
  }

  /** `routeLines`: group the stations by line (one list per line that some
      station has), sort each list by `order` in place, then keep only the
      coordinates. */
  method RouteLines(t: Table) returns (routes: map<string, seq<Coord>>)
    ensures routes.Keys == LinesOf(Values(t))
    ensures forall l :: l in routes ==> routes[l] == RouteOf(t, l)
  {
    var linesMap := GroupByLine(Values(t));
    linesMap := SortEachLine(Values(t), linesMap);
    routes := CoordsOfEach(linesMap);
  }

  /** The loop keeping only the coordinates of every line's sorted list. */
  method CoordsOfEach(linesMap: map<string, seq<Point>>) returns (routes: map<string, seq<Coord>>)
    ensures routes.Keys == linesMap.Keys
    ensures forall l :: l in routes ==> routes[l] == CoordsOf(linesMap[l])
  {
    routes := map[];
    var keys := linesMap.Keys;
    while keys != {}
      invariant keys <= linesMap.Keys
      invariant routes.Keys == linesMap.Keys - keys
      invariant forall l :: l in routes ==> routes[l] == CoordsOf(linesMap[l])
      decreases keys
    {
      var lineKey :| lineKey in keys;
      routes := routes[lineKey := CoordsOf(linesMap[lineKey])];
      keys := keys - {lineKey};
    }
  }

  /** The `forEach`/`push` loop of `routeLines`. */
  method GroupByLine(vs: seq<StationCoord>) returns (linesMap: map<string, seq<Point>>)
    ensures linesMap.Keys == LinesOf(vs)
    ensures forall l :: l in linesMap ==> linesMap[l] == LinePoints(vs, l)
  {
    linesMap := map[];
    var i := 0;
    while i < |vs|
      invariant 0 <= i <= |vs|
      invariant linesMap.Keys == LinesOf(vs[..i])
      invariant forall l :: l in linesMap ==> linesMap[l] == LinePoints(vs[..i], l)
    {
      var station := vs[i];
      var points := if station.line in linesMap then linesMap[station.line] else [];
      ghost var prev := linesMap;
      linesMap := linesMap[station.line := points + [PointOf(station)]];
      GroupStep(vs, i, prev, linesMap);
      i := i + 1;
    }
    assert vs[..i] == vs;
  }

  /** One iteration of the grouping loop keeps its invariant. */
  lemma GroupStep(vs: seq<StationCoord>, i: nat, prev: map<string, seq<Point>>, linesMap: map<string, seq<Point>>)
    requires i < |vs|
    requires prev.Keys == LinesOf(vs[..i])
    requires forall l :: l in prev ==> prev[l] == LinePoints(vs[..i], l)
    requires linesMap == prev[vs[i].line := (if vs[i].line in prev then prev[vs[i].line] else []) + [PointOf(vs[i])]]
    ensures linesMap.Keys == LinesOf(vs[..i + 1])
    ensures forall l :: l in linesMap ==> linesMap[l] == LinePoints(vs[..i + 1], l)
  {
    GroupSnoc(vs, i);
    forall l | l in linesMap ensures linesMap[l] == LinePoints(vs[..i + 1], l) {
      if l == vs[i].line && l !in prev {
        LinePointsNone(vs[..i], l);
      }
    }
  }

  lemma GroupSnoc(vs: seq<StationCoord>, i: nat)
    requires i < |vs|
    ensures LinesOf(vs[..i + 1]) == LinesOf(vs[..i]) + {vs[i].line}
    ensures forall l :: (LinePoints(vs[..i + 1], l) ==
      LinePoints(vs[..i], l) + (if vs[i].line == l then [PointOf(vs[i])] else []))
  {
    assert vs[..i + 1] == vs[..i] + [vs[i]];
    assert vs[..i + 1][..i] == vs[..i];
  }

  /** The loop sorting every line's list by `order`. */
  method SortEachLine(vs: seq<StationCoord>, grouped: map<string, seq<Point>>) returns (linesMap: map<string, seq<Point>>)
    requires forall l :: l in grouped ==> grouped[l] == LinePoints(vs, l)
    ensures linesMap.Keys == grouped.Keys
    ensures forall l :: l in linesMap ==> linesMap[l] == OrderedLinePoints(vs, l)
  {
    linesMap := grouped;
    var remaining := linesMap.Keys;
    while remaining != {}
      invariant remaining <= linesMap.Keys == grouped.Keys
      invariant forall l :: l in linesMap && l !in remaining ==> linesMap[l] == OrderedLinePoints(vs, l)
      invariant forall l :: l in remaining ==> linesMap[l] == LinePoints(vs, l)
      decreases remaining
    {
      var lineKey :| lineKey in remaining;
      var sorted := Sorting.SortByKey(linesMap[lineKey], OrderKey);
      linesMap := linesMap[lineKey := sorted];
      remaining := remaining - {lineKey};
    }
  }

  lemma {:induction false} LinePointsNone(vs: seq<StationCoord>, line: string)
    requires forall s :: s in vs ==> s.line != line
    ensures LinePoints(vs, line) == []
    decreases |vs|
  {
    if |vs| > 0 {
      assert forall s :: s in vs[..|vs| - 1] ==> s in vs;
      LinePointsNone(vs[..|vs| - 1], line);
    }
  }

  /** Each line's polyline holds exactly that line's stations (as a
      multiset of points), ordered by non-decreasing `order`. */
  lemma RouteIsOrderedPermutation(t: Table, line: string)
    ensures multiset(OrderedLinePoints(Values(t), line)) == multiset(LinePoints(Values(t), line))
    ensures Sorting.SortedOn(OrderedLinePoints(Values(t), line), OrderKey)
    ensures RouteOf(t, line) == CoordsOf(OrderedLinePoints(Values(t), line))
  {
    Sorting.SortedByPerm(LinePoints(Values(t), line), OrderKey);
    Sorting.SortedBySorted(LinePoints(Values(t), line), OrderKey);
  }

  /** Every station's point is on the list of its own line; a list holds
      only points of stations of that line. */
  lemma {:induction false} StationOnOwnLine(vs: seq<StationCoord>, i: nat)
    requires i < |vs|
    ensures PointOf(vs[i]) in LinePoints(vs, vs[i].line)
    decreases |vs|
  {
    if i < |vs| - 1 {
      assert vs[..|vs| - 1][i] == vs[i];
      StationOnOwnLine(vs[..|vs| - 1], i);
    }
  }

  lemma {:induction false} LinePointsAppend(a: seq<StationCoord>, b: seq<StationCoord>, line: string)
    ensures LinePoints(a + b, line) == LinePoints(a, line) + LinePoints(b, line)
    decreases |b|
  {
    if |b| == 0 {
      assert a + b == a;
    } else {
      assert (a + b)[..|a + b| - 1] == a + b[..|b| - 1];
      LinePointsAppend(a, b[..|b| - 1], line);
    }
  }

  lemma {:induction false} LinePointsPerm(a: seq<StationCoord>, b: seq<StationCoord>, line: string)
    requires multiset(a) == multiset(b)
    ensures multiset(LinePoints(a, line)) == multiset(LinePoints(b, line))
    decreases |a|
  {
    if |a| > 0 {
      var x := a[|a| - 1];
      assert x in multiset(b);
      var k :| 0 <= k < |b| && b[k] == x;
      var b' := b[..k] + b[k + 1..];
      RemoveMatching(a, b, k);
      assert b == b[..k] + [x] + b[k + 1..];
      LinePointsPerm(a[..|a| - 1], b', line);
      LinePointsAppend(b[..k] + [x], b[k + 1..], line);
      LinePointsAppend(b[..k], [x], line);
      LinePointsAppend(b[..k], b[k + 1..], line);
      assert [x][..0] == [];
    }
  }

  /** Removing the last of `a` and its match in `b` keeps them
      permutations of each other. */
  lemma RemoveMatching(a: seq<StationCoord>, b: seq<StationCoord>, k: nat)
    requires multiset(a) == multiset(b) && |a| > 0 && k < |b| && b[k] == a[|a| - 1]
    ensures multiset(a[..|a| - 1]) == multiset(b[..k] + b[k + 1..])
  {
    var x := a[|a| - 1];
    assert b == b[..k] + [x] + b[k + 1..];
    assert a == a[..|a| - 1] + [x];
    assert multiset(b) == multiset(b[..k]) + multiset{x} + multiset(b[k + 1..]);
    assert multiset(a) == multiset(a[..|a| - 1]) + multiset{x};
    assert multiset(b[..k] + b[k + 1..]) == multiset(b[..k]) + multiset(b[k + 1..]);
    assert multiset(a[..|a| - 1]) == multiset(a) - multiset{x};
    assert multiset(b[..k] + b[k + 1..]) == multiset(b) - multiset{x};
  }

  /** `order` values are distinct among one line's stations. */
  predicate DistinctOrders(vs: seq<StationCoord>, line: string) {
    forall i, j :: 0 <= i < j < |vs| && vs[i].line == line && vs[j].line == line ==> vs[i].order != vs[j].order
  }

  lemma DistinctOrdersInjective(vs: seq<StationCoord>, line: string)
    requires DistinctOrders(vs, line)
    ensures Sorting.KeyInjective(multiset(LinePoints(vs, line)), OrderKey)
  {
    var ps := LinePoints(vs, line);
    forall p, q | p in multiset(ps) && q in multiset(ps) && OrderKey(p) == OrderKey(q) ensures p == q {
      assert p in ps && q in ps;
      var i :| 0 <= i < |vs| && vs[i].line == line && PointOf(vs[i]) == p;
      var j :| 0 <= j < |vs| && vs[j].line == line && PointOf(vs[j]) == q;
      assert i == j;
    }
  }

  /** Rebuilding from the same station records listed in another order
      yields the same polyline for a line whose orders are distinct. */
  lemma RouteIndependentOfTableOrder(t1: Table, t2: Table, line: string)
    requires multiset(Values(t1)) == multiset(Values(t2))
    requires DistinctOrders(Values(t1), line)
    ensures RouteOf(t1, line) == RouteOf(t2, line)
  {
    LinePointsPerm(Values(t1), Values(t2), line);
    DistinctOrdersInjective(Values(t1), line);
    Sorting.SortedByCanonical(LinePoints(Values(t1), line), LinePoints(Values(t2), line), OrderKey);
  }

  // ---------------------------------------------------------------------
  // What is drawn

  /** A drawn polyline; `highlighted` stands for the selected-line style. */
  datatype Polyline = Polyline(line: string, positions: seq<Coord>, highlighted: bool)

  /** The polylines drawn for the route map and the `line` prop. */
  function DrawnPolylines(routes: map<string, seq<Coord>>, selectedLine: Option<string>): (ps: set<Polyline>)
    ensures forall p :: p in ps <==>
      p.line in routes && |routes[p.line]| >= 2 && p.positions == routes[p.line]
      && p.highlighted == (selectedLine == Some(p.line))
  {
    set l | l in routes && |routes[l]| >= 2 :: Polyline(l, routes[l], selectedLine == Some(l))
  }

  /** Which lines get a polyline does not depend on the selected line. */
  lemma SelectionOnlyRestyles(routes: map<string, seq<Coord>>, s1: Option<string>, s2: Option<string>, l: string)
    ensures (exists p :: p in DrawnPolylines(routes, s1) && p.line == l)
        <==> (exists p :: p in DrawnPolylines(routes, s2) && p.line == l)
    ensures (exists p :: p in DrawnPolylines(routes, s1) && p.line == l) <==> l in routes && |routes[l]| >= 2
  {
    if l in routes && |routes[l]| >= 2 {
      assert Polyline(l, routes[l], s1 == Some(l)) in DrawnPolylines(routes, s1);
      assert Polyline(l, routes[l], s2 == Some(l)) in DrawnPolylines(routes, s2);
    }
  }

  /** The `selectedStation` prop; `lat`/`lon` may be missing. */
  datatype SelectedStation = SelectedStation(id: string, name: string, lat: Option<real>, lon: Option<real>)

  /** JavaScript truthiness of an optional number (missing or 0 is falsy). */
  predicate TruthyNumber(x: Option<real>) {
    x.Some? && x.value != 0.0
  }

  /** JavaScript truthiness of an optional string (missing or '' is falsy). */
  predicate TruthyString(s: Option<string>) {
    s.Some? && s.value != ""
  }

  predicate IsSelectedStation(id: string, sel: Option<SelectedStation>) {
    sel.Some? && sel.value.id == id
  }

  predicate OnSelectedLine(st: StationCoord, line: Option<string>) {
    TruthyString(line) && st.line == line.value
  }

  /** A drawn station marker; `selected` stands for the selected style. */
  datatype Marker = Marker(id: string, station: StationCoord, selected: bool)

  /** The markers drawn, in table order: the selected station and the
      stations of the selected line, nothing else. */
  function VisibleMarkers(t: Table, sel: Option<SelectedStation>, line: Option<string>): (ms: seq<Marker>)
    ensures forall m :: m in ms <==>
      (m.id, m.station) in t && m.selected == IsSelectedStation(m.id, sel)
      && (IsSelectedStation(m.id, sel) || OnSelectedLine(m.station, line))
    ensures |ms| <= |t|
  {
    if |t| == 0 then []
    else
      var (id, st) := t[0];
      var rest := VisibleMarkers(t[1..], sel, line);
      assert forall e :: e in t <==> e == t[0] || e in t[1..];
      if IsSelectedStation(id, sel) || OnSelectedLine(st, line)
      then [Marker(id, st, IsSelectedStation(id, sel))] + rest
      else rest
  }

  // ---------------------------------------------------------------------
  // Focused view

  datatype View = View(lat: real, lon: real, zoom: int)

  const FocusZoom := 15

  /** `MapUpdater`: the view set for a selection, or `None` when the view is
      left as it is. */
  function FocusedView(sel: Option<SelectedStation>, t: Table): (v: Option<View>)
  {
    if sel.Some? && TruthyNumber(sel.value.lat) && TruthyNumber(sel.value.lon) then
      Some(View(sel.value.lat.value, sel.value.lon.value, FocusZoom))
    else if sel.Some? && sel.value.id != "" && Get(t, sel.value.id).Some? then
      var st := Get(t, sel.value.id).value;
      Some(View(st.lat, st.lon, FocusZoom))
    else None
  }

  /** The focused view is always at zoom 15 and centred either on the
      selection's own coordinates or on its table record; the table is only
      consulted when the selection lacks usable coordinates; with neither the
      view is kept. */
  lemma FocusRules(sel: Option<SelectedStation>, t: Table, t': Table)
    ensures FocusedView(sel, t).Some? ==> FocusedView(sel, t).value.zoom == 15
    ensures sel.Some? && TruthyNumber(sel.value.lat) && TruthyNumber(sel.value.lon) ==>
      FocusedView(sel, t) == FocusedView(sel, t')
      && FocusedView(sel, t) == Some(View(sel.value.lat.value, sel.value.lon.value, 15))
    ensures FocusedView(sel, t).Some? ==>
      sel.Some? && ((TruthyNumber(sel.value.lat) && TruthyNumber(sel.value.lon))
                    || exists i :: 0 <= i < |t| && t[i].0 == sel.value.id
                                   && FocusedView(sel, t).value == View(t[i].1.lat, t[i].1.lon, 15))
    ensures FocusedView(sel, t).None? <==>
      (sel.None? || ((!TruthyNumber(sel.value.lat) || !TruthyNumber(sel.value.lon))
                     && (sel.value.id == "" || !HasKey(t, sel.value.id))))
  {
  }

  // ---------------------------------------------------------------------
  // Component state

  /** The component: bounds and route lines are computed once from the
      table; `isFullscreen` is its one piece of mutable state. */
  class MapComponent {
    const table: Table
    const bounds: Bounds
    const routes: map<string, seq<Coord>>
    var isFullscreen: bool

    constructor (t: Table)
      ensures table == t && bounds == CalculateBounds(t)
      ensures routes.Keys == LinesOf(Values(t)) && forall l :: l in routes ==> routes[l] == RouteOf(t, l)
      ensures !isFullscreen
    {
      table := t;
      bounds := CalculateBounds(t);
      var r := RouteLines(t);
      routes := r;
      isFullscreen := false;
    }

    /** `toggleFullscreen`: flips the flag; nothing else is writable. */
    method ToggleFullscreen()
      modifies this`isFullscreen
      ensures isFullscreen == !old(isFullscreen)
    {
      isFullscreen := !isFullscreen;
    }
  }
}
