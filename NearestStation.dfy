/** The nearest-station panel: with a known position, the candidate
    stations that have coordinates, paired with their distance, sorted by
    distance and cut to the first five. */
module NearestStation {
  import opened Wrappers
  import opened Dicts
  import Sorting

  /** A candidate station; its own coordinates are not used for distance. */
  datatype Station = Station(id: string, name: string, lat: Option<real>, lon: Option<real>)

  /** A record of the component's own coordinate table. */
  datatype CoordEntry = CoordEntry(lat: real, lon: real, line: string, name: string)

  datatype Nearest = Nearest(station: Station, distance: real)

  /** `calculateDistance(lat1, lon1, lat2, lon2)`, the Haversine distance in
      metres, taken as given. */
  type DistanceFn = (real, real, real, real) -> real

  /** The component's coordinate table. */
  const StationCoords: Dict<CoordEntry> := [
    ("101", CoordEntry(40.8892, -73.9026, "1", "Van Cortlandt Park-242 St")),
    ("103", CoordEntry(40.8847, -73.9009, "1", "238 St")),
    ("104", CoordEntry(40.8788, -73.9048, "1", "231 St")),
    ("106", CoordEntry(40.8694, -73.9151, "1", "215 St")),
    ("107", CoordEntry(40.8649, -73.9189, "1", "207 St")),
    ("120", CoordEntry(40.7614, -73.9776, "1", "Times Sq-42 St")),
    ("121", CoordEntry(40.7555, -73.9872, "1", "34 St-Penn Station")),
    ("122", CoordEntry(40.7504, -73.9911, "1", "28 St")),
    ("123", CoordEntry(40.7456, -73.9943, "1", "23 St")),
    ("124", CoordEntry(40.7400, -73.9976, "1", "18 St")),
    ("125", CoordEntry(40.7347, -74.0018, "1", "14 St-Union Sq")),
    ("126", CoordEntry(40.7305, -74.0052, "1", "Christopher St-Sheridan Sq")),
    ("127", CoordEntry(40.7253, -74.0089, "1", "Houston St")),
    ("128", CoordEntry(40.7183, -74.0132, "1", "Canal St")),
    ("129", CoordEntry(40.7130, -74.0166, "1", "Franklin St")),
    ("130", CoordEntry(40.7076, -74.0201, "1", "Chambers St")),
    ("131", CoordEntry(40.7014, -74.0132, "1", "WTC Cortlandt")),
    ("132", CoordEntry(40.6944, -74.0106, "1", "Rector St")),
    ("133", CoordEntry(40.6881, -74.0106, "1", "South Ferry")),
    ("A01", CoordEntry(40.8681, -73.9199, "A", "Inwood-207 St")),
    ("A02", CoordEntry(40.8655, -73.9272, "A", "Dyckman St")),
    ("A03", CoordEntry(40.8584, -73.9332, "A", "190 St")),
    ("A09", CoordEntry(40.7617, -73.9778, "A", "42 St-Port Authority")),
    ("A10", CoordEntry(40.7555, -73.9872, "A", "34 St-Penn Station")),
    ("A11", CoordEntry(40.7504, -73.9911, "A", "23 St")),
    ("A12", CoordEntry(40.7456, -73.9943, "A", "14 St")),
    ("A13", CoordEntry(40.7347, -74.0018, "A", "W 4 St-Wash Sq")),
    ("A14", CoordEntry(40.7305, -74.0052, "A", "Spring St")),
    ("A15", CoordEntry(40.7253, -74.0089, "A", "Canal St")),
    ("A16", CoordEntry(40.7183, -74.0132, "A", "Chambers St")),
    ("A17", CoordEntry(40.7130, -74.0166, "A", "Fulton St")),
    ("A18", CoordEntry(40.7076, -74.0201, "A", "High St")),
    ("A19", CoordEntry(40.7014, -74.0132, "A", "Jay St-MetroTech"))
  ]

  /** How many entries the panel keeps. */
  const TopCount := 5

  /** The `map`/`filter` steps: each candidate with a table entry, paired
      with its distance from the position, in candidate order. */
  function WithDistances(stations: seq<Station>, coords: Dict<CoordEntry>, lat: real, lon: real, dist: DistanceFn): (r: seq<Nearest>)
    ensures |r| <= |stations|
    ensures forall n :: n in r ==>
      (n.station in stations && HasKey(coords, n.station.id)
       && n.distance == DistanceOf(n.station, coords, lat, lon, dist))
    ensures forall i :: 0 <= i < |stations| && HasKey(coords, stations[i].id) ==>
      Nearest(stations[i], DistanceOf(stations[i], coords, lat, lon, dist)) in r
    decreases |stations|
  {
    if |stations| == 0 then []
    else
      var rest := WithDistances(stations[1..], coords, lat, lon, dist);
      assert forall s :: s in stations[1..] ==> s in stations;
      assert forall i :: 0 < i < |stations| ==> stations[i] == stations[1..][i - 1];
      match Get(coords, stations[0].id)
      case None => rest
      case Some(c) => [Nearest(stations[0], dist(lat, lon, c.lat, c.lon))] + rest
  }

  /** How many candidates have a table entry. */
  function CountWithCoords(stations: seq<Station>, coords: Dict<CoordEntry>): nat
    decreases |stations|
  {
    if |stations| == 0 then 0
    else (if HasKey(coords, stations[0].id) then 1 else 0) + CountWithCoords(stations[1..], coords)
  }

  lemma {:induction false} WithDistancesCount(stations: seq<Station>, coords: Dict<CoordEntry>, lat: real, lon: real, dist: DistanceFn)
    ensures |WithDistances(stations, coords, lat, lon, dist)| == CountWithCoords(stations, coords)
    decreases |stations|
  {
    if |stations| > 0 {
      WithDistancesCount(stations[1..], coords, lat, lon, dist);
    }
  }

  /** The candidates keep their order: the list for two runs of candidates is
      the list for the first followed by the list for the second. */
  lemma {:induction false} WithDistancesAppend(a: seq<Station>, b: seq<Station>, coords: Dict<CoordEntry>,
                                               lat: real, lon: real, dist: DistanceFn)
    ensures WithDistances(a + b, coords, lat, lon, dist)
      == WithDistances(a, coords, lat, lon, dist) + WithDistances(b, coords, lat, lon, dist)
    decreases |a|
  {
    if |a| == 0 {
      assert a + b == b;
    } else {
      assert (a + b)[0] == a[0] && (a + b)[1..] == a[1..] + b;
      WithDistancesAppend(a[1..], b, coords, lat, lon, dist);
    }
  }

  function DistanceKey(n: Nearest): real {
    n.distance
  }

  /** Distance of a candidate that has a table entry. */
  function DistanceOf(s: Station, coords: Dict<CoordEntry>, lat: real, lon: real, dist: DistanceFn): real
    requires HasKey(coords, s.id)
  {
    var c := Get(coords, s.id).value;
    dist(lat, lon, c.lat, c.lon)
  }

  /** The first `TopCount` entries by distance. */
  function TopOfSorted(all: seq<Nearest>): (r: seq<Nearest>)
    ensures |r| == if TopCount <= |all| then TopCount else |all|
    ensures Sorting.SortedOn(r, DistanceKey)
    ensures multiset(r) <= multiset(all)
    ensures forall x, y :: x in multiset(all) - multiset(r) && y in r ==> DistanceKey(y) <= DistanceKey(x)
  {
    Sorting.TakeSmallest(all, DistanceKey, TopCount);
    Sorting.SortedBy(all, DistanceKey)[..if TopCount <= |all| then TopCount else |all|]
  }

  /** The `sort`/`slice(0, 5)` steps: the five (or fewer) candidates closest
      to the position, nearest first. */
  function NearestStations(stations: seq<Station>, coords: Dict<CoordEntry>, lat: real, lon: real, dist: DistanceFn): (r: seq<Nearest>)
    ensures |r| == if TopCount <= CountWithCoords(stations, coords) then TopCount else CountWithCoords(stations, coords)
    ensures Sorting.SortedOn(r, DistanceKey)
    ensures multiset(r) <= multiset(WithDistances(stations, coords, lat, lon, dist))
    ensures forall x, y ::
      x in multiset(WithDistances(stations, coords, lat, lon, dist)) - multiset(r) && y in r ==> DistanceKey(y) <= DistanceKey(x)
  {
    WithDistancesCount(stations, coords, lat, lon, dist);
    TopOfSorted(WithDistances(stations, coords, lat, lon, dist))
  }

  /** Every entry of the panel is one of the candidates, has a table entry,
      and carries its distance from the position. */
  lemma NearestAreCandidates(stations: seq<Station>, coords: Dict<CoordEntry>, lat: real, lon: real, dist: DistanceFn)
    ensures forall n :: n in NearestStations(stations, coords, lat, lon, dist) ==>
      (n.station in stations && HasKey(coords, n.station.id)
       && n.distance == DistanceOf(n.station, coords, lat, lon, dist))
  {
    var r := NearestStations(stations, coords, lat, lon, dist);
    var all := WithDistances(stations, coords, lat, lon, dist);
    forall n | n in r
      ensures n.station in stations && HasKey(coords, n.station.id)
      ensures n.distance == DistanceOf(n.station, coords, lat, lon, dist)
    {
      assert n in multiset(all);
    }
  }

  /** The panel holds the closest candidates: a candidate with a table entry
      that is not on it is at least as far as every station that is. */
  lemma NearestAreClosest(stations: seq<Station>, coords: Dict<CoordEntry>, lat: real, lon: real, dist: DistanceFn, i: nat)
    requires i < |stations| && HasKey(coords, stations[i].id)
    ensures var x := Nearest(stations[i], DistanceOf(stations[i], coords, lat, lon, dist));
      var r := NearestStations(stations, coords, lat, lon, dist);
      x in r || forall y :: y in r ==> y.distance <= x.distance
  {
    var x := Nearest(stations[i], DistanceOf(stations[i], coords, lat, lon, dist));
    var r := NearestStations(stations, coords, lat, lon, dist);
    var all := WithDistances(stations, coords, lat, lon, dist);
    if x !in r {
      assert x in multiset(all) - multiset(r);
      forall y | y in r ensures y.distance <= x.distance {
        assert DistanceKey(y) <= DistanceKey(x);
      }
    }
  }

  /** JavaScript truthiness of a nullable number (null or 0 is falsy). */
  predicate Truthy(x: Option<real>) {
    x.Some? && x.value != 0.0
  }

  /** What pressing "find nearest" does. */
  datatype FindAction = RequestPosition | SetNearest(nearest: seq<Nearest>)

  /** `findNearest`: without a usable position it asks for one (the list is
      left as it was); otherwise it replaces the list. */
  function FindNearest(latitude: Option<real>, longitude: Option<real>, stations: seq<Station>, dist: DistanceFn): (a: FindAction)
    ensures a.RequestPosition? <==> !Truthy(latitude) || !Truthy(longitude)
    ensures a.SetNearest? ==> a.nearest == NearestStations(stations, StationCoords, latitude.value, longitude.value, dist)
  {
    if !Truthy(latitude) || !Truthy(longitude) then RequestPosition
    else SetNearest(NearestStations(stations, StationCoords, latitude.value, longitude.value, dist))
  }

  /** The effect run when the position or the candidates change: it
      recomputes only with a usable position and a non-empty candidate list,
      otherwise the previous list stays. */
  function AutoFind(latitude: Option<real>, longitude: Option<real>, stations: seq<Station>, dist: DistanceFn, previous: seq<Nearest>): (r: seq<Nearest>)
    ensures !(Truthy(latitude) && Truthy(longitude) && |stations| > 0) ==> r == previous
  {
    if Truthy(latitude) && Truthy(longitude) && |stations| > 0
    then NearestStations(stations, StationCoords, latitude.value, longitude.value, dist)
    else previous
  }

  /** No candidates, no result. */
  lemma NoCandidatesNoResult(coords: Dict<CoordEntry>, lat: real, lon: real, dist: DistanceFn)
    ensures NearestStations([], coords, lat, lon, dist) == []
  {
  }

  /** The button and the effect agree: whenever both recompute they produce
      the same list, and with no candidates the button yields the empty list. */
  lemma FindNearestAgreesWithEffect(latitude: Option<real>, longitude: Option<real>, stations: seq<Station>, dist: DistanceFn, previous: seq<Nearest>)
    ensures FindNearest(latitude, longitude, stations, dist).SetNearest? && |stations| > 0 ==>
      AutoFind(latitude, longitude, stations, dist, previous) == FindNearest(latitude, longitude, stations, dist).nearest
    ensures FindNearest(latitude, longitude, stations, dist).SetNearest? && |stations| == 0 ==>
      FindNearest(latitude, longitude, stations, dist).nearest == []
  {
  }
}
