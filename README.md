# NYC subway ETA platform — a Dafny model of its core

This project models the data path of a platform that shows New York City subway
arrival times:

- **The static dataset.** An offline script reads the static GTFS tables (stops,
  routes, trips, stop times). From them it builds the station-coordinate dataset
  the map loads: one record per stop of each line, keyed `line + stop_id`.
- **The worker.** Each cycle it fetches every realtime feed and extracts the
  future arrivals of each target line, grouped by `"{stop_id}:{direction}"`. It
  caches the three soonest trains for each group under
  `eta:{line}:{station}:{direction}`, with a 300-second lifetime, and publishes
  one "processed" event per feed.
- **The API.** Its cache service reads those entries back. The `/eta` router
  validates the request and chooses the HTTP status (400, 404 or 500). It cuts
  every direction to three trains and takes the station name from the first
  entry that has one.
- **The frontend.**
  - The map loads the station table, fits a bounding box around it, builds one
    polyline per line ordered by `order`, decides which polylines and markers are
    drawn, and centres the view on the selected station.
  - The nearest-station panel keeps the five closest candidates.
  - The geolocation hook is a small state machine; its `formatDistance` is
    modelled here.
  - The station selector fetches a line's stations, falling back to built-in
    lists.

Files, one module each:

- Support modules:
  - `Wrappers` (Option);
  - `Dicts`, an insertion-ordered dictionary as an association list, standing for
    Python dicts and JavaScript objects;
  - `Strings` (ASCII upper-casing, `strip` on Python's whitespace set,
    `rstrip("NS")`, `split(":")`, and `int()`-style numerals with
    underscore-grouped digits);
  - `Sorting` (a stable sort by key, specified as a function and implemented as an
    in-place insertion sort on an array);
  - `Config`, the configuration constants: `TARGET_LINES`, the seven feed names,
    `SUPPORTED_LINES` and the 300 s lifetime.
- Backend: `GtfsParser`, `RedisStore` (the key-value store as a class with
  `SETEX`), `CacheService`, `RedisService`, `EtaRouter` and `Worker`.
- Script: `GtfsStatic`.
- Frontend: `SubwayMap`, `NearestStation`, `Geolocation` and `StationSelector`.

Where behaviour changes state, the model uses methods with loops and invariants:

- the worker's cycle, as a `WorkerService` class;
- the cache writes, as the `Store` class;
- the dictionary-filling loops of the script;
- the map's grouping and sorting loops;
- the geolocation and selector state, as classes.

Methods that compute a result or fill a collection with a loop are proved equal
to a specification function, and the properties are proved about those
functions. `LoadStationTable` is equal to `Converted` when the dataset's keys are
distinct; otherwise it has the same keys.

The methods of the state classes instead state their new state field by field:
- `GeoState`;
- `Selector`;
- `Store.SetEx`;
- `MapComponent.ToggleFullscreen`.

Behaviour of the code that the model keeps:

- The station table is loaded without validation.
- The nearest-station sort has no id tie-break. It is a stable sort by distance
  alone.
- The selected line's polyline is drawn only when it has at least two points,
  like every other line.
- A Redis outage during a `GET /eta` gives 404, not 500, because `get_eta` logs
  and skips failed reads.
- A negative `ttl` makes `set_eta` fail. A zero or missing `ttl` falls back to the
  default.

## Model

| member | source | states |
|---|---|---|
| GtfsParser.Direction | backend/worker/services/gtfs_parser.py:65-68 | The direction is "S" exactly when `direction_id` is present and equal to 1, and "N" otherwise. |
| GtfsParser.EtaMinutes | backend/worker/services/gtfs_parser.py:81-82 | The ETA is the whole number of minutes to the arrival, truncated: `60*m <= arrival-now < 60*(m+1)`, and never negative. |
| GtfsParser.StopRecordsOk | backend/worker/services/gtfs_parser.py:71-94 | Each record of a trip is the record of one of its stop updates: an arrival with a time in the future, keyed by stop and direction. |
| GtfsParser.RecordsOk | backend/worker/services/gtfs_parser.py:49-94 | Every extracted record comes from an entity with a trip update whose route is a target line (and the requested line, when one is given). |
| GtfsParser.ExtractEtas | backend/worker/services/gtfs_parser.py:35-96 | The nested loop builds exactly the grouping, by key, of the records in feed order. |
| GtfsParser.ExtractTrip | backend/worker/services/gtfs_parser.py:71-94 | The inner loop appends one train per future arrival to its key's list. |
| GtfsParser.ExtractStep | backend/worker/services/gtfs_parser.py:80-94 | One stop update either appends its train under `"{stop}:{dir}"` or changes nothing. |
| GtfsParser.StopRecordsStep | backend/worker/services/gtfs_parser.py:74-94 | A trip's records for one more stop update are the earlier records, plus that update's record when its arrival is in the future. |
| GtfsParser.EtaEntries | backend/worker/services/gtfs_parser.py:35-96 | A key of the result has a non-empty list, and every train in it is a valid record of that key. |
| GtfsParser.RecordFacts | backend/worker/services/gtfs_parser.py:56-94 | Every stored train arrives after `now`, has its truncated non-negative minute count, status `on_time` and a target route (the requested one, when given), and its key is `"{stop}:N"` or `"{stop}:S"`. |
| GtfsParser.NoTripUpdateNoRecords | backend/worker/services/gtfs_parser.py:50-51 | Entities without a trip update contribute nothing. |
| GtfsParser.StationKeySplits | backend/worker/services/gtfs_parser.py:84 | A key built from a stop id without ':' splits back, under `split(":")`, into that stop id and the direction. |
| RedisStore.EtaKeyInjective | backend/worker/services/cache_service.py:69 | Equal `eta:` keys for one line come from equal `"{station}:{direction}"` grouping keys. |
| RedisStore.WrittenGet | backend/worker/services/cache_service.py:79-85 | After a sequence of SETEX writes, each key holds the last value written to it with its lifetime, or what it held before when no write names it. |
| RedisStore.WrittenAppend | backend/worker/main.py:95-108 | Writing two batches in turn is the same as writing their concatenation. |
| RedisStore.Store.SetEx | backend/api/services/redis_service.py:108-115 | A write succeeds exactly when the server is reachable and the lifetime is positive. It then sets that key alone; otherwise nothing changes. |
| CacheService.SoonestFacts | backend/worker/services/cache_service.py:66-67 | The kept trains are at most three of the given ones, sorted by ETA, and no train left out arrives sooner than one kept. |
| CacheService.CacheRunFails | backend/worker/services/cache_service.py:63-64 | The loop stops (a `ValueError` is raised) exactly when some key does not contain exactly one ':'. |
| CacheService.CacheRunWrites | backend/worker/services/cache_service.py:63-88 | There is at most one write per group. Each write is its group's record, under `eta:{line}:{station}:{direction}`, and the server accepted it. |
| CacheService.CacheRunComplete | backend/worker/services/cache_service.py:79-88 | A rejected write does not stop the loop: every accepted group before the first malformed key is written. |
| CacheService.CacheRunStopped | backend/worker/services/cache_service.py:63-64 | Once the loop has raised, the remaining groups write nothing. |
| CacheService.UpdateEtas | backend/worker/services/cache_service.py:43-90 | The store ends as the sequence of accepted writes applied to its old contents, each with lifetime 300. The count is the number of writes, or none when the method raised. |
| RedisService.EtaLookupCases | backend/api/services/redis_service.py:55-73 | With a direction, the reply is that direction upper-cased, or none. Without one, it is the entry for N and then the entry for S, each when found, and none when neither is. |
| RedisService.LookupFound | backend/api/services/redis_service.py:58-71 | Every entry of the reply is a requested direction whose stored object holds exactly those trains. |
| RedisService.UnreachableFindsNothing | backend/api/services/redis_service.py:70-71 | With the server unreachable, every read is logged and skipped, so nothing is found. |
| RedisService.ReadTrains | backend/api/services/redis_service.py:61-71 | A read contributes exactly when the key holds JSON that decodes to an object. The empty text, non-JSON text and non-objects are skipped. |
| RedisService.GetEta | backend/api/services/redis_service.py:43-73 | The loop returns the lookup of the store's current contents, or `None` when it finds nothing. |
| RedisService.EffectiveTtlPositive | backend/api/services/redis_service.py:109 | `ttl or 300` is positive unless the given lifetime is negative, and is 300 when the lifetime is missing or zero. |
| RedisService.SetEta | backend/api/services/redis_service.py:75-115 | It succeeds exactly when the server is reachable and the effective lifetime is positive, and then stores the record under its `eta:` key. |
| RedisService.SetThenGet | backend/api/services/redis_service.py:43-115 | After `set_eta` for an upper-case direction, `get_eta` for that direction returns exactly the written trains. |
| RedisService.GetStations | backend/api/services/redis_service.py:117-126 | It returns the decoded value exactly when `stations:{line}` holds JSON and the server is reachable. |
| RedisService.LastWriteIs | backend/worker/services/cache_service.py:79-85 | When every write to a key carries the same value, the last one does too. |
| RedisService.CachedThenServed | backend/api/services/redis_service.py:43-73 | This links the worker and the API. For an accepted group whose key and every earlier key split, the API's lookup of that station and direction returns the group's three soonest trains. |
| EtaRouter.FirstThree | backend/api/routers/eta.py:88 | The result is a prefix of at most three trains, and the whole list when it has three or fewer. |
| EtaRouter.ShapedFacts | backend/api/routers/eta.py:84-89 | The reply keeps every direction in order and cuts each to its first three trains. |
| EtaRouter.NameOfFirst | backend/api/routers/eta.py:90-97 | The station name is that of the first direction whose entry has a non-empty name. When none has one, the name is not a non-empty string. |
| EtaRouter.EtaReplyStatus | backend/api/routers/eta.py:51-113 | 400 exactly for an unsupported line or a direction other than N/S in either case. 404 exactly for a valid request with nothing cached. 500 exactly when a cached train fails the reply model. No other status. |
| EtaRouter.EtaReplyShape | backend/api/routers/eta.py:84-104 | A success names the upper-cased supported line and keeps every found direction in query order, each with at most its first three trains. |
| EtaRouter.UnreachableIsNotFound | backend/api/routers/eta.py:69-77 | A valid request while Redis is down is answered 404 with the "No ETA data found" detail. |
| EtaRouter.GetEta | backend/api/routers/eta.py:27-113 | The handler's reply equals the specification `EtaReply` of the store. |
| EtaRouter.ShapeReply | backend/api/routers/eta.py:81-97 | The loop keeps validity exactly as `AllValid`, and builds the reply's directions and station name. |
| EtaRouter.StationsReplyCases | backend/api/routers/eta.py:116-143 | 400 exactly for an unsupported line. 500 exactly for a truthy stored value that is not an object, which fails `response_model=dict`. Otherwise the stored object when it is truthy, and `{"line": line, "stations": []}` in every other case, a missing key among them. |
| Worker.FeedLinesFacts | backend/worker/main.py:88-93 | A feed's lines are exactly the target lines its mapping lists, in `TARGET_LINES` order, and none for an unmapped feed. |
| Worker.MappedNonTargetsSkipped | backend/worker/main.py:78-93 | "S" and "H" appear in the mapping but are not target lines, so they are never processed. |
| Worker.TargetLinesCovered | backend/worker/main.py:78-93 | Every target line is carried by one of the configured feeds. |
| Worker.FilterOrdered | backend/worker/main.py:90-93 | The list comprehension keeps the order of `TARGET_LINES`. |
| Worker.EventsFacts | backend/worker/main.py:110-112 | At most one event per feed. Each names a parsed feed and exactly its non-empty list of lines. |
| Worker.ProcessedFrom | backend/worker/main.py:108 | Every processed line comes from a parsed feed that carries it. |
| Worker.FeedWritesUnnamed | backend/worker/main.py:95-106 | The worker passes no station names, so every cached record has none. Each is stored under the key of one of the feed's lines. |
| Worker.CycleStep | backend/worker/main.py:60-112 | One more feed extends the processed lines, the events and the writes by exactly that feed's part: nothing when it was not fetched or did not parse. |
| Worker.WorkerService.ProcessCycle | backend/worker/main.py:55-112 | One pass over the feeds returns the processed lines, publishes the events, and leaves the store as the cycle's writes applied in order. `running` is unchanged. |
| Worker.WorkerService.Publish | backend/worker/main.py:111-112 | An event is published only for a feed with lines. |
| Worker.WorkerService.ProcessFeedOutcome | backend/worker/main.py:63-106 | A feed that was not fetched or did not parse is skipped with no writes. Otherwise its lines are processed. |
| Worker.WorkerService.ProcessFeed | backend/worker/main.py:95-106 | The line loop writes each line's records in turn. A failing line does not stop the later ones. |
| Worker.WorkerService.ProcessLine | backend/worker/main.py:96-103 | A line with no arrivals writes nothing. Otherwise its groups are cached. |
| Worker.WorkerService.Stop | backend/worker/main.py:37-40 | The signal handler clears `running`. |
| Worker.WorkerService.constructor | backend/worker/main.py:25-31 | A new worker has the configured lines and feeds, has published nothing, and is running. |
| GtfsStatic.StopEntry | scripts/fetch_gtfs_stations.py:20-38 | A stops row yields a stop exactly when its location type is 0 or 1, both coordinates are non-empty and both parse as floats. The stop carries the stripped id and name. |
| GtfsStatic.ParseStops | scripts/fetch_gtfs_stations.py:9-41 | A missing `stops.txt` gives `{}`. Otherwise the result is the dictionary assigned row by row. |
| GtfsStatic.LastRowWins | scripts/fetch_gtfs_stations.py:30 | A later row with the same key overwrites an earlier one. |
| GtfsStatic.AssignedFromRow | scripts/fetch_gtfs_stations.py:20-36 | Every entry of the dictionary comes from a kept row. |
| GtfsStatic.RouteEntry | scripts/fetch_gtfs_stations.py:54-60 | A route is kept exactly when its id and short name are both non-empty. |
| GtfsStatic.ParseRoutes | scripts/fetch_gtfs_stations.py:43-63 | A missing `routes.txt` gives `{}`. Otherwise the result is the id-to-short-name map. |
| GtfsStatic.RoutesNonEmpty | scripts/fetch_gtfs_stations.py:59-60 | Every kept route has a non-empty id and short name. |
| GtfsStatic.TripEntry | scripts/fetch_gtfs_stations.py:76-80 | A trip row is kept exactly when it has a trip id and a route id. |
| GtfsStatic.RouteTripEntry | scripts/fetch_gtfs_stations.py:88-93 | A stop-time row names a trip exactly when its trip's route is present and known. |
| GtfsStatic.Dedup | scripts/fetch_gtfs_stations.py:92-93 | It keeps the same elements, each once, and the first one first. |
| GtfsStatic.UniqueGroupedGet | scripts/fetch_gtfs_stations.py:84-93 | A route's trip list is its trips, once each, in the order they first appear. |
| GtfsStatic.UniqueGroupedKeys | scripts/fetch_gtfs_stations.py:84-93 | A route has a trip list only when some row names it. |
| GtfsStatic.RouteTripsKnown | scripts/fetch_gtfs_stations.py:91 | Only known routes get a trip list. |
| GtfsStatic.StopTimeEntry | scripts/fetch_gtfs_stations.py:101-113 | A stop-time row is kept exactly when its trip, stop and sequence are non-empty and `int()` accepts the sequence: an optional sign, then digits grouped by single underscores. |
| GtfsStatic.LineFromFirstTrip | scripts/fetch_gtfs_stations.py:115-125 | A line's list is the stops of the first trip of some route with that short name, sorted by stop sequence. |
| GtfsStatic.LineStationsSorted | scripts/fetch_gtfs_stations.py:123-125 | Each line's list is in non-decreasing sequence order and is a permutation of its representative trip's stops. |
| GtfsStatic.BuildTripToRoute | scripts/fetch_gtfs_stations.py:71-80 | The loop yields the trip-to-route map; a missing `trips.txt` yields `{}`. |
| GtfsStatic.BuildRouteTrips | scripts/fetch_gtfs_stations.py:84-93 | The loop yields the specification's route-to-trips lists. |
| GtfsStatic.BuildTripStations | scripts/fetch_gtfs_stations.py:99-113 | The loop yields the trip-to-stops lists. |
| GtfsStatic.BuildLineStations | scripts/fetch_gtfs_stations.py:115-125 | The loop yields the specification's line table. |
| GtfsStatic.ParseStopTimes | scripts/fetch_gtfs_stations.py:65-128 | A missing `stop_times.txt` gives no lines. Otherwise it gives the line table built from the trips and stop times. |
| GtfsStatic.FirstRelated | scripts/fetch_gtfs_stations.py:146-149 | It finds the first stop id, in table order, that extends the base id or is extended by it. When there is none, none is related. |
| GtfsStatic.MatchOf | scripts/fetch_gtfs_stations.py:140-149 | An id that is a stop id matches itself, and any match is a stop id. |
| GtfsStatic.MatchOfFirst | scripts/fetch_gtfs_stations.py:144-149 | Otherwise the match is the first related stop id in table order, or none. |
| GtfsStatic.FindMatch | scripts/fetch_gtfs_stations.py:140-149 | The loop with its `break` computes exactly `MatchOf`. |
| GtfsStatic.LineEntriesRecords | scripts/fetch_gtfs_stations.py:136-163 | Each record of a line is the record of the station at its 1-based `order`: its usable match, with that stop's coordinates and name. |
| GtfsStatic.LineEntriesOrdered | scripts/fetch_gtfs_stations.py:135-163 | A line's records follow the order of its list, and no stop gets two records (`seen_stops`). |
| GtfsStatic.LineEntriesComplete | scripts/fetch_gtfs_stations.py:151-163 | Every usable match in the list gets a record. |
| GtfsStatic.EmitLine | scripts/fetch_gtfs_stations.py:135-163 | The inner loop assigns exactly the line's records, in order. |
| GtfsStatic.GenerateStationCoords | scripts/fetch_gtfs_stations.py:130-165 | The result is all lines' records assigned in turn. |
| GtfsStatic.FromSomeLine | scripts/fetch_gtfs_stations.py:134-163 | Every dataset record comes from one line's records. |
| GtfsStatic.DatasetRecord | scripts/fetch_gtfs_stations.py:151-162 | A record keyed `k` has `k == line + stop_id`, a stop id of the table, and the coordinates and name of that stop. Its `order` is the position of the matched station in its line's list. |
| GtfsStatic.BuildDataset | scripts/fetch_gtfs_stations.py:186-197 | The script's pipeline yields a dataset with distinct keys, empty when `stop_times.txt` is missing. |
| SubwayMap.Converted | frontend/src/components/SubwayMap.tsx:13-21 | Converting keeps the keys and order and copies the five fields. |
| SubwayMap.LoadStationTable | frontend/src/components/SubwayMap.tsx:12-23 | An absent `stations` object gives an empty table. Otherwise the table holds exactly the dataset's keys, and with distinct keys it is the converted dataset. |
| SubwayMap.MinOf | frontend/src/components/SubwayMap.tsx:80 | `Math.min(...xs)` is a lower bound attained by some element. |
| SubwayMap.MaxOf | frontend/src/components/SubwayMap.tsx:81 | `Math.max(...xs)` is an upper bound attained by some element. |
| SubwayMap.CalculateBounds | frontend/src/components/SubwayMap.tsx:66-83 | An empty table gives the fixed NYC box. Otherwise every station lies inside the box, and each side is attained by a station. |
| SubwayMap.BoundsAreTight | frontend/src/components/SubwayMap.tsx:66-83 | Any box holding every station contains the computed box. |
| SubwayMap.RouteLines | frontend/src/components/SubwayMap.tsx:220-243 | There is one polyline per line that some station has, and each is that line's coordinates sorted by `order`. |
| SubwayMap.GroupByLine | frontend/src/components/SubwayMap.tsx:224-229 | The `push` loop gives each line exactly its stations' points in table order. |
| SubwayMap.SortEachLine | frontend/src/components/SubwayMap.tsx:231-234 | Every line's list is sorted by `order` in place, and the keys are kept. |
| SubwayMap.CoordsOfEach | frontend/src/components/SubwayMap.tsx:236-240 | Every line keeps only the coordinates of its sorted list. |
| SubwayMap.RouteIsOrderedPermutation | frontend/src/components/SubwayMap.tsx:231-240 | A polyline holds exactly its line's stations, in non-decreasing order. |
| SubwayMap.StationOnOwnLine | frontend/src/components/SubwayMap.tsx:224-229 | Every station's point is on its own line's list. |
| SubwayMap.LinePointsPerm | frontend/src/components/SubwayMap.tsx:224-229 | The same stations listed in another order give each line the same points, up to order. |
| SubwayMap.RouteIndependentOfTableOrder | frontend/src/components/SubwayMap.tsx:220-243 | When a line's orders are distinct, its polyline does not depend on the enumeration order of the table. |
| SubwayMap.DrawnPolylines | frontend/src/components/SubwayMap.tsx:370-387 | A polyline is drawn exactly for each line with at least two points, highlighted exactly when it is the `line` prop. |
| SubwayMap.SelectionOnlyRestyles | frontend/src/components/SubwayMap.tsx:370-387 | Which lines are drawn does not depend on the selected line. |
| SubwayMap.VisibleMarkers | frontend/src/components/SubwayMap.tsx:389-425 | A marker is drawn exactly for the selected station and for the stations on a truthy selected line, with the selected style exactly on the selected id. |
| SubwayMap.FocusRules | frontend/src/components/SubwayMap.tsx:100-121 | The view is always at zoom 15. It is centred on the prop's coordinates when both are truthy, and otherwise on the table's record for the id. There is no view exactly when neither is available. |
| SubwayMap.MapComponent.constructor | frontend/src/components/SubwayMap.tsx:183-243 | The bounds and route lines are computed once from the table, and the map starts windowed. |
| SubwayMap.MapComponent.ToggleFullscreen | frontend/src/components/SubwayMap.tsx:245-247 | It flips the fullscreen flag and nothing else. |
| NearestStation.WithDistances | frontend/src/components/FindNearestStation.tsx:70-78 | Every candidate with a table entry appears, paired with the distance from the position to its table coordinates. Nothing else appears. |
| NearestStation.WithDistancesAppend | frontend/src/components/FindNearestStation.tsx:70-78 | `map`/`filter` keep candidate order: the list for two runs of candidates is the first run's list followed by the second's. |
| NearestStation.WithDistancesCount | frontend/src/components/FindNearestStation.tsx:70-78 | The number kept is the number of candidates with a table entry. |
| NearestStation.TopOfSorted | frontend/src/components/FindNearestStation.tsx:79-80 | It keeps `min(5, n)` entries, sorted by distance, drawn from the input, and none left out is closer than one kept. |
| NearestStation.NearestStations | frontend/src/components/FindNearestStation.tsx:70-80 | The panel holds `min(5, n)` entries, `n` being the number of candidates with coordinates. They are sorted by distance, and none left out is closer than one kept. |
| NearestStation.NearestAreClosest | frontend/src/components/FindNearestStation.tsx:70-80 | A candidate with a table entry is either on the panel or at least as far away as every station on it. |
| NearestStation.NearestAreCandidates | frontend/src/components/FindNearestStation.tsx:70-80 | Every panel entry is a candidate with a table entry, and its distance is its own. |
| NearestStation.FindNearest | frontend/src/components/FindNearestStation.tsx:64-83 | Without a truthy latitude and longitude it requests a position. Otherwise it sets the nearest list. |
| NearestStation.AutoFind | frontend/src/components/FindNearestStation.tsx:86-102 | The effect changes nothing unless the position is known and there are candidates. |
| NearestStation.NoCandidatesNoResult | frontend/src/components/FindNearestStation.tsx:70-80 | No candidates give an empty list. |
| NearestStation.FindNearestAgreesWithEffect | frontend/src/components/FindNearestStation.tsx:64-102 | The button and the effect compute the same list whenever both recompute. |
| Geolocation.ErrorMessage | frontend/src/hooks/useGeolocation.ts:42-54 | Each of the three error codes gets its own message, and every other code gets "Unknown error occurred". |
| Geolocation.GeoState.constructor | frontend/src/hooks/useGeolocation.ts:12-18 | Nothing is known and nothing is pending. |
| Geolocation.GeoState.GetCurrentPosition | frontend/src/hooks/useGeolocation.ts:20-32 | Without support it shows the "not supported" error and stops loading. Otherwise it starts loading and clears the error. The position is kept either way. |
| Geolocation.GeoState.PositionReceived | frontend/src/hooks/useGeolocation.ts:33-41 | The success callback replaces the whole state with the position. |
| Geolocation.GeoState.PositionFailed | frontend/src/hooks/useGeolocation.ts:42-60 | The error callback shows the code's message, stops loading and keeps the position. |
| Geolocation.RoundHalfUp | frontend/src/hooks/useGeolocation.ts:96 | `Math.round` gives the nearest integer, with halves rounded up. |
| Geolocation.Displayed | frontend/src/hooks/useGeolocation.ts:94-99 | Below 1000 m: the rounded metre count. Otherwise: kilometres in hundredths, within half a hundredth of a km. |
| Geolocation.ParseRender | frontend/src/hooks/useGeolocation.ts:94-99 | The rendered text reads back as the displayed quantity. |
| Geolocation.FormatDistance | frontend/src/hooks/useGeolocation.ts:94-99 | The text reads back as the displayed quantity, and it is the only text that does. Below 1000 m it ends in "m" and not "km". |
| Geolocation.RenderOfParse | frontend/src/hooks/useGeolocation.ts:94-99 | The reading accepts only the texts `formatDistance` writes: a text that reads as a quantity is that quantity's rendering. |
| Geolocation.ParseCanonical | frontend/src/hooks/useGeolocation.ts:94-99 | Two texts that read as the same quantity are equal. |
| StationSelector.Fallback | frontend/src/components/StationSelector.tsx:16-37 | It is the built-in list for the line, or `[]`. |
| StationSelector.FallbackLines | frontend/src/components/StationSelector.tsx:16-37 | Only lines 1, A, C and E have a fallback, and each is non-empty. |
| StationSelector.ResolveStations | frontend/src/components/StationSelector.tsx:64-72 | A non-empty answer is shown as is. Every other outcome, a failed request among them, shows the fallback. |
| StationSelector.Selector.constructor | frontend/src/components/StationSelector.tsx:49-50 | The selector starts with no stations and is not loading. |
| StationSelector.Selector.LineChanged | frontend/src/components/StationSelector.tsx:78-82 | With a line it starts loading and resets the selected station. With none it changes nothing. |
| StationSelector.Selector.FetchSettled | frontend/src/components/StationSelector.tsx:64-75 | When the request ends, the list is resolved and loading stops. |
| StationSelector.Selector.ChooseLine | frontend/src/components/StationSelector.tsx:52-82 | A change to a non-empty line ends with the resolved list, loading stopped and the station reset. |
| Sorting.SortInPlace | frontend/src/components/SubwayMap.tsx:233 | The in-place insertion sort leaves the array equal to the stable sort by key of its old contents. |
| Sorting.SortedByPerm | scripts/fetch_gtfs_stations.py:124 | The sort returns a permutation of its input. |
| Sorting.SortedBySorted | scripts/fetch_gtfs_stations.py:124 | The sort's result is in non-decreasing key order. |
| Sorting.SortedByCanonical | frontend/src/components/SubwayMap.tsx:233 | With distinct keys, the same elements in any order sort to the same sequence. |
| Sorting.TakeSmallest | backend/worker/services/cache_service.py:67 | The first `k` of the sorted list are sorted, come from the input, and are no larger than any element left out. |
| Strings.Upper | backend/api/routers/eta.py:51 | `str.upper()` on ASCII: the same length, with lower-case letters raised. |
| Strings.UpperIdempotent | backend/api/routers/eta.py:51-62 | Upper-casing twice is upper-casing once. |
| Strings.Strip | scripts/fetch_gtfs_stations.py:21-25 | The result starts and ends with a character that is not Python whitespace. |
| Strings.StripIsSlice | scripts/fetch_gtfs_stations.py:21-25 | What `strip` keeps is one contiguous piece `s[a..b]` of the text. Everything before `a` and from `b` on is whitespace, as `str.isspace` defines it. |
| Strings.RStripNS | scripts/fetch_gtfs_stations.py:138 | `rstrip('NS')` gives the longest prefix that does not end in N or S. Only N and S are removed. |
| Strings.SplitColon | backend/worker/services/cache_service.py:64 | The unpacking of `split(":")` succeeds exactly when there is one ':', and the two parts rejoin to the key. |
| Strings.ParseNatToString | frontend/src/hooks/useGeolocation.ts:98 | A decimal numeral reads back as its value. |
| Strings.ParseIntToString | frontend/src/hooks/useGeolocation.ts:96 | A signed decimal numeral, as `int()` reads it, gives back its value. |
| Strings.CanonicalRoundTrip | frontend/src/hooks/useGeolocation.ts:96-98 | A numeral without leading zeros is the numeral of its value. |
| Dicts.Put | scripts/fetch_gtfs_stations.py:155 | Assigning a key gives that key the new value, leaves every other key unchanged, and appends the key when it is new. |
| Dicts.PutEachGet | scripts/fetch_gtfs_stations.py:155-162 | After assigning pairs in turn, each key holds its last assigned value. |
| Dicts.GroupedGet | backend/worker/services/gtfs_parser.py:85-94 | Appending to a `defaultdict(list)`-style dictionary gives each key exactly its values in order. |

## Left out

- Network, file and protobuf I/O are not modelled. These are the MTA fetch, the
  zip and CSV reading, `json.dumps`/`json.loads`, and the HTTP calls. Their
  outcomes are parameters: `FeedOutcome`, `Option<seq<Row>>`, the `Doc`/`Cell`
  datatypes, `FetchOutcome` and `reachable`/`up`/`accepted`.
- Clocks are parameters: `now` and `lastUpdated`. The ISO rendering of
  timestamps is not modelled. The source compares `datetime.fromtimestamp`
  (local time) with `datetime.utcnow()`; the model assumes both are on one clock.
- Expiry of Redis keys with time is not modelled. Only the stored lifetime is.
- The Haversine distance (floating point, trigonometry) is not modelled. It is a
  function parameter `DistanceFn`.
- `float()` parsing is a parameter `FloatParser`.
- Geolocation.FormatDistance: `toFixed(2)` works on binary floating point. The
  model rounds the exact value half up to hundredths.
- The outer `while self.running` loop is not modelled, nor the Redis ping before
  it, the sleep or the `KeyboardInterrupt` branch. `ProcessCycle` is one pass.
- The Kafka delivery outcome is not modelled. `Publish` records the event.
- JWT authentication of the API routes is not modelled, nor the lazy Redis
  client, `ping` or `close`.
- The text of exceptions is not modelled. The 500 detail's exception message is
  left out and the fixed prefix kept.
- EtaRouter.ValidTrain: pydantic validation of a train is reduced to
  `eta_minutes >= 0`. Missing or extra fields of a stored train are not
  modelled.
- JSON `null` for `trains` in a stored object is treated as absent.
- A loss of the Redis connection between the two reads of one `GET /eta` request
  is not modelled: both reads see the same store.
- JavaScript's enumeration order of integer-like object keys is not modelled. A
  table is an association list in its enumeration order.
- Rendering (colours, icons, popups, the legend, CSS, the user-location marker)
  is not modelled. Only which polylines and markers are drawn, and with which
  emphasis, is.
- The script's own `main` is not modelled. The output path, the `lines` and
  `total_stations` summary fields, and the printing are left out.
  `BuildDataset` is its parsing pipeline.
- The script's annotations name `Dict`, `List` and `Tuple` without importing them
  from `typing`. Python evaluates these annotations when it defines the
  functions, so as written the script stops with a `NameError` before `main`
  runs. Module loading is not modelled, and the model describes the functions
  as evidently intended.
- Strings.Upper: `str.upper` is modelled on ASCII letters only. Python's Unicode
  case mappings (`"ſ".upper() == "S"`, `"ß".upper() == "SS"`) are not modelled,
  because the full case table is outside the model.
- EtaRouter.EtaReplyStatus: the 400 cases follow the ASCII `Upper`. A line or
  direction that only Python's Unicode upper-casing turns into a supported value
  (such as the direction `"ſ"`, which the source reads as `"S"`) is answered 400
  in the model.
- EtaRouter.StationsReplyCases: the 400 case follows the ASCII `Upper` in the same
  way.
- Strings.Strip: its own contract states only the ends of the result. That the
  removed prefix and suffix are whitespace is stated by `Strings.StripIsSlice`,
  which names the slice bounds.
- Strings.ParseInt: the non-ASCII decimal digits that Python's `int()` accepts
  (Unicode category Nd, such as `"١٢"`) are not modelled. Signs, leading zeros
  and underscore grouping are.
- GtfsStatic.StopTimeEntry: a row whose `stop_sequence` uses non-ASCII digits is
  dropped by the model, as `Strings.ParseInt` says, although the source keeps it.
- GtfsStatic.BuildDataset: it states distinct keys and the empty case. Its link
  to the per-record facts is through `GenerateStationCoords` and
  `DatasetRecord`.
