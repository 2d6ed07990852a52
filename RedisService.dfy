/** The API's view of the cache: reading a station's arrivals by
    direction, writing them, and reading a line's station list. Whether the
    server can be reached during a request is the parameter `up` (a read
    that cannot reach it is logged and skipped). */
module RedisService {
  import opened Wrappers
  import opened Dicts
  import opened Strings
  import Config
  import GtfsParser
  import opened RedisStore
  import CacheService

  /** The directions looked up when none is asked for. */
  const BothDirections: seq<string> := ["N", "S"]

  /** The directions looked up: the requested one upper-cased, or both. */
  function Directions(direction: Option<string>): seq<string> {
    if GtfsParser.Truthy(direction) then [Upper(direction.value)] else BothDirections
  }

  /** One direction's arrivals in a reply. */
  datatype DirectionEtas = DirectionEtas(direction: string, trains: seq<Train>)

  /** What one GET contributes to `get_eta`: the trains of a stored object
      (`[]` when it has none). A missing key, the empty text, text that is
      not JSON, a value that is not an object and an unreachable server
      contribute nothing. */
  function ReadTrains(entries: map<string, Entry>, up: bool, key: string): (r: Option<seq<Train>>)
    ensures r.Some? <==> up && key in entries && entries[key].value.Json? && !entries[key].value.doc.NonObject?
  {
    if !up || key !in entries then None
    else match entries[key].value
      case Json(doc) => if doc.NonObject? then None else Some(TrainsField(doc))
      case _ => None
  }

  /** The loop of `get_eta` over the directions `dirs`. */
  function Lookup(entries: map<string, Entry>, up: bool, line: string, stationId: string, dirs: seq<string>): seq<DirectionEtas>
    decreases |dirs|
  {
    if |dirs| == 0 then []
    else
      var d := dirs[|dirs| - 1];
      var found := ReadTrains(entries, up, EtaKey(line, stationId, d));
      Lookup(entries, up, line, stationId, dirs[..|dirs| - 1])
        + if found.Some? then [DirectionEtas(d, found.value)] else []
  }

  /** `get_eta`: the entries found, or `None` when there are none. */
  function EtaLookup(entries: map<string, Entry>, up: bool, line: string, stationId: string,
                     direction: Option<string>): Option<seq<DirectionEtas>> {
    var found := Lookup(entries, up, line, stationId, Directions(direction));
    if found == [] then None else Some(found)
  }

  /** What `get_eta` replies, case by case: with a direction, the entry for
      that direction upper-cased or nothing; without one, the northbound
      entry and then the southbound one, each when found, and nothing when
      neither is. */
  lemma EtaLookupCases(entries: map<string, Entry>, up: bool, line: string, stationId: string, direction: Option<string>)
    ensures GtfsParser.Truthy(direction) ==>
      var d := Upper(direction.value);
      var t := ReadTrains(entries, up, EtaKey(line, stationId, d));
      EtaLookup(entries, up, line, stationId, direction) == if t.Some? then Some([DirectionEtas(d, t.value)]) else None
    ensures !GtfsParser.Truthy(direction) ==>
      var n := ReadTrains(entries, up, EtaKey(line, stationId, "N"));
      var s := ReadTrains(entries, up, EtaKey(line, stationId, "S"));
      var found := (if n.Some? then [DirectionEtas("N", n.value)] else [])
                   + (if s.Some? then [DirectionEtas("S", s.value)] else []);
      EtaLookup(entries, up, line, stationId, direction) == if n.None? && s.None? then None else Some(found)
  {
    var dirs := Directions(direction);
    if GtfsParser.Truthy(direction) {
      var d := Upper(direction.value);
      var t := ReadTrains(entries, up, EtaKey(line, stationId, d));
      assert dirs[..0] == [];
      assert Lookup(entries, up, line, stationId, dirs) == if t.Some? then [DirectionEtas(d, t.value)] else [];
    } else {
      var n := ReadTrains(entries, up, EtaKey(line, stationId, "N"));
      var s := ReadTrains(entries, up, EtaKey(line, stationId, "S"));
      assert dirs[..1] == ["N"] && dirs[..1][..0] == [];
      assert Lookup(entries, up, line, stationId, ["N"]) == if n.Some? then [DirectionEtas("N", n.value)] else [];
      assert Lookup(entries, up, line, stationId, dirs)
        == Lookup(entries, up, line, stationId, ["N"]) + if s.Some? then [DirectionEtas("S", s.value)] else [];
    }
  }

  /** Every entry of a reply is a found direction among those asked for,
      with the stored trains. */
  lemma {:induction false} LookupFound(entries: map<string, Entry>, up: bool, line: string, stationId: string, dirs: seq<string>)
    ensures var r := Lookup(entries, up, line, stationId, dirs);
      && |r| <= |dirs|
      && forall k :: 0 <= k < |r| ==>
        r[k].direction in dirs && ReadTrains(entries, up, EtaKey(line, stationId, r[k].direction)) == Some(r[k].trains)
    decreases |dirs|
  {
    if |dirs| > 0 {
      var init := dirs[..|dirs| - 1];
      LookupFound(entries, up, line, stationId, init);
      var r := Lookup(entries, up, line, stationId, dirs);
      var p := Lookup(entries, up, line, stationId, init);
      forall k | 0 <= k < |r|
        ensures r[k].direction in dirs && ReadTrains(entries, up, EtaKey(line, stationId, r[k].direction)) == Some(r[k].trains)
      {
        if k < |p| {
          assert r[k] == p[k];
          assert p[k].direction in init;
        }
      }
    }
  }

  /** A request while the server cannot be reached finds nothing. */
  lemma {:induction false} UnreachableFindsNothing(entries: map<string, Entry>, line: string, stationId: string, dirs: seq<string>)
    ensures Lookup(entries, false, line, stationId, dirs) == []
    decreases |dirs|
  {
    if |dirs| > 0 {
      UnreachableFindsNothing(entries, line, stationId, dirs[..|dirs| - 1]);
    }
  }

  /** `get_eta` with its loop appending to `results`. */
  method GetEta(store: Store, up: bool, line: string, stationId: string, direction: Option<string>)
    returns (r: Option<seq<DirectionEtas>>)
    ensures r == EtaLookup(store.entries, up, line, stationId, direction)
  {
    var directions := if GtfsParser.Truthy(direction) then [Upper(direction.value)] else BothDirections;
    var results := [];
    var i := 0;
    while i < |directions|
      invariant 0 <= i <= |directions|
      invariant results == Lookup(store.entries, up, line, stationId, directions[..i])
    {
      var dirKey := directions[i];
      var cacheKey := EtaKey(line, stationId, dirKey);
      assert directions[..i + 1][..i] == directions[..i];
      if up && cacheKey in store.entries {
        var cached := store.entries[cacheKey].value;
        if cached.Json? && !cached.doc.NonObject? {
          results := results + [DirectionEtas(dirKey, TrainsField(cached.doc))];
        }
      }
      i := i + 1;
    }
    assert directions[..i] == directions;
    if results == [] {
      return None;
    }
    return Some(results);
  }

  /** `ttl or REDIS_TTL_SECONDS`. */
  function EffectiveTtl(ttl: Option<int>): int {
    if ttl.Some? && ttl.value != 0 then ttl.value else Config.RedisTtlSeconds
  }

  /** Only a negative lifetime makes the write fail; a missing or zero one
      falls back to the five-minute default. */
  lemma EffectiveTtlPositive(ttl: Option<int>)
    ensures EffectiveTtl(ttl) > 0 <==> ttl.None? || ttl.value >= 0
    ensures ttl.None? || ttl.value == 0 ==> EffectiveTtl(ttl) == 300
  {
  }

  /** `set_eta`. `lastUpdated` is the time stamp, `reachable` whether the
      server takes the write. */
  method SetEta(store: Store, line: string, stationId: string, direction: string, trains: seq<Train>,
                stationName: Option<string>, ttl: Option<int>, lastUpdated: string, reachable: bool)
    returns (ok: bool)
    modifies store
    ensures ok == (reachable && EffectiveTtl(ttl) > 0)
    ensures store.entries == if ok
      then old(store.entries)[EtaKey(line, stationId, direction) :=
             Entry(Json(Record(EtaRecord(line, stationId, direction, trains, stationName, lastUpdated))), Some(EffectiveTtl(ttl)))]
      else old(store.entries)
  {
    var cacheKey := EtaKey(line, stationId, direction);
    var cacheValue := Record(EtaRecord(line, stationId, direction, trains, stationName, lastUpdated));
    ok := store.SetEx(cacheKey, EffectiveTtl(ttl), cacheValue, reachable);
  }

  /** Reading back a written entry: after `set_eta(line, station, d,
      trains)` a request for direction `d` (already upper case) replies with
      exactly those trains. */
  lemma SetThenGet(entries: map<string, Entry>, line: string, stationId: string, d: string, trains: seq<Train>,
                   stationName: Option<string>, ttl: int, lastUpdated: string)
    requires d != "" && Upper(d) == d
    ensures var after := entries[EtaKey(line, stationId, d) :=
              Entry(Json(Record(EtaRecord(line, stationId, d, trains, stationName, lastUpdated))), Some(ttl))];
      EtaLookup(after, true, line, stationId, Some(d)) == Some([DirectionEtas(d, trains)])
  {
    EtaLookupCases(entries[EtaKey(line, stationId, d) :=
              Entry(Json(Record(EtaRecord(line, stationId, d, trains, stationName, lastUpdated))), Some(ttl))],
      true, line, stationId, Some(d));
  }

  /** `get_stations`: the decoded value under `"stations:{line}"`, or
      `None` when it is missing, empty or not JSON, or the server cannot be
      reached. */
  function GetStations(entries: map<string, Entry>, up: bool, line: string): (r: Option<Doc>)
    ensures r.Some? <==> up && StationsKey(line) in entries && entries[StationsKey(line)].value.Json?
    ensures r.Some? ==> entries[StationsKey(line)].value == Json(r.value)
  {
    var key := StationsKey(line);
    if !up || key !in entries then None
    else match entries[key].value
      case Json(doc) => Some(doc)
      case _ => None
  }

  /** If every write to `k` in `ws` carries `v`, and one does, the last
      write to `k` carries `v`. */
  lemma LastWriteIs(ws: seq<(string, Doc)>, k: string, v: Doc)
    requires (k, v) in ws
    requires forall w :: w in ws && w.0 == k ==> w.1 == v
    ensures LastFor(ws, k) == Some(v)
  {
    var i :| 0 <= i < |ws| && ws[i] == (k, v);
    assert ws[i].0 == k;
  }

  /** What the API reads back of what the worker cached: for a group of
      the worker's map whose key splits (with every key before it), whose
      direction is "N" or "S" and whose write was accepted, a request for
      that station and direction replies with the group's three soonest
      trains. */
  lemma CachedThenServed(entries: map<string, Entry>, line: string, groups: Dict<seq<Train>>,
                         stationNames: Dict<string>, lastUpdated: string, accepted: string -> bool, i: nat)
    requires DistinctKeys(groups) && i < |groups|
    requires forall j :: 0 <= j <= i ==> SplitColon(groups[j].0).Some?
    requires SplitColon(groups[i].0).value.1 in BothDirections
    requires accepted(EtaKey(line, SplitColon(groups[i].0).value.0, SplitColon(groups[i].0).value.1))
    ensures var (stationId, direction) := SplitColon(groups[i].0).value;
      var run := CacheService.CacheRun(line, groups, stationNames, lastUpdated, accepted);
      EtaLookup(Written(entries, run.writes, Config.RedisTtlSeconds), true, line, stationId, Some(direction))
        == Some([DirectionEtas(direction, CacheService.Soonest(groups[i].1))])
  {
    var (stationId, direction) := SplitColon(groups[i].0).value;
    var run := CacheService.CacheRun(line, groups, stationNames, lastUpdated, accepted);
    var key := EtaKey(line, stationId, direction);
    var rec := CacheService.StationRecord(line, stationId, direction, groups[i].1, stationNames, lastUpdated);
    CacheService.CacheRunComplete(line, groups, stationNames, lastUpdated, accepted, i);
    CacheService.CacheRunWrites(line, groups, stationNames, lastUpdated, accepted);
    forall w | w in run.writes && w.0 == key ensures w.1 == Record(rec) {
      assert CacheService.WriteOk(w, line, groups, stationNames, lastUpdated, accepted);
      var j :| 0 <= j < |groups| && CacheService.WriteOf(w, line, groups[j], stationNames, lastUpdated, accepted);
      var (s2, d2) := SplitColon(groups[j].0).value;
      EtaKeyInjective(line, s2, d2, stationId, direction);
      assert groups[j].0 == groups[i].0;
    }
    LastWriteIs(run.writes, key, Record(rec));
    var after := Written(entries, run.writes, Config.RedisTtlSeconds);
    WrittenGet(entries, run.writes, Config.RedisTtlSeconds, key);
    assert after == after[key := Entry(Json(Record(rec)), Some(Config.RedisTtlSeconds))];
    SetThenGet(after, line, stationId, direction, rec.trains, rec.stationName, Config.RedisTtlSeconds, lastUpdated);
  }
}
