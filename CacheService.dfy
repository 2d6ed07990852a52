/** The worker's cache writer: for every `"{stop_id}:{direction}"` group of
    arrivals it stores the three soonest trains under the station's ETA
    key, and counts the writes that succeeded. */
module CacheService {
  import opened Wrappers
  import opened Dicts
  import opened Strings
  import Sorting
  import Config
  import opened RedisStore

  /** How many trains are stored per station and direction. */
  const StoredTrains := 3

  function EtaOrder(t: Train): real {
    t.etaMinutes as real
  }

  /** `sorted(eta_list, key=eta_minutes)[:3]`. */
  function Soonest(trains: seq<Train>): seq<Train> {
    Sorting.SortedBy(trains, EtaOrder)[..if StoredTrains <= |trains| then StoredTrains else |trains|]
  }

  /** The soonest trains are at most three of the given ones, in order of
      arrival, and no train left out arrives sooner than one kept. */
  lemma SoonestFacts(trains: seq<Train>)
    ensures var r := Soonest(trains);
      && |r| == (if |trains| <= 3 then |trains| else 3)
      && Sorting.SortedOn(r, EtaOrder)
      && multiset(r) <= multiset(trains)
      && forall x, y :: x in multiset(trains) - multiset(r) && y in r ==> y.etaMinutes <= x.etaMinutes
  {
    Sorting.TakeSmallest(trains, EtaOrder, StoredTrains);
    var r := Soonest(trains);
    forall x, y | x in multiset(trains) - multiset(r) && y in r ensures y.etaMinutes <= x.etaMinutes {
      assert EtaOrder(y) <= EtaOrder(x);
    }
  }

  /** The record stored for one station and direction. `station_names.get`
      gives `None` for a station without a name. */
  function StationRecord(line: string, stationId: string, direction: string, trains: seq<Train>,
                         stationNames: Dict<string>, lastUpdated: string): EtaRecord {
    EtaRecord(line, stationId, direction, Soonest(trains), Get(stationNames, stationId), lastUpdated)
  }

  /** Where the loop over the groups stands: the writes that succeeded, and
      whether a key without exactly one ':' stopped it (the unpacking of
      `key.split(":")` raises, and the exception leaves the method). */
  datatype Run = Run(writes: seq<(string, Doc)>, failed: bool)

  /** The loop's effect on one group. */
  function Step(prev: Run, line: string, key: string, trains: seq<Train>, stationNames: Dict<string>,
                lastUpdated: string, accepted: string -> bool): Run {
    if prev.failed then prev
    else match SplitColon(key)
      case None => Run(prev.writes, true)
      case Some((stationId, direction)) =>
        var storeKey := EtaKey(line, stationId, direction);
        if accepted(storeKey) then
          Run(prev.writes + [(storeKey, Record(StationRecord(line, stationId, direction, trains, stationNames, lastUpdated)))], false)
        else prev
  }

  /** The loop over the groups in enumeration order; `accepted` says which
      store keys the server accepts a write for. */
  function CacheRun(line: string, groups: Dict<seq<Train>>, stationNames: Dict<string>,
                    lastUpdated: string, accepted: string -> bool): Run
    decreases |groups|
  {
    if |groups| == 0 then Run([], false)
    else
      var last := groups[|groups| - 1];
      Step(CacheRun(line, groups[..|groups| - 1], stationNames, lastUpdated, accepted),
           line, last.0, last.1, stationNames, lastUpdated, accepted)
  }

  /** The loop stops exactly when some key does not split into a station id
      and a direction. */
  lemma {:induction false} CacheRunFails(line: string, groups: Dict<seq<Train>>, stationNames: Dict<string>,
                                         lastUpdated: string, accepted: string -> bool)
    ensures CacheRun(line, groups, stationNames, lastUpdated, accepted).failed
      <==> exists i :: 0 <= i < |groups| && SplitColon(groups[i].0).None?
    decreases |groups|
  {
    if |groups| > 0 {
      var init := groups[..|groups| - 1];
      CacheRunFails(line, init, stationNames, lastUpdated, accepted);
      if exists i :: 0 <= i < |init| && SplitColon(init[i].0).None? {
        var i :| 0 <= i < |init| && SplitColon(init[i].0).None?;
        assert groups[i] == init[i];
      }
      if exists i :: 0 <= i < |groups| && SplitColon(groups[i].0).None? {
        var i :| 0 <= i < |groups| && SplitColon(groups[i].0).None?;
        if i < |init| {
          assert groups[i] == init[i];
        }
      }
    }
  }

  /** What every write says: it is the record of one of the groups, whose
      key splits, stored under that station's ETA key, which the server
      accepted. */
  predicate WriteOk(w: (string, Doc), line: string, groups: Dict<seq<Train>>, stationNames: Dict<string>,
                    lastUpdated: string, accepted: string -> bool) {
    exists i :: 0 <= i < |groups| && WriteOf(w, line, groups[i], stationNames, lastUpdated, accepted)
  }

  /** `w` is the write of the group `g`. */
  predicate WriteOf(w: (string, Doc), line: string, g: (string, seq<Train>), stationNames: Dict<string>,
                    lastUpdated: string, accepted: string -> bool) {
    && SplitColon(g.0).Some?
    && var (stationId, direction) := SplitColon(g.0).value;
    && w.0 == EtaKey(line, stationId, direction)
    && accepted(w.0)
    && w.1 == Record(StationRecord(line, stationId, direction, g.1, stationNames, lastUpdated))
  }

  /** At most one write per group, and each write is the record of one. */
  lemma {:induction false} CacheRunWrites(line: string, groups: Dict<seq<Train>>, stationNames: Dict<string>,
                                          lastUpdated: string, accepted: string -> bool)
    ensures var run := CacheRun(line, groups, stationNames, lastUpdated, accepted);
      && |run.writes| <= |groups|
      && forall w :: w in run.writes ==> WriteOk(w, line, groups, stationNames, lastUpdated, accepted)
    decreases |groups|
  {
    if |groups| > 0 {
      var init := groups[..|groups| - 1];
      CacheRunWrites(line, init, stationNames, lastUpdated, accepted);
      var run := CacheRun(line, groups, stationNames, lastUpdated, accepted);
      forall w | w in run.writes ensures WriteOk(w, line, groups, stationNames, lastUpdated, accepted) {
        if w in CacheRun(line, init, stationNames, lastUpdated, accepted).writes {
          assert WriteOk(w, line, init, stationNames, lastUpdated, accepted);
          var i :| 0 <= i < |init| && WriteOf(w, line, init[i], stationNames, lastUpdated, accepted);
          assert groups[i] == init[i];
        } else {
          assert 0 <= |groups| - 1 < |groups|;
        }
      }
    }
  }

  /** A rejected write does not stop the loop: every group before the first
      key that does not split gets its record written when the server
      accepts it. */
  lemma {:induction false} CacheRunComplete(line: string, groups: Dict<seq<Train>>, stationNames: Dict<string>,
                                            lastUpdated: string, accepted: string -> bool, i: nat)
    requires i < |groups|
    requires forall j :: 0 <= j <= i ==> SplitColon(groups[j].0).Some?
    ensures var (stationId, direction) := SplitColon(groups[i].0).value;
      accepted(EtaKey(line, stationId, direction)) ==>
        (EtaKey(line, stationId, direction),
         Record(StationRecord(line, stationId, direction, groups[i].1, stationNames, lastUpdated)))
        in CacheRun(line, groups, stationNames, lastUpdated, accepted).writes
    decreases |groups|
  {
    var init := groups[..|groups| - 1];
    if i < |groups| - 1 {
      forall j | 0 <= j <= i ensures SplitColon(init[j].0).Some? {
        assert init[j] == groups[j];
      }
      CacheRunComplete(line, init, stationNames, lastUpdated, accepted, i);
      assert groups[i] == init[i];
      assert CacheRun(line, init, stationNames, lastUpdated, accepted).writes
        <= CacheRun(line, groups, stationNames, lastUpdated, accepted).writes;
    } else {
      CacheRunFails(line, init, stationNames, lastUpdated, accepted);
      forall j | 0 <= j < |init| ensures SplitColon(init[j].0).Some? {
        assert init[j] == groups[j];
      }
    }
  }

  /** `update_etas`. `stationNames` is the mapping given, `{}` when none
      is; `lastUpdated` is the time stamp; `accepted` says which writes the
      server accepts. The result is the number of successful writes, or
      `None` when a key that does not split raised `ValueError` (the writes
      made before it stay). */
  method UpdateEtas(store: Store, line: string, etasByStation: Dict<seq<Train>>, stationNames: Dict<string>,
                    lastUpdated: string, accepted: string -> bool)
    returns (cachedCount: Option<nat>)
    modifies store
    ensures var run := CacheRun(line, etasByStation, stationNames, lastUpdated, accepted);
      && store.entries == Written(old(store.entries), run.writes, Config.RedisTtlSeconds)
      && cachedCount == if run.failed then None else Some(|run.writes|)
  {
    ghost var start := store.entries;
    var count := 0;
    var i := 0;
    while i < |etasByStation|
      invariant 0 <= i <= |etasByStation|
      invariant var run := CacheRun(line, etasByStation[..i], stationNames, lastUpdated, accepted);
        && !run.failed
        && store.entries == Written(start, run.writes, Config.RedisTtlSeconds)
        && count == |run.writes|
    {
      var (key, etaList) := etasByStation[i];
      ghost var prev := CacheRun(line, etasByStation[..i], stationNames, lastUpdated, accepted);
      assert etasByStation[..i + 1][..i] == etasByStation[..i];
      assert CacheRun(line, etasByStation[..i + 1], stationNames, lastUpdated, accepted)
        == Step(prev, line, key, etaList, stationNames, lastUpdated, accepted);
      var split := SplitColon(key);
      if split.None? {
        CacheRunStopped(line, etasByStation, stationNames, lastUpdated, accepted, i + 1);
        assert etasByStation[..|etasByStation|] == etasByStation;
        return None;
      }
      var (stationId, direction) := split.value;
      var cacheKey := EtaKey(line, stationId, direction);
      var cacheValue := Record(StationRecord(line, stationId, direction, etaList, stationNames, lastUpdated));
      var ok := store.SetEx(cacheKey, Config.RedisTtlSeconds, cacheValue, accepted(cacheKey));
      if ok {
        WrittenSnoc(start, prev.writes, (cacheKey, cacheValue), Config.RedisTtlSeconds);
        count := count + 1;
      }
      i := i + 1;
    }
    assert etasByStation[..i] == etasByStation;
    return Some(count);
  }

  /** Once the loop has stopped, the later groups change nothing. */
  lemma {:induction false} CacheRunStopped(line: string, groups: Dict<seq<Train>>, stationNames: Dict<string>,
                                           lastUpdated: string, accepted: string -> bool, n: nat)
    requires n <= |groups|
    requires CacheRun(line, groups[..n], stationNames, lastUpdated, accepted).failed
    ensures CacheRun(line, groups[..|groups|], stationNames, lastUpdated, accepted)
      == CacheRun(line, groups[..n], stationNames, lastUpdated, accepted)
    decreases |groups| - n
  {
    if n < |groups| {
      assert groups[..n + 1][..n] == groups[..n];
      CacheRunStopped(line, groups, stationNames, lastUpdated, accepted, n + 1);
    }
  }
}
