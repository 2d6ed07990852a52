/** Extraction of upcoming arrivals from a decoded GTFS-realtime feed,
    grouped by station and direction. The protobuf decoding is not
    modelled: entities arrive as records, and times are integer seconds. */
module GtfsParser {
  import opened Wrappers
  import opened Dicts
  import opened Strings
  import Config

  datatype TripDescriptor = TripDescriptor(routeId: string, tripId: string, directionId: Option<int>)

  /** A stop update; `arrival` is absent when the update has no arrival
      event, and holds `None` when the event has no time. */
  datatype StopTimeUpdate = StopTimeUpdate(stopId: string, arrival: Option<Option<int>>)

  datatype TripUpdate = TripUpdate(trip: TripDescriptor, stopTimeUpdates: seq<StopTimeUpdate>)

  datatype Entity = Entity(tripUpdate: Option<TripUpdate>)

  /** One train's arrival at a station, as stored and served.
      `arrivalTime` is the arrival timestamp (its ISO rendering is not
      modelled). */
  datatype Train = Train(arrivalTime: int, etaMinutes: int, trainId: string, routeId: string, status: string)

  const OnTime := "on_time"

  /** Python truthiness of an optional string. */
  predicate Truthy(s: Option<string>) {
    s.Some? && s.value != ""
  }

  /** The trips the extraction looks at: a non-empty target route, and the
      requested line when one is given. */
  predicate Wanted(trip: TripDescriptor, line: Option<string>) {
    trip.routeId != "" && trip.routeId in Config.TargetLines && !(Truthy(line) && trip.routeId != line.value)
  }

  /** Southbound exactly when the direction is present and 1. */
  function Direction(trip: TripDescriptor): (d: string)
    ensures d == "S" <==> trip.directionId == Some(1)
    ensures d == "S" || d == "N"
  {
    if trip.directionId.Some? && trip.directionId.value == 1 then "S" else "N"
  }

  /** Whole minutes from `now` to `arrival`, truncated. */
  function EtaMinutes(arrival: int, now: int): (m: int)
    requires arrival > now
    ensures m >= 0 && 60 * m <= arrival - now < 60 * (m + 1)
  {
    (arrival - now) / 60
  }

  /** The key grouping arrivals: `"{stop_id}:{direction}"`. */
  function StationKey(stopId: string, direction: string): string {
    stopId + ":" + direction
  }

  /** The records of one trip's stop updates: the future arrivals, in
      order. */
  function StopRecords(trip: TripDescriptor, updates: seq<StopTimeUpdate>, now: int): (rs: seq<(string, Train)>)
    ensures |rs| <= |updates|
    decreases |updates|
  {
    if |updates| == 0 then []
    else
      var prev := StopRecords(trip, updates[..|updates| - 1], now);
      var u := updates[|updates| - 1];
      if u.arrival.Some? && u.arrival.value.Some? && u.arrival.value.value > now then
        var t := u.arrival.value.value;
        prev + [(StationKey(u.stopId, Direction(trip)), Train(t, EtaMinutes(t, now), trip.tripId, trip.routeId, OnTime))]
      else prev
  }

  /** What a stop update's record says. */
  predicate UpdateRecord(r: (string, Train), trip: TripDescriptor, u: StopTimeUpdate, now: int) {
    && u.arrival.Some? && u.arrival.value.Some? && u.arrival.value.value > now
    && r == (StationKey(u.stopId, Direction(trip)),
             Train(u.arrival.value.value, EtaMinutes(u.arrival.value.value, now), trip.tripId, trip.routeId, OnTime))
  }

  /** Each record of a trip is the record of one of its future arrivals. */
  lemma {:induction false} StopRecordsOk(trip: TripDescriptor, updates: seq<StopTimeUpdate>, now: int)
    ensures forall r :: r in StopRecords(trip, updates, now) ==> exists u :: u in updates && UpdateRecord(r, trip, u, now)
    decreases |updates|
  {
    if |updates| > 0 {
      var init := updates[..|updates| - 1];
      StopRecordsOk(trip, init, now);
      forall r | r in StopRecords(trip, updates, now) ensures exists u :: u in updates && UpdateRecord(r, trip, u, now) {
        if r in StopRecords(trip, init, now) {
          var u :| u in init && UpdateRecord(r, trip, u, now);
          assert u in updates;
        } else {
          assert UpdateRecord(r, trip, updates[|updates| - 1], now);
        }
      }
    }
  }

  /** An entity's records: none without a trip update or for an unwanted
      trip. */
  function EntityRecords(e: Entity, line: Option<string>, now: int): seq<(string, Train)> {
    if e.tripUpdate.None? || !Wanted(e.tripUpdate.value.trip, line) then []
    else StopRecords(e.tripUpdate.value.trip, e.tripUpdate.value.stopTimeUpdates, now)
  }

  /** All records of the feed, entity by entity. */
  function Records(entities: seq<Entity>, line: Option<string>, now: int): seq<(string, Train)>
    decreases |entities|
  {
    if |entities| == 0 then []
    else Records(entities[..|entities| - 1], line, now) + EntityRecords(entities[|entities| - 1], line, now)
  }

  /** What every record says: a future arrival of a wanted trip, with its
      whole minutes to go, keyed by its stop and direction. */
  predicate RecordOk(r: (string, Train), entities: seq<Entity>, line: Option<string>, now: int) {
    exists i, u :: 0 <= i < |entities| && entities[i].tripUpdate.Some?
      && Wanted(entities[i].tripUpdate.value.trip, line)
      && u in entities[i].tripUpdate.value.stopTimeUpdates
      && UpdateRecord(r, entities[i].tripUpdate.value.trip, u, now)
  }

  lemma {:induction false} RecordsOk(entities: seq<Entity>, line: Option<string>, now: int)
    ensures forall r :: r in Records(entities, line, now) ==> RecordOk(r, entities, line, now)
    decreases |entities|
  {
    if |entities| > 0 {
      var n := |entities|;
      var init := entities[..n - 1];
      RecordsOk(init, line, now);
      forall r | r in Records(entities, line, now) ensures RecordOk(r, entities, line, now) {
        if r in Records(init, line, now) {
          assert RecordOk(r, init, line, now);
          var i, u :| 0 <= i < |init| && init[i].tripUpdate.Some?
            && Wanted(init[i].tripUpdate.value.trip, line)
            && u in init[i].tripUpdate.value.stopTimeUpdates
            && UpdateRecord(r, init[i].tripUpdate.value.trip, u, now);
          assert init[i] == entities[i];
        } else {
          var tu := entities[n - 1].tripUpdate.value;
          StopRecordsOk(tu.trip, tu.stopTimeUpdates, now);
          var u :| u in tu.stopTimeUpdates && UpdateRecord(r, tu.trip, u, now);
          assert 0 <= n - 1 < |entities|;
        }
      }
    }
  }

  /** `extract_etas`. */
  method ExtractEtas(entities: seq<Entity>, line: Option<string>, now: int) returns (etas: Dict<seq<Train>>)
    ensures etas == Grouped(Records(entities, line, now))
  {
    etas := [];
    var i := 0;
    while i < |entities|
      invariant 0 <= i <= |entities|
      invariant etas == Grouped(Records(entities[..i], line, now))
    {
      assert entities[..i + 1][..i] == entities[..i];
      assert Records(entities[..i + 1], line, now) == Records(entities[..i], line, now) + EntityRecords(entities[i], line, now);
      var e := entities[i];
      if e.tripUpdate.Some? && Wanted(e.tripUpdate.value.trip, line) {
        etas := ExtractTrip(etas, Records(entities[..i], line, now), e.tripUpdate.value.trip,
                            e.tripUpdate.value.stopTimeUpdates, now);
      } else {
        assert Records(entities[..i], line, now) + EntityRecords(e, line, now) == Records(entities[..i], line, now);
      }
      i := i + 1;
    }
    assert entities[..i] == entities;
  }

  /** The inner loop of `extract_etas` over one trip's stop updates. */
  method ExtractTrip(etas0: Dict<seq<Train>>, ghost before: seq<(string, Train)>, trip: TripDescriptor,
                     updates: seq<StopTimeUpdate>, now: int)
    returns (etas: Dict<seq<Train>>)
    requires etas0 == Grouped(before)
    ensures etas == Grouped(before + StopRecords(trip, updates, now))
  {
    etas := etas0;
    var direction := Direction(trip);
    var j := 0;
    assert before + StopRecords(trip, updates[..0], now) == before;
    while j < |updates|
      invariant 0 <= j <= |updates|
      invariant etas == Grouped(before + StopRecords(trip, updates[..j], now))
    {
      ExtractStep(before, trip, updates, j, now);
      var u := updates[j];
      if u.arrival.Some? && u.arrival.value.Some? && u.arrival.value.value > now {
        var t := u.arrival.value.value;
        etas := Append(etas, StationKey(u.stopId, direction), Train(t, EtaMinutes(t, now), trip.tripId, trip.routeId, OnTime));
      }
      j := j + 1;
    }
    assert updates[..j] == updates;
  }

  lemma ExtractStep(before: seq<(string, Train)>, trip: TripDescriptor, updates: seq<StopTimeUpdate>, j: nat, now: int)
    requires j < |updates|
    ensures var u := updates[j];
      var g := Grouped(before + StopRecords(trip, updates[..j], now));
      Grouped(before + StopRecords(trip, updates[..j + 1], now))
      == if u.arrival.Some? && u.arrival.value.Some? && u.arrival.value.value > now
         then Append(g, StationKey(u.stopId, Direction(trip)),
                     Train(u.arrival.value.value, EtaMinutes(u.arrival.value.value, now), trip.tripId, trip.routeId, OnTime))
         else g
  {
    StopRecordsStep(trip, updates, j, now);
    var u := updates[j];
    var prev := before + StopRecords(trip, updates[..j], now);
    if u.arrival.Some? && u.arrival.value.Some? && u.arrival.value.value > now {
      var x := (StationKey(u.stopId, Direction(trip)),
                Train(u.arrival.value.value, EtaMinutes(u.arrival.value.value, now), trip.tripId, trip.routeId, OnTime));
      assert before + StopRecords(trip, updates[..j + 1], now) == prev + [x];
      GroupedSnoc(prev, x);
    } else {
      assert before + StopRecords(trip, updates[..j + 1], now) == prev;
    }
  }

  lemma StopRecordsStep(trip: TripDescriptor, updates: seq<StopTimeUpdate>, j: nat, now: int)
    requires j < |updates|
    ensures var u := updates[j];
      StopRecords(trip, updates[..j + 1], now)
      == StopRecords(trip, updates[..j], now)
        + if u.arrival.Some? && u.arrival.value.Some? && u.arrival.value.value > now
          then [(StationKey(u.stopId, Direction(trip)),
                 Train(u.arrival.value.value, EtaMinutes(u.arrival.value.value, now), trip.tripId, trip.routeId, OnTime))]
          else []
  {
    assert updates[..j + 1][..j] == updates[..j];
  }

  /** Every train stored under a key is a future arrival of a wanted trip,
      keyed by its stop and direction, with a non-negative whole-minute ETA
      and status "on_time"; nothing else is stored. */
  lemma EtaEntries(entities: seq<Entity>, line: Option<string>, now: int, key: string)
    ensures var g := Get(Grouped(Records(entities, line, now)), key);
      g.Some? ==> |g.value| > 0 && forall t :: t in g.value ==> RecordOk((key, t), entities, line, now)
  {
    GroupedGet(Records(entities, line, now), key);
    RecordsOk(entities, line, now);
  }

  /** A record's fields follow from `RecordOk`. */
  lemma RecordFacts(r: (string, Train), entities: seq<Entity>, line: Option<string>, now: int)
    requires RecordOk(r, entities, line, now)
    ensures r.1.etaMinutes >= 0 && r.1.arrivalTime > now
    ensures 60 * r.1.etaMinutes <= r.1.arrivalTime - now < 60 * (r.1.etaMinutes + 1)
    ensures r.1.status == OnTime && r.1.routeId in Config.TargetLines
    ensures Truthy(line) ==> r.1.routeId == line.value
    ensures exists stop, dir :: dir in ["N", "S"] && r.0 == StationKey(stop, dir)
  {
    var i, u :| 0 <= i < |entities| && entities[i].tripUpdate.Some?
      && Wanted(entities[i].tripUpdate.value.trip, line)
      && u in entities[i].tripUpdate.value.stopTimeUpdates
      && UpdateRecord(r, entities[i].tripUpdate.value.trip, u, now);
    var trip := entities[i].tripUpdate.value.trip;
    assert Direction(trip) in ["N", "S"];
  }

  /** Entities without a trip update contribute nothing. */
  lemma NoTripUpdateNoRecords(e: Entity, line: Option<string>, now: int)
    requires e.tripUpdate.None?
    ensures EntityRecords(e, line, now) == []
  {
  }

  /** A stop id without ':' gives a key that splits back into the stop id
      and the direction. */
  lemma StationKeySplits(stopId: string, direction: string)
    requires ':' !in stopId && ':' !in direction
    ensures SplitColon(StationKey(stopId, direction)) == Some((stopId, direction))
  {
    SplitColonJoin(stopId, direction);
  }
}
