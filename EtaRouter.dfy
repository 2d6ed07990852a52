/** The `/eta` endpoints: request checks, the choice of error status, and
    the shaping of the reply from what the cache holds. Authentication is
    not modelled. */
module EtaRouter {
  import opened Wrappers
  import opened Strings
  import Config
  import GtfsParser
  import opened RedisStore
  import opened RedisService

  const BadRequest := 400
  const NotFound := 404
  const InternalServerError := 500

  /** A reply: a body, or an HTTP error with its detail text. */
  datatype Reply<T> = Success(body: T) | Failure(status: int, detail: string)

  /** The body of a successful `GET /eta` (`last_updated` is never set). */
  datatype EtaResponse = EtaResponse(line: string, stationId: string, stationName: Option<string>,
                                     etas: seq<DirectionEtas>)

  /** `sep.join(items)`. */
  function Join(items: seq<string>, sep: string): string
    decreases |items|
  {
    if |items| == 0 then ""
    else if |items| == 1 then items[0]
    else Join(items[..|items| - 1], sep) + sep + items[|items| - 1]
  }

  const InvalidLineDetail := "Invalid line. Supported lines: " + Join(Config.SupportedLines, ", ")
  const InvalidDirectionDetail := "Direction must be 'N' (Northbound) or 'S' (Southbound)"
  /** The 500 detail; the exception's own text that follows it is not
      modelled. */
  const InternalErrorDetail := "Internal server error"

  function NotFoundDetail(line: string, stationId: string): string {
    "No ETA data found for line " + line + " at station " + stationId
  }

  /** The pydantic check on a train of the reply (`eta_minutes >= 0`). */
  predicate ValidTrain(t: Train) {
    t.etaMinutes >= 0
  }

  predicate TrainsValid(trains: seq<Train>) {
    forall t :: t in trains ==> ValidTrain(t)
  }

  /** Every train of every direction passes the check. */
  predicate AllValid(found: seq<DirectionEtas>) {
    forall k :: 0 <= k < |found| ==> TrainsValid(found[k].trains)
  }

  /** `trains[:3]`. */
  function FirstThree(trains: seq<Train>): (r: seq<Train>)
    ensures |r| <= 3 && r <= trains
    ensures |trains| <= 3 ==> r == trains
  {
    trains[..if |trains| <= 3 then |trains| else 3]
  }

  /** The directions of the reply, each with its first three trains. */
  function Shaped(found: seq<DirectionEtas>): seq<DirectionEtas>
    decreases |found|
  {
    if |found| == 0 then []
    else
      var last := found[|found| - 1];
      Shaped(found[..|found| - 1]) + [DirectionEtas(last.direction, FirstThree(last.trains))]
  }

  lemma {:induction false} ShapedFacts(found: seq<DirectionEtas>)
    ensures var r := Shaped(found);
      && |r| == |found|
      && forall k :: 0 <= k < |found| ==>
        r[k].direction == found[k].direction && r[k].trains == FirstThree(found[k].trains)
    decreases |found|
  {
    if |found| > 0 {
      ShapedFacts(found[..|found| - 1]);
    }
  }

  /** The station name a direction's stored entry carries, if it is an
      object. */
  function StoredName(entries: map<string, Entry>, line: string, stationId: string, direction: string): Option<string> {
    var key := EtaKey(line, stationId, direction);
    if key in entries && entries[key].value.Json? && !entries[key].value.doc.NonObject?
    then StationNameField(entries[key].value.doc)
    else None
  }

  /** The loop's `station_name`: taken from each direction's entry in turn
      until it is truthy. */
  function NameOf(entries: map<string, Entry>, line: string, stationId: string, found: seq<DirectionEtas>): Option<string>
    decreases |found|
  {
    if |found| == 0 then None
    else
      var prev := NameOf(entries, line, stationId, found[..|found| - 1]);
      if GtfsParser.Truthy(prev) then prev
      else
        var key := EtaKey(line, stationId, found[|found| - 1].direction);
        if key in entries && entries[key].value.Json? && !entries[key].value.doc.NonObject?
        then StationNameField(entries[key].value.doc)
        else prev
  }

  /** The reply's station name is the name of the first direction that has
      a non-empty one; when none has, it is not a non-empty name. */
  lemma {:induction false} NameOfFirst(entries: map<string, Entry>, line: string, stationId: string, found: seq<DirectionEtas>)
    ensures var n := NameOf(entries, line, stationId, found);
      && (GtfsParser.Truthy(n) ==>
            (exists k :: 0 <= k < |found|
              && n == StoredName(entries, line, stationId, found[k].direction)
              && forall j :: 0 <= j < k ==> !GtfsParser.Truthy(StoredName(entries, line, stationId, found[j].direction))))
      && (!GtfsParser.Truthy(n) ==> forall k :: 0 <= k < |found| ==>
            !GtfsParser.Truthy(StoredName(entries, line, stationId, found[k].direction)))
    decreases |found|
  {
    if |found| > 0 {
      var init := found[..|found| - 1];
      NameOfFirst(entries, line, stationId, init);
      var prev := NameOf(entries, line, stationId, init);
      var n := NameOf(entries, line, stationId, found);
      if GtfsParser.Truthy(prev) {
        var k :| 0 <= k < |init|
          && prev == StoredName(entries, line, stationId, init[k].direction)
          && forall j :: 0 <= j < k ==> !GtfsParser.Truthy(StoredName(entries, line, stationId, init[j].direction));
        assert found[k] == init[k];
        forall j | 0 <= j < k ensures !GtfsParser.Truthy(StoredName(entries, line, stationId, found[j].direction)) {
          assert found[j] == init[j];
        }
      } else {
        forall j | 0 <= j < |init| ensures !GtfsParser.Truthy(StoredName(entries, line, stationId, found[j].direction)) {
          assert found[j] == init[j];
        }
        if GtfsParser.Truthy(n) {
          assert n == StoredName(entries, line, stationId, found[|found| - 1].direction);
        }
      }
    }
  }

  /** `GET /eta`, as a function of the store. */
  function EtaReply(entries: map<string, Entry>, up: bool, line: string, stationId: string,
                    direction: Option<string>): Reply<EtaResponse> {
    var l := Upper(line);
    if l !in Config.SupportedLines then Failure(BadRequest, InvalidLineDetail)
    else if GtfsParser.Truthy(direction) && Upper(direction.value) !in BothDirections then
      Failure(BadRequest, InvalidDirectionDetail)
    else
      var dir := if GtfsParser.Truthy(direction) then Some(Upper(direction.value)) else direction;
      match EtaLookup(entries, up, l, stationId, dir)
      case None => Failure(NotFound, NotFoundDetail(l, stationId))
      case Some(found) =>
        if !AllValid(found) then Failure(InternalServerError, InternalErrorDetail)
        else Success(EtaResponse(l, stationId, NameOf(entries, l, stationId, found), Shaped(found)))
  }

  /** Which status a request gets: 400 exactly for an unsupported line or
      a direction other than N or S (in any case), 404 exactly for a valid
      request with nothing cached, and 500 only for a cached train the reply
      model rejects. */
  lemma EtaReplyStatus(entries: map<string, Entry>, up: bool, line: string, stationId: string, direction: Option<string>)
    ensures var r := EtaReply(entries, up, line, stationId, direction);
      var valid := Upper(line) in Config.SupportedLines
        && !(GtfsParser.Truthy(direction) && Upper(direction.value) !in ["N", "S"]);
      var dir := if GtfsParser.Truthy(direction) then Some(Upper(direction.value)) else direction;
      && (r.Failure? ==> r.status in {BadRequest, NotFound, InternalServerError})
      && (r.Failure? && r.status == BadRequest <==> !valid)
      && (r.Failure? && r.status == NotFound <==> valid && EtaLookup(entries, up, Upper(line), stationId, dir).None?)
      && (r.Failure? && r.status == InternalServerError <==>
            valid && EtaLookup(entries, up, Upper(line), stationId, dir).Some?
            && !AllValid(EtaLookup(entries, up, Upper(line), stationId, dir).value))
  {
  }

  /** A successful reply names the upper-cased line, keeps every direction
      found in query order, and cuts each to its first three trains. */
  lemma EtaReplyShape(entries: map<string, Entry>, up: bool, line: string, stationId: string, direction: Option<string>)
    ensures var r := EtaReply(entries, up, line, stationId, direction);
      var dir := if GtfsParser.Truthy(direction) then Some(Upper(direction.value)) else direction;
      var found := EtaLookup(entries, up, Upper(line), stationId, dir);
      r.Success? ==>
        && r.body.line == Upper(line) && r.body.line in Config.SupportedLines
        && r.body.stationId == stationId
        && found.Some? && |r.body.etas| == |found.value| > 0
        && forall k :: 0 <= k < |found.value| ==>
             && r.body.etas[k].direction == found.value[k].direction
             && r.body.etas[k].trains == FirstThree(found.value[k].trains)
             && |r.body.etas[k].trains| <= 3
  {
    var r := EtaReply(entries, up, line, stationId, direction);
    if r.Success? {
      var dir := if GtfsParser.Truthy(direction) then Some(Upper(direction.value)) else direction;
      ShapedFacts(EtaLookup(entries, up, Upper(line), stationId, dir).value);
    }
  }

  /** A valid request while the cache cannot be reached is answered 404,
      not 500: `get_eta` logs the failed reads and finds nothing. */
  lemma UnreachableIsNotFound(entries: map<string, Entry>, line: string, stationId: string, direction: Option<string>)
    requires Upper(line) in Config.SupportedLines
    requires !(GtfsParser.Truthy(direction) && Upper(direction.value) !in ["N", "S"])
    ensures EtaReply(entries, false, line, stationId, direction) == Failure(NotFound, NotFoundDetail(Upper(line), stationId))
  {
    var dir := if GtfsParser.Truthy(direction) then Some(Upper(direction.value)) else direction;
    UnreachableFindsNothing(entries, Upper(line), stationId, Directions(dir));
  }

  /** `GET /eta`, with its loop building the directions and the station
      name. */
  method GetEta(store: Store, up: bool, line: string, stationId: string, direction: Option<string>)
    returns (reply: Reply<EtaResponse>)
    ensures reply == EtaReply(store.entries, up, line, stationId, direction)
  {
    var l := Upper(line);
    if l !in Config.SupportedLines {
      return Failure(BadRequest, InvalidLineDetail);
    }
    var dir := direction;
    if GtfsParser.Truthy(direction) {
      dir := Some(Upper(direction.value));
      if dir.value !in BothDirections {
        return Failure(BadRequest, InvalidDirectionDetail);
      }
    }
    var etaData := RedisService.GetEta(store, up, l, stationId, dir);
    if etaData.None? {
      return Failure(NotFound, NotFoundDetail(l, stationId));
    }
    var found := etaData.value;
    var valid, directionEtas, stationName := ShapeReply(store, l, stationId, found);
    if !valid {
      return Failure(InternalServerError, InternalErrorDetail);
    }
    return Success(EtaResponse(l, stationId, stationName, directionEtas));
  }

  /** The loop of `GET /eta` over the directions found: it checks each
      direction's trains, keeps the first three, and takes the station name
      from the stored entries until it has a non-empty one. `valid` is false
      when a train fails the check (the reply is then a 500). */
  method ShapeReply(store: Store, line: string, stationId: string, found: seq<DirectionEtas>)
    returns (valid: bool, directionEtas: seq<DirectionEtas>, stationName: Option<string>)
    ensures valid == AllValid(found)
    ensures valid ==> directionEtas == Shaped(found) && stationName == NameOf(store.entries, line, stationId, found)
  {
    directionEtas := [];
    stationName := None;
    var i := 0;
    while i < |found|
      invariant 0 <= i <= |found|
      invariant AllValid(found[..i])
      invariant directionEtas == Shaped(found[..i])
      invariant stationName == NameOf(store.entries, line, stationId, found[..i])
    {
      var dirData := found[i];
      assert found[..i + 1][..i] == found[..i];
      assert found[..i + 1][i] == dirData;
      if exists t :: t in dirData.trains && !ValidTrain(t) {
        assert !TrainsValid(found[i].trains);
        return false, directionEtas, stationName;
      }
      directionEtas := directionEtas + [DirectionEtas(dirData.direction, FirstThree(dirData.trains))];
      if !GtfsParser.Truthy(stationName) {
        var cacheKey := EtaKey(line, stationId, dirData.direction);
        if cacheKey in store.entries {
          var cached := store.entries[cacheKey].value;
          if cached.Json? && !cached.doc.NonObject? {
            stationName := StationNameField(cached.doc);
          }
        }
      }
      assert AllValid(found[..i + 1]) by {
        ghost var next := found[..i + 1];
        forall k | 0 <= k < i + 1 ensures TrainsValid(next[k].trains) {
          if k < i {
            assert next[k] == found[..i][k];
          }
        }
      }
      i := i + 1;
    }
    assert found[..i] == found;
    return true, directionEtas, stationName;
  }

  /** The body of `GET /eta/stations/{line}`: the cached value, or an empty
      list for the line. */
  datatype StationsBody = Cached(doc: Doc) | NoStations(line: string)

  /** The framework's text when a returned value fails the route's
      `response_model`. */
  const ResponseValidationDetail := "Internal Server Error"

  /** The route declares `response_model=dict`, so a truthy cached value
      that is not an object (a list, a string, a number, `true`) fails the
      response check and is answered 500. */
  function StationsReply(entries: map<string, Entry>, up: bool, line: string): Reply<StationsBody> {
    var l := Upper(line);
    if l !in Config.SupportedLines then Failure(BadRequest, InvalidLineDetail)
    else match GetStations(entries, up, l)
      case Some(doc) =>
        if !DocTruthy(doc) then Success(NoStations(l))
        else if doc.NonObject? then Failure(InternalServerError, ResponseValidationDetail)
        else Success(Cached(doc))
      case None => Success(NoStations(l))
  }

  /** An unsupported line gets 400; a truthy cached value that is not an
      object gets 500; otherwise the cached object is returned when it is
      truthy, and an empty list for the upper-cased line in every other
      case, a missing key among them. */
  lemma StationsReplyCases(entries: map<string, Entry>, up: bool, line: string)
    ensures var r := StationsReply(entries, up, line);
      var l := Upper(line);
      && (r.Failure? ==> r.status in {BadRequest, InternalServerError})
      && (r.Failure? && r.status == BadRequest <==> l !in Config.SupportedLines)
      && (r.Failure? && r.status == InternalServerError <==>
            l in Config.SupportedLines && up && StationsKey(l) in entries
            && entries[StationsKey(l)].value.Json? && entries[StationsKey(l)].value.doc.NonObject?
            && entries[StationsKey(l)].value.doc.truthy)
      && (r.Success? && r.body.Cached? <==>
            l in Config.SupportedLines && up && StationsKey(l) in entries
            && entries[StationsKey(l)].value.Json? && DocTruthy(entries[StationsKey(l)].value.doc)
            && !entries[StationsKey(l)].value.doc.NonObject?)
      && (r.Success? && r.body.Cached? ==> !r.body.doc.NonObject?)
      && (r.Success? && r.body.Cached? ==> entries[StationsKey(l)].value == Json(r.body.doc))
      && (r.Success? && r.body.NoStations? ==> r.body.line == l)
      && (l in Config.SupportedLines && StationsKey(l) !in entries ==> r == Success(NoStations(l)))
  {
  }
}
