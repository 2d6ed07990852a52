/** The Redis key-value store shared by the worker and the API, as far as
    they use it: each key holds a stored text and, when it was written with
    SETEX, its lifetime in seconds. Expiry itself (the passing of time) is
    not modelled. */
module RedisStore {
  import opened Wrappers
  import opened Dicts
  import GtfsParser

  type Train = GtfsParser.Train

  /** The ETA record the writers store under an `eta:` key. */
  datatype EtaRecord = EtaRecord(line: string, stationId: string, direction: string,
                                 trains: seq<Train>, stationName: Option<string>, lastUpdated: string)

  /** A decoded JSON value, as far as the readers look into it: an ETA
      record as the writers produce it, any other object (with the two
      fields the readers look up, `None` when absent or null, and whether
      it has any other key), or a value that is not an object. */
  datatype Doc =
    | Record(record: EtaRecord)
    | OtherObject(trains: Option<seq<Train>>, stationName: Option<string>, otherKeys: bool)
    | NonObject(truthy: bool)

  /** `.get("trains", [])` on an object. */
  function TrainsField(d: Doc): (r: seq<Train>)
    requires !d.NonObject?
    ensures d.Record? ==> r == d.record.trains
    ensures d.OtherObject? ==> r == d.trains.GetOr([])
  {
    match d
    case Record(rec) => rec.trains
    case OtherObject(trains, _, _) => trains.GetOr([])
  }

  /** `.get("station_name")` on an object. */
  function StationNameField(d: Doc): (r: Option<string>)
    requires !d.NonObject?
    ensures d.Record? ==> r == d.record.stationName
    ensures d.OtherObject? ==> r == d.stationName
  {
    match d
    case Record(rec) => rec.stationName
    case OtherObject(_, name, _) => name
  }

  /** Python truthiness of a decoded value: an object is truthy when it has
      a key. */
  predicate DocTruthy(d: Doc) {
    match d
    case Record(_) => true
    case OtherObject(trains, name, otherKeys) => trains.Some? || name.Some? || otherKeys
    case NonObject(truthy) => truthy
  }

  /** A stored text: the empty string, text that is not JSON, or the
      encoding of a JSON value. `json.dumps` never yields the empty string,
      so every write stores `Json`. */
  datatype Cell = Blank | Garbled | Json(doc: Doc)

  datatype Entry = Entry(value: Cell, ttl: Option<int>)

  /** The key of a station's arrivals in one direction:
      `"eta:{line}:{station_id}:{direction}"`. */
  function EtaKey(line: string, stationId: string, direction: string): string {
    "eta:" + line + ":" + stationId + ":" + direction
  }

  /** The key of a line's station list: `"stations:{line}"`. */
  function StationsKey(line: string): string {
    "stations:" + line
  }

  /** The ETA key of a line is the line's prefix followed by the worker's
      `"{stop_id}:{direction}"` grouping key, so different grouping keys give
      different store keys. */
  lemma EtaKeyInjective(line: string, s1: string, d1: string, s2: string, d2: string)
    requires EtaKey(line, s1, d1) == EtaKey(line, s2, d2)
    ensures s1 + ":" + d1 == s2 + ":" + d2
  {
    var p := "eta:" + line + ":";
    assert EtaKey(line, s1, d1) == p + (s1 + ":" + d1);
    assert EtaKey(line, s2, d2) == p + (s2 + ":" + d2);
    assert (p + (s1 + ":" + d1))[|p|..] == s1 + ":" + d1;
    assert (p + (s2 + ":" + d2))[|p|..] == s2 + ":" + d2;
  }

  /** The entries after the writes `ws`, in order, each with lifetime
      `ttl`. */
  function Written(entries: map<string, Entry>, ws: seq<(string, Doc)>, ttl: int): map<string, Entry>
    decreases |ws|
  {
    if |ws| == 0 then entries
    else Written(entries, ws[..|ws| - 1], ttl)[ws[|ws| - 1].0 := Entry(Json(ws[|ws| - 1].1), Some(ttl))]
  }

  /** A key holds the last value written to it, or what it held before when
      no write names it. */
  lemma {:induction false} WrittenGet(entries: map<string, Entry>, ws: seq<(string, Doc)>, ttl: int, key: string)
    ensures var after := Written(entries, ws, ttl);
      match LastFor(ws, key)
      case Some(doc) => key in after && after[key] == Entry(Json(doc), Some(ttl))
      case None => (key in after <==> key in entries) && (key in entries ==> after[key] == entries[key])
    decreases |ws|
  {
    if |ws| > 0 {
      WrittenGet(entries, ws[..|ws| - 1], ttl, key);
    }
  }

  lemma {:induction false} WrittenAppend(entries: map<string, Entry>, a: seq<(string, Doc)>, b: seq<(string, Doc)>, ttl: int)
    ensures Written(entries, a + b, ttl) == Written(Written(entries, a, ttl), b, ttl)
    decreases |b|
  {
    if |b| == 0 {
      assert a + b == a;
    } else {
      assert (a + b)[..|a + b| - 1] == a + b[..|b| - 1];
      WrittenAppend(entries, a, b[..|b| - 1], ttl);
    }
  }

  lemma WrittenSnoc(entries: map<string, Entry>, ws: seq<(string, Doc)>, x: (string, Doc), ttl: int)
    ensures Written(entries, ws + [x], ttl) == Written(entries, ws, ttl)[x.0 := Entry(Json(x.1), Some(ttl))]
  {
    assert (ws + [x])[..|ws|] == ws;
  }

  class Store {
    var entries: map<string, Entry>

    /** An empty database. */
    constructor ()
      ensures entries == map[]
    {
      entries := map[];
    }

    /** SETEX. It fails, changing nothing, when the server cannot be reached
        or the lifetime is not positive (Redis rejects it as an invalid
        expire time); otherwise the key holds the encoded value with that
        lifetime. */
    method SetEx(key: string, ttl: int, doc: Doc, reachable: bool) returns (ok: bool)
      modifies this
      ensures ok == (reachable && ttl > 0)
      ensures entries == if ok then old(entries)[key := Entry(Json(doc), Some(ttl))] else old(entries)
    {
      if !reachable || ttl <= 0 {
        return false;
      }
      entries := entries[key := Entry(Json(doc), Some(ttl))];
      return true;
    }
  }
}
