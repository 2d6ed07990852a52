/** One polling cycle of the worker: every feed is fetched and parsed in
    turn, each of its target lines is extracted and cached, and an event
    naming the feed's lines is published. The outer `while running` loop,
    the sleep between cycles and the connection check before it are not
    modelled; the fetch, a failed parse and the store's acceptance of each
    write are inputs. */
module Worker {
  import opened Wrappers
  import opened Dicts
  import Config
  import GtfsParser
  import opened RedisStore
  import CacheService

  /** The lines each feed carries; `None` for a feed the mapping does not
      know. */
  function FeedLineMapping(feedName: string): Option<seq<string>> {
    if feedName == "1234567S" then Some(["1", "2", "3", "4", "5", "6", "7", "S"])
    else if feedName == "ACE" then Some(["A", "C", "E", "H"])
    else if feedName == "BDFM" then Some(["B", "D", "F", "M"])
    else if feedName == "G" then Some(["G"])
    else if feedName == "JZ" then Some(["J", "Z"])
    else if feedName == "NQRW" then Some(["N", "Q", "R", "W"])
    else if feedName == "L" then Some(["L"])
    else None
  }

  /** `[x for x in s if x in keep]`. */
  function Filter(s: seq<string>, keep: seq<string>): (r: seq<string>)
    ensures |r| <= |s|
    ensures forall x :: x in r <==> x in s && x in keep
    decreases |s|
  {
    if |s| == 0 then []
    else (if s[0] in keep then [s[0]] else []) + Filter(s[1..], keep)
  }

  /** `r` is `s` with some elements left out, the others in their
      order. */
  predicate Subsequence(r: seq<string>, s: seq<string>)
    decreases |s|
  {
    if |s| == 0 then r == []
    else (|r| > 0 && r[0] == s[0] && Subsequence(r[1..], s[1..])) || Subsequence(r, s[1..])
  }

  /** The filter keeps the order of `s`. */
  lemma {:induction false} FilterOrdered(s: seq<string>, keep: seq<string>)
    ensures Subsequence(Filter(s, keep), s)
    decreases |s|
  {
    if |s| > 0 {
      FilterOrdered(s[1..], keep);
      if s[0] in keep {
        assert Filter(s, keep) == [s[0]] + Filter(s[1..], keep);
        assert Filter(s, keep)[1..] == Filter(s[1..], keep);
      } else {
        assert Filter(s, keep) == Filter(s[1..], keep);
      }
    }
  }

  lemma {:induction false} EmptySubsequence(s: seq<string>)
    ensures Subsequence([], s)
    decreases |s|
  {
    if |s| > 0 {
      EmptySubsequence(s[1..]);
    }
  }

  /** The feed's target lines, in the order of `TARGET_LINES`; none for a
      feed the mapping does not know. */
  function FeedLines(targets: seq<string>, feedName: string): seq<string> {
    match FeedLineMapping(feedName)
    case Some(mapped) => Filter(targets, mapped)
    case None => []
  }

  /** A feed's lines are the target lines it carries, in target order,
      and none for a feed the mapping does not know. */
  lemma FeedLinesFacts(targets: seq<string>, feedName: string)
    ensures var ls := FeedLines(targets, feedName);
      && Subsequence(ls, targets)
      && forall x :: x in ls <==> (x in targets && FeedLineMapping(feedName).Some?
                                   && x in FeedLineMapping(feedName).value)
  {
    if FeedLineMapping(feedName).Some? {
      FilterOrdered(targets, FeedLineMapping(feedName).value);
    } else {
      EmptySubsequence(targets);
    }
  }

  /** The shuttle "S" and the "H" of the mapping are not target lines, so
      they are never processed. */
  lemma MappedNonTargetsSkipped(feedName: string)
    ensures "S" !in FeedLines(Config.TargetLines, feedName) && "H" !in FeedLines(Config.TargetLines, feedName)
  {
    assert "S" !in Config.TargetLines && "H" !in Config.TargetLines;
  }

  /** Every target line is carried by one of the configured feeds, so a
      cycle in which every feed parses processes all of them. */
  lemma TargetLinesCovered(targets: seq<string>, line: string)
    requires line in targets && line in Config.TargetLines
    ensures exists f :: f in Config.FeedNames && line in FeedLines(targets, f)
  {
    var f := if line in ["1", "2", "3", "4", "5", "6", "7"] then "1234567S"
      else if line in ["A", "C", "E"] then "ACE"
      else if line in ["B", "D", "F", "M"] then "BDFM"
      else if line == "G" then "G"
      else if line in ["J", "Z"] then "JZ"
      else if line in ["N", "Q", "R", "W"] then "NQRW"
      else "L";
    FeedLinesFacts(targets, f);
    assert f in Config.FeedNames;
  }

  /** How fetching and parsing a feed ended. */
  datatype FeedOutcome = Unfetched | Unparsable | Parsed(entities: seq<GtfsParser.Entity>)

  /** A published "ETA processed" event. */
  datatype Event = Event(feed: string, lines: seq<string>)

  /** The writes made for one line: none when its extraction is empty. The
      worker passes no station names. */
  function LineWrites(entities: seq<GtfsParser.Entity>, line: string, now: int, lastUpdated: string,
                      accepted: string -> bool): seq<(string, Doc)> {
    var etas := Grouped(GtfsParser.Records(entities, Some(line), now));
    if |etas| == 0 then [] else CacheService.CacheRun(line, etas, [], lastUpdated, accepted).writes
  }

  /** The writes made for a feed's lines, line by line. */
  function FeedWrites(entities: seq<GtfsParser.Entity>, lines: seq<string>, now: int, lastUpdated: string,
                      accepted: string -> bool): seq<(string, Doc)>
    decreases |lines|
  {
    if |lines| == 0 then []
    else
      FeedWrites(entities, lines[..|lines| - 1], now, lastUpdated, accepted)
        + LineWrites(entities, lines[|lines| - 1], now, lastUpdated, accepted)
  }

  /** The writes of a cycle over `feeds`: only parsed feeds write. */
  function CycleWrites(fetch: string -> FeedOutcome, targets: seq<string>, feeds: seq<string>, now: int, lastUpdated: string,
                       accepted: string -> bool): seq<(string, Doc)>
    decreases |feeds|
  {
    if |feeds| == 0 then []
    else
      var f := feeds[|feeds| - 1];
      CycleWrites(fetch, targets, feeds[..|feeds| - 1], now, lastUpdated, accepted)
        + if fetch(f).Parsed? then FeedWrites(fetch(f).entities, FeedLines(targets, f), now, lastUpdated, accepted) else []
  }

  /** `lines_processed_all_feeds`: the lines of the parsed feeds, in feed
      order. */
  function Processed(fetch: string -> FeedOutcome, targets: seq<string>, feeds: seq<string>): seq<string>
    decreases |feeds|
  {
    if |feeds| == 0 then []
    else
      var f := feeds[|feeds| - 1];
      Processed(fetch, targets, feeds[..|feeds| - 1]) + if fetch(f).Parsed? then FeedLines(targets, f) else []
  }

  /** The events of a cycle: one per parsed feed with lines. */
  function Events(fetch: string -> FeedOutcome, targets: seq<string>, feeds: seq<string>): seq<Event>
    decreases |feeds|
  {
    if |feeds| == 0 then []
    else
      var f := feeds[|feeds| - 1];
      Events(fetch, targets, feeds[..|feeds| - 1])
        + if fetch(f).Parsed? && FeedLines(targets, f) != [] then [Event(f, FeedLines(targets, f))] else []
  }

  /** Every event names a parsed feed and exactly its non-empty list of
      lines. */
  lemma {:induction false} EventsFacts(fetch: string -> FeedOutcome, targets: seq<string>, feeds: seq<string>)
    ensures |Events(fetch, targets, feeds)| <= |feeds|
    ensures forall e :: e in Events(fetch, targets, feeds) ==>
      e.feed in feeds && fetch(e.feed).Parsed? && e.lines == FeedLines(targets, e.feed) && e.lines != []
    decreases |feeds|
  {
    if |feeds| > 0 {
      EventsFacts(fetch, targets, feeds[..|feeds| - 1]);
      assert forall f :: f in feeds[..|feeds| - 1] ==> f in feeds;
    }
  }

  /** Every processed line comes from a parsed feed that carries it. */
  lemma {:induction false} ProcessedFrom(fetch: string -> FeedOutcome, targets: seq<string>, feeds: seq<string>)
    ensures forall x :: x in Processed(fetch, targets, feeds) ==>
      exists f :: f in feeds && fetch(f).Parsed? && x in FeedLines(targets, f)
    decreases |feeds|
  {
    if |feeds| > 0 {
      ProcessedFrom(fetch, targets, feeds[..|feeds| - 1]);
      assert forall f :: f in feeds[..|feeds| - 1] ==> f in feeds;
    }
  }

  /** The worker never passes station names, so every record it caches has
      none, and each is stored under the ETA key of one of the feed's
      lines. */
  lemma {:induction false} FeedWritesUnnamed(entities: seq<GtfsParser.Entity>, lines: seq<string>, now: int,
                                             lastUpdated: string, accepted: string -> bool)
    ensures forall w :: w in FeedWrites(entities, lines, now, lastUpdated, accepted) ==>
      && w.1.Record? && w.1.record.stationName.None? && w.1.record.line in lines
      && w.0 == EtaKey(w.1.record.line, w.1.record.stationId, w.1.record.direction)
    decreases |lines|
  {
    if |lines| > 0 {
      var init := lines[..|lines| - 1];
      var line := lines[|lines| - 1];
      FeedWritesUnnamed(entities, init, now, lastUpdated, accepted);
      assert forall x :: x in init ==> x in lines;
      var etas := Grouped(GtfsParser.Records(entities, Some(line), now));
      CacheService.CacheRunWrites(line, etas, [], lastUpdated, accepted);
      forall w | w in LineWrites(entities, line, now, lastUpdated, accepted)
        ensures && w.1.Record? && w.1.record.stationName.None? && w.1.record.line in lines
                && w.0 == EtaKey(w.1.record.line, w.1.record.stationId, w.1.record.direction)
      {
        assert CacheService.WriteOk(w, line, etas, [], lastUpdated, accepted);
        var i :| 0 <= i < |etas| && CacheService.WriteOf(w, line, etas[i], [], lastUpdated, accepted);
      }
    }
  }

  /** One feed's contribution to the cycle. */
  lemma CycleStep(fetch: string -> FeedOutcome, targets: seq<string>, feeds: seq<string>, f: nat, now: int, lastUpdated: string,
                  accepted: string -> bool)
    requires f < |feeds|
    ensures var name := feeds[f];
      var lines := FeedLines(targets, name);
      var parsed := fetch(name).Parsed?;
      && Processed(fetch, targets, feeds[..f + 1]) == Processed(fetch, targets, feeds[..f]) + (if parsed then lines else [])
      && Events(fetch, targets, feeds[..f + 1])
         == Events(fetch, targets, feeds[..f]) + (if parsed && lines != [] then [Event(name, lines)] else [])
      && CycleWrites(fetch, targets, feeds[..f + 1], now, lastUpdated, accepted)
         == CycleWrites(fetch, targets, feeds[..f], now, lastUpdated, accepted)
            + (if parsed then FeedWrites(fetch(name).entities, lines, now, lastUpdated, accepted) else [])
  {
    assert feeds[..f + 1][..f] == feeds[..f];
  }

  class WorkerService {
    const store: Store
    /** `config.TARGET_LINES` and the names of `config.MTA_FEEDS`, in
        order. */
    const targetLines: seq<string>
    const feedNames: seq<string>
    var published: seq<Event>
    var running: bool

    /** A worker with the configured lines and feeds, writing to `store`. */
    constructor (store: Store)
      ensures this.store == store && targetLines == Config.TargetLines && feedNames == Config.FeedNames
      ensures published == [] && running
    {
      this.store := store;
      targetLines := Config.TargetLines;
      feedNames := Config.FeedNames;
      published := [];
      running := true;
    }

    /** The signal handler: the loop stops after the current cycle. */
    method Stop()
      modifies this
      ensures !running && published == old(published)
    {
      running := false;
    }

    /** One pass of the `while self.running` loop over the configured
        feeds, in order. `fetch` gives each feed's fetch and parse outcome,
        `now` the time, `accepted` which writes the store takes. The result
        is `lines_processed_all_feeds`. */
    method ProcessCycle(fetch: string -> FeedOutcome, now: int, lastUpdated: string, accepted: string -> bool)
      returns (processed: seq<string>)
      modifies this, store
      ensures processed == Processed(fetch, targetLines, feedNames)
      ensures published == old(published) + Events(fetch, targetLines, feedNames)
      ensures store.entries == Written(old(store.entries), CycleWrites(fetch, targetLines, feedNames, now, lastUpdated, accepted),
                                       Config.RedisTtlSeconds)
      ensures running == old(running)
    {
      ghost var start := store.entries;
      processed := [];
      var f := 0;
      while f < |feedNames|
        invariant 0 <= f <= |feedNames|
        invariant processed == Processed(fetch, targetLines, feedNames[..f])
        invariant published == old(published) + Events(fetch, targetLines, feedNames[..f])
        invariant store.entries == Written(start, CycleWrites(fetch, targetLines, feedNames[..f], now, lastUpdated, accepted),
                                           Config.RedisTtlSeconds)
        invariant running == old(running)
      {
        var feedName := feedNames[f];
        ghost var before := CycleWrites(fetch, targetLines, feedNames[..f], now, lastUpdated, accepted);
        CycleStep(fetch, targetLines, feedNames, f, now, lastUpdated, accepted);
        var outcome := fetch(feedName);
        var feedLines := ProcessFeedOutcome(feedName, outcome, now, lastUpdated, accepted);
        WrittenAppend(start, before,
                      if outcome.Parsed? then FeedWrites(outcome.entities, FeedLines(targetLines, feedName), now, lastUpdated, accepted) else [],
                      Config.RedisTtlSeconds);
        ghost var events := Events(fetch, targetLines, feedNames[..f]);
        ghost var event := if feedLines != [] then [Event(feedName, feedLines)] else [];
        assert Events(fetch, targetLines, feedNames[..f + 1]) == events + event;
        Publish(feedName, feedLines);
        assert published == old(published) + events + event;
        processed := processed + feedLines;
        f := f + 1;
      }
      assert feedNames[..f] == feedNames;
    }

    /** `publish_eta_processed`, for a feed with lines. */
    method Publish(feedName: string, feedLines: seq<string>)
      modifies this
      ensures published == old(published) + if feedLines != [] then [Event(feedName, feedLines)] else []
      ensures running == old(running)
    {
      if feedLines != [] {
        published := published + [Event(feedName, feedLines)];
      }
    }

    /** One feed of the cycle: a feed that was not fetched or did not parse
        is skipped; otherwise its lines are processed. The result is the
        feed's contribution to the processed lines; the caller publishes an
        event when it has any. */
    method ProcessFeedOutcome(feedName: string, outcome: FeedOutcome, now: int, lastUpdated: string,
                              accepted: string -> bool)
      returns (feedLines: seq<string>)
      modifies store
      ensures feedLines == if outcome.Parsed? then FeedLines(targetLines, feedName) else []
      ensures store.entries == Written(old(store.entries),
        if outcome.Parsed? then FeedWrites(outcome.entities, FeedLines(targetLines, feedName), now, lastUpdated, accepted) else [],
        Config.RedisTtlSeconds)
    {
      if !outcome.Parsed? {
        return [];
      }
      feedLines := FeedLines(targetLines, feedName);
      ProcessFeed(outcome.entities, feedLines, now, lastUpdated, accepted);
    }

    /** The loop over one parsed feed's lines. A failing update is logged
        and the next line is processed. */
    method ProcessFeed(entities: seq<GtfsParser.Entity>, lines: seq<string>, now: int, lastUpdated: string,
                       accepted: string -> bool)
      modifies store
      ensures store.entries == Written(old(store.entries), FeedWrites(entities, lines, now, lastUpdated, accepted),
                                       Config.RedisTtlSeconds)
    {
      ghost var start := store.entries;
      var i := 0;
      while i < |lines|
        invariant 0 <= i <= |lines|
        invariant store.entries == Written(start, FeedWrites(entities, lines[..i], now, lastUpdated, accepted),
                                           Config.RedisTtlSeconds)
      {
        var line := lines[i];
        ghost var before := FeedWrites(entities, lines[..i], now, lastUpdated, accepted);
        assert lines[..i + 1][..i] == lines[..i];
        ProcessLine(entities, line, now, lastUpdated, accepted);
        WrittenAppend(start, before, LineWrites(entities, line, now, lastUpdated, accepted), Config.RedisTtlSeconds);
        i := i + 1;
      }
      assert lines[..i] == lines;
    }

    /** One line of a feed: its arrivals are extracted and, when there are
        any, cached. */
    method ProcessLine(entities: seq<GtfsParser.Entity>, line: string, now: int, lastUpdated: string,
                       accepted: string -> bool)
      modifies store
      ensures store.entries == Written(old(store.entries), LineWrites(entities, line, now, lastUpdated, accepted),
                                       Config.RedisTtlSeconds)
    {
      var etasByStation := GtfsParser.ExtractEtas(entities, Some(line), now);
      if |etasByStation| > 0 {
        var cachedCount := CacheService.UpdateEtas(store, line, etasByStation, [], lastUpdated, accepted);
      }
    }
  }
}
