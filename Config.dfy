/** The configuration constants shared by the worker and the API (their
    environment-variable defaults). */
module Config {
  /** The lines the worker extracts: the 22 regular subway lines. */
  const TargetLines: seq<string> := ["1", "2", "3", "4", "5", "6", "7", "A", "B", "C", "D", "E", "F", "G",
                                     "J", "L", "M", "N", "Q", "R", "W", "Z"]

  /** The realtime feeds, in the order the worker polls them. */
  const FeedNames: seq<string> := ["1234567S", "ACE", "BDFM", "G", "JZ", "NQRW", "L"]

  /** The lines the API serves. */
  const SupportedLines: seq<string> := ["1", "2", "3", "4", "5", "6", "A", "C", "E"]

  /** Lifetime of a cached ETA entry, in seconds. */
  const RedisTtlSeconds: int := 300
}
