/** The station selector: when a line is chosen it fetches that line's
    stations, falls back to a small built-in list when the answer is empty or
    the request fails, and clears the chosen station. */
module StationSelector {
  import opened Wrappers
  import opened Dicts

  datatype Item = Item(id: string, name: string)

  /** The built-in station lists. */
  const CommonStations: Dict<seq<Item>> := [
    ("1", [Item("101", "Van Cortlandt Park-242 St"), Item("103", "238 St"), Item("104", "231 St"),
           Item("106", "215 St"), Item("107", "207 St")]),
    ("A", [Item("A01", "Inwood-207 St"), Item("A02", "Dyckman St"), Item("A03", "190 St")]),
    ("C", [Item("A01", "Inwood-207 St"), Item("A02", "Dyckman St")]),
    ("E", [Item("A01", "Inwood-207 St"), Item("A02", "Dyckman St")])
  ]

  /** How the stations request ended: it failed, or it answered with a body
      whose `stations` field may be missing. */
  datatype FetchOutcome = Failed | Answered(stations: Option<seq<Item>>)

  /** The built-in list for a line, or none. */
  function Fallback(line: string): (r: seq<Item>)
    ensures HasKey(CommonStations, line) ==> Some(r) == Get(CommonStations, line)
    ensures !HasKey(CommonStations, line) ==> r == []
  {
    Get(CommonStations, line).GetOr([])
  }

  /** The list shown after the request for `line` ended: a non-empty answer
      as it came, otherwise the built-in list. */
  function ResolveStations(line: string, outcome: FetchOutcome): (r: seq<Item>)
    ensures outcome.Answered? && outcome.stations.Some? && |outcome.stations.value| > 0
      ==> r == outcome.stations.value
    ensures !(outcome.Answered? && outcome.stations.Some? && |outcome.stations.value| > 0)
      ==> r == Fallback(line)
  {
    match outcome
    case Answered(Some(list)) => if |list| > 0 then list else Fallback(line)
    case _ => Fallback(line)
  }

  /** Only the four built-in lines have a fallback, and each is non-empty. */
  lemma FallbackLines(line: string)
    ensures |Fallback(line)| > 0 <==> line in ["1", "A", "C", "E"]
  {
    if line !in ["1", "A", "C", "E"] {
      assert !HasKey(CommonStations, line) by {
        forall i | 0 <= i < |CommonStations| ensures CommonStations[i].0 != line {
          assert CommonStations[i].0 in ["1", "A", "C", "E"];
        }
      }
    }
  }

  /** The selector's state together with the station it reports to its
      parent through `onStationChange`. */
  class Selector {
    var stations: seq<Item>
    var loading: bool
    var selectedStation: string

    constructor (initialStation: string)
      ensures stations == [] && !loading && selectedStation == initialStation
    {
      stations := [];
      loading := false;
      selectedStation := initialStation;
    }

    /** The effect run when the line changes. With a line it starts the
        request (marking the list as loading) and clears the chosen station;
        with no line it does nothing. The result says whether a request was
        started. */
    method LineChanged(selectedLine: string) returns (fetching: bool)
      modifies this
      ensures fetching == (selectedLine != "")
      ensures fetching ==> loading && selectedStation == ""
      ensures !fetching ==> loading == old(loading) && selectedStation == old(selectedStation)
      ensures stations == old(stations)
    {
      if selectedLine == "" {
        return false;
      }
      loading := true;
      selectedStation := "";
      return true;
    }

    /** The request for `line` ended, one way or the other: the list is
        resolved and loading is over. */
    method FetchSettled(line: string, outcome: FetchOutcome)
      modifies this
      ensures stations == ResolveStations(line, outcome)
      ensures !loading && selectedStation == old(selectedStation)
    {
      stations := ResolveStations(line, outcome);
      loading := false;
    }

    /** A whole line change with its request: whatever the outcome, the
        chosen station is cleared and loading is over. */
    method ChooseLine(line: string, outcome: FetchOutcome)
      requires line != ""
      modifies this
      ensures stations == ResolveStations(line, outcome)
      ensures !loading && selectedStation == ""
    {
      var fetching := LineChanged(line);
      FetchSettled(line, outcome);
    }
  }
}
