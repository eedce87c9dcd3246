/** src/rail/stop.ts: the stop type codes and the classification of a stop
    record by the keys it carries. */
module StopType {
  import opened Wrappers

  const UNKNOWN: int := 0
  const WAYPOINT: int := 1
  const SHORT: int := 2
  const LONG: int := 3
  const DEPARTURE: int := 4
  const ARRIVAL: int := 5

  /** The codes in declaration order. */
  const CODES: seq<int> := [UNKNOWN, WAYPOINT, SHORT, LONG, DEPARTURE, ARRIVAL]

  /** The six codes are 0..5, each once. */
  lemma CodesAreDistinct()
    ensures forall i :: 0 <= i < |CODES| ==> CODES[i] == i
    ensures forall i, j :: 0 <= i < j < |CODES| ==> CODES[i] != CODES[j]
  {
  }

  /** `StopTypeFromObjKey`: the stop record is given by its set of keys. The
      first of `Departure`, `StopShort`, `StopLong`, `Arrival` present decides
      the type; with none of them the error carries the keys. */
  function StopTypeFromObjKey(keys: set<string>): (r: Result<int, set<string>>)
    ensures "Departure" in keys ==> r == Ok(DEPARTURE)
    ensures "Departure" !in keys && "StopShort" in keys ==> r == Ok(SHORT)
    ensures "Departure" !in keys && "StopShort" !in keys && "StopLong" in keys ==> r == Ok(LONG)
    ensures "Departure" !in keys && "StopShort" !in keys && "StopLong" !in keys && "Arrival" in keys ==> r == Ok(ARRIVAL)
    ensures r.Err? <==> "Departure" !in keys && "StopShort" !in keys && "StopLong" !in keys && "Arrival" !in keys
    ensures r.Err? ==> r.error == keys
  {
    if "Departure" in keys then Ok(DEPARTURE)
    else if "StopShort" in keys then Ok(SHORT)
    else if "StopLong" in keys then Ok(LONG)
    else if "Arrival" in keys then Ok(ARRIVAL)
    else Err(keys)
  }

  /** The key that decided a successful classification. */
  function KeyOf(code: int): string
  {
    if code == DEPARTURE then "Departure"
    else if code == SHORT then "StopShort"
    else if code == LONG then "StopLong"
    else "Arrival"
  }

  /** A classification is never UNKNOWN or WAYPOINT, its deciding key is
      present, and every key ahead of it in priority is absent. */
  lemma ClassificationIsDecided(keys: set<string>)
    requires StopTypeFromObjKey(keys).Ok?
    ensures var c := StopTypeFromObjKey(keys).value;
      && c != UNKNOWN && c != WAYPOINT
      && c in {SHORT, LONG, DEPARTURE, ARRIVAL}
      && KeyOf(c) in keys
      && (c != DEPARTURE ==> "Departure" !in keys)
      && (c == LONG || c == ARRIVAL ==> "StopShort" !in keys)
      && (c == ARRIVAL ==> "StopLong" !in keys)
  {
  }
}
