/** src/jsm/sidebar.tsx: the time and platform strings shown for each stop
    of a ride. */
module Sidebar {
  import opened Wrappers
  import opened Time
  import opened StopType
  import opened Schedule

  /** `Stop`; times are milliseconds into the day. */
  datatype Stop = Stop(code: string, stopType: int, arrivalTime: int, departureTime: int,
                       tripDistance: real, platform: Option<Platform>)

  datatype DisplayError = UnexpectedStopType

  /** `stopDisplayTime`: arrivals show their arrival time, waypoints nothing,
      an UNKNOWN stop is an error and every other stop shows its departure. */
  function StopDisplayTime(stop: Stop): (r: Result<string, DisplayError>)
    ensures stop.stopType == ARRIVAL ==> r == Ok(FormatDaySeconds(stop.arrivalTime))
    ensures stop.stopType == WAYPOINT ==> r == Ok("")
    ensures r.Err? <==> stop.stopType == UNKNOWN
    ensures stop.stopType !in {ARRIVAL, WAYPOINT, UNKNOWN} ==> r == Ok(FormatDaySeconds(stop.departureTime))
  {
    if stop.stopType == ARRIVAL then Ok(FormatDaySeconds(stop.arrivalTime))
    else if stop.stopType == WAYPOINT then Ok("")
    else if stop.stopType == UNKNOWN then Err(UnexpectedStopType)
    else Ok(FormatDaySeconds(stop.departureTime))
  }

  /** A stop whose type came from `StopTypeFromObjKey` always has a time to
      show, and with times that are not negative it is an `HH:MM` clock. */
  lemma {:induction false} ClassifiedStopShowsClock(keys: set<string>, stop: Stop)
    requires StopTypeFromObjKey(keys).Ok? && stop.stopType == StopTypeFromObjKey(keys).value
    requires stop.arrivalTime >= 0 && stop.departureTime >= 0
    ensures StopDisplayTime(stop).Ok?
    ensures |StopDisplayTime(stop).value| == 5 && StopDisplayTime(stop).value[2] == ':'
  {
    ClassificationIsDecided(keys);
    FormatIsClock(stop.arrivalTime);
    FormatIsClock(stop.departureTime);
  }

  /** `stopDisplayplatform`: nothing without platform data, one label when
      arrival and departure agree, `arrival->departure` otherwise. */
  function StopDisplayPlatform(platform: Option<Platform>): (r: string)
    ensures platform.None? ==> r == ""
    ensures platform.Some? ==> |r| >= |platform.value.arrivalPlatform| && r[..|platform.value.arrivalPlatform|] == platform.value.arrivalPlatform
    ensures platform.Some? && platform.value.arrivalPlatform == platform.value.departurePlatform ==>
      r == platform.value.arrivalPlatform
    ensures platform.Some? && platform.value.arrivalPlatform != platform.value.departurePlatform ==>
      |r| == |platform.value.arrivalPlatform| + 2 + |platform.value.departurePlatform|
      && r[|platform.value.arrivalPlatform|..|platform.value.arrivalPlatform| + 2] == "->"
      && r[|platform.value.arrivalPlatform| + 2..] == platform.value.departurePlatform
  {
    match platform
    case None => ""
    case Some(p) =>
      if p.arrivalPlatform == p.departurePlatform then p.arrivalPlatform
      else p.arrivalPlatform + "->" + p.departurePlatform
  }

  /** The platform string shows `->` right after the arrival label exactly
      when the train changes platform. */
  lemma PlatformChangeShown(p: Platform)
    ensures var r := StopDisplayPlatform(Some(p));
      (p.arrivalPlatform != p.departurePlatform) <==> |r| >= |p.arrivalPlatform| + 2 && r[|p.arrivalPlatform|..|p.arrivalPlatform| + 2] == "->"
  {
  }
}
