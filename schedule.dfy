/** The timetable records the position engine reads: stations, platform
    pairs, legs and rides. Their declarations sit in files that are not part
    of this model (src/rail/ride.ts); the fields here are the ones the
    modelled code reads. */
module Schedule {
  import opened Wrappers
  import opened Util
  import opened RailLegLink

  /** `PlatformJSON`: the platform a train arrives at and leaves from. */
  datatype Platform = Platform(arrivalPlatform: string, departurePlatform: string, footnote: int)

  /** `Station`: a code, a display name, a position and a rank. */
  datatype Station = Station(code: string, name: string, position: Coordinates, rank: int)

  /** A leg of a ride: standing at a station, or moving over a chain of links.
      `rideId` keeps the ride numbers the stop belongs to. */
  datatype Leg =
    | Stationary(startTime: real, endTime: real, station: Station, platforms: Option<Platform>, rideId: seq<int>)
    | Moving(startTime: real, endTime: real, links: seq<LegLink>, linkDistance: real)

  datatype Ride = Ride(id: int, legs: seq<Leg>, startTime: real, endTime: real, line: string, operator: string)

  /** The summed path lengths of the first `i` links, added left to right as
      the source's running `distanceSum`, `legDistance` and `reduce` do. */
  function PrefixLength(links: seq<LegLink>, i: nat): (d: real)
    requires i <= |links|
    ensures (forall k :: 0 <= k < |links| ==> links[k].link.path.pathLength >= 0.0) ==> d >= 0.0
  {
    if i == 0 then 0.0 else PrefixLength(links, i - 1) + links[i - 1].link.path.pathLength
  }

  /** `leg.links.reduce((acc, cur) => acc + cur.Link.path.len, 0)`. */
  function TotalLength(links: seq<LegLink>): (d: real)
    ensures |links| == 0 ==> d == 0.0
    ensures |links| == 1 ==> d == links[0].link.path.pathLength
    ensures (forall k :: 0 <= k < |links| ==> links[k].link.path.pathLength >= 0.0) ==> d >= 0.0
  {
    assert PrefixLength(links, 0) == 0.0;
    PrefixLength(links, |links|)
  }

  /** With lengths that are not negative the running sum never decreases. */
  lemma {:induction false} PrefixLengthMonotone(links: seq<LegLink>, i: nat, j: nat)
    requires i <= j <= |links|
    requires forall k :: 0 <= k < |links| ==> links[k].link.path.pathLength >= 0.0
    ensures PrefixLength(links, i) <= PrefixLength(links, j)
  {
    if i < j {
      PrefixLengthMonotone(links, i, j - 1);
    }
  }
}
