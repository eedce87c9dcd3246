/** src/ride.ts: where a train is at a moment of its ride. Time maps to a
    fraction of the current moving leg, the fraction to a distance along the
    leg's links, the distance to a link and a fraction of it, and that to a
    point between two path points. Standing trains are pinned to the station. */
module RideResolver {
  import opened Wrappers
  import opened Util
  import RailPath
  import Numbers
  import opened RailLegLink
  import opened Schedule

  /** A position and an unnormalised heading, both as `(latitude, longitude)` vectors. */
  datatype Position2d = Position2d(position: Vec2, forward: Vec2)

  /** What `trainPosition` returns: the map position and a rotation vector. */
  datatype TrainPose = TrainPose(pos: Vec2, rot: Vec3)

  datatype ResolveError =
    | NotActive       // "Cannot get position of train outside schedule times"
    | LegNotFound     // "Leg not found"
    | LinkNotFound    // "Link not found"
    | PointNotFound   // "Point not found"
    | NoPointBefore   // `points[pointIndex - 1]` is undefined at index 0: reading its offset throws

  /** `isActiveAtTime`: the ride's half-open interval [startTime, endTime). */
  predicate IsActiveAtTime(ride: Ride, time: real)
    ensures IsActiveAtTime(ride, time) ==> ride.startTime < ride.endTime
    ensures time == ride.startTime && ride.startTime < ride.endTime ==> IsActiveAtTime(ride, time)
    ensures time == ride.endTime ==> !IsActiveAtTime(ride, time)
  {
    time >= ride.startTime && time < ride.endTime
  }

  /** The test `findCurrentLeg` hands to `find`. */
  predicate LegActive(leg: Leg, time: real)
  {
    time >= leg.startTime && time < leg.endTime
  }

  /** The index of the first leg at `k` or later that is active at `time`. */
  function LegSearch(legs: seq<Leg>, time: real, k: nat): (r: Option<nat>)
    decreases |legs| - k
    ensures r.Some? ==>
      && k <= r.value < |legs|
      && LegActive(legs[r.value], time)
      && (forall j :: k <= j < r.value ==> !LegActive(legs[j], time))
    ensures r.None? ==> forall j :: k <= j < |legs| ==> !LegActive(legs[j], time)
  {
    if k >= |legs| then None
    else if LegActive(legs[k], time) then Some(k)
    else LegSearch(legs, time, k + 1)
  }

  /** `findCurrentLeg`: the first leg whose half-open interval holds `time`. */
  function FindCurrentLeg(ride: Ride, time: real): (r: Result<Leg, ResolveError>)
    ensures r.Err? <==> forall j :: 0 <= j < |ride.legs| ==> !LegActive(ride.legs[j], time)
    ensures r.Err? ==> r.error == LegNotFound
    ensures r.Ok? ==> exists i :: (0 <= i < |ride.legs| && ride.legs[i] == r.value && LegActive(r.value, time)
      && forall j :: 0 <= j < i ==> !LegActive(ride.legs[j], time))
  {
    match LegSearch(ride.legs, time, 0)
    case None => Err(LegNotFound)
    case Some(i) => Ok(ride.legs[i])
  }

  /** Legs that follow each other without gaps from the ride's start to its end. */
  ghost predicate Contiguous(ride: Ride)
  {
    && |ride.legs| > 0
    && ride.legs[0].startTime == ride.startTime
    && ride.legs[|ride.legs| - 1].endTime == ride.endTime
    && forall i :: 0 <= i < |ride.legs| - 1 ==> ride.legs[i].endTime == ride.legs[i + 1].startTime
  }

  /** In a ride whose legs cover its interval without gaps, a leg is found
      at every moment the ride is active. */
  lemma ActiveContiguousRideHasLeg(ride: Ride, time: real)
    requires Contiguous(ride) && IsActiveAtTime(ride, time)
    ensures FindCurrentLeg(ride, time).Ok?
  {
    LegFoundFrom(ride, time, 0);
  }

  lemma {:induction false} LegFoundFrom(ride: Ride, time: real, k: nat)
    requires Contiguous(ride) && k < |ride.legs|
    requires time >= ride.legs[k].startTime && time < ride.endTime
    ensures LegSearch(ride.legs, time, k).Some?
    decreases |ride.legs| - k
  {
    if !LegActive(ride.legs[k], time) {
      LegFoundFrom(ride, time, k + 1);
    }
  }

  /** The index of the first point at `k` or later lying beyond `covered`. */
  function PointAbove(points: seq<RailPath.PathPoint>, covered: real, k: nat): (r: Option<nat>)
    decreases |points| - k
    ensures r.Some? ==>
      && k <= r.value < |points|
      && points[r.value].startOffset > covered
      && (forall j :: k <= j < r.value ==> points[j].startOffset <= covered)
    ensures r.None? ==> forall j :: k <= j < |points| ==> points[j].startOffset <= covered
  {
    if k >= |points| then None
    else if points[k].startOffset > covered then Some(k)
    else PointAbove(points, covered, k + 1)
  }

  /** The fraction measured from the link's stored start: reversed links
      count from the other end. */
  function StoredFraction(l: LegLink, fraction: real): (f: real)
    ensures l.reversePointOrder ==> f + fraction == 1.0
    ensures !l.reversePointOrder ==> f == fraction
  {
    if l.reversePointOrder then 1.0 - fraction else fraction
  }

  /** The point of the span `(left, right)` at `covered`, and the heading.
      three.js's `lerp` moves `v1` in place, so the vector the source
      normalises is `right - position`, which is `(1 - t) * (right - left)`
      for the span fraction `t`. Since `covered` lies strictly before the
      right point, `t < 1` and that vector points the same way as
      `right - left`. The heading is stated unnormalised: `left - right` in
      stored order, `right - left` when reversed. */
  function Interpolate(left: RailPath.PathPoint, right: RailPath.PathPoint, covered: real, reversed: bool): (p: Position2d)
    requires left.startOffset <= covered < right.startOffset
    ensures RailPath.Between(p.position.x, left.coordinates.latitude, right.coordinates.latitude)
    ensures RailPath.Between(p.position.y, left.coordinates.longitude, right.coordinates.longitude)
    ensures covered == left.startOffset ==> p.position == Vec2(left.coordinates.latitude, left.coordinates.longitude)
    ensures (p.position.x - left.coordinates.latitude) * (right.startOffset - left.startOffset)
      == (right.coordinates.latitude - left.coordinates.latitude) * (covered - left.startOffset)
    ensures (p.position.y - left.coordinates.longitude) * (right.startOffset - left.startOffset)
      == (right.coordinates.longitude - left.coordinates.longitude) * (covered - left.startOffset)
    ensures reversed ==> p.forward == Vec2(right.coordinates.latitude - left.coordinates.latitude,
                                           right.coordinates.longitude - left.coordinates.longitude)
    ensures !reversed ==> p.forward == Vec2(left.coordinates.latitude - right.coordinates.latitude,
                                            left.coordinates.longitude - right.coordinates.longitude)
  {
    var pointFraction := Remap(covered, left.startOffset, right.startOffset, 0.0, 1.0);
    RemapWithin(covered, left.startOffset, right.startOffset, 0.0, 1.0);
    RailPath.LerpBetween(left.coordinates.latitude, right.coordinates.latitude, pointFraction);
    RailPath.LerpBetween(left.coordinates.longitude, right.coordinates.longitude, pointFraction);
    var span, along := right.startOffset - left.startOffset, covered - left.startOffset;
    Numbers.LerpScaled(left.coordinates.latitude, right.coordinates.latitude, pointFraction, span, along);
    Numbers.LerpScaled(left.coordinates.longitude, right.coordinates.longitude, pointFraction, span, along);
    var v1 := Vec2(left.coordinates.latitude, left.coordinates.longitude);
    var v2 := Vec2(right.coordinates.latitude, right.coordinates.longitude);
    var position := Vec2(Numbers.Lerp(v1.x, v2.x, pointFraction), Numbers.Lerp(v1.y, v2.y, pointFraction));
    var forward := Vec2(v2.x - v1.x, v2.y - v1.y);
    Position2d(position, if reversed then forward else Vec2(-forward.x, -forward.y))
  }

  /** The distance from the link's stored start that a fraction of the
      link in travel order has covered. */
  function CoveredOnLink(l: LegLink, fraction: real): (d: real)
    ensures !l.reversePointOrder ==> d == l.link.path.pathLength * fraction
    ensures l.reversePointOrder ==> d == l.link.path.pathLength - l.link.path.pathLength * fraction
  {
    var len, f := l.link.path.pathLength, StoredFraction(l, fraction);
    ScaleComplement(len, f, fraction);
    len * f
  }

  /** A fraction of the link in [0, 1] covers a distance between its two ends. */
  lemma CoveredOnLinkWithin(l: LegLink, fraction: real)
    requires 0.0 <= fraction <= 1.0 && l.link.path.pathLength >= 0.0
    ensures 0.0 <= CoveredOnLink(l, fraction) <= l.link.path.pathLength
  {
    var len, f := l.link.path.pathLength, StoredFraction(l, fraction);
    assert CoveredOnLink(l, fraction) == len * f;
    ScaleByFraction(len, f);
  }

  /** Walking the link the other way, the complementary fraction covers the
      same stored distance. */
  lemma CoveredOnFlipped(l: LegLink, fraction: real)
    ensures CoveredOnLink(Flipped(l), 1.0 - fraction) == CoveredOnLink(l, fraction)
  {
    assert StoredFraction(Flipped(l), 1.0 - fraction) == StoredFraction(l, fraction);
  }

  lemma ScaleComplement(len: real, f: real, fraction: real)
    ensures f + fraction == 1.0 ==> len * f == len - len * fraction
  {
    if f + fraction == 1.0 {
      assert f == 1.0 - fraction;
    }
  }

  /** The position at `covered` along `points`: the span ends at the first
      point lying beyond `covered`, which must not be the first point. */
  function PositionAtDistance(points: seq<RailPath.PathPoint>, covered: real, reversed: bool): (r: Result<Position2d, ResolveError>)
    ensures var s := PointAbove(points, covered, 0);
      && (s.None? ==> r == Err(PointNotFound))
      && (s == Some(0) ==> r == Err(NoPointBefore))
      && (r.Ok? <==> s.Some? && s.value > 0)
      && (r.Ok? ==> points[s.value - 1].startOffset <= covered < points[s.value].startOffset)
    ensures r.Ok? ==>
      var i := PointAbove(points, covered, 0).value;
      var lo, hi := points[i - 1], points[i];
      var span, along := hi.startOffset - lo.startOffset, covered - lo.startOffset;
      && (r.value.position.x - lo.coordinates.latitude) * span == (hi.coordinates.latitude - lo.coordinates.latitude) * along
      && (r.value.position.y - lo.coordinates.longitude) * span == (hi.coordinates.longitude - lo.coordinates.longitude) * along
      && (reversed ==> r.value.forward == Vec2(hi.coordinates.latitude - lo.coordinates.latitude,
                                               hi.coordinates.longitude - lo.coordinates.longitude))
      && (!reversed ==> r.value.forward == Vec2(lo.coordinates.latitude - hi.coordinates.latitude,
                                                lo.coordinates.longitude - hi.coordinates.longitude))
  {
    match PointAbove(points, covered, 0)
    case None => Err(PointNotFound)
    case Some(i) =>
      if i == 0 then Err(NoPointBefore)
      else Ok(Interpolate(points[i - 1], points[i], covered, reversed))
  }

  /** What `findPositionOnLink` returns. */
  function PositionOnLink(l: LegLink, fraction: real): (r: Result<Position2d, ResolveError>)
    ensures var points, d := l.link.path.points, CoveredOnLink(l, fraction);
      var s := PointAbove(points, d, 0);
      && (r.Ok? <==> s.Some? && s.value > 0)
      && (r.Ok? ==> points[s.value - 1].startOffset <= d < points[s.value].startOffset)
      && (r.Err? ==> r.error == PointNotFound || r.error == NoPointBefore)
  {
    PositionAtDistance(l.link.path.points, CoveredOnLink(l, fraction), l.reversePointOrder)
  }

  /** `findPositionOnLink`: flips the fraction on reversed links, scans the
      points by index for the first one beyond the covered distance and
      interpolates between it and its predecessor. */
  method FindPositionOnLink(l: LegLink, fraction: real) returns (r: Result<Position2d, ResolveError>)
    ensures r == PositionOnLink(l, fraction)
  {
    var f := fraction;
    if l.reversePointOrder {
      f := 1.0 - f;
    }
    var coveredDistance := l.link.path.pathLength * f;
    assert coveredDistance == CoveredOnLink(l, fraction);
    var points := l.link.path.points;
    var pointIndex := 0;
    while pointIndex < |points|
      invariant 0 <= pointIndex <= |points|
      invariant PointAbove(points, coveredDistance, 0) == PointAbove(points, coveredDistance, pointIndex)
    {
      if points[pointIndex].startOffset > coveredDistance {
        if pointIndex == 0 {
          return Err(NoPointBefore);
        }
        return Ok(Interpolate(points[pointIndex - 1], points[pointIndex], coveredDistance, l.reversePointOrder));
      }
      pointIndex := pointIndex + 1;
    }
    return Err(PointNotFound);
  }

  /** On a built path of positive length, every fraction strictly between 0
      and 1 has a position, in either direction. */
  lemma PositionOnValidLink(l: LegLink, fraction: real)
    requires RailPath.ValidPath(l.link.path) && l.link.path.pathLength > 0.0
    requires 0.0 < fraction < 1.0
    ensures PositionOnLink(l, fraction).Ok?
  {
    var points := l.link.path.points;
    var covered := CoveredOnLink(l, fraction);
    var f := StoredFraction(l, fraction);
    InsideLength(l.link.path.pathLength, f);
    assert covered == l.link.path.pathLength * f;
    assert points[|points| - 1].startOffset == l.link.path.pathLength;
    assert points[|points| - 1].startOffset > covered;
    assert points[0].startOffset <= covered;
    var s := PointAbove(points, covered, 0);
    assert s.Some? && s.value > 0;
  }

  lemma InsideLength(len: real, f: real)
    requires len > 0.0 && 0.0 < f < 1.0
    ensures 0.0 < len * f < len
  {
  }

  /** Walking a link the other way at the complementary fraction gives the
      same place with the opposite heading. */
  lemma FlippedPositionOnLink(l: LegLink, fraction: real)
    ensures PositionOnLink(Flipped(l), 1.0 - fraction).Ok? == PositionOnLink(l, fraction).Ok?
    ensures PositionOnLink(l, fraction).Ok? ==>
      && PositionOnLink(Flipped(l), 1.0 - fraction).value.position == PositionOnLink(l, fraction).value.position
      && PositionOnLink(Flipped(l), 1.0 - fraction).value.forward.x == -PositionOnLink(l, fraction).value.forward.x
      && PositionOnLink(Flipped(l), 1.0 - fraction).value.forward.y == -PositionOnLink(l, fraction).value.forward.y
  {
    var covered := CoveredOnLink(l, fraction);
    CoveredOnFlipped(l, fraction);
    var points := l.link.path.points;
    match PointAbove(points, covered, 0)
    case None =>
    case Some(i) =>
      if i > 0 {
        InterpolateFlip(points[i - 1], points[i], covered, l.reversePointOrder);
      }
  }

  /** The interpolated position does not depend on the direction; the heading flips with it. */
  lemma InterpolateFlip(left: RailPath.PathPoint, right: RailPath.PathPoint, covered: real, reversed: bool)
    requires left.startOffset <= covered < right.startOffset
    ensures Interpolate(left, right, covered, !reversed).position == Interpolate(left, right, covered, reversed).position
    ensures Interpolate(left, right, covered, !reversed).forward.x == -Interpolate(left, right, covered, reversed).forward.x
    ensures Interpolate(left, right, covered, !reversed).forward.y == -Interpolate(left, right, covered, reversed).forward.y
  {
  }

  /** The covered distance lies strictly inside link `i` of the chain. */
  predicate Covers(links: seq<LegLink>, i: nat, d: real)
    requires i < |links|
  {
    d > PrefixLength(links, i) && d < PrefixLength(links, i) + links[i].link.path.pathLength
  }

  /** The index of the first link at `k` or later that strictly covers `d`. */
  function LinkSearch(links: seq<LegLink>, d: real, k: nat): (r: Option<nat>)
    decreases |links| - k
    ensures r.Some? ==>
      && k <= r.value < |links|
      && Covers(links, r.value, d)
      && (forall j :: k <= j < r.value ==> !Covers(links, j, d))
    ensures r.None? ==> forall j :: k <= j < |links| ==> !Covers(links, j, d)
  {
    if k >= |links| then None
    else if Covers(links, k, d) then Some(k)
    else LinkSearch(links, d, k + 1)
  }

  /** What `findCurrentLink` returns: the first link strictly covering the
      distance, with the fraction of it already covered. */
  function CurrentLink(links: seq<LegLink>, d: real): (r: Result<(LegLink, real), ResolveError>)
    ensures r.Err? <==> forall j :: 0 <= j < |links| ==> !Covers(links, j, d)
    ensures r.Err? ==> r.error == LinkNotFound
    ensures r.Ok? ==> 0.0 < r.value.1 < 1.0
    ensures r.Ok? ==> LinkSearch(links, d, 0).Some?
    ensures r.Ok? ==>
      var i := LinkSearch(links, d, 0).value;
      && i < |links|
      && r.value.0 == links[i]
      && Covers(links, i, d)
      && (forall j :: 0 <= j < i ==> !Covers(links, j, d))
      && PrefixLength(links, i) + r.value.1 * links[i].link.path.pathLength == d
  {
    match LinkSearch(links, d, 0)
    case None => Err(LinkNotFound)
    case Some(i) =>
      var low := PrefixLength(links, i);
      var high := low + links[i].link.path.pathLength;
      RemapUnitStrict(d, low, high);
      Ok((links[i], Remap(d, low, high, 0.0, 1.0)))
  }

  /** `findCurrentLink`: walks the links while a running sum holds the
      distance up to the current one. */
  method FindCurrentLink(links: seq<LegLink>, coveredLegDistance: real) returns (r: Result<(LegLink, real), ResolveError>)
    ensures r == CurrentLink(links, coveredLegDistance)
  {
    var distanceSum := 0.0;
    var index := 0;
    while index < |links|
      invariant 0 <= index <= |links|
      invariant distanceSum == PrefixLength(links, index)
      invariant LinkSearch(links, coveredLegDistance, 0) == LinkSearch(links, coveredLegDistance, index)
    {
      var link := links[index];
      if coveredLegDistance > distanceSum && coveredLegDistance < distanceSum + link.link.path.pathLength {
        return Ok((link, Remap(coveredLegDistance, distanceSum, distanceSum + link.link.path.pathLength, 0.0, 1.0)));
      }
      distanceSum := distanceSum + link.link.path.pathLength;
      index := index + 1;
    }
    return Err(LinkNotFound);
  }

  /** With lengths that are not negative, a distance lying exactly on a link
      boundary (the start of the chain, a joint, or its end) is never found. */
  lemma BoundaryHasNoLink(links: seq<LegLink>, j: nat)
    requires j <= |links|
    requires forall k :: 0 <= k < |links| ==> links[k].link.path.pathLength >= 0.0
    ensures CurrentLink(links, PrefixLength(links, j)).Err?
  {
    var d := PrefixLength(links, j);
    forall i | 0 <= i < |links| ensures !Covers(links, i, d) {
      if i < j {
        PrefixLengthMonotone(links, i + 1, j);
      } else {
        PrefixLengthMonotone(links, j, i);
      }
    }
  }

  /** Every distance strictly inside the chain and off all joints is found. */
  lemma InteriorHasLink(links: seq<LegLink>, d: real)
    requires 0.0 < d < TotalLength(links)
    requires forall j :: 0 <= j <= |links| ==> PrefixLength(links, j) != d
    ensures CurrentLink(links, d).Ok?
  {
    var j := CoveringLinkFrom(links, d, 0);
  }

  lemma {:induction false} CoveringLinkFrom(links: seq<LegLink>, d: real, k: nat) returns (j: nat)
    requires k < |links| && PrefixLength(links, k) < d < TotalLength(links)
    requires forall i :: 0 <= i <= |links| ==> PrefixLength(links, i) != d
    ensures k <= j < |links| && Covers(links, j, d)
    decreases |links| - k
  {
    if d < PrefixLength(links, k + 1) {
      j := k;
    } else {
      j := CoveringLinkFrom(links, d, k + 1);
    }
  }

  /** `remap(time, startTime, endTime, 0, 1)` times the summed link lengths. */
  function CoveredOnLeg(leg: Leg, time: real): (d: real)
    requires leg.Moving? && leg.startTime != leg.endTime
    ensures time == leg.startTime ==> d == 0.0
    ensures time == leg.endTime ==> d == TotalLength(leg.links)
    ensures leg.startTime < leg.endTime && leg.startTime <= time <= leg.endTime && TotalLength(leg.links) >= 0.0
      ==> 0.0 <= d <= TotalLength(leg.links)
  {
    if leg.startTime < leg.endTime && leg.startTime <= time <= leg.endTime then
      RemapWithin(time, leg.startTime, leg.endTime, 0.0, 1.0);
      ScaleByFraction(TotalLength(leg.links), Remap(time, leg.startTime, leg.endTime, 0.0, 1.0));
      Remap(time, leg.startTime, leg.endTime, 0.0, 1.0) * TotalLength(leg.links)
    else
    Remap(time, leg.startTime, leg.endTime, 0.0, 1.0) * TotalLength(leg.links)
  }

  /** What `findCurrentPositionOnLeg` returns. With `startTime == endTime`
      the source divides by zero; the covered distance is then NaN or
      infinite, no link test holds and the link search fails. */
  function PositionOnLeg(leg: Leg, time: real): (r: Result<Position2d, ResolveError>)
    requires leg.Moving?
    ensures leg.startTime == leg.endTime ==> r == Err(LinkNotFound)
    ensures leg.startTime != leg.endTime ==>
      var d := CoveredOnLeg(leg, time);
      && (CurrentLink(leg.links, d).Err? ==> r == Err(LinkNotFound))
      && (CurrentLink(leg.links, d).Ok? ==> r == PositionOnLink(CurrentLink(leg.links, d).value.0, CurrentLink(leg.links, d).value.1))
  {
    if leg.startTime == leg.endTime then Err(LinkNotFound)
    else
      match CurrentLink(leg.links, CoveredOnLeg(leg, time))
      case Err(e) => Err(e)
      case Ok((l, linkFraction)) => PositionOnLink(l, linkFraction)
  }

  /** `findCurrentPositionOnLeg`. */
  method FindCurrentPositionOnLeg(leg: Leg, time: real) returns (r: Result<Position2d, ResolveError>)
    requires leg.Moving?
    ensures r == PositionOnLeg(leg, time)
  {
    if leg.startTime == leg.endTime {
      return Err(LinkNotFound);
    }
    var fraction := Remap(time, leg.startTime, leg.endTime, 0.0, 1.0);
    var totalLegLength := TotalLength(leg.links);
    var coveredLegDistance := fraction * totalLegLength;
    assert coveredLegDistance == CoveredOnLeg(leg, time);
    var found := FindCurrentLink(leg.links, coveredLegDistance);
    if found.Err? {
      return Err(found.error);
    }
    r := FindPositionOnLink(found.value.0, found.value.1);
  }

  /** At the very moment a moving leg starts, with link lengths that are not
      negative, the covered distance is 0 and no link is found. */
  lemma MovingLegFailsAtItsStart(leg: Leg)
    requires leg.Moving? && leg.startTime != leg.endTime
    requires forall k :: 0 <= k < |leg.links| ==> leg.links[k].link.path.pathLength >= 0.0
    ensures PositionOnLeg(leg, leg.startTime) == Err(LinkNotFound)
  {
    BoundaryHasNoLink(leg.links, 0);
  }

  /** A moving leg whose links are built paths of positive length has a
      position at every moment whose covered distance is off the joints. */
  lemma MovingLegPositionFound(leg: Leg, time: real)
    requires leg.Moving? && leg.startTime < time < leg.endTime
    requires forall k :: 0 <= k < |leg.links| ==>
      RailPath.ValidPath(leg.links[k].link.path) && leg.links[k].link.path.pathLength > 0.0
    requires forall j :: 0 <= j <= |leg.links| ==> PrefixLength(leg.links, j) != CoveredOnLeg(leg, time)
    ensures PositionOnLeg(leg, time).Ok?
  {
    var fraction := Remap(time, leg.startTime, leg.endTime, 0.0, 1.0);
    RemapUnitStrict(time, leg.startTime, leg.endTime);
    var total := TotalLength(leg.links);
    assert total >= 0.0;
    assert total != 0.0;
    InsideLength(total, fraction);
    assert CoveredOnLeg(leg, time) == total * fraction;
    InteriorHasLink(leg.links, CoveredOnLeg(leg, time));
    var l := CurrentLink(leg.links, CoveredOnLeg(leg, time)).value;
    PositionOnValidLink(l.0, l.1);
  }

  /** What `trainPosition` returns. */
  function PoseAt(ride: Ride, time: real): (r: Result<TrainPose, ResolveError>)
    ensures !IsActiveAtTime(ride, time) ==> r == Err(NotActive)
    ensures IsActiveAtTime(ride, time) && FindCurrentLeg(ride, time).Err? ==> r == Err(LegNotFound)
    ensures IsActiveAtTime(ride, time) && FindCurrentLeg(ride, time).Ok? && FindCurrentLeg(ride, time).value.Stationary? ==>
      var station := FindCurrentLeg(ride, time).value.station;
      r == Ok(TrainPose(Vec2(station.position.latitude, station.position.longitude), Vec3(0.0, 0.0, 0.0)))
    ensures IsActiveAtTime(ride, time) && FindCurrentLeg(ride, time).Ok? && FindCurrentLeg(ride, time).value.Moving? ==>
      var p := PositionOnLeg(FindCurrentLeg(ride, time).value, time);
      && (r.Ok? <==> p.Ok?)
      && (r.Ok? ==> r.value.pos == p.value.position && r.value.rot == Vec3(p.value.forward.x, 0.0, p.value.forward.y))
  {
    if !IsActiveAtTime(ride, time) then Err(NotActive)
    else match FindCurrentLeg(ride, time)
      case Err(e) => Err(e)
      case Ok(leg) =>
        match leg
        case Stationary(_, _, station, _, _) =>
          Ok(TrainPose(Vec2(station.position.latitude, station.position.longitude), Vec3(0.0, 0.0, 0.0)))
        case Moving(_, _, _, _) =>
          match PositionOnLeg(leg, time)
          case Err(e) => Err(e)
          case Ok(p) => Ok(TrainPose(Vec2(p.position.x, p.position.y), Vec3(p.forward.x, 0.0, p.forward.y)))
  }

  /** `trainPosition`. */
  method TrainPosition(ride: Ride, time: real) returns (r: Result<TrainPose, ResolveError>)
    ensures !IsActiveAtTime(ride, time) ==> r == Err(NotActive)
    ensures r == PoseAt(ride, time)
  {
    if !IsActiveAtTime(ride, time) {
      return Err(NotActive);
    }
    var currentLeg := FindCurrentLeg(ride, time);
    if currentLeg.Err? {
      return Err(currentLeg.error);
    }
    var leg := currentLeg.value;
    if leg.Stationary? {
      var pos := Vec2(leg.station.position.latitude, leg.station.position.longitude);
      return Ok(TrainPose(pos, Vec3(0.0, 0.0, 0.0)));
    }
    var pos2d := FindCurrentPositionOnLeg(leg, time);
    if pos2d.Err? {
      return Err(pos2d.error);
    }
    var rot := Vec3(pos2d.value.forward.x, 0.0, pos2d.value.forward.y);
    r := Ok(TrainPose(Vec2(pos2d.value.position.x, pos2d.value.position.y), rot));
  }
}
