/** src/app.ts: looking stations up by code or name, the line-segment buffer
    of the track, and the lookup that turns each hop of a journey plan into
    a ride and a range of its legs. The DOM, the timers, the 3D scene and
    fetching the plan are not part of this model. */
module App {
  import opened Wrappers
  import opened Util
  import opened JsString
  import opened JsMap
  import opened RailPath
  import opened RailLegLink
  import opened Schedule
  import opened Timeline
  import ArrayUtil
  import Time

  // ---------------------------------------------------------------------
  // findMapEntryByValue and findStationCode

  /** The first entry, from position `i` of the iteration order on, whose
      value passes `test`. */
  function SearchFrom<K, V>(m: OrderedMap<K, V>, test: V -> bool, i: nat): (r: Option<(K, V)>)
    requires Valid(m) && i <= |m.keys|
    ensures r.Some? ==> r.value.0 in m.entries && r.value.1 == m.entries[r.value.0] && test(r.value.1)
    decreases |m.keys| - i
  {
    if i == |m.keys| then None
    else
      var k := m.keys[i];
      assert k in KeySet(m.keys);
      if test(m.entries[k]) then Some((k, m.entries[k])) else SearchFrom(m, test, i + 1)
  }

  /** What the search finds: an entry of the map that passes, with every
      entry before it in iteration order failing; and nothing exactly when
      every entry from `i` on fails. */
  lemma {:induction false} SearchFromMeans<K, V>(m: OrderedMap<K, V>, test: V -> bool, i: nat)
    requires Valid(m) && i <= |m.keys|
    ensures var r := SearchFrom(m, test, i);
      r.Some? ==> exists j :: i <= j < |m.keys| && m.keys[j] == r.value.0
                   && m.keys[j] in m.entries && r.value.1 == m.entries[m.keys[j]] && test(r.value.1)
                   && forall l :: i <= l < j ==> m.keys[l] in m.entries && !test(m.entries[m.keys[l]])
    ensures SearchFrom(m, test, i).None? <==>
      forall j :: i <= j < |m.keys| ==> m.keys[j] in m.entries && !test(m.entries[m.keys[j]])
    decreases |m.keys| - i
  {
    if i < |m.keys| {
      assert m.keys[i] in KeySet(m.keys);
      SearchFromMeans(m, test, i + 1);
      var r := SearchFrom(m, test, i);
      if r.Some? && !test(m.entries[m.keys[i]]) {
        var j :| i + 1 <= j < |m.keys| && m.keys[j] == r.value.0
                 && m.keys[j] in m.entries && r.value.1 == m.entries[m.keys[j]] && test(r.value.1)
                 && forall l :: i + 1 <= l < j ==> m.keys[l] in m.entries && !test(m.entries[m.keys[l]]);
        assert forall l :: i <= l < j ==> m.keys[l] in m.entries && !test(m.entries[m.keys[l]]);
      }
    }
  }

  /** Over the whole map: nothing is found exactly when no value passes. */
  lemma NoEntryPasses<K, V>(m: OrderedMap<K, V>, test: V -> bool)
    requires Valid(m)
    ensures SearchFrom(m, test, 0).None? <==> forall k :: k in m.entries ==> !test(m.entries[k])
  {
    SearchFromMeans(m, test, 0);
    if SearchFrom(m, test, 0).None? {
      forall k | k in m.entries ensures !test(m.entries[k]) {
        assert k in KeySet(m.keys);
        var j :| 0 <= j < |m.keys| && m.keys[j] == k;
      }
    }
  }

  /** `findMapEntryByValue`: the `for ... of` over `entries()` returns the
      first entry whose value passes, and `undefined` when the loop ends. */
  method FindMapEntryByValue<K, V>(haystack: OrderedMap<K, V>, test: V -> bool) returns (r: Option<(K, V)>)
    requires Valid(haystack)
    ensures r == SearchFrom(haystack, test, 0)
  {
    var i := 0;
    while i < |haystack.keys|
      invariant 0 <= i <= |haystack.keys|
      invariant SearchFrom(haystack, test, i) == SearchFrom(haystack, test, 0)
    {
      var key := haystack.keys[i];
      assert key in KeySet(haystack.keys);
      if test(haystack.entries[key]) {
        return Some((key, haystack.entries[key]));
      }
      i := i + 1;
    }
    return None;
  }

  /** `findStationCode`: the lowercased query when it is a station code,
      otherwise the code of the first station whose lowercased name is the
      lowercased query, otherwise `undefined`. */
  function FindStationCode(searchString: string, stations: OrderedMap<string, Station>): (r: Option<string>)
    requires Valid(stations)
    ensures ToLower(searchString) in stations.entries ==> r == Some(ToLower(searchString))
    ensures r.Some? ==> r.value in stations.entries
    ensures r.Some? && r.value != ToLower(searchString) ==>
      ToLower(stations.entries[r.value].name) == ToLower(searchString)
  {
    var lower := ToLower(searchString);
    if lower in stations.entries then Some(lower)
    else
      match SearchFrom(stations, (s: Station) => ToLower(s.name) == lower, 0)
      case Some(entry) => Some(entry.0)
      case None => None
  }

  /** A code match wins over any name match; a name match yields the code
      of a station with that name; every answer is a station code; and
      there is no answer exactly when neither codes nor names match. */
  lemma FindStationCodeMeans(searchString: string, stations: OrderedMap<string, Station>)
    requires Valid(stations)
    ensures var r := FindStationCode(searchString, stations);
      && (ToLower(searchString) in stations.entries ==> r == Some(ToLower(searchString)))
      && (r.Some? ==> r.value in stations.entries)
      && (r.Some? && r.value != ToLower(searchString) ==>
            ToLower(stations.entries[r.value].name) == ToLower(searchString))
      && (r.None? <==> ToLower(searchString) !in stations.entries
                       && forall k :: k in stations.entries ==> ToLower(stations.entries[k].name) != ToLower(searchString))
  {
    var lower := ToLower(searchString);
    var test := (s: Station) => ToLower(s.name) == lower;
    SearchFromMeans(stations, test, 0);
    NoEntryPasses(stations, test);
  }

  /** A name match is the first one in the order the stations were added. */
  lemma FindStationCodeFirstName(searchString: string, stations: OrderedMap<string, Station>)
    requires Valid(stations)
    requires ToLower(searchString) !in stations.entries
    requires FindStationCode(searchString, stations).Some?
    ensures exists j ::
      && 0 <= j < |stations.keys|
      && stations.keys[j] == FindStationCode(searchString, stations).value
      && (forall l :: 0 <= l < j ==>
            stations.keys[l] in stations.entries && ToLower(stations.entries[stations.keys[l]].name) != ToLower(searchString))
  {
    var lower := ToLower(searchString);
    SearchFromMeans(stations, (s: Station) => ToLower(s.name) == lower, 0);
  }

  /** The lookup ignores the case of the query. */
  lemma {:induction false} FindStationCodeIgnoresCase(a: string, b: string, stations: OrderedMap<string, Station>)
    requires Valid(stations)
    requires ToLower(a) == ToLower(b)
    ensures FindStationCode(a, stations) == FindStationCode(b, stations)
  {
    var la := (s: Station) => ToLower(s.name) == ToLower(a);
    var lb := (s: Station) => ToLower(s.name) == ToLower(b);
    assert la == lb;
  }

  /** Why the planner form is refused before a plan is requested. */
  datatype FormError = FromStationInvalid | ToStationInvalid

  /** The two station codes the submit handler looks up, or the error it
      throws for the first one that is not found. */
  function ResolveQuery(from: string, to: string, stations: OrderedMap<string, Station>): (r: Result<(string, string), FormError>)
    requires Valid(stations)
    ensures r.Ok? ==> r.value.0 in stations.entries && r.value.1 in stations.entries
    ensures r == Err(FromStationInvalid) <==> FindStationCode(from, stations).None?
    ensures r == Err(ToStationInvalid) ==> FindStationCode(to, stations).None?
  {
    match (FindStationCode(from, stations), FindStationCode(to, stations))
    case (None, _) => Err(FromStationInvalid)
    case (_, None) => Err(ToStationInvalid)
    case (Some(f), Some(t)) => Ok((f, t))
  }

  /** The plan is requested between two station codes, and only when both
      queries name a station. */
  lemma ResolveQueryMeans(from: string, to: string, stations: OrderedMap<string, Station>)
    requires Valid(stations)
    ensures var r := ResolveQuery(from, to, stations);
      && (r.Ok? <==> FindStationCode(from, stations).Some? && FindStationCode(to, stations).Some?)
      && (r.Ok? ==> r.value == (FindStationCode(from, stations).value, FindStationCode(to, stations).value))
      && (r.Ok? ==> r.value.0 in stations.entries && r.value.1 in stations.entries)
      && (r == Err(FromStationInvalid) <==> FindStationCode(from, stations).None?)
  {
    FindStationCodeMeans(from, stations);
    FindStationCodeMeans(to, stations);
  }

  // ---------------------------------------------------------------------
  // wpToArray

  /** `Array.prototype.flat()`: one level of nesting removed, in order. */
  function Flat<T>(xss: seq<seq<T>>): seq<T>
  {
    if |xss| == 0 then [] else Flat(xss[..|xss| - 1]) + xss[|xss| - 1]
  }

  /** Flattening distributes over concatenation. */
  lemma {:induction false} FlatAppend<T>(a: seq<seq<T>>, b: seq<seq<T>>)
    ensures Flat(a + b) == Flat(a) + Flat(b)
    decreases |b|
  {
    if |b| > 0 {
      var c := b[..|b| - 1];
      assert (a + b)[..|a + b| - 1] == a + c;
      assert (a + b)[|a + b| - 1] == b[|b| - 1];
      FlatAppend(a, c);
      assert Flat(a + b) == Flat(a) + Flat(c) + b[|b| - 1];
    } else {
      assert a + b == a;
    }
  }

  /** The `joinWith` callback of `wpToArray`: both ends of a segment, projected. */
  function SegmentEnds(project: Coordinates -> Vec3): (PathPoint, PathPoint) -> seq<Vec3>
  {
    (left: PathPoint, right: PathPoint) => [project(left.coordinates), project(right.coordinates)]
  }

  /** The segments of one link, as `joinWith` pairs its points. */
  function LinkSegments(l: Link, project: Coordinates -> Vec3): seq<seq<Vec3>>
  {
    ArrayUtil.Pairwise(l.path.points, SegmentEnds(project))
  }

  /** `links.map(...)`. */
  function SegmentsPerLink(links: seq<Link>, project: Coordinates -> Vec3): (r: seq<seq<seq<Vec3>>>)
    ensures |r| == |links|
    ensures forall i :: 0 <= i < |links| ==> r[i] == LinkSegments(links[i], project)
  {
    if |links| == 0 then [] else SegmentsPerLink(links[..|links| - 1], project) + [LinkSegments(links[|links| - 1], project)]
  }

  /** `wpToArray`: `flat(2)` of the per-link segments. */
  function WpToArray(links: seq<Link>, project: Coordinates -> Vec3): seq<Vec3>
  {
    Flat(Flat(SegmentsPerLink(links, project)))
  }

  /** The vertices of one link: every segment's two ends, in order. */
  function LinkVertexPairs(l: Link, project: Coordinates -> Vec3): seq<Vec3>
  {
    Flat(LinkSegments(l, project))
  }

  /** A link with `n >= 1` points gives `n - 1` segments with duplicated
      inner vertices: vertex `2i` is point `i` and vertex `2i + 1` is point
      `i + 1`, projected. */
  lemma LinkVertexPairsShape(l: Link, project: Coordinates -> Vec3)
    ensures var ps := l.path.points; var vs := LinkVertexPairs(l, project);
      && |vs| == (if |ps| == 0 then 0 else 2 * (|ps| - 1))
      && forall i :: 0 <= i < |ps| - 1 ==>
           vs[2 * i] == project(ps[i].coordinates) && vs[2 * i + 1] == project(ps[i + 1].coordinates)
  {
    FlatOfPairs(LinkSegments(l, project), l.path.points, project);
  }

  /** Flattening a list of two-element segments. */
  lemma {:induction false} FlatOfPairs(segs: seq<seq<Vec3>>, ps: seq<PathPoint>, project: Coordinates -> Vec3)
    requires |segs| == (if |ps| == 0 then 0 else |ps| - 1)
    requires forall i :: 0 <= i < |segs| ==> segs[i] == [project(ps[i].coordinates), project(ps[i + 1].coordinates)]
    ensures |Flat(segs)| == 2 * |segs|
    ensures forall i :: 0 <= i < |segs| ==>
      Flat(segs)[2 * i] == project(ps[i].coordinates) && Flat(segs)[2 * i + 1] == project(ps[i + 1].coordinates)
    decreases |segs|
  {
    if |segs| > 0 {
      var n := |segs| - 1;
      var init := segs[..n];
      var shorter := ps[..|ps| - 1];
      assert |shorter| == |ps| - 1;
      forall i | 0 <= i < |init| ensures init[i] == [project(shorter[i].coordinates), project(shorter[i + 1].coordinates)] {
        assert init[i] == segs[i];
      }
      FlatOfPairs(init, shorter, project);
      forall i | 0 <= i < |init| ensures Flat(init)[2 * i] == project(ps[i].coordinates)
                                   && Flat(init)[2 * i + 1] == project(ps[i + 1].coordinates) {
        assert shorter[i] == ps[i] && shorter[i + 1] == ps[i + 1];
      }
      var flat := Flat(segs);
      assert flat == Flat(init) + segs[n];
      assert segs[n] == [project(ps[n].coordinates), project(ps[n + 1].coordinates)];
      forall i | 0 <= i < |segs| ensures flat[2 * i] == project(ps[i].coordinates)
                                   && flat[2 * i + 1] == project(ps[i + 1].coordinates) {
        if i < n {
          assert flat[2 * i] == Flat(init)[2 * i] && flat[2 * i + 1] == Flat(init)[2 * i + 1];
        } else {
          assert flat[2 * i] == segs[n][0] && flat[2 * i + 1] == segs[n][1];
        }
      }
    }
  }

  /** The links' vertices follow one another in link order. */
  lemma {:induction false} WpToArrayInLinkOrder(links: seq<Link>, l: Link, project: Coordinates -> Vec3)
    ensures WpToArray(links + [l], project) == WpToArray(links, project) + LinkVertexPairs(l, project)
  {
    var all := SegmentsPerLink(links + [l], project);
    assert all == SegmentsPerLink(links, project) + [LinkSegments(l, project)] by {
      assert (links + [l])[..|links|] == links;
    }
    FlatAppend(SegmentsPerLink(links, project), [LinkSegments(l, project)]);
    FlatAppend(Flat(SegmentsPerLink(links, project)), LinkSegments(l, project));
    assert Flat([LinkSegments(l, project)]) == LinkSegments(l, project) by {
      assert [LinkSegments(l, project)][..0] == [];
    }
  }

  /** `2 (n - 1)` vertices for each link of `n >= 1` points. */
  function VertexCount(links: seq<Link>): nat
  {
    if |links| == 0 then 0
    else
      var n := |links[|links| - 1].path.points|;
      VertexCount(links[..|links| - 1]) + if n == 0 then 0 else 2 * (n - 1)
  }

  /** The buffer holds exactly that many vertices. */
  lemma {:induction false} WpToArrayLength(links: seq<Link>, project: Coordinates -> Vec3)
    ensures |WpToArray(links, project)| == VertexCount(links)
  {
    if |links| > 0 {
      var init := links[..|links| - 1];
      var l := links[|links| - 1];
      assert init + [l] == links;
      WpToArrayLength(init, project);
      WpToArrayInLinkOrder(init, l, project);
      LinkVertexPairsShape(l, project);
    }
  }

  // ---------------------------------------------------------------------
  // The hop lookup of the planner form

  /** A hop of a journey plan: the ride number as text and the codes of
      the stations where it is boarded and left. */
  datatype PlanLeg = PlanLeg(id: string, from: string, to: string)

  /** The first `map` over the plan's legs lowercases both station codes. */
  function LowerPlanLeg(leg: PlanLeg): (r: PlanLeg)
    ensures r.id == leg.id
    ensures r.from == ToLower(leg.from) && r.to == ToLower(leg.to)
  {
    PlanLeg(leg.id, ToLower(leg.from), ToLower(leg.to))
  }

  /** `Array.prototype.find`: the first element passing `p`, if any. */
  function Find<T>(xs: seq<T>, p: T -> bool): (r: Option<T>)
    ensures r.Some? ==> r.value in xs && p(r.value)
    decreases |xs|
  {
    if |xs| == 0 then None
    else if p(xs[0]) then Some(xs[0])
    else Find(xs[1..], p)
  }

  /** The element found is the first that passes; none is found exactly
      when none passes. */
  lemma {:induction false} FindMeans<T>(xs: seq<T>, p: T -> bool)
    ensures var r := Find(xs, p);
      && (r.Some? ==> exists i :: 0 <= i < |xs| && xs[i] == r.value && p(xs[i])
                        && forall j :: 0 <= j < i ==> !p(xs[j]))
      && (r.None? <==> forall i :: 0 <= i < |xs| ==> !p(xs[i]))
    decreases |xs|
  {
    if |xs| > 0 && !p(xs[0]) {
      FindMeans(xs[1..], p);
      var r := Find(xs, p);
      if r.Some? {
        var i :| 0 <= i < |xs[1..]| && xs[1..][i] == r.value && p(xs[1..][i])
                 && forall j :: 0 <= j < i ==> !p(xs[1..][j]);
        assert xs[i + 1] == r.value;
        forall j | 0 <= j < i + 1 ensures !p(xs[j]) {
          if j > 0 { assert xs[j] == xs[1..][j - 1]; }
        }
      }
      if r.None? {
        forall i | 0 <= i < |xs| ensures !p(xs[i]) {
          if i > 0 { assert xs[i] == xs[1..][i - 1]; }
        }
      }
    }
  }

  /** The test `ride => ride.id.toString() === id`. */
  function Numbered(id: string): (p: Ride -> bool)
    ensures forall ride: Ride :: p(ride) == (Time.IntToDecimal(ride.id) == id)
  {
    (ride: Ride) => Time.IntToDecimal(ride.id) == id
  }

  /** `rides.find(ride => ride.id.toString() === id)`. */
  function FindRide(rides: seq<Ride>, id: string): (r: Option<Ride>)
    ensures r.Some? ==> r.value in rides
    ensures |rides| > 0 && Time.IntToDecimal(rides[0].id) == id ==> r == Some(rides[0])
  {
    Find(rides, Numbered(id))
  }

  /** The ride found is the first whose number prints as `id`; none is found
      exactly when no ride's number does. */
  lemma FindRideMeans(rides: seq<Ride>, id: string)
    ensures var r := FindRide(rides, id);
      && (r.Some? ==> exists i :: 0 <= i < |rides| && rides[i] == r.value && Time.IntToDecimal(rides[i].id) == id
                        && forall j :: 0 <= j < i ==> Time.IntToDecimal(rides[j].id) != id)
      && (r.None? <==> forall i :: 0 <= i < |rides| ==> Time.IntToDecimal(rides[i].id) != id)
  {
    FindMeans(rides, Numbered(id));
  }

  /** Whether a leg of a ride stops at station `code`. */
  predicate StopsAt(leg: Leg, code: string)
  {
    leg.Stationary? && leg.station.code == code
  }

  /** `legs.findIndex(...)` for the first stationary leg at `code`, or -1. */
  function StopIndex(legs: seq<Leg>, code: string): (i: int)
    ensures -1 <= i < |legs|
    ensures i >= 0 ==> StopsAt(legs[i], code)
    decreases |legs|
  {
    if |legs| == 0 then -1
    else if StopsAt(legs[0], code) then 0
    else var rest := StopIndex(legs[1..], code); if rest == -1 then -1 else rest + 1
  }

  /** -1 exactly when the ride never stops at `code`; otherwise the index
      of its first stop there. */
  lemma {:induction false} StopIndexMeans(legs: seq<Leg>, code: string)
    ensures var i := StopIndex(legs, code);
      && -1 <= i < |legs|
      && (i == -1 <==> forall j :: 0 <= j < |legs| ==> !StopsAt(legs[j], code))
      && (i >= 0 ==> StopsAt(legs[i], code) && forall j :: 0 <= j < i ==> !StopsAt(legs[j], code))
    decreases |legs|
  {
    if |legs| > 0 && !StopsAt(legs[0], code) {
      StopIndexMeans(legs[1..], code);
      forall j | 0 < j < |legs| ensures legs[j] == legs[1..][j - 1] { }
    }
  }

  /** All legs of all rides can be timed. */
  predicate RidesTimed(rides: seq<Ride>)
  {
    forall i :: 0 <= i < |rides| ==> AllTimed(rides[i].legs)
  }

  /** The ride of a hop and the indices of its boarding and alighting stops,
      or `None` when the ride is not loaded and the hop is skipped. */
  function HopLookup(rides: seq<Ride>, leg: PlanLeg): (r: Option<(Ride, int, int)>)
    ensures r.Some? <==> FindRide(rides, leg.id).Some?
    ensures r.Some? ==> var (ride, from, to) := r.value;
      && ride in rides
      && -1 <= from < |ride.legs| && (from >= 0 ==> StopsAt(ride.legs[from], ToLower(leg.from)))
      && -1 <= to < |ride.legs| && (to >= 0 ==> StopsAt(ride.legs[to], ToLower(leg.to)))
  {
    var hop := LowerPlanLeg(leg);
    match FindRide(rides, hop.id)
    case None => None
    case Some(ride) => Some((ride, StopIndex(ride.legs, hop.from), StopIndex(ride.legs, hop.to)))
  }

  /** The hop's timeline exactly as the handler draws it: `None` for a
      skipped hop, otherwise `createTimelineSingle` over the found indices. */
  function HopTimeline(rides: seq<Ride>, leg: PlanLeg, now: real, project: Coordinates -> Vec3)
    : (r: Option<Result<seq<Vec3>, TimelineError>>)
    requires RidesTimed(rides)
    ensures r.Some? <==> FindRide(rides, leg.id).Some?
  {
    FindRideMeans(rides, leg.id);
    match HopLookup(rides, leg)
    case None => None
    case Some((ride, start, end)) =>
      assert AllTimed(ride.legs) by {
        var i :| 0 <= i < |rides| && rides[i] == ride;
      }
      Some(TimelineSingle(ride, start, end, now, project))
  }

  /** When the ride does not stop at the boarding station, `findIndex`
      yields -1, and the handler reads `ride.legs[-1].stationary`: it throws
      whatever the alighting index is, and the remaining hops are not drawn. */
  lemma MissingBoardingStopFails(rides: seq<Ride>, leg: PlanLeg, now: real, project: Coordinates -> Vec3)
    requires RidesTimed(rides)
    requires FindRide(rides, leg.id).Some?
    requires forall j :: 0 <= j < |FindRide(rides, leg.id).value.legs| ==>
      !StopsAt(FindRide(rides, leg.id).value.legs[j], ToLower(leg.from))
    ensures HopTimeline(rides, leg, now, project) == Some(Err(UndefinedLeg(-1)))
  {
    var ride := FindRide(rides, leg.id).value;
    StopIndexMeans(ride.legs, ToLower(leg.from));
    StopIndexMeans(ride.legs, ToLower(leg.to));
  }

  /** The hop's timeline as evidently intended: a hop whose ride lacks
      either stop is skipped like a hop whose ride is not loaded. */
  function HopTimelineChecked(rides: seq<Ride>, leg: PlanLeg, now: real, project: Coordinates -> Vec3)
    : (r: Option<seq<Vec3>>)
    requires RidesTimed(rides)
    ensures r.Some? ==> HopLookup(rides, leg).Some? && HopLookup(rides, leg).value.1 >= 0 && HopLookup(rides, leg).value.2 >= 0
    ensures r.Some? ==> |r.value| % 2 == 0
  {
    match HopLookup(rides, leg)
    case None => None
    case Some((ride, start, end)) =>
      if start < 0 || end < 0 then None
      else
        assert AllTimed(ride.legs) by {
          FindRideMeans(rides, leg.id);
          var i :| 0 <= i < |rides| && rides[i] == ride;
        }
        match TimelineSingle(ride, start, end, now, project)
        case Ok(points) => Some(points)
        case Err(_) => None
  }

  /** The checked lookup never throws: a drawn hop is the segments of the
      ride's legs from its first stop at the boarding station to its first
      stop at the alighting station, and a hop is skipped only when its ride
      or one of its stops is missing. */
  lemma HopTimelineCheckedMeans(rides: seq<Ride>, leg: PlanLeg, now: real, project: Coordinates -> Vec3)
    requires RidesTimed(rides)
    ensures var r := HopTimelineChecked(rides, leg, now, project);
      && (r.None? <==> (FindRide(rides, leg.id).None?
                        || StopIndex(FindRide(rides, leg.id).value.legs, ToLower(leg.from)) == -1
                        || StopIndex(FindRide(rides, leg.id).value.legs, ToLower(leg.to)) == -1))
      && (r.Some? ==> |r.value| % 2 == 0 && HopTimeline(rides, leg, now, project) == Some(Ok(r.value)))
  {
    var r := HopTimelineChecked(rides, leg, now, project);
    if FindRide(rides, leg.id).Some? {
      var ride := FindRide(rides, leg.id).value;
      StopIndexMeans(ride.legs, ToLower(leg.from));
      StopIndexMeans(ride.legs, ToLower(leg.to));
    }
  }

  /** A drawn hop is the segments through the vertices of the ride's legs
      from its first stop at the boarding station to its first stop at the
      alighting station, elevated against `now`. */
  lemma HopTimelineCheckedDraws(rides: seq<Ride>, leg: PlanLeg, now: real, project: Coordinates -> Vec3)
    requires RidesTimed(rides)
    ensures var r := HopTimelineChecked(rides, leg, now, project);
      r.Some? ==>
        && FindRide(rides, leg.id).Some?
        && var ride := FindRide(rides, leg.id).value;
           var from, to := StopIndex(ride.legs, ToLower(leg.from)), StopIndex(ride.legs, ToLower(leg.to));
           && 0 <= from && 0 <= to
           && AllTimed(LegRange(ride.legs, from, to))
           && r.value == Segments(RideVertices(LegRange(ride.legs, from, to), Unbounded, now, project))
  {
    var r := HopTimelineChecked(rides, leg, now, project);
    if r.Some? {
      FindRideMeans(rides, leg.id);
      var ride := FindRide(rides, leg.id).value;
      var from, to := StopIndex(ride.legs, ToLower(leg.from)), StopIndex(ride.legs, ToLower(leg.to));
      assert HopLookup(rides, leg) == Some((ride, from, to));
      var i :| 0 <= i < |rides| && rides[i] == ride;
      assert AllTimed(ride.legs);
      RangeTimed(ride.legs, from, to);
      assert TimelineSingle(ride, from, to, now, project)
          == Ok(Segments(RideVertices(LegRange(ride.legs, from, to), Unbounded, now, project)));
    }
  }

  /** The values of the present entries, in order. */
  function Somes<T>(xs: seq<Option<T>>): (r: seq<T>)
    ensures |r| <= |xs|
  {
    if |xs| == 0 then []
    else Somes(xs[..|xs| - 1]) + (if xs[|xs| - 1].Some? then [xs[|xs| - 1].value] else [])
  }

  /** Collecting present values distributes over concatenation. */
  lemma {:induction false} SomesAppend<T>(a: seq<Option<T>>, b: seq<Option<T>>)
    ensures Somes(a + b) == Somes(a) + Somes(b)
    decreases |b|
  {
    if |b| == 0 {
      assert a + b == a;
    } else {
      SomesAppend(a, b[..|b| - 1]);
      assert (a + b)[..|a + b| - 1] == a + b[..|b| - 1];
    }
  }

  /** When every entry is present, all of them are kept, in order. */
  lemma {:induction false} SomesAll<T>(xs: seq<Option<T>>)
    requires forall k :: 0 <= k < |xs| ==> xs[k].Some?
    ensures |Somes(xs)| == |xs|
    ensures forall k :: 0 <= k < |xs| ==> Somes(xs)[k] == xs[k].value
  {
    if |xs| > 0 {
      SomesAll(xs[..|xs| - 1]);
    }
  }

  /** When no entry is present, nothing is kept. */
  lemma {:induction false} SomesNone<T>(xs: seq<Option<T>>)
    requires forall k :: 0 <= k < |xs| ==> xs[k].None?
    ensures Somes(xs) == []
  {
    if |xs| > 0 {
      SomesNone(xs[..|xs| - 1]);
    }
  }

  /** Every kept value satisfies what all present entries satisfy. */
  lemma {:induction false} SomesKeep<T>(xs: seq<Option<T>>, p: T -> bool)
    requires forall k :: 0 <= k < |xs| && xs[k].Some? ==> p(xs[k].value)
    ensures forall i :: 0 <= i < |Somes(xs)| ==> p(Somes(xs)[i])
  {
    if |xs| > 0 {
      SomesKeep(xs[..|xs| - 1], p);
    }
  }

  /** `xs.map(f)`. */
  function MapAll<A, B>(xs: seq<A>, f: A --> B): (r: seq<B>)
    requires forall k :: 0 <= k < |xs| ==> f.requires(xs[k])
    ensures |r| == |xs|
    ensures forall k :: 0 <= k < |xs| ==> r[k] == f(xs[k])
  {
    seq(|xs|, k requires 0 <= k < |xs| => f(xs[k]))
  }

  /** Mapping distributes over concatenation. */
  lemma MapAllAppend<A, B>(xs: seq<A>, ys: seq<A>, f: A --> B)
    requires forall k :: 0 <= k < |xs + ys| ==> f.requires((xs + ys)[k])
    ensures forall k :: 0 <= k < |xs| ==> f.requires(xs[k])
    ensures forall k :: 0 <= k < |ys| ==> f.requires(ys[k])
    ensures MapAll(xs + ys, f) == MapAll(xs, f) + MapAll(ys, f)
  {
    assert forall k :: 0 <= k < |xs| ==> (xs + ys)[k] == xs[k];
    assert forall k :: 0 <= k < |ys| ==> (xs + ys)[|xs| + k] == ys[k];
    var whole, front, back := MapAll(xs + ys, f), MapAll(xs, f), MapAll(ys, f);
    forall k | 0 <= k < |whole| ensures whole[k] == (front + back)[k] {
      if k < |xs| {
        assert (xs + ys)[k] == xs[k];
      } else {
        assert (xs + ys)[k] == ys[k - |xs|];
      }
    }
  }

  /** The checked lookup of one hop, as the callback of the plan's `map`. */
  function HopOf(rides: seq<Ride>, now: real, project: Coordinates -> Vec3): (f: PlanLeg --> Option<seq<Vec3>>)
    requires RidesTimed(rides)
    ensures forall leg :: f.requires(leg) && f(leg) == HopTimelineChecked(rides, leg, now, project)
  {
    leg requires RidesTimed(rides) => HopTimelineChecked(rides, leg, now, project)
  }

  /** The checked lookup of every hop of a plan, in plan order. */
  function HopMeshes(rides: seq<Ride>, legs: seq<PlanLeg>, now: real, project: Coordinates -> Vec3)
    : (r: seq<Option<seq<Vec3>>>)
    requires RidesTimed(rides)
    ensures |r| == |legs|
  {
    MapAll(legs, HopOf(rides, now, project))
  }

  /** Corrected: the meshes of all hops of a plan, in order, skipping those
      the checked lookup skips. As written, the plan's callback draws through
      `HopTimeline`, and the first hop that throws ends it. */
  function PlanTimelines(rides: seq<Ride>, legs: seq<PlanLeg>, now: real, project: Coordinates -> Vec3)
    : (r: seq<seq<Vec3>>)
    requires RidesTimed(rides)
    ensures |r| <= |legs|
  {
    Somes(HopMeshes(rides, legs, now, project))
  }

  /** The meshes of a plan are those of its first hops followed by those of
      the others: hops are drawn in plan order. */
  lemma PlanTimelinesAppend(rides: seq<Ride>, a: seq<PlanLeg>, b: seq<PlanLeg>, now: real, project: Coordinates -> Vec3)
    requires RidesTimed(rides)
    ensures PlanTimelines(rides, a + b, now, project) == PlanTimelines(rides, a, now, project) + PlanTimelines(rides, b, now, project)
  {
    MapAllAppend(a, b, HopOf(rides, now, project));
    SomesAppend(HopMeshes(rides, a, now, project), HopMeshes(rides, b, now, project));
  }

  /** When every hop of the plan can be looked up, the plan draws one mesh
      per hop, in plan order. */
  lemma PlanTimelinesAllDrawn(rides: seq<Ride>, legs: seq<PlanLeg>, now: real, project: Coordinates -> Vec3)
    requires RidesTimed(rides)
    requires forall k :: 0 <= k < |legs| ==> HopTimelineChecked(rides, legs[k], now, project).Some?
    ensures |PlanTimelines(rides, legs, now, project)| == |legs|
    ensures forall k :: 0 <= k < |legs| ==>
      PlanTimelines(rides, legs, now, project)[k] == HopTimelineChecked(rides, legs[k], now, project).value
  {
    SomesAll(HopMeshes(rides, legs, now, project));
  }

  /** A plan none of whose hops can be looked up draws nothing. */
  lemma PlanTimelinesNoneDrawn(rides: seq<Ride>, legs: seq<PlanLeg>, now: real, project: Coordinates -> Vec3)
    requires RidesTimed(rides)
    requires forall k :: 0 <= k < |legs| ==> HopTimelineChecked(rides, legs[k], now, project).None?
    ensures PlanTimelines(rides, legs, now, project) == []
  {
    SomesNone(HopMeshes(rides, legs, now, project));
  }

  /** A single hop is drawn exactly when the checked lookup gives its points. */
  lemma PlanTimelinesOfHop(rides: seq<Ride>, leg: PlanLeg, now: real, project: Coordinates -> Vec3)
    requires RidesTimed(rides)
    ensures HopTimelineChecked(rides, leg, now, project).None? ==> PlanTimelines(rides, [leg], now, project) == []
    ensures HopTimelineChecked(rides, leg, now, project).Some? ==>
      PlanTimelines(rides, [leg], now, project) == [HopTimelineChecked(rides, leg, now, project).value]
  {
    var hops := HopMeshes(rides, [leg], now, project);
    assert hops[0] == HopTimelineChecked(rides, leg, now, project);
    assert hops[..0] == [];
  }

  /** Every mesh of the plan is made of whole segments. */
  lemma PlanTimelinesPaired(rides: seq<Ride>, legs: seq<PlanLeg>, now: real, project: Coordinates -> Vec3)
    requires RidesTimed(rides)
    ensures forall i :: 0 <= i < |PlanTimelines(rides, legs, now, project)| ==>
      |PlanTimelines(rides, legs, now, project)[i]| % 2 == 0
  {
    var hops := HopMeshes(rides, legs, now, project);
    forall k | 0 <= k < |hops| && hops[k].Some?
      ensures |hops[k].value| % 2 == 0
    {
      HopTimelineCheckedMeans(rides, legs[k], now, project);
    }
    SomesKeep(hops, (points: seq<Vec3>) => |points| % 2 == 0);
  }
}
