/** src/map.ts: the time axis of the 3D view, the colours of the timeline
    lines, and the loops that turn rides into line-segment vertices. The
    projection onto the map plane (`projectCoordsToMapVec3`, a mercator
    projection) is a parameter; rendering is not part of this model. */
module Timeline {
  import opened Wrappers
  import opened Util
  import opened Time
  import opened RailPath
  import opened RailLegLink
  import opened Schedule

  /** `TIMELINE_ELEVATION_PER_SECOND`: height gained per second of time. */
  const TIMELINE_ELEVATION_PER_SECOND: real := 0.00004

  /** `elevationForTime`: how high above `baseTime`'s level `currentTime` sits. */
  function ElevationForTime(baseTime: real, currentTime: real): (y: real)
    ensures y == 0.0 <==> currentTime == baseTime
    ensures y > 0.0 <==> currentTime > baseTime
  {
    AsSeconds(currentTime - baseTime) * TIMELINE_ELEVATION_PER_SECOND
  }

  /** The elevation grows linearly with the time elapsed since the base. */
  lemma ElevationLinear(baseTime: real, t1: real, t2: real)
    ensures ElevationForTime(baseTime, t2) - ElevationForTime(baseTime, t1)
         == ElevationForTime(t1, t2)
  {
  }

  /** A later time never sits lower. */
  lemma ElevationMonotone(baseTime: real, t1: real, t2: real)
    requires t1 <= t2
    ensures ElevationForTime(baseTime, t1) <= ElevationForTime(baseTime, t2)
  {
    ElevationLinear(baseTime, t1, t2);
  }

  /** The time window the view shows: `zeroTime` at ground level and
      `timeSpan` milliseconds above it. */
  class TimelineView {
    var zeroTime: real
    var timeSpan: real

    /** The constructor fields `TrainMap` sets: the current day offset and two hours. */
    constructor(now: real)
      ensures zeroTime == now
      ensures timeSpan == FromSeconds(3600.0 * 2.0) && timeSpan != 0.0
    {
      zeroTime := now;
      timeSpan := FromSeconds(3600.0 * 2.0);
    }

    /** `elevationToTime`: the time whose elevation above `zeroTime` is `y`.
        `remap` divides by the elevation of the span, so the span must not be empty. */
    function ElevationToTime(y: real): (t: real)
      reads this
      requires timeSpan != 0.0
      ensures ElevationForTime(zeroTime, t) == y
    {
      var ground := ElevationForTime(zeroTime, zeroTime);
      var ceiling := ElevationForTime(zeroTime, zeroTime + timeSpan);
      ElevationOfSpan(timeSpan);
      var t := Remap(y, ground, ceiling, zeroTime, zeroTime + timeSpan);
      RemapOfElevation(y, zeroTime, timeSpan);
      t
    }
  }

  lemma ElevationOfSpan(span: real)
    ensures ElevationForTime(0.0, span) == span / 25000000.0
  {
  }

  /** With ground 0 and ceiling `span / 25000000`, the remapped time lies
      `25000000 * y` past the zero time. */
  lemma RemapOfElevation(y: real, zero: real, span: real)
    requires span != 0.0
    ensures ElevationForTime(zero, zero) == 0.0
    ensures ElevationForTime(zero, zero + span) == span / 25000000.0
    ensures Remap(y, 0.0, span / 25000000.0, zero, zero + span) == zero + y * 25000000.0
  {
    var c := span / 25000000.0;
    assert (zero + span) - zero == span;
    MulDiv(y, span, c);
    assert span / c == 25000000.0;
  }

  /** Reading back the time of an elevation gives the time again. */
  lemma TimeRoundTrip(view: TimelineView, t: real)
    requires view.timeSpan != 0.0
    ensures view.ElevationToTime(ElevationForTime(view.zeroTime, t)) == t
  {
    var y := ElevationForTime(view.zeroTime, t);
    var back := view.ElevationToTime(y);
    assert ElevationForTime(view.zeroTime, back) == y;
    ElevationLinear(view.zeroTime, t, back);
  }

  /** A Three.js colour: a fixed RGB value, or `color_for_number(n)`, whose
      HSL arithmetic is not modelled. */
  datatype Color = Rgb(hex: int) | NumberColor(n: nat)

  /** `timelineColor`. */
  const TIMELINE_COLOR: Color := Rgb(0x999999)

  /** `BRAND_COLORS`: the operators with a colour of their own. */
  const BRAND_COLORS: map<string, int> := map[
    "NS" := 0xFFC917,
    "Blauwnet" := 0x0092d4,
    "Arriva" := 0x33cbd7,
    "VIAS" := 0x1f307e,
    "R-net" := 0xe30613,
    "NMBS" := 0x006ab3,
    "DB" := 0xec0016,
    "Eurobahn" := 0x3fa4a9,
    "NS International" := 0x003082,
    "RRReis" := 0x4f287b,
    "Breng" := 0xe20070
  ]

  /** `colorForOperator`: the brand colour, or the timeline grey, which no
      brand uses, for any other operator. */
  function ColorForOperator(name: string): (c: Color)
    ensures c.Rgb?
    ensures c == TIMELINE_COLOR <==> name !in BRAND_COLORS
    ensures name in BRAND_COLORS ==> c.hex == BRAND_COLORS[name]
  {
    if name in BRAND_COLORS then Rgb(BRAND_COLORS[name]) else TIMELINE_COLOR
  }

  /** The module-level `line_color_map` and `line_color_count`: one colour
      per line, numbered in the order the lines were first seen. */
  class LineColors {
    var colors: map<string, Color>
    var count: nat

    /** Every stored colour is numbered below the counter, and no two lines share one. */
    ghost predicate Valid()
      reads this
    {
      && (forall line :: line in colors ==> colors[line].NumberColor? && colors[line].n < count)
      && (forall a, b :: a in colors && b in colors && a != b ==> colors[a] != colors[b])
    }

    constructor()
      ensures Valid() && colors == map[] && count == 0
    {
      colors := map[];
      count := 0;
    }

    /** `colorForLine`: a line seen before keeps its colour; a new line takes
        the colour of the counter, which then moves on by one. */
    method ColorForLine(line: string) returns (c: Color)
      requires Valid()
      modifies this
      ensures Valid()
      ensures line in colors && colors[line] == c
      ensures old(line in colors) ==> c == old(colors[line]) && colors == old(colors) && count == old(count)
      ensures old(line !in colors) ==>
        && c == NumberColor(old(count))
        && colors == old(colors)[line := c]
        && count == old(count) + 1
    {
      if line in colors {
        return colors[line];
      }
      c := NumberColor(count);
      count := count + 1;
      colors := colors[line := c];
    }
  }

  /** Two different lines never share a colour. */
  lemma DistinctLinesDistinctColors(lines: LineColors, a: string, b: string)
    requires lines.Valid()
    requires a in lines.colors && b in lines.colors && a != b
    ensures lines.colors[a] != lines.colors[b]
  {
  }

  /** The time filter of `appendRidePointsAll`; `createTimelineSingle` has none. */
  datatype Window = Unbounded | Between(startTime: real, endTime: real)

  predicate InWindow(w: Window, t: real)
  {
    match w
    case Unbounded => true
    case Between(s, e) => !(t < s || t > e)
  }

  /** A moving leg whose `link_distance` can be divided by. */
  predicate Timed(leg: Leg)
  {
    leg.Moving? ==> leg.linkDistance != 0.0
  }

  predicate AllTimed(legs: seq<Leg>)
  {
    forall i :: 0 <= i < |legs| ==> Timed(legs[i])
  }

  /** What the `timeAtPoint` closure of a moving leg captures: the distance
      covered on the leg before the current link, the leg's link distance
      and its time range. */
  datatype Clock = Clock(legDistance: real, linkDistance: real, startTime: real, endTime: real)

  /** The closure for a link of `leg` that starts `legDistance` into it. */
  function LegClock(leg: Leg, legDistance: real): (c: Clock)
    requires leg.Moving? && leg.linkDistance != 0.0
    ensures c.linkDistance != 0.0
  {
    Clock(legDistance, leg.linkDistance, leg.startTime, leg.endTime)
  }

  /** `timeAtPoint`: the distance covered on the leg so far, mapped onto
      the leg's time range. */
  function TimeAtPoint(c: Clock, distanceTraveled: real): (t: real)
    requires c.linkDistance != 0.0
    ensures distanceTraveled + c.legDistance == 0.0 ==> t == c.startTime
    ensures distanceTraveled + c.legDistance == c.linkDistance ==> t == c.endTime
    ensures (t - c.startTime) * c.linkDistance == (distanceTraveled + c.legDistance) * (c.endTime - c.startTime)
  {
    Remap(distanceTraveled + c.legDistance, 0.0, c.linkDistance, c.startTime, c.endTime)
  }

  /** The start of a leg is passed at its start time, the full link distance at its end time. */
  lemma TimeAtLegEnds(leg: Leg, legDistance: real, distanceTraveled: real)
    requires leg.Moving? && leg.linkDistance != 0.0
    ensures distanceTraveled + legDistance == 0.0 ==> TimeAtPoint(LegClock(leg, legDistance), distanceTraveled) == leg.startTime
    ensures distanceTraveled + legDistance == leg.linkDistance ==> TimeAtPoint(LegClock(leg, legDistance), distanceTraveled) == leg.endTime
  {
    var t := TimeAtPoint(LegClock(leg, legDistance), distanceTraveled);
    assert t == Remap(distanceTraveled + legDistance, 0.0, leg.linkDistance, leg.startTime, leg.endTime);
  }

  /** The projected point raised to the elevation of its time. */
  function Lift(v: Vec3, y: real): Vec3
  {
    v.(y := y)
  }

  /** The vertices the callback accepts from a prefix of one link's traversal:
      a point whose time falls outside the window adds nothing. */
  function LinkVertices(clock: Clock, trace: seq<(PathPoint, real)>, w: Window, base: real,
                        project: Coordinates -> Vec3): (vs: seq<Vec3>)
    requires clock.linkDistance != 0.0
    ensures |vs| <= |trace|
    ensures w.Unbounded? ==> |vs| == |trace|
  {
    if |trace| == 0 then []
    else
      var prev := LinkVertices(clock, trace[..|trace| - 1], w, base, project);
      var point := trace[|trace| - 1].0;
      var t := TimeAtPoint(clock, trace[|trace| - 1].1);
      if InWindow(w, t) then prev + [Lift(project(point.coordinates), ElevationForTime(base, t))] else prev
  }

  /** The vertices the callbacks add for link `j` of a moving leg, timed
      from the length of the links before it. */
  function LinkPart(leg: Leg, j: nat, w: Window, base: real, project: Coordinates -> Vec3): seq<Vec3>
    requires leg.Moving? && leg.linkDistance != 0.0 && j < |leg.links|
  {
    LinkVertices(LegClock(leg, PrefixLength(leg.links, j)), Traversal(leg.links[j]), w, base, project)
  }

  /** The vertices of each of the first `n` links of a moving leg, one part
      per link; `legDistance` restarts at 0 on every leg and grows by each
      link's length. */
  function LegParts(leg: Leg, n: nat, w: Window, base: real, project: Coordinates -> Vec3): (parts: seq<seq<Vec3>>)
    requires leg.Moving? && leg.linkDistance != 0.0 && n <= |leg.links|
    ensures |parts| == n
  {
    FirstParts(n, LinkPartOf(leg, w, base, project))
  }

  /** Link `j`'s part, as a function of `j`. */
  function LinkPartOf(leg: Leg, w: Window, base: real, project: Coordinates -> Vec3): (part: nat --> seq<Vec3>)
    requires leg.Moving? && leg.linkDistance != 0.0
    ensures forall j: nat :: j < |leg.links| ==> part.requires(j) && part(j) == LinkPart(leg, j, w, base, project)
  {
    (j: nat) requires leg.Moving? && leg.linkDistance != 0.0 && j < |leg.links| => LinkPart(leg, j, w, base, project)
  }

  /** The first `n` parts, part `j` given by `part`. */
  function FirstParts(n: nat, part: nat --> seq<Vec3>): (parts: seq<seq<Vec3>>)
    requires forall j :: 0 <= j < n ==> part.requires(j)
    ensures |parts| == n
  {
    if n == 0 then [] else FirstParts(n - 1, part) + [part(n - 1)]
  }

  /** Part `j` of the first `n` is `part(j)`, however many follow it. */
  lemma {:induction false} FirstPartsAt(n: nat, part: nat --> seq<Vec3>, j: nat)
    requires forall k :: 0 <= k < n ==> part.requires(k)
    requires j < n
    ensures FirstParts(n, part)[j] == part(j)
  {
    if j < n - 1 {
      FirstPartsAt(n - 1, part, j);
    }
  }

  /** Parts joined in order. */
  function Joined(parts: seq<seq<Vec3>>): seq<Vec3>
  {
    if |parts| == 0 then [] else Joined(parts[..|parts| - 1]) + parts[|parts| - 1]
  }

  /** The vertices of the first `n` links of a moving leg. */
  function LegVertices(leg: Leg, n: nat, w: Window, base: real, project: Coordinates -> Vec3): (vs: seq<Vec3>)
    requires leg.Moving? && leg.linkDistance != 0.0 && n <= |leg.links|
    ensures n == 0 ==> vs == []
    ensures w.Unbounded? ==> |vs| == PointCount(leg.links, n)
  {
    if w.Unbounded? then PartsCount(leg, n, w, base, project); Joined(LegParts(leg, n, w, base, project))
    else Joined(LegParts(leg, n, w, base, project))
  }

  /** The number of path points of the first `n` links. */
  function PointCount(links: seq<LegLink>, n: nat): nat
    requires n <= |links|
  {
    if n == 0 then 0 else PointCount(links, n - 1) + |links[n - 1].link.path.points|
  }

  /** Without a window every point of every link gives one vertex. */
  lemma {:induction false} PartsCount(leg: Leg, n: nat, w: Window, base: real, project: Coordinates -> Vec3)
    requires leg.Moving? && leg.linkDistance != 0.0 && n <= |leg.links| && w.Unbounded?
    ensures |Joined(LegParts(leg, n, w, base, project))| == PointCount(leg.links, n)
  {
    if n > 0 {
      PartsCount(leg, n - 1, w, base, project);
      var parts := LegParts(leg, n, w, base, project);
      assert parts[..n - 1] == LegParts(leg, n - 1, w, base, project);
      assert |parts[n - 1]| == |leg.links[n - 1].link.path.points|;
    }
  }

  /** One more link adds its part after the vertices of the links before it. */
  lemma LegVerticesSnoc(leg: Leg, n: nat, w: Window, base: real, project: Coordinates -> Vec3)
    requires leg.Moving? && leg.linkDistance != 0.0 && 0 < n <= |leg.links|
    ensures LegVertices(leg, n, w, base, project)
         == LegVertices(leg, n - 1, w, base, project) + LinkPart(leg, n - 1, w, base, project)
  {
    assert LegParts(leg, n, w, base, project)[..n - 1] == LegParts(leg, n - 1, w, base, project);
  }

  /** The vertices of a list of legs: stationary legs add nothing. */
  function RideVertices(legs: seq<Leg>, w: Window, base: real, project: Coordinates -> Vec3): (vs: seq<Vec3>)
    requires AllTimed(legs)
    ensures w.Unbounded? ==> |vs| == MovingPointCount(legs)
  {
    if |legs| == 0 then []
    else
      var prev := RideVertices(legs[..|legs| - 1], w, base, project);
      var leg := legs[|legs| - 1];
      if leg.Stationary? then prev else prev + LegVertices(leg, |leg.links|, w, base, project)
  }

  /** The number of path points over the links of the moving legs. */
  function MovingPointCount(legs: seq<Leg>): nat
  {
    if |legs| == 0 then 0
    else
      var leg := legs[|legs| - 1];
      MovingPointCount(legs[..|legs| - 1]) + if leg.Stationary? then 0 else PointCount(leg.links, |leg.links|)
  }

  /** What the callbacks have pushed so far, and the `lastPoint` they carry. */
  datatype Pairing = Pairing(pushed: seq<Vec3>, lastPoint: Option<Vec3>)

  /** Nothing pushed and no `lastPoint` yet: the state each function starts in. */
  const START: Pairing := Pairing([], None)

  /** One accepted vertex: the first only becomes `lastPoint`, any later one
      pushes `lastPoint` and itself and then takes its place. */
  function Push(p: Pairing, v: Vec3): (r: Pairing)
    ensures r.lastPoint == Some(v)
    ensures |r.pushed| == if p.lastPoint.None? then |p.pushed| else |p.pushed| + 2
  {
    match p.lastPoint
    case None => Pairing(p.pushed, Some(v))
    case Some(last) => Pairing(p.pushed + [last, v], Some(v))
  }

  /** `Push` applied to the vertices in order. */
  function PushAll(p: Pairing, vs: seq<Vec3>): Pairing
  {
    if |vs| == 0 then p else Push(PushAll(p, vs[..|vs| - 1]), vs[|vs| - 1])
  }

  /** Pushing two stretches of vertices one after the other is pushing them joined. */
  lemma {:induction false} PushAllAppend(p: Pairing, a: seq<Vec3>, b: seq<Vec3>)
    ensures PushAll(p, a + b) == PushAll(PushAll(p, a), b)
  {
    if |b| > 0 {
      assert (a + b)[..|a + b| - 1] == a + b[..|b| - 1];
      PushAllAppend(p, a, b[..|b| - 1]);
    } else {
      assert a + b == a;
    }
  }

  /** One more vertex is one more `Push`. */
  lemma PushAllSnoc(p: Pairing, vs: seq<Vec3>, v: Vec3)
    ensures PushAll(p, vs + [v]) == Push(PushAll(p, vs), v)
  {
    assert (vs + [v])[..|vs|] == vs;
  }

  /** The line segments through a list of vertices, as vertex pairs: every
      vertex after the first closes a segment that starts at the one before it. */
  function Segments(vs: seq<Vec3>): (s: seq<Vec3>)
    ensures |s| == if |vs| == 0 then 0 else 2 * (|vs| - 1)
    ensures |s| % 2 == 0
  {
    if |vs| < 2 then [] else Segments(vs[..|vs| - 1]) + [vs[|vs| - 2], vs[|vs| - 1]]
  }

  /** Segment `i` runs from vertex `i` to vertex `i + 1`. */
  lemma {:induction false} SegmentsShape(vs: seq<Vec3>)
    ensures forall i :: 0 <= i < |vs| - 1 ==> Segments(vs)[2 * i] == vs[i] && Segments(vs)[2 * i + 1] == vs[i + 1]
  {
    if |vs| >= 2 {
      var init := vs[..|vs| - 1];
      SegmentsShape(init);
      forall i | 0 <= i < |vs| - 1
        ensures Segments(vs)[2 * i] == vs[i] && Segments(vs)[2 * i + 1] == vs[i + 1]
      {
        if i < |vs| - 2 {
          assert Segments(vs)[2 * i] == Segments(init)[2 * i];
          assert Segments(vs)[2 * i + 1] == Segments(init)[2 * i + 1];
        }
      }
    }
  }

  /** The last vertex seen, which `lastPoint` holds. */
  function LastOf(vs: seq<Vec3>): (p: Option<Vec3>)
    ensures p.None? <==> vs == []
  {
    if vs == [] then None else Some(vs[|vs| - 1])
  }

  /** From the start, the `lastPoint` logic pushes exactly the segments
      through the accepted vertices and ends holding the last of them. */
  lemma {:induction false} PushAllIsSegments(vs: seq<Vec3>)
    ensures PushAll(START, vs) == Pairing(Segments(vs), LastOf(vs))
  {
    if |vs| > 0 {
      PushAllIsSegments(vs[..|vs| - 1]);
    }
  }

  /** Every vertex's elevation lies between `lo` and `hi`. */
  ghost predicate WithinBand(vs: seq<Vec3>, lo: real, hi: real)
  {
    forall i :: 0 <= i < |vs| ==> lo <= vs[i].y <= hi
  }

  lemma {:induction false} LinkVerticesInBand(clock: Clock, trace: seq<(PathPoint, real)>,
                                              s: real, e: real, project: Coordinates -> Vec3)
    requires clock.linkDistance != 0.0
    ensures WithinBand(LinkVertices(clock, trace, Between(s, e), s, project), 0.0, ElevationForTime(s, e))
  {
    if |trace| > 0 {
      LinkVerticesInBand(clock, trace[..|trace| - 1], s, e, project);
      var t := TimeAtPoint(clock, trace[|trace| - 1].1);
      if InWindow(Between(s, e), t) {
        ElevationMonotone(s, s, t);
        ElevationMonotone(s, t, e);
      }
    }
  }

  lemma LegVerticesInBand(leg: Leg, n: nat, s: real, e: real, project: Coordinates -> Vec3)
    requires leg.Moving? && leg.linkDistance != 0.0 && n <= |leg.links|
    ensures WithinBand(LegVertices(leg, n, Between(s, e), s, project), 0.0, ElevationForTime(s, e))
  {
    var w, hi := Between(s, e), ElevationForTime(s, e);
    var parts := LegParts(leg, n, w, s, project);
    forall j | 0 <= j < n
      ensures WithinBand(parts[j], 0.0, hi)
    {
      FirstPartsAt(n, LinkPartOf(leg, w, s, project), j);
      LinkPartInBand(leg, j, s, e, project);
    }
    JoinedInBand(parts, 0.0, hi);
  }

  /** Parts that each lie in a band join into vertices in that band. */
  lemma {:induction false} JoinedInBand(parts: seq<seq<Vec3>>, lo: real, hi: real)
    requires forall j :: 0 <= j < |parts| ==> WithinBand(parts[j], lo, hi)
    ensures WithinBand(Joined(parts), lo, hi)
  {
    if |parts| > 0 {
      JoinedInBand(parts[..|parts| - 1], lo, hi);
      BandAppend(Joined(parts[..|parts| - 1]), parts[|parts| - 1], lo, hi);
    }
  }

  lemma BandAppend(a: seq<Vec3>, b: seq<Vec3>, lo: real, hi: real)
    requires WithinBand(a, lo, hi) && WithinBand(b, lo, hi)
    ensures WithinBand(a + b, lo, hi)
  {
  }

  lemma LinkPartInBand(leg: Leg, j: nat, s: real, e: real, project: Coordinates -> Vec3)
    requires leg.Moving? && leg.linkDistance != 0.0 && j < |leg.links|
    ensures WithinBand(LinkPart(leg, j, Between(s, e), s, project), 0.0, ElevationForTime(s, e))
  {
    LinkVerticesInBand(LegClock(leg, PrefixLength(leg.links, j)), Traversal(leg.links[j]), s, e, project);
  }

  /** With the window of `appendRidePointsAll`, every vertex sits between
      the ground and the elevation of the window's end. */
  lemma {:induction false} RideVerticesInBand(legs: seq<Leg>, s: real, e: real, project: Coordinates -> Vec3)
    requires AllTimed(legs)
    ensures WithinBand(RideVertices(legs, Between(s, e), s, project), 0.0, ElevationForTime(s, e))
  {
    if |legs| > 0 {
      RideVerticesInBand(legs[..|legs| - 1], s, e, project);
      var leg := legs[|legs| - 1];
      if leg.Moving? {
        assert Timed(legs[|legs| - 1]);
        LegVerticesInBand(leg, |leg.links|, s, e, project);
      }
    }
  }

  /** Appending a stationary leg leaves the vertices as they were. */
  lemma StationaryAddsNothing(legs: seq<Leg>, leg: Leg, w: Window, base: real, project: Coordinates -> Vec3)
    requires AllTimed(legs) && leg.Stationary?
    ensures AllTimed(legs + [leg])
    ensures RideVertices(legs + [leg], w, base, project) == RideVertices(legs, w, base, project)
  {
    assert (legs + [leg])[..|legs|] == legs;
  }

  /** Every point `appendRidePointsAll` pushes lies inside the window's band. */
  lemma PushedPointsInBand(legs: seq<Leg>, s: real, e: real, project: Coordinates -> Vec3)
    requires AllTimed(legs)
    ensures WithinBand(Segments(RideVertices(legs, Between(s, e), s, project)), 0.0, ElevationForTime(s, e))
  {
    RideVerticesInBand(legs, s, e, project);
    SegmentsInBand(RideVertices(legs, Between(s, e), s, project), 0.0, ElevationForTime(s, e));
  }

  /** Pairing vertices up into segments keeps every one inside the band. */
  lemma SegmentsInBand(vs: seq<Vec3>, lo: real, hi: real)
    requires WithinBand(vs, lo, hi)
    ensures WithinBand(Segments(vs), lo, hi)
  {
    SegmentsShape(vs);
    var segs := Segments(vs);
    forall i | 0 <= i < |segs|
      ensures lo <= segs[i].y <= hi
    {
      var k := i / 2;
      assert i == 2 * k || i == 2 * k + 1;
      assert segs[2 * k] == vs[k] && segs[2 * k + 1] == vs[k + 1];
    }
  }

  /** The `legLink_IterWithDistance` callback over one link's traversal,
      with `clock` the `timeAtPoint` it closes over, continuing from the
      pushes and `lastPoint` of the links and legs before. */
  method TraceLink(clock: Clock, trace: seq<(PathPoint, real)>, w: Window, base: real,
                   project: Coordinates -> Vec3, start: Pairing)
    returns (r: Pairing)
    requires clock.linkDistance != 0.0
    ensures r == PushAll(start, LinkVertices(clock, trace, w, base, project))
  {
    var points := start.pushed;
    var lastPoint := start.lastPoint;
    var k := 0;
    while k < |trace|
      invariant 0 <= k <= |trace|
      invariant Pairing(points, lastPoint) == PushAll(start, LinkVertices(clock, trace[..k], w, base, project))
    {
      var point := trace[k].0;
      var timeAtPoint := TimeAtPoint(clock, trace[k].1);
      LinkVerticesSnoc(clock, trace, k, w, base, project);
      if InWindow(w, timeAtPoint) {
        var coords := Lift(project(point.coordinates), ElevationForTime(base, timeAtPoint));
        PushAllSnoc(start, LinkVertices(clock, trace[..k], w, base, project), coords);
        if lastPoint.Some? {
          points := points + [lastPoint.value, coords];
        }
        lastPoint := Some(coords);
      } else {
        assert LinkVertices(clock, trace[..k], w, base, project) + [] == LinkVertices(clock, trace[..k], w, base, project);
      }
      k := k + 1;
    }
    assert trace[..k] == trace;
    r := Pairing(points, lastPoint);
  }

  /** The callback on the pair at `k` adds one vertex, or none outside the window. */
  lemma LinkVerticesSnoc(clock: Clock, trace: seq<(PathPoint, real)>, k: nat, w: Window, base: real,
                         project: Coordinates -> Vec3)
    requires clock.linkDistance != 0.0 && k < |trace|
    ensures var t := TimeAtPoint(clock, trace[k].1);
      LinkVertices(clock, trace[..k + 1], w, base, project)
      == LinkVertices(clock, trace[..k], w, base, project)
         + if InWindow(w, t) then [Lift(project(trace[k].0.coordinates), ElevationForTime(base, t))] else []
  {
    assert trace[..k + 1][..k] == trace[..k];
  }

  /** `PushAll` applied to the parts one after another. */
  ghost function PushEach(p: Pairing, parts: seq<seq<Vec3>>): Pairing
  {
    if |parts| == 0 then p else PushAll(PushEach(p, parts[..|parts| - 1]), parts[|parts| - 1])
  }

  /** Pushing part by part is pushing the parts joined. */
  lemma {:induction false} PushEachIsPushAll(p: Pairing, parts: seq<seq<Vec3>>)
    ensures PushEach(p, parts) == PushAll(p, Joined(parts))
  {
    if |parts| > 0 {
      var init := parts[..|parts| - 1];
      PushEachIsPushAll(p, init);
      PushAllAppend(p, Joined(init), parts[|parts| - 1]);
    }
  }

  /** The state after the callbacks of the first `n` links of a moving leg,
      one link's pushes after another's. */
  ghost function LinksPushed(leg: Leg, n: nat, w: Window, base: real, project: Coordinates -> Vec3,
                             start: Pairing): Pairing
    requires leg.Moving? && leg.linkDistance != 0.0 && n <= |leg.links|
  {
    PushEach(start, LegParts(leg, n, w, base, project))
  }

  /** One more link is one more `PushAll`. */
  lemma LinksPushedStep(leg: Leg, n: nat, w: Window, base: real, project: Coordinates -> Vec3, start: Pairing)
    requires leg.Moving? && leg.linkDistance != 0.0 && 0 < n <= |leg.links|
    ensures LinksPushed(leg, n, w, base, project, start)
         == PushAll(LinksPushed(leg, n - 1, w, base, project, start),
                    LinkPart(leg, n - 1, w, base, project))
  {
    assert LegParts(leg, n, w, base, project)[..n - 1] == LegParts(leg, n - 1, w, base, project);
  }

  /** The `forEach` over a moving leg's links: `legDistance` starts at 0 and
      grows by each link's length after its points are handled. */
  method TraceLeg(leg: Leg, w: Window, base: real, project: Coordinates -> Vec3, start: Pairing)
    returns (r: Pairing)
    requires leg.Moving? && leg.linkDistance != 0.0
    ensures r == LinksPushed(leg, |leg.links|, w, base, project, start)
  {
    r := start;
    var legDistance := 0.0;
    var j := 0;
    while j < |leg.links|
      invariant 0 <= j <= |leg.links|
      invariant legDistance == PrefixLength(leg.links, j)
      invariant r == LinksPushed(leg, j, w, base, project, start)
    {
      r, legDistance := TraceLegLink(leg, j, legDistance, w, base, project, start, r);
      j := j + 1;
    }
  }

  /** One turn of that loop: link `j`, timed from the length `legDistance`
      of the links before it; also returns the length up to the next link. */
  method TraceLegLink(leg: Leg, j: nat, legDistance: real, w: Window, base: real,
                      project: Coordinates -> Vec3, ghost start: Pairing, before: Pairing)
    returns (after: Pairing, nextDistance: real)
    requires leg.Moving? && leg.linkDistance != 0.0 && j < |leg.links|
    requires legDistance == PrefixLength(leg.links, j)
    requires before == LinksPushed(leg, j, w, base, project, start)
    ensures after == LinksPushed(leg, j + 1, w, base, project, start)
    ensures nextDistance == PrefixLength(leg.links, j + 1)
  {
    var trace := IterWithDistance(leg.links[j]);
    after := TraceLink(LegClock(leg, legDistance), trace, w, base, project, before);
    nextDistance := legDistance + leg.links[j].link.path.pathLength;
    LinksPushedStep(leg, j + 1, w, base, project, start);
  }

  /** The legs `from` to `to` that the loops of `appendRidePointsAll` (all
      legs) and `createTimelineSingle` visit, from a non-negative `from`. */
  function LegRange(legs: seq<Leg>, from: nat, to: int): (r: seq<Leg>)
    ensures |r| <= |legs|
    ensures forall i :: 0 <= i < |r| ==> from + i <= to && from + i < |legs| && r[i] == legs[from + i]
    ensures from <= to && from < |legs| ==> |r| == (if to < |legs| then to + 1 else |legs|) - from
    ensures !(from <= to && from < |legs|) ==> r == []
    ensures from == 0 && to == |legs| - 1 ==> r == legs
  {
    if from <= to && from < |legs| then legs[from..if to + 1 < |legs| then to + 1 else |legs|] else []
  }

  lemma RangeTimed(legs: seq<Leg>, from: nat, to: int)
    requires AllTimed(legs)
    ensures AllTimed(LegRange(legs, from, to))
  {
    var r := LegRange(legs, from, to);
    forall i | 0 <= i < |r| ensures Timed(r[i]) {
      assert r[i] == legs[from + i];
    }
  }

  /** The vertices of the legs visited so far, `legs[from..index]`. */
  function Visited(legs: seq<Leg>, from: nat, index: nat, w: Window, base: real, project: Coordinates -> Vec3): seq<Vec3>
    requires AllTimed(legs) && from <= index <= |legs|
  {
    assert AllTimed(legs[from..index]) by {
      forall i | 0 <= i < index - from ensures Timed(legs[from..index][i]) {
        assert legs[from..index][i] == legs[from + i];
      }
    }
    RideVertices(legs[from..index], w, base, project)
  }

  /** Visiting leg `n - 1` adds its vertices, or none when it is stationary. */
  lemma VisitedSnoc(legs: seq<Leg>, from: nat, n: nat, w: Window, base: real, project: Coordinates -> Vec3)
    requires AllTimed(legs) && from < n <= |legs|
    ensures Timed(legs[n - 1])
    ensures Visited(legs, from, n, w, base, project)
         == Visited(legs, from, n - 1, w, base, project)
            + OwnVertices(legs[n - 1], w, base, project)
  {
    var done := legs[from..n - 1];
    assert legs[from..n] == done + [legs[n - 1]];
    assert (done + [legs[n - 1]])[..|done|] == done;
  }

  /** The vertices one leg contributes: none when it is stationary. */
  ghost function OwnVertices(leg: Leg, w: Window, base: real, project: Coordinates -> Vec3): seq<Vec3>
    requires Timed(leg)
  {
    if leg.Stationary? then [] else LegVertices(leg, |leg.links|, w, base, project)
  }

  /** `parts` lists, leg by leg, the vertices each of `legs` contributes. */
  ghost predicate PartsOf(legs: seq<Leg>, parts: seq<seq<Vec3>>, w: Window, base: real, project: Coordinates -> Vec3)
    requires AllTimed(legs)
  {
    |parts| == |legs| &&
    forall i {:trigger OwnVertices(legs[i], w, base, project)} ::
      0 <= i < |legs| ==> parts[i] == OwnVertices(legs[i], w, base, project)
  }

  /** The list of every leg's vertices. */
  lemma AllParts(legs: seq<Leg>, w: Window, base: real, project: Coordinates -> Vec3) returns (parts: seq<seq<Vec3>>)
    requires AllTimed(legs)
    ensures PartsOf(legs, parts, w, base, project)
  {
    parts := seq(|legs|, i requires 0 <= i < |legs| => OwnVertices(legs[i], w, base, project));
  }

  /** `PushAll` applied to `parts[from]` up to `parts[index - 1]` in turn
      (nothing is pushed before `from` or past the end of `parts`). */
  ghost function PushRange(parts: seq<seq<Vec3>>, from: nat, index: nat): Pairing
  {
    if index <= from || |parts| < index then START else PushAll(PushRange(parts, from, index - 1), parts[index - 1])
  }

  /** Pushing leg by leg pushes the vertices of all the legs visited. */
  lemma {:induction false} PushRangeIsPushAll(legs: seq<Leg>, parts: seq<seq<Vec3>>, from: nat, index: nat,
                                              w: Window, base: real, project: Coordinates -> Vec3)
    requires AllTimed(legs) && PartsOf(legs, parts, w, base, project) && from <= index <= |legs|
    ensures PushRange(parts, from, index) == PushAll(START, Visited(legs, from, index, w, base, project))
  {
    if index == from {
      assert legs[from..index] == [];
    } else {
      PushRangeIsPushAll(legs, parts, from, index - 1, w, base, project);
      VisitedSnoc(legs, from, index, w, base, project);
      assert parts[index - 1] == OwnVertices(legs[index - 1], w, base, project);
      PushAllAppend(START, Visited(legs, from, index - 1, w, base, project), parts[index - 1]);
    }
  }

  /** Where the loop over the legs `from` to `to` stops: one past `to`,
      or at the end of the legs, or at once when `from` names no leg to visit. */
  function LegsEnd(legs: seq<Leg>, from: nat, to: int): (stop: nat)
    ensures from <= stop
    ensures from <= to && from < |legs| ==> stop <= |legs|
    ensures stop == from || stop == to + 1 || stop == |legs|
  {
    if to < from || |legs| <= from then from else if to + 1 < |legs| then to + 1 else |legs|
  }

  /** The loop over the legs `from` to `to`: stationary legs are skipped,
      and `lastPoint` is carried from one moving leg into the next. */
  method TraceLegs(legs: seq<Leg>, from: nat, to: int, w: Window, base: real, project: Coordinates -> Vec3)
    returns (points: seq<Vec3>)
    requires AllTimed(legs)
    ensures AllTimed(LegRange(legs, from, to))
    ensures points == Segments(RideVertices(LegRange(legs, from, to), w, base, project))
  {
    ghost var parts := AllParts(legs, w, base, project);
    var state := START;
    var index := from;
    while index <= to && index < |legs|
      invariant from <= index <= LegsEnd(legs, from, to)
      invariant state == PushRange(parts, from, index)
    {
      state := VisitLeg(legs, index, w, base, project, parts, state);
      index := index + 1;
    }
    LegsDone(legs, from, to, index, parts, w, base, project, state);
    points := state.pushed;
  }

  /** One turn of that loop: leg `index` is traced when it is moving. */
  method VisitLeg(legs: seq<Leg>, index: nat, w: Window, base: real, project: Coordinates -> Vec3,
                  ghost parts: seq<seq<Vec3>>, before: Pairing)
    returns (after: Pairing)
    requires AllTimed(legs) && PartsOf(legs, parts, w, base, project) && index < |legs|
    ensures index < |parts| && after == PushAll(before, parts[index])
  {
    var leg := legs[index];
    assert Timed(leg);
    assert parts[index] == OwnVertices(leg, w, base, project);
    if leg.Moving? {
      after := TraceLeg(leg, w, base, project, before);
      PushEachIsPushAll(before, LegParts(leg, |leg.links|, w, base, project));
    } else {
      after := before;
    }
  }

  /** When that loop stops, its state holds the pairs of the whole range. */
  lemma LegsDone(legs: seq<Leg>, from: nat, to: int, index: nat, parts: seq<seq<Vec3>>,
                 w: Window, base: real, project: Coordinates -> Vec3, state: Pairing)
    requires AllTimed(legs) && PartsOf(legs, parts, w, base, project)
    requires from <= index <= LegsEnd(legs, from, to) && !(index <= to && index < |legs|)
    requires state == PushRange(parts, from, index)
    ensures AllTimed(LegRange(legs, from, to))
    ensures state.pushed == Segments(RideVertices(LegRange(legs, from, to), w, base, project))
  {
    RangeTimed(legs, from, to);
    if from < index {
      PushRangeIsPushAll(legs, parts, from, index, w, base, project);
      assert legs[from..index] == LegRange(legs, from, to);
    } else {
      assert LegRange(legs, from, to) == [];
    }
    PushAllIsSegments(RideVertices(LegRange(legs, from, to), w, base, project));
  }

  /** The three arrays `createTimelineAll` hands to every ride. */
  class TimelineBuffers {
    var points: seq<Vec3>
    var lineColors: seq<Color>
    var operatorColors: seq<Color>

    constructor()
      ensures points == [] && lineColors == [] && operatorColors == []
    {
      points := [];
      lineColors := [];
      operatorColors := [];
    }
  }

  /** `n` copies of `c`. */
  function Repeat(c: Color, n: nat): (r: seq<Color>)
    ensures |r| == n && forall i :: 0 <= i < n ==> r[i] == c
  {
    seq(n, _ => c)
  }

  /** The vertices of a ride inside [startTime, endTime], elevated against `startTime`. */
  function WindowVertices(startTime: real, endTime: real, ride: Ride, project: Coordinates -> Vec3): seq<Vec3>
    requires AllTimed(ride.legs)
  {
    RideVertices(ride.legs, Between(startTime, endTime), startTime, project)
  }

  /** `appendRidePointsAll`: the ride's vertices inside [startTime, endTime],
      paired into segments across leg boundaries, each vertex pushed with the
      ride's line colour and operator colour. */
  method AppendRidePointsAll(startTime: real, endTime: real, ride: Ride, buffers: TimelineBuffers,
                             lines: LineColors, project: Coordinates -> Vec3)
    requires AllTimed(ride.legs)
    requires lines.Valid()
    modifies buffers, lines
    ensures lines.Valid()
    ensures ride.line in lines.colors
    ensures old(ride.line in lines.colors) ==> lines.colors == old(lines.colors) && lines.count == old(lines.count)
    ensures old(ride.line !in lines.colors) ==>
      && lines.colors == old(lines.colors)[ride.line := NumberColor(old(lines.count))]
      && lines.count == old(lines.count) + 1
    ensures buffers.points == old(buffers.points) + Segments(WindowVertices(startTime, endTime, ride, project))
    ensures buffers.lineColors
         == old(buffers.lineColors) + Repeat(lines.colors[ride.line], |Segments(WindowVertices(startTime, endTime, ride, project))|)
    ensures buffers.operatorColors
         == old(buffers.operatorColors) + Repeat(ColorForOperator(ride.operator), |Segments(WindowVertices(startTime, endTime, ride, project))|)
    ensures var grown := |buffers.points| - |old(buffers.points)|;
      && grown % 2 == 0
      && |buffers.lineColors| - |old(buffers.lineColors)| == grown
      && |buffers.operatorColors| - |old(buffers.operatorColors)| == grown
  {
    var operatorColor := ColorForOperator(ride.operator);
    var lineColor := lines.ColorForLine(ride.line);
    var pushed := TraceLegs(ride.legs, 0, |ride.legs| - 1, Between(startTime, endTime), startTime, project);
    buffers.points := buffers.points + pushed;
    buffers.lineColors := buffers.lineColors + Repeat(lineColor, |pushed|);
    buffers.operatorColors := buffers.operatorColors + Repeat(operatorColor, |pushed|);
  }

  /** Why `createTimelineSingle` stops: `ride.legs[index]` at a negative
      index is `undefined`, and reading `stationary` of it throws. */
  datatype TimelineError = UndefinedLeg(index: int)

  /** The points `createTimelineSingle` collects: every vertex of the legs
      `from` to `to`, elevated against `now`, paired into segments; or the
      error a negative start index throws. */
  function TimelineSingle(ride: Ride, from: int, to: int, now: real, project: Coordinates -> Vec3): (r: Result<seq<Vec3>, TimelineError>)
    requires AllTimed(ride.legs)
    ensures r.Err? <==> from < 0 && from <= to
    ensures r.Ok? ==> |r.value| % 2 == 0
  {
    if from <= to && from < |ride.legs| && from < 0 then Err(UndefinedLeg(from))
    else
      var legs := LegRange(ride.legs, if from < 0 then 0 else from, to);
      RangeTimed(ride.legs, if from < 0 then 0 else from, to);
      var points := Segments(RideVertices(legs, Unbounded, now, project));
      assert |points| % 2 == 0;
      Ok(points)
  }

  /** `createTimelineSingle`, without the mesh it wraps the points in. A
      negative `from` that enters the loop throws on the first leg. */
  method CreateTimelineSingle(ride: Ride, from: int, to: int, now: real, project: Coordinates -> Vec3)
    returns (r: Result<seq<Vec3>, TimelineError>)
    requires AllTimed(ride.legs)
    ensures r == TimelineSingle(ride, from, to, now, project)
  {
    if from <= to && from < |ride.legs| && from < 0 {
      return Err(UndefinedLeg(from));
    }
    var points := TraceLegs(ride.legs, if from < 0 then 0 else from, to, Unbounded, now, project);
    r := Ok(points);
  }
}
