/** src/rail/path.ts: a polyline whose points carry the cumulative distance
    from the first point, the search for the span around a distance, and
    interpolation inside that span. */
module RailPath {
  import opened Wrappers
  import opened Util
  import Numbers

  datatype PathPoint = PathPoint(coordinates: Coordinates, startOffset: real)

  datatype Path = Path(points: seq<PathPoint>, pathLength: real)

  /** A position with an unnormalised heading (`forward` is a difference of
      two coordinates; its normalisation is not modelled). */
  datatype Position2d = Position2d(position: Coordinates, forward: Vec2)

  datatype PathError =
    | TooFewCoordinates   // "Expected path to have at least 2 elements"
    | SpanNotFound        // "span not found"
    | NotANumber          // a zero-length span: inverseLerp divides 0 by 0

  /** The distance along `coords` from the first coordinate to `coords[i]`. */
  function CumulativeDistance(coords: seq<Coordinates>, dist: DistanceFn, i: nat): (d: real)
    requires i < |coords|
    ensures d >= 0.0
  {
    if i == 0 then 0.0 else CumulativeDistance(coords, dist, i - 1) + dist(coords[i - 1], coords[i])
  }

  /** The shape every built path has: at least two points, offsets starting at
      zero and never decreasing, and the length equal to the last offset. */
  ghost predicate ValidPath(p: Path)
  {
    && |p.points| >= 2
    && p.points[0].startOffset == 0.0
    && (forall i, j :: 0 <= i <= j < |p.points| ==> p.points[i].startOffset <= p.points[j].startOffset)
    && p.pathLength == p.points[|p.points| - 1].startOffset
  }

  /** What `pathFromCoordinateArray` returns, as a value. */
  function BuildPath(coords: seq<Coordinates>, dist: DistanceFn): (r: Result<Path, PathError>)
    ensures r.Ok? <==> |coords| >= 2
    ensures r.Err? ==> r.error == TooFewCoordinates
    ensures r.Ok? ==>
      && |r.value.points| == |coords|
      && (forall i :: 0 <= i < |coords| ==> r.value.points[i].coordinates == coords[i])
      && r.value.points[0].startOffset == 0.0
      && (forall i {:trigger r.value.points[i]} :: 0 <= i < |coords| ==> r.value.points[i].startOffset == CumulativeDistance(coords, dist, i))
      && r.value.pathLength == r.value.points[|coords| - 1].startOffset
  {
    if |coords| < 2 then Err(TooFewCoordinates)
    else
      Ok(Path(PointsUpTo(coords, dist, |coords|), CumulativeDistance(coords, dist, |coords| - 1)))
  }

  /** The first `n` points of the path built from `coords`. */
  function PointsUpTo(coords: seq<Coordinates>, dist: DistanceFn, n: nat): (r: seq<PathPoint>)
    requires n <= |coords|
    ensures |r| == n
    ensures forall i {:trigger r[i]} :: 0 <= i < n ==> r[i] == PathPoint(coords[i], CumulativeDistance(coords, dist, i))
  {
    seq(n, i requires 0 <= i < n => PathPoint(coords[i], CumulativeDistance(coords, dist, i)))
  }

  lemma PointsUpToSnoc(coords: seq<Coordinates>, dist: DistanceFn, n: nat)
    requires n < |coords|
    ensures PointsUpTo(coords, dist, n + 1) == PointsUpTo(coords, dist, n) + [PathPoint(coords[n], CumulativeDistance(coords, dist, n))]
  {
    var a, b := PointsUpTo(coords, dist, n + 1), PointsUpTo(coords, dist, n) + [PathPoint(coords[n], CumulativeDistance(coords, dist, n))];
    assert forall i :: 0 <= i <= n ==> a[i] == b[i];
  }

  /** `pathFromCoordinateArray`: pushes one point per coordinate while a running
      sum adds the distance from the previous coordinate. */
  method PathFromCoordinateArray(coords: seq<Coordinates>, dist: DistanceFn) returns (r: Result<Path, PathError>)
    ensures r == BuildPath(coords, dist)
  {
    if |coords| < 2 {
      return Err(TooFewCoordinates);
    }
    var out := [PathPoint(coords[0], 0.0)];
    assert out == PointsUpTo(coords, dist, 1);
    var sum := 0.0;
    var index := 1;
    while index < |coords|
      invariant 1 <= index <= |coords|
      invariant out == PointsUpTo(coords, dist, index)
      invariant sum == CumulativeDistance(coords, dist, index - 1)
    {
      var lastElement := coords[index - 1];
      var element := coords[index];
      sum := sum + dist(lastElement, element);
      assert sum == CumulativeDistance(coords, dist, index);
      PointsUpToSnoc(coords, dist, index);
      out := out + [PathPoint(element, sum)];
      index := index + 1;
    }
    r := Ok(Path(out, sum));
  }

  lemma {:induction false} CumulativeDistanceMonotone(coords: seq<Coordinates>, dist: DistanceFn, i: nat, j: nat)
    requires i <= j < |coords|
    ensures CumulativeDistance(coords, dist, i) <= CumulativeDistance(coords, dist, j)
    decreases j
  {
    if i < j {
      CumulativeDistanceMonotone(coords, dist, i, j - 1);
    }
  }

  /** Every path built from two or more coordinates is valid: offsets never
      decrease and the length is the last offset. */
  lemma BuiltPathIsValid(coords: seq<Coordinates>, dist: DistanceFn)
    requires |coords| >= 2
    ensures BuildPath(coords, dist).Ok? && ValidPath(BuildPath(coords, dist).value)
  {
    var p := BuildPath(coords, dist).value;
    forall i, j | 0 <= i <= j < |p.points|
      ensures p.points[i].startOffset <= p.points[j].startOffset
    {
      CumulativeDistanceMonotone(coords, dist, i, j);
    }
  }

  /** The span `(points[i], points[i + 1])` contains `offset`, both ends included. */
  predicate Brackets(points: seq<PathPoint>, i: int, offset: real)
    requires 0 <= i < |points| - 1
  {
    offset >= points[i].startOffset && offset <= points[i + 1].startOffset
  }

  /** The first span at index `k` or later that contains `offset`. */
  function SpanFrom(points: seq<PathPoint>, offset: real, k: nat): (r: Option<nat>)
    decreases |points| - k
    ensures r.Some? ==>
      && k <= r.value < |points| - 1
      && Brackets(points, r.value, offset)
      && (forall j :: k <= j < r.value ==> !Brackets(points, j, offset))
    ensures r.None? ==> forall j :: k <= j < |points| - 1 ==> !Brackets(points, j, offset)
  {
    if k + 1 >= |points| then None
    else if Brackets(points, k, offset) then Some(k)
    else SpanFrom(points, offset, k + 1)
  }

  /** `path_findOffsetSpan`: an index loop over the neighbouring pairs that returns the first pair
      containing the offset and fails when there is none. */
  method PathFindOffsetSpan(points: seq<PathPoint>, offset: real) returns (r: Result<(PathPoint, PathPoint), PathError>)
    ensures r.Err? <==> SpanFrom(points, offset, 0).None?
    ensures r.Err? ==> r.error == SpanNotFound
    ensures r.Ok? ==> var i := SpanFrom(points, offset, 0).value; r.value == (points[i], points[i + 1])
  {
    var index := 0;
    while index < |points| - 1
      invariant 0 <= index
      invariant index <= |points| - 1 || |points| == 0
      invariant SpanFrom(points, offset, 0) == SpanFrom(points, offset, index)
    {
      var lowElement := points[index];
      var highElement := points[index + 1];
      if offset >= lowElement.startOffset && offset <= highElement.startOffset {
        return Ok((lowElement, highElement));
      }
      index := index + 1;
    }
    return Err(SpanNotFound);
  }

  /** On a valid path every offset from 0 to the path length lies in some span. */
  lemma OffsetInRangeHasSpan(p: Path, offset: real)
    requires ValidPath(p)
    requires 0.0 <= offset <= p.pathLength
    ensures SpanFrom(p.points, offset, 0).Some?
  {
    var j := CoveringSpan(p, offset, 0);
    assert Brackets(p.points, j, offset);
  }

  lemma {:induction false} CoveringSpan(p: Path, offset: real, k: nat) returns (j: nat)
    requires ValidPath(p)
    requires k < |p.points| - 1
    requires p.points[k].startOffset <= offset <= p.pathLength
    ensures k <= j < |p.points| - 1 && Brackets(p.points, j, offset)
    decreases |p.points| - k
  {
    if offset <= p.points[k + 1].startOffset {
      j := k;
    } else {
      j := CoveringSpan(p, offset, k + 1);
    }
  }

  /** `path_findOffsetPosition`: interpolates latitude and longitude linearly
      inside the first span containing `offset`; the heading is low minus high. */
  function PathFindOffsetPosition(points: seq<PathPoint>, offset: real): (r: Result<Position2d, PathError>)
    ensures SpanFrom(points, offset, 0).None? ==> r == Err(SpanNotFound)
    ensures r == Err(NotANumber) <==>
      SpanFrom(points, offset, 0).Some? &&
      points[SpanFrom(points, offset, 0).value].startOffset == points[SpanFrom(points, offset, 0).value + 1].startOffset
    ensures r.Ok? ==>
      var i := SpanFrom(points, offset, 0).value;
      var lo, hi := points[i].coordinates, points[i + 1].coordinates;
      var span, covered := points[i + 1].startOffset - points[i].startOffset, offset - points[i].startOffset;
      && points[i].startOffset < points[i + 1].startOffset
      && (r.value.position.latitude - lo.latitude) * span == (hi.latitude - lo.latitude) * covered
      && (r.value.position.longitude - lo.longitude) * span == (hi.longitude - lo.longitude) * covered
      && r.value.forward == Vec2(lo.latitude - hi.latitude, lo.longitude - hi.longitude)
      && Between(r.value.position.latitude, lo.latitude, hi.latitude)
      && Between(r.value.position.longitude, lo.longitude, hi.longitude)
      && (offset == points[i].startOffset ==> r.value.position == lo)
      && (offset == points[i + 1].startOffset ==> r.value.position == hi)
  {
    match SpanFrom(points, offset, 0)
    case None => Err(SpanNotFound)
    case Some(i) =>
      var lowElement, highElement := points[i], points[i + 1];
      if lowElement.startOffset == highElement.startOffset then Err(NotANumber)
      else
        var fraction := Numbers.InverseLerp(lowElement.startOffset, highElement.startOffset, offset);
        FractionInUnit(lowElement.startOffset, highElement.startOffset, offset);
        LerpBetween(lowElement.coordinates.latitude, highElement.coordinates.latitude, fraction);
        LerpBetween(lowElement.coordinates.longitude, highElement.coordinates.longitude, fraction);
        var span, covered := highElement.startOffset - lowElement.startOffset, offset - lowElement.startOffset;
        Numbers.LerpScaled(lowElement.coordinates.latitude, highElement.coordinates.latitude, fraction, span, covered);
        Numbers.LerpScaled(lowElement.coordinates.longitude, highElement.coordinates.longitude, fraction, span, covered);
        var latitude := Numbers.Lerp(lowElement.coordinates.latitude, highElement.coordinates.latitude, fraction);
        var longitude := Numbers.Lerp(lowElement.coordinates.longitude, highElement.coordinates.longitude, fraction);
        Ok(Position2d(Coordinates(latitude, longitude),
                      Vec2(lowElement.coordinates.latitude - highElement.coordinates.latitude,
                           lowElement.coordinates.longitude - highElement.coordinates.longitude)))
  }

  /** `x` lies between `a` and `b`, in either order. */
  predicate Between(x: real, a: real, b: real)
  {
    (a <= x <= b) || (b <= x <= a)
  }

  lemma FractionInUnit(a: real, b: real, v: real)
    requires a < b && a <= v <= b
    ensures 0.0 <= Numbers.InverseLerp(a, b, v) <= 1.0
  {
    var r, d := Numbers.InverseLerp(a, b, v), b - a;
    assert r * d == v - a;
    PositiveProduct(-r, d);
    PositiveProduct(r - 1.0, d);
    assert r * d == d + (r - 1.0) * d;
  }

  lemma PositiveProduct(x: real, y: real)
    requires y > 0.0
    ensures x > 0.0 ==> x * y > 0.0
  {
  }

  lemma LerpBetween(a: real, b: real, t: real)
    requires 0.0 <= t <= 1.0
    ensures Between(Numbers.Lerp(a, b, t), a, b)
  {
    var step := (b - a) * t;
    assert Numbers.Lerp(a, b, t) == a + step;
    ScaleByFraction(b - a, t);
    if a <= b {
      assert 0.0 <= step <= b - a;
      assert a <= a + step <= b;
    } else {
      assert b - a <= step <= 0.0;
      assert b <= a + step <= a;
    }
  }

  /** On a valid path, every offset from 0 to the length is located, unless
      the first span around it has zero length; a path whose offsets strictly
      increase locates every such offset. */
  lemma PositionFoundOnValidPath(p: Path, offset: real)
    requires ValidPath(p)
    requires 0.0 <= offset <= p.pathLength
    ensures SpanFrom(p.points, offset, 0).Some?
    ensures var i := SpanFrom(p.points, offset, 0).value;
      PathFindOffsetPosition(p.points, offset).Err? <==> p.points[i].startOffset == p.points[i + 1].startOffset
    ensures PathFindOffsetPosition(p.points, offset).Ok? || PathFindOffsetPosition(p.points, offset) == Err(NotANumber)
    ensures (forall k :: 0 <= k < |p.points| - 1 ==> p.points[k].startOffset < p.points[k + 1].startOffset) ==>
      PathFindOffsetPosition(p.points, offset).Ok?
  {
    OffsetInRangeHasSpan(p, offset);
  }
}
