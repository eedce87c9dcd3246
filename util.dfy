/** src/util.ts: coordinates, the linear remapping every time and distance
    conversion goes through, and the older copy of `joinWith`. */
module Util {
  import ArrayUtil

  datatype Coordinates = Coordinates(latitude: real, longitude: real)

  /** A two.js/three.js style vector, used for positions and headings. */
  datatype Vec2 = Vec2(x: real, y: real)

  datatype Vec3 = Vec3(x: real, y: real, z: real)

  /** The great-circle (haversine) distance in kilometres. Its trigonometry is
      not modelled: a distance function is any function that is never negative. */
  type DistanceFn = f: (Coordinates, Coordinates) -> real | forall a, b :: f(a, b) >= 0.0
    witness (a: Coordinates, b: Coordinates) => 0.0

  /** `remap` maps `value` linearly from the range [fromLow, fromHigh] onto
      [toLow, toHigh]. The source divides by `fromHigh - fromLow` unguarded. */
  function Remap(value: real, fromLow: real, fromHigh: real, toLow: real, toHigh: real): (r: real)
    requires fromHigh != fromLow
    ensures value == fromLow ==> r == toLow
    ensures value == fromHigh ==> r == toHigh
    ensures (r - toLow) * (fromHigh - fromLow) == (value - fromLow) * (toHigh - toLow)
  {
    CancelLeft(fromHigh - fromLow, toHigh - toLow);
    DivTimes((value - fromLow) * (toHigh - toLow), fromHigh - fromLow);
    toLow + (value - fromLow) * (toHigh - toLow) / (fromHigh - fromLow)
  }

  /** On equal ranges `remap` is the identity. */
  lemma RemapIdentity(x: real, a: real, b: real)
    requires a != b
    ensures Remap(x, a, b, a, b) == x
  {
    MulDiv(x - a, b - a, b - a);
  }

  /** A value inside the source range lands inside the target range. */
  lemma RemapWithin(value: real, fromLow: real, fromHigh: real, toLow: real, toHigh: real)
    requires fromLow < fromHigh && fromLow <= value <= fromHigh && toLow <= toHigh
    ensures toLow <= Remap(value, fromLow, fromHigh, toLow, toHigh) <= toHigh
  {
    var d := fromHigh - fromLow;
    var t := (value - fromLow) / d;
    assert t <= 1.0 by { assert value - fromLow <= d; }
    MulDiv(value - fromLow, toHigh - toLow, d);
    assert t * (toHigh - toLow) <= toHigh - toLow;
  }

  /** A value strictly inside the source range lands strictly inside [0, 1]. */
  lemma RemapUnitStrict(value: real, fromLow: real, fromHigh: real)
    requires fromLow < value < fromHigh
    ensures 0.0 < Remap(value, fromLow, fromHigh, 0.0, 1.0) < 1.0
  {
    var d := fromHigh - fromLow;
    MulDiv(value - fromLow, 1.0, d);
    DivBelowOne(value - fromLow, d);
  }

  /** Scaling by a fraction in [0, 1] stays between zero and the scaled value. */
  lemma ScaleByFraction(c: real, t: real)
    requires 0.0 <= t <= 1.0
    ensures c >= 0.0 ==> 0.0 <= c * t <= c
    ensures c <= 0.0 ==> c <= c * t <= 0.0
  {
  }

  lemma CancelLeft(x: real, y: real)
    requires x != 0.0
    ensures x * y / x == y
  {
  }

  lemma DivTimes(x: real, d: real)
    requires d != 0.0
    ensures x / d * d == x
  {
  }

  lemma DivBelowOne(a: real, d: real)
    requires 0.0 < d && a < d
    ensures a / d < 1.0
  {
  }

  lemma MulDiv(x: real, y: real, d: real)
    requires d != 0.0
    ensures x * y / d == (x / d) * y
  {
  }

  /** The older `joinWith` of src/util.ts, identical to the one in src/array.ts. */
  method JoinWith<T, U>(r: seq<T>, f: (T, T) -> U) returns (out: seq<U>)
    ensures |out| == if |r| == 0 then 0 else |r| - 1
    ensures forall i :: 0 <= i < |out| ==> out[i] == f(r[i], r[i + 1])
    ensures out == ArrayUtil.Pairwise(r, f)
  {
    out := [];
    var index := 0;
    while index < |r| - 1
      invariant 0 <= index <= if |r| == 0 then 0 else |r| - 1
      invariant |out| == index
      invariant forall i :: 0 <= i < index ==> out[i] == f(r[i], r[i + 1])
    {
      out := out + [f(r[index], r[index + 1])];
      index := index + 1;
    }
    var pairs := ArrayUtil.Pairwise(r, f);
    forall i | 0 <= i < |out| ensures out[i] == pairs[i] {
      assert pairs[i] == f(r[i], r[i + 1]);
    }
  }
}
