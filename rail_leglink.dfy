/** src/rail/leglink.ts: a shared link walked in a chosen direction. The
    `link` type of src/rail/link.ts is declared here, because the two source
    files import each other. */
module RailLegLink {
  import opened Wrappers
  import opened RailPath

  /** A stored segment between two stations; `from`/`to` do not depend on the
      direction a train takes. */
  datatype Link = Link(from: string, to: string, path: Path)

  /** A link plus the flag that says whether it is walked against its stored order. */
  datatype LegLink = LegLink(link: Link, reversePointOrder: bool)

  datatype TrackPosition = TrackPosition(legLink: LegLink, offset: real)

  /** The same link walked the other way. */
  function Flipped(ll: LegLink): (r: LegLink)
    ensures r.link == ll.link && r.reversePointOrder != ll.reversePointOrder
    ensures r != ll
  {
    ll.(reversePointOrder := !ll.reversePointOrder)
  }

  /** `LegLinkFirstStation`: the station a train leaves from on this link. */
  function FirstStation(ll: LegLink): (s: string)
    ensures ll.reversePointOrder ==> s == ll.link.to
    ensures !ll.reversePointOrder ==> s == ll.link.from
  {
    if ll.reversePointOrder then ll.link.to else ll.link.from
  }

  /** `LegLinkLastStation`: the station a train arrives at on this link. */
  function LastStation(ll: LegLink): (s: string)
    ensures {FirstStation(ll), s} == {ll.link.from, ll.link.to}
    ensures ll.reversePointOrder ==> s == ll.link.from
    ensures !ll.reversePointOrder ==> s == ll.link.to
  {
    if ll.reversePointOrder then ll.link.from else ll.link.to
  }

  /** The first and last station are the two ends of the link, and walking
      the link the other way swaps them. */
  lemma StationsAreTheEnds(ll: LegLink)
    ensures {FirstStation(ll), LastStation(ll)} == {ll.link.from, ll.link.to}
    ensures FirstStation(Flipped(ll)) == LastStation(ll)
    ensures LastStation(Flipped(ll)) == FirstStation(ll)
    ensures FirstStation(ll) == (if ll.reversePointOrder then ll.link.to else ll.link.from)
  {
  }

  /** `firstPosition`. */
  function FirstPosition(ll: LegLink): (p: TrackPosition)
    requires |ll.link.path.points| > 0
    ensures p.legLink == ll
    ensures ValidPath(ll.link.path) ==> p.offset == ll.link.path.pathLength
  {
    if !ll.reversePointOrder then
      TrackPosition(ll, ll.link.path.pathLength - ll.link.path.points[0].startOffset)
    else
      TrackPosition(ll, ll.link.path.pathLength)
  }

  /** `lastPosition`: written exactly like `firstPosition`. */
  function LastPosition(ll: LegLink): (p: TrackPosition)
    requires |ll.link.path.points| > 0
    ensures p == FirstPosition(ll)
  {
    if !ll.reversePointOrder then
      TrackPosition(ll, ll.link.path.pathLength - ll.link.path.points[0].startOffset)
    else
      TrackPosition(ll, ll.link.path.pathLength)
  }

  /** Both positions are the same, and on a valid path both sit at the full length. */
  lemma FirstAndLastPositionCoincide(ll: LegLink)
    requires |ll.link.path.points| > 0
    ensures FirstPosition(ll) == LastPosition(ll)
    ensures ValidPath(ll.link.path) ==> FirstPosition(ll).offset == ll.link.path.pathLength
  {
  }

  /** `firstPoint` as written: the reversed branch indexes the path object
      (`path[n - 1]`) instead of its points, which yields `undefined`. */
  function FirstPoint(ll: LegLink): (r: Option<PathPoint>)
    requires |ll.link.path.points| > 0
    ensures !ll.reversePointOrder ==> r == Some(ll.link.path.points[0])
    ensures ll.reversePointOrder ==> r.None?
  {
    if ll.reversePointOrder then None else Some(ll.link.path.points[0])
  }

  /** `lastPoint` as written: the non-reversed branch yields `undefined` in the same way. */
  function LastPoint(ll: LegLink): (r: Option<PathPoint>)
    requires |ll.link.path.points| > 0
    ensures ll.reversePointOrder ==> r == Some(ll.link.path.points[0])
    ensures !ll.reversePointOrder ==> r.None?
  {
    if ll.reversePointOrder then Some(ll.link.path.points[0]) else None
  }

  /** The evidently intended `firstPoint`: the first point in travel order. */
  function FirstPointInTravelOrder(ll: LegLink): (p: PathPoint)
    requires |ll.link.path.points| > 0
    ensures p == TravelOrder(ll)[0]
  {
    var points := ll.link.path.points;
    ReversedAt(points, 0);
    if ll.reversePointOrder then points[|points| - 1] else points[0]
  }

  /** The evidently intended `lastPoint`: the last point in travel order. */
  function LastPointInTravelOrder(ll: LegLink): (p: PathPoint)
    requires |ll.link.path.points| > 0
    ensures p == TravelOrder(ll)[|ll.link.path.points| - 1]
  {
    var points := ll.link.path.points;
    ReversedAt(points, |points| - 1);
    if ll.reversePointOrder then points[0] else points[|points| - 1]
  }

  /** Where the written and the intended versions part: for any reversed link
      the written `firstPoint` has no value, and for any forward link the
      written `lastPoint` has none, although both links have such points. */
  lemma FirstAndLastPointLoseAHalf(ll: LegLink)
    requires |ll.link.path.points| > 0
    ensures ll.reversePointOrder ==> FirstPoint(ll) == None && FirstPointInTravelOrder(ll) == ll.link.path.points[|ll.link.path.points| - 1]
    ensures !ll.reversePointOrder ==> LastPoint(ll) == None && LastPointInTravelOrder(ll) == ll.link.path.points[|ll.link.path.points| - 1]
    ensures FirstPoint(ll).Some? ==> FirstPoint(ll).value == FirstPointInTravelOrder(ll)
    ensures LastPoint(ll).Some? ==> LastPoint(ll).value == LastPointInTravelOrder(ll)
  {
  }

  function Reversed<T>(s: seq<T>): (r: seq<T>)
    ensures |r| == |s|
  {
    if s == [] then [] else [s[|s| - 1]] + Reversed(s[..|s| - 1])
  }

  lemma {:induction false} ReversedAt<T>(s: seq<T>, k: nat)
    requires k < |s|
    ensures Reversed(s)[k] == s[|s| - 1 - k]
  {
    if k > 0 {
      ReversedAt(s[..|s| - 1], k - 1);
    }
  }

  /** The points of the link in the order a train passes them. */
  function TravelOrder(ll: LegLink): (r: seq<PathPoint>)
    ensures var points := ll.link.path.points;
      && |r| == |points|
      && forall k :: 0 <= k < |r| ==> r[k] == points[if ll.reversePointOrder then |points| - 1 - k else k]
  {
    ReversedAll(ll.link.path.points);
    if ll.reversePointOrder then Reversed(ll.link.path.points) else ll.link.path.points
  }

  lemma ReversedAll<T>(s: seq<T>)
    ensures forall k :: 0 <= k < |s| ==> Reversed(s)[k] == s[|s| - 1 - k]
  {
    forall k | 0 <= k < |s| ensures Reversed(s)[k] == s[|s| - 1 - k] {
      ReversedAt(s, k);
    }
  }

  /** The travel order visits every stored point exactly once. */
  lemma {:induction false} TravelOrderIsPermutation(ll: LegLink)
    ensures multiset(TravelOrder(ll)) == multiset(ll.link.path.points)
  {
    ReversedMultiset(ll.link.path.points);
  }

  lemma {:induction false} ReversedMultiset<T>(s: seq<T>)
    ensures multiset(Reversed(s)) == multiset(s)
  {
    if s != [] {
      ReversedMultiset(s[..|s| - 1]);
      assert s == s[..|s| - 1] + [s[|s| - 1]];
    }
  }

  /** `legLink_Iter`: a backward index loop when reversed, a forward one
      otherwise, handing each point to the callback; the model returns the
      sequence of points the callback is given. */
  method Iter(ll: LegLink) returns (visited: seq<PathPoint>)
    ensures visited == TravelOrder(ll)
  {
    var points := ll.link.path.points;
    visited := [];
    if ll.reversePointOrder {
      var index := |points| - 1;
      while index >= 0
        invariant -1 <= index < |points|
        invariant |visited| == |points| - 1 - index
        invariant forall k :: 0 <= k < |visited| ==> visited[k] == points[|points| - 1 - k]
      {
        visited := visited + [points[index]];
        index := index - 1;
      }
      forall k | 0 <= k < |points| ensures visited[k] == Reversed(points)[k] {
        ReversedAt(points, k);
      }
    } else {
      var index := 0;
      while index < |points|
        invariant 0 <= index <= |points|
        invariant visited == points[..index]
      {
        visited := visited + [points[index]];
        index := index + 1;
      }
    }
  }

  /** The distance from the departure end that `legLink_IterWithDistance`
      hands over with point `p`. */
  function TravelDistance(ll: LegLink, p: PathPoint): real
  {
    if ll.reversePointOrder then ll.link.path.pathLength - p.startOffset else p.startOffset
  }

  /** The points `ps`, each paired with the distance travelled when it is
      reached, in order. */
  function Tagged(ll: LegLink, ps: seq<PathPoint>): (t: seq<(PathPoint, real)>)
    ensures |t| == |ps|
  {
    if |ps| == 0 then []
    else Tagged(ll, ps[..|ps| - 1]) + [(ps[|ps| - 1], TravelDistance(ll, ps[|ps| - 1]))]
  }

  lemma {:induction false} TaggedAt(ll: LegLink, ps: seq<PathPoint>, k: nat)
    requires k < |ps|
    ensures Tagged(ll, ps)[k] == (ps[k], TravelDistance(ll, ps[k]))
  {
    if k < |ps| - 1 {
      TaggedAt(ll, ps[..|ps| - 1], k);
    }
  }

  lemma TaggedAll(ll: LegLink, ps: seq<PathPoint>)
    ensures forall k :: 0 <= k < |ps| ==> Tagged(ll, ps)[k] == (ps[k], TravelDistance(ll, ps[k]))
  {
    forall k | 0 <= k < |ps| ensures Tagged(ll, ps)[k] == (ps[k], TravelDistance(ll, ps[k])) {
      TaggedAt(ll, ps, k);
    }
  }

  /** The pairs `legLink_IterWithDistance` hands to its callback, in order. */
  function Traversal(ll: LegLink): (t: seq<(PathPoint, real)>)
    ensures |t| == |ll.link.path.points|
  {
    Tagged(ll, TravelOrder(ll))
  }

  /** The `k`-th pair is the `k`-th point in travel order and its distance. */
  lemma TraversalAt(ll: LegLink, k: nat)
    requires k < |ll.link.path.points|
    ensures Traversal(ll)[k] == (TravelOrder(ll)[k], TravelDistance(ll, TravelOrder(ll)[k]))
  {
    TaggedAt(ll, TravelOrder(ll), k);
  }

  /** `legLink_IterWithDistance`: the same two loops, also yielding the
      distance already travelled on the link. */
  method IterWithDistance(ll: LegLink) returns (trace: seq<(PathPoint, real)>)
    ensures trace == Traversal(ll)
  {
    var points := ll.link.path.points;
    var order := TravelOrder(ll);
    trace := [];
    if ll.reversePointOrder {
      var index := |points| - 1;
      while index >= 0
        invariant -1 <= index < |points|
        invariant |trace| == |points| - 1 - index
        invariant forall k :: 0 <= k < |trace| ==>
          trace[k] == (points[|points| - 1 - k], ll.link.path.pathLength - points[|points| - 1 - k].startOffset)
      {
        var point := points[index];
        trace := trace + [(point, ll.link.path.pathLength - point.startOffset)];
        index := index - 1;
      }
      forall k | 0 <= k < |points| ensures trace[k] == Traversal(ll)[k] {
        ReversedAt(points, k);
        TraversalAt(ll, k);
      }
    } else {
      var index := 0;
      while index < |points|
        invariant 0 <= index <= |points|
        invariant |trace| == index
        invariant forall k :: 0 <= k < index ==> trace[k] == (points[k], points[k].startOffset)
      {
        var point := points[index];
        trace := trace + [(point, point.startOffset)];
        index := index + 1;
      }
      forall k | 0 <= k < |points| ensures trace[k] == Traversal(ll)[k] {
        TraversalAt(ll, k);
      }
    }
  }

  /** On a valid path the yielded distances start at 0, end at the path
      length and never decrease, in both directions. */
  lemma TraversalDistancesClimb(ll: LegLink)
    requires ValidPath(ll.link.path)
    ensures var t := Traversal(ll);
      && t[0].1 == 0.0
      && t[|t| - 1].1 == ll.link.path.pathLength
      && forall i, j :: 0 <= i <= j < |t| ==> t[i].1 <= t[j].1
  {
    var points := ll.link.path.points;
    var t := Traversal(ll);
    if ll.reversePointOrder {
      forall k | 0 <= k < |points| ensures t[k] == (points[|points| - 1 - k], ll.link.path.pathLength - points[|points| - 1 - k].startOffset) {
        ReversedAt(points, k);
        TraversalAt(ll, k);
      }
    } else {
      forall k | 0 <= k < |points| ensures t[k] == (points[k], points[k].startOffset) {
        TraversalAt(ll, k);
      }
    }
  }

  /** Walking a link the other way lists the same points backwards, each at
      the remaining distance. */
  lemma TraversalOfFlipped(ll: LegLink, k: nat)
    requires k < |ll.link.path.points|
    ensures var n, t, u := |ll.link.path.points|, Traversal(ll), Traversal(Flipped(ll));
      u[k].0 == t[n - 1 - k].0 && u[k].1 == ll.link.path.pathLength - t[n - 1 - k].1
  {
    var points := ll.link.path.points;
    ReversedAt(points, k);
    ReversedAt(points, |points| - 1 - k);
    TraversalAt(ll, |points| - 1 - k);
    TraversalAt(Flipped(ll), k);
  }
}
