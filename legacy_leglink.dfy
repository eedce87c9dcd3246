/** src/leglink.ts: the older station, position and point selectors. Each
    agrees with its counterpart in src/rail/leglink.ts. */
module LegacyLegLink {
  import opened Wrappers
  import opened RailPath
  import opened RailLegLink

  /** `LegLinkFirstStation`. */
  function FirstStation(ll: LegLink): (s: string)
    ensures ll.reversePointOrder ==> s == ll.link.to
    ensures !ll.reversePointOrder ==> s == ll.link.from
    ensures s == RailLegLink.FirstStation(ll)
  {
    if ll.reversePointOrder then ll.link.to else ll.link.from
  }

  /** `LegLinkLastStation`. */
  function LastStation(ll: LegLink): (s: string)
    ensures ll.reversePointOrder ==> s == ll.link.from
    ensures !ll.reversePointOrder ==> s == ll.link.to
    ensures s == RailLegLink.LastStation(ll)
  {
    if ll.reversePointOrder then ll.link.from else ll.link.to
  }

  /** First and last station are always the two ends of the link. */
  lemma StationsAreTheEnds(ll: LegLink)
    ensures {FirstStation(ll), LastStation(ll)} == {ll.link.from, ll.link.to}
    ensures FirstStation(ll) == LastStation(Flipped(ll))
  {
  }

  /** `firstPosition`. */
  function FirstPosition(ll: LegLink): (p: TrackPosition)
    requires |ll.link.path.points| > 0
    ensures p.legLink == ll
    ensures p == RailLegLink.FirstPosition(ll)
  {
    if !ll.reversePointOrder then
      TrackPosition(ll, ll.link.path.pathLength - ll.link.path.points[0].startOffset)
    else
      TrackPosition(ll, ll.link.path.pathLength)
  }

  /** `lastPosition`: the same selection as `firstPosition`. */
  function LastPosition(ll: LegLink): (p: TrackPosition)
    requires |ll.link.path.points| > 0
    ensures p == FirstPosition(ll)
    ensures p == RailLegLink.LastPosition(ll)
  {
    if !ll.reversePointOrder then
      TrackPosition(ll, ll.link.path.pathLength - ll.link.path.points[0].startOffset)
    else
      TrackPosition(ll, ll.link.path.pathLength)
  }

  /** `firstPoint`: the reversed branch reads the path object, not its points. */
  function FirstPoint(ll: LegLink): (r: Option<PathPoint>)
    requires |ll.link.path.points| > 0
    ensures !ll.reversePointOrder ==> r == Some(ll.link.path.points[0])
    ensures ll.reversePointOrder ==> r.None?
    ensures r == RailLegLink.FirstPoint(ll)
  {
    if ll.reversePointOrder then None else Some(ll.link.path.points[0])
  }

  /** `lastPoint`: the forward branch reads the path object, not its points. */
  function LastPoint(ll: LegLink): (r: Option<PathPoint>)
    requires |ll.link.path.points| > 0
    ensures ll.reversePointOrder ==> r == Some(ll.link.path.points[0])
    ensures !ll.reversePointOrder ==> r.None?
    ensures r == RailLegLink.LastPoint(ll)
  {
    if ll.reversePointOrder then Some(ll.link.path.points[0]) else None
  }
}
