/** src/link.ts: the older link registry helpers. The JSON form names its
    endpoints directly; code resolution and the endpoint search behave as in
    src/rail/link.ts, which `RailLink` models. */
module LegacyLink {
  import opened Wrappers
  import opened Util
  import opened RailPath
  import opened RailLegLink
  import RailLink

  /** The older `LinkJSON`: endpoint codes instead of location indices. */
  datatype LinkJson = LinkJson(from: string, to: string, coordinates: seq<Coordinates>)

  /** `parseLink`: copies both endpoints and builds the path, with no lookup table. */
  function ParseLink(json: LinkJson, dist: DistanceFn): (r: Result<Link, RailLink.LinkError>)
    ensures r.Ok? <==> |json.coordinates| >= 2
    ensures r.Ok? ==>
      && r.value.from == json.from && r.value.to == json.to
      && |r.value.path.points| == |json.coordinates|
      && (forall i :: 0 <= i < |json.coordinates| ==> r.value.path.points[i].coordinates == json.coordinates[i])
    ensures r.Ok? ==> r == RailLink.ParseLink(RailLink.LinkJson(0, 1, json.coordinates), [json.from, json.to], dist)
  {
    match BuildPath(json.coordinates, dist)
    case Err(e) => Err(RailLink.BadPath(e))
    case Ok(path) => Ok(Link(json.from, json.to, path))
  }

  /** `linkLegFromCode`: fails on a missing code, otherwise shares the
      registry's link and reverses when the code's first part is not `from`. */
  function LinkLegFromCode(linkMap: map<string, Link>, code: string): (r: Result<LegLink, RailLink.LinkError>)
    ensures r.Ok? <==> code in linkMap
    ensures r.Ok? ==> r.value.link == linkMap[code]
    ensures r.Ok? ==> (r.value.reversePointOrder <==> RailLink.CodePrefix(code) != linkMap[code].from)
    ensures r == RailLink.LinkLegFromCode(linkMap, code)
  {
    if code !in linkMap then Err(RailLink.LinkNotFound)
    else Ok(LegLink(linkMap[code], RailLink.CodePrefix(code) != linkMap[code].from))
  }

  /** `findLink`: the first link joining `a` and `b` in either direction, or `undefined`. */
  function FindLink(links: seq<Link>, a: string, b: string): (r: Option<Link>)
    ensures r.None? <==> forall j :: 0 <= j < |links| ==> !RailLink.Joins(links[j], a, b)
    ensures r == RailLink.FindLink(links, a, b)
    ensures r == RailLink.FindLink(links, b, a)
  {
    RailLink.FindLinkSymmetric(links, a, b);
    RailLink.FindLink(links, a, b)
  }
}
