/** src/rail/link.ts: building a link from its JSON form, resolving an
    `A_B` code against the link registry, and finding a link by its two
    endpoints in either order. */
module RailLink {
  import opened Wrappers
  import opened Util
  import opened RailPath
  import opened RailLegLink
  import opened JsString

  /** `LinkJSON`: the endpoints are indices into the table of location codes. */
  datatype LinkJson = LinkJson(from: nat, to: nat, coordinates: seq<Coordinates>)

  datatype LinkError =
    | LinkNotFound                 // "Link not found"
    | BadPath(reason: PathError)   // thrown by pathFromCoordinateArray

  /** `parseLink`: looks both endpoints up in `locations` and builds the path
      from the JSON coordinates, which fails below two coordinates. */
  function ParseLink(json: LinkJson, locations: seq<string>, dist: DistanceFn): (r: Result<Link, LinkError>)
    requires json.from < |locations| && json.to < |locations|
    ensures r.Ok? <==> |json.coordinates| >= 2
    ensures r.Err? ==> r.error == BadPath(TooFewCoordinates)
    ensures r.Ok? ==>
      && r.value.from == locations[json.from]
      && r.value.to == locations[json.to]
      && |r.value.path.points| == |json.coordinates|
      && (forall i :: 0 <= i < |json.coordinates| ==> r.value.path.points[i].coordinates == json.coordinates[i])
      && ValidPath(r.value.path)
  {
    match BuildPath(json.coordinates, dist)
    case Err(e) => Err(BadPath(e))
    case Ok(path) =>
      BuiltPathIsValid(json.coordinates, dist);
      Ok(Link(locations[json.from], locations[json.to], path))
  }

  /** `code.split("_")[0]`: everything before the first underscore. */
  function CodePrefix(code: string): (p: string)
    ensures |p| <= |code| && p == code[..|p|]
    ensures '_' !in p
    ensures |p| < |code| ==> code[|p|] == '_'
  {
    if |code| == 0 || code[0] == '_' then [] else [code[0]] + CodePrefix(code[1..])
  }

  /** The prefix of `a + "_" + b` is `a` whenever `a` has no underscore. */
  lemma {:induction false} CodePrefixOfJoined(a: string, b: string)
    requires '_' !in a
    ensures CodePrefix(a + "_" + b) == a
  {
    if |a| > 0 {
      assert (a + "_" + b)[1..] == a[1..] + "_" + b;
      CodePrefixOfJoined(a[1..], b);
    }
  }

  /** `linkLegFromCode`: the registry's own link for the code, walked backwards
      exactly when the code does not start with the link's `from` station. */
  function LinkLegFromCode(linkMap: map<string, Link>, code: string): (r: Result<LegLink, LinkError>)
    ensures r.Ok? <==> code in linkMap
    ensures r.Err? ==> r.error == LinkNotFound
    ensures r.Ok? ==> r.value.link == linkMap[code]
    ensures r.Ok? ==> (r.value.reversePointOrder <==> CodePrefix(code) != linkMap[code].from)
  {
    if code !in linkMap then Err(LinkNotFound)
    else
      var link := linkMap[code];
      Ok(LegLink(link, CodePrefix(code) != link.from))
  }

  /** `linkLegFromCode` as evidently intended: the registry writes its keys
      in lower case, so the code's first part is compared with the
      lower-cased `from` station. */
  function LinkLegFromLoweredCode(linkMap: map<string, Link>, code: string): (r: Result<LegLink, LinkError>)
    ensures r.Ok? <==> code in linkMap
    ensures r.Err? ==> r.error == LinkNotFound
    ensures r.Ok? ==> r.value.link == linkMap[code]
    ensures r.Ok? ==> (r.value.reversePointOrder <==> CodePrefix(code) != ToLower(linkMap[code].from))
  {
    if code !in linkMap then Err(LinkNotFound)
    else
      var link := linkMap[code];
      Ok(LegLink(link, CodePrefix(code) != ToLower(link.from)))
  }

  /** For a link whose `from` code is already lower case, the corrected
      lookup and the one as written agree. */
  lemma LoweredLookupAgrees(linkMap: map<string, Link>, code: string)
    requires code in linkMap ==> ToLower(linkMap[code].from) == linkMap[code].from
    ensures LinkLegFromLoweredCode(linkMap, code) == LinkLegFromCode(linkMap, code)
  {
  }

  /** A link code whose first part is the link's `from` station is walked in
      stored order and leaves from `from`; one whose first part is its `to`
      station (and not its `from`) is walked backwards and leaves from `to`. */
  lemma {:induction false} CodeDecidesDirection(linkMap: map<string, Link>, a: string, b: string)
    requires '_' !in a
    requires a + "_" + b in linkMap
    ensures var l := linkMap[a + "_" + b]; var r := LinkLegFromCode(linkMap, a + "_" + b);
      && r.Ok?
      && (a == l.from ==> !r.value.reversePointOrder && FirstStation(r.value) == l.from)
      && (a == l.to && a != l.from ==> r.value.reversePointOrder && FirstStation(r.value) == l.to)
  {
    CodePrefixOfJoined(a, b);
  }

  /** The link runs between `a` and `b`, in either direction. */
  predicate Joins(l: Link, a: string, b: string)
  {
    (l.from == a && l.to == b) || (l.from == b && l.to == a)
  }

  /** The index of the first link at `k` or later that joins `a` and `b`. */
  function FindLinkFrom(links: seq<Link>, a: string, b: string, k: nat): (r: Option<nat>)
    decreases |links| - k
    ensures r.Some? ==>
      && k <= r.value < |links|
      && Joins(links[r.value], a, b)
      && (forall j :: k <= j < r.value ==> !Joins(links[j], a, b))
    ensures r.None? ==> forall j :: k <= j < |links| ==> !Joins(links[j], a, b)
  {
    if k >= |links| then None
    else if Joins(links[k], a, b) then Some(k)
    else FindLinkFrom(links, a, b, k + 1)
  }

  /** `findLink`: `Array.prototype.find` over the links; `None` is `undefined`. */
  function FindLink(links: seq<Link>, a: string, b: string): (r: Option<Link>)
    ensures r.None? <==> forall j :: 0 <= j < |links| ==> !Joins(links[j], a, b)
    ensures r.Some? ==> exists i :: (0 <= i < |links| && links[i] == r.value && Joins(links[i], a, b)
      && forall j :: 0 <= j < i ==> !Joins(links[j], a, b))
  {
    match FindLinkFrom(links, a, b, 0)
    case None => None
    case Some(i) => Some(links[i])
  }

  /** Asking for `(a, b)` and for `(b, a)` finds the same link. */
  lemma {:induction false} FindLinkFromSymmetric(links: seq<Link>, a: string, b: string, k: nat)
    ensures FindLinkFrom(links, a, b, k) == FindLinkFrom(links, b, a, k)
    decreases |links| - k
  {
    if k < |links| && !Joins(links[k], a, b) {
      FindLinkFromSymmetric(links, a, b, k + 1);
    }
  }

  lemma FindLinkSymmetric(links: seq<Link>, a: string, b: string)
    ensures FindLink(links, a, b) == FindLink(links, b, a)
  {
    FindLinkFromSymmetric(links, a, b, 0);
  }
}
