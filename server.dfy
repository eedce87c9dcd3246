/** `parseData` of src/server.ts: turns the downloaded tables into the
    lookup structures the rest of the client reads. Fetching the tables
    (`getData`, `findPath`) is not part of this model; `parseRide` lives in a
    file that is not part of this model and is taken as a parameter. */
module Server {
  import opened Wrappers
  import opened Util
  import opened JsString
  import opened JsMap
  import opened RailPath
  import opened RailLegLink
  import opened RailLink
  import opened Schedule
  import opened StopRepo

  datatype Company = Company(id: string, name: string)

  /** `RemoteData`, without the 3D model and the map geometry it also carries. */
  datatype RemoteData<RideJson> = RemoteData(companies: seq<Company>, links: seq<LinkJson>, stations: seq<Station>,
                                             rides: seq<RideJson>, locations: seq<string>)

  /** `StaticData`, without the 3D model and the map geometry. */
  datatype StaticData = StaticData(links: seq<Link>, rides: seq<Ride>, stationMap: OrderedMap<string, Station>,
                                   linkMap: map<string, Link>, stationPassages: Repo, locations: seq<string>,
                                   companies: map<string, Company>)

  /** The signature of `parseRide`. */
  type RideParser<!RideJson> = (RideJson, OrderedMap<string, Station>, map<string, Link>, seq<string>, map<string, Company>) -> Ride

  /** Every link names its two stations by an index into `locations`. */
  predicate EndsResolve(links: seq<LinkJson>, locations: seq<string>)
  {
    forall i :: 0 <= i < |links| ==> links[i].from < |locations| && links[i].to < |locations|
  }

  /** `remoteData.links.map(l => parseLink(l, locations))`: every link is
      built, or the first one with fewer than two coordinates throws, and
      that error (the only one `parseLink` raises) aborts the parse. */
  function ParseLinks(links: seq<LinkJson>, locations: seq<string>, dist: DistanceFn): (r: Result<seq<Link>, LinkError>)
    requires EndsResolve(links, locations)
    ensures r.Ok? <==> forall i :: 0 <= i < |links| ==> ParseLink(links[i], locations, dist).Ok?
    ensures r.Err? ==> r.error == BadPath(TooFewCoordinates)
    ensures r.Ok? ==> |r.value| == |links|
    ensures r.Ok? ==> forall i :: 0 <= i < |links| ==> ParsedAs(links[i], locations, dist, r.value[i])
  {
    if forall i :: 0 <= i < |links| ==> |links[i].coordinates| >= 2 then
      Ok(seq(|links|, i requires 0 <= i < |links| && EndsResolve(links, locations) => ParseLink(links[i], locations, dist).value))
    else
      Err(BadPath(TooFewCoordinates))
  }

  /** `l` is what `parseLink` builds from `json`. */
  predicate ParsedAs(json: LinkJson, locations: seq<string>, dist: DistanceFn, l: Link)
    requires json.from < |locations| && json.to < |locations|
  {
    ParseLink(json, locations, dist) == Ok(l)
  }

  /** `company_map` after the loop over the companies. */
  function CompanyMap(companies: seq<Company>): (r: map<string, Company>)
    ensures forall k :: 0 <= k < |companies| ==> companies[k].id in r
    ensures forall id :: id in r ==> r[id].id == id
  {
    if companies == [] then map[]
    else
      var init := companies[..|companies| - 1];
      var c := companies[|companies| - 1];
      assert forall k :: 0 <= k < |init| ==> init[k] == companies[k];
      CompanyMap(init)[c.id := c]
  }

  /** `stationMap` after the `forEach` over the stations. */
  function StationMap(stations: seq<Station>): (r: OrderedMap<string, Station>)
    ensures Valid(r)
  {
    if stations == [] then Empty()
    else
      var s := stations[|stations| - 1];
      Set(StationMap(stations[..|stations| - 1]), s.code, s)
  }

  /** The two registry keys of a link, in both orientations, lowercased. */
  function ForwardKey(l: Link): string
  {
    ToLower(l.from + "_" + l.to)
  }

  function BackwardKey(l: Link): string
  {
    ToLower(l.to + "_" + l.from)
  }

  /** Each key is the two lowercased station codes joined by an underscore,
      `from` first for the forward key and `to` first for the backward one. */
  lemma KeysOfLink(l: Link)
    ensures ForwardKey(l) == ToLower(l.from) + "_" + ToLower(l.to)
    ensures BackwardKey(l) == ToLower(l.to) + "_" + ToLower(l.from)
  {
    LowerJoined(l.from, l.to);
    LowerJoined(l.to, l.from);
  }

  /** `linkMap` after the `forEach` over the parsed links. */
  function LinkRegistry(links: seq<Link>): (r: map<string, Link>)
    ensures forall k :: 0 <= k < |links| ==> ForwardKey(links[k]) in r && BackwardKey(links[k]) in r
  {
    if links == [] then map[]
    else
      var init := links[..|links| - 1];
      var l := links[|links| - 1];
      assert forall k :: 0 <= k < |init| ==> init[k] == links[k];
      LinkRegistry(init)[ForwardKey(l) := l][BackwardKey(l) := l]
  }

  /** What `parseData` returns once the links are built: the three lookup
      tables as the loops fill them, every ride parsed against those tables,
      and the station passages indexed from the parsed rides. */
  ghost predicate AssembledFrom<RideJson>(d: StaticData, data: RemoteData<RideJson>, links: seq<Link>, parseRide: RideParser<RideJson>)
  {
    && d.links == links
    && d.companies == CompanyMap(data.companies)
    && d.stationMap == StationMap(data.stations)
    && d.linkMap == LinkRegistry(links)
    && |d.rides| == |data.rides|
    && (forall i :: 0 <= i < |data.rides| ==>
          d.rides[i] == parseRide(data.rides[i], d.stationMap, d.linkMap, data.locations, d.companies))
    && d.stationPassages == AppendAll(map[], StationaryLegs(d.rides))
    && d.locations == data.locations
  }

  /** `parseData`: the links come from `map` and abort the whole parse when
      one cannot be built; everything else is filled from them. */
  method ParseData<RideJson>(data: RemoteData<RideJson>, dist: DistanceFn, parseRide: RideParser<RideJson>)
    returns (r: Result<StaticData, LinkError>)
    requires EndsResolve(data.links, data.locations)
    ensures r.Ok? <==> ParseLinks(data.links, data.locations, dist).Ok?
    ensures r.Err? ==> r.error == BadPath(TooFewCoordinates)
    ensures r.Ok? ==> AssembledFrom(r.value, data, ParseLinks(data.links, data.locations, dist).value, parseRide)
  {
    var parsed := ParseLinks(data.links, data.locations, dist);
    if parsed.Err? {
      return Err(parsed.error);
    }
    var d := Assemble(data, parsed.value, parseRide);
    r := Ok(d);
  }

  /** The rest of `parseData` after the links are built. */
  method Assemble<RideJson>(data: RemoteData<RideJson>, links: seq<Link>, parseRide: RideParser<RideJson>)
    returns (d: StaticData)
    ensures AssembledFrom(d, data, links, parseRide)
  {
    var companyMap := FillCompanyMap(data.companies);
    var stationMap := FillStationMap(data.stations);
    var linkMap := FillLinkMap(links);

    var rides := seq(|data.rides|, k requires 0 <= k < |data.rides| =>
      parseRide(data.rides[k], stationMap, linkMap, data.locations, companyMap));
    var passages := NewPassageRepo(rides);
    d := StaticData(links, rides, stationMap, linkMap, passages.stations, data.locations, companyMap);
  }

  /** The `for ... of` loop over the companies. */
  method FillCompanyMap(companies: seq<Company>) returns (companyMap: map<string, Company>)
    ensures companyMap == CompanyMap(companies)
  {
    companyMap := map[];
    var i := 0;
    while i < |companies|
      invariant 0 <= i <= |companies|
      invariant companyMap == CompanyMap(companies[..i])
    {
      assert companies[..i + 1][..i] == companies[..i];
      companyMap := companyMap[companies[i].id := companies[i]];
      i := i + 1;
    }
    assert companies[..i] == companies;
  }

  /** The `forEach` over the stations. */
  method FillStationMap(stations: seq<Station>) returns (stationMap: OrderedMap<string, Station>)
    ensures stationMap == StationMap(stations)
  {
    stationMap := Empty();
    var i := 0;
    while i < |stations|
      invariant 0 <= i <= |stations|
      invariant stationMap == StationMap(stations[..i])
    {
      assert stations[..i + 1][..i] == stations[..i];
      stationMap := Set(stationMap, stations[i].code, stations[i]);
      i := i + 1;
    }
    assert stations[..i] == stations;
  }

  /** The `forEach` over the parsed links, setting both lowercased keys. */
  method FillLinkMap(links: seq<Link>) returns (linkMap: map<string, Link>)
    ensures linkMap == LinkRegistry(links)
  {
    linkMap := map[];
    var i := 0;
    while i < |links|
      invariant 0 <= i <= |links|
      invariant linkMap == LinkRegistry(links[..i])
    {
      assert links[..i + 1][..i] == links[..i];
      var l := links[i];
      var key1 := l.from + "_" + l.to;
      var key2 := l.to + "_" + l.from;
      linkMap := linkMap[ToLower(key1) := l];
      linkMap := linkMap[ToLower(key2) := l];
      i := i + 1;
    }
    assert links[..i] == links;
  }

  /** The company map holds exactly the ids met, each bound to the last
      company that carries it. */
  lemma {:induction false} CompanyLastWins(companies: seq<Company>, i: nat)
    requires i < |companies|
    requires forall j :: i < j < |companies| ==> companies[j].id != companies[i].id
    ensures companies[i].id in CompanyMap(companies)
    ensures CompanyMap(companies)[companies[i].id] == companies[i]
  {
    var n := |companies|;
    if i < n - 1 {
      var init := companies[..n - 1];
      assert forall j :: i < j < n - 1 ==> init[j] == companies[j];
      CompanyLastWins(init, i);
    }
  }

  lemma {:induction false} CompanyKeys(companies: seq<Company>)
    ensures CompanyMap(companies).Keys == set i | 0 <= i < |companies| :: companies[i].id
  {
    if companies != [] {
      var init := companies[..|companies| - 1];
      CompanyKeys(init);
      var all := set i | 0 <= i < |companies| :: companies[i].id;
      var before := set i | 0 <= i < |init| :: init[i].id;
      assert all == before + {companies[|companies| - 1].id} by {
        forall x | x in all ensures x in before + {companies[|companies| - 1].id} {
          var i :| 0 <= i < |companies| && companies[i].id == x;
          if i < |init| { assert init[i] == companies[i]; }
        }
        forall x | x in before ensures x in all {
          var i :| 0 <= i < |init| && init[i].id == x;
          assert companies[i] == init[i];
        }
      }
    }
  }

  /** `stationMap.get(code)` is the last station listed with that code. */
  lemma {:induction false} StationLastWins(stations: seq<Station>, i: nat)
    requires i < |stations|
    requires forall j :: i < j < |stations| ==> stations[j].code != stations[i].code
    ensures Get(StationMap(stations), stations[i].code) == Some(stations[i])
  {
    var n := |stations|;
    if i < n - 1 {
      var init := stations[..n - 1];
      assert forall j :: i < j < n - 1 ==> init[j] == stations[j];
      StationLastWins(init, i);
    }
  }

  /** Both keys of every link are in the registry, and a key is bound to the
      last link that produced it. */
  lemma {:induction false} LinkLastWins(links: seq<Link>, i: nat, key: string)
    requires i < |links|
    requires key == ForwardKey(links[i]) || key == BackwardKey(links[i])
    requires forall j :: i < j < |links| ==> key != ForwardKey(links[j]) && key != BackwardKey(links[j])
    ensures key in LinkRegistry(links) && LinkRegistry(links)[key] == links[i]
  {
    var n := |links|;
    if i < n - 1 {
      var init := links[..n - 1];
      assert forall j :: i < j < n - 1 ==> init[j] == links[j];
      LinkLastWins(init, i, key);
    }
  }

  /** Every registry key is one of the two keys of some link. */
  lemma {:induction false} LinkKeysComeFromLinks(links: seq<Link>, key: string)
    requires key in LinkRegistry(links)
    ensures exists i :: 0 <= i < |links| && (key == ForwardKey(links[i]) || key == BackwardKey(links[i]))
  {
    var n := |links|;
    var l := links[n - 1];
    if key != ForwardKey(l) && key != BackwardKey(l) {
      var init := links[..n - 1];
      LinkKeysComeFromLinks(init, key);
      var i :| 0 <= i < |init| && (key == ForwardKey(init[i]) || key == BackwardKey(init[i]));
      assert links[i] == init[i];
    }
  }

  /** The forward key of a link whose lowercase codes hold no underscore
      resolves to that link walked in stored order, and its backward key to
      the link walked backwards, as long as no later link claims the key. */
  lemma RegistryKeysResolve(links: seq<Link>, i: nat)
    requires i < |links|
    requires var l := links[i]; ToLower(l.from) == l.from && ToLower(l.to) == l.to && '_' !in l.from && '_' !in l.to
    requires links[i].from != links[i].to
    requires forall j :: i < j < |links| ==>
      ForwardKey(links[i]) !in {ForwardKey(links[j]), BackwardKey(links[j])}
      && BackwardKey(links[i]) !in {ForwardKey(links[j]), BackwardKey(links[j])}
    ensures LinkLegFromCode(LinkRegistry(links), ForwardKey(links[i])) == Ok(LegLink(links[i], false))
    ensures LinkLegFromCode(LinkRegistry(links), BackwardKey(links[i])) == Ok(LegLink(links[i], true))
  {
    var l := links[i];
    LowerJoined(l.from, l.to);
    LowerJoined(l.to, l.from);
    LinkLastWins(links, i, ForwardKey(l));
    LinkLastWins(links, i, BackwardKey(l));
    CodePrefixOfJoined(l.from, l.to);
    CodePrefixOfJoined(l.to, l.from);
  }

  /** As written: a link whose `from` code holds an upper-case letter is
      registered under lower-cased keys, and `linkLegFromCode` compares the
      key's first part with the raw `from` code. Neither key starts with it,
      so both keys resolve to the link walked backwards. */
  lemma MixedCaseKeysResolveReversed(links: seq<Link>, i: nat)
    requires i < |links|
    requires var l := links[i]; ToLower(l.from) != l.from && '_' !in l.from && '_' !in l.to
    requires forall j :: i < j < |links| ==>
      ForwardKey(links[i]) !in {ForwardKey(links[j]), BackwardKey(links[j])}
      && BackwardKey(links[i]) !in {ForwardKey(links[j]), BackwardKey(links[j])}
    ensures LinkLegFromCode(LinkRegistry(links), ForwardKey(links[i])) == Ok(LegLink(links[i], true))
    ensures LinkLegFromCode(LinkRegistry(links), BackwardKey(links[i])) == Ok(LegLink(links[i], true))
  {
    var l := links[i];
    LowerJoined(l.from, l.to);
    LowerJoined(l.to, l.from);
    LinkLastWins(links, i, ForwardKey(l));
    LinkLastWins(links, i, BackwardKey(l));
    LowerKeepsNoUnderscore(l.from);
    LowerKeepsNoUnderscore(l.to);
    CodePrefixOfJoined(ToLower(l.from), ToLower(l.to));
    CodePrefixOfJoined(ToLower(l.to), ToLower(l.from));
    assert ToLower(l.to) != l.from by {
      ToLowerIdempotent(l.to);
    }
  }

  /** Corrected: with the lower-cased comparison, a link's forward key
      resolves to the link in stored order and its backward key to the link
      walked backwards, whatever the case of its station codes. */
  lemma RegistryKeysResolveLowered(links: seq<Link>, i: nat)
    requires i < |links|
    requires var l := links[i]; '_' !in l.from && '_' !in l.to && ToLower(l.from) != ToLower(l.to)
    requires forall j :: i < j < |links| ==>
      ForwardKey(links[i]) !in {ForwardKey(links[j]), BackwardKey(links[j])}
      && BackwardKey(links[i]) !in {ForwardKey(links[j]), BackwardKey(links[j])}
    ensures LinkLegFromLoweredCode(LinkRegistry(links), ForwardKey(links[i])) == Ok(LegLink(links[i], false))
    ensures LinkLegFromLoweredCode(LinkRegistry(links), BackwardKey(links[i])) == Ok(LegLink(links[i], true))
  {
    var l := links[i];
    LowerJoined(l.from, l.to);
    LowerJoined(l.to, l.from);
    LinkLastWins(links, i, ForwardKey(l));
    LinkLastWins(links, i, BackwardKey(l));
    LowerKeepsNoUnderscore(l.from);
    LowerKeepsNoUnderscore(l.to);
    CodePrefixOfJoined(ToLower(l.from), ToLower(l.to));
    CodePrefixOfJoined(ToLower(l.to), ToLower(l.from));
  }

  lemma LowerJoined(a: string, b: string)
    ensures ToLower(a + "_" + b) == ToLower(a) + "_" + ToLower(b)
  {
    ToLowerConcat(a + "_", b);
    ToLowerConcat(a, "_");
  }
}
