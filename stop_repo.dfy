/** src/stoprepo.ts: the per-station index of when trains stand at which
    arrival platform, built by appending every stationary leg of every ride
    in order. */
module StopRepo {
  import opened Wrappers
  import opened Schedule

  datatype StationPassage = StationPassage(start: real, end: real, rideId: seq<int>)

  /** All passages at one arrival platform arrival, in the order they were appended. */
  datatype PlatformPassages = PlatformPassages(platform: string, passages: seq<StationPassage>)

  /** The station and its platform buckets, in first-encounter order. */
  datatype StationPassages = StationPassages(station: Station, platforms: seq<PlatformPassages>)

  type Repo = map<string, StationPassages>

  /** The passage a stationary leg contributes. */
  function PassageOf(leg: Leg): (p: StationPassage)
    requires leg.Stationary?
    ensures p.start == leg.startTime && p.end == leg.endTime && p.rideId == leg.rideId
  {
    StationPassage(leg.startTime, leg.endTime, leg.rideId)
  }

  /** `platforms.find(pl => pl.platform == arrival)`, as the index found. */
  function FindPlatform(platforms: seq<PlatformPassages>, arrival: string, k: nat): (r: Option<nat>)
    decreases |platforms| - k
    ensures r.Some? ==> k <= r.value < |platforms| && platforms[r.value].platform == arrival
    ensures r.Some? ==> forall j :: k <= j < r.value ==> platforms[j].platform != arrival
    ensures r.None? ==> forall j :: k <= j < |platforms| ==> platforms[j].platform != arrival
  {
    if k >= |platforms| then None
    else if platforms[k].platform == arrival then Some(k)
    else FindPlatform(platforms, arrival, k + 1)
  }

  /** The station entry after appending `leg` to it: the passage joins the
      bucket of its arrival label, and a missing bucket is added at the end. */
  function AppendToStation(sp: StationPassages, leg: Leg): (r: StationPassages)
    requires leg.Stationary? && leg.platforms.Some?
    ensures r.station == sp.station
    ensures var arrival := leg.platforms.value.arrivalPlatform;
      match FindPlatform(sp.platforms, arrival, 0)
      case None => r.platforms == sp.platforms + [PlatformPassages(arrival, [PassageOf(leg)])]
      case Some(k) =>
        && |r.platforms| == |sp.platforms|
        && r.platforms[k] == PlatformPassages(arrival, sp.platforms[k].passages + [PassageOf(leg)])
        && forall j :: 0 <= j < |sp.platforms| && j != k ==> r.platforms[j] == sp.platforms[j]
  {
    var arrival := leg.platforms.value.arrivalPlatform;
    match FindPlatform(sp.platforms, arrival, 0)
    case None => sp.(platforms := sp.platforms + [PlatformPassages(arrival, [PassageOf(leg)])])
    case Some(k) =>
      var bucket := sp.platforms[k];
      sp.(platforms := sp.platforms[k := bucket.(passages := bucket.passages + [PassageOf(leg)])])
  }

  /** What `appendLeg` does to the index, as a value. */
  function AppendLegTo(m: Repo, leg: Leg): (r: Repo)
    requires leg.Stationary?
    ensures r.Keys == m.Keys + {leg.station.code}
  {
    var code := leg.station.code;
    var m1 := if code in m then m else m[code := StationPassages(leg.station, [])];
    if leg.platforms.None? then m1
    else m1[code := AppendToStation(m1[code], leg)]
  }

  /** Appending a leg only adds: no station, bucket or passage is removed
      or changed, and only the leg's own station is touched. */
  lemma AppendLegExtends(m: Repo, leg: Leg)
    requires leg.Stationary?
    ensures forall c :: c in m && c != leg.station.code ==> AppendLegTo(m, leg)[c] == m[c]
    ensures forall c :: c in m ==> AppendLegTo(m, leg)[c].station == m[c].station
    ensures forall c, k :: c in m && 0 <= k < |m[c].platforms| ==>
      && k < |AppendLegTo(m, leg)[c].platforms|
      && AppendLegTo(m, leg)[c].platforms[k].platform == m[c].platforms[k].platform
      && m[c].platforms[k].passages <= AppendLegTo(m, leg)[c].platforms[k].passages
  {
    var code := leg.station.code;
    if code in m && leg.platforms.Some? {
      AppendToStationExtends(m[code], leg);
    }
  }

  lemma AppendToStationExtends(sp: StationPassages, leg: Leg)
    requires leg.Stationary? && leg.platforms.Some?
    ensures var r := AppendToStation(sp, leg);
      && |sp.platforms| <= |r.platforms|
      && forall k :: 0 <= k < |sp.platforms| ==>
           r.platforms[k].platform == sp.platforms[k].platform && sp.platforms[k].passages <= r.platforms[k].passages
  {
  }

  /** Every stationary leg is on the list, in the order the rides and their legs come. */
  ghost predicate AllStationary(legs: seq<Leg>)
  {
    forall i :: 0 <= i < |legs| ==> legs[i].Stationary?
  }

  /** `ride.legs.filter(isStationaryLeg)`. */
  function StationaryOf(legs: seq<Leg>): (r: seq<Leg>)
    ensures AllStationary(r)
    ensures |r| <= |legs|
  {
    if legs == [] then []
    else StationaryOf(legs[..|legs| - 1]) + (if legs[|legs| - 1].Stationary? then [legs[|legs| - 1]] else [])
  }

  /** The stationary legs of all rides, rides first, then legs. */
  function StationaryLegs(rides: seq<Ride>): (r: seq<Leg>)
    ensures AllStationary(r)
  {
    if rides == [] then [] else StationaryLegs(rides[..|rides| - 1]) + StationaryOf(rides[|rides| - 1].legs)
  }

  /** Appending every leg of `legs` in order. */
  function AppendAll(m: Repo, legs: seq<Leg>): Repo
    requires AllStationary(legs)
  {
    if legs == [] then m else AppendLegTo(AppendAll(m, legs[..|legs| - 1]), legs[|legs| - 1])
  }

  /** The station codes of the legs. */
  function Codes(legs: seq<Leg>): set<string>
    requires AllStationary(legs)
  {
    set i | 0 <= i < |legs| :: legs[i].station.code
  }

  /** The arrival labels of the legs at station `c` that carry platform data, in order. */
  function ArrivalLabels(legs: seq<Leg>, c: string): seq<string>
    requires AllStationary(legs)
  {
    if legs == [] then []
    else
      var x := legs[|legs| - 1];
      ArrivalLabels(legs[..|legs| - 1], c)
        + (if x.station.code == c && x.platforms.Some? then [x.platforms.value.arrivalPlatform] else [])
  }

  /** The passages of the legs at station `c` arriving at platform `p`, in order. */
  function PassagesFor(legs: seq<Leg>, c: string, p: string): seq<StationPassage>
    requires AllStationary(legs)
  {
    if legs == [] then []
    else
      var x := legs[|legs| - 1];
      PassagesFor(legs[..|legs| - 1], c, p)
        + (if x.station.code == c && x.platforms.Some? && x.platforms.value.arrivalPlatform == p then [PassageOf(x)] else [])
  }

  /** The elements of `s` in order of first occurrence. */
  function Dedup(s: seq<string>): seq<string>
  {
    if s == [] then []
    else
      var d := Dedup(s[..|s| - 1]);
      if s[|s| - 1] in d then d else d + [s[|s| - 1]]
  }

  lemma {:induction false} DedupMembers(s: seq<string>)
    ensures forall x :: x in Dedup(s) <==> x in s
  {
    if s != [] {
      DedupMembers(s[..|s| - 1]);
      assert s == s[..|s| - 1] + [s[|s| - 1]];
    }
  }

  lemma {:induction false} DedupDistinct(s: seq<string>)
    ensures forall i, j :: 0 <= i < j < |Dedup(s)| ==> Dedup(s)[i] != Dedup(s)[j]
  {
    if s != [] {
      DedupDistinct(s[..|s| - 1]);
    }
  }

  /** A platform no leg at `c` arrives at holds no passage of `c`. */
  lemma {:induction false} NoLabelNoPassages(legs: seq<Leg>, c: string, p: string)
    requires AllStationary(legs)
    requires p !in ArrivalLabels(legs, c)
    ensures PassagesFor(legs, c, p) == []
  {
    if legs != [] {
      NoLabelNoPassages(legs[..|legs| - 1], c, p);
    }
  }

  /** The platform labels of a station entry. */
  function Labels(platforms: seq<PlatformPassages>): (r: seq<string>)
    ensures |r| == |platforms|
  {
    seq(|platforms|, k requires 0 <= k < |platforms| => platforms[k].platform)
  }

  /** The index after appending `legs` to the empty index, stated per station. */
  ghost predicate Describes(m: Repo, legs: seq<Leg>)
    requires AllStationary(legs)
  {
    && m.Keys == Codes(legs)
    && (forall c :: c in m ==> EntryDescribes(m[c], legs, c))
    && (forall c :: c !in m ==> ArrivalLabels(legs, c) == [])
  }

  /** Building the index from stationary legs yields, for each station code
      met, one bucket per arrival label in first-encounter order, each
      holding exactly that station's passages at that label in leg order. */
  lemma {:induction false} BuiltIndexDescribed(legs: seq<Leg>)
    requires AllStationary(legs)
    ensures Describes(AppendAll(map[], legs), legs)
  {
    if legs != [] {
      var init, x := legs[..|legs| - 1], legs[|legs| - 1];
      assert legs == init + [x];
      BuiltIndexDescribed(init);
      var m := AppendAll(map[], init);
      assert AppendAll(map[], legs) == AppendLegTo(m, x);
      AppendKeepsDescription(m, init, x);
    }
  }

  lemma AppendKeepsDescription(m: Repo, legs: seq<Leg>, x: Leg)
    requires AllStationary(legs) && x.Stationary?
    requires Describes(m, legs)
    ensures AllStationary(legs + [x])
    ensures Describes(AppendLegTo(m, x), legs + [x])
  {
    var m' := AppendLegTo(m, x);
    CodesSnoc(legs, x);
    forall c | c in m' ensures EntryDescribes(m'[c], legs + [x], c) {
      AppendEntryDescribed(m, legs, x, c);
    }
    forall c | c !in m' ensures ArrivalLabels(legs + [x], c) == [] {
      OtherStationUnchanged(legs, x, c);
    }
  }

  /** After one more `appendLeg`, every station entry still matches the legs:
      the leg's own station by `StationEntryDescribed`, every other one
      because neither it nor its legs change. */
  lemma AppendEntryDescribed(m: Repo, legs: seq<Leg>, x: Leg, c: string)
    requires AllStationary(legs) && x.Stationary?
    requires Describes(m, legs)
    requires c in AppendLegTo(m, x)
    ensures AllStationary(legs + [x])
    ensures EntryDescribes(AppendLegTo(m, x)[c], legs + [x], c)
  {
    if c == x.station.code {
      StationEntryDescribed(m, legs, x);
    } else {
      assert AppendLegTo(m, x)[c] == m[c];
      OtherStationUnchanged(legs, x, c);
      OtherEntryDescribed(m[c], legs, x, c);
    }
  }

  /** A station entry other than the new leg's keeps matching. */
  lemma OtherEntryDescribed(e: StationPassages, legs: seq<Leg>, x: Leg, c: string)
    requires AllStationary(legs) && x.Stationary? && x.station.code != c
    requires EntryDescribes(e, legs, c)
    ensures AllStationary(legs + [x])
    ensures EntryDescribes(e, legs + [x], c)
  {
    OtherStationUnchanged(legs, x, c);
  }

  lemma CodesSnoc(legs: seq<Leg>, x: Leg)
    requires AllStationary(legs) && x.Stationary?
    ensures AllStationary(legs + [x])
    ensures Codes(legs + [x]) == Codes(legs) + {x.station.code}
  {
    var legs' := legs + [x];
    forall c | c in Codes(legs') ensures c in Codes(legs) + {x.station.code} {
      var i :| 0 <= i < |legs'| && legs'[i].station.code == c;
      if i < |legs| { assert legs[i] == legs'[i]; }
    }
    forall c | c in Codes(legs) ensures c in Codes(legs') {
      var i :| 0 <= i < |legs| && legs[i].station.code == c;
      assert legs'[i] == legs[i];
    }
    assert legs'[|legs|] == x;
  }

  /** How one more leg extends the per-station sequences. */
  lemma SnocFacts(legs: seq<Leg>, x: Leg, c: string)
    requires AllStationary(legs) && x.Stationary?
    ensures AllStationary(legs + [x])
    ensures ArrivalLabels(legs + [x], c) == ArrivalLabels(legs, c)
      + (if x.station.code == c && x.platforms.Some? then [x.platforms.value.arrivalPlatform] else [])
    ensures forall q :: PassagesFor(legs + [x], c, q) == PassagesFor(legs, c, q)
                          + (if x.station.code == c && x.platforms.Some? && x.platforms.value.arrivalPlatform == q then [PassageOf(x)] else [])
  {
    assert (legs + [x])[..|legs|] == legs;
  }

  lemma OtherStationUnchanged(legs: seq<Leg>, x: Leg, c: string)
    requires AllStationary(legs) && x.Stationary? && x.station.code != c
    ensures AllStationary(legs + [x])
    ensures ArrivalLabels(legs + [x], c) == ArrivalLabels(legs, c)
    ensures forall p :: PassagesFor(legs + [x], c, p) == PassagesFor(legs, c, p)
  {
    SnocFacts(legs, x, c);
  }

  /** A station entry that matches `legs` at station `c`. */
  ghost predicate EntryDescribes(e: StationPassages, legs: seq<Leg>, c: string)
    requires AllStationary(legs)
  {
    && Labels(e.platforms) == Dedup(ArrivalLabels(legs, c))
    && forall k :: 0 <= k < |e.platforms| ==> e.platforms[k].passages == PassagesFor(legs, c, e.platforms[k].platform)
  }

  /** The entry of the leg's own station after the append. */
  lemma StationEntryDescribed(m: Repo, legs: seq<Leg>, x: Leg)
    requires AllStationary(legs) && x.Stationary?
    requires x.station.code in m ==> EntryDescribes(m[x.station.code], legs, x.station.code)
    requires x.station.code !in m ==> ArrivalLabels(legs, x.station.code) == []
    ensures AllStationary(legs + [x])
    ensures EntryDescribes(AppendLegTo(m, x)[x.station.code], legs + [x], x.station.code)
  {
    var c := x.station.code;
    var e0 := if c in m then m[c] else StationPassages(x.station, []);
    assert EntryDescribes(e0, legs, c);
    if x.platforms.Some? {
      assert AppendLegTo(m, x)[c] == AppendToStation(e0, x);
      EntryAppend(e0, legs, x);
    } else {
      assert AppendLegTo(m, x)[c] == e0;
      SnocFacts(legs, x, c);
      assert ArrivalLabels(legs + [x], c) == ArrivalLabels(legs, c);
      forall q ensures PassagesFor(legs + [x], c, q) == PassagesFor(legs, c, q) {
        assert PassagesFor(legs, c, q) + [] == PassagesFor(legs, c, q);
      }
    }
  }

  lemma EntryAppend(e0: StationPassages, legs: seq<Leg>, x: Leg)
    requires AllStationary(legs) && x.Stationary? && x.platforms.Some?
    requires EntryDescribes(e0, legs, x.station.code)
    ensures AllStationary(legs + [x])
    ensures EntryDescribes(AppendToStation(e0, x), legs + [x], x.station.code)
  {
    SnocFacts(legs, x, x.station.code);
    match FindPlatform(e0.platforms, x.platforms.value.arrivalPlatform, 0)
    case None => EntryAppendNewBucket(e0, legs, x);
    case Some(k) => EntryAppendToBucket(e0, legs, x, k);
  }

  /** The first passage with a new arrival label opens a bucket at the end. */
  lemma EntryAppendNewBucket(e0: StationPassages, legs: seq<Leg>, x: Leg)
    requires AllStationary(legs) && x.Stationary? && x.platforms.Some?
    requires EntryDescribes(e0, legs, x.station.code)
    requires FindPlatform(e0.platforms, x.platforms.value.arrivalPlatform, 0).None?
    ensures AllStationary(legs + [x])
    ensures EntryDescribes(AppendToStation(e0, x), legs + [x], x.station.code)
  {
    var c := x.station.code;
    var p := x.platforms.value.arrivalPlatform;
    var a := ArrivalLabels(legs, c);
    var e := AppendToStation(e0, x);
    SnocFacts(legs, x, c);
    assert p !in a by {
      DedupMembers(a);
      assert p !in Labels(e0.platforms);
    }
    assert Labels(e.platforms) == Dedup(ArrivalLabels(legs + [x], c)) by {
      DedupMembers(a);
      assert Dedup(a + [p]) == Dedup(a) + [p] by {
        assert (a + [p])[..|a|] == a;
      }
      assert Labels(e.platforms) == Labels(e0.platforms) + [p];
    }
    forall k | 0 <= k < |e.platforms|
      ensures e.platforms[k].passages == PassagesFor(legs + [x], c, e.platforms[k].platform)
    {
      if k == |e0.platforms| {
        NoLabelNoPassages(legs, c, p);
      } else {
        assert e.platforms[k] == e0.platforms[k];
      }
    }
  }

  /** A passage whose arrival label already has a bucket joins that bucket. */
  lemma EntryAppendToBucket(e0: StationPassages, legs: seq<Leg>, x: Leg, k: nat)
    requires AllStationary(legs) && x.Stationary? && x.platforms.Some?
    requires EntryDescribes(e0, legs, x.station.code)
    requires FindPlatform(e0.platforms, x.platforms.value.arrivalPlatform, 0) == Some(k)
    ensures AllStationary(legs + [x])
    ensures EntryDescribes(AppendToStation(e0, x), legs + [x], x.station.code)
  {
    var c := x.station.code;
    var p := x.platforms.value.arrivalPlatform;
    var a := ArrivalLabels(legs, c);
    var e := AppendToStation(e0, x);
    SnocFacts(legs, x, c);
    DedupMembers(a);
    DedupDistinct(a);
    assert Labels(e0.platforms)[k] == p;
    assert Dedup(a + [p]) == Dedup(a) by {
      assert (a + [p])[..|a|] == a;
    }
    assert Labels(e.platforms) == Labels(e0.platforms);
    forall j | 0 <= j < |e.platforms| && j != k ensures e.platforms[j].platform != p {
      assert Labels(e0.platforms)[j] != Labels(e0.platforms)[k];
    }
  }

  /** The index as a mutable object: `stations` is the `Map` that
      `appendLeg` updates in place. */
  class PassageRepo {
    var stations: Repo

    constructor ()
      ensures stations == map[]
    {
      stations := map[];
    }

    /** `appendLeg`. */
    method AppendLeg(leg: Leg)
      requires leg.Stationary?
      modifies this
      ensures stations == AppendLegTo(old(stations), leg)
    {
      var code := leg.station.code;
      if code !in stations {
        stations := stations[code := StationPassages(leg.station, [])];
      }
      var stationPassages := stations[code];
      if leg.platforms.None? {
        return;
      }
      var arrival := leg.platforms.value.arrivalPlatform;
      if FindPlatform(stationPassages.platforms, arrival, 0).None? {
        var before := stationPassages.platforms;
        stationPassages := stationPassages.(platforms := before + [PlatformPassages(arrival, [])]);
        assert stationPassages.platforms[|before|].platform == arrival;
        assert FindPlatform(stationPassages.platforms, arrival, 0) == Some(|before|);
        var filled := PlatformPassages(arrival, [PassageOf(leg)]);
        assert [] + [PassageOf(leg)] == [PassageOf(leg)];
        assert stationPassages.platforms[|before| := filled] == before + [filled];
      }
      var k := FindPlatform(stationPassages.platforms, arrival, 0).value;
      var bucket := stationPassages.platforms[k];
      var passages := bucket.passages + [StationPassage(leg.startTime, leg.endTime, leg.rideId)];
      stationPassages := stationPassages.(platforms := stationPassages.platforms[k := bucket.(passages := passages)]);
      stations := stations[code := stationPassages];
    }
  }

  /** `newPassageRepo`: every ride in order, every stationary leg of it in order. */
  method NewPassageRepo(rides: seq<Ride>) returns (repo: PassageRepo)
    ensures fresh(repo)
    ensures repo.stations == AppendAll(map[], StationaryLegs(rides))
  {
    repo := new PassageRepo();
    var r := 0;
    while r < |rides|
      invariant 0 <= r <= |rides|
      invariant repo.stations == AppendAll(map[], StationaryLegs(rides[..r]))
    {
      assert rides[..r + 1][..r] == rides[..r];
      AppendRideLegs(repo, StationaryLegs(rides[..r]), rides[r].legs);
      r := r + 1;
    }
    assert rides[..r] == rides;
  }

  /** The inner `forEach` of `newPassageRepo`: the stationary legs of one
      ride, in order, after the legs `done` of the rides before it. */
  method AppendRideLegs(repo: PassageRepo, done: seq<Leg>, legs: seq<Leg>)
    requires AllStationary(done)
    requires repo.stations == AppendAll(map[], done)
    modifies repo
    ensures repo.stations == AppendAll(map[], done + StationaryOf(legs))
  {
    var i := 0;
    assert done + StationaryOf(legs[..0]) == done;
    while i < |legs|
      invariant 0 <= i <= |legs|
      invariant repo.stations == AppendAll(map[], done + StationaryOf(legs[..i]))
    {
      assert legs[..i + 1][..i] == legs[..i];
      if legs[i].Stationary? {
        assert done + StationaryOf(legs[..i + 1]) == (done + StationaryOf(legs[..i])) + [legs[i]];
        repo.AppendLeg(legs[i]);
      } else {
        assert StationaryOf(legs[..i + 1]) == StationaryOf(legs[..i]);
      }
      i := i + 1;
    }
    assert legs[..i] == legs;
  }

  /** The index `newPassageRepo` builds, described station by station. */
  lemma NewPassageRepoDescribed(rides: seq<Ride>)
    ensures Describes(AppendAll(map[], StationaryLegs(rides)), StationaryLegs(rides))
  {
    BuiltIndexDescribed(StationaryLegs(rides));
  }

  /** Each station of the built index has at most one bucket per arrival label. */
  lemma BucketsAreDistinct(rides: seq<Ride>)
    ensures var m := AppendAll(map[], StationaryLegs(rides));
      forall c, i, j :: c in m && 0 <= i < j < |m[c].platforms| ==> m[c].platforms[i].platform != m[c].platforms[j].platform
  {
    var legs := StationaryLegs(rides);
    var m := AppendAll(map[], legs);
    BuiltIndexDescribed(legs);
    forall c, i, j | c in m && 0 <= i < j < |m[c].platforms|
      ensures m[c].platforms[i].platform != m[c].platforms[j].platform
    {
      DedupDistinct(ArrivalLabels(legs, c));
      assert Labels(m[c].platforms)[i] == m[c].platforms[i].platform;
      assert Labels(m[c].platforms)[j] == m[c].platforms[j].platform;
    }
  }

  /** A leg without platform data registers its station and adds nothing else. */
  lemma NullPlatformAddsNoPassage(m: Repo, leg: Leg)
    requires leg.Stationary? && leg.platforms.None?
    ensures forall c :: c in m ==> AppendLegTo(m, leg)[c] == m[c]
    ensures leg.station.code !in m ==> AppendLegTo(m, leg)[leg.station.code] == StationPassages(leg.station, [])
  {
  }
}
