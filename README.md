# rusty-rails-frontend train-position engine, in Dafny

This project models the logic at the heart of the rusty-rails-frontend client. That client shows scheduled trains moving over a rail map and stacks their journeys into a 3D timeline. The model covers these parts:

- **Rail geometry** (`RailPath`). A path is built from a list of coordinates. Each point carries its cumulative distance from the start. The model finds the span that brackets a distance and interpolates a coordinate inside that span.
- **Directed traversal** (`RailLegLink`, plus the older copy `LegacyLegLink`). A leg link is a shared link together with a flag saying which way a train rides it. The model covers first and last station, first and last position and point, and the two point-by-point walks. One walk yields only points; the other also yields the distance travelled.
- **Link registry and code resolution** (`RailLink`, `LegacyLink`, `Server`). `parseData` builds the company and station maps and a link registry. The registry holds every link under both orientations of its lowercased `from_to` code. A code resolves to the registry's own link together with a direction.
- **Position resolver** (`RideResolver`, over the ride data of `Schedule`). A ride is active on a half-open time interval. The model finds the active leg, maps time to a distance along the leg's links, finds the link and the fraction of it covered, and finds the point on that link. A standing train is pinned to its station.
- **Station passage index** (`StopRepo`). This is a per-station, per-arrival-platform list of the moments trains stand there, built by appending every stationary leg of every ride in order.
- **Helpers**:
  - `remap` and `joinWith` (`Util`, `ArrayUtil`);
  - `isDigit` (`Numbers`);
  - millisecond and `HH:MM` time formatting (`Time`);
  - stop-type classification (`StopType`) and the sidebar's stop strings (`Sidebar`);
  - JavaScript's `Map` with its insertion order and `toLowerCase` (`JsMap`, `JsString`).
- **Planner lookups of src/app.ts** (`App`):
  - station lookup by code or name;
  - the link line-segment buffer;
  - the ride and stop-index lookup that draws each hop of a journey plan.
- **Timeline of src/map.ts** (`Timeline`):
  - the elevation/time mapping;
  - operator colours and the line-colour memo;
  - the loops that pair accepted points into line segments, for the whole-day timeline and for a single planned hop.

**How the model is built**
- Loops the source runs step by step are methods with loop invariants. Each is proved equal to a function that states its result.
- The colour memo and the passage index are classes whose methods update their fields in place.
- Callbacks the source hands to the traversal loops are modelled by methods that return the trace the callback would see.
- Times and distances are `real`. The millisecond clock arithmetic of src/time.ts is on `int`, and JavaScript's truncating `%` is written out.

## Model

| member | source | states |
|---|---|---|
| ArrayUtil.Pairwise | src/array.ts:3-9 | one result per pair of neighbours, `f` of element `i` and `i + 1`, and none for fewer than two elements |
| ArrayUtil.JoinWith | src/array.ts:3-9 | the loop fills exactly `|r| - 1` slots (none for an empty list), slot `i` with `f(r[i], r[i + 1])`, which is `Pairwise` |
| Util.JoinWith | src/util.ts:5-11 | the older copy computes the same pairing as `ArrayUtil.Pairwise` |
| Util.Remap | src/util.ts:1-3 | the low end of the source range maps to the low end of the target, the high end to the high end, and in between the result's offset in the target range is the value's offset scaled by the ratio of the two ranges |
| Util.RemapIdentity | src/util.ts:1-3 | remapping a range onto itself changes nothing |
| Util.RemapWithin | src/util.ts:1-3 | a value inside the source range lands inside the target range |
| Util.RemapUnitStrict | src/util.ts:1-3 | a value strictly inside the source range lands strictly inside (0, 1) |
| Numbers.IsDigit | src/number.ts:1-7 | true exactly when the string is non-empty and its first character is one of the ten decimal digits |
| Numbers.DigitCharIsListed | src/number.ts:1-7 | a character lies between the codes of '0' and '9' exactly when it is a decimal digit |
| Numbers.IsDigitLooksAtFirstOnly | src/number.ts:4-7 | only the first character decides the answer |
| Numbers.Lerp | src/rail/path.ts:35-36 | `lerp` gives the first end at fraction 0 and the second at fraction 1 |
| Numbers.InverseLerp | src/rail/path.ts:33 | `inverseLerp` gives 0 at the low end, 1 at the high end, and in general the fraction `t` with `t * (b - a) == v - a` |
| Time.AsSeconds | src/time.ts:9-11 | the seconds times 1000 give the milliseconds back |
| Time.FromSeconds | src/time.ts:13-15 | the milliseconds over 1000 give the seconds back |
| Time.SecondsRoundTrip | src/time.ts:9-15 | `asSeconds` and `fromSeconds` are inverse to each other |
| Time.JsRemainder | src/time.ts:26 | the truncating `%`: the dividend minus the result is a multiple of the divisor; for a non-negative dividend that is the Euclidean remainder in [0, b), for a negative one a remainder in (-b, 0] |
| Time.NatToDecimal | src/time.ts:31-32 | `toString(10)` of a non-negative integer is a non-empty run of decimal digits, without a leading zero unless it is `0`, whose decimal value is the number |
| Time.IntToDecimal | src/time.ts:31-32 | the text starts with a minus sign exactly when the number is negative; the digits after it read back the number's absolute value |
| Time.PadStart | src/time.ts:31-32 | the result is at least `width` long, ends with the input and is padded in front with the pad character |
| Time.TwoDigits | src/time.ts:31-32 | a number in 0..99 padded to two characters is its tens digit then its units digit |
| Time.ClockFieldsInRange | src/time.ts:25-34 | for a non-negative time the hour is in 0..23 and the minute in 0..59 |
| Time.FormatIsClock | src/time.ts:25-34 | for a non-negative time the output is five characters `HH:MM` whose digits read back the hour of the day and the minute of the hour |
| Time.ClockText | src/time.ts:31-33 | two numbers below one hundred printed and joined by ':' read back as themselves |
| Time.MinutesOfHour | src/time.ts:27-29 | the minutes shown are the whole minutes left over from the hour |
| Time.FormatIsDaily | src/time.ts:26 | adding a whole day does not change the output |
| Time.FormatTruncatesSeconds | src/time.ts:27-29 | seconds and milliseconds inside the same minute do not change the output |
| Time.SameMinuteSameClock | src/time.ts:25-34 | two non-negative times in the same minute print alike |
| Time.ClockOfMinute | src/time.ts:26-29 | hour and minute depend only on the whole minutes elapsed |
| Time.DayHours | src/time.ts:26-27 | for a non-negative time, the whole hours into the day: `h` in 0..23 with `h` hours at most the time into the day and `h + 1` hours more than it; for a negative time, where the truncating `%` keeps the sign, an hour in -24..0 |
| Time.HourMinutes | src/time.ts:28-29 | for a non-negative time, the whole minutes left over after the hours, in 0..59 |
| Time.FormatDaySeconds | src/time.ts:25-34 | for a non-negative time, five characters with ':' in the middle, whose first two digits read back `DayHours` and last two `HourMinutes` |
| JsString.ToLower | src/app.ts:260 | `toLowerCase` keeps the length and lowercases each letter, leaving other characters alone |
| JsString.ToLowerIdempotent | src/app.ts:260 | lowercasing twice is lowercasing once |
| JsString.LowerKeepsNoUnderscore | src/server.ts:66-67 | lowercasing a code without `_` yields none |
| JsString.ToLowerConcat | src/server.ts:66-67 | lowercasing a joined key is joining the lowercased parts |
| JsMap.Empty | src/server.ts:56 | a new `Map` has no entries and is well formed |
| JsMap.Set | src/server.ts:57-59 | `set` stores the value; a new key goes to the end of the iteration order, an existing key keeps its place |
| JsMap.Get | src/app.ts:261 | `get`/`has` find a value exactly when the key is present |
| RailPath.CumulativeDistance | src/rail/path.ts:16-24 | the running sum of distances is never negative |
| RailPath.BuildPath | src/rail/path.ts:7-30 | a path is built exactly when there are at least two coordinates; one point per coordinate in order, the first at offset 0, each at the summed distance from the first, the length the last offset; otherwise the "at least 2 elements" error |
| RailPath.PointsUpToSnoc | src/rail/path.ts:18-24 | one more turn of the loop appends the next coordinate at the next running sum |
| RailPath.PathFromCoordinateArray | src/rail/path.ts:7-30 | the loop with its running sum returns exactly `BuildPath` |
| RailPath.CumulativeDistanceMonotone | src/rail/path.ts:22 | the running sum never decreases along the coordinates |
| RailPath.BuiltPathIsValid | src/rail/path.ts:7-30 | every built path starts at offset 0, has non-decreasing offsets and ends at its length |
| RailPath.SpanFrom | src/rail/path.ts:54-62 | the span found contains the offset, both ends included, and no earlier span does; nothing is found exactly when no span does |
| RailPath.PathFindOffsetSpan | src/rail/path.ts:53-66 | the loop returns the first pair of neighbours bracketing the offset, and throws "span not found" exactly when there is none |
| RailPath.OffsetInRangeHasSpan | src/rail/path.ts:64 | on a built path every offset from 0 to the length lies in some span |
| RailPath.PathFindOffsetPosition | src/rail/path.ts:30-47 | no span gives "span not found"; a zero-length span, and only it, gives the NaN error; otherwise the position is the linear interpolation between the span's ends at the offset's share of the span, so it lies between them and equals an end at that end's offset, and the heading is low minus high |
| RailPath.PositionFoundOnValidPath | src/rail/path.ts:30-47 | on a built path every offset from 0 to the length has a span; the position fails exactly when that span has zero length, where `inverseLerp` divides zero by zero, so a path with strictly increasing offsets locates every such offset |
| RailLink.ParseLink | src/rail/link.ts:15-23 | a link is built exactly when there are at least two coordinates; its ends are the named locations and its path has one point per coordinate, in order, with valid cumulative offsets |
| RailLink.CodePrefix | src/rail/link.ts:30 | `split("_")[0]` is the longest underscore-free prefix of the code |
| RailLink.CodePrefixOfJoined | src/rail/link.ts:30 | the prefix of `a_b` is `a` when `a` has no underscore |
| RailLink.LinkLegFromCode | src/rail/link.ts:24-37 | a registered code gives the registry's link, reversed exactly when the code's prefix is not the link's `from`; an unknown code throws "Link not found" |
| RailLink.LinkLegFromLoweredCode | src/rail/link.ts:24-37 | corrected: a registered code gives the registry's link, reversed exactly when the code's prefix is not the lowercased `from`; an unknown code throws "Link not found" |
| RailLink.LoweredLookupAgrees | src/rail/link.ts:30-31 | for a link whose `from` code is already lower case, the corrected lookup and the one as written give the same leg |
| RailLink.CodeDecidesDirection | src/rail/link.ts:30-36 | a code starting with the link's `from` walks it in stored order, one starting with its `to` walks it backwards and leaves from `to` |
| RailLink.FindLinkFrom | src/rail/link.ts:39-41 | the index found joins the two stations in either direction and no earlier link does; nothing is found exactly when no link does |
| RailLink.FindLink | src/rail/link.ts:39-41 | `find` gives the first link joining the two stations in either direction, or `undefined` exactly when none does |
| RailLink.FindLinkSymmetric | src/rail/link.ts:40 | asking for `(a, b)` or `(b, a)` finds the same link |
| Server.ParseLinks | src/server.ts:47 | every link is built by `parseLink`, in order, or the parse fails with the one error `parseLink` raises exactly when some link has fewer than two coordinates |
| Server.StationMap | src/server.ts:56-59 | the station map is a well-formed insertion-ordered map |
| Server.ParseData | src/server.ts:45-78 | the data is assembled exactly when every link parses; the lookup tables are those the loops fill, every ride is parsed against them, and the passages are indexed from the parsed rides |
| Server.Assemble | src/server.ts:49-77 | the static data holds the links, the three lookup tables, the parsed rides and their passage index |
| Server.FillCompanyMap | src/server.ts:49-53 | the loop leaves the company map of all the companies |
| Server.CompanyMap | src/server.ts:49-53 | every company's id is a key, and every key maps to a company carrying that id |
| Server.FillStationMap | src/server.ts:56-59 | the loop leaves the station map of all the stations |
| Server.FillLinkMap | src/server.ts:61-68 | the loop leaves the registry holding both lowercased keys of every link |
| Server.LinkRegistry | src/server.ts:61-68 | both keys of every link are registered |
| Server.KeysOfLink | src/server.ts:63-67 | a link's keys are its lowercased `from` and `to` joined by `_`, in both orders |
| Server.CompanyLastWins | src/server.ts:51-53 | an id maps to the last company that carries it |
| Server.CompanyKeys | src/server.ts:51-53 | the company map's keys are exactly the ids of the companies |
| Server.StationLastWins | src/server.ts:57-59 | a station code maps to the last station listed with it |
| Server.LinkLastWins | src/server.ts:62-68 | both keys of a link are registered, each bound to the last link that produced it |
| Server.LinkKeysComeFromLinks | src/server.ts:62-68 | every registry key is the forward or backward key of some link |
| Server.RegistryKeysResolve | src/server.ts:63-67 | for a link whose station codes are already lower case, hold no `_` and differ, and whose keys no later link registers again: its forward key resolves, through `linkLegFromCode`, to the link in stored order and its backward key to the link reversed |
| Server.MixedCaseKeysResolveReversed | src/rail/link.ts:30-31 | as written: for a link whose `from` code is not already lower case (codes without `_`, keys not registered again later), both its forward and its backward key resolve to the link reversed, because the registry lowercases the keys and `linkLegFromCode` compares with the raw `from` |
| Server.RegistryKeysResolveLowered | src/server.ts:63-67 | corrected: with the lowercased comparison, a link whose codes hold no `_` and differ once lowercased, and whose keys no later link registers again, resolves its forward key in stored order and its backward key reversed, whatever the case of its codes |
| RailLegLink.StationsAreTheEnds | src/rail/leglink.ts:24-38 | the first and last station are the two ends of the link, reversal decides which is first, and walking the link the other way swaps them |
| RailLegLink.Flipped | src/rail/leglink.ts:24-38 | walking a link the other way is the same link with the reversal flag negated, and never the leg link itself |
| RailLegLink.FirstStation | src/rail/leglink.ts:24-30 | the link's `to` when reversed, its `from` otherwise |
| RailLegLink.LastStation | src/rail/leglink.ts:32-38 | the link's `from` when reversed, its `to` otherwise, so first and last station are together the two ends of the link |
| RailLegLink.FirstPosition | src/rail/leglink.ts:40-52 | the position is on the given leg link, and on a built path its offset is the full path length in either direction |
| RailLegLink.LastPosition | src/rail/leglink.ts:54-66 | as written, the same position as `firstPosition` |
| RailLegLink.FirstAndLastPositionCoincide | src/rail/leglink.ts:40-66 | `firstPosition` and `lastPosition` give the same position, which on a built path is the full path length in both directions |
| RailLegLink.FirstPoint | src/rail/leglink.ts:71-80 | as written: the first stored point for a forward link, and `undefined` for a reversed one |
| RailLegLink.LastPoint | src/rail/leglink.ts:82-90 | as written: the first stored point for a reversed link, and `undefined` for a forward one |
| RailLegLink.FirstPointInTravelOrder | src/rail/leglink.ts:71-80 | corrected: the first point a train passes on the link |
| RailLegLink.LastPointInTravelOrder | src/rail/leglink.ts:82-90 | corrected: the last point a train passes on the link |
| RailLegLink.FirstAndLastPointLoseAHalf | src/rail/leglink.ts:71-90 | a reversed link's written `firstPoint` and a forward link's written `lastPoint` are missing although the points exist; where the written versions give a point it is the corrected one |
| RailLegLink.ReversedAt | src/rail/leglink.ts:94-96 | position `k` of the reversed points is stored point `n - 1 - k` |
| RailLegLink.TravelOrder | src/rail/leglink.ts:92-103 | one point per stored point; point `k` is stored point `n - 1 - k` when reversed and stored point `k` otherwise |
| RailLegLink.TravelOrderIsPermutation | src/rail/leglink.ts:92-103 | the travel order visits every stored point exactly once |
| RailLegLink.Iter | src/rail/leglink.ts:92-103 | both loops hand the callback the points in travel order: backwards when reversed, stored order otherwise |
| RailLegLink.TaggedAt | src/rail/leglink.ts:105-118 | each point is paired with the distance travelled when it is reached |
| RailLegLink.Traversal | src/rail/leglink.ts:105-118 | one pair per stored point, each pair given by `TraversalAt` |
| RailLegLink.TraversalAt | src/rail/leglink.ts:105-118 | pair `k` is the `k`-th point in travel order with its distance from the departure end |
| RailLegLink.IterWithDistance | src/rail/leglink.ts:105-118 | both loops hand the callback the travel-order points, with the path length minus the offset when reversed and the offset otherwise |
| RailLegLink.TraversalDistancesClimb | src/rail/leglink.ts:105-118 | on a built path the distances handed over start at 0, end at the path length and never decrease, in both directions |
| RailLegLink.TraversalOfFlipped | src/rail/leglink.ts:105-118 | walking a link the other way hands over the same points backwards, each at the remaining distance |
| LegacyLink.ParseLink | src/link.ts:16-22 | a link is built exactly when there are at least two coordinates, with the JSON's own endpoint codes and one point per coordinate; it is the link the newer `parseLink` builds from the same endpoints |
| LegacyLink.LinkLegFromCode | src/link.ts:23-36 | a registered code gives the registry's link, reversed exactly when the code's prefix is not its `from`; the same answer as the newer version |
| LegacyLink.FindLink | src/link.ts:38-40 | nothing is found exactly when no link joins the two stations; the answer is the newer `findLink`'s and does not depend on the order of the two stations |
| LegacyLegLink.FirstStation | src/leglink.ts:23-29 | the link's `to` when reversed, its `from` otherwise, as in the newer version |
| LegacyLegLink.LastStation | src/leglink.ts:31-37 | the link's `from` when reversed, its `to` otherwise, as in the newer version |
| LegacyLegLink.StationsAreTheEnds | src/leglink.ts:23-37 | first and last station are the link's two ends, swapped by walking it the other way |
| LegacyLegLink.FirstPosition | src/leglink.ts:39-51 | the position is on the given link and is the newer version's |
| LegacyLegLink.LastPosition | src/leglink.ts:53-65 | the same position as `firstPosition`, and the newer version's |
| LegacyLegLink.FirstPoint | src/leglink.ts:70-79 | as written: the first stored point of a forward link, `undefined` for a reversed one, as in the newer version |
| LegacyLegLink.LastPoint | src/leglink.ts:81-89 | as written: the first stored point of a reversed link, `undefined` for a forward one, as in the newer version |
| RideResolver.LegSearch | src/ride.ts:14-16 | the index found is of a leg whose half-open interval holds the time, and no earlier leg's does; nothing is found exactly when no leg's does |
| RideResolver.IsActiveAtTime | src/ride.ts:85-87 | a ride is only ever active on a non-empty interval; it is active at its start time and never at its end time |
| RideResolver.FindCurrentLeg | src/ride.ts:12-20 | the first leg active at the time, or "Leg not found" exactly when no leg is |
| RideResolver.ActiveContiguousRideHasLeg | src/ride.ts:12-20 | when the legs cover the ride's interval without gaps, a leg is found at every moment the ride is active |
| RideResolver.PointAbove | src/ride.ts:30-32 | the index found is of the first point beyond the covered distance |
| RideResolver.StoredFraction | src/ride.ts:23-25 | a reversed link's fraction is counted from the other end |
| RideResolver.CoveredOnLink | src/ride.ts:23-27 | the distance covered is the path length times the fraction on a forward link, and the path length minus that on a reversed one |
| RideResolver.CoveredOnLinkWithin | src/ride.ts:23-27 | a fraction in [0, 1] covers a distance between 0 and the path length |
| RideResolver.CoveredOnFlipped | src/ride.ts:23-27 | walking a link the other way at the complementary fraction covers the same distance |
| RideResolver.PositionOnLink | src/ride.ts:22-57 | a position exactly when the first point beyond the covered distance exists and is not the first point, its span then bracketing that distance; otherwise "Point not found" or the missing left point |
| RideResolver.Interpolate | src/ride.ts:33-53 | the position is the linear interpolation between the two points at the covered distance's share of their span, so it lies between them and is the left point at its offset; the heading is left minus right in stored order, right minus left when reversed |
| RideResolver.PositionAtDistance | src/ride.ts:27-56 | a position exactly when some point lies beyond the covered distance and it is not the first; "Point not found" when no point does; the position interpolates linearly inside the span that brackets the distance, with the heading's sign set by the direction |
| RideResolver.FindPositionOnLink | src/ride.ts:22-57 | the index loop returns exactly `PositionOnLink`: the fraction flipped on reversed links, the span found by the first point beyond the covered distance |
| RideResolver.PositionOnValidLink | src/ride.ts:22-57 | on a built path of positive length every fraction strictly between 0 and 1 has a position, in either direction |
| RideResolver.FlippedPositionOnLink | src/ride.ts:23-48 | walking a link the other way at the complementary fraction gives the same place with the opposite heading |
| RideResolver.LinkSearch | src/ride.ts:73-81 | the index found is of the first link strictly covering the distance |
| RideResolver.CurrentLink | src/ride.ts:71-83 | the first link strictly covering the distance, with the fraction `f` in (0, 1) such that the lengths of the links before it plus `f` times its length is the distance; "Link not found" exactly when no link covers it |
| RideResolver.FindCurrentLink | src/ride.ts:71-83 | the loop with its running `distanceSum` returns exactly `CurrentLink` |
| RideResolver.BoundaryHasNoLink | src/ride.ts:76 | with non-negative lengths a distance exactly on the start, a joint or the end of the chain is never found |
| RideResolver.InteriorHasLink | src/ride.ts:71-83 | every distance strictly inside the chain and off the joints is found |
| RideResolver.PositionOnLeg | src/ride.ts:59-68 | the position on the link the covered fraction of the summed lengths falls in, or "Link not found"; a zero-length time interval never finds a link |
| RideResolver.CoveredOnLeg | src/ride.ts:59-63 | the distance covered is 0 at the leg's start and the summed link lengths at its end, and stays between the two in between |
| RideResolver.FindCurrentPositionOnLeg | src/ride.ts:59-68 | computes exactly `PositionOnLeg` |
| RideResolver.MovingLegFailsAtItsStart | src/ride.ts:76 | at the very moment a moving leg starts the covered distance is 0 and no link is found |
| RideResolver.MovingLegPositionFound | src/ride.ts:59-68 | a moving leg over built paths of positive length has a position at every inner moment off the joints |
| RideResolver.PoseAt | src/ride.ts:85-117 | an inactive ride fails; otherwise the current leg decides: a standing train sits at its station with a zero rotation, a moving one takes the leg position and its heading as the rotation |
| RideResolver.TrainPosition | src/ride.ts:89-117 | computes exactly `PoseAt`, failing first when the ride is not active |
| Schedule.PrefixLength | src/ride.ts:62 | the summed lengths of the first links, added left to right |
| Schedule.PrefixLengthMonotone | src/ride.ts:79 | with non-negative lengths the running sum never decreases |
| Schedule.TotalLength | src/ride.ts:62 | `reduce` over no links is 0, over one link its length, and never negative when no length is |
| StopType.CodesAreDistinct | src/rail/stop.ts:7-14 | the six stop type codes are 0 to 5 in declaration order, each used once |
| StopType.StopTypeFromObjKey | src/rail/stop.ts:17-35 | the first of `Departure`, `StopShort`, `StopLong`, `Arrival` present decides the type; with none of them the error carries the record's keys |
| StopType.ClassificationIsDecided | src/rail/stop.ts:17-35 | a classification is never UNKNOWN or WAYPOINT, its deciding key is present and every key ahead of it is absent |
| StopRepo.PassageOf | src/stoprepo.ts:41 | the passage carries the leg's start, end and ride numbers |
| StopRepo.FindPlatform | src/stoprepo.ts:35 | the bucket found is the first with the arrival label; nothing is found exactly when no bucket has it |
| StopRepo.AppendToStation | src/stoprepo.ts:35-41 | the passage joins the bucket of its arrival label, leaving the others alone, and a missing bucket is added at the end |
| StopRepo.AppendLegTo | src/stoprepo.ts:23-42 | the leg's station is registered, whatever its platform data |
| StopRepo.AppendLegExtends | src/stoprepo.ts:23-42 | appending a leg only adds: other stations are untouched, and no bucket or passage is removed or reordered |
| StopRepo.StationaryOf | src/stoprepo.ts:48 | `filter(isStationaryLeg)` keeps only stationary legs |
| StopRepo.StationaryLegs | src/stoprepo.ts:48 | the stationary legs of all rides, ride by ride |
| StopRepo.DedupMembers | src/stoprepo.ts:35-36 | the buckets' labels are exactly the labels met |
| StopRepo.DedupDistinct | src/stoprepo.ts:35-36 | no label gets two buckets |
| StopRepo.BuiltIndexDescribed | src/stoprepo.ts:44-51 | appending the legs to an empty index gives each station met one bucket per arrival label in first-encounter order, each holding exactly that station's passages at that label in leg order |
| StopRepo.AppendKeepsDescription | src/stoprepo.ts:23-42 | one more `appendLeg` keeps that description, for the legs with the new one added |
| StopRepo.PassageRepo.constructor | src/stoprepo.ts:45 | a new index is empty |
| StopRepo.PassageRepo.AppendLeg | src/stoprepo.ts:23-42 | `appendLeg` updates the map in place to `AppendLegTo` of the old map |
| StopRepo.NewPassageRepo | src/stoprepo.ts:44-51 | the index holds every stationary leg of every ride appended in order |
| StopRepo.AppendRideLegs | src/stoprepo.ts:48 | the inner `forEach` appends one ride's stationary legs in order |
| StopRepo.NewPassageRepoDescribed | src/stoprepo.ts:44-51 | the built index is described station by station as above |
| StopRepo.BucketsAreDistinct | src/stoprepo.ts:35-39 | each station of the built index has at most one bucket per arrival label |
| StopRepo.NullPlatformAddsNoPassage | src/stoprepo.ts:31-33 | a leg without platform data registers its station and adds nothing else |
| Sidebar.StopDisplayTime | src/jsm/sidebar.tsx:6-17 | arrivals show their arrival time, waypoints an empty string, an UNKNOWN stop is the only error and every other type shows its departure time |
| Sidebar.ClassifiedStopShowsClock | src/jsm/sidebar.tsx:6-17 | a stop whose type came from the key classification always has a time, and with times that are not negative it is an `HH:MM` clock |
| Sidebar.StopDisplayPlatform | src/jsm/sidebar.tsx:19-27 | no platform data gives an empty string; equal labels give that label; different labels give the arrival label, `->` and the departure label |
| Sidebar.PlatformChangeShown | src/jsm/sidebar.tsx:19-27 | `->` follows the arrival label exactly when arrival and departure platforms differ |
| Timeline.ElevationForTime | src/map.ts:390-393 | the elevation is zero exactly at the base time and positive exactly after it |
| Timeline.ElevationLinear | src/map.ts:390-393 | elevation differences are time differences in seconds times `TIMELINE_ELEVATION_PER_SECOND` |
| Timeline.ElevationMonotone | src/map.ts:390-393 | a later time never sits lower |
| Timeline.TimelineView.constructor | src/map.ts:83-84 | the view starts at the current day offset and spans two hours |
| Timeline.TimelineView.ElevationToTime | src/map.ts:290-295 | the time returned has exactly the elevation `y` above `zeroTime` |
| Timeline.ElevationOfSpan | src/map.ts:25 | the full span sits `span / 25000000` high, the constant's value per millisecond |
| Timeline.RemapOfElevation | src/map.ts:290-295 | ground is 0, the ceiling is the span's elevation, and the remap is linear in `y` |
| Timeline.TimeRoundTrip | src/map.ts:290-295 | reading back the time of a time's elevation gives that time |
| Timeline.ColorForOperator | src/map.ts:438-454 | an operator in `BRAND_COLORS` gets its brand colour; the timeline grey is returned exactly for every other name |
| Timeline.LineColors.constructor | src/map.ts:456-457 | the colour map starts empty with the counter at 0 |
| Timeline.LineColors.ColorForLine | src/map.ts:465-477 | a known line keeps its colour and changes nothing; a new line takes the counter's colour, the counter goes up by one and nothing else changes |
| Timeline.DistinctLinesDistinctColors | src/map.ts:465-477 | two different lines never share a colour |
| Timeline.LegClock | src/map.ts:406 | the clock a moving leg's links are timed by has a distance that can be divided by |
| Timeline.TimeAtLegEnds | src/map.ts:406 | distance 0 is passed at the leg's start time and its full link distance at its end time |
| Timeline.TimeAtPoint | src/map.ts:406 | the `remap` of distance to time: the leg's start time at distance 0, its end time at the full link distance, and linear in between |
| Timeline.LinkVertices | src/map.ts:491-497 | at most one vertex per traversal point: only those whose time is in the window, so exactly one per point when the window is unbounded |
| Timeline.LegParts | src/map.ts:490-519 | one part per link of the leg |
| Timeline.LegVertices | src/map.ts:490-519 | no links give no vertex; with no time window, one vertex per point of the links walked |
| Timeline.LegVerticesSnoc | src/map.ts:490-519 | one more link appends its part after the vertices of the links before it |
| Timeline.Push | src/map.ts:410-420 | the first vertex only becomes `lastPoint`; each later one pushes two points; `lastPoint` is always the vertex just seen |
| Timeline.PushAllAppend | src/map.ts:410-420 | pushing two stretches in turn is pushing them joined |
| Timeline.PushAllSnoc | src/map.ts:410-420 | one more vertex is one more push |
| Timeline.Segments | src/map.ts:416-418 | n vertices give 2(n-1) points, none for no vertex, always an even number |
| Timeline.SegmentsShape | src/map.ts:416-418 | points `2i` and `2i+1` are vertices `i` and `i+1` |
| Timeline.LastOf | src/map.ts:397 | there is no last point exactly when no vertex was seen |
| Timeline.PushAllIsSegments | src/map.ts:397-420 | from the start, the `lastPoint` logic pushes exactly the segments through the vertices and keeps the last one |
| Timeline.LinkVerticesInBand | src/map.ts:491-497 | a link's accepted vertices lie between ground and the elevation of the window's end |
| Timeline.LegVerticesInBand | src/map.ts:490-519 | so do a leg's |
| Timeline.RideVerticesInBand | src/map.ts:486-520 | so do a ride's |
| Timeline.RideVertices | src/map.ts:486-520 | with no time window, one vertex per point of every link of every moving leg |
| Timeline.StationaryAddsNothing | src/map.ts:488 | a stationary leg adds no vertex |
| Timeline.PushedPointsInBand | src/map.ts:480-522 | every point `appendRidePointsAll` pushes lies in the window's elevation band |
| Timeline.SegmentsInBand | src/map.ts:416-418 | pairing vertices into segments keeps them in the band |
| Timeline.TraceLink | src/map.ts:405-421 | the callback loop over one link's traversal pushes exactly that link's accepted vertices |
| Timeline.LinkVerticesSnoc | src/map.ts:491-497 | the callback on one more point adds its vertex, or none outside the window |
| Timeline.PushEachIsPushAll | src/map.ts:490-519 | pushing link by link is pushing the links' vertices joined |
| Timeline.LinksPushedStep | src/map.ts:490-519 | one more link is one more run of the callbacks |
| Timeline.TraceLeg | src/map.ts:404-424 | the `forEach` over a leg's links runs the callbacks of every link in order |
| Timeline.TraceLegLink | src/map.ts:404-424 | one link is traced from `legDistance` and the distance then grows by that link's path length |
| Timeline.LegRange | src/map.ts:399 | visited leg `i` is `legs[from + i]`, with `from + i` at most `to` and inside the list; there are as many as from `from` up to `to` or the end of the list when the loop is entered and none otherwise; the whole list when the range covers it |
| Timeline.RangeTimed | src/map.ts:399 | the legs visited are all timed |
| Timeline.VisitedSnoc | src/map.ts:399-402 | visiting one more leg appends its vertices, none when it is stationary |
| Timeline.AllParts | src/map.ts:399-402 | every leg's own vertices, listed leg by leg |
| Timeline.PushRangeIsPushAll | src/map.ts:399-425 | pushing leg by leg is pushing the vertices of all legs visited |
| Timeline.LegsEnd | src/map.ts:399 | the loop stops one past `to`, at the end of the legs, or at once |
| Timeline.TraceLegs | src/map.ts:399-425 | the loop over the legs `from` to `to` pushes exactly the segments through the vertices of the moving legs in that range |
| Timeline.VisitLeg | src/map.ts:400-402 | one turn pushes the vertices of leg `index`, nothing when it is stationary |
| Timeline.LegsDone | src/map.ts:399 | when the loop stops its state holds the segments of the whole range |
| Timeline.TimelineBuffers.constructor | src/map.ts:352-362 | the three arrays shared by all rides start empty |
| Timeline.Repeat | src/map.ts:507-512 | `n` copies of the colour |
| Timeline.AppendRidePointsAll | src/map.ts:480-522 | the points buffer gains the segments through the ride's vertices inside [startTime, endTime]; the two colour buffers gain as many copies of the line and operator colour, so all three grow by the same even number; the line colour map is updated as `colorForLine` does |
| Timeline.TimelineSingle | src/map.ts:395-433 | a negative `from` that enters the loop is the only failure; otherwise the points are segment pairs |
| Timeline.CreateTimelineSingle | src/map.ts:395-433 | the loop returns exactly `TimelineSingle`: segments through the vertices of the moving legs `from` to `to`, elevated against `now` |
| App.SearchFromMeans | src/app.ts:250-255 | the entry found passes the test and every entry before it in insertion order fails; nothing is found exactly when every entry fails |
| App.SearchFrom | src/app.ts:250-255 | the entry found is in the map, carries the key's own value and passes the test |
| App.NoEntryPasses | src/app.ts:250-255 | over the whole map, nothing is found exactly when no value passes |
| App.FindMapEntryByValue | src/app.ts:250-255 | the loop over `entries()` returns the first passing entry in insertion order, or nothing |
| App.FindStationCode | src/app.ts:259-271 | a lowercased query that is a code is returned as is; any code returned is a station's, and one differing from the lowercased query names a station whose name matches it ignoring case |
| App.FindStationCodeMeans | src/app.ts:259-271 | the lowercased query wins when it is a station code; otherwise the answer is a code whose station name matches ignoring case; no answer exactly when neither codes nor names match |
| App.FindStationCodeFirstName | src/app.ts:265-268 | a name match is the first station with that name in insertion order |
| App.FindStationCodeIgnoresCase | src/app.ts:260 | two queries that lowercase alike find the same station |
| App.ResolveQuery | src/app.ts:279-290 | a plan is requested only between two station codes; the origin is reported invalid exactly when it resolves to no station, the destination only when it resolves to none |
| App.ResolveQueryMeans | src/app.ts:279-292 | a plan is requested exactly when both queries resolve, and then between the two codes they resolve to; an unresolved origin is reported first |
| App.FlatAppend | src/app.ts:74 | flattening distributes over concatenation |
| App.SegmentsPerLink | src/app.ts:68-72 | one entry per link, in order, each that link's `joinWith` segments |
| App.LinkVertexPairsShape | src/app.ts:67-75 | a link with n points gives 2(n-1) vertices, and vertices `2i`, `2i+1` are its points `i`, `i+1` projected |
| App.FlatOfPairs | src/app.ts:69-74 | flattening two-point segments puts segment `i`'s ends at `2i` and `2i+1` |
| App.WpToArrayInLinkOrder | src/app.ts:67-75 | the links' vertices follow one another in link order |
| App.WpToArrayLength | src/app.ts:67-75 | the buffer holds 2(n-1) vertices per link of n points |
| App.LowerPlanLeg | src/app.ts:300-303 | both station codes of a hop are lowercased and its ride number kept |
| App.FindRide | src/app.ts:306 | the ride found is one of the rides, and the first ride wins when its number prints as the hop's id |
| App.FindMeans | src/app.ts:306 | `find` gives the first element passing the test, and nothing exactly when none passes |
| App.FindRideMeans | src/app.ts:306 | the ride found is the first whose number prints as the hop's id; none exactly when no ride's does |
| App.StopIndex | src/app.ts:316-317 | the index is -1 or a leg index, and a leg index points at a stationary leg at the station |
| App.StopIndexMeans | src/app.ts:316-317 | `findIndex` gives -1 exactly when no stationary leg is at the station, otherwise the first one that is |
| App.HopLookup | src/app.ts:306-317 | a hop's ride is looked up exactly when its ride is found, and then the ride is one of the rides and each stop index is -1 or a stop at the hop's lowercased station |
| App.HopTimeline | src/app.ts:305-321 | a hop is drawn or fails exactly when its ride is found, and is skipped otherwise |
| App.MissingBoardingStopFails | src/app.ts:316-319 | when the ride never stops at the boarding station the handler reads `legs[-1]` and throws |
| App.HopTimelineCheckedMeans | src/app.ts:305-321 | the corrected lookup never throws: a hop is skipped exactly when its ride or one of its stops is missing, and otherwise gives the even-length points the handler draws |
| App.HopTimelineChecked | src/app.ts:305-321 | a hop is drawn only when its ride and both stops were found, and its points come in pairs |
| App.HopTimelineCheckedDraws | src/app.ts:305-321 | a drawn hop is the segments through the vertices of the ride's legs from the boarding stop to the alighting stop, elevated against `now` |
| App.PlanTimelines | src/app.ts:305-321 | corrected (built on `HopTimelineChecked`): at most one mesh per hop |
| App.PlanTimelinesAppend | src/app.ts:305-321 | the meshes of a plan are those of its first hops followed by those of the rest: hops are drawn in plan order |
| App.PlanTimelinesAllDrawn | src/app.ts:305-321 | when every hop can be looked up there is one mesh per hop, mesh `k` being hop `k`'s |
| App.PlanTimelinesNoneDrawn | src/app.ts:305-321 | when no hop can be looked up nothing is drawn |
| App.PlanTimelinesOfHop | src/app.ts:305-321 | a one-hop plan draws that hop's mesh exactly when the checked lookup gives one |
| App.PlanTimelinesPaired | src/app.ts:305-321 | every mesh of the plan is made of whole segments |

## Left out

- App.PlanTimelines: the model draws the corrected plan, through `HopTimelineChecked`. As written, each hop goes through `HopTimeline`, and the first hop that throws stops the drawing of the rest of the plan.
- The link lookups of the rest of the model (`RailLink.LinkLegFromCode`, `LegacyLink.LinkLegFromCode`) stay as written; the corrected `RailLink.LinkLegFromLoweredCode` agrees with them for lower-case station codes (`RailLink.LoweredLookupAgrees`).
- Rendering, DOM and wiring are not modelled. This covers the `TrainMap` class beyond its time window, meshes, materials, raycasting and event listeners in src/map.ts, and all of src/jsm/map.ts. It also covers `createSideBar`, `placeRides`, `updateRides`, `setupMap`, `setupTimer`, `insertDataList` and `onDomReady`.
- Network and asset I/O are left out. `getData` and `findPath` in src/server.ts, and the clock read `currentDayOffset` in src/time.ts, are not modelled. The current time arrives as a parameter (`now`, `zeroTime`).
- Great-circle distance and the Mercator projection are parameters. The distance is any function returning a value of at least 0, and the projection is any function to a 3D vector, because both rest on floating-point trigonometry.
- Vector normalisation is left out. Headings are the unnormalised difference vectors, because normalising needs a square root.
- Timeline.LineColors.ColorForLine: a new line's colour is recorded as its counter value (`color_for_number(n)`). The HSL arithmetic in src/map.ts:460-463 is not modelled; the model only uses the fact that distinct counter values give distinct colours.
- Timeline.AppendRidePointsAll and Timeline.CreateTimelineSingle do not model in-place appends to shared `Vector3` objects. They also do not model mutating a point after it was pushed, or wrapping the points in a `BufferGeometry` mesh. Buffers are sequences that the method extends.
- `createTimelineAll` is not modelled beyond `Timeline.TimelineBuffers`, which holds the three arrays that every ride's `appendRidePointsAll` appends to. Building meshes from them is rendering.
- NaN and Infinity are not modelled. `remap` requires distinct input ends, and every moving leg is required to have a non-zero `link_distance` (`Timeline.Timed`, `Timeline.AllTimed`), where the source would silently compute NaN. The one NaN case in `path_findOffsetPosition`, a zero-length span, is kept as an explicit error.
- RideResolver: src/ride.ts reads `path.len` and `coordinates.lat/lon`, while paths built by src/rail/path.ts carry `pathLength` and `latitude/longitude`. The model reads `pathLength` and the coordinates, as if the fields were the same.
- Normalising the heading in src/ride.ts:45 is not modelled.
- JsString.ToLower lowercases ASCII letters only. Unicode case mapping is not modelled, so station names outside ASCII compare as they are written.
- Timeline.ColorForOperator: `BRAND_COLORS` and `line_color_map` are plain objects, so a name such as `toString` would find an inherited member there; the model treats them as maps holding only their own entries.
- RailLink.ParseLink, Server.ParseLinks, Server.ParseData: the location indices of every link are required to be inside the `locations` list (`RailLink.ParseLink`'s requires, `Server.EndsResolve`). With an index out of range the source stores `undefined` as the link's end and registers it under keys such as `undefined_x`; the model does not represent a missing end.
- `parseRide` of src/rail/ride.ts is not part of this model. `Server.ParseData` takes it as a parameter.
- src/rail/ride.ts, the newer position resolver, is not part of this model.
- src/stop.ts holds only declarations already covered by `StopType`.
- The older `legLinkFindOnPath` in src/leglink.ts is commented out in the source and is not modelled.

## Findings

| source | as written | input that shows it | evidently intended | confidence | as-written member | corrected member |
|---|---|---|---|---|---|---|
| src/rail/leglink.ts:71-90 | `firstPoint` of a reversed link and `lastPoint` of a forward link return `path[path.points.length - 1]`. That indexes the `Path` object rather than its `points`, so it gives `undefined`. | any reversed link passed to `firstPoint`, or any forward link passed to `lastPoint` | the last stored point, which is the first point passed on a reversed link and the last on a forward one | not executed | RailLegLink.FirstPoint, RailLegLink.LastPoint, RailLegLink.FirstAndLastPointLoseAHalf | RailLegLink.FirstPointInTravelOrder, RailLegLink.LastPointInTravelOrder |
| src/leglink.ts:70-89 | the older copy has the same two `path[...]` reads | any reversed link passed to `firstPoint`, or any forward link passed to `lastPoint` | the first and last point in travel order | not executed | LegacyLegLink.FirstPoint, LegacyLegLink.LastPoint | RailLegLink.FirstPointInTravelOrder, RailLegLink.LastPointInTravelOrder |
| src/rail/link.ts:30-31 | `linkLegFromCode` compares the code's first part with the raw `link.from`, but src/server.ts:66-67 registers both keys lowercased | a link from `Ut` to `asd`: its forward key `ut_asd` starts with `ut`, which is not `Ut`, so it resolves reversed, as does its backward key `asd_ut` | compare with the lowercased `from`, so the forward key walks the link in stored order | not executed | Server.MixedCaseKeysResolveReversed | RailLink.LinkLegFromLoweredCode, Server.RegistryKeysResolveLowered |
| src/app.ts:316-319 | when the ride of a planned hop has no stationary leg at the boarding station, `findIndex` gives -1. `createTimelineSingle` then reads `ride.legs[-1].stationary` and throws, and no later hop of the plan is drawn. | a plan hop whose ride is loaded but never stops at the hop's `from` code | skip the hop, as is done for a hop whose ride is missing | not executed | App.HopTimeline, App.MissingBoardingStopFails | App.HopTimelineChecked, App.HopTimelineCheckedMeans |
