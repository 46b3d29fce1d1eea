# Regular routes server — a verified model of its core logic

This project models, in Dafny, the parts of the regular-routes server that
decide things on their own, apart from the database and the web plumbing:

- **The transit-leg matcher** (`transit_match.dfy`, module `TransitMatch`).
  It takes one observed vehicle trip (its start and end times) and the
  journey planner's decoded answer. It then decides which planned public
  transport ride the trip was. Itineraries are passed over by three rules,
  in order:
  - the itinerary does not have exactly one transit leg;
  - the itinerary is more than 180 s faster than the trip;
  - the two durations differ by more than 1079 s.

  The one transit leg of every other itinerary is matched by time. The
  matches are collected in order, and the first one with the smallest
  start-time difference is chosen. The matcher is written as the source
  writes it: a method with nested loops and counters. It is proved equal to
  a specification function (`Match`), and the lemmas state the rules in
  plain seconds. The helper that moves a date into the current week is a
  function of the date and of "today".
- **The scheduler's daily aggregation** (`scheduler.dfy`, module
  `Scheduler`). It covers four jobs:
  - the weekly per-user CO2 rankings: a distance-weighted average per
    user, sorted ascending, ranked 1..n;
  - the per-day global statistics, which guard against a zero distance;
  - the loop over the days that still need statistics;
  - the cutting of a user's filtered points into per-day energy ratings,
    with a category chosen from the activity and the line type.
- **The ingestion and export helpers of the server** (`server.dfy`, module
  `Server`). These are:
  - the 1024-point insert batches;
  - the ranking and numbering of an uploaded point's activity guesses;
  - the CSV paging and line rendering;
  - the reading back of a stored point's activities by confidence.
- **The trip table page** (`usertrips.dfy`, module `UserTrips`). It covers:
  - how a place label binds its slash to the shorter word with a
    non-breaking space;
  - the mode of an activity and its glyph;
  - how each response cell becomes a table cell;
  - which date the location hash selects.

Shared helpers are in `common.dfy` (`Option`, `Result`), in `strings.dfy`
(`split`/`join` with their round trip, and decimal digits) and in
`sorting.dfy` (Python's stable `sorted` by a key).

Units:
- Observed times are Python datetimes, counted in microseconds.
- Planner timestamps are milliseconds, floor-divided by 1000 as Python 2
  does.
- Durations and deltas are whole seconds. With whole seconds, the one
  fractional threshold, 333/2 + 180 = 346.5 s, behaves as "at most 346 s".
- Distances and CO2 figures are `real`.

## Model

| member | source | states |
|---|---|---|
| `TransitMatch.ToleranceValues` | pyfiles/mass_transit_match_planner.py:118-175 | the tolerances, always taken from the 'bus' entries: walk margin 746 s, one-stop margin 333 s, their sum 1079 s, interval 3600 s, slowness 180 s; query shift 373 s |
| `TransitMatch.SameJourneyTimeThisWeekKeepsWeekday` | pyfiles/mass_transit_match_planner.py:61-66 | the moved time keeps the weekday and the time of day of the trip and lies in the Monday-based week of "today" |
| `TransitMatch.TimedeltaClockRoundTrip` | pyfiles/mass_transit_match_planner.py:289-293 | under a day, the "H:MM:SS" text of a start delta reads back as the same number of seconds |
| `TransitMatch.SkipRules` | pyfiles/mass_transit_match_planner.py:179-201 | an itinerary is passed over exactly when it does not have one transit leg, or is shorter by more than 180 s, or differs by more than 1079 s; the transit-leg rule is checked first; a passed-over itinerary contributes no match |
| `TransitMatch.InspectedItineraryMatch` | pyfiles/mass_transit_match_planner.py:227-243 | an inspected itinerary yields its transit leg as a match iff the leg's duration is within 333 s of the trip's and its start within 3600 s; `deltaStartPassed` is true iff the start delta is at most 346 s, and that flag does not block the match |
| `TransitMatch.PlannedTripSigns` | pyfiles/mass_transit_match_planner.py:180-182 | `deltaTsign` is "shorter" iff the plan is shorter than the trip, else empty; the start-delta text begins with '-' iff the leg starts before the trip, else '+', followed by the timedelta text |
| `TransitMatch.LegMatchesBound` | pyfiles/mass_transit_match_planner.py:227-260 | a leg that is not a transit leg never matches, so the legs yield no more matches than they have transit legs |
| `TransitMatch.ItineraryMatchesAtMostOne` | pyfiles/mass_transit_match_planner.py:189-296 | each itinerary contributes at most one match |
| `TransitMatch.AllMatchesCount` | pyfiles/mass_transit_match_planner.py:163-333 | there are never more matches than itineraries |
| `TransitMatch.AllMatchesWithinTolerance` | pyfiles/mass_transit_match_planner.py:229-289 | every recorded match starts within 3600 s of the trip, its duration differs by at most 1079 s, and its start delta is the absolute difference of the start times |
| `TransitMatch.BestMatchIndex` | pyfiles/mass_transit_match_planner.py:338-351 | the chosen index has the smallest start delta, and no earlier match has one as small (ties keep the earliest) |
| `TransitMatch.MatchResult` | pyfiles/mass_transit_match_planner.py:137-371 | without plan or itineraries: code = error id, or 0 without an error, and an empty result; otherwise code 1, match count = number of matches, a trip exactly when something matched, and that trip is the best match |
| `TransitMatch.ExampleAccepted` | pyfiles/mass_transit_match_planner.py:206-296 | a 770 s bus trip against one itinerary with a single line-18 bus leg leaving 25 s later is accepted, flagged as passed, with start text "+0:00:25" |
| `TransitMatch.ExampleTwoTransitLegs` | pyfiles/mass_transit_match_planner.py:189-194 | an itinerary with two transit legs is passed over: code 1, empty result |
| `TransitMatch.ExampleTooDifferent` | pyfiles/mass_transit_match_planner.py:199-201 | a 40-minute itinerary against a 770 s trip is passed over by the 1079 s rule |
| `TransitMatch.ExampleNoPlan` | pyfiles/mass_transit_match_planner.py:144-147 | a response without a plan returns the planner's error id, or 0 when there is no error object |
| `TransitMatch.CountTransitLegs` | pyfiles/mass_transit_match_planner.py:189-192 | the counting loop returns the number of legs flagged as transit |
| `TransitMatch.MatchLeg` | pyfiles/mass_transit_match_planner.py:206-296 | one leg's time checks and record building yield exactly the leg's specified match |
| `TransitMatch.MatchLegs` | pyfiles/mass_transit_match_planner.py:206-304 | the loop over an inspected itinerary's legs collects exactly the specified matches, in leg order |
| `TransitMatch.MatchItineraries` | pyfiles/mass_transit_match_planner.py:163-333 | the loop over the itineraries collects exactly the specified matches, and `matchcount` is their number |
| `TransitMatch.SelectBestMatch` | pyfiles/mass_transit_match_planner.py:338-351 | the min-scan returns the first index with the smallest start delta |
| `TransitMatch.MatchTriplegWithPublicTransport` | pyfiles/mass_transit_match_planner.py:91-371 | the whole matcher returns the code and result of the specification `Match` |
| `Scheduler.Midnight` | scheduler.py:108 | the midnight of a time is a multiple of a day, at most the time and less than a day before it |
| `Scheduler.RankedUsers` | scheduler.py:224-232 | the users with a ranked row appear in it with no repeats |
| `Scheduler.RankedUsersMembers` | scheduler.py:224-232 | a user is listed iff some row of the week with a non-null distance belongs to them |
| `Scheduler.SumWeek` | scheduler.py:221-231 | the per-user maps hold exactly the users with a non-null row of the week, with their summed distance and distance-weighted CO2 |
| `Scheduler.GenerateRankings` | scheduler.py:210-241 | the ranking job returns the specified rank rows, or the division by zero the source raises |
| `Scheduler.RankingsFailure` | scheduler.py:232-233 | the ranking raises exactly when a ranked user's distances sum to zero |
| `Scheduler.RankingsEmpty` | scheduler.py:240-241 | with no row of the week with a distance, nothing is inserted |
| `Scheduler.RankingsNumbered` | scheduler.py:234-239 | the inserted rows carry ranks 1..n in order, one per ranked user, all stamped with the day |
| `Scheduler.RankingsOnlyRanked` | scheduler.py:224-239 | every ranked user has a row of the week with a non-null distance |
| `Scheduler.RankingsCoverRanked` | scheduler.py:224-239 | every user with a row of the week with a non-null distance is ranked |
| `Scheduler.RankingsUsersDistinct` | scheduler.py:232-239 | no user is ranked twice |
| `Scheduler.RankingsOrdered` | scheduler.py:234 | a better rank never has a larger distance-weighted average CO2 |
| `Scheduler.AverageBounds` | scheduler.py:226-233 | with positive distances, a user's average lies between the smallest and the largest CO2 of their rows |
| `Scheduler.GlobalStatisticsForDay` | scheduler.py:182-207 | the per-day statistics loop returns the specified statistics row |
| `Scheduler.DayStatisticsFields` | scheduler.py:194-207 | the row carries the day, the sum of the truthy distances and the number of users of the week; the average is 0 when the distance is 0, else it times the distance gives the day's CO2 |
| `Scheduler.DayAverageBounds` | scheduler.py:196-203 | with positive distances, the day's average lies between the smallest and the largest CO2 of its rows |
| `Scheduler.DayIgnoresFalsy` | scheduler.py:197 | rows whose distance is None or 0 change neither the distance sum nor the CO2 sum |
| `Scheduler.DayRows` | scheduler.py:169-175 | the rows of a day are those of the table with a time in [day, day + 1 day) |
| `Scheduler.MinTime` | scheduler.py:157-159 | the earliest time of a non-empty table is one of its times and at most every other |
| `Scheduler.UpdateGlobalStatistics` | scheduler.py:155-179 | nothing when there is no start time; otherwise one item per consecutive day from the start while the day begins before the last midnight, each the statistics of that day |
| `Scheduler.MaxTimeFromTable` | scheduler.py:296-309 | the latest time when there is one, else 1971-01-01 00:00 |
| `Scheduler.AddDistance` | scheduler.py:132-147 | adding a distance to a category changes that category only |
| `Scheduler.IsEmptyDistances` | scheduler.py:119 | a rating is empty iff nothing was travelled in any category |
| `Scheduler.CategoryRules` | scheduler.py:132-147 | only the four known activities count; TRAIN, TRAM/SUBWAY and BUS in a vehicle are mass transit A, B and C; any other vehicle line is plain in-vehicle |
| `Scheduler.GetRatingsFromRows` | scheduler.py:102-152 | the loop over the points returns the specified day ratings |
| `Scheduler.RatingsWellFormed` | scheduler.py:105-121 | no points give no ratings; every rating is non-empty and is the user's; it starts at a midnight no earlier than the first point's day; the dates strictly increase |
| `Scheduler.StepGap` | scheduler.py:123-147 | a point more than the gap limit after the reference time becomes the reference; any other point leaves the reference time unchanged; within the current day a gap point adds nothing and closes nothing, and any other point adds the distance from the previous point, in kilometres, to its category when it has one |
| `Scheduler.StepNewDay` | scheduler.py:116-121 | a point a full day or more after the current date closes the open rating (kept only when non-empty) and opens the user's new rating at the point's midnight, holding nothing after a gap and otherwise only the point's own distance in its category |
| `Scheduler.ExampleSteadyWalk` | scheduler.py:123-126 | points 30 s apart with a 60 s gap limit: the fourth point counts as a gap, so only 2 of the three 1 km steps are rated |
| `Sorting.SortBy` | server.py:177 | the sort by a key returns a permutation of its input in non-decreasing key order |
| `Sorting.SortByStable` | server.py:177 | the sort is stable: for every key, the elements with that key keep their relative order |
| `Server.BatchChunks` | server.py:148-151 | every chunk holds 1 to 1024 points, all but the last exactly 1024, and there are ceil(n/1024) chunks |
| `Server.BatchChunksFlatten` | server.py:149-151 | the chunks together are the uploaded points, in order |
| `Server.BatchChunksSlice` | server.py:150-151 | chunk k is the slice starting at k·1024 |
| `Server.ParseActivities` | server.py:168-175 | every parsed guess comes from an uploaded guess whose type is in the type cache, with that type's id |
| `Server.ParseActivitiesCount` | server.py:171 | one parsed guess per uploaded guess whose type is known; the others are dropped |
| `Server.PreparedWithoutActivities` | server.py:164-165 | no `activityData` or no `activities` key gives no rows |
| `Server.PreparedNumberedDescending` | server.py:177-184 | the rows carry the given point id and ordinals 1..n, with confidences that never increase |
| `Server.PreparedPermutation` | server.py:168-184 | the rows are a rearrangement of the known guesses |
| `Server.PreparedStable` | server.py:177-184 | guesses of equal confidence keep their upload order in the rows |
| `Server.PreparedTypesKnown` | server.py:171-175 | each row's type id and confidence are those of an uploaded guess of known type |
| `Server.CsvBlock` | server.py:271-277 | the limit is always 10000; page 0 starts at 0, page p ≥ 1 at (p−1)·10000 |
| `Server.CsvBlocksTile` | server.py:271-277 | pages from 1 on tile the rows, so row r is on page r/10000 + 1 only; page 0 repeats page 1 |
| `Server.GenerateCsv` | server.py:403-415 | the fixed 11-column header, then one line per row |
| `Server.CsvLineRoundTrip` | server.py:409-415 | a data line read back, split at ';' and unquoted, gives each field's text, with NULL as empty, when no field contains ';' (there is no escaping) |
| `Server.CsvNullIsEmpty` | server.py:409-412 | a NULL field is written like an empty text |
| `Server.GenerateCsvWaypoints` | server.py:295-298 | the 3-column waypoint header, then one line per waypoint |
| `Server.WaypointLineDiffersOnNull` | server.py:295-298 | the waypoint export writes a row like the point export iff none of its fields is NULL (plain `str` writes `None`) |
| `Server.Compare` | server.py:24-26 | activities compare by confidence alone: negative, zero or positive as the first confidence is smaller, equal or larger |
| `Server.CompareProperties` | server.py:24-26 | the comparison is antisymmetric, and activities that differ only in type compare equal |
| `Server.Collect` | server.py:436-451 | at most the three ordinals 1..3 are looked up |
| `Server.CollectOrdinals` | server.py:436-449 | the activities found are those of ordinals 1..n; the lookups stop at the first missing row or NULL confidence |
| `Server.CollectActivities` | server.py:434-451 | the lookup loop returns the specified activities |
| `Server.GetActivityData` | server.py:429-454 | the activities found, sorted by descending confidence, stably |
| `Server.ActivityDataProperties` | server.py:436-453 | at most 3 activities, a rearrangement of those found, with confidences that never increase and equal confidences in ordinal order |
| `UserTrips.FirstWordCharacterization` | static/js/usertrips.js:33 | the mode is exactly the activity text up to its first space |
| `UserTrips.SlashSeparator` | static/js/usertrips.js:74-77 | the chosen separator is as long as " / " |
| `UserTrips.BindSlashUnchanged` | static/js/usertrips.js:71-73 | a label without " / " is shown unchanged |
| `UserTrips.BindSlashFirst` | static/js/usertrips.js:71-81 | only the first " / " is replaced, by "\xa0/ " iff the last word before it is shorter than the first word after it, else by " /\xa0"; the later separators stay " / " |
| `UserTrips.BindSlashLength` | static/js/usertrips.js:70-81 | binding the slash never changes a label's length |
| `UserTrips.GlyphProperties` | static/js/usertrips.js:35-53 | exactly the listed modes have a glyph (null otherwise, there is no default); WALKING and ON_FOOT share theirs, and no two other listed modes share one |
| `UserTrips.AddClasses` | static/js/usertrips.js:18-22 | adding classes keeps the old ones, adds every non-empty new one and nothing else |
| `UserTrips.RenderCellProperties` | static/js/usertrips.js:16-83 | every cell has its row's class and column span; a null cell is an empty "gap"; an activity cell shows the activity, has its mode as a class and holds the mode's glyph; a place cell shows its label with the slash bound, at the same length; a `false` place is a "move" cell holding an empty div |
| `UserTrips.RenderTrips` | static/js/usertrips.js:9-85 | a day without trips shows one "No trips." row; otherwise one rendered row per response row, cell by cell |
| `UserTrips.HashLastPiece` | static/js/usertrips.js:92 | the last piece of the hash split at '#' ends the hash, holds no '#', and is the whole hash or follows a '#' |
| `UserTrips.DateFromHashProperties` | static/js/usertrips.js:92-94 | an empty hash, or one ending in '#', selects today; any other selects the text after its last '#' |
| `UserTrips.DateFromHashExample` | static/js/usertrips.js:92-94 | the hash "#2016-01-25" selects 2016-01-25 |

## Left out

- The leg segmentation, leg reconciliation and ownership attachment described for this system are not part of this model: none of the source files modelled here contain them.
- The journey planner HTTP request (`HttpRequestWithGet`), the query string it sends (places, date, time, itinerary count, walk distance; the time is the trip start moved `LegStartShift` = 373 s earlier) and `retrieve_hsl_data`: network I/O. The matcher takes the decoded answer as input. A failed request decodes to an answer with neither plan nor error.
- Missing keys inside itineraries and legs (`duration`, `legs`, `transitLeg`, …) would raise `KeyError` in the source. So would an `error` object without an `id`. The model's datatypes always carry these keys, so these inputs cannot be represented.
- `int()` truncation of fractional leg durations: leg durations are whole seconds in the model.
- `int()` truncation of fractional activity confidences, both on upload and when read back: confidences are integers in the model.
- A NULL `average_co2` on a row with a non-NULL `total_distance` raises `TypeError` in the day statistics and in the weekly rankings. The model's `averageCo2` is always a number, so this input cannot be represented.
- `datetime.fromtimestamp` and `datetime.today()` work in the server's local time zone. The model counts days from the epoch without a time zone, and "today" and "now" are parameters.
- All `print` logging, including the second listing of the legs of a passed-over itinerary, and the unused `legsreviewed`/`legsmatched` bookkeeping.
- The route-based confirmation of a time match is not implemented in the source (it is always true). The model accepts every time match as the source does.
- `EnergyRating` and its `calculate_rating`/`get_data_dict` are not shown. The model keeps seven per-category distance accumulators and takes "empty" to mean that all of them are zero.
- `get_distance_between_coordinates` is a parameter of the ratings job. So is `MAX_POINT_TIME_DIFFERENCE`, because it lives in a constants module that is not shown. Parsing the GeoJSON point is not modelled: points carry their coordinates.
- `interpret_jore`: its regular expressions live in a constants module that is not shown.
- SQL queries, inserts, schema creation, token checks and Flask routes are database and HTTP plumbing. Query results are sequences of rows. The `WHERE` windows are written as predicates, and inserts are the returned lists.
- `Scheduler.GenerateRankings`: Python 2 iterates a dict in hash order, and the model iterates users in order of first appearance. This decides the order of users with equal averages only. Equal keys keep their order under Python's stable sort, so only the ranks of such ties can differ.
- `Scheduler.GlobalStatisticsForDay`: the weekly `COUNT(DISTINCT user_id)` is computed over the whole table passed in, ranking rows included, as the SQL does.
- `Server.CollectActivities`: only a NULL confidence raises the `TypeError` that ends the lookups. A NULL `activity_type_id` would raise it as well, one step earlier, and that case is not modelled.
- `data_post`, the loop that inserts each chunk and links activity rows to the returned row ids, depends on ids the database generates. Only its parts are modelled: the chunking and the per-point activity rows.
- `prepare_point`: float formatting of the coordinates and the millisecond to datetime conversion.
- The DOM building in the trip table is modelled as values: cells with classes, text and an icon. jQuery's event wiring and the JSON fetch are not modelled.
- JavaScript measures word lengths in UTF-16 code units. The model counts characters, and the two differ only for characters outside the Basic Multilingual Plane.
- The machine-learning, clustering, demo and map visualisation scripts.
- Where the design text and the code disagree, the model follows the code:
  - The design says the observed mode selects the tolerances, but the code always uses the 'bus' tolerances and takes no mode.
  - The design says a time match needs a start delta within min(333/2 + 180 s, interval), but the code accepts any start delta up to the 3600 s interval. The tighter bound only sets `deltaStartPassed`.
  - The design describes a 40-minute itinerary against a 13-minute trip as rejected by the slowness rule. That rule applies only to plans shorter than the trip, so the code rejects this itinerary by the 1079 s duration rule instead (`TransitMatch.ExampleTooDifferent`).
