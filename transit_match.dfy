/**
 * The transit-leg matcher: given one observed vehicle trip (start and end
 * time) and the journey planner's answer for it, find the planned ride that
 * the trip most likely was.
 *
 * Observed times are epoch microseconds (a Python `datetime`); the planner
 * gives epoch milliseconds and durations in whole seconds. The matcher works
 * in whole seconds throughout.
 */
module TransitMatch {
  import opened Common
  import Strings

  // ----- Tolerances -------------------------------------------------------

  /** Metres by which a mode change may be detected late. */
  const MaxModeDetectionDelay: int := 500
  /** Walking allowed to and from stops, sent with the planner query. */
  const MaxWalkDistance: int := MaxModeDetectionDelay * 2
  /** Itineraries asked from the planner. */
  const NumItineraries: int := 3
  /** Metres of position error, one detection delay at each end of the trip. */
  const MaxDError: int := MaxModeDetectionDelay * 2

  /** Slowest plausible speed per mode, metres per second. */
  const MinSpeeds: map<string, real> :=
    map["walk" := 1.34112, "bus" := 3.0, "tram" := 2.5, "train" := 5.0, "ferry" := 5.0]
  /** Longest gap between two departures per mode, minutes. */
  const MaxIntervals: map<string, int> := map["bus" := 60, "tram" := 30, "train" := 60, "ferry" := 60]
  /** Largest slowness per mode, minutes. */
  const MaxSlowness: map<string, int> := map["bus" := 3, "tram" := 3, "train" := 3, "ferry" := 5]

  /** Python 2 `round` of a non-negative real: halves go up. */
  function Round(x: real): int
  {
    (x + 0.5).Floor
  }

  /** Seconds by which the planner query starts before the observed trip. */
  const LegStartShift: int := Round(MaxModeDetectionDelay as real / MinSpeeds["walk"])
  /** Seconds of walking to cover the position error. */
  const MaxDeltaW: int := Round(MaxDError as real / MinSpeeds["walk"])
  /** Seconds of riding one stop more or less. The 'bus' speed is used whatever the mode. */
  const MaxDeltaB: int := Round(MaxDError as real / MinSpeeds["bus"])
  /** Largest accepted difference between the planned and observed total durations. */
  const MaxDeltaT: int := MaxDeltaW + MaxDeltaB
  /** Largest accepted start-time difference: the 'bus' departure interval. */
  const MaxI: int := 60 * MaxIntervals["bus"]
  /** Largest amount by which a plan may be faster than the observed trip: the 'bus' slowness. */
  const MaxDeltaSlowness: int := 60 * MaxSlowness["bus"]

  /** The tolerances in seconds. */
  lemma ToleranceValues()
    ensures LegStartShift == 373 && MaxDeltaW == 746 && MaxDeltaB == 333
    ensures MaxDeltaT == 1079 && MaxI == 3600 && MaxDeltaSlowness == 180
  {
    assert 500.0 / 1.34112 + 0.5 == 250000000.0 / 670560.0 + 0.5;
  }

  // ----- Planner response and match records -------------------------------

  /** One leg of a planned itinerary; times in epoch milliseconds, duration in seconds. */
  datatype PlannerLeg = PlannerLeg(
    mode: string, route: string, transitLeg: bool,
    duration: int, startTime: int, endTime: int)

  /** One planned itinerary; times in epoch milliseconds, duration in seconds. */
  datatype Itinerary = Itinerary(duration: int, startTime: int, endTime: int, legs: seq<PlannerLeg>)

  /** The `plan` object; `itineraries` may be missing. */
  datatype Plan = Plan(itineraries: Option<seq<Itinerary>>)

  /**
   * The decoded planner answer: `plan` and `error.id` may each be missing.
   * A failed request decodes to neither.
   */
  datatype PlannerResponse = PlannerResponse(plan: Option<Plan>, errorId: Option<int>)

  /** A planned ride accepted as a match; times in epoch seconds, deltas in seconds. */
  datatype PlannedTrip = PlannedTrip(
    start: int, end: int,                    // of the whole itinerary
    lineType: string, lineName: string,      // of the matched transit leg
    legStart: int, legEnd: int,
    deltaT: int, deltaTSign: string,
    deltaStartTime: int, deltaStartTimeStr: string, deltaStartPassed: bool)

  /** The matcher's answer: the best match, how many were found and where the best one is. */
  datatype TripMatchedWithPlannerResult =
    TripMatchedWithPlannerResult(trip: Option<PlannedTrip>, matchCount: nat, bestMatchIndex: nat)

  const EmptyResult := TripMatchedWithPlannerResult(None, 0, 0)

  // ----- Time helpers ------------------------------------------------------

  const MicrosPerSecond: int := 1_000_000
  const SecondsPerDay: int := 86400
  const MicrosPerDay: int := SecondsPerDay * MicrosPerSecond

  /** `t.replace(microsecond=0)`, in whole seconds. */
  function WholeSeconds(micros: int): int
  {
    micros / MicrosPerSecond
  }

  /** A planner timestamp in milliseconds, in whole seconds (Python 2 integer division). */
  function PlannerSeconds(millis: int): int
  {
    millis / 1000
  }

  function Abs(x: int): nat
  {
    if x < 0 then -x else x
  }

  // ----- find_same_journey_time_this_week ---------------------------------

  function DayNumber(t: int): int
  {
    t / MicrosPerDay
  }

  function TimeOfDay(t: int): int
  {
    t % MicrosPerDay
  }

  /** Python's `weekday()`: Monday is 0. Day 0, 1 January 1970, was a Thursday. */
  function Weekday(t: int): int
  {
    (DayNumber(t) + 3) % 7
  }

  /** The day number of the Monday of the week of `t`. */
  function WeekMonday(t: int): int
  {
    DayNumber(t) - Weekday(t)
  }

  /** The same weekday and time of day as `start`, in the week of `today`. */
  function SameJourneyTimeThisWeek(start: int, today: int): int
  {
    var day := DayNumber(today) + (Weekday(start) - Weekday(today));
    day * MicrosPerDay + TimeOfDay(start)
  }

  lemma DayParts(day: int, tod: int)
    requires 0 <= tod < MicrosPerDay
    ensures DayNumber(day * MicrosPerDay + tod) == day
    ensures TimeOfDay(day * MicrosPerDay + tod) == tod
  {
  }

  /** Weekday(day) depends only on the day number's residue. */
  lemma WeekdayShift(d: int, q: int, w: int)
    requires 0 <= w < 7 && d + 3 == 7 * q + w
    ensures (d + 3) % 7 == w
  {
  }

  /** The moved time keeps the weekday and the time of day and falls in today's week. */
  lemma SameJourneyTimeThisWeekKeepsWeekday(start: int, today: int)
    ensures var r := SameJourneyTimeThisWeek(start, today);
      && Weekday(r) == Weekday(start)
      && TimeOfDay(r) == TimeOfDay(start)
      && WeekMonday(r) == WeekMonday(today)
  {
    var r := SameJourneyTimeThisWeek(start, today);
    var ws, wt := Weekday(start), Weekday(today);
    var dt := DayNumber(today);
    var day := dt + (ws - wt);
    DayParts(day, TimeOfDay(start));
    var q := (dt + 3) / 7;
    assert dt + 3 == 7 * q + wt;
    assert day + 3 == 7 * q + ws;
    WeekdayShift(day, q, ws);
  }

  // ----- Rendering of deltas ----------------------------------------------

  function TwoDigits(n: nat): string
    requires n < 100
  {
    [Strings.DigitChar(n / 10), Strings.DigitChar(n % 10)]
  }

  /** Python's `str(timedelta(seconds=n))` for `n >= 0`: "H:MM:SS", after "D day(s), " when a day or more. */
  function TimedeltaString(seconds: nat): string
  {
    var days := seconds / SecondsPerDay;
    var rest := seconds % SecondsPerDay;
    var clock := Strings.DecimalString(rest / 3600) + ":" + TwoDigits(rest / 60 % 60) + ":" + TwoDigits(rest % 60);
    if days == 0 then clock
    else Strings.DecimalString(days) + (if days == 1 then " day, " else " days, ") + clock
  }

  /** "H:MM:SS" with an hours field of one or more digits. */
  predicate IsClock(s: string)
  {
    && |s| >= 7
    && Strings.IsDigits(s[..|s| - 6]) && s[|s| - 6] == ':'
    && Strings.IsDigits(s[|s| - 5..|s| - 3]) && s[|s| - 3] == ':'
    && Strings.IsDigits(s[|s| - 2..])
  }

  /** The number of seconds an "H:MM:SS" text denotes. */
  function ClockValue(s: string): int
    requires IsClock(s)
  {
    Strings.DecimalValue(s[..|s| - 6]) * 3600
      + Strings.DecimalValue(s[|s| - 5..|s| - 3]) * 60
      + Strings.DecimalValue(s[|s| - 2..])
  }

  lemma TwoDigitsValue(n: nat)
    requires n < 100
    ensures Strings.IsDigits(TwoDigits(n)) && Strings.DecimalValue(TwoDigits(n)) == n
  {
    var t := TwoDigits(n);
    assert t[..1] == [Strings.DigitChar(n / 10)];
    assert t[..1][..0] == [];
  }

  /** Under a day, the rendering reads back as the same number of seconds. */
  lemma TimedeltaClockRoundTrip(seconds: nat)
    requires seconds < SecondsPerDay
    ensures IsClock(TimedeltaString(seconds)) && ClockValue(TimedeltaString(seconds)) == seconds
  {
    var h, m, s := seconds / 3600, seconds / 60 % 60, seconds % 60;
    ClockArithmetic(seconds);
    var hs, ms, ss := Strings.DecimalString(h), TwoDigits(m), TwoDigits(s);
    assert TimedeltaString(seconds) == hs + (":" + ms + ":" + ss);
    Strings.DecimalRoundTrip(h);
    TwoDigitsValue(m);
    TwoDigitsValue(s);
    ClockParts(hs, ms, ss);
  }

  lemma ClockArithmetic(seconds: nat)
    requires seconds < SecondsPerDay
    ensures seconds / SecondsPerDay == 0 && seconds % SecondsPerDay == seconds
    ensures (seconds / 3600) * 3600 + (seconds / 60 % 60) * 60 + seconds % 60 == seconds
  {
    var q, s := seconds / 60, seconds % 60;
    assert seconds == 60 * q + s;
    var h, m := q / 60, q % 60;
    assert q == 60 * h + m;
    assert seconds == 3600 * h + (60 * m + s);
    assert 0 <= 60 * m + s < 3600;
    assert seconds / 3600 == h;
  }

  lemma ClockParts(hs: string, ms: string, ss: string)
    requires Strings.IsDigits(hs) && Strings.IsDigits(ms) && Strings.IsDigits(ss)
    requires |hs| > 0 && |ms| == 2 && |ss| == 2
    ensures var r := hs + (":" + ms + ":" + ss);
      IsClock(r) && ClockValue(r) == Strings.DecimalValue(hs) * 3600 + Strings.DecimalValue(ms) * 60 + Strings.DecimalValue(ss)
  {
    var r := hs + (":" + ms + ":" + ss);
    ClockSlices(hs, ms, ss);
    assert IsClock(r);
  }

  /** Where the three fields of "H:MM:SS" sit. */
  lemma ClockSlices(hs: string, ms: string, ss: string)
    requires |ms| == 2 && |ss| == 2
    ensures var r := hs + (":" + ms + ":" + ss);
      && |r| == |hs| + 6
      && r[..|r| - 6] == hs && r[|r| - 6] == ':'
      && r[|r| - 5..|r| - 3] == ms && r[|r| - 3] == ':'
      && r[|r| - 2..] == ss
  {
    var t := ":" + ms + ":" + ss;
    assert t == [':', ms[0], ms[1], ':', ss[0], ss[1]];
    var r := hs + t;
    assert r[..|hs|] == hs;
  }

  // ----- The matching rules, as specification -----------------------------

  /** How many legs of a planned itinerary are transit legs. */
  function TransitLegCount(legs: seq<PlannerLeg>): nat
  {
    if legs == [] then 0
    else TransitLegCount(legs[..|legs| - 1]) + (if legs[|legs| - 1].transitLeg then 1 else 0)
  }

  /** Why an itinerary is passed over, checked in this order, or that its legs are inspected. */
  datatype Verdict = NotOneTransitLeg | TooFast | TooDifferent | Inspect

  function ItineraryVerdict(itin: Itinerary, tripDuration: int): Verdict
  {
    var deltaT := Abs(itin.duration - tripDuration);
    if TransitLegCount(itin.legs) != 1 then NotOneTransitLeg
    else if itin.duration < tripDuration && deltaT > MaxDeltaSlowness then TooFast
    else if deltaT > MaxDeltaT then TooDifferent
    else Inspect
  }

  /** The start-time check that only sets `deltaStartPassed`: half of MaxDeltaB plus the slowness. */
  predicate StartPassed(deltaStartTime: int)
  {
    !(deltaStartTime as real > MaxDeltaB as real / 2.0 + MaxDeltaSlowness as real)
  }

  /** The record of a matched leg of an itinerary. */
  function PlannedTripFor(itin: Itinerary, leg: PlannerLeg, tripStart: int, tripDuration: int): PlannedTrip
  {
    var legStart := PlannerSeconds(leg.startTime);
    var deltaStartTime := Abs(legStart - tripStart);
    PlannedTrip(
      PlannerSeconds(itin.startTime), PlannerSeconds(itin.endTime),
      leg.mode, leg.route,
      legStart, PlannerSeconds(leg.endTime),
      Abs(itin.duration - tripDuration), if itin.duration < tripDuration then "shorter" else "",
      deltaStartTime,
      (if legStart < tripStart then "-" else "+") + TimedeltaString(deltaStartTime),
      StartPassed(deltaStartTime) && deltaStartTime <= MaxI)
  }

  /** The match a leg yields: a transit leg whose duration and start time are both close enough. */
  function LegMatch(itin: Itinerary, leg: PlannerLeg, tripStart: int, tripDuration: int): Option<PlannedTrip>
  {
    if leg.transitLeg
       && Abs(tripDuration - leg.duration) <= MaxDeltaB
       && Abs(PlannerSeconds(leg.startTime) - tripStart) <= MaxI
    then Some(PlannedTripFor(itin, leg, tripStart, tripDuration))
    else None
  }

  /** The matches the given legs of an inspected itinerary yield, in leg order. */
  function LegMatches(itin: Itinerary, legs: seq<PlannerLeg>, tripStart: int, tripDuration: int): seq<PlannedTrip>
  {
    if legs == [] then []
    else
      var m := LegMatch(itin, legs[|legs| - 1], tripStart, tripDuration);
      LegMatches(itin, legs[..|legs| - 1], tripStart, tripDuration) + (if m.Some? then [m.value] else [])
  }

  /** Extending the legs looked at by one leg appends that leg's match, if any. */
  lemma LegMatchesPrefix(itin: Itinerary, legs: seq<PlannerLeg>, j: nat, tripStart: int, tripDuration: int)
    requires j < |legs|
    ensures var m := LegMatch(itin, legs[j], tripStart, tripDuration);
      LegMatches(itin, legs[..j + 1], tripStart, tripDuration)
        == LegMatches(itin, legs[..j], tripStart, tripDuration) + (if m.Some? then [m.value] else [])
  {
    assert legs[..j + 1][..j] == legs[..j];
  }

  /** The matches one itinerary contributes. */
  function ItineraryMatches(itin: Itinerary, tripStart: int, tripDuration: int): seq<PlannedTrip>
  {
    if ItineraryVerdict(itin, tripDuration) == Inspect then LegMatches(itin, itin.legs, tripStart, tripDuration)
    else []
  }

  /** All matches, itinerary by itinerary, in the planner's order. */
  function AllMatches(itins: seq<Itinerary>, tripStart: int, tripDuration: int): seq<PlannedTrip>
  {
    if itins == [] then []
    else AllMatches(itins[..|itins| - 1], tripStart, tripDuration) + ItineraryMatches(itins[|itins| - 1], tripStart, tripDuration)
  }

  /** `k` is the first index of a match with the smallest start-time difference. */
  predicate IsBestIndex(matches: seq<PlannedTrip>, k: int)
  {
    && 0 <= k < |matches|
    && (forall j :: 0 <= j < |matches| ==> matches[k].deltaStartTime <= matches[j].deltaStartTime)
    && (forall j :: 0 <= j < k ==> matches[j].deltaStartTime > matches[k].deltaStartTime)
  }

  /** The best match, scanning left to right and moving only on a strictly smaller difference. */
  function BestMatchIndex(matches: seq<PlannedTrip>): (k: nat)
    requires |matches| > 0
    ensures IsBestIndex(matches, k)
  {
    if |matches| == 1 then 0
    else
      var front := matches[..|matches| - 1];
      var k := BestMatchIndex(front);
      assert forall j :: 0 <= j < |front| ==> front[j] == matches[j];
      if matches[|matches| - 1].deltaStartTime < matches[k].deltaStartTime then |matches| - 1 else k
  }

  /** The itineraries of a response, when it has a plan with an itinerary list. */
  function ResponseItineraries(response: PlannerResponse): Option<seq<Itinerary>>
  {
    if response.plan.None? then None else response.plan.value.itineraries
  }

  /** The whole matcher as a function: the status code and the result. */
  function Match(response: PlannerResponse, tripStartTime: int, tripEndTime: int): (int, TripMatchedWithPlannerResult)
  {
    if ResponseItineraries(response).None? then
      (if response.errorId.Some? then response.errorId.value else 0, EmptyResult)
    else
      var tripStart := WholeSeconds(tripStartTime);
      var tripDuration := WholeSeconds(tripEndTime) - tripStart;
      var matches := AllMatches(response.plan.value.itineraries.value, tripStart, tripDuration);
      if |matches| == 0 then (1, EmptyResult)
      else
        var best := BestMatchIndex(matches);
        (1, TripMatchedWithPlannerResult(Some(matches[best]), |matches|, best))
  }


  // ----- Properties of the matching rules ----------------------------------

  /**
   * Without itineraries the code is the planner's error id (0 without one)
   * and nothing matches; otherwise the code is 1, every match is counted,
   * there are no more matches than itineraries, and a trip is reported
   * exactly when something matched: the first one with the smallest
   * start-time difference.
   */
  lemma MatchResult(response: PlannerResponse, tripStartTime: int, tripEndTime: int)
    ensures var (code, result) := Match(response, tripStartTime, tripEndTime);
      && (ResponseItineraries(response).None? ==>
            result == EmptyResult && code == (if response.errorId.Some? then response.errorId.value else 0))
      && (ResponseItineraries(response).Some? ==>
            var itins := ResponseItineraries(response).value;
            var tripStart := WholeSeconds(tripStartTime);
            var matches := AllMatches(itins, tripStart, WholeSeconds(tripEndTime) - tripStart);
            && code == 1
            && result.matchCount == |matches| <= |itins|
            && (result.trip.Some? <==> |matches| > 0)
            && (result.trip.Some? ==>
                  IsBestIndex(matches, result.bestMatchIndex) && result.trip.value == matches[result.bestMatchIndex]))
  {
    if ResponseItineraries(response).Some? {
      var tripStart := WholeSeconds(tripStartTime);
      AllMatchesCount(ResponseItineraries(response).value, tripStart, WholeSeconds(tripEndTime) - tripStart);
    }
  }

  /** A leg that is not a transit leg never matches, so the matches never outnumber the transit legs. */
  lemma {:induction false} LegMatchesBound(itin: Itinerary, legs: seq<PlannerLeg>, tripStart: int, tripDuration: int)
    ensures |LegMatches(itin, legs, tripStart, tripDuration)| <= TransitLegCount(legs)
  {
    if legs != [] {
      LegMatchesBound(itin, legs[..|legs| - 1], tripStart, tripDuration);
    }
  }

  /** Each itinerary contributes at most one match. */
  lemma ItineraryMatchesAtMostOne(itin: Itinerary, tripStart: int, tripDuration: int)
    ensures |ItineraryMatches(itin, tripStart, tripDuration)| <= 1
  {
    LegMatchesBound(itin, itin.legs, tripStart, tripDuration);
  }

  /** There are never more matches than itineraries. */
  lemma {:induction false} AllMatchesCount(itins: seq<Itinerary>, tripStart: int, tripDuration: int)
    ensures |AllMatches(itins, tripStart, tripDuration)| <= |itins|
  {
    if itins != [] {
      AllMatchesCount(itins[..|itins| - 1], tripStart, tripDuration);
      ItineraryMatchesAtMostOne(itins[|itins| - 1], tripStart, tripDuration);
    }
  }

  /**
   * The three rules, in order, that pass over an itinerary without looking
   * at its legs; an itinerary passed over contributes no match.
   */
  lemma SkipRules(itin: Itinerary, tripDuration: int, tripStart: int)
    ensures var deltaT := Abs(itin.duration - tripDuration);
      ItineraryVerdict(itin, tripDuration) != Inspect <==>
        || TransitLegCount(itin.legs) != 1
        || (itin.duration < tripDuration && deltaT > 180)
        || deltaT > 1079
    ensures TransitLegCount(itin.legs) != 1 ==> ItineraryVerdict(itin, tripDuration) == NotOneTransitLeg
    ensures ItineraryVerdict(itin, tripDuration) != Inspect ==> ItineraryMatches(itin, tripStart, tripDuration) == []
  {
    ToleranceValues();
  }

  lemma {:induction false} TransitLegCountPositive(legs: seq<PlannerLeg>, k: int)
    requires 0 <= k < |legs| && legs[k].transitLeg
    ensures TransitLegCount(legs) >= 1
  {
    if k < |legs| - 1 {
      TransitLegCountPositive(legs[..|legs| - 1], k);
    }
  }

  lemma {:induction false} NoTransitLegNoMatch(itin: Itinerary, legs: seq<PlannerLeg>, tripStart: int, tripDuration: int)
    requires TransitLegCount(legs) == 0
    ensures LegMatches(itin, legs, tripStart, tripDuration) == []
  {
    if legs != [] {
      NoTransitLegNoMatch(itin, legs[..|legs| - 1], tripStart, tripDuration);
    }
  }

  /** With exactly one transit leg, at index `k`, the matches of the legs are that leg's match, if any. */
  lemma {:induction false} OnlyTransitLegMatches(itin: Itinerary, legs: seq<PlannerLeg>, k: int, tripStart: int, tripDuration: int)
    requires TransitLegCount(legs) == 1
    requires 0 <= k < |legs| && legs[k].transitLeg
    ensures var m := LegMatch(itin, legs[k], tripStart, tripDuration);
      LegMatches(itin, legs, tripStart, tripDuration) == if m.Some? then [m.value] else []
  {
    var front := legs[..|legs| - 1];
    if k == |legs| - 1 {
      NoTransitLegNoMatch(itin, front, tripStart, tripDuration);
    } else {
      assert front[k] == legs[k];
      TransitLegCountPositive(front, k);
      OnlyTransitLegMatches(itin, front, k, tripStart, tripDuration);
    }
  }

  /**
   * An itinerary whose legs are inspected yields its one transit leg as a
   * match exactly when that leg's duration is within 333 s of the observed
   * duration and its start within 3600 s of the observed start; the tighter
   * 346.5 s start check only decides `deltaStartPassed`.
   */
  lemma InspectedItineraryMatch(itin: Itinerary, k: int, tripStart: int, tripDuration: int)
    requires ItineraryVerdict(itin, tripDuration) == Inspect
    requires 0 <= k < |itin.legs| && itin.legs[k].transitLeg
    ensures var leg := itin.legs[k];
      var deltaStart := Abs(PlannerSeconds(leg.startTime) - tripStart);
      var matches := ItineraryMatches(itin, tripStart, tripDuration);
      && (|matches| == 1 <==> Abs(tripDuration - leg.duration) <= 333 && deltaStart <= 3600)
      && (|matches| == 0 <==> !(Abs(tripDuration - leg.duration) <= 333 && deltaStart <= 3600))
      && (|matches| == 1 ==>
            && matches[0] == PlannedTripFor(itin, leg, tripStart, tripDuration)
            && matches[0].lineType == leg.mode && matches[0].lineName == leg.route
            && matches[0].deltaStartTime == deltaStart
            && (matches[0].deltaStartPassed <==> deltaStart <= 346))
  {
    ToleranceValues();
    OnlyTransitLegMatches(itin, itin.legs, k, tripStart, tripDuration);
  }

  /**
   * The sign fields of a recorded match: "shorter" exactly when the plan is
   * shorter than the observed trip, and a leading '-' exactly when the leg
   * starts before the observed start, followed by the difference as Python
   * prints a timedelta.
   */
  lemma PlannedTripSigns(itin: Itinerary, leg: PlannerLeg, tripStart: int, tripDuration: int)
    ensures var m := PlannedTripFor(itin, leg, tripStart, tripDuration);
      && (m.deltaTSign == "shorter" <==> itin.duration < tripDuration)
      && (m.deltaTSign != "shorter" ==> m.deltaTSign == "")
      && m.deltaT == Abs(itin.duration - tripDuration)
      && |m.deltaStartTimeStr| > 0
      && (m.deltaStartTimeStr[0] == '-' <==> m.legStart < tripStart)
      && (m.deltaStartTimeStr[0] != '-' ==> m.deltaStartTimeStr[0] == '+')
      && m.deltaStartTimeStr[1..] == TimedeltaString(m.deltaStartTime)
      && m.deltaStartTime == Abs(m.legStart - tripStart)
  {
    var m := PlannedTripFor(itin, leg, tripStart, tripDuration);
    var sign := if m.legStart < tripStart then "-" else "+";
    assert m.deltaStartTimeStr == sign + TimedeltaString(m.deltaStartTime);
    assert m.deltaStartTimeStr[0] == sign[0];
  }

  /** Every recorded match passed the duration and start-time tolerances. */
  lemma {:induction false} AllMatchesWithinTolerance(itins: seq<Itinerary>, tripStart: int, tripDuration: int)
    ensures forall m :: m in AllMatches(itins, tripStart, tripDuration) ==>
      m.deltaStartTime <= 3600 && m.deltaT <= 1079 && m.deltaStartTime == Abs(m.legStart - tripStart)
  {
    ToleranceValues();
    if itins != [] {
      AllMatchesWithinTolerance(itins[..|itins| - 1], tripStart, tripDuration);
      var itin := itins[|itins| - 1];
      LegMatchesWithinTolerance(itin, itin.legs, tripStart, tripDuration);
    }
  }

  lemma {:induction false} LegMatchesWithinTolerance(itin: Itinerary, legs: seq<PlannerLeg>, tripStart: int, tripDuration: int)
    ensures forall m :: m in LegMatches(itin, legs, tripStart, tripDuration) ==>
      m.deltaStartTime <= MaxI && m.deltaT == Abs(itin.duration - tripDuration)
      && m.deltaStartTime == Abs(m.legStart - tripStart)
  {
    if legs != [] {
      LegMatchesWithinTolerance(itin, legs[..|legs| - 1], tripStart, tripDuration);
    }
  }

  // ----- Worked examples ----------------------------------------------------

  /** Observed bus trip on 25 January 2016, 12:20:35.828 to 12:33:25.754 (770 s once truncated). */
  const ExampleStart: int := 1453724435828000
  const ExampleEnd: int := 1453725205754000

  /** A bus leg of line 18 leaving at 12:21:00 and riding 770 s. */
  const ExampleBusLeg := PlannerLeg("BUS", "18", true, 770, 1453724460000, 1453725230000)

  /** With a single itinerary, the matches are that itinerary's. */
  lemma OneItinerary(itin: Itinerary, tripStart: int, tripDuration: int)
    ensures AllMatches([itin], tripStart, tripDuration) == ItineraryMatches(itin, tripStart, tripDuration)
  {
    assert [itin][..0] == [];
  }

  /** With a single leg, the matches are that leg's match, if any. */
  lemma OneLeg(itin: Itinerary, leg: PlannerLeg, tripStart: int, tripDuration: int)
    ensures TransitLegCount([leg]) == if leg.transitLeg then 1 else 0
    ensures var m := LegMatch(itin, leg, tripStart, tripDuration);
      LegMatches(itin, [leg], tripStart, tripDuration) == if m.Some? then [m.value] else []
  {
    assert [leg][..0] == [];
  }

  /** The example trip lasts 770 s and starts 25 s before the example bus leg. */
  lemma ExampleTimes()
    ensures WholeSeconds(ExampleStart) == 1453724435
    ensures WholeSeconds(ExampleEnd) - WholeSeconds(ExampleStart) == 770
    ensures PlannerSeconds(ExampleBusLeg.startTime) - WholeSeconds(ExampleStart) == 25
  {
  }

  /** One itinerary with that single bus leg is accepted, 25 s after the observed start. */
  lemma ExampleAccepted()
    ensures var response := PlannerResponse(Some(Plan(Some([Itinerary(770, 1453724460000, 1453725230000, [ExampleBusLeg])]))), None);
      var (code, result) := Match(response, ExampleStart, ExampleEnd);
      && code == 1 && result.matchCount == 1 && result.trip.Some?
      && result.trip.value.lineName == "18" && result.trip.value.deltaStartTime == 25
      && result.trip.value.deltaStartPassed && result.trip.value.deltaStartTimeStr == "+0:00:25"
  {
    ToleranceValues();
    ExampleTimes();
    var itin := Itinerary(770, 1453724460000, 1453725230000, [ExampleBusLeg]);
    var tripStart, tripDuration := WholeSeconds(ExampleStart), 770;
    OneItinerary(itin, tripStart, tripDuration);
    OneLeg(itin, ExampleBusLeg, tripStart, tripDuration);
    assert ItineraryVerdict(itin, tripDuration) == Inspect;
    var trip := PlannedTripFor(itin, ExampleBusLeg, tripStart, tripDuration);
    assert LegMatch(itin, ExampleBusLeg, tripStart, tripDuration) == Some(trip);
    assert trip.deltaStartTime == 25;
    ExampleDeltaText();
    assert AllMatches([itin], tripStart, tripDuration) == [trip];
  }

  /** A start 25 s late renders as "0:00:25". */
  lemma ExampleDeltaText()
    ensures TimedeltaString(25) == "0:00:25"
  {
    assert 25 / SecondsPerDay == 0 && 25 % SecondsPerDay == 25;
    assert 25 / 3600 == 0 && 25 / 60 % 60 == 0 && 25 % 60 == 25;
    assert Strings.DecimalString(0) == "0";
    assert TwoDigits(0) == "00" && TwoDigits(25) == "25";
  }

  /** The same itinerary with a second transit leg is passed over: no match. */
  lemma ExampleTwoTransitLegs()
    ensures var itin := Itinerary(770, 1453724460000, 1453725230000, [ExampleBusLeg, ExampleBusLeg]);
      var response := PlannerResponse(Some(Plan(Some([itin]))), None);
      Match(response, ExampleStart, ExampleEnd) == (1, EmptyResult)
  {
    var itin := Itinerary(770, 1453724460000, 1453725230000, [ExampleBusLeg, ExampleBusLeg]);
    OneLeg(itin, ExampleBusLeg, 0, 0);
    assert itin.legs[..1] == [ExampleBusLeg];
    assert TransitLegCount(itin.legs) == 2;
    OneItinerary(itin, WholeSeconds(ExampleStart), WholeSeconds(ExampleEnd) - WholeSeconds(ExampleStart));
  }

  /** A 40-minute itinerary against the 13-minute trip differs by more than 1079 s: no match. */
  lemma ExampleTooDifferent()
    ensures var itin := Itinerary(2400, 1453724460000, 1453726860000, [ExampleBusLeg]);
      var response := PlannerResponse(Some(Plan(Some([itin]))), None);
      ItineraryVerdict(itin, 770) == TooDifferent && Match(response, ExampleStart, ExampleEnd) == (1, EmptyResult)
  {
    ToleranceValues();
    ExampleTimes();
    var itin := Itinerary(2400, 1453724460000, 1453726860000, [ExampleBusLeg]);
    OneLeg(itin, ExampleBusLeg, 0, 0);
    OneItinerary(itin, WholeSeconds(ExampleStart), 770);
  }

  /** With no plan the code is the planner's error id, or 0 without one, and the result is empty. */
  lemma ExampleNoPlan(errorId: int)
    ensures Match(PlannerResponse(None, Some(errorId)), ExampleStart, ExampleEnd) == (errorId, EmptyResult)
    ensures Match(PlannerResponse(Some(Plan(None)), None), ExampleStart, ExampleEnd) == (0, EmptyResult)
  {
  }

  // ----- The matcher ------------------------------------------------------

  /** Counts the transit legs of an itinerary. */
  method CountTransitLegs(legs: seq<PlannerLeg>) returns (transitLegsCount: nat)
    ensures transitLegsCount == TransitLegCount(legs)
    ensures transitLegsCount <= |legs|
  {
    transitLegsCount := 0;
    var j := 0;
    while j < |legs|
      invariant 0 <= j <= |legs|
      invariant transitLegsCount == TransitLegCount(legs[..j]) <= j
    {
      assert legs[..j + 1][..j] == legs[..j];
      if legs[j].transitLeg {
        transitLegsCount := transitLegsCount + 1;
      }
      j := j + 1;
    }
    assert legs[..|legs|] == legs;
  }

  /**
   * Checks one leg of an inspected itinerary by time. A time match is
   * accepted as it is: the route-based check is not implemented.
   */
  method MatchLeg(itin: Itinerary, leg: PlannerLeg, tripStart: int, tripDuration: int) returns (m: Option<PlannedTrip>)
    ensures m == LegMatch(itin, leg, tripStart, tripDuration)
  {
    var matchedByTime := false;
    var deltaStartTime := 0;
    var deltaStartPassed := false;
    if leg.transitLeg {
      var deltaTransitLeg := Abs(tripDuration - leg.duration);
      if deltaTransitLeg <= MaxDeltaB {
        deltaStartTime := Abs(PlannerSeconds(leg.startTime) - tripStart);
        deltaStartPassed := true;
        if deltaStartTime as real > MaxDeltaB as real / 2.0 + MaxDeltaSlowness as real {
          deltaStartPassed := false;
        }
        if deltaStartTime > MaxI {
          deltaStartPassed := false;
        } else {
          matchedByTime := true;
        }
      }
    }
    var matchedByRoute := matchedByTime;
    m := None;
    if matchedByTime && matchedByRoute {
      var plannedMatch := PlannedTripFor(itin, leg, tripStart, tripDuration);
      assert plannedMatch.deltaStartPassed == deltaStartPassed;
      m := Some(plannedMatch);
    }
  }

  /** Goes through the legs of an inspected itinerary and records each leg matched by time. */
  method MatchLegs(itin: Itinerary, tripStart: int, tripDuration: int) returns (matches: seq<PlannedTrip>)
    ensures matches == LegMatches(itin, itin.legs, tripStart, tripDuration)
  {
    matches := [];
    var j := 0;
    while j < |itin.legs|
      invariant 0 <= j <= |itin.legs|
      invariant matches == LegMatches(itin, itin.legs[..j], tripStart, tripDuration)
    {
      var m := MatchLeg(itin, itin.legs[j], tripStart, tripDuration);
      LegMatchesPrefix(itin, itin.legs, j, tripStart, tripDuration);
      if m.Some? {
        matches := matches + [m.value];
      }
      j := j + 1;
    }
    assert itin.legs[..|itin.legs|] == itin.legs;
  }

  /** The min-scan over the matches: the first one with the smallest start-time difference. */
  method SelectBestMatch(plannedMatches: seq<PlannedTrip>) returns (bestMatchIndex: nat)
    requires |plannedMatches| > 0
    ensures IsBestIndex(plannedMatches, bestMatchIndex)
    ensures bestMatchIndex == BestMatchIndex(plannedMatches)
  {
    bestMatchIndex := 0;
    var minDeltaStartTime := plannedMatches[0].deltaStartTime;
    var matchIndex := 0;
    while matchIndex < |plannedMatches|
      invariant 0 <= matchIndex <= |plannedMatches|
      invariant 0 <= bestMatchIndex < |plannedMatches|
      invariant minDeltaStartTime == plannedMatches[bestMatchIndex].deltaStartTime
      invariant matchIndex == 0 ==> bestMatchIndex == 0
      invariant matchIndex > 0 ==> bestMatchIndex == BestMatchIndex(plannedMatches[..matchIndex])
    {
      assert plannedMatches[..matchIndex + 1][..matchIndex] == plannedMatches[..matchIndex];
      if plannedMatches[matchIndex].deltaStartTime < minDeltaStartTime {
        minDeltaStartTime := plannedMatches[matchIndex].deltaStartTime;
        bestMatchIndex := matchIndex;
      }
      matchIndex := matchIndex + 1;
    }
    assert plannedMatches[..|plannedMatches|] == plannedMatches;
  }


  /**
   * Matches the observed trip against the planner's itineraries: counts
   * transit legs, passes over itineraries by the three rules, time-matches
   * the legs of the others, collects the matches and picks the best one.
   * A time match is accepted without a route check.
   */
  method MatchTriplegWithPublicTransport(response: PlannerResponse, tripStartTime: int, tripEndTime: int)
    returns (code: int, result: TripMatchedWithPlannerResult)
    ensures (code, result) == Match(response, tripStartTime, tripEndTime)
  {
    var tripStart := WholeSeconds(tripStartTime);
    var tripEnd := WholeSeconds(tripEndTime);
    var tripDuration := tripEnd - tripStart;

    if response.plan.None? || response.plan.value.itineraries.None? {
      if response.errorId.Some? {
        return response.errorId.value, EmptyResult;
      } else {
        return 0, EmptyResult;
      }
    }

    var itins := response.plan.value.itineraries.value;
    var plannedMatches, matchCount := MatchItineraries(itins, tripStart, tripDuration);

    var bestMatchIndex := 0;
    if |plannedMatches| > 0 {
      bestMatchIndex := SelectBestMatch(plannedMatches);
    }

    if |plannedMatches| > 0 {
      result := TripMatchedWithPlannerResult(Some(plannedMatches[bestMatchIndex]), matchCount, bestMatchIndex);
    } else {
      result := EmptyResult;
    }
    code := 1;
  }

  /**
   * The loop over the itineraries: passes over those the three rules reject,
   * matches the legs of the others and counts the matches.
   */
  method MatchItineraries(itins: seq<Itinerary>, tripStart: int, tripDuration: int)
    returns (plannedMatches: seq<PlannedTrip>, matchCount: nat)
    ensures plannedMatches == AllMatches(itins, tripStart, tripDuration)
    ensures matchCount == |plannedMatches|
  {
    var itinIndex := 0;
    matchCount := 0;
    plannedMatches := [];
    while itinIndex < |itins|
      invariant 0 <= itinIndex <= |itins|
      invariant plannedMatches == AllMatches(itins[..itinIndex], tripStart, tripDuration)
      invariant matchCount == |plannedMatches|
    {
      var itin := itins[itinIndex];
      var deltaT := Abs(itin.duration - tripDuration);

      var transitLegsCount := CountTransitLegs(itin.legs);

      ghost var before := plannedMatches;
      if transitLegsCount != 1 {
        // multi-leg (or walk-only) itineraries are not supported
      } else if itin.duration < tripDuration && deltaT > MaxDeltaSlowness {
        // the plan is implausibly faster than the observed trip
      } else if deltaT > MaxDeltaT {
        // the durations differ too much
      } else {
        var legMatches := MatchLegs(itin, tripStart, tripDuration);
        matchCount := matchCount + |legMatches|;
        plannedMatches := plannedMatches + legMatches;
      }
      assert plannedMatches == before + ItineraryMatches(itin, tripStart, tripDuration);
      assert itins[..itinIndex + 1][..itinIndex] == itins[..itinIndex];
      itinIndex := itinIndex + 1;
    }
    assert itins[..|itins|] == itins;
  }

}
