/**
 * The single-light backend with exit hysteresis (backend_fastapi.py): one traffic light at a
 * fixed position, a global detection range, and per-ambulance in-range and emergency flags.
 * Each accepted report emits exactly one `signal_update`, chosen by the ambulance's transition
 * across the range boundary.
 */
module HysteresisLight {
  import opened Basics
  import opened Json
  import opened Signals

  /** `FIXED_DETECTION_RANGE` and `HYSTERESIS_METERS` with their environment variables unset. */
  const DefaultRange: real := 50.0
  const DefaultHysteresis: real := 5.0

  /** The server state: the two settings and the `_last_in_range` and `_is_emergency` dicts. */
  datatype Light = Light(
    range: real,
    hysteresis: real,
    lastInRange: map<string, bool>,
    isEmergency: map<string, bool>)

  const Initial: Light := Light(DefaultRange, DefaultHysteresis, map[], map[])

  /**
   * The compass bearing in degrees from the first (lat, lon) point to the second, or `None`
   * where `calculate_bearing` raises; supplied by the caller.
   */
  type Compass = (real, real, real, real) -> Option<real>

  /** The body of `/update_location`; `None` marks a key that was not sent. */
  datatype Report = Report(id: Option<string>, lat: Option<Value>, lon: Option<Value>, range: Option<Value>)

  datatype ReportError =
    | LatLonRequired      // 400 "lat and lon required": either is missing or not a float
    | RangeRaised         // `float(range)` raises outside any handler: the request fails
    | DistanceRaised      // geopy raises on a latitude off the globe, outside any handler: the request fails

  /** A report after its fields have been read. */
  datatype Fix = Fix(id: string, lat: real, lon: real, range: real)

  /** The direction fields of a payload: `'north'` and a `None` bearing when the bearing raised. */
  datatype Heading = Heading(direction: Cardinal, bearing: Option<real>)

  /** The `signal_update` payload; `heading` is `None` where the payload has no direction keys. */
  datatype Payload = Payload(
    status: Status,
    heading: Option<Heading>,
    distance: real,
    range: real,
    id: string,
    isEmergency: bool,
    stopTracking: bool,
    message: Option<string>,
    ts: real)

  /** What an accepted report produces: the transition, the reply's message, and the payload. */
  datatype Outcome = Outcome(transition: Transition, reply: string, payload: Payload)

  /**
   * Reads a report: `lat` and `lon` are refused together, the id defaults to "default", and a
   * per-report `range` replaces the global one for this report only.
   */
  function ParseFix(st: Light, rep: Report): (r: Result<Fix, ReportError>)
    ensures r == Err(LatLonRequired) <==> RequiredFloat(rep.lat, "lat").Err? || RequiredFloat(rep.lon, "lon").Err?
    ensures r == Err(RangeRaised) <==> RequiredFloat(rep.lat, "lat").Ok? && RequiredFloat(rep.lon, "lon").Ok?
                                       && OptionalFloat(rep.range, "range").Err?
    ensures r.Ok? ==> r.value.id == rep.id.GetOr("default")
                      && Some(r.value.lat) == ToFloat(rep.lat.value) && Some(r.value.lon) == ToFloat(rep.lon.value)
                      && (rep.range.None? ==> r.value.range == st.range)
                      && (rep.range.Some? ==> Some(r.value.range) == ToFloat(rep.range.value))
  {
    var lat, lon := RequiredFloat(rep.lat, "lat"), RequiredFloat(rep.lon, "lon");
    if lat.Err? || lon.Err? then Err(LatLonRequired)
    else
      match OptionalFloat(rep.range, "range")
      case Ok(range) => Ok(Fix(rep.id.GetOr("default"), lat.value, lon.value, range.GetOr(st.range)))
      case Err(_) => Err(RangeRaised)
  }

  /**
   * The direction keys of a payload: the bearing as computed, and its compass quadrant, or
   * north when the bearing raised.
   */
  function HeadingOf(bearing: Option<real>): (h: Heading)
    ensures h.bearing == bearing
    ensures bearing.None? ==> h.direction == North
    ensures bearing.Some? ==>
              && (h.direction == North <==> 315.0 <= bearing.value <= 360.0 || 0.0 <= bearing.value < 45.0)
              && (h.direction == East <==> 45.0 <= bearing.value < 135.0)
              && (h.direction == South <==> 135.0 <= bearing.value < 225.0)
  {
    match bearing
    case Some(b) => Heading(BearingToCardinal(b), bearing)
    case None => Heading(North, None)
  }

  /**
   * The reply and the payload for each transition: EMERGENCY while the ambulance is inside,
   * CROSSED (with `stop_tracking` and a message) as it leaves, NORMAL without direction keys
   * while it stays outside.
   */
  function OutcomeFor(t: Transition, h: Heading, distance: real, fix: Fix, now: real): (o: Outcome)
    ensures o.transition == t
    ensures o.payload.id == fix.id && o.payload.distance == distance && o.payload.range == fix.range && o.payload.ts == now
    ensures o.payload.isEmergency <==> t == Entered || t == StillInside
    ensures o.payload.status == Emergency <==> o.payload.isEmergency
    ensures o.payload.status == Crossed <==> t == Left
    ensures o.payload.stopTracking <==> t == Left
    ensures o.payload.message.Some? <==> t == Left
    ensures o.payload.heading == (if t == StillOutside then None else Some(h))
  {
    match t
    case Entered =>
      Outcome(t, "Ambulance entered detection range",
              Payload(Emergency, Some(h), distance, fix.range, fix.id, true, false, None, now))
    case Left =>
      Outcome(t, "Ambulance left detection range",
              Payload(Crossed, Some(h), distance, fix.range, fix.id, false, true,
                      Some("Ambulance successfully crossed"), now))
    case StillInside =>
      Outcome(t, "Ambulance still inside range",
              Payload(Emergency, Some(h), distance, fix.range, fix.id, true, false, None, now))
    case StillOutside =>
      Outcome(t, "Ambulance outside detection range",
              Payload(Normal, None, distance, fix.range, fix.id, false, false, None, now))
  }

  /** Whether ambulance `id` was in range at its previous report (an unknown id was not). */
  function WasIn(st: Light, id: string): bool {
    MapGet(st.lastInRange, id, false)
  }

  /**
   * `/update_location`. Entering or leaving sets both flags of the ambulance to its new
   * membership and emits EMERGENCY or CROSSED; staying inside or outside changes no state and
   * emits an EMERGENCY heartbeat or NORMAL. A refused report, and one whose distance geopy
   * cannot measure, changes nothing and emits nothing.
   */
  function UpdateLocation(st: Light, rep: Report, now: real, geo: Geodesic, compass: Compass): (r: (Light, Result<Outcome, ReportError>))
    ensures r.1.Err? <==> ParseFix(st, rep).Err? || LightDistance(geo, ParseFix(st, rep).value.lat, ParseFix(st, rep).value.lon).None?
    ensures r.1.Err? ==> r.0 == st
    ensures ParseFix(st, rep).Err? ==> r.1 == Err(ParseFix(st, rep).error)
    ensures ParseFix(st, rep).Ok? && LightDistance(geo, ParseFix(st, rep).value.lat, ParseFix(st, rep).value.lon).None? ==> r.1 == Err(DistanceRaised)
    ensures r.0.range == st.range && r.0.hysteresis == st.hysteresis
    ensures r.1.Ok? ==>
              var fix := ParseFix(st, rep).value;
              var d := LightDistance(geo, fix.lat, fix.lon).value;
              var now' := InRangeWithHysteresis(WasIn(st, fix.id), d, fix.range, st.hysteresis);
              var p := r.1.value.payload;
              && WasIn(r.0, fix.id) == now'
              && r.1.value.transition == Classify(WasIn(st, fix.id), now')
              && p.id == fix.id && p.distance == d && p.range == fix.range && p.ts == now
              && (p.status == Emergency <==> now')
              && (p.status == Crossed <==> r.1.value.transition == Left)
              && p.stopTracking == (p.status == Crossed)
              && p.isEmergency == now'
              && (p.heading.None? <==> p.status == Normal)
              && (p.heading.Some? ==> p.heading.value == HeadingOf(compass(LightLat, LightLon, fix.lat, fix.lon)))
    ensures r.1.Ok? && r.1.value.transition in {StillInside, StillOutside} ==> r.0 == st
  {
    match ParseFix(st, rep)
    case Err(err) => (st, Err(err))
    case Ok(fix) =>
      match LightDistance(geo, fix.lat, fix.lon)
      case None => (st, Err(DistanceRaised))
      case Some(d) =>
        var h := HeadingOf(compass(LightLat, LightLon, fix.lat, fix.lon));
        var prev := WasIn(st, fix.id);
        var cur := InRangeWithHysteresis(prev, d, fix.range, st.hysteresis);
        var t := Classify(prev, cur);
        var st' := if t == Entered || t == Left
                   then st.(lastInRange := st.lastInRange[fix.id := cur], isEmergency := st.isEmergency[fix.id := cur])
                   else st;
        (st', Ok(OutcomeFor(t, h, d, fix, now)))
  }

  /** The two flag dicts always agree: every write sets both to the same value. */
  predicate FlagsAgree(st: Light) {
    st.lastInRange == st.isEmergency
  }

  /**
   * Reports keep the flags in agreement, and then the payload's `isEmergency` is exactly the
   * flag the server now holds for the ambulance.
   */
  lemma UpdateKeepsFlagsAgreed(st: Light, rep: Report, now: real, geo: Geodesic, compass: Compass)
    requires FlagsAgree(st)
    ensures var (st', res) := UpdateLocation(st, rep, now, geo, compass);
            FlagsAgree(st')
            && (res.Ok? ==> res.value.payload.isEmergency == MapGet(st'.isEmergency, res.value.payload.id, false))
  {
  }

  /** A report changes the flags of the reporting ambulance only. */
  lemma OnlyReporterChanges(st: Light, rep: Report, now: real, geo: Geodesic, compass: Compass, other: string)
    requires ParseFix(st, rep).Ok? && other != ParseFix(st, rep).value.id
    ensures var st' := UpdateLocation(st, rep, now, geo, compass).0;
            && (other in st'.lastInRange <==> other in st.lastInRange)
            && (other in st.lastInRange ==> st'.lastInRange[other] == st.lastInRange[other])
            && (other in st'.isEmergency <==> other in st.isEmergency)
            && (other in st.isEmergency ==> st'.isEmergency[other] == st.isEmergency[other])
  {
  }

  /**
   * With a non-negative hysteresis, sending the same report again changes nothing and emits a
   * steady-state signal: a heartbeat if it is inside, NORMAL if it is outside (or, off the
   * globe, fails again).
   */
  lemma RepeatReportSettles(st: Light, rep: Report, now: real, later: real, geo: Geodesic, compass: Compass)
    requires st.hysteresis >= 0.0
    requires ParseFix(st, rep).Ok?
    ensures var st1 := UpdateLocation(st, rep, now, geo, compass).0;
            var (st2, res) := UpdateLocation(st1, rep, later, geo, compass);
            && st2 == st1
            && (res.Ok? <==> ValidLatitude(ParseFix(st, rep).value.lat))
            && (res.Ok? ==> res.value.transition in {StillInside, StillOutside})
  {
    var fix := ParseFix(st, rep).value;
    var st1 := UpdateLocation(st, rep, now, geo, compass).0;
    assert ParseFix(st1, rep) == Ok(fix);
    if ValidLatitude(fix.lat) {
      MembershipSettles(WasIn(st, fix.id), LightDistance(geo, fix.lat, fix.lon).value, fix.range, st.hysteresis);
    }
  }

  // ---------------------------------------------------------------------------
  // A trip through the range boundary
  // ---------------------------------------------------------------------------

  function Straight(lat: real, lon: real, lat2: real, lon2: real): real {
    lat2
  }

  function NoBearing(lat: real, lon: real, lat2: real, lon2: real): Option<real> {
    None
  }

  function At(d: real): Report {
    Report(Some("A"), Some(Float(d)), Some(Int(0)), None)
  }

  /**
   * With the default settings, an ambulance (at the stub distance given by its latitude)
   * enters at 40 m, is still held at 54 m inside the 5 m band, leaves at 56 m, and is not
   * re-admitted at 54 m, which is outside the 50 m range for an untracked ambulance.
   */
  lemma HysteresisTrip()
    ensures var (s1, r1) := UpdateLocation(Initial, At(40.0), 1.0, Straight, NoBearing);
            var (s2, r2) := UpdateLocation(s1, At(54.0), 2.0, Straight, NoBearing);
            var (s3, r3) := UpdateLocation(s2, At(56.0), 3.0, Straight, NoBearing);
            var (s4, r4) := UpdateLocation(s3, At(54.0), 4.0, Straight, NoBearing);
            && r1.Ok? && r1.value.transition == Entered && r1.value.payload.status == Emergency
            && r2.Ok? && r2.value.transition == StillInside && r2.value.payload.status == Emergency
            && r3.Ok? && r3.value.transition == Left && r3.value.payload.status == Crossed
            && r4.Ok? && r4.value.transition == StillOutside && r4.value.payload.status == Normal
            && s4.lastInRange == map["A" := false]
  {
  }

  // ---------------------------------------------------------------------------
  // `/set_range`
  // ---------------------------------------------------------------------------

  /**
   * `/set_range`: an accepted value becomes the global range and is broadcast in one
   * `range_update`; nothing else changes, and no ambulance is reclassified until it reports.
   * A `float()` failure is not caught here, so the request fails rather than being refused.
   */
  function SetRange(st: Light, input: Option<Value>): (r: (Light, Result<real, RangeError>, seq<RangeUpdate>))
    ensures r.1.Ok? <==> input.Some? && ToFloat(input.value).Some? && ToFloat(input.value).value >= 0.0
    ensures r.1.Ok? ==> r.0 == st.(range := r.1.value) && Some(r.1.value) == ToFloat(input.value)
    ensures r.1.Ok? ==> r.2 == [RangeUpdate(r.0.range)]
    ensures r.1.Err? ==> r.0 == st && r.2 == []
    ensures r.0.lastInRange == st.lastInRange && r.0.isEmergency == st.isEmergency
  {
    match ParseRange(input)
    case Ok(v) => (st.(range := v), Ok(v), [RangeUpdate(v)])
    case Err(err) => (st, Err(err), [])
  }
}
