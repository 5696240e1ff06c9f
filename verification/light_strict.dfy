/**
 * The single-light backend without hysteresis (backend2.py): one traffic light at a fixed
 * position, a global detection range, and a per-ambulance in-range flag. Each accepted report
 * emits exactly one `signal_update`, chosen by the ambulance's transition across the range.
 */
module StrictLight {
  import opened Basics
  import opened Json
  import opened Signals
  import HysteresisLight

  /** `FIXED_DETECTION_RANGE` as the server starts. */
  const DefaultRange: real := 50.0

  /** The server state: the global range and the `_last_in_range` dict. */
  datatype Light = Light(range: real, lastInRange: map<string, bool>)

  const Initial: Light := Light(DefaultRange, map[])

  /** The body of `/update_location`; `None` marks a key that was not sent. */
  datatype Report = Report(
    id: Option<string>,
    lat: Option<Value>,
    lon: Option<Value>,
    direction: Option<Value>,
    range: Option<Value>)

  /** A report after its fields have been read; the direction is passed through as sent. */
  datatype Fix = Fix(id: string, lat: real, lon: real, direction: Value, range: real)

  /** Why `/update_location` is refused; the handler catches everything, so each is a 400. */
  datatype ReportError =
    | BadField(field: FieldError)   // `lat` or `lon` missing or not a float, or a bad `range`
    | DistanceRaised                // geopy raised on a latitude off the globe

  /** The `signal_update` payload; `direction` is `None` where the payload has no such key. */
  datatype Payload = Payload(
    status: Status,
    direction: Option<Value>,
    distance: real,
    range: real,
    id: string,
    message: Option<string>)

  /**
   * Reads a report in the order the handler does: `lat` (missing, then uncoercible), `lon`,
   * then a per-report `range`; every refusal is a 400. The id defaults to "default" and the
   * direction to "north".
   */
  function ParseFix(st: Light, rep: Report): (r: Result<Fix, FieldError>)
    ensures r.Err? <==> RequiredFloat(rep.lat, "lat").Err? || RequiredFloat(rep.lon, "lon").Err?
                        || OptionalFloat(rep.range, "range").Err?
    ensures r.Err? ==> r.error == (if RequiredFloat(rep.lat, "lat").Err? then RequiredFloat(rep.lat, "lat").error
                                   else if RequiredFloat(rep.lon, "lon").Err? then RequiredFloat(rep.lon, "lon").error
                                   else InvalidField("range"))
    ensures r.Ok? ==> r.value.id == rep.id.GetOr("default") && r.value.direction == rep.direction.GetOr(Str("north"))
                      && Some(r.value.lat) == ToFloat(rep.lat.value) && Some(r.value.lon) == ToFloat(rep.lon.value)
                      && (rep.range.None? ==> r.value.range == st.range)
                      && (rep.range.Some? ==> Some(r.value.range) == ToFloat(rep.range.value))
  {
    match RequiredFloat(rep.lat, "lat")
    case Err(f) => Err(f)
    case Ok(lat) =>
      match RequiredFloat(rep.lon, "lon")
      case Err(f) => Err(f)
      case Ok(lon) =>
        match OptionalFloat(rep.range, "range")
        case Err(f) => Err(f)
        case Ok(range) =>
          Ok(Fix(rep.id.GetOr("default"), lat, lon, rep.direction.GetOr(Str("north")), range.GetOr(st.range)))
  }

  /**
   * The payload for each transition: EMERGENCY while the ambulance is inside, CROSSED with a
   * message as it leaves, NORMAL without a direction while it stays outside.
   */
  function PayloadFor(t: Transition, distance: real, fix: Fix): (p: Payload)
    ensures p.id == fix.id && p.distance == distance && p.range == fix.range
    ensures p.status == Emergency <==> t == Entered || t == StillInside
    ensures p.status == Crossed <==> t == Left
    ensures p.message.Some? <==> t == Left
    ensures p.direction == (if t == StillOutside then None else Some(fix.direction))
  {
    match t
    case Entered => Payload(Emergency, Some(fix.direction), distance, fix.range, fix.id, None)
    case Left =>
      Payload(Crossed, Some(fix.direction), distance, fix.range, fix.id,
              Some("Ambulance successfully crossed the traffic system"))
    case StillInside => Payload(Emergency, Some(fix.direction), distance, fix.range, fix.id, None)
    case StillOutside => Payload(Normal, None, distance, fix.range, fix.id, None)
  }

  function WasIn(st: Light, id: string): bool {
    MapGet(st.lastInRange, id, false)
  }

  /**
   * `/update_location`: an ambulance is in range exactly when its distance is at most the
   * range. Entering or leaving records the new membership and emits EMERGENCY or CROSSED;
   * otherwise nothing changes and an EMERGENCY heartbeat or NORMAL goes out. A refused report,
   * including one whose distance geopy cannot measure, changes nothing.
   */
  function UpdateLocation(st: Light, rep: Report, geo: Geodesic): (r: (Light, Result<(Transition, Payload), ReportError>))
    ensures r.1.Err? <==> ParseFix(st, rep).Err? || LightDistance(geo, ParseFix(st, rep).value.lat, ParseFix(st, rep).value.lon).None?
    ensures r.1.Err? ==> r.0 == st
    ensures ParseFix(st, rep).Err? ==> r.1 == Err(BadField(ParseFix(st, rep).error))
    ensures ParseFix(st, rep).Ok? && LightDistance(geo, ParseFix(st, rep).value.lat, ParseFix(st, rep).value.lon).None? ==> r.1 == Err(DistanceRaised)
    ensures r.0.range == st.range
    ensures r.1.Ok? ==>
              var fix := ParseFix(st, rep).value;
              var d := LightDistance(geo, fix.lat, fix.lon).value;
              var (t, p) := r.1.value;
              && WasIn(r.0, fix.id) == InRange(d, fix.range)
              && t == Classify(WasIn(st, fix.id), InRange(d, fix.range))
              && p.id == fix.id && p.distance == d && p.range == fix.range
              && (p.status == Emergency <==> InRange(d, fix.range))
              && (p.status == Crossed <==> t == Left)
              && (p.message.Some? <==> t == Left)
              && (p.direction.None? <==> p.status == Normal)
              && (p.direction.Some? ==> p.direction.value == fix.direction)
    ensures r.1.Ok? && r.1.value.0 in {StillInside, StillOutside} ==> r.0 == st
  {
    match ParseFix(st, rep)
    case Err(f) => (st, Err(BadField(f)))
    case Ok(fix) =>
      match LightDistance(geo, fix.lat, fix.lon)
      case None => (st, Err(DistanceRaised))
      case Some(d) =>
        var prev := WasIn(st, fix.id);
        var cur := InRange(d, fix.range);
        var t := Classify(prev, cur);
        var st' := if t == Entered || t == Left then st.(lastInRange := st.lastInRange[fix.id := cur]) else st;
        (st', Ok((t, PayloadFor(t, d, fix))))
  }

  /** A report changes the flag of the reporting ambulance only. */
  lemma OnlyReporterChanges(st: Light, rep: Report, geo: Geodesic, other: string)
    requires ParseFix(st, rep).Ok? && other != ParseFix(st, rep).value.id
    ensures var st' := UpdateLocation(st, rep, geo).0;
            && (other in st'.lastInRange <==> other in st.lastInRange)
            && (other in st.lastInRange ==> st'.lastInRange[other] == st.lastInRange[other])
  {
  }

  /** Sending the same report again changes nothing and reports a steady state (or fails again). */
  lemma RepeatReportSettles(st: Light, rep: Report, geo: Geodesic)
    requires ParseFix(st, rep).Ok?
    ensures var st1 := UpdateLocation(st, rep, geo).0;
            var (st2, res) := UpdateLocation(st1, rep, geo);
            && st2 == st1
            && (res.Ok? <==> ValidLatitude(ParseFix(st, rep).value.lat))
            && (res.Ok? ==> res.value.0 in {StillInside, StillOutside})
  {
    var st1 := UpdateLocation(st, rep, geo).0;
    assert ParseFix(st1, rep) == ParseFix(st, rep);
  }

  /**
   * This backend is the hysteresis backend with a zero margin: from matching states and on a
   * matching report, both accept or both refuse, and when they accept they take the same
   * transition, the same membership afterwards and the same range.
   */
  lemma AgreesWithZeroHysteresis(
    st: Light, hst: HysteresisLight.Light, rep: Report, now: real, geo: Geodesic, compass: HysteresisLight.Compass)
    requires hst.hysteresis == 0.0 && hst.range == st.range && hst.lastInRange == st.lastInRange
    ensures var hrep := HysteresisLight.Report(rep.id, rep.lat, rep.lon, rep.range);
            var (st', res) := UpdateLocation(st, rep, geo);
            var (hst', hres) := HysteresisLight.UpdateLocation(hst, hrep, now, geo, compass);
            && (res.Ok? <==> hres.Ok?)
            && (res.Ok? ==> res.value.0 == hres.value.transition
                            && res.value.1.status == hres.value.payload.status
                            && res.value.1.range == hres.value.payload.range)
            && st'.lastInRange == hst'.lastInRange
  {
    var hrep := HysteresisLight.Report(rep.id, rep.lat, rep.lon, rep.range);
    if ParseFix(st, rep).Ok? {
      var fix := ParseFix(st, rep).value;
      var hfix := HysteresisLight.ParseFix(hst, hrep).value;
      assert hfix.id == fix.id && hfix.lat == fix.lat && hfix.lon == fix.lon && hfix.range == fix.range;
    }
  }

  /**
   * Without hysteresis an ambulance hovering at the boundary flaps: 50 m is inside the default
   * range and 50.5 m is outside, so alternating reports alternate EMERGENCY and CROSSED.
   */
  lemma BoundaryFlaps()
    ensures var at := (d: real) => Report(Some("A"), Some(Float(d)), Some(Int(0)), None, None);
            var geo := (a: real, b: real, lat: real, lon: real) => lat;
            var (s1, r1) := UpdateLocation(Initial, at(50.0), geo);
            var (s2, r2) := UpdateLocation(s1, at(50.5), geo);
            var (s3, r3) := UpdateLocation(s2, at(50.0), geo);
            && r1.Ok? && r1.value.1.status == Emergency
            && r2.Ok? && r2.value.1.status == Crossed
            && r3.Ok? && r3.value.1.status == Emergency
  {
  }

  /**
   * `/set_range`: an accepted value becomes the global range and is broadcast in one
   * `range_update`; a missing, `null`, negative or uncoercible one is refused with a 400,
   * changes nothing and broadcasts nothing. Membership flags are untouched.
   */
  function SetRange(st: Light, input: Option<Value>): (r: (Light, Result<real, RangeError>, seq<RangeUpdate>))
    ensures r.1.Ok? <==> input.Some? && ToFloat(input.value).Some? && ToFloat(input.value).value >= 0.0
    ensures r.1.Ok? ==> r.0 == st.(range := r.1.value) && Some(r.1.value) == ToFloat(input.value)
    ensures r.1.Ok? ==> r.2 == [RangeUpdate(r.0.range)]
    ensures r.1.Err? ==> r.0 == st && r.2 == []
    ensures r.0.lastInRange == st.lastInRange
  {
    match ParseRange(input)
    case Ok(v) => (st.(range := v), Ok(v), [RangeUpdate(v)])
    case Err(err) => (st, Err(err), [])
  }
}
