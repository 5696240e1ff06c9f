/**
 * Vocabulary shared by the three backends: the status a `signal_update` carries, the compass
 * bucketing of the single-light backend (backend_fastapi.py), the membership rules for a
 * detection range, and the validation `/set_range` applies (backend_fastapi.py, backend2.py).
 */
module Signals {
  import opened Basics
  import opened Json

  datatype Status = Emergency | Normal | Crossed

  /**
   * Geodesic distance in metres from the first (lat, lon) point to the second, for points geopy
   * accepts. The backends use geopy's ellipsoidal distance, which is not part of this model:
   * callers supply it.
   */
  type Geodesic = (real, real, real, real) -> real

  /** geopy accepts a point only when its latitude lies in [-90, 90]; it raises otherwise. */
  predicate ValidLatitude(lat: real) {
    -90.0 <= lat <= 90.0
  }

  /**
   * `geodesic((lat1, lon1), (lat2, lon2)).meters`: `None` where geopy raises `ValueError` for a
   * latitude off the globe. Longitudes are never refused (geopy normalises them).
   */
  function Measure(geo: Geodesic, lat1: real, lon1: real, lat2: real, lon2: real): (d: Option<real>)
    ensures d.Some? <==> ValidLatitude(lat1) && ValidLatitude(lat2)
    ensures d.Some? ==> d.value == geo(lat1, lon1, lat2, lon2)
  {
    if ValidLatitude(lat1) && ValidLatitude(lat2) then Some(geo(lat1, lon1, lat2, lon2)) else None
  }

  /** The fixed position of the single traffic light (`TRAFFIC_LIGHT_LOC`). */
  const LightLat: real := 16.5432
  const LightLon: real := 80.6123

  /** Distance from the traffic light to a reported position; `None` where geopy raises. */
  function LightDistance(geo: Geodesic, lat: real, lon: real): (d: Option<real>)
    ensures d.Some? <==> ValidLatitude(lat)
    ensures d.Some? ==> d.value == geo(LightLat, LightLon, lat, lon)
  {
    Measure(geo, LightLat, LightLon, lat, lon)
  }

  datatype Cardinal = North | East | South | West

  /**
   * `bearing_to_cardinal`: north on [315, 360] and [0, 45), east on [45, 135), south on
   * [135, 225), and west for everything else, including bearings off the [0, 360] circle.
   */
  function BearingToCardinal(b: real): (c: Cardinal)
    ensures c == North <==> (315.0 <= b <= 360.0 || 0.0 <= b < 45.0)
    ensures c == East <==> 45.0 <= b < 135.0
    ensures c == South <==> 135.0 <= b < 225.0
  {
    if (b >= 315.0 && b <= 360.0) || (b >= 0.0 && b < 45.0) then North
    else if b >= 45.0 && b < 135.0 then East
    else if b >= 135.0 && b < 225.0 then South
    else West
  }

  /** Compass quadrants in clockwise order from north. */
  function QuadrantCardinal(k: int): Cardinal
    requires 0 <= k < 4
  {
    [North, East, South, West][k]
  }

  /**
   * On the compass circle the bucketing is "nearest of the four quadrant centres 0, 90, 180,
   * 270", with a bearing exactly between two centres going clockwise.
   */
  lemma BearingBucketsByNearestCentre(b: real)
    requires 0.0 <= b <= 360.0
    ensures BearingToCardinal(b) == QuadrantCardinal(((b + 45.0) / 90.0).Floor % 4)
  {
    var k := ((b + 45.0) / 90.0).Floor;
    assert 0 <= k <= 4 by {
      assert (b + 45.0) / 90.0 < 5.0;
    }
    assert k as real * 90.0 <= b + 45.0 < k as real * 90.0 + 90.0;
  }

  /** Bearings off the circle (which `calculate_bearing` never yields) fall through to west. */
  lemma BearingOffCircleIsWest(b: real)
    requires b < 0.0 || b > 360.0
    ensures BearingToCardinal(b) == West
  {
  }

  // ---------------------------------------------------------------------------
  // Membership in the detection range
  // ---------------------------------------------------------------------------

  datatype Transition = Entered | Left | StillInside | StillOutside

  /** The transition between the previous and the current membership. */
  function Classify(previously: bool, currently: bool): (t: Transition)
    ensures t == Entered <==> currently && !previously
    ensures t == Left <==> previously && !currently
    ensures t == StillInside <==> previously && currently
  {
    if currently && !previously then Entered
    else if !currently && previously then Left
    else if currently then StillInside
    else StillOutside
  }

  /**
   * Membership with exit-side hysteresis: an ambulance already in range stays in up to
   * `range + hysteresis`; one that is not enters only within `range`.
   */
  function InRangeWithHysteresis(previously: bool, distance: real, range: real, hysteresis: real): (r: bool)
    ensures !previously ==> (r <==> distance <= range)
    ensures hysteresis >= 0.0 && distance <= range ==> r
    ensures hysteresis >= 0.0 && distance > range + hysteresis ==> !r
    ensures previously && hysteresis >= 0.0 && distance <= range + hysteresis ==> r
  {
    if previously then distance <= range + hysteresis else distance <= range
  }

  /**
   * Membership without hysteresis: the hysteresis rule with a zero margin, whatever the
   * previous state.
   */
  function InRange(distance: real, range: real): (r: bool)
    ensures r == InRangeWithHysteresis(false, distance, range, 0.0)
    ensures r == InRangeWithHysteresis(true, distance, range, 0.0)
  {
    distance <= range
  }

  /**
   * The hysteresis band: at exactly `range + hysteresis` a tracked ambulance stays tracked,
   * while an untracked one anywhere beyond `range` does not enter.
   */
  lemma HysteresisBand(range: real, hysteresis: real, epsilon: real)
    requires epsilon > 0.0
    ensures InRangeWithHysteresis(true, range + hysteresis, range, hysteresis)
    ensures !InRangeWithHysteresis(false, range + epsilon, range, hysteresis)
  {
  }

  /**
   * With a non-negative margin, membership is a fixed point: deciding again at the same distance
   * gives the same answer. A negative margin breaks this: an ambulance that has just entered can
   * be dropped by the very next identical report.
   */
  lemma MembershipSettles(previously: bool, distance: real, range: real, hysteresis: real)
    requires hysteresis >= 0.0
    ensures var now := InRangeWithHysteresis(previously, distance, range, hysteresis);
            InRangeWithHysteresis(now, distance, range, hysteresis) == now
  {
  }

  lemma NegativeMarginFlaps()
    ensures InRangeWithHysteresis(false, 50.0, 50.0, -1.0)
    ensures !InRangeWithHysteresis(true, 50.0, 50.0, -1.0)
  {
  }

  // ---------------------------------------------------------------------------
  // `/set_range`
  // ---------------------------------------------------------------------------

  /** The `range_update` broadcast that follows an accepted `/set_range`. */
  datatype RangeUpdate = RangeUpdate(range: real)

  datatype RangeError =
    | MissingRange        // "Missing 'range'"
    | InvalidRange        // `float(r)` raised
    | NegativeRange       // "Range must be non-negative"

  /**
   * The validation of `/set_range`: a missing or `null` range and a negative one are refused,
   * as is one `float()` rejects; otherwise the coerced value is the new global range.
   */
  function ParseRange(input: Option<Value>): (r: Result<real, RangeError>)
    ensures input.None? || input.value.Null? ==> r == Err(MissingRange)
    ensures r.Ok? <==> input.Some? && ToFloat(input.value).Some? && ToFloat(input.value).value >= 0.0
    ensures r.Ok? ==> Some(r.value) == ToFloat(input.value) && r.value >= 0.0
    ensures input.Some? && ToFloat(input.value).Some? && ToFloat(input.value).value < 0.0 ==> r == Err(NegativeRange)
  {
    if input.None? || input.value.Null? then Err(MissingRange)
    else
      match ToFloat(input.value)
      case None => Err(InvalidRange)
      case Some(v) => if v < 0.0 then Err(NegativeRange) else Ok(v)
  }
}
