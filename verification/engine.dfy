/**
 * The multi-intersection backend (backend_extended.py) as pure step functions: registering
 * intersections, replacing the rule table, handling a location report, and one sweep of the
 * stale-entry reaper. Each step takes the engine state and returns the new state together with
 * the reply and the events the server would emit, in emission order.
 */
module PriorityEngine {
  import opened Basics
  import opened Json
  import opened Text
  import opened Scoring
  import opened Ranking
  import opened Queues
  import opened Preemption
  import opened Signals

  /** Seconds after which the reaper drops an entry (`STALE_SECONDS`). */
  const StaleSeconds: real := 60.0
  /** The registry's capacity (`MAX_INTERSECTIONS`). */
  const MaxIntersections: nat := 100
  /** Detection radius of an intersection registered without one, in metres. */
  const DefaultRadius: real := 300.0

  /** A registered intersection as `/register_intersection` stores it. */
  datatype Descriptor = Descriptor(id: string, name: string, lat: real, lon: real, rangeM: real)

  /** An intersection with its queue and decision state (one key of the three Python dicts). */
  datatype Site = Site(info: Descriptor, queue: seq<Entry>, leader: Leader)

  /** The whole server state: the rule table and the registry, in registration order. */
  datatype Engine = Engine(rules: Rules, sites: seq<Site>)

  const Initial: Engine := Engine(DefaultRules, [])

  /** What the server emits, in order. */
  datatype Event =
    | QueueUpdate(intersection: string, queue: seq<Entry>, timestamp: real)   // `priority_queue_update`
    | SignalUpdate(signal: Signal)                                            // `signal_update`

  /** Why `/register_intersection` refuses a request (status 400). */
  datatype RegisterError =
    | BadField(field: FieldError)
    | CapacityReached

  // ---------------------------------------------------------------------------
  // Invariants of the state
  // ---------------------------------------------------------------------------

  predicate DistinctSites(sites: seq<Site>) {
    forall i, j :: 0 <= i < j < |sites| ==> sites[i].info.id != sites[j].info.id
  }

  /** Registry ids are distinct and so are ambulance ids within each queue. */
  predicate WellFormed(e: Engine) {
    DistinctSites(e.sites) && forall i :: 0 <= i < |e.sites| ==> UniqueIds(e.sites[i].queue)
  }

  /** At every intersection the holder is the head of the ranking. */
  predicate AllLed(sites: seq<Site>) {
    forall i :: 0 <= i < |sites| ==> LeadsQueue(sites[i].leader, sites[i].queue)
  }

  predicate NonNegativeRules(rules: Rules) {
    forall k :: k in rules ==> rules[k] >= 0
  }

  /** No rule weight and no queued score is negative. */
  predicate NonNegative(e: Engine) {
    NonNegativeRules(e.rules) && forall i :: 0 <= i < |e.sites| ==> NonNegativeScores(e.sites[i].queue)
  }

  // ---------------------------------------------------------------------------
  // Registration
  // ---------------------------------------------------------------------------

  /** The position of intersection `id` in the registry. */
  function SiteIndex(sites: seq<Site>, id: string): (r: Option<nat>)
    ensures r.Some? ==> r.value < |sites| && sites[r.value].info.id == id
    ensures r.None? ==> forall i :: 0 <= i < |sites| ==> sites[i].info.id != id
  {
    if |sites| == 0 then None
    else if sites[0].info.id == id then Some(0)
    else match SiteIndex(sites[1..], id)
      case Some(k) => Some(k + 1)
      case None => None
  }

  /** The body of `/register_intersection`; `None` marks a key that was not sent. */
  datatype RegisterRequest = RegisterRequest(
    id: Option<string>,
    name: Option<string>,
    lat: Option<Value>,
    lon: Option<Value>,
    rangeM: Option<Value>)

  /** Builds the descriptor, reading `id`, `lat`, `lon`, `range_m` in that order. */
  function ParseDescriptor(req: RegisterRequest): (r: Result<Descriptor, FieldError>)
    ensures req.id.None? ==> r == Err(MissingField("id"))
    ensures r.Ok? <==> req.id.Some? && req.lat.Some? && ToFloat(req.lat.value).Some?
                       && req.lon.Some? && ToFloat(req.lon.value).Some?
                       && (req.rangeM.None? || ToFloat(req.rangeM.value).Some?)
    ensures r.Ok? ==> r.value.id == req.id.value
                      && r.value.name == req.name.GetOr("intersection:" + req.id.value)
                      && Some(r.value.lat) == ToFloat(req.lat.value)
                      && Some(r.value.lon) == ToFloat(req.lon.value)
                      && r.value.rangeM == (if req.rangeM.None? then DefaultRadius else ToFloat(req.rangeM.value).value)
  {
    match req.id
    case None => Err(MissingField("id"))
    case Some(id) =>
      match RequiredFloat(req.lat, "lat")
      case Err(f) => Err(f)
      case Ok(lat) =>
        match RequiredFloat(req.lon, "lon")
        case Err(f) => Err(f)
        case Ok(lon) =>
          match RequiredFloat(Some(req.rangeM.GetOr(Float(DefaultRadius))), "range_m")
          case Err(f) => Err(f)
          case Ok(radius) => Ok(Descriptor(id, req.name.GetOr("intersection:" + id), lat, lon, radius))
  }

  /**
   * `/register_intersection`: refused outright once the registry holds `MaxIntersections`
   * entries (even to re-register a known id); otherwise a known id gets the new descriptor in
   * its old slot with its queue and holder kept, and a new id is appended with an empty queue.
   */
  function Register(e: Engine, req: RegisterRequest): (r: (Engine, Result<Descriptor, RegisterError>))
    ensures |e.sites| >= MaxIntersections ==> r == (e, Err(CapacityReached))
    ensures r.1.Err? ==> r.0 == e
    ensures r.1.Ok? ==> |r.0.sites| <= MaxIntersections && r.0.rules == e.rules
    ensures r.1.Ok? ==> Ok(r.1.value) == ParseDescriptor(req)
    ensures r.1.Ok? && SiteIndex(e.sites, r.1.value.id).Some? ==>
              var i := SiteIndex(e.sites, r.1.value.id).value;
              r.0.sites == e.sites[i := Site(r.1.value, e.sites[i].queue, e.sites[i].leader)]
    ensures r.1.Ok? && SiteIndex(e.sites, r.1.value.id).None? ==>
              r.0.sites == e.sites + [Site(r.1.value, [], Idle)]
  {
    if |e.sites| >= MaxIntersections then (e, Err(CapacityReached))
    else
      match ParseDescriptor(req)
      case Err(f) => (e, Err(BadField(f)))
      case Ok(d) =>
        match SiteIndex(e.sites, d.id)
        case Some(i) => (e.(sites := e.sites[i := e.sites[i].(info := d)]), Ok(d))
        case None => (e.(sites := e.sites + [Site(d, [], Idle)]), Ok(d))
  }

  /** Registration keeps ids distinct, the registry within capacity, and every holder at its head. */
  lemma RegisterPreservesInvariants(e: Engine, req: RegisterRequest)
    requires WellFormed(e) && AllLed(e.sites) && NonNegative(e)
    ensures var e' := Register(e, req).0;
            WellFormed(e') && AllLed(e'.sites) && NonNegative(e')
            && (|e.sites| <= MaxIntersections ==> |e'.sites| <= MaxIntersections)
  {
    var (e', res) := Register(e, req);
    if res.Ok? {
      match SiteIndex(e.sites, res.value.id)
      case Some(i) => OverwriteKeepsInvariants(e, i, res.value);
      case None => AppendKeepsInvariants(e, res.value);
    }
  }

  lemma OverwriteKeepsInvariants(e: Engine, i: nat, d: Descriptor)
    requires WellFormed(e) && AllLed(e.sites) && NonNegative(e)
    requires i < |e.sites| && e.sites[i].info.id == d.id
    ensures var e' := e.(sites := e.sites[i := e.sites[i].(info := d)]);
            WellFormed(e') && AllLed(e'.sites) && NonNegative(e')
  {
  }

  lemma AppendKeepsInvariants(e: Engine, d: Descriptor)
    requires WellFormed(e) && AllLed(e.sites) && NonNegative(e)
    requires forall i :: 0 <= i < |e.sites| ==> e.sites[i].info.id != d.id
    ensures var e' := e.(sites := e.sites + [Site(d, [], Idle)]);
            WellFormed(e') && AllLed(e'.sites) && NonNegative(e')
  {
    var sites := e.sites + [Site(d, [], Idle)];
    assert forall i :: 0 <= i < |e.sites| ==> sites[i] == e.sites[i];
    assert HeadId([]) == None;
  }


  // ---------------------------------------------------------------------------
  // Rule table
  // ---------------------------------------------------------------------------

  /** `/set_priority_rules`: a valid request replaces the whole table; a refused one leaves it. */
  function SetPriorityRules(e: Engine, input: Option<Value>): (r: (Engine, Result<Rules, RulesError>))
    ensures r.1 == ParseRules(input)
    ensures r.1.Err? ==> r.0 == e
    ensures r.1.Ok? ==> r.0 == e.(rules := r.1.value)
    ensures r.1.Ok? ==> forall k :: k in r.0.rules ==> LastRule(input.value.fields, k) == Some(r.0.rules[k])
  {
    match ParseRules(input)
    case Err(err) => (e, Err(err))
    case Ok(m) =>
      assert forall k :: k in m ==> LastRule(input.value.fields, k) == Some(m[k]) by {
        forall k | k in m
          ensures LastRule(input.value.fields, k) == Some(m[k])
        {
          BuildRulesLastWins(input.value.fields, k);
        }
      }
      (e.(rules := m), Ok(m))
  }

  // ---------------------------------------------------------------------------
  // Location reports
  // ---------------------------------------------------------------------------

  /** The body of `/update_location`; `None` marks a key that was not sent, `Null` a value. */
  datatype LocationReport = LocationReport(
    id: Option<string>,
    lat: Option<Value>,
    lon: Option<Value>,
    direction: Value,
    speed: Value,
    timestamp: Option<Value>,
    conditions: seq<Value>,     // `patient_conditions`, `[]` when absent or `null`
    patientScore: Value,
    range: Option<Value>)

  /** Why `/update_location` is refused (status 400). */
  datatype ReportError =
    | BadReport(field: FieldError)          // `lat` or `lon` missing or not a float, or a bad `range`
    | NonStringTag                          // `compute_score` raised on a tag's `.lower()`
    | Unmeasurable(intersection: string)    // geopy raised measuring the distance to this intersection

  /** A report after its fields have been read: everything an entry needs but the distance. */
  datatype Reading = Reading(
    id: string,
    lat: real,
    lon: real,
    direction: Value,
    speed: Value,
    timestamp: real,
    conditions: seq<Value>,
    score: int)

  /**
   * `estimate_eta_s`: distance over speed when the speed is a positive number; `None` for an
   * absent, zero, negative or non-numeric speed (a string makes `speed > 0` raise, which the
   * source swallows).
   */
  function Eta(distance: real, speed: Value): (r: Option<real>)
    ensures r.Some? <==> Number(speed).Some? && Number(speed).value > 0.0
    ensures r.Some? ==> r.value * Number(speed).value == distance
  {
    match Number(speed)
    case Some(s) => if s > 0.0 then Some(distance / s) else None
    case None => None
  }

  /**
   * Reads a report: `lat` and `lon` are required floats, a missing or uncoercible timestamp is
   * replaced by `now`, the id defaults to "default", and the score comes from `PatientScore`,
   * whose failure on a non-string tag refuses the report.
   */
  function ParseReport(rules: Rules, rep: LocationReport, now: real): (r: Result<Reading, ReportError>)
    ensures r.Err? <==> RequiredFloat(rep.lat, "lat").Err? || RequiredFloat(rep.lon, "lon").Err?
                        || PatientScore(rules, rep.conditions, rep.patientScore).None?
    ensures RequiredFloat(rep.lat, "lat").Err? ==> r == Err(BadReport(RequiredFloat(rep.lat, "lat").error))
    ensures RequiredFloat(rep.lat, "lat").Ok? && RequiredFloat(rep.lon, "lon").Err?
            ==> r == Err(BadReport(RequiredFloat(rep.lon, "lon").error))
    ensures (RequiredFloat(rep.lat, "lat").Ok? && RequiredFloat(rep.lon, "lon").Ok?
             && PatientScore(rules, rep.conditions, rep.patientScore).None?) ==> r == Err(NonStringTag)
    ensures r.Ok? ==> Some(r.value.lat) == ToFloat(rep.lat.value) && Some(r.value.lon) == ToFloat(rep.lon.value)
    ensures r.Ok? ==> r.value.id == rep.id.GetOr("default")
                      && r.value.direction == rep.direction && r.value.speed == rep.speed
                      && r.value.conditions == rep.conditions
                      && Some(r.value.score) == PatientScore(rules, rep.conditions, rep.patientScore)
                      && (rep.timestamp.Some? && ToFloat(rep.timestamp.value).Some? ==> r.value.timestamp == ToFloat(rep.timestamp.value).value)
                      && (rep.timestamp.None? || ToFloat(rep.timestamp.value).None? ==> r.value.timestamp == now)
  {
    match RequiredFloat(rep.lat, "lat")
    case Err(f) => Err(BadReport(f))
    case Ok(lat) =>
      match RequiredFloat(rep.lon, "lon")
      case Err(f) => Err(BadReport(f))
      case Ok(lon) =>
        var ts := match rep.timestamp
          case None => now
          case Some(v) => ToFloat(v).GetOr(now);
        match PatientScore(rules, rep.conditions, rep.patientScore)
        case None => Err(NonStringTag)
        case Some(score) =>
          Ok(Reading(rep.id.GetOr("default"), lat, lon, rep.direction, rep.speed, ts, rep.conditions, score))
  }

  /** The entry a reading becomes at an intersection `distance` metres away. */
  function EntryAt(rd: Reading, distance: real): (x: Entry)
    ensures x.id == rd.id && x.score == rd.score && x.timestamp == rd.timestamp && x.distance == distance
    ensures x.lat == rd.lat && x.lon == rd.lon && x.direction == rd.direction && x.speed == rd.speed
    ensures x.conditions == rd.conditions
    ensures x.eta == Eta(distance, rd.speed)
  {
    Entry(rd.id, rd.lat, rd.lon, rd.direction, rd.speed, rd.timestamp, rd.conditions, rd.score,
          distance, Eta(distance, rd.speed))
  }

  /** `estimate_distance_m` from the ambulance to the intersection; `None` where geopy raises. */
  function Distance(geo: Geodesic, rd: Reading, site: Site): Option<real> {
    Measure(geo, rd.lat, rd.lon, site.info.lat, site.info.lon)
  }

  /**
   * The intersection is measurable and the ambulance lies within its radius, or within the
   * per-report `range` when one was sent.
   */
  predicate Covers(site: Site, rd: Reading, range: Option<real>, geo: Geodesic) {
    Distance(geo, rd, site).Some? && Distance(geo, rd, site).value <= range.GetOr(site.info.rangeM)
  }

  /**
   * A per-report `range` overrides every registered radius, so coverage no longer depends on
   * the radius; without one, a larger radius covers at least as much.
   */
  lemma RangeOverridesRadius(site: Site, rd: Reading, geo: Geodesic, range: real, radius: real)
    ensures var other := site.(info := site.info.(rangeM := radius));
            && Covers(site, rd, Some(range), geo) == Covers(other, rd, Some(range), geo)
            && (site.info.rangeM <= radius && Covers(site, rd, None, geo) ==> Covers(other, rd, None, geo))
  {
  }

  /**
   * One iteration of the report loop: `None` where the distance raises. Otherwise a covering
   * intersection gets the new entry (replacing the old one whole, in its slot, or last), then a
   * queue update and a decision are emitted; any other intersection is left exactly as it was,
   * including any entry the same ambulance has there.
   */
  function VisitSite(site: Site, rd: Reading, range: Option<real>, geo: Geodesic, now: real): (r: Option<(Site, bool, seq<Event>)>)
    ensures r.None? <==> Distance(geo, rd, site).None?
    ensures r.Some? ==> r.value.1 == Covers(site, rd, range, geo) && r.value.0.info == site.info
    ensures r.Some? && !r.value.1 ==> r.value.0 == site && r.value.2 == []
    ensures r.Some? && r.value.1 ==>
              var x := EntryAt(rd, Distance(geo, rd, site).value);
              && r.value.0.queue == Upsert(site.queue, x)
              && Find(r.value.0.queue, rd.id) == Some(x)
              && (forall id :: id != rd.id ==> Find(r.value.0.queue, id) == Find(site.queue, id))
    ensures r.Some? && r.value.1 ==>
              var (l, s) := Decide(site.info.id, r.value.0.queue, site.leader, PreemptMargin, now);
              r.value.0.leader == l
              && r.value.2 == [QueueUpdate(site.info.id, RankedQueue(r.value.0.queue), now), SignalUpdate(s)]
  {
    match Distance(geo, rd, site)
    case None => None
    case Some(d) =>
      if d <= range.GetOr(site.info.rangeM) then
        var x := EntryAt(rd, d);
        var q := Upsert(site.queue, x);
        UpsertFind(site.queue, x);
        var (l, s) := Decide(site.info.id, q, site.leader, PreemptMargin, now);
        Some((Site(site.info, q, l), true, [QueueUpdate(site.info.id, RankedQueue(q), now), SignalUpdate(s)]))
      else
        Some((site, false, []))
  }

  /** Reference definition: the ids of the covering intersections, in registry order. */
  function CoveredIds(sites: seq<Site>, rd: Reading, range: Option<real>, geo: Geodesic): seq<string> {
    if |sites| == 0 then []
    else (if Covers(sites[0], rd, range, geo) then [sites[0].info.id] else []) + CoveredIds(sites[1..], rd, range, geo)
  }

  /** How many intersections, from the start of the registry, geopy measures before one raises. */
  function Measurable(sites: seq<Site>, rd: Reading, geo: Geodesic): (k: nat)
    ensures k <= |sites|
    ensures forall i :: 0 <= i < k ==> Distance(geo, rd, sites[i]).Some?
    ensures k < |sites| ==> Distance(geo, rd, sites[k]).None?
  {
    if |sites| == 0 || Distance(geo, rd, sites[0]).None? then 0
    else 1 + Measurable(sites[1..], rd, geo)
  }

  /**
   * The outcome of the report loop: the registry after it, the ids assigned, the events emitted,
   * and the intersection where the distance raised, if one did (the loop stops there).
   */
  datatype Pass = Pass(sites: seq<Site>, ids: seq<string>, events: seq<Event>, failedAt: Option<string>)

  /** One intersection's step of the report loop, as a value the loop can be given. */
  function Step(rd: Reading, range: Option<real>, geo: Geodesic, now: real): Site -> Option<(Site, bool, seq<Event>)> {
    site => VisitSite(site, rd, range, geo, now)
  }

  /** The outcome of a loop that visited one more intersection first. */
  function Prepend(s0: Site, ids: seq<string>, events: seq<Event>, p: Pass): Pass {
    Pass([s0] + p.sites, ids + p.ids, events + p.events, p.failedAt)
  }

  /** The outcome of running the loop over `b` after a pass `pa`, unless `pa` stopped early. */
  function Then(pa: Pass, b: seq<Site>, pb: Pass): Pass {
    if pa.failedAt.Some? then Pass(pa.sites + b, pa.ids, pa.events, pa.failedAt)
    else Pass(pa.sites + pb.sites, pa.ids + pb.ids, pa.events + pb.events, pb.failedAt)
  }

  /**
   * The report loop as the source runs it, one intersection at a time, for any step: it stops
   * at the first intersection the step refuses. `Visit` states what it does with `Step`.
   */
  function Loop(sites: seq<Site>, step: Site -> Option<(Site, bool, seq<Event>)>): Pass {
    if |sites| == 0 then Pass([], [], [], None)
    else
      match step(sites[0])
      case None => Pass(sites, [], [], Some(sites[0].info.id))
      case Some((s0, hit, ev0)) =>
        Prepend(s0, if hit then [sites[0].info.id] else [], ev0, Loop(sites[1..], step))
  }

  /** One step of the loop over a non-empty registry. */
  lemma LoopCons(sites: seq<Site>, step: Site -> Option<(Site, bool, seq<Event>)>)
    requires |sites| > 0 && step(sites[0]).Some?
    ensures var v := step(sites[0]).value;
            Loop(sites, step) == Prepend(v.0, if v.1 then [sites[0].info.id] else [], v.2, Loop(sites[1..], step))
  {
  }

  /** How many intersections the loop steps through before the step first refuses one. */
  function Reach(sites: seq<Site>, step: Site -> Option<(Site, bool, seq<Event>)>): (k: nat)
    ensures k <= |sites|
  {
    if |sites| == 0 || step(sites[0]).None? then 0 else 1 + Reach(sites[1..], step)
  }

  /** The loop replaces each intersection it reaches by the step's result and keeps the rest. */
  lemma {:induction false} LoopReach(sites: seq<Site>, step: Site -> Option<(Site, bool, seq<Event>)>)
    ensures var r := Loop(sites, step);
            && |r.sites| == |sites|
            && (forall i :: 0 <= i < Reach(sites, step) ==> step(sites[i]).Some? && r.sites[i] == step(sites[i]).value.0)
            && (forall i :: Reach(sites, step) <= i < |sites| ==> r.sites[i] == sites[i])
  {
    if |sites| > 0 && step(sites[0]).Some? {
      LoopReach(sites[1..], step);
      LoopCons(sites, step);
      var p := Loop(sites[1..], step);
      var r := Loop(sites, step);
      assert r.sites == [step(sites[0]).value.0] + p.sites;
      assert forall i :: 1 <= i < |sites| ==> r.sites[i] == p.sites[i - 1] && sites[1..][i - 1] == sites[i];
    }
  }

  /** With the report's step, the loop reaches exactly the measurable prefix of the registry. */
  lemma {:induction false} ReachIsMeasurable(sites: seq<Site>, rd: Reading, range: Option<real>, geo: Geodesic, now: real)
    ensures Reach(sites, Step(rd, range, geo, now)) == Measurable(sites, rd, geo)
  {
    if |sites| > 0 {
      assert Step(rd, range, geo, now)(sites[0]) == VisitSite(sites[0], rd, range, geo, now);
      ReachIsMeasurable(sites[1..], rd, range, geo, now);
    }
  }

  /** What the loop does to the registry. */
  lemma LoopSites(sites: seq<Site>, rd: Reading, range: Option<real>, geo: Geodesic, now: real)
    ensures var r := Loop(sites, Step(rd, range, geo, now));
            && |r.sites| == |sites|
            && (forall i :: 0 <= i < Measurable(sites, rd, geo) ==> r.sites[i] == VisitSite(sites[i], rd, range, geo, now).value.0)
            && (forall i :: Measurable(sites, rd, geo) <= i < |sites| ==> r.sites[i] == sites[i])
  {
    var step := Step(rd, range, geo, now);
    LoopReach(sites, step);
    ReachIsMeasurable(sites, rd, range, geo, now);
    assert forall i :: 0 <= i < |sites| ==> step(sites[i]) == VisitSite(sites[i], rd, range, geo, now);
  }

  /** What the loop replies and emits. */
  lemma LoopReply(sites: seq<Site>, rd: Reading, range: Option<real>, geo: Geodesic, now: real)
    ensures var r := Loop(sites, Step(rd, range, geo, now));
            && r.failedAt == (if Measurable(sites, rd, geo) < |sites| then Some(sites[Measurable(sites, rd, geo)].info.id) else None)
            && (r.failedAt.None? ==> r.ids == CoveredIds(sites, rd, range, geo))
            && |r.events| == 2 * |r.ids|
  {
    LoopFailedAt(sites, rd, range, geo, now);
    LoopIds(sites, rd, range, geo, now);
    LoopEvents(sites, rd, range, geo, now);
  }

  /** The loop stops exactly at the first intersection geopy cannot measure. */
  lemma {:induction false} LoopFailedAt(sites: seq<Site>, rd: Reading, range: Option<real>, geo: Geodesic, now: real)
    ensures Loop(sites, Step(rd, range, geo, now)).failedAt
            == (if Measurable(sites, rd, geo) < |sites| then Some(sites[Measurable(sites, rd, geo)].info.id) else None)
  {
    if |sites| > 0 {
      var step := Step(rd, range, geo, now);
      assert step(sites[0]) == VisitSite(sites[0], rd, range, geo, now);
      if step(sites[0]).Some? {
        LoopFailedAt(sites[1..], rd, range, geo, now);
        LoopCons(sites, step);
        var k := Measurable(sites[1..], rd, geo);
        assert Measurable(sites, rd, geo) == k + 1;
        assert k < |sites[1..]| ==> sites[1..][k] == sites[k + 1];
      }
    }
  }

  /** A loop that measured every intersection assigned exactly the covering ones, in order. */
  lemma {:induction false} LoopIds(sites: seq<Site>, rd: Reading, range: Option<real>, geo: Geodesic, now: real)
    ensures var r := Loop(sites, Step(rd, range, geo, now));
            r.failedAt.None? ==> r.ids == CoveredIds(sites, rd, range, geo)
  {
    if |sites| > 0 {
      var step := Step(rd, range, geo, now);
      assert step(sites[0]) == VisitSite(sites[0], rd, range, geo, now);
      if step(sites[0]).Some? {
        LoopIds(sites[1..], rd, range, geo, now);
        LoopCons(sites, step);
      }
    }
  }

  /** Every assigned intersection contributes its two events, and no other emits any. */
  lemma {:induction false} LoopEvents(sites: seq<Site>, rd: Reading, range: Option<real>, geo: Geodesic, now: real)
    ensures var r := Loop(sites, Step(rd, range, geo, now));
            |r.events| == 2 * |r.ids|
  {
    if |sites| > 0 {
      var step := Step(rd, range, geo, now);
      assert step(sites[0]) == VisitSite(sites[0], rd, range, geo, now);
      if step(sites[0]).Some? {
        LoopEvents(sites[1..], rd, range, geo, now);
        LoopCons(sites, step);
      }
    }
  }

  /**
   * The report loop over the registry, in registration order. It stops at the first
   * intersection geopy cannot measure; the intersections before it have been updated and their
   * events emitted, and that one and all after it are untouched.
   */
  function Visit(sites: seq<Site>, rd: Reading, range: Option<real>, geo: Geodesic, now: real): (r: Pass)
    ensures |r.sites| == |sites|
    ensures forall i :: 0 <= i < Measurable(sites, rd, geo) ==> r.sites[i] == VisitSite(sites[i], rd, range, geo, now).value.0
    ensures forall i :: Measurable(sites, rd, geo) <= i < |sites| ==> r.sites[i] == sites[i]
    ensures r.failedAt == (if Measurable(sites, rd, geo) < |sites| then Some(sites[Measurable(sites, rd, geo)].info.id) else None)
    ensures r.failedAt.None? ==> r.ids == CoveredIds(sites, rd, range, geo)
    ensures |r.events| == 2 * |r.ids|
  {
    LoopSites(sites, rd, range, geo, now);
    LoopReply(sites, rd, range, geo, now);
    Loop(sites, Step(rd, range, geo, now))
  }

  /** The loop over a registry of one intersection is that intersection's visit. */
  lemma VisitSingle(site: Site, rd: Reading, range: Option<real>, geo: Geodesic, now: real)
    ensures Visit([site], rd, range, geo, now)
            == match VisitSite(site, rd, range, geo, now)
               case None => Pass([site], [], [], Some(site.info.id))
               case Some((s0, hit, ev)) => Pass([s0], if hit then [site.info.id] else [], ev, None)
  {
    assert [site][1..] == [];
    assert Step(rd, range, geo, now)(site) == VisitSite(site, rd, range, geo, now);
    assert Loop([], Step(rd, range, geo, now)) == Pass([], [], [], None);
  }

  /** Running on after a pass that visited one more intersection first. */
  lemma PrependThen(s0: Site, ids: seq<string>, events: seq<Event>, p: Pass, b: seq<Site>, pb: Pass)
    ensures Then(Prepend(s0, ids, events, p), b, pb) == Prepend(s0, ids, events, Then(p, b, pb))
  {
    if p.failedAt.Some? {
      assert [s0] + (p.sites + b) == ([s0] + p.sites) + b;
    } else {
      assert [s0] + (p.sites + pb.sites) == ([s0] + p.sites) + pb.sites;
      assert ids + (p.ids + pb.ids) == (ids + p.ids) + pb.ids;
      assert events + (p.events + pb.events) == (events + p.events) + pb.events;
    }
  }

  lemma {:induction false} LoopAppend(a: seq<Site>, b: seq<Site>, step: Site -> Option<(Site, bool, seq<Event>)>)
    ensures Loop(a + b, step) == Then(Loop(a, step), b, Loop(b, step))
  {
    var pb := Loop(b, step);
    if |a| == 0 {
      assert a + b == b;
      assert Loop(a, step) == Pass([], [], [], None);
      assert [] + pb.sites == pb.sites && [] + pb.ids == pb.ids && [] + pb.events == pb.events;
    } else {
      var ab := a + b;
      assert ab[0] == a[0] && ab[1..] == a[1..] + b;
      var v := step(a[0]);
      if v.None? {
        assert Loop(a, step) == Pass(a, [], [], Some(a[0].info.id));
        assert Loop(ab, step) == Pass(ab, [], [], Some(a[0].info.id));
      } else {
        LoopAppend(a[1..], b, step);
        var ids: seq<string> := if v.value.1 then [a[0].info.id] else [];
        LoopCons(a, step);
        LoopCons(ab, step);
        PrependThen(v.value.0, ids, v.value.2, Loop(a[1..], step), b, pb);
      }
    }
  }

  /**
   * The loop over a concatenated registry runs over the first part and, unless it stopped
   * there, continues over the second: so the events are each visited intersection's pair, in
   * registry order.
   */
  lemma VisitAppend(a: seq<Site>, b: seq<Site>, rd: Reading, range: Option<real>, geo: Geodesic, now: real)
    ensures var pa := Visit(a, rd, range, geo, now);
            var pb := Visit(b, rd, range, geo, now);
            Visit(a + b, rd, range, geo, now)
            == if pa.failedAt.Some? then Pass(pa.sites + b, pa.ids, pa.events, pa.failedAt)
               else Pass(pa.sites + pb.sites, pa.ids + pb.ids, pa.events + pb.events, pb.failedAt)
  {
    LoopAppend(a, b, Step(rd, range, geo, now));
  }

  /**
   * `/update_location`: reply with the ids of the intersections the report fell within, or a
   * refusal. The `range` override is coerced inside the loop, so a bad one is refused only when
   * some intersection is registered, raising before anything changes. A distance geopy refuses
   * raises mid-loop: the refusal then keeps the updates and events of the intersections before.
   */
  function ReportLocation(e: Engine, rep: LocationReport, now: real, geo: Geodesic): (r: (Engine, Result<seq<string>, ReportError>, seq<Event>))
    ensures r.1.Err? && !r.1.error.Unmeasurable? ==> r.0 == e && r.2 == []
    ensures ParseReport(e.rules, rep, now).Err? ==> r.1 == Err(ParseReport(e.rules, rep, now).error)
    ensures ParseReport(e.rules, rep, now).Ok? && |e.sites| > 0 && OptionalFloat(rep.range, "range").Err?
            ==> r.1 == Err(BadReport(InvalidField("range")))
    ensures ParseReport(e.rules, rep, now).Ok? && |e.sites| == 0 ==> r == (e, Ok([]), [])
    ensures ParseReport(e.rules, rep, now).Ok? && |e.sites| > 0 && OptionalFloat(rep.range, "range").Ok? ==>
              var p := Visit(e.sites, ParseReport(e.rules, rep, now).value, OptionalFloat(rep.range, "range").value, geo, now);
              && r.0 == e.(sites := p.sites) && r.2 == p.events
              && r.1 == (if p.failedAt.Some? then Err(Unmeasurable(p.failedAt.value)) else Ok(p.ids))
    ensures r.0.rules == e.rules && |r.0.sites| == |e.sites|
  {
    match ParseReport(e.rules, rep, now)
    case Err(err) => (e, Err(err), [])
    case Ok(rd) =>
      if |e.sites| == 0 then (e, Ok([]), [])
      else
        match OptionalFloat(rep.range, "range")
        case Err(f) => (e, Err(BadReport(f)), [])
        case Ok(range) =>
          var p := Visit(e.sites, rd, range, geo, now);
          match p.failedAt
          case Some(id) => (e.(sites := p.sites), Err(Unmeasurable(id)), p.events)
          case None => (e.(sites := p.sites), Ok(p.ids), p.events)
  }

  /**
   * A report replaces the reporting ambulance's entry whole at exactly the covered
   * intersections the loop reaches, leaves every other entry and every other intersection as it
   * was (an ambulance out of range keeps a stale entry until the reaper drops it), and replies
   * with those intersections' ids in registry order, or names the first it could not measure.
   */
  lemma ReportTouchesOnlyCoveredSites(e: Engine, rep: LocationReport, now: real, geo: Geodesic, i: int)
    requires ParseReport(e.rules, rep, now).Ok? && OptionalFloat(rep.range, "range").Ok?
    requires 0 <= i < |e.sites|
    ensures var rd := ParseReport(e.rules, rep, now).value;
            var range := OptionalFloat(rep.range, "range").value;
            var k := Measurable(e.sites, rd, geo);
            var (e', res, _) := ReportLocation(e, rep, now, geo);
            && (k == |e.sites| ==> res == Ok(CoveredIds(e.sites, rd, range, geo)))
            && (k < |e.sites| ==> res == Err(Unmeasurable(e.sites[k].info.id)))
            && e'.sites[i].info == e.sites[i].info
            && (i < k && Covers(e.sites[i], rd, range, geo) ==>
                  var x := EntryAt(rd, Distance(geo, rd, e.sites[i]).value);
                  && e'.sites[i].queue == Upsert(e.sites[i].queue, x)
                  && Find(e'.sites[i].queue, rd.id) == Some(x)
                  && forall id :: id != rd.id ==> Find(e'.sites[i].queue, id) == Find(e.sites[i].queue, id))
            && (k <= i || !Covers(e.sites[i], rd, range, geo) ==> e'.sites[i] == e.sites[i])
  {
  }

  /**
   * With margin 0 and no negative weight or score, a report keeps every holder at the head of
   * its intersection's ranking, and keeps the state well formed, whether or not it is refused.
   */
  lemma ReportKeepsHolderAtHead(e: Engine, rep: LocationReport, now: real, geo: Geodesic)
    requires WellFormed(e) && AllLed(e.sites) && NonNegative(e)
    requires ToInt(rep.patientScore).Some? ==> ToInt(rep.patientScore).value >= 0
    ensures var e' := ReportLocation(e, rep, now, geo).0;
            WellFormed(e') && AllLed(e'.sites) && NonNegative(e')
  {
    var e' := ReportLocation(e, rep, now, geo).0;
    if ParseReport(e.rules, rep, now).Ok? && |e.sites| > 0 && OptionalFloat(rep.range, "range").Ok? {
      var rd := ParseReport(e.rules, rep, now).value;
      var range := OptionalFloat(rep.range, "range").value;
      var k := Measurable(e.sites, rd, geo);
      var p := Visit(e.sites, rd, range, geo, now);
      assert e'.sites == p.sites;
      assert rd.score >= 0;
      forall i | 0 <= i < |e.sites|
        ensures e'.sites[i].info == e.sites[i].info
        ensures UniqueIds(e'.sites[i].queue)
        ensures NonNegativeScores(e'.sites[i].queue)
        ensures LeadsQueue(e'.sites[i].leader, e'.sites[i].queue)
      {
        if i < k {
          VisitSiteKeepsLed(e.sites[i], rd, range, geo, now);
        }
      }
    }
  }

  /** One intersection's visit keeps its queue's ids unique, its scores non-negative and its holder at the head. */
  lemma VisitSiteKeepsLed(site: Site, rd: Reading, range: Option<real>, geo: Geodesic, now: real)
    requires UniqueIds(site.queue) && NonNegativeScores(site.queue) && LeadsQueue(site.leader, site.queue)
    requires rd.score >= 0
    requires VisitSite(site, rd, range, geo, now).Some?
    ensures var s := VisitSite(site, rd, range, geo, now).value.0;
            UniqueIds(s.queue) && NonNegativeScores(s.queue) && LeadsQueue(s.leader, s.queue)
  {
    if Covers(site, rd, range, geo) {
      var x := EntryAt(rd, Distance(geo, rd, site).value);
      UpsertContents(site.queue, x);
      UpsertUnique(site.queue, x);
      DecideElectsHead(site.info.id, Upsert(site.queue, x), site.leader, now);
    }
  }

  // ---------------------------------------------------------------------------
  // The reaper
  // ---------------------------------------------------------------------------

  /**
   * One intersection of a reaper sweep: drop the stale entries, keeping the rest in queue
   * order; only if something was dropped, emit a queue update and re-decide.
   */
  function SweepSite(site: Site, now: real): (r: (Site, seq<Event>))
    ensures r.0.info == site.info
    ensures r.0.queue == Prune(site.queue, now, StaleSeconds)
    ensures forall x :: x in r.0.queue <==> x in site.queue && !IsStale(x, now, StaleSeconds)
    ensures (forall x :: x in site.queue ==> !IsStale(x, now, StaleSeconds)) ==> r == (site, [])
    ensures (exists x :: x in site.queue && IsStale(x, now, StaleSeconds)) ==>
              var (l, s) := Decide(site.info.id, r.0.queue, site.leader, PreemptMargin, now);
              r.0.leader == l
              && r.1 == [QueueUpdate(site.info.id, RankedQueue(r.0.queue), now), SignalUpdate(s)]
  {
    var kept := Prune(site.queue, now, StaleSeconds);
    if |kept| < |site.queue| then
      var (l, s) := Decide(site.info.id, kept, site.leader, PreemptMargin, now);
      (Site(site.info, kept, l), [QueueUpdate(site.info.id, RankedQueue(kept), now), SignalUpdate(s)])
    else
      PruneKeepsFresh(site.queue, now, StaleSeconds);
      (site, [])
  }

  /** One intersection's part of a reaper sweep, as a value the pass can be given. */
  function Reap(now: real): Site -> (Site, seq<Event>) {
    site => SweepSite(site, now)
  }

  /** A pass over the registry with any per-intersection step, in registration order. */
  function Each(sites: seq<Site>, step: Site -> (Site, seq<Event>)): (seq<Site>, seq<Event>) {
    if |sites| == 0 then ([], [])
    else
      var rest := Each(sites[1..], step);
      ([step(sites[0]).0] + rest.0, step(sites[0]).1 + rest.1)
  }

  /** Each intersection of a pass is its own step's result. */
  lemma {:induction false} EachSites(sites: seq<Site>, step: Site -> (Site, seq<Event>))
    ensures |Each(sites, step).0| == |sites|
    ensures forall i :: 0 <= i < |sites| ==> Each(sites, step).0[i] == step(sites[i]).0
  {
    if |sites| > 0 {
      EachSites(sites[1..], step);
      assert forall i :: 1 <= i < |sites| ==> sites[1..][i - 1] == sites[i];
    }
  }

  /** A pass over a concatenated registry is the pass over each part, concatenated. */
  lemma {:induction false} EachAppend(a: seq<Site>, b: seq<Site>, step: Site -> (Site, seq<Event>))
    ensures Each(a + b, step) == (Each(a, step).0 + Each(b, step).0, Each(a, step).1 + Each(b, step).1)
  {
    if |a| == 0 {
      assert a + b == b;
      assert [] + Each(b, step).0 == Each(b, step).0 && [] + Each(b, step).1 == Each(b, step).1;
    } else {
      var ab := a + b;
      assert ab[0] == a[0] && ab[1..] == a[1..] + b;
      EachAppend(a[1..], b, step);
      var h := step(a[0]);
      var ra := Each(a[1..], step);
      var rb := Each(b, step);
      assert [h.0] + (ra.0 + rb.0) == ([h.0] + ra.0) + rb.0;
      assert h.1 + (ra.1 + rb.1) == (h.1 + ra.1) + rb.1;
    }
  }

  /** A pass whose every step is quiet changes nothing and emits nothing. */
  lemma {:induction false} EachQuiet(sites: seq<Site>, step: Site -> (Site, seq<Event>))
    requires forall i :: 0 <= i < |sites| ==> step(sites[i]) == (sites[i], [])
    ensures Each(sites, step) == (sites, [])
  {
    if |sites| > 0 {
      assert forall i :: 0 <= i < |sites[1..]| ==> sites[1..][i] == sites[i + 1];
      EachQuiet(sites[1..], step);
      var rest := Each(sites[1..], step);
      assert step(sites[0]).0 == sites[0] && step(sites[0]).1 == [];
      assert rest.0 == sites[1..] && rest.1 == [];
      assert Each(sites, step).0 == [sites[0]] + sites[1..] == sites;
      assert Each(sites, step).1 == step(sites[0]).1 + rest.1 == [];
    } else {
      assert sites == [];
    }
  }

  /** The reaper's pass over the registry, in registration order. */
  function SweepSites(sites: seq<Site>, now: real): (r: (seq<Site>, seq<Event>))
    ensures |r.0| == |sites|
    ensures forall i :: 0 <= i < |sites| ==> r.0[i] == SweepSite(sites[i], now).0
  {
    EachSites(sites, Reap(now));
    Each(sites, Reap(now))
  }

  /** A pass over one intersection is that intersection's sweep. */
  lemma SweepSingle(site: Site, now: real)
    ensures SweepSites([site], now) == ([SweepSite(site, now).0], SweepSite(site, now).1)
  {
    assert [site][1..] == [];
    assert Each([], Reap(now)) == ([], []);
    var h := Reap(now)(site);
    assert [h.0] + [] == [h.0] && h.1 + [] == h.1;
  }

  /**
   * A pass over a concatenated registry is the pass over each part, concatenated: so the
   * events are each intersection's own, in registry order.
   */
  lemma SweepSitesAppend(a: seq<Site>, b: seq<Site>, now: real)
    ensures SweepSites(a + b, now) == (SweepSites(a, now).0 + SweepSites(b, now).0, SweepSites(a, now).1 + SweepSites(b, now).1)
  {
    EachAppend(a, b, Reap(now));
  }

  /** One pass of `cleanup_loop` at time `now`. */
  function Sweep(e: Engine, now: real): (r: (Engine, seq<Event>))
    ensures r.0.rules == e.rules && |r.0.sites| == |e.sites|
    ensures forall i :: 0 <= i < |e.sites| ==> r.0.sites[i] == SweepSite(e.sites[i], now).0
    ensures forall i :: 0 <= i < |e.sites| ==>
              r.0.sites[i].info == e.sites[i].info && r.0.sites[i].queue == Prune(e.sites[i].queue, now, StaleSeconds)
    ensures r.1 == SweepSites(e.sites, now).1
  {
    var (sites, events) := SweepSites(e.sites, now);
    (e.(sites := sites), events)
  }

  /** A sweep with nothing stale changes nothing and emits nothing. */
  lemma SweepSitesQuiet(sites: seq<Site>, now: real)
    requires forall i, x :: 0 <= i < |sites| && x in sites[i].queue ==> !IsStale(x, now, StaleSeconds)
    ensures SweepSites(sites, now) == (sites, [])
  {
    forall i | 0 <= i < |sites|
      ensures Reap(now)(sites[i]) == (sites[i], [])
    {
      assert forall x :: x in sites[i].queue ==> !IsStale(x, now, StaleSeconds);
    }
    EachQuiet(sites, Reap(now));
  }

  /** Sweeping twice at the same moment is sweeping once: the second pass finds nothing to do. */
  lemma SweepIdempotent(e: Engine, now: real)
    ensures Sweep(Sweep(e, now).0, now) == (Sweep(e, now).0, [])
  {
    SweepSitesQuiet(Sweep(e, now).0.sites, now);
  }

  /** With margin 0 and no negative score, a sweep keeps every holder at the head of its ranking. */
  lemma SweepKeepsHolderAtHead(e: Engine, now: real)
    requires WellFormed(e) && AllLed(e.sites) && NonNegative(e)
    ensures var e' := Sweep(e, now).0;
            WellFormed(e') && AllLed(e'.sites) && NonNegative(e')
  {
    var e' := Sweep(e, now).0;
    forall i | 0 <= i < |e.sites|
      ensures UniqueIds(e'.sites[i].queue)
      ensures LeadsQueue(e'.sites[i].leader, e'.sites[i].queue)
    {
      var site := e.sites[i];
      PruneFind(site.queue, now, StaleSeconds, "");
      if exists x :: x in site.queue && IsStale(x, now, StaleSeconds) {
        DecideElectsHead(site.info.id, Prune(site.queue, now, StaleSeconds), site.leader, now);
      }
    }
  }

  /**
   * When the holder's own entry goes stale, the sweep hands priority on: to the head of what
   * is left (a preempting signal), or, if nothing is left, clears it with CROSSED.
   */
  lemma StaleHolderIsReplaced(site: Site, now: real, holder: Entry)
    requires UniqueIds(site.queue) && NonNegativeScores(site.queue)
    requires LeadsQueue(site.leader, site.queue)
    requires holder in site.queue && site.leader.activeTop == Some(holder.id)
    requires IsStale(holder, now, StaleSeconds)
    ensures var (site', events) := SweepSite(site, now);
            var kept := site'.queue;
            |events| == 2 && events[1].SignalUpdate?
            && (|kept| == 0 ==> events[1].signal.status == Crossed && site'.leader.activeTop.None?)
            && (|kept| > 0 ==> events[1].signal.preempt && events[1].signal.top == Some(RankedQueue(kept)[0])
                               && site'.leader.activeTop == Some(RankedQueue(kept)[0].id))
  {
    var kept := Prune(site.queue, now, StaleSeconds);
    PruneFind(site.queue, now, StaleSeconds, holder.id);
    FindUnique(site.queue, holder);
    if |kept| > 0 {
      RankedQueueHead(kept);
      var top := RankedQueue(kept)[0];
      assert top.id != holder.id by {
        if top.id == holder.id {
          FindUnique(kept, top);
        }
      }
    }
  }

  // ---------------------------------------------------------------------------
  // A worked scenario
  // ---------------------------------------------------------------------------

  /** A stand-in distance: the reporting ambulance's longitude, read as metres. */
  function LongitudeAsMetres(lat: real, lon: real, lat2: real, lon2: real): real {
    lon
  }

  /** A report from the equator at longitude `at`, with one condition tag. */
  function TaggedReport(id: string, at: real, tag: string, ts: real): LocationReport {
    LocationReport(Some(id), Some(Int(0)), Some(Float(at)), Null, Null, Some(Float(ts)), [Str(tag)], Null, None)
  }

  const I1: Descriptor := Descriptor("I1", "intersection:I1", 0.0, 0.0, DefaultRadius)
  const FeverA: Entry := Entry("A", 0.0, 100.0, Null, Null, 1.0, [Str("fever")], 2, 100.0, None)
  const PregnantB: Entry := Entry("B", 0.0, 200.0, Null, Null, 2.0, [Str("pregnant")], 10, 200.0, None)

  /**
   * A worked run with the default radius and rule table: intersection I1 is registered; a
   * fever patient's ambulance 100 m away takes priority; then a pregnant patient's ambulance
   * 200 m away preempts it and heads the published queue, though it is farther away.
   */
  lemma RegisterFirstIntersection()
    ensures Register(Initial, RegisterRequest(Some("I1"), None, Some(Int(0)), Some(Int(0)), None))
            == (Engine(DefaultRules, [Site(I1, [], Idle)]), Ok(I1))
  {
    var req := RegisterRequest(Some("I1"), None, Some(Int(0)), Some(Int(0)), None);
    assert "intersection:" + "I1" == "intersection:I1";
    assert ParseDescriptor(req) == Ok(I1);
    assert SiteIndex([], "I1") == None;
    assert [] + [Site(I1, [], Idle)] == [Site(I1, [], Idle)];
  }

  lemma FeverReading()
    ensures var r := ParseReport(DefaultRules, TaggedReport("A", 100.0, "fever", 1.0), 1.0);
            r.Ok? && r.value.lat == 0.0 && r.value.lon == 100.0 && EntryAt(r.value, 100.0) == FeverA
  {
    assert Lower("fever") == "fever";
    TagsOfSingle("fever");
    assert TagScore(DefaultRules, ["fever"]) == 2;
  }

  lemma FeverArrives()
    ensures var (e, r, _) := ReportLocation(Engine(DefaultRules, [Site(I1, [], Idle)]),
                                            TaggedReport("A", 100.0, "fever", 1.0), 1.0, LongitudeAsMetres);
            r == Ok(["I1"]) && e == Engine(DefaultRules, [Site(I1, [FeverA], Leader(Some("A"), 1.0))])
  {
    FeverReading();
    var rd := ParseReport(DefaultRules, TaggedReport("A", 100.0, "fever", 1.0), 1.0).value;
    var site := Site(I1, [], Idle);
    assert Distance(LongitudeAsMetres, rd, site) == Some(100.0);
    assert Covers(site, rd, None, LongitudeAsMetres);
    assert Upsert([], FeverA) == [FeverA];
    assert RankedQueue([FeverA]) == [FeverA];
    assert Decide("I1", [FeverA], Idle, PreemptMargin, 1.0).0 == Leader(Some("A"), 1.0);
    assert VisitSite(site, rd, None, LongitudeAsMetres, 1.0).value.0 == Site(I1, [FeverA], Leader(Some("A"), 1.0));
    VisitSingle(site, rd, None, LongitudeAsMetres, 1.0);
  }

  lemma PregnantRanksFirst()
    ensures RankedQueue([FeverA, PregnantB]) == [PregnantB, FeverA]
    ensures Decide("I1", [FeverA, PregnantB], Leader(Some("A"), 1.0), PreemptMargin, 2.0)
            == (Leader(Some("B"), 2.0), Signal("I1", Emergency, Some(PregnantB), true, Some("Giving priority to B")))
  {
    assert [FeverA, PregnantB][1..] == [PregnantB];
    assert RankedQueue([PregnantB]) == [PregnantB];
    assert Insert(FeverA, [PregnantB]) == [PregnantB, FeverA];
    assert Find([FeverA, PregnantB], "A") == Some(FeverA);
    assert "Giving priority to " + "B" == "Giving priority to B";
  }

  lemma PregnantReading()
    ensures var r := ParseReport(DefaultRules, TaggedReport("B", 200.0, "pregnant", 2.0), 2.0);
            r.Ok? && r.value.lat == 0.0 && r.value.lon == 200.0 && EntryAt(r.value, 200.0) == PregnantB
  {
    assert Lower("pregnant") == "pregnant";
    TagsOfSingle("pregnant");
    assert TagScore(DefaultRules, ["pregnant"]) == 10;
  }

  lemma PregnantArrives()
    ensures var (e, r, ev) := ReportLocation(Engine(DefaultRules, [Site(I1, [FeverA], Leader(Some("A"), 1.0))]),
                                             TaggedReport("B", 200.0, "pregnant", 2.0), 2.0, LongitudeAsMetres);
            && r == Ok(["I1"])
            && e == Engine(DefaultRules, [Site(I1, [FeverA, PregnantB], Leader(Some("B"), 2.0))])
            && ev == [QueueUpdate("I1", [PregnantB, FeverA], 2.0),
                      SignalUpdate(Signal("I1", Emergency, Some(PregnantB), true, Some("Giving priority to B")))]
  {
    PregnantReading();
    var rd := ParseReport(DefaultRules, TaggedReport("B", 200.0, "pregnant", 2.0), 2.0).value;
    var site := Site(I1, [FeverA], Leader(Some("A"), 1.0));
    assert Distance(LongitudeAsMetres, rd, site) == Some(200.0);
    assert Covers(site, rd, None, LongitudeAsMetres);
    assert Upsert([FeverA], PregnantB) == [FeverA, PregnantB] by {
      assert Upsert([], PregnantB) == [PregnantB];
    }
    PregnantRanksFirst();
    VisitSingle(site, rd, None, LongitudeAsMetres, 2.0);
  }

  /**
   * An intersection registered off the globe (registration only checks that `lat` is a float)
   * makes every later report fail at it, after the intersections registered before it have
   * been updated and their events emitted.
   */
  lemma OffGlobeIntersectionFailsLate()
    ensures var off := Site(Descriptor("I2", "intersection:I2", 95.0, 0.0, DefaultRadius), [], Idle);
            var (e, r, ev) := ReportLocation(Engine(DefaultRules, [Site(I1, [], Idle), off]),
                                             TaggedReport("A", 100.0, "fever", 1.0), 1.0, LongitudeAsMetres);
            && r == Err(Unmeasurable("I2"))
            && e == Engine(DefaultRules, [Site(I1, [FeverA], Leader(Some("A"), 1.0)), off])
            && |ev| == 2
  {
    FeverReading();
    var off := Site(Descriptor("I2", "intersection:I2", 95.0, 0.0, DefaultRadius), [], Idle);
    var rd := ParseReport(DefaultRules, TaggedReport("A", 100.0, "fever", 1.0), 1.0).value;
    var site := Site(I1, [], Idle);
    assert Distance(LongitudeAsMetres, rd, site) == Some(100.0);
    assert Distance(LongitudeAsMetres, rd, off) == None;
    assert Upsert([], FeverA) == [FeverA];
    assert RankedQueue([FeverA]) == [FeverA];
    VisitSingle(site, rd, None, LongitudeAsMetres, 1.0);
    VisitSingle(off, rd, None, LongitudeAsMetres, 1.0);
    assert [site, off] == [site] + [off];
    VisitAppend([site], [off], rd, None, LongitudeAsMetres, 1.0);
  }
}
