# Ambulance priority at traffic lights — a Dafny model

This project models the decision logic of three Python backends that give ambulances priority at
traffic lights.

- **backend_extended.py** is the multi-intersection server. It keeps a registry of up to 100
  intersections. Ambulance location reports are scored from patient-condition tags. Each
  intersection whose detection radius covers the ambulance gets an entry in its queue. The queue
  is ranked by score, then ETA, then distance, then report time, and a preemption decision is
  made for its head. A background reaper drops entries older than 60 seconds.
- **backend_fastapi.py** is a single traffic light with exit hysteresis. An ambulance already in
  range stays in until it is more than range + 5 m away; it enters only within the range.
- **backend2.py** is a single traffic light with a strict `distance <= range` rule.

Every handler is a pure step function. It takes the server state and returns the new state, the
reply, and the events the server would emit (`signal_update`, `priority_queue_update` and
`range_update`), in emission order.

Modules:

- `Basics`: `Option` and `Result`.
- `Text`: ASCII case folding, whitespace stripping, integer and decimal parsing.
- `Json`: decoded request values and Python's `int()`, `float()` and `speed > 0` on them;
  required and optional float fields.
- `Signals`: shared vocabulary of the three backends: geopy's latitude check, status, compass
  bucketing, membership rules, `/set_range` validation and its `range_update` event.
- `Scoring`: the rule table, `compute_score` (which raises on a tag that is not a string), the
  `patient_score` override, `set_priority_rules`.
- `Ranking`: the queue entry, the four-key order, and the stable sort.
- `Queues`: one intersection's insertion-ordered ambulance dict, and the reaper's filter.
- `Preemption`: `decide_and_emit_signal`.
- `PriorityEngine`: registration, reports, rule replacement and the reaper sweep of the
  multi-intersection server.
- `HysteresisLight` and `StrictLight`: the two single-light servers.

Python dicts keep insertion order. Queues and the registry are therefore sequences with distinct
ids: an update keeps its slot and a new id goes last. Python's `list.sort` is stable.
`Ranking.RankedQueueIsTheStableSort` proves that the model's ranking is the only sorted
arrangement that keeps tied entries in queue order, so it is exactly what Python produces.

Some inputs are supplied by the caller rather than modelled:

- geodesic distance, as a function `Geodesic`, consulted only for points geopy accepts
  (`Signals.Measure` models its refusal of a latitude outside [-90, 90]);
- the compass bearing, as a function `Compass` that may fail;
- the clock, as a parameter `now`.

Floats are modelled as `real`.

### Behaviour worth noting

The model follows the code, including these behaviours, which a reader might not expect:

- In the multi-intersection server, a report that falls outside an intersection's radius does
  not remove the ambulance's entry there. The entry stays, and can keep priority, until the
  reaper drops it 60 seconds after its report.
- The multi-intersection server has no hysteresis: coverage is `distance <= radius`.
- The head of the queue gets EMERGENCY only with a positive score. An ambulance whose score is 0
  takes priority with status NORMAL.
- Registration is refused when the registry is full, even for an id already registered.
- When the holder's entry goes stale, the reaper re-decides. The next head takes priority with a
  preempting signal, not a CROSSED signal naming it. CROSSED is sent only when the queue
  became empty.
- The holder is the head of the ranking only while the margin is 0 and no score is negative.
  With a negative score, priority can stay with an ambulance whose entry is gone.
- In backend_fastapi.py, a per-report `range` that `float()` rejects is not caught, so the
  request fails instead of getting a 400 reply.
- In backend_extended.py, a bad per-report `range` is refused only when some intersection is
  registered, because the coercion happens inside the loop over intersections.
- In backend_extended.py, geopy raises for an intersection or a report with a latitude outside
  [-90, 90]. The loop stops there with a 400 reply, but the intersections visited before it keep
  their new entries and their events have been sent.
- In backend_extended.py, a patient tag that is not a string makes `compute_score` raise, and
  the report gets a 400 reply. An `int()`-coercible `patient_score` skips `compute_score`, so
  the same tags are then harmless.
- In backend_fastapi.py, the distance is measured outside any handler, so a report with a
  latitude outside [-90, 90] makes the request fail. backend2.py catches the same error and
  replies 400.

## Model

| member | source | states |
|---|---|---|
| Text.Lower | backend_extended.py:25 | `str.lower()` on ASCII text: same length, every capital moved to its small letter 32 code points up, other characters unchanged, no capital left |
| Text.ParseInt | backend_extended.py:192 | `int()` of a string: accepted text is non-blank after stripping, and a negative result was written with a leading minus |
| Text.ParseIntAccepts | backend_extended.py:192 | `int()` accepts exactly the text that, after stripping and an optional sign, is one or more decimal digits |
| Text.ParseSignedNumeral | backend_extended.py:192 | any sign, any leading zeros and a number's digits read as that number with the sign applied (`int("007") == 7`, `int("+5") == 5`) |
| Text.ParseRefusesTrailingJunk | backend_extended.py:192 | `int("12x")` raises: a numeral with a trailing letter is no integer |
| Text.ParseShowInt | backend_extended.py:161 | every integer written in decimal reads back as itself through `int()` |
| Text.ParseSeesStrippedText | backend_extended.py:192 | `int()` of a string depends only on the string with surrounding whitespace stripped |
| Text.ParseDecimalExtendsParseInt | backend_extended.py:178-179 | `float()` accepts every string `int()` accepts, with the same value |
| Text.ParseDecimal | backend_extended.py:185 | `float()` of text: accepted text is non-blank after stripping, and a negative result was written with a leading minus |
| Text.ParseDecimalAccepts | backend_extended.py:185 | `float()` accepts exactly the plain decimal text: after stripping and an optional sign, digits with at most one point and at least one digit |
| Text.ParseDecimalReadsPoint | backend_extended.py:185 | whole digits, a point and k fraction digits read as the whole plus the fraction digits over 10^k |
| Text.ParseTwoAndAHalf | backend_extended.py:185 | `float("2.5")` is 2.5 |
| Text.ParseRefusesSecondPoint | backend_extended.py:185 | `float("1.2.3")` raises: a second point is refused |
| Json.Truncate | backend_extended.py:192 | `int()` of a float rounds toward zero: below the value when positive, above it when negative, within 1 |
| Json.ToInt | backend_extended.py:161 | `int(v)`: None, lists and dicts raise; ints are themselves; floats truncate toward zero |
| Json.ToFloat | backend_extended.py:134-136 | `float(v)`: None, lists and dicts raise; ints and floats convert exactly |
| Json.Number | backend_extended.py:32-33 | `speed > 0` compares a number exactly for bools, ints and floats (anything else raises), and that number is `float(speed)` |
| Json.ToIntAgreesWithToFloat | backend_extended.py:185 | whatever `int()` accepts `float()` accepts, and `int(v)` is the truncation of `float(v)` |
| Json.ToIntSamples | backend_extended.py:192 | `int()` reads " 5 " as 5 and -2.5 as -2, and raises on "high" and None |
| Json.ToIntReadsShownInt | backend_extended.py:192 | an integer sent as decimal text is read back exactly by both `int()` and `float()` |
| Json.RequiredFloat | backend_extended.py:178-179 | `float(j[name])`: a missing key and an uncoercible value are refused with different errors; success returns `float()` of the value |
| Json.OptionalFloat | backend_extended.py:202 | an optional float field: absent means no override, present means `float()` of it, uncoercible is refused |
| Signals.BearingToCardinal | backend_fastapi.py:52-59 | north exactly on [315, 360] and [0, 45), east on [45, 135), south on [135, 225), west otherwise |
| Signals.BearingBucketsByNearestCentre | backend_fastapi.py:52-59 | on [0, 360] the bucket is the nearest of the centres 0, 90, 180, 270, a tie going clockwise |
| Signals.BearingOffCircleIsWest | backend_fastapi.py:59 | any bearing off the [0, 360] circle falls through to west |
| Signals.Measure | backend_extended.py:27-28 | geopy measures a distance exactly when both latitudes lie in [-90, 90], and it is then the geodesic distance |
| Signals.LightDistance | backend_fastapi.py:113 | the light-to-ambulance distance of both single-light servers (also backend2.py:66) exists exactly for a latitude in [-90, 90], and is the geodesic from the light |
| Signals.InRangeWithHysteresis | backend_fastapi.py:122-126 | an untracked ambulance is in iff within the range; with a non-negative margin, within the range is always in, beyond range + margin is always out, and a tracked one stays in up to range + margin |
| Signals.InRange | backend2.py:69 | the strict `distance <= range` rule is the hysteresis rule with a zero margin, whether or not the ambulance was tracked |
| Signals.Classify | backend_fastapi.py:128-189 | entered iff in now and not before, left iff in before and not now, still inside iff both |
| Signals.HysteresisBand | backend_fastapi.py:122-126 | a tracked ambulance at exactly range + margin stays in; an untracked one beyond the range does not enter |
| Signals.MembershipSettles | backend_fastapi.py:122-126 | with a non-negative margin, re-deciding at the same distance gives the same membership |
| Signals.NegativeMarginFlaps | backend_fastapi.py:27 | a negative configured margin drops an ambulance that has just entered on an identical report |
| Signals.ParseRange | backend_fastapi.py:84-89 | `/set_range` accepts exactly the ranges `float()` accepts that are non-negative; missing or null and negative are refused |
| Scoring.TagScore | backend_extended.py:24-25 | the tag score is non-negative under a non-negative table, and zero when no tag is known |
| Scoring.TagScoreSingle | backend_extended.py:25 | under any table, one tag scores the table's weight for its lower-cased form, or 0 when the table lacks it; with TagScoreAppend the score is the sum of the tags' weights |
| Scoring.InstalledRulesExample | backend_extended.py:25 | with the table `{"fever": 7}`, "Fever" scores 7 and "Fever", "pregnant", "fever" score 14 |
| Scoring.TagsOf | backend_extended.py:25 | tags can be lowered exactly when every one is a string, and are then those strings in order |
| Scoring.TagScoreAppend | backend_extended.py:24-25 | the score of concatenated tag lists is the sum of their scores |
| Scoring.TagScoreIgnoresCase | backend_extended.py:25 | tag lists equal up to case score the same |
| Scoring.UnknownTagAddsNothing | backend_extended.py:25 | a tag missing from the table contributes 0 |
| Scoring.DefaultRulesExample | backend_extended.py:13 | under the default table, pregnant plus fever scores 12 in any case, and an unknown tag adds nothing |
| Scoring.PatientScore | backend_extended.py:188-196 | an `int()`-coercible override replaces the tag score; otherwise the score exists iff every tag is a string, and is the tag score of those strings |
| Scoring.OverrideReplacesTags | backend_extended.py:190-196 | an override of 5, " 5 " or -2.5 wins outright; "high" and null fall back to the tags; a non-string tag is refused unless an override coerces |
| Scoring.BuildRules | backend_extended.py:158-163 | the build succeeds iff every value is `int()`-coercible; keys are stored lower-cased; failure is an invalid-value error |
| Scoring.ParseRules | backend_extended.py:153-163 | anything but a JSON object is refused as not-an-object; an object is accepted iff all its values coerce |
| Scoring.BuildRulesLastWins | backend_extended.py:159-161 | each lowered key maps to the value of the last entry spelling it, and there are no other keys |
| Scoring.BuildRulesNamesFirstInvalid | backend_extended.py:159-163 | a refusal names the first entry in request order whose value `int()` rejects |
| Ranking.BeforeIsStrictWeakOrder | backend_extended.py:42-47 | the four-key order is irreflexive, asymmetric and transitive; incomparable means tied on all keys |
| Ranking.Before | backend_extended.py:42-47 | one entry ranks ahead of another iff its key (minus score, ETA with none as infinity, distance, timestamp) is smaller in Python's tuple order |
| Ranking.Insert | backend_extended.py:48 | inserting adds exactly one entry and keeps a sorted queue sorted |
| Ranking.RankedQueue | backend_extended.py:38-49 | the ranking is a sorted permutation of the queue |
| Ranking.InsertStable | backend_extended.py:48 | an inserted entry goes ahead of every entry already tied with it |
| Ranking.RankedQueueStable | backend_extended.py:48 | entries tied on all four keys keep their queue order |
| Ranking.SortedStableUnique | backend_extended.py:48 | two sorted sequences with the same tie classes, each in the same order, are equal |
| Ranking.RankedQueueIsTheStableSort | backend_extended.py:38-49 | every sorted arrangement that keeps tied entries in queue order is the ranking |
| Ranking.RankedQueueHead | backend_extended.py:61-62 | the head is queued, nothing queued ranks ahead of it, and it has the highest score |
| Ranking.RankedQueueScoresDescend | backend_extended.py:44 | scores never increase along the ranking |
| Ranking.DefinedEtaRanksFirst | backend_extended.py:45 | between equal scores, a defined ETA ranks ahead of an undefined one |
| Queues.Find | backend_extended.py:66 | a lookup finds a queued entry with that id, and fails exactly when no entry has it |
| Queues.FindUnique | backend_extended.py:66 | with distinct ids, the lookup returns the one entry carrying the id |
| Queues.Upsert | backend_extended.py:219-220 | storing an entry appends it when the id is new, and otherwise keeps the length and every other id's entry in its slot |
| Queues.UpsertFind | backend_extended.py:220 | after a store the id finds the new entry, and every other id finds what it found before |
| Queues.UpsertContents | backend_extended.py:220 | after a store the queue holds only the new entry and entries that were there before |
| Queues.UpsertUnique | backend_extended.py:219-220 | a store keeps ambulance ids distinct within a queue |
| Queues.Prune | backend_extended.py:241-244 | the reaper keeps exactly the entries that are not stale, and removes something iff some entry is stale |
| Queues.StalenessPersists | backend_extended.py:242 | an entry stale now stays stale later, and with a non-negative limit it was reported before now |
| Queues.PruneSingle | backend_extended.py:241-244 | a single entry survives pruning exactly when it is not stale |
| Queues.PruneAppend | backend_extended.py:241-244 | pruning a concatenation prunes each part: the survivors keep their queue order |
| Queues.PruneFind | backend_extended.py:241-244 | after pruning, ids stay distinct and each id finds its old entry iff that entry was fresh |
| Queues.PruneIdempotent | backend_extended.py:241-244 | pruning twice at the same moment equals pruning once |
| Queues.PruneKeepsFresh | backend_extended.py:241-245 | a queue with nothing stale is left exactly as it is |
| Preemption.HeadId | backend_extended.py:62 | there is no head exactly when the queue is empty; otherwise the head is a queued ambulance |
| Preemption.HolderScore | backend_extended.py:63-67 | the holder's score is that of its queued entry; it is 0 when there is no holder, its id is empty, or its entry is gone |
| Preemption.Preempts | backend_extended.py:73-78 | with no holder the head preempts; a head that is the holder does not; otherwise it preempts iff its score reaches the holder's score plus the margin |
| Preemption.StatusFor | backend_extended.py:85 | the head's status is EMERGENCY iff its score is positive, and never CROSSED |
| Preemption.Decide | backend_extended.py:59-116 | preemption happens iff there is no holder, or a different head clears the holder's score plus margin; then the head holds priority from now; an empty queue clears a holder with CROSSED or reports NORMAL |
| Preemption.DecideElectsHead | backend_extended.py:69-108 | with margin 0 and no negative score, every decision leaves the head of the ranking as the holder |
| Preemption.DecideIdempotent | backend_extended.py:59-116 | deciding again on an unchanged queue changes nothing and never preempts |
| Preemption.HeadHolderIsNotPreempted | backend_extended.py:74-97 | a holder that heads the ranking keeps priority and receives heartbeats |
| Preemption.NegativeHeadKeepsVanishedHolder | backend_extended.py:63-78 | with a negative head score, priority stays with an ambulance whose entry is gone |
| Preemption.MarginKeepsOutrankedHolder | backend_extended.py:77 | with a positive margin, an outranked holder keeps priority |
| PriorityEngine.SiteIndex | backend_extended.py:131 | the registry position of an id, or none exactly when no intersection has it |
| PriorityEngine.ParseDescriptor | backend_extended.py:129-137 | the id is required; lat and lon are required floats; radius defaults to 300 and name to "intersection:" + id |
| PriorityEngine.Register | backend_extended.py:125-144 | a full registry refuses everything; a known id is overwritten in its slot with queue and holder kept; a new id is appended with an empty queue |
| PriorityEngine.RegisterPreservesInvariants | backend_extended.py:126-139 | registration keeps ids distinct, the registry within capacity, scores non-negative and every holder at its head |
| PriorityEngine.SetPriorityRules | backend_extended.py:151-165 | a valid request replaces the whole table with the last value of each lowered key; a refused one changes nothing |
| PriorityEngine.Eta | backend_extended.py:30-36 | an ETA exists iff the speed is a positive number, and then ETA times speed is the distance |
| PriorityEngine.ParseReport | backend_extended.py:176-196 | refused with the lat error, else the lon error, else for a non-string tag; an accepted reading carries `float()` of lat and lon, the id or "default", direction, speed and tags as sent, the timestamp or now, and the patient score |
| PriorityEngine.EntryAt | backend_extended.py:205-217 | the entry carries every field of the reading unchanged, the intersection's distance, and the ETA for that distance |
| PriorityEngine.RangeOverridesRadius | backend_extended.py:202-204 | a per-report range decides coverage whatever the registered radius; without one, a larger radius covers at least as much |
| PriorityEngine.Measurable | backend_extended.py:200-203 | the intersections before the returned position are measurable, and the one at it is not |
| PriorityEngine.VisitSite | backend_extended.py:202-225 | an unmeasurable intersection raises; a covered one stores the new entry in the ambulance's slot or last, leaves other ids alone, re-decides, and emits a queue update then a decision; an uncovered one is untouched |
| PriorityEngine.Visit | backend_extended.py:200-225 | the loop updates each intersection before the first unmeasurable one as its visit does, leaves that one and the rest untouched and names it; a complete loop returns the covered ids in registry order, with two events each |
| PriorityEngine.VisitSingle | backend_extended.py:200-225 | the loop over one intersection is that intersection's visit |
| PriorityEngine.VisitAppend | backend_extended.py:200-225 | the loop over a concatenated registry runs over the first part and, unless it stopped there, over the second: the events are each visited intersection's, in registry order |
| PriorityEngine.VisitSiteKeepsLed | backend_extended.py:203-225 | one intersection's visit keeps its ids distinct, its scores non-negative and its holder at its head |
| PriorityEngine.ReportLocation | backend_extended.py:175-232 | a bad lat, lon, tag or (with intersections registered) range is refused with no change and no event; otherwise the registry and events are the loop's, and the reply is the covered ids or the unmeasurable intersection |
| PriorityEngine.ReportTouchesOnlyCoveredSites | backend_extended.py:198-227 | the ambulance's entry is replaced exactly at the covered intersections before the first unmeasurable one, nothing else changes, and the reply is their ids or that intersection |
| PriorityEngine.ReportKeepsHolderAtHead | backend_extended.py:198-225 | with non-negative weights and override, a report keeps every holder at its head and the state well formed |
| PriorityEngine.SweepSite | backend_extended.py:239-248 | the queue becomes its pruned self, in order; the sweep re-decides and emits only when something was dropped |
| PriorityEngine.SweepSites | backend_extended.py:238-248 | the sweep treats each intersection independently |
| PriorityEngine.SweepSingle | backend_extended.py:238-248 | a pass over one intersection is its sweep |
| PriorityEngine.SweepSitesAppend | backend_extended.py:238-248 | a pass over a concatenated registry concatenates the passes: the events are each intersection's own, in registry order |
| PriorityEngine.Sweep | backend_extended.py:237-248 | one reaper pass sweeps every intersection on its own, keeping rules, registry order and descriptors, and emits the per-intersection events |
| PriorityEngine.SweepSitesQuiet | backend_extended.py:240-248 | a sweep with nothing stale changes nothing and emits nothing |
| PriorityEngine.SweepIdempotent | backend_extended.py:238-248 | a second sweep at the same moment finds nothing to do |
| PriorityEngine.SweepKeepsHolderAtHead | backend_extended.py:238-248 | with no negative score, a sweep keeps every holder at its head and the state well formed |
| PriorityEngine.StaleHolderIsReplaced | backend_extended.py:242-248 | a stale holder is replaced by the next head with a preempting signal, or cleared with CROSSED when nothing is left |
| PriorityEngine.RegisterFirstIntersection | backend_extended.py:125-140 | registering I1 with defaults gives radius 300, name "intersection:I1" and an idle empty queue |
| PriorityEngine.FeverArrives | backend_extended.py:175-227 | a fever patient 100 m from I1 scores 2 and takes priority |
| PriorityEngine.FeverReading | backend_extended.py:176-217 | a fever report at longitude 100 reads as the fever entry with score 2 |
| PriorityEngine.PregnantReading | backend_extended.py:176-217 | a pregnant report at longitude 200 reads as the pregnant entry with score 10 |
| PriorityEngine.PregnantRanksFirst | backend_extended.py:38-89 | a pregnant patient 200 m away outranks a fever patient 100 m away and preempts it |
| PriorityEngine.PregnantArrives | backend_extended.py:198-227 | that report stores the new entry last, publishes the ranked queue and hands priority over |
| PriorityEngine.OffGlobeIntersectionFailsLate | backend_extended.py:200-232 | with I2 at latitude 95 after I1, a report is refused naming I2, yet I1 keeps the new entry and its two events |
| HysteresisLight.ParseFix | backend_fastapi.py:103-111 | a missing or bad lat or lon is one error; a bad range is a failure; the id defaults to "default"; the range override is per report |
| HysteresisLight.HeadingOf | backend_fastapi.py:115-120 | the payload carries the bearing as computed and its compass quadrant, or north and no bearing when the bearing raised |
| HysteresisLight.OutcomeFor | backend_fastapi.py:128-189 | EMERGENCY with `isEmergency` while inside, CROSSED with `stop_tracking` and a message on leaving, NORMAL without direction keys outside |
| HysteresisLight.UpdateLocation | backend_fastapi.py:103-189 | a bad field or an unmeasurable latitude fails with nothing changed; membership follows the hysteresis rule; status is EMERGENCY iff in, CROSSED iff it just left, NORMAL otherwise; the direction keys come from the bearing; state changes only on entering or leaving |
| HysteresisLight.UpdateKeepsFlagsAgreed | backend_fastapi.py:128-175 | the in-range and emergency flags always agree, and the payload's `isEmergency` is the stored flag |
| HysteresisLight.OnlyReporterChanges | backend_fastapi.py:122-162 | a report changes the reporting ambulance's flags only |
| HysteresisLight.RepeatReportSettles | backend_fastapi.py:122-189 | with a non-negative margin, repeating a report changes nothing and emits a steady-state signal, or fails again off the globe |
| HysteresisLight.HysteresisTrip | backend_fastapi.py:122-189 | at 40, 54, 56 and 54 m the ambulance enters, stays held in the band, leaves, and is not re-admitted |
| HysteresisLight.SetRange | backend_fastapi.py:80-93 | an accepted range replaces the global one and nothing else, and is broadcast in one `range_update`; a refusal changes nothing and broadcasts nothing |
| StrictLight.ParseFix | backend2.py:55-63 | lat, then lon, then range are read in order and the first failure is reported; the id defaults to "default" and the direction to "north" |
| StrictLight.PayloadFor | backend2.py:71-114 | EMERGENCY while inside, CROSSED with a message on leaving, NORMAL without a direction outside; the direction is the one sent |
| StrictLight.UpdateLocation | backend2.py:55-119 | a bad field or an unmeasurable latitude is refused with nothing changed; in range iff distance <= range; status is EMERGENCY iff in, CROSSED iff it just left; state changes only on entering or leaving |
| StrictLight.OnlyReporterChanges | backend2.py:68-94 | a report changes the reporting ambulance's flag only |
| StrictLight.RepeatReportSettles | backend2.py:68-114 | repeating a report changes nothing and emits a steady-state signal, or is refused again off the globe |
| StrictLight.AgreesWithZeroHysteresis | backend2.py:68-94 | this server behaves as the hysteresis server with a zero margin: same acceptance, transitions, statuses and flags |
| StrictLight.BoundaryFlaps | backend2.py:69-94 | without hysteresis, reports alternating between 50 m and 50.5 m alternate EMERGENCY and CROSSED |
| StrictLight.SetRange | backend2.py:24-42 | an accepted range replaces the global one and is broadcast in one `range_update`; missing, null, negative or uncoercible ranges are refused with nothing changed or sent |

## Left out

- Transport is not modelled: HTTP parsing, status codes beyond refused versus accepted, Socket.IO
  rooms and broadcasting, and reply texts that format distances. Events are returned in order
  instead of sent.
- geopy's geodesic distance and the trigonometry of `calculate_bearing` are supplied as
  function parameters. Real trigonometry and the ellipsoid model cannot be computed over Dafny's
  reals. geopy's refusal of a latitude outside [-90, 90] is modelled; its refusal of NaN and
  infinite coordinates is not, since floats are reals here.
- The clock is a parameter `now`, and the five-second sleep of `cleanup_loop` is not modelled.
  A sweep is one pass at a given time.
- `round(distance, 1)` in backend_fastapi.py payloads: the model carries the unrounded distance.
- `list_intersections`, `index`, the `connect`/`disconnect` handlers and `on_join_intersection`
  are not modelled. They only read state or re-send it.
- simulate_ambulance.py is not part of this model; it is a test client.
- Reading configuration from environment variables is not modelled. The defaults are constants:
  range 50, hysteresis 5, staleness 60 s, capacity 100, margin 0.
- `str()` of non-string ids and names is not modelled: ids and names are strings in the model.
  A `patient_conditions` value that is not a list (a string iterates by character, a number
  raises), and a request body that is not a JSON object, are not modelled either. The items of
  a list are modelled, including the refusal of a non-string item.
- Json.Value: objects are decoded dicts with distinct keys. The decoder's keeping of the last value
  of a key repeated in the request text is not modelled.
- Text.Lower: only ASCII letters are case-folded. Python's `str.lower` also folds non-ASCII
  letters.
- Text.ParseInt: only ASCII whitespace and digits are accepted, and underscores are refused.
  Python's `int()` also accepts Unicode digits, Unicode whitespace and digit-group underscores.
- Text.ParseDecimal: only plain decimal text is accepted. Python's `float()` also accepts
  exponents, `inf` and `nan`, underscores, and Unicode digits.
- Floating-point rounding, NaN and infinities are not modelled; the ETA's `float("inf")` is the
  `None` case of the order.
- Concurrency is not modelled. The reaper runs as a background task beside request handlers; the
  model treats every handler and every sweep as atomic.
