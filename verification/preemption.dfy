/**
 * `decide_and_emit_signal` of the multi-intersection backend (backend_extended.py): given one
 * intersection's queue and who held priority before, decide whether the head of the ranking
 * takes priority, and build the `signal_update` that goes out either way.
 */
module Preemption {
  import opened Basics
  import opened Ranking
  import opened Queues
  import opened Signals

  /** The margin by which a new head must outscore the holder (`PREEMPT_MARGIN`). */
  const PreemptMargin: int := 0

  /** Per-intersection decision state: `active_top_id` and `last_emit_time`. */
  datatype Leader = Leader(activeTop: Option<string>, lastEmit: real)

  /** The state a newly registered intersection starts in. */
  const Idle: Leader := Leader(None, 0.0)

  /** The payload of one `signal_update` event for an intersection. */
  datatype Signal = Signal(
    intersection: string,
    status: Status,
    top: Option<Entry>,
    preempt: bool,
    message: Option<string>)

  /** The head of the ranking's id, or `None` for an empty queue. */
  function HeadId(q: seq<Entry>): (r: Option<string>)
    ensures r.None? <==> |q| == 0
    ensures r.Some? ==> exists e :: e in q && e.id == r.value
  {
    if |q| == 0 then None
    else
      RankedQueueHead(q);
      Some(RankedQueue(q)[0].id)
  }

  /**
   * The score the holder is compared at: that of its entry, but 0 when it has no entry any
   * more, and also 0 for the empty id, which Python's `if prev_top_id:` treats as false.
   */
  function HolderScore(q: seq<Entry>, leader: Leader): (s: int)
    ensures leader.activeTop.None? ==> s == 0
    ensures leader.activeTop.Some? && leader.activeTop.value != "" && Find(q, leader.activeTop.value).Some?
            ==> s == Find(q, leader.activeTop.value).value.score
    ensures leader.activeTop.Some? && Find(q, leader.activeTop.value).None? ==> s == 0
    ensures leader.activeTop == Some("") ==> s == 0
  {
    match leader.activeTop
    case None => 0
    case Some(p) =>
      if p == "" then 0
      else match Find(q, p)
        case Some(e) => e.score
        case None => 0
  }

  /**
   * The condition under which `top` takes priority: always when nobody holds it, never when
   * `top` already does, and otherwise when `top` scores at least the margin above the holder's
   * queued entry, or above 0 when the holder has no entry or the empty id.
   */
  predicate Preempts(top: Entry, q: seq<Entry>, leader: Leader, margin: int): (r: bool)
    ensures leader.activeTop.None? ==> r
    ensures leader.activeTop == Some(top.id) ==> !r
    ensures leader.activeTop.Some? && leader.activeTop.value != top.id && leader.activeTop.value != ""
            && Find(q, leader.activeTop.value).Some?
            ==> (r <==> top.score >= Find(q, leader.activeTop.value).value.score + margin)
    ensures leader.activeTop.Some? && leader.activeTop.value != top.id
            && (leader.activeTop.value == "" || Find(q, leader.activeTop.value).None?)
            ==> (r <==> top.score >= margin)
  {
    leader.activeTop.None?
    || (top.id != leader.activeTop.value && top.score >= HolderScore(q, leader) + margin)
  }

  /** A positive head score means EMERGENCY, anything else NORMAL. */
  function StatusFor(top: Entry): (s: Status)
    ensures s == Emergency <==> top.score > 0
    ensures s != Crossed
  {
    if top.score > 0 then Emergency else Normal
  }

  /**
   * One decision at intersection `iid`. A preemption hands priority to the head and stamps the
   * time; an empty queue clears a holder (CROSSED) or reports NORMAL; anything else leaves the
   * state alone and sends a heartbeat for the head.
   */
  function Decide(iid: string, q: seq<Entry>, leader: Leader, margin: int, now: real): (r: (Leader, Signal))
    ensures r.1.intersection == iid
    ensures r.1.top.Some? <==> |q| > 0
    ensures r.1.top.Some? ==> r.1.top.value in q && forall e :: e in q ==> !Before(e, r.1.top.value)
    ensures |q| > 0 ==> (r.1.preempt <==> Preempts(RankedQueue(q)[0], q, leader, margin))
    ensures r.1.preempt ==> |q| > 0 && r.0 == Leader(Some(RankedQueue(q)[0].id), now)
    ensures !r.1.preempt && |q| > 0 ==> r.0 == leader
    ensures |q| > 0 ==> (r.1.status == Emergency <==> RankedQueue(q)[0].score > 0) && r.1.status != Crossed
    ensures |q| == 0 && leader.activeTop.Some? ==> r.0 == leader.(activeTop := None) && r.1.status == Crossed && !r.1.preempt
    ensures |q| == 0 && leader.activeTop.None? ==> r.0 == leader && r.1.status == Normal && !r.1.preempt
  {
    if |q| > 0 then
      var top := RankedQueue(q)[0];
      RankedQueueHead(q);
      if Preempts(top, q, leader, margin) then
        (Leader(Some(top.id), now),
         Signal(iid, StatusFor(top), Some(top), true, Some("Giving priority to " + top.id)))
      else
        (leader, Signal(iid, StatusFor(top), Some(top), false, None))
    else if leader.activeTop.Some? then
      (leader.(activeTop := None),
       Signal(iid, Crossed, None, false, Some("No ambulances in range; clearing priority")))
    else
      (leader, Signal(iid, Normal, None, false, None))
  }

  /** The holder is the head of the ranking (and there is none for an empty queue). */
  predicate LeadsQueue(leader: Leader, q: seq<Entry>) {
    leader.activeTop == HeadId(q)
  }

  predicate NonNegativeScores(q: seq<Entry>) {
    forall e :: e in q ==> e.score >= 0
  }

  /**
   * With margin 0 and no negative score, every decision makes the head of the ranking the
   * holder, whoever held priority before and whether or not its entry still exists.
   */
  lemma DecideElectsHead(iid: string, q: seq<Entry>, leader: Leader, now: real)
    requires NonNegativeScores(q)
    ensures LeadsQueue(Decide(iid, q, leader, PreemptMargin, now).0, q)
  {
    if |q| > 0 {
      var top := RankedQueue(q)[0];
      RankedQueueHead(q);
      assert top.score >= HolderScore(q, leader) by {
        if leader.activeTop.Some? && leader.activeTop.value != "" && Find(q, leader.activeTop.value).Some? {
          assert Find(q, leader.activeTop.value).value in q;
        }
      }
      if !Preempts(top, q, leader, PreemptMargin) {
        assert leader.activeTop == Some(top.id);
      }
    }
  }

  /**
   * Deciding again on an unchanged queue changes nothing and never preempts: an unchanged head
   * does not re-take priority, for any margin.
   */
  lemma DecideIdempotent(iid: string, q: seq<Entry>, leader: Leader, margin: int, now: real, later: real)
    ensures var (l1, _) := Decide(iid, q, leader, margin, now);
            var (l2, s2) := Decide(iid, q, l1, margin, later);
            l2 == l1 && !s2.preempt && (|q| == 0 ==> s2.status == Normal)
  {
    var (l1, s1) := Decide(iid, q, leader, margin, now);
    if |q| > 0 && !s1.preempt {
      assert l1 == leader;
    }
  }

  /** The holder stays put and receives heartbeats while it heads the ranking. */
  lemma HeadHolderIsNotPreempted(iid: string, q: seq<Entry>, leader: Leader, margin: int, now: real)
    requires |q| > 0 && leader.activeTop == HeadId(q)
    ensures Decide(iid, q, leader, margin, now).0 == leader
    ensures !Decide(iid, q, leader, margin, now).1.preempt
  {
  }

  // ---------------------------------------------------------------------------
  // What the code does outside those hypotheses
  // ---------------------------------------------------------------------------

  function Probe(id: string, score: int, eta: Option<real>): Entry {
    Entry(id, 0.0, 0.0, Json.Null, Json.Null, 0.0, [], score, 10.0, eta)
  }

  /**
   * A negative head score keeps a holder whose entry is gone: its score reads as 0, which the
   * head cannot reach, so priority stays with an ambulance that is no longer queued.
   */
  lemma NegativeHeadKeepsVanishedHolder()
    ensures var q := [Probe("b", -1, None)];
            var (l, s) := Decide("i", q, Leader(Some("a"), 0.0), PreemptMargin, 1.0);
            l.activeTop == Some("a") && Find(q, "a").None? && !s.preempt && !LeadsQueue(l, q)
  {
    var q := [Probe("b", -1, None)];
    assert RankedQueue(q) == q;
  }

  /**
   * A positive margin keeps an outranked holder: an equal-score ambulance with an earlier ETA
   * heads the ranking but does not clear the margin.
   */
  lemma MarginKeepsOutrankedHolder()
    ensures var q := [Probe("a", 5, Some(20.0)), Probe("x", 5, Some(10.0))];
            var (l, s) := Decide("i", q, Leader(Some("a"), 0.0), 1, 1.0);
            l.activeTop == Some("a") && HeadId(q) == Some("x") && !s.preempt
  {
    var a, x := Probe("a", 5, Some(20.0)), Probe("x", 5, Some(10.0));
    assert Insert(x, []) == [x];
    assert Before(x, a);
    assert RankedQueue([a, x]) == [x, a] by {
      assert [a, x][1..] == [x];
      assert RankedQueue([x]) == [x];
    }
  }
}
