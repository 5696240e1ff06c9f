/**
 * A tracked ambulance at one intersection and the order `sorted_queue_for_intersection` puts
 * such entries in (backend_extended.py): score descending, then ETA ascending with an undefined
 * ETA last, then distance ascending, then report time ascending. Python's `list.sort` is stable,
 * so entries equal on all four keys keep the queue's insertion order; `RankedQueue` is a stable
 * insertion sort, and `RankedQueueIsTheStableSort` shows it is the only stable sorted
 * arrangement, hence the one Python produces.
 */
module Ranking {
  import opened Basics
  import opened Json

  /** One ambulance's entry in an intersection's queue; each report replaces it whole. */
  datatype Entry = Entry(
    id: string,
    lat: real,
    lon: real,
    direction: Value,          // passed through unchanged, `Null` when not sent
    speed: Value,              // `speed_m_s` as sent, `Null` when not sent
    timestamp: real,
    conditions: seq<Value>,    // `patient_conditions` as sent
    score: int,
    distance: real,            // metres to the intersection
    eta: Option<real>)         // seconds; `None` is Python's `None`, ranked as infinity

  /** ETA comparison where an undefined ETA counts as infinitely late. */
  predicate EtaBefore(x: Option<real>, y: Option<real>) {
    x.Some? && (y.None? || x.value < y.value)
  }

  /** A sort-key component that may be infinite: `float("inf")` stands in for an undefined ETA. */
  datatype Extended = Finite(x: real) | Infinity

  function EtaKey(eta: Option<real>): Extended {
    match eta
    case Some(t) => Finite(t)
    case None => Infinity
  }

  predicate ExtendedLess(a: Extended, b: Extended) {
    match (a, b)
    case (Finite(x), Finite(y)) => x < y
    case (Finite(_), Infinity) => true
    case (Infinity, _) => false
  }

  type Key = (int, Extended, real, real)

  /** `sort_key`: negated score, ETA (infinite when undefined), distance, report time. */
  function SortKey(e: Entry): Key {
    (-e.score, EtaKey(e.eta), e.distance, e.timestamp)
  }

  /** Python's `<` on tuples: the first component where the two differ decides. */
  predicate KeyLess(k: Key, l: Key) {
    if k.0 != l.0 then k.0 < l.0
    else if k.1 != l.1 then ExtendedLess(k.1, l.1)
    else if k.2 != l.2 then k.2 < l.2
    else k.3 < l.3
  }

  /**
   * `a` ranks strictly ahead of `b` under the four-key lexicographic order: exactly when
   * `sort_key(a) < sort_key(b)`.
   */
  predicate Before(a: Entry, b: Entry): (r: bool)
    ensures r <==> KeyLess(SortKey(a), SortKey(b))
  {
    || a.score > b.score
    || (a.score == b.score && EtaBefore(a.eta, b.eta))
    || (a.score == b.score && a.eta == b.eta && a.distance < b.distance)
    || (a.score == b.score && a.eta == b.eta && a.distance == b.distance && a.timestamp < b.timestamp)
  }

  /** `a` and `b` agree on all four sort keys. */
  predicate Tied(a: Entry, b: Entry) {
    a.score == b.score && a.eta == b.eta && a.distance == b.distance && a.timestamp == b.timestamp
  }

  /** `Before` is a strict weak order whose incomparable pairs are exactly the tied ones. */
  lemma BeforeIsStrictWeakOrder(a: Entry, b: Entry, c: Entry)
    ensures !Before(a, a)
    ensures Before(a, b) ==> !Before(b, a)
    ensures Before(a, b) && Before(b, c) ==> Before(a, c)
    ensures !Before(a, b) && !Before(b, c) ==> !Before(a, c)
    ensures (!Before(a, b) && !Before(b, a)) <==> Tied(a, b)
  {
  }

  /** Every later entry of `q` ranks no earlier than every earlier one. */
  predicate Sorted(q: seq<Entry>) {
    forall i, j :: 0 <= i < j < |q| ==> !Before(q[j], q[i])
  }

  /** The entries of `q` tied with `k`, in their order in `q`. */
  function TiedWith(q: seq<Entry>, k: Entry): (t: seq<Entry>)
    ensures forall e :: e in t ==> e in q && Tied(e, k)
  {
    if |q| == 0 then [] else (if Tied(q[0], k) then [q[0]] else []) + TiedWith(q[1..], k)
  }

  /** Puts `e` in front of the first entry it does not rank behind. */
  function Insert(e: Entry, q: seq<Entry>): (r: seq<Entry>)
    ensures |r| == |q| + 1
    ensures multiset(r) == multiset(q) + multiset{e}
    ensures Sorted(q) ==> Sorted(r)
  {
    if |q| == 0 then [e]
    else if Before(q[0], e) then
      var rest := Insert(e, q[1..]);
      assert q == [q[0]] + q[1..];
      SortedBehindHead(q, e, rest);
      [q[0]] + rest
    else
      SortedInFront(e, q);
      [e] + q
  }

  /** Sortedness after inserting behind the head: everything inserted ranks no earlier than it. */
  lemma SortedBehindHead(q: seq<Entry>, e: Entry, rest: seq<Entry>)
    requires |q| > 0 && Before(q[0], e)
    requires multiset(rest) == multiset(q[1..]) + multiset{e}
    requires Sorted(q[1..]) ==> Sorted(rest)
    ensures Sorted(q) ==> Sorted([q[0]] + rest)
  {
    if Sorted(q) {
      SortedTail(q);
      forall x | x in rest
        ensures !Before(x, q[0])
      {
        assert x in multiset(rest);
        if x != e {
          assert x in q[1..];
          var k :| 0 <= k < |q[1..]| && q[1..][k] == x;
          assert q[k + 1] == x;
        }
      }
      SortedCons(q[0], rest);
    }
  }

  /** Sortedness after inserting in front: nothing in `q` ranks ahead of `e`. */
  lemma SortedInFront(e: Entry, q: seq<Entry>)
    requires |q| > 0 && !Before(q[0], e)
    ensures Sorted(q) ==> Sorted([e] + q)
  {
    if Sorted(q) {
      forall x | x in q
        ensures !Before(x, e)
      {
        var k :| 0 <= k < |q| && q[k] == x;
        if k > 0 {
          assert !Before(q[k], q[0]);
        }
        BeforeIsStrictWeakOrder(x, q[0], e);
      }
      SortedCons(e, q);
    }
  }

  lemma SortedCons(x: Entry, q: seq<Entry>)
    requires Sorted(q)
    requires forall y :: y in q ==> !Before(y, x)
    ensures Sorted([x] + q)
  {
    var s := [x] + q;
    forall i, j | 0 <= i < j < |s|
      ensures !Before(s[j], s[i])
    {
      if i > 0 {
        assert s[i] == q[i - 1] && s[j] == q[j - 1];
      } else {
        assert s[j] in q;
      }
    }
  }

  /** Stable insertion sort by the four-key order: the priority queue of one intersection. */
  function RankedQueue(q: seq<Entry>): (r: seq<Entry>)
    ensures |r| == |q|
    ensures multiset(r) == multiset(q)
    ensures Sorted(r)
  {
    if |q| == 0 then []
    else
      var rest := RankedQueue(q[1..]);
      assert q == [q[0]] + q[1..];
      Insert(q[0], rest)
  }

  /** Inserting `e` keeps `e` ahead of every already-present entry tied with it. */
  lemma {:induction false} InsertStable(e: Entry, q: seq<Entry>, k: Entry)
    ensures TiedWith(Insert(e, q), k) == (if Tied(e, k) then [e] else []) + TiedWith(q, k)
  {
    if |q| == 0 {
    } else if Before(q[0], e) {
      InsertStable(e, q[1..], k);
      var rest := Insert(e, q[1..]);
      assert ([q[0]] + rest)[1..] == rest;
      if Tied(e, k) {
        assert !Tied(q[0], k);
      }
    } else {
      assert ([e] + q)[1..] == q;
    }
  }

  /** Entries tied on all four keys leave the sort in the order they had in the queue. */
  lemma {:induction false} RankedQueueStable(q: seq<Entry>, k: Entry)
    ensures TiedWith(RankedQueue(q), k) == TiedWith(q, k)
  {
    if |q| > 0 {
      RankedQueueStable(q[1..], k);
      InsertStable(q[0], RankedQueue(q[1..]), k);
    }
  }

  /** Two sorted sequences with the same tie classes, each in the same order, are equal. */
  lemma {:induction false} SortedStableUnique(a: seq<Entry>, b: seq<Entry>)
    requires Sorted(a) && Sorted(b)
    requires forall k :: TiedWith(a, k) == TiedWith(b, k)
    ensures a == b
  {
    if |a| == 0 && |b| == 0 {
    } else if |a| == 0 || |b| == 0 {
      // the first entry of the non-empty side is tied with itself, and the other side has nothing
      TiedWithKeepsHead(if |a| > 0 then a else b);
      assert false;
    } else {
      var x, y := a[0], b[0];
      assert y in TiedWith(a, y) by {
        assert y in TiedWith(b, y);
      }
      assert !Before(y, x) by {
        var i :| 0 <= i < |a| && a[i] == y;
        if i > 0 {
          assert !Before(a[i], a[0]);
        }
      }
      assert x in TiedWith(b, x) by {
        assert x in TiedWith(a, x);
      }
      assert !Before(x, y) by {
        var i :| 0 <= i < |b| && b[i] == x;
        if i > 0 {
          assert !Before(b[i], b[0]);
        }
      }
      assert x == y by {
        assert TiedWith(a, x)[0] == x;
        assert TiedWith(b, x)[0] == y;
      }
      forall k
        ensures TiedWith(a[1..], k) == TiedWith(b[1..], k)
      {
        var p := if Tied(x, k) then [x] else [];
        assert TiedWith(a, k) == p + TiedWith(a[1..], k);
        assert TiedWith(b, k) == p + TiedWith(b[1..], k);
        assert TiedWith(a[1..], k) == TiedWith(a, k)[|p|..];
        assert TiedWith(b[1..], k) == TiedWith(b, k)[|p|..];
      }
      SortedTail(a);
      SortedTail(b);
      SortedStableUnique(a[1..], b[1..]);
      assert a == [x] + a[1..] && b == [y] + b[1..];
    }
  }

  lemma TiedWithKeepsHead(q: seq<Entry>)
    requires |q| > 0
    ensures TiedWith(q, q[0]) != []
  {
  }

  lemma SortedTail(q: seq<Entry>)
    requires Sorted(q) && |q| > 0
    ensures Sorted(q[1..])
  {
    forall i, j | 0 <= i < j < |q| - 1
      ensures !Before(q[1..][j], q[1..][i])
    {
      assert q[1..][j] == q[j + 1] && q[1..][i] == q[i + 1];
    }
  }

  /**
   * Any arrangement of `q` that is sorted and keeps tied entries in queue order is
   * `RankedQueue(q)`: the model agrees with every stable sort, Python's included.
   */
  lemma RankedQueueIsTheStableSort(q: seq<Entry>, r: seq<Entry>)
    requires Sorted(r)
    requires forall k :: TiedWith(r, k) == TiedWith(q, k)
    ensures r == RankedQueue(q)
  {
    forall k
      ensures TiedWith(r, k) == TiedWith(RankedQueue(q), k)
    {
      RankedQueueStable(q, k);
    }
    SortedStableUnique(r, RankedQueue(q));
  }

  /** The head of the ranking is in the queue and no entry of the queue ranks ahead of it. */
  lemma RankedQueueHead(q: seq<Entry>)
    requires |q| > 0
    ensures RankedQueue(q)[0] in q
    ensures forall e :: e in q ==> !Before(e, RankedQueue(q)[0])
    ensures forall e :: e in q ==> e.score <= RankedQueue(q)[0].score
  {
    var r := RankedQueue(q);
    assert r[0] in multiset(r);
    forall e | e in q
      ensures !Before(e, r[0])
    {
      assert e in multiset(q);
      var i :| 0 <= i < |r| && r[i] == e;
      if i > 0 {
        assert !Before(r[i], r[0]);
      }
    }
  }

  /** Along the ranking, scores never increase. */
  lemma RankedQueueScoresDescend(q: seq<Entry>, i: int, j: int)
    requires 0 <= i < j < |q|
    ensures RankedQueue(q)[i].score >= RankedQueue(q)[j].score
  {
    var r := RankedQueue(q);
    assert !Before(r[j], r[i]);
  }

  /** Between two equal-score entries, one with a defined ETA ranks ahead of one without. */
  lemma DefinedEtaRanksFirst(q: seq<Entry>, i: int, j: int)
    requires 0 <= i < |q| && 0 <= j < |q|
    ensures var r := RankedQueue(q);
            r[i].score == r[j].score && r[i].eta.Some? && r[j].eta.None? ==> i < j
  {
    var r := RankedQueue(q);
    if j < i {
      assert !Before(r[i], r[j]);
    }
  }
}
