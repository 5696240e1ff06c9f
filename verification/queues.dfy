/**
 * One intersection's queue: a Python dict from ambulance id to entry, which keeps insertion
 * order (an update in place keeps its slot, a new id goes last). It is modelled as the sequence
 * of entries in that order, with distinct ids (backend_extended.py, `intersection_ambulances`).
 */
module Queues {
  import opened Basics
  import opened Ranking

  predicate UniqueIds(q: seq<Entry>) {
    forall i, j :: 0 <= i < j < |q| ==> q[i].id != q[j].id
  }

  /** The entry stored under `id` (`amap.get(id)`). */
  function Find(q: seq<Entry>, id: string): (r: Option<Entry>)
    ensures r.Some? ==> r.value in q && r.value.id == id
    ensures r.None? <==> forall e :: e in q ==> e.id != id
  {
    if |q| == 0 then None
    else if q[0].id == id then Some(q[0])
    else Find(q[1..], id)
  }

  /** With distinct ids, the entry found under an id is the only one carrying it. */
  lemma {:induction false} FindUnique(q: seq<Entry>, e: Entry)
    requires UniqueIds(q) && e in q
    ensures Find(q, e.id) == Some(e)
  {
    if q[0] != e {
      assert e in q[1..];
      FindUnique(q[1..], e);
    }
  }

  /**
   * `amap[aid] = entry`: the new entry replaces the old one whole, in its old slot, or goes
   * last when the id is new.
   */
  function Upsert(q: seq<Entry>, e: Entry): (r: seq<Entry>)
    ensures Find(q, e.id).None? ==> r == q + [e]
    ensures Find(q, e.id).Some? ==> |r| == |q| && forall i :: 0 <= i < |q| && q[i].id != e.id ==> r[i] == q[i]
  {
    if |q| == 0 then [e]
    else if q[0].id == e.id then
      [e] + q[1..]
    else
      var rest := Upsert(q[1..], e);
      assert Find(q, e.id) == Find(q[1..], e.id);
      assert Find(q, e.id).None? ==> [q[0]] + rest == q + [e] by {
        if Find(q, e.id).None? {
          assert q == [q[0]] + q[1..];
        }
      }
      [q[0]] + rest
  }

  /** After an upsert the id finds the new entry, and every other id finds what it found before. */
  lemma {:induction false} UpsertFind(q: seq<Entry>, e: Entry)
    ensures Find(Upsert(q, e), e.id) == Some(e)
    ensures forall id :: id != e.id ==> Find(Upsert(q, e), id) == Find(q, id)
  {
    if |q| > 0 {
      var r := Upsert(q, e);
      if q[0].id == e.id {
        assert r[1..] == q[1..];
      } else {
        UpsertFind(q[1..], e);
        assert r[1..] == Upsert(q[1..], e);
      }
    }
  }

  /** The entries after an upsert are the new one and entries that were there before. */
  lemma {:induction false} UpsertContents(q: seq<Entry>, e: Entry)
    ensures forall x :: x in Upsert(q, e) ==> x == e || x in q
  {
    if |q| > 0 && q[0].id != e.id {
      UpsertContents(q[1..], e);
      var rest := Upsert(q[1..], e);
      assert forall x :: x in [q[0]] + rest ==> x == q[0] || x in rest;
    }
  }

  /** An upsert keeps ids distinct. */
  lemma {:induction false} UpsertUnique(q: seq<Entry>, e: Entry)
    requires UniqueIds(q)
    ensures UniqueIds(Upsert(q, e))
  {
    if |q| > 0 {
      UniqueTail(q);
      if q[0].id != e.id {
        UpsertUnique(q[1..], e);
        UpsertContents(q[1..], e);
        UniqueCons(q[0], Upsert(q[1..], e));
      } else {
        UniqueCons(e, q[1..]);
      }
    }
  }

  lemma UniqueCons(x: Entry, q: seq<Entry>)
    requires UniqueIds(q)
    requires forall y :: y in q ==> y.id != x.id
    ensures UniqueIds([x] + q)
  {
    var s := [x] + q;
    forall i, j | 0 <= i < j < |s|
      ensures s[i].id != s[j].id
    {
      if i > 0 {
        assert s[i] == q[i - 1] && s[j] == q[j - 1];
      } else {
        assert s[j] in q;
      }
    }
  }

  lemma UniqueTail(q: seq<Entry>)
    requires UniqueIds(q) && |q| > 0
    ensures UniqueIds(q[1..])
    ensures forall y :: y in q[1..] ==> y.id != q[0].id
  {
    forall y | y in q[1..]
      ensures y.id != q[0].id
    {
      var k :| 0 <= k < |q[1..]| && q[1..][k] == y;
      assert q[k + 1] == y;
    }
  }

  /** An entry is stale once its report is more than `limit` seconds older than `now`. */
  predicate IsStale(e: Entry, now: real, limit: real) {
    now - e.timestamp > limit
  }

  /**
   * Staleness only grows with time: an entry stale now stays stale later, and with a
   * non-negative limit only an entry reported before `now` can be stale.
   */
  lemma StalenessPersists(e: Entry, now: real, later: real, limit: real)
    requires now <= later && IsStale(e, now, limit)
    ensures IsStale(e, later, limit)
    ensures limit >= 0.0 ==> e.timestamp < now
  {
  }

  /** The reaper's filter: keep, in order, the entries that are not stale. */
  function Prune(q: seq<Entry>, now: real, limit: real): (r: seq<Entry>)
    ensures forall x :: x in r <==> x in q && !IsStale(x, now, limit)
    ensures |r| <= |q|
    ensures |r| == |q| <==> forall x :: x in q ==> !IsStale(x, now, limit)
  {
    if |q| == 0 then []
    else
      var rest := Prune(q[1..], now, limit);
      assert q == [q[0]] + q[1..];
      if IsStale(q[0], now, limit) then
        rest
      else
        assert forall x :: x in [q[0]] + rest <==> x == q[0] || x in rest;
        [q[0]] + rest
  }

  /** A single entry survives pruning exactly when it is fresh. */
  lemma PruneSingle(x: Entry, now: real, limit: real)
    ensures Prune([x], now, limit) == if IsStale(x, now, limit) then [] else [x]
  {
    assert [x][1..] == [];
  }

  /**
   * Pruning keeps queue order: pruning a concatenation prunes each part and concatenates the
   * results, so with `PruneSingle` the result is the fresh entries in their queue order.
   */
  lemma PruneAppend(a: seq<Entry>, b: seq<Entry>, now: real, limit: real)
    ensures Prune(a + b, now, limit) == Prune(a, now, limit) + Prune(b, now, limit)
  {
    var keep := Fresh(now, limit);
    PruneIsKeep(a + b, now, limit);
    PruneIsKeep(a, now, limit);
    PruneIsKeep(b, now, limit);
    KeepAppend(a, b, keep);
  }

  /** The freshness test as a value a filter can be given. */
  function Fresh(now: real, limit: real): Entry -> bool {
    x => !IsStale(x, now, limit)
  }

  /** The entries of `q` that pass `keep`, in order. */
  function Keep(q: seq<Entry>, keep: Entry -> bool): seq<Entry> {
    if |q| == 0 then [] else (if keep(q[0]) then [q[0]] else []) + Keep(q[1..], keep)
  }

  lemma {:induction false} KeepAppend(a: seq<Entry>, b: seq<Entry>, keep: Entry -> bool)
    ensures Keep(a + b, keep) == Keep(a, keep) + Keep(b, keep)
  {
    if |a| == 0 {
      assert a + b == b;
    } else {
      var ab := a + b;
      assert ab[0] == a[0] && ab[1..] == a[1..] + b;
      KeepAppend(a[1..], b, keep);
      var h := if keep(a[0]) then [a[0]] else [];
      assert h + (Keep(a[1..], keep) + Keep(b, keep)) == (h + Keep(a[1..], keep)) + Keep(b, keep);
    }
  }

  /** Pruning is keeping the fresh entries. */
  lemma {:induction false} PruneIsKeep(q: seq<Entry>, now: real, limit: real)
    ensures Prune(q, now, limit) == Keep(q, Fresh(now, limit))
  {
    if |q| > 0 {
      PruneIsKeep(q[1..], now, limit);
      PruneCons(q, now, limit);
      assert Fresh(now, limit)(q[0]) == !IsStale(q[0], now, limit);
    }
  }

  /** One step of pruning a non-empty queue. */
  lemma PruneCons(q: seq<Entry>, now: real, limit: real)
    requires |q| > 0
    ensures Prune(q, now, limit) == (if IsStale(q[0], now, limit) then [] else [q[0]]) + Prune(q[1..], now, limit)
  {
    if IsStale(q[0], now, limit) {
      assert [] + Prune(q[1..], now, limit) == Prune(q[1..], now, limit);
    }
  }

  /** Pruning keeps ids distinct, and each surviving id keeps exactly the entry it had. */
  lemma {:induction false} PruneFind(q: seq<Entry>, now: real, limit: real, id: string)
    requires UniqueIds(q)
    ensures UniqueIds(Prune(q, now, limit))
    ensures Find(Prune(q, now, limit), id)
            == (if Find(q, id).Some? && !IsStale(Find(q, id).value, now, limit) then Find(q, id) else None)
  {
    if |q| > 0 {
      UniqueTail(q);
      PruneFind(q[1..], now, limit, id);
      var rest := Prune(q[1..], now, limit);
      if !IsStale(q[0], now, limit) {
        UniqueCons(q[0], rest);
        assert ([q[0]] + rest)[1..] == rest;
      } else if q[0].id == id {
        assert Find(rest, id).None?;
      }
    }
  }

  /** Pruning again at the same moment removes nothing more. */
  lemma PruneIdempotent(q: seq<Entry>, now: real, limit: real)
    ensures Prune(Prune(q, now, limit), now, limit) == Prune(q, now, limit)
  {
    var p := Prune(q, now, limit);
    PruneKeepsFresh(p, now, limit);
  }

  /** A queue without stale entries is left exactly as it is. */
  lemma {:induction false} PruneKeepsFresh(q: seq<Entry>, now: real, limit: real)
    requires forall x :: x in q ==> !IsStale(x, now, limit)
    ensures Prune(q, now, limit) == q
  {
    if |q| > 0 {
      PruneKeepsFresh(q[1..], now, limit);
      assert q == [q[0]] + q[1..];
    }
  }
}
