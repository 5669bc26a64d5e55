/** When collecting idle buckets is noticed: in every other case, by a run in which a forgotten bucket
    leaves room for another that would have been pushed out, with what that one still owes. */
module RateLimitNoticed {
  import opened Prelude
  import opened RateLimit
  import opened RateLimitRuns
  import opened RateLimitCollection

  // ---- runs put together -------------------------------------------------------------------------------------------

  /** The same request n times. */
  function Repeat(e: Event, n: nat): (es: seq<Event>)
    ensures |es| == n && forall x :: x in es ==> x == e
  {
    if n == 0 then [] else Repeat(e, n - 1) + [e]
  }

  /** One request of each of these keys, at one time. */
  function Visits(ks: seq<Key>, at: real): (es: seq<Event>)
    ensures |es| == |ks| && (forall x :: x in es ==> x.at == at && x.key in ks)
  {
    if ks == [] then [] else Visits(ks[..|ks| - 1], at) + [Event(ks[|ks| - 1], at)]
  }

  lemma Extend(trace: seq<Event>, more: seq<Event>, at: real)
    requires Monotone(trace) && (trace != [] ==> Last(trace).at <= at) && forall e :: e in more ==> e.at == at
    ensures Monotone(trace + more) && (more != [] ==> Last(trace + more).at == at)
  {
    var all := trace + more;
    forall i, j | 0 <= i < j < |all|
      ensures all[i].at <= all[j].at
    {
      if j >= |trace| {
        assert all[j] in more;
        if i < |trace| {
          assert all[i].at <= Last(trace).at;
        } else {
          assert all[i] in more;
        }
      }
    }
    if more != [] {
      assert Last(all) in more;
    }
  }

  lemma KeysOfSum(a: seq<Event>, b: seq<Event>)
    ensures Keys(a + b) == Keys(a) + Keys(b)
  {
    var all := a + b;
    forall k | k in Keys(all)
      ensures k in Keys(a) + Keys(b)
    {
      var i :| 0 <= i < |all| && all[i].key == k;
      if i < |a| {
        assert a[i].key == k;
      } else {
        assert b[i - |a|].key == k;
      }
    }
    forall k | k in Keys(a) + Keys(b)
      ensures k in Keys(all)
    {
      if k in Keys(a) {
        var i :| 0 <= i < |a| && a[i].key == k;
        assert all[i].key == k;
      } else {
        var i :| 0 <= i < |b| && b[i].key == k;
        assert all[|a| + i].key == k;
      }
    }
  }

  lemma KeysOfOne(e: Event)
    ensures Keys([e]) == {e.key}
  {
    assert [e][0].key == e.key;
  }

  lemma KeysOfRepeat(e: Event, n: nat)
    requires n > 0
    ensures Keys(Repeat(e, n)) == {e.key}
  {
    var es := Repeat(e, n);
    assert es[0] in es && es[0].key == e.key;
    forall k | k in Keys(es)
      ensures k == e.key
    {
      var i :| 0 <= i < |es| && es[i].key == k;
      assert es[i] in es;
    }
  }

  lemma {:induction false} KeysOfVisits(ks: seq<Key>, at: real)
    ensures Keys(Visits(ks, at)) == set k | k in ks
  {
    if ks != [] {
      var front, k := ks[..|ks| - 1], ks[|ks| - 1];
      KeysOfVisits(front, at);
      KeysOfSum(Visits(front, at), [Event(k, at)]);
      KeysOfOne(Event(k, at));
      assert ks == front + [k];
    }
  }

  lemma {:induction false} NoUse(trace: seq<Event>, others: seq<Event>, key: Key)
    requires forall e :: e in others ==> e.key != key
    ensures LastUse(trace + others, key) == LastUse(trace, key)
    decreases |others|
  {
    if others == [] {
      assert trace + others == trace;
    } else {
      assert Front(trace + others) == trace + Front(others) && Last(trace + others) == Last(others);
      assert Last(others) in others;
      NoUse(trace, Front(others), key);
    }
  }

  lemma {:induction false} VisitsAreLater(trace: seq<Event>, ks: seq<Key>, at: real, key: Key)
    requires key in ks
    ensures LastUse(trace + Visits(ks, at), key) > |trace|
    decreases |ks|
  {
    var front, k := ks[..|ks| - 1], ks[|ks| - 1];
    var all := trace + Visits(ks, at);
    assert all == trace + Visits(front, at) + [Event(k, at)];
    assert Front(all) == trace + Visits(front, at) && Last(all) == Event(k, at);
    if k != key {
      assert ks == front + [k];
      VisitsAreLater(trace, front, at, key);
    }
  }

  // ---- the times of the run ----------------------------------------------------------------------------------------

  /** The requests that empty a bucket but for a fraction of a token. */
  function Whole(p: Policy): (n: nat)
    requires Sensible(p)
    ensures 1 <= n && n as real <= p.burst < n as real + 1.0
  {
    p.burst.Floor
  }

  /** Half of what that fraction lacks, and the time it takes. */
  function Half(p: Policy): (h: real)
    requires Sensible(p)
    ensures 0.0 < h <= 0.5 && p.burst - Whole(p) as real + h + h == 1.0
  {
    (1.0 - (p.burst - Whole(p) as real)) / 2.0
  }

  function Pause(p: Policy): (d: real)
    requires Sensible(p)
    ensures d > 0.0 && Earned(p, d) == Half(p)
  {
    DividedBack(Half(p), p.rate);
    Half(p) / p.rate
  }

  lemma TwoPauses(p: Policy)
    requires Sensible(p)
    ensures Earned(p, Pause(p) + Pause(p)) == Half(p) + Half(p)
  {
    hide Pause, Half, Earned;
    EarnedGrows(p, Pause(p), Pause(p));
  }

  /** A little less than a full bucket. */
  function Short(p: Policy): (s: real)
    requires Sensible(p) && !RefillsInTime(p)
    ensures BUCKET_TTL * p.rate < s < p.burst && s >= p.burst - Half(p)
  {
    p.burst - Least(Half(p), (p.burst - BUCKET_TTL * p.rate) / 2.0)
  }

  /** The time in which that much comes in: longer than a bucket is kept. */
  function Rest(p: Policy): (w: real)
    requires Sensible(p) && !RefillsInTime(p)
    ensures Earned(p, w) == Short(p) && w > BUCKET_TTL
  {
    DividedBack(Short(p), p.rate);
    var w := Short(p) / p.rate;
    RestIsLong(p, w, Short(p));
    w
  }

  lemma RestIsLong(p: Policy, w: real, s: real)
    requires Sensible(p) && w * p.rate == s > BUCKET_TTL * p.rate
    ensures w > BUCKET_TTL
  {
    if w <= BUCKET_TTL {
      Monotonic(w, BUCKET_TTL, p.rate);
    }
  }

  // ---- the bucket of one key -----------------------------------------------------------------------------------------

  /** What a request finds, by the simple form. */
  function Finds(p: Policy, trace: seq<Event>, e: Event): Bucket
    requires Sensible(p)
  {
    Refill(p, OrFull(p, Ideal(p, trace, e.key), e.at), e.at)
  }

  lemma IdealAfter(p: Policy, trace: seq<Event>, e: Event)
    requires Sensible(p)
    ensures var f := Finds(p, trace, e);
            Ideal(p, trace + [e], e.key) == Some(if f.tokens >= 1.0 then Bucket(f.tokens - 1.0, f.last) else f)
  {
    assert Front(trace + [e]) == trace && Last(trace + [e]) == e;
  }

  lemma {:induction false} IdealAfterMany(p: Policy, trace: seq<Event>, e: Event, n: nat, y: real)
    requires Sensible(p) && n > 0 && y >= n as real && Finds(p, trace, e) == Bucket(y, e.at)
    ensures Ideal(p, trace + Repeat(e, n), e.key) == Some(Bucket(y - n as real, e.at))
    decreases n
  {
    hide Take, Finds;
    var before := trace + Repeat(e, n - 1);
    assert trace + Repeat(e, n) == before + [e];
    IdealAfter(p, before, e);
    if n == 1 {
      assert before == trace;
    } else {
      IdealAfterMany(p, trace, e, n - 1, y);
      FoundAgain(p, before, e, y - (n - 1) as real);
    }
  }

  lemma FoundAgain(p: Policy, trace: seq<Event>, e: Event, y: real)
    requires Sensible(p) && Ideal(p, trace, e.key) == Some(Bucket(y, e.at))
    ensures Finds(p, trace, e) == Bucket(y, e.at)
  {
  }

  lemma FoundNew(p: Policy, trace: seq<Event>, e: Event)
    requires Sensible(p) && forall x :: x in trace ==> x.key != e.key
    ensures Finds(p, trace, e) == Bucket(p.burst, e.at)
  {
    assert [] + trace == trace;
    OthersDoNotMatter(p, [], trace, e.key);
  }

  lemma FoundLater(p: Policy, trace: seq<Event>, e: Event, y: real, last: real)
    requires Sensible(p) && Ideal(p, trace, e.key) == Some(Bucket(y, last)) && e.at > last
    requires y + Earned(p, e.at - last) <= p.burst
    ensures Finds(p, trace, e) == Bucket(y + Earned(p, e.at - last), e.at)
  {
    hide Earned;
  }

  // ---- the run ---------------------------------------------------------------------------------------------------------

  function Spent(p: Policy, a: Key, b: Key): seq<Event>
    requires Sensible(p)
  {
    Repeat(Event(a, 0.0), Whole(p)) + Repeat(Event(b, Pause(p)), Whole(p))
  }

  function ThreePauses(p: Policy): real
    requires Sensible(p)
  {
    Pause(p) + Pause(p) + Pause(p)
  }

  /** Both keys are drained, one pause apart, and the first is refused once more at the end. */
  function Drained(p: Policy, a: Key, b: Key): seq<Event>
    requires Sensible(p)
  {
    Spent(p, a, b) + [Event(a, Pause(p) + Pause(p))] + [Event(b, ThreePauses(p))] + [Event(a, ThreePauses(p))]
  }

  /** Then the table is filled up. */
  function Filled(p: Policy, a: Key, b: Key, fillers: seq<Key>): seq<Event>
    requires Sensible(p)
  {
    Drained(p, a, b) + Visits(fillers, ThreePauses(p))
  }

  lemma SpentIdeal(p: Policy, a: Key, b: Key)
    requires Sensible(p) && a != b
    ensures Ideal(p, Spent(p, a, b), a) == Some(Bucket(1.0 - Half(p) - Half(p), 0.0))
    ensures Ideal(p, Spent(p, a, b), b) == Some(Bucket(1.0 - Half(p) - Half(p), Pause(p)))
  {
    hide Ideal, Finds, Half, Pause, Whole;
    var first, ea, eb := Repeat(Event(a, 0.0), Whole(p)), Event(a, 0.0), Event(b, Pause(p));
    assert [] + first == first;
    FoundNew(p, [], ea);
    IdealAfterMany(p, [], ea, Whole(p), p.burst);
    OthersDoNotMatter(p, first, Repeat(eb, Whole(p)), a);
    FoundNew(p, first, eb);
    IdealAfterMany(p, first, eb, Whole(p), p.burst);
  }

  /** One request more, and what it leaves of another key's bucket. */
  lemma OneMoreIdeal(p: Policy, trace: seq<Event>, e: Event, y: real, last: real, other: Key)
    requires Sensible(p) && Ideal(p, trace, e.key) == Some(Bucket(y, last)) && e.at > last
    requires y + Earned(p, e.at - last) <= 1.0 && other != e.key
    ensures var f := y + Earned(p, e.at - last);
            Ideal(p, trace + [e], e.key) == Some(Bucket(if f >= 1.0 then f - 1.0 else f, e.at))
    ensures Ideal(p, trace + [e], other) == Ideal(p, trace, other)
  {
    hide Ideal, Earned;
    FoundLater(p, trace, e, y, last);
    IdealAfter(p, trace, e);
    OthersDoNotMatter(p, trace, [e], other);
  }

  /** Of the first key's bucket half of the fraction is back, and nothing of the second's. */
  lemma DrainedIdeal(p: Policy, a: Key, b: Key)
    requires Sensible(p) && a != b
    ensures Ideal(p, Drained(p, a, b), a) == Some(Bucket(Half(p), ThreePauses(p)))
    ensures Ideal(p, Drained(p, a, b), b) == Some(Bucket(0.0, ThreePauses(p)))
  {
    hide Ideal, Half, Pause, Earned, Spent;
    var d := Pause(p);
    var t0, e1, e2, e3 := Spent(p, a, b), Event(a, d + d), Event(b, ThreePauses(p)), Event(a, ThreePauses(p));
    SpentIdeal(p, a, b);
    TwoPauses(p);
    assert e1.at - 0.0 == d + d && e2.at - d == d + d && e3.at - (d + d) == d;
    OneMoreIdeal(p, t0, e1, 1.0 - Half(p) - Half(p), 0.0, b);
    OneMoreIdeal(p, t0 + [e1], e2, 1.0 - Half(p) - Half(p), d, a);
    OneMoreIdeal(p, t0 + [e1] + [e2], e3, 0.0, d + d, b);
  }

  lemma FilledIdeal(p: Policy, a: Key, b: Key, fillers: seq<Key>)
    requires Sensible(p) && a != b && a !in fillers && b !in fillers
    ensures Ideal(p, Filled(p, a, b, fillers), a) == Some(Bucket(Half(p), ThreePauses(p)))
    ensures Ideal(p, Filled(p, a, b, fillers), b) == Some(Bucket(0.0, ThreePauses(p)))
  {
    hide Ideal, Drained, Half;
    DrainedIdeal(p, a, b);
    OthersDoNotMatter(p, Drained(p, a, b), Visits(fillers, ThreePauses(p)), a);
    OthersDoNotMatter(p, Drained(p, a, b), Visits(fillers, ThreePauses(p)), b);
  }

  lemma FilledIsMonotone(p: Policy, a: Key, b: Key, fillers: seq<Key>)
    requires Sensible(p)
    ensures var trace := Filled(p, a, b, fillers);
            Monotone(trace) && trace != [] && Last(trace).at == ThreePauses(p)
  {
    hide Monotone, Repeat, Visits, Pause, Whole;
    var d := Pause(p);
    var t1 := Repeat(Event(a, 0.0), Whole(p));
    NothingIsMonotone();
    Extend([], t1, 0.0);
    assert [] + t1 == t1;
    Extend(t1, Repeat(Event(b, d), Whole(p)), d);
    Extend(Spent(p, a, b), [Event(a, d + d)], d + d);
    Extend(Spent(p, a, b) + [Event(a, d + d)], [Event(b, ThreePauses(p))], ThreePauses(p));
    Extend(Spent(p, a, b) + [Event(a, d + d)] + [Event(b, ThreePauses(p))], [Event(a, ThreePauses(p))], ThreePauses(p));
    Extend(Drained(p, a, b), Visits(fillers, ThreePauses(p)), ThreePauses(p));
    assert fillers == [] ==> Filled(p, a, b, fillers) == Drained(p, a, b);
  }

  lemma NothingIsMonotone()
    ensures Monotone([])
  {
  }

  lemma FilledKeys(p: Policy, a: Key, b: Key, fillers: seq<Key>)
    requires Sensible(p)
    ensures Keys(Filled(p, a, b, fillers)) == {a, b} + (set k | k in fillers)
  {
    hide Keys, Repeat, Visits;
    var d := Pause(p);
    var e1, e2, e3 := Event(a, d + d), Event(b, ThreePauses(p)), Event(a, ThreePauses(p));
    KeysOfRepeat(Event(a, 0.0), Whole(p));
    KeysOfRepeat(Event(b, d), Whole(p));
    KeysOfSum(Repeat(Event(a, 0.0), Whole(p)), Repeat(Event(b, d), Whole(p)));
    KeysOfOne(e1);
    KeysOfOne(e2);
    KeysOfOne(e3);
    KeysOfSum(Spent(p, a, b), [e1]);
    KeysOfSum(Spent(p, a, b) + [e1], [e2]);
    KeysOfSum(Spent(p, a, b) + [e1] + [e2], [e3]);
    KeysOfVisits(fillers, ThreePauses(p));
    KeysOfSum(Drained(p, a, b), Visits(fillers, ThreePauses(p)));
  }

  /** The second key was used before all others. */
  lemma SecondIsLast(p: Policy, a: Key, b: Key, fillers: seq<Key>, k: Key)
    requires Sensible(p) && a != b && a !in fillers && b !in fillers && (k == a || k in fillers)
    ensures LastUse(Filled(p, a, b, fillers), k) > LastUse(Filled(p, a, b, fillers), b)
  {
    hide Spent, LastUse;
    var e1, e2, e3 := Event(a, Pause(p) + Pause(p)), Event(b, ThreePauses(p)), Event(a, ThreePauses(p));
    var t := Spent(p, a, b) + [e1] + [e2];
    NoUse(t, [e3], b);
    LastUseIsPast(t, b);
    NoUse(Drained(p, a, b), Visits(fillers, ThreePauses(p)), b);
    if k == a {
      NoUse(Drained(p, a, b), Visits(fillers, ThreePauses(p)), a);
      UsedLast(t, e3);
    } else {
      VisitsAreLater(Drained(p, a, b), fillers, ThreePauses(p), k);
    }
  }

  lemma UsedLast(trace: seq<Event>, e: Event)
    ensures LastUse(trace + [e], e.key) == |trace| + 1
  {
    assert Last(trace + [e]) == e;
  }

  // ---- the tables of the run -------------------------------------------------------------------------------------------

  /** What the run above comes to: as many keys as fit, of which b has been used before the others; b
      has just been emptied and a has half the fraction. */
  ghost predicate Staged(p: Policy, trace: seq<Event>, a: Key, b: Key, at: real)
    requires Sensible(p)
  {
    && Monotone(trace) && trace != [] && Last(trace).at == at && a != b
    && |Keys(trace)| == p.maxKeys && a in Keys(trace) && b in Keys(trace)
    && Ideal(p, trace, a) == Some(Bucket(Half(p), at)) && Ideal(p, trace, b) == Some(Bucket(0.0, at))
    && forall k :: k in Keys(trace) && k != b ==> LastUse(trace, k) > LastUse(trace, b)
  }

  /** A key used just now is in the table. */
  lemma JustUsed(m: Mode, p: Policy, trace: seq<Event>, key: Key, b: Bucket)
    requires Sensible(p) && Monotone(trace) && trace != [] && |Keys(trace)| <= p.maxKeys
    requires Ideal(p, trace, key) == Some(b) && b.last == Last(trace).at
    ensures var t := After(m, p, trace); key in t.buckets && t.buckets[key] == b
  {
    hide Ideal, After, Lost;
    RoomForAll(m, p, trace, key);
    RunAgrees(m, p, trace, key);
  }

  lemma {:induction false} KeepingKeepsAll(p: Policy, trace: seq<Event>)
    requires Sensible(p) && |Keys(trace)| <= p.maxKeys
    ensures After(Keeping, p, trace).buckets.Keys == Keys(trace)
    decreases |trace|
  {
    hide Serve;
    if trace != [] {
      var front, e := Front(trace), Last(trace);
      var t := After(Keeping, p, front);
      KeysGrow(trace);
      SubsetIsSmaller(Keys(front), Keys(trace));
      KeepingKeepsAll(p, front);
      RunKeepsTheTable(Keeping, p, front);
      SizeOfKeys(t.order, t.buckets);
      ServedKeys(p, t, e.key, e.at);
    }
  }

  /** Without collection, b is the last of a full list. */
  lemma SecondIsAtTheEnd(p: Policy, trace: seq<Event>, a: Key, b: Key, at: real)
    requires Sensible(p) && Staged(p, trace, a, b, at)
    ensures var t := After(Keeping, p, trace);
            && Valid(p, t) && t.buckets.Keys == Keys(trace)
            && |t.order| == p.maxKeys && b !in t.order[..p.maxKeys - 1]
  {
    hide LastUse, After, Ideal, Half;
    var t := After(Keeping, p, trace);
    RunKeepsTheTable(Keeping, p, trace);
    KeepingKeepsAll(p, trace);
    SizeOfKeys(t.order, t.buckets);
    ListIsByRecency(Keeping, p, trace);
    forall i: nat | i < |t.order| - 1
      ensures t.order[i] != b
    {
      var last := |t.order| - 1;
      assert LastUse(trace, t.order[i]) > LastUse(trace, t.order[last]);
      assert t.order[last] in t.order;
    }
  }

  /** So it goes for one key more. */
  lemma SecondGoes(p: Policy, trace: seq<Event>, a: Key, b: Key, at: real, c: Event)
    requires Sensible(p) && Staged(p, trace, a, b, at) && c.key !in Keys(trace)
    ensures b !in After(Keeping, p, trace + [c]).buckets
  {
    hide Staged, Take, Valid, Keys, Ideal;
    var t := After(Keeping, p, trace);
    SecondIsAtTheEnd(p, trace, a, b, at);
    assert Front(trace + [c]) == trace && Last(trace + [c]) == c;
    assert b in Keys(trace) by { StagedKeys(p, trace, a, b, at); }
    NewcomerPushes(p, t, c.key, c.at, b);
  }

  lemma StagedKeys(p: Policy, trace: seq<Event>, a: Key, b: Key, at: real)
    requires Sensible(p) && Staged(p, trace, a, b, at)
    ensures a in Keys(trace) && b in Keys(trace)
  {
  }

  lemma NewcomerPushes(p: Policy, t: Table, key: Key, now: real, k: Key)
    requires Sensible(p) && |t.order| == p.maxKeys && key !in t.buckets && k != key && k !in t.order[..p.maxKeys - 1]
    ensures k !in Serve(p, t, key, now).0.buckets
  {
    hide Take;
  }

  lemma {:induction false} CollectedByNow(m: Mode, p: Policy, trace: seq<Event>, now: real)
    requires Sensible(p) && Monotone(trace) && (trace != [] ==> Last(trace).at <= now)
    ensures var gc := After(m, p, trace).lastGC; gc.Some? ==> gc.value <= now
    decreases |trace|
  {
    hide Serve;
    if trace != [] {
      FrontIsMonotone(trace);
      CollectedByNow(m, p, Front(trace), Last(trace).at);
      ServedTime(p, Before(m, p, trace), Last(trace).key, Last(trace).at);
    }
  }

  lemma ServedTime(p: Policy, t: Table, key: Key, now: real)
    requires Sensible(p)
    ensures Serve(p, t, key, now).0.lastGC == t.lastGC
  {
    hide Take;
  }

  /** With collection a is forgotten, so that there is room, and b stays as it is. */
  lemma SecondStays(p: Policy, trace: seq<Event>, a: Key, b: Key, at: real, c: Event)
    requires Sensible(p) && !RefillsInTime(p) && Staged(p, trace, a, b, at)
    requires c.key !in Keys(trace) && c.at == at + Rest(p)
    ensures var u := After(Collecting, p, trace + [c]);
            b in u.buckets && u.buckets[b] == Bucket(0.0, at) && u.lastGC == Some(c.at)
  {
    hide Ideal, After, Serve, Half, Rest, Short, Idle;
    var t := After(Collecting, p, trace);
    JustUsed(Collecting, p, trace, a, Bucket(Half(p), at));
    JustUsed(Collecting, p, trace, b, Bucket(0.0, at));
    RoomForAll(Collecting, p, trace, a);
    CollectedByNow(Collecting, p, trace, at);
    RunKeepsTheTable(Collecting, p, trace);
    CollectedIsValid(p, t, c.at);
    OneIdle(p, at, c.at);
    var u := Collected(p, t, c.at);
    assert u.buckets.Keys <= Keys(trace) - {a};
    SubsetIsSmaller(u.buckets.Keys, Keys(trace) - {a});
    SizeOfKeys(u.order, u.buckets);
    After1(Collecting, p, trace, c);
    ServedTime(p, u, c.key, c.at);
    RoomForNewcomer(p, u, c.key, c.at, b);
  }

  lemma OneIdle(p: Policy, at: real, now: real)
    requires Sensible(p) && !RefillsInTime(p) && now == at + Rest(p)
    ensures Idle(p, Bucket(Half(p), at), now) && !Idle(p, Bucket(0.0, at), now)
  {
    hide Earned, Rest, Short, Half;
    assert now - at == Rest(p);
    assert Earned(p, now - at) == Short(p);
  }

  lemma After1(m: Mode, p: Policy, trace: seq<Event>, e: Event)
    requires Sensible(p)
    ensures After(m, p, trace + [e]) == Serve(p, Swept(m, p, After(m, p, trace), e.at), e.key, e.at).0
    ensures Answer(m, p, trace + [e]) == (Serve(p, Swept(m, p, After(m, p, trace), e.at), e.key, e.at).1,
                                          Serve(p, Swept(m, p, After(m, p, trace), e.at), e.key, e.at).2)
  {
    hide Serve, Swept;
    assert Front(trace + [e]) == trace && Last(trace + [e]) == e;
  }

  lemma RoomForNewcomer(p: Policy, t: Table, key: Key, now: real, k: Key)
    requires Sensible(p) && |t.order| < p.maxKeys && key !in t.buckets && k in t.buckets
    ensures var u := Serve(p, t, key, now).0; k in u.buckets && u.buckets[k] == t.buckets[k]
  {
    hide Take;
  }

  // ---- asking until the answers differ ---------------------------------------------------------------------------------

  /** What the next request of a run finds in its bucket. */
  function Met(m: Mode, p: Policy, trace: seq<Event>, e: Event): Bucket
    requires Sensible(p)
  {
    Refill(p, Touched(p, Swept(m, p, After(m, p, trace), e.at), e.key, e.at).buckets[e.key], e.at)
  }

  /** Its answer, and what the same request finds the next time. */
  lemma AskAgain(m: Mode, p: Policy, trace: seq<Event>, e: Event, y: real)
    requires Sensible(p) && Met(m, p, trace, e) == Bucket(y, e.at)
    requires m.Collecting? ==> After(m, p, trace).lastGC == Some(e.at)
    ensures Answer(m, p, trace + [e]) == if y >= 1.0 then (true, 0.0) else (false, (1.0 - y) / p.rate)
    ensures Met(m, p, trace + [e], e) == Bucket(if y >= 1.0 then y - 1.0 else y, e.at)
    ensures m.Collecting? ==> After(m, p, trace + [e]).lastGC == Some(e.at)
  {
    hide After, Answer, Earned, Least, Trimmed;
    After1(m, p, trace, e);
    ServedTime(p, Swept(m, p, After(m, p, trace), e.at), e.key, e.at);
    assert Swept(m, p, After(m, p, trace + [e]), e.at) == After(m, p, trace + [e]);
  }

  lemma Apart(x: real, y: real, r: real)
    requires x < y && r > 0.0
    ensures (1.0 - x) / r != (1.0 - y) / r
  {
    var u, v := (1.0 - x) / r, (1.0 - y) / r;
    assert u * r == 1.0 - x;
    assert v * r == 1.0 - y;
  }

  /** Whoever finds more in one table than in the other gets another answer from it, if not the first
      time then later. */
  lemma {:induction false} AnswersDiffer(p: Policy, trace: seq<Event>, e: Event, x: real, y: real) returns (more: seq<Event>)
    requires Sensible(p) && x < y && Met(Collecting, p, trace, e) == Bucket(x, e.at) && Met(Keeping, p, trace, e) == Bucket(y, e.at)
    requires After(Collecting, p, trace).lastGC == Some(e.at)
    ensures more != [] && (forall f :: f in more ==> f == e)
    ensures Answer(Collecting, p, trace + more) != Answer(Keeping, p, trace + more)
    decreases if x >= 1.0 then x.Floor + 1 else 0
  {
    hide Answer, Met, After;
    AskAgain(Collecting, p, trace, e, x);
    AskAgain(Keeping, p, trace, e, y);
    if x >= 1.0 {
      var rest := AnswersDiffer(p, trace + [e], e, x - 1.0, y - 1.0);
      more := [e] + rest;
      assert trace + [e] + rest == trace + more;
    } else {
      more := [e];
      Apart(x, y, p.rate);
    }
  }

  // ---- exactly when ----------------------------------------------------------------------------------------------------

  lemma {:induction false} SomeKeys(keys: set<Key>, n: nat) returns (ks: seq<Key>)
    requires n <= |keys|
    ensures |ks| == n && NoDuplicates(ks) && forall k :: k in ks ==> k in keys
  {
    if n == 0 {
      ks := [];
    } else {
      var k :| k in keys;
      var rest := SomeKeys(keys - {k}, n - 1);
      ks := [k] + rest;
      assert k !in rest;
    }
  }

  lemma {:induction false} NumberOfKeys(ks: seq<Key>)
    requires NoDuplicates(ks)
    ensures |set k | k in ks| == |ks|
  {
    if ks != [] {
      NumberOfKeys(ks[1..]);
      forall j | 0 <= j < |ks[1..]|
        ensures ks[1..][j] != ks[0]
      {
        assert ks[1..][j] == ks[j + 1];
      }
      var rest := set k | k in ks[1..];
      assert ks[0] !in rest;
      assert ks == [ks[0]] + ks[1..];
      assert (set k | k in ks) == {ks[0]} + rest;
    }
  }

  /** Distinct keys, apart. */
  lemma Parts(ks: seq<Key>, n: nat)
    requires NoDuplicates(ks) && |ks| == n + 1 && n >= 2
    ensures ks[0] != ks[1] && ks[0] !in ks[2..n] && ks[1] !in ks[2..n] && ks[n] !in ks[2..n] && ks[n] != ks[0] && ks[n] != ks[1]
    ensures {ks[0], ks[1]} + (set k | k in ks[2..n]) == set k | k in ks[..n]
    ensures NoDuplicates(ks[..n]) && ks[n] !in ks[..n]
  {
    forall k | k in ks[..n]
      ensures k in {ks[0], ks[1]} + (set x | x in ks[2..n])
    {
      var i :| 0 <= i < n && ks[i] == k;
      assert i >= 2 ==> ks[2..n][i - 2] == k;
    }
    assert forall k :: k in ks[2..n] ==> k in ks[..n];
    assert ks[..n][0] == ks[0] && ks[..n][1] == ks[1];
  }

  lemma StageIsSet(p: Policy, a: Key, b: Key, fillers: seq<Key>)
    requires Sensible(p) && a != b && a !in fillers && b !in fillers
    requires |{a, b} + (set k | k in fillers)| == p.maxKeys
    ensures Staged(p, Filled(p, a, b, fillers), a, b, ThreePauses(p))
  {
    hide Filled, Ideal, LastUse, Monotone, Keys;
    FilledIdeal(p, a, b, fillers);
    FilledIsMonotone(p, a, b, fillers);
    FilledKeys(p, a, b, fillers);
    forall k | k in Keys(Filled(p, a, b, fillers)) && k != b
      ensures LastUse(Filled(p, a, b, fillers), k) > LastUse(Filled(p, a, b, fillers), b)
    {
      SecondIsLast(p, a, b, fillers, k);
    }
  }

  /** After one key more, b finds less with collection than without. */
  lemma MetApart(p: Policy, trace: seq<Event>, a: Key, b: Key, at: real, c: Event)
    requires Sensible(p) && !RefillsInTime(p) && Staged(p, trace, a, b, at)
    requires c.key !in Keys(trace) && c.at == at + Rest(p)
    ensures var e := Event(b, c.at);
            && Met(Collecting, p, trace + [c], e) == Bucket(Short(p), c.at) && Met(Keeping, p, trace + [c], e) == Bucket(p.burst, c.at)
            && After(Collecting, p, trace + [c]).lastGC == Some(c.at)
  {
    hide After, Staged, Earned, Trimmed, Rest, Short, Keys;
    SecondStays(p, trace, a, b, at, c);
    SecondGoes(p, trace, a, b, at, c);
    assert c.at - at == Rest(p);
  }

  lemma StageOf(p: Policy, ks: seq<Key>) returns (stage: seq<Event>)
    requires Sensible(p) && p.maxKeys >= 2 && NoDuplicates(ks) && |ks| == p.maxKeys + 1
    ensures Staged(p, stage, ks[0], ks[1], ThreePauses(p)) && Keys(stage) == set k | k in ks[..p.maxKeys]
  {
    hide Filled, Staged, Keys, ThreePauses;
    var n := p.maxKeys;
    stage := Filled(p, ks[0], ks[1], ks[2..n]);
    Parts(ks, n);
    NumberOfKeys(ks[..n]);
    StageIsSet(p, ks[0], ks[1], ks[2..n]);
    FilledKeys(p, ks[0], ks[1], ks[2..n]);
  }

  /** A stage is extended by one key more, and then by b until the answers differ. */
  lemma NoticedFrom(p: Policy, stage: seq<Event>, a: Key, b: Key, at: real, c: Event) returns (trace: seq<Event>)
    requires Sensible(p) && !RefillsInTime(p) && Staged(p, stage, a, b, at)
    requires c.key !in Keys(stage) && c.at == at + Rest(p)
    ensures Monotone(trace) && trace != [] && Keys(trace) <= Keys(stage) + {c.key}
    ensures Answer(Collecting, p, trace) != Answer(Keeping, p, trace)
  {
    hide Answer, Met, After, Monotone, Keys, Rest, Short, Ideal, LastUse, Half;
    MetApart(p, stage, a, b, at, c);
    var e := Event(b, c.at);
    var more := AnswersDiffer(p, stage + [c], e, Short(p), p.burst);
    trace := stage + [c] + more;
    Extend(stage, [c], c.at);
    Extend(stage + [c], more, c.at);
    KeysOfSum(stage, [c]);
    KeysOfOne(c);
    KeysOfSum(stage + [c], more);
    KeysOfSame(more, e);
  }

  /** The run: any policy that lets a bucket take longer to refill than it is kept, and one key more
      than fit its table. */
  lemma NoticingRun(p: Policy, ks: seq<Key>) returns (trace: seq<Event>)
    requires Sensible(p) && p.maxKeys >= 2 && !RefillsInTime(p) && NoDuplicates(ks) && |ks| == p.maxKeys + 1
    ensures Monotone(trace) && trace != [] && Keys(trace) <= set k | k in ks
    ensures Answer(Collecting, p, trace) != Answer(Keeping, p, trace)
  {
    hide Staged, Answer, Monotone, Keys, Rest, ThreePauses;
    var stage := StageOf(p, ks);
    Parts(ks, p.maxKeys);
    trace := NoticedFrom(p, stage, ks[0], ks[1], ThreePauses(p), Event(ks[p.maxKeys], ThreePauses(p) + Rest(p)));
  }

  lemma KeysOfSame(es: seq<Event>, e: Event)
    requires forall f :: f in es ==> f == e
    ensures Keys(es) <= {e.key}
  {
    forall k | k in Keys(es)
      ensures k == e.key
    {
      var i :| 0 <= i < |es| && es[i].key == k;
      assert es[i] in es;
    }
  }

  /** No run over these keys notices collection if and only if the table has room for one key only, a
      bucket refills in the time it is kept, or all the keys fit the table. */
  lemma UnnoticedExactly(p: Policy, keys: set<Key>)
    requires Sensible(p)
    ensures Unnoticed(p, keys) <==> p.maxKeys == 1 || p.burst <= BUCKET_TTL * p.rate || |keys| <= p.maxKeys
  {
    if p.maxKeys == 1 || RefillsInTime(p) || |keys| <= p.maxKeys {
      WhenUnnoticed(p, keys);
    } else {
      var ks := SomeKeys(keys, p.maxKeys + 1);
      var trace := NoticingRun(p, ks);
    }
  }

  /** For the limiters that are made: collection cannot be noticed if and only if the burst is at most
      a quarter of what an hour allows, or there are no more keys than ten thousand. */
  lemma MadeLimiters(perHour: real, burst: int, keys: set<Key>)
    requires perHour > 0.0 && burst > 0
    ensures var p := Policy(perHour / 3600.0, burst as real, 10_000);
            Sensible(p) && (Unnoticed(p, keys) <==> burst as real <= perHour / 4.0 || |keys| <= 10_000)
  {
    hide Unnoticed;
    var p := Policy(perHour / 3600.0, burst as real, 10_000);
    RateIsPositive(perHour);
    assert BUCKET_TTL * p.rate == perHour / 4.0;
    UnnoticedExactly(p, keys);
  }

  /** With the settings it comes with, the server's limit on uploads is not affected, its limit on
      logins is. */
  lemma DefaultLimiters(keys: set<Key>)
    ensures Sensible(Policy(120.0 / 3600.0, 20.0, 10_000)) && Sensible(Policy(30.0 / 3600.0, 10.0, 10_000))
    ensures Unnoticed(Policy(120.0 / 3600.0, 20.0, 10_000), keys)
    ensures Unnoticed(Policy(30.0 / 3600.0, 10.0, 10_000), keys) <==> |keys| <= 10_000
  {
    hide Unnoticed;
    MadeLimiters(120.0, 20, keys);
    MadeLimiters(30.0, 10, keys);
  }
}
