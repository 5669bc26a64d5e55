/** When collecting idle buckets cannot be noticed: when all keys fit the table, when the table has
    room for one key only, or when a bucket refills within the time it is kept. */
module RateLimitCollection {
  import opened Prelude
  import opened RateLimit
  import opened RateLimitRuns

  /** A bucket that nobody has used for as long as it is kept has refilled. */
  predicate RefillsInTime(p: Policy) { p.burst <= BUCKET_TTL * p.rate }

  // ---- the buckets of a run ----------------------------------------------------------------------------------------

  lemma SweptBuckets(m: Mode, p: Policy, t: Table, now: real, k: Key)
    requires k in Swept(m, p, t, now).buckets
    ensures k in t.buckets && Swept(m, p, t, now).buckets[k] == t.buckets[k]
  {
    hide Idle;
  }

  /** A request leaves the bucket of its key used now, and others as they are. */
  lemma ServedBucket(p: Policy, t: Table, key: Key, now: real, k: Key)
    requires Sensible(p) && Valid(p, t) && k in Serve(p, t, key, now).0.buckets
    requires forall x :: x in t.buckets ==> Solvent(p, Some(t.buckets[x]), now)
    ensures var b := Serve(p, t, key, now).0.buckets[k];
            && Solvent(p, Some(b), now)
            && (if k == key then b.last == now else k in t.buckets && b == t.buckets[k])
  {
    hide Take, Trimmed, Earned, Least;
    TrimmedIsValid(p, t);
    if k == key {
      TakeSpends(p, if k in t.buckets then Some(t.buckets[k]) else None, now);
      TakenNow(p, if k in t.buckets then t.buckets[k] else Bucket(p.burst, now), now);
    }
  }

  lemma TakenNow(p: Policy, b: Bucket, now: real)
    requires Sensible(p) && b.last <= now
    ensures Take(p, b, now).0.last == now
  {
  }

  /** Every bucket is solvent, and was last used at the time of its key's last request. */
  lemma {:induction false} BucketsOfARun(m: Mode, p: Policy, trace: seq<Event>, now: real, k: Key)
    requires Sensible(p) && Monotone(trace) && (trace != [] ==> Last(trace).at <= now)
    requires k in After(m, p, trace).buckets
    ensures Solvent(p, Some(After(m, p, trace).buckets[k]), now)
    ensures 1 <= LastUse(trace, k) <= |trace| && After(m, p, trace).buckets[k].last == trace[LastUse(trace, k) - 1].at
    decreases |trace|
  {
    hide Serve, Swept;
    var front, e := Front(trace), Last(trace);
    var t := Before(m, p, trace);
    FrontIsMonotone(trace);
    RunKeepsTheTable(m, p, trace);
    forall x | x in t.buckets
      ensures x in After(m, p, front).buckets && t.buckets[x] == After(m, p, front).buckets[x]
      ensures Solvent(p, Some(t.buckets[x]), e.at)
    {
      SweptBuckets(m, p, After(m, p, front), e.at, x);
      BucketsOfARun(m, p, front, e.at, x);
    }
    ServedBucket(p, t, e.key, e.at, k);
    if k != e.key {
      BucketsOfARun(m, p, front, e.at, k);
    }
  }

  /** The further behind in the list, the longer unused. */
  lemma ListIsByAge(m: Mode, p: Policy, trace: seq<Event>, i: nat, j: nat)
    requires Sensible(p) && Monotone(trace) && i < j < |After(m, p, trace).order|
    ensures var t := After(m, p, trace);
            t.order[i] in t.buckets && t.order[j] in t.buckets && t.buckets[t.order[i]].last >= t.buckets[t.order[j]].last
  {
    hide LastUse, After;
    var t := After(m, p, trace);
    RunKeepsTheTable(m, p, trace);
    ListIsByRecency(m, p, trace);
    NothingInTheTable(m, p);
    assert t.order[i] in t.order && t.order[j] in t.order;
    BucketsOfARun(m, p, trace, Last(trace).at, t.order[i]);
    BucketsOfARun(m, p, trace, Last(trace).at, t.order[j]);
  }

  lemma NothingInTheTable(m: Mode, p: Policy)
    requires Sensible(p)
    ensures After(m, p, []) == EMPTY
  {
  }

  /** Where buckets refill in time, an idle bucket is one that is old enough. */
  lemma IdleIsOld(p: Policy, b: Bucket, now: real)
    requires Sensible(p) && RefillsInTime(p) && Solvent(p, Some(b), now)
    ensures Idle(p, b, now) <==> now - b.last > BUCKET_TTL
  {
    hide Earned;
    if now - b.last > BUCKET_TTL {
      EarnedGrows(p, BUCKET_TTL, now - b.last);
      EarnedIs(p, BUCKET_TTL);
    }
  }

  // ---- collection cuts the list ------------------------------------------------------------------------------------

  lemma {:induction false} FilterNone(ks: seq<Key>, keep: set<Key>)
    requires forall j :: 0 <= j < |ks| ==> ks[j] !in keep
    ensures RateLimit.Filter(ks, keep) == []
  {
    if ks != [] {
      FilterNone(ks[1..], keep);
    }
  }

  lemma {:induction false} FilterCuts(ks: seq<Key>, keep: set<Key>)
    requires forall i, j :: 0 <= i < j < |ks| && ks[j] in keep ==> ks[i] in keep
    ensures RateLimit.Filter(ks, keep) <= ks
  {
    if ks != [] {
      FilterCuts(ks[1..], keep);
      if ks[0] in keep {
        assert ks == [ks[0]] + ks[1..];
      } else {
        forall j | 0 <= j < |ks[1..]|
          ensures ks[1..][j] !in keep
        {
          assert ks[1..][j] == ks[j + 1];
        }
        FilterNone(ks[1..], keep);
      }
    }
  }

  /** With one key, or buckets that refill in time, what goes is always the end of the list. */
  lemma CollectionCuts(p: Policy, trace: seq<Event>, now: real)
    requires Sensible(p) && Monotone(trace) && (trace != [] ==> Last(trace).at <= now)
    requires p.maxKeys == 1 || RefillsInTime(p)
    ensures Collected(p, After(Collecting, p, trace), now).order <= After(Collecting, p, trace).order
  {
    hide After, Idle;
    var t := After(Collecting, p, trace);
    RunKeepsTheTable(Collecting, p, trace);
    forall i: nat, j: nat | i < j < |t.order| && t.order[j] in Busy(p, t, now)
      ensures t.order[i] in Busy(p, t, now)
    {
      ListIsByAge(Collecting, p, trace, i, j);
      BucketsOfARun(Collecting, p, trace, now, t.order[i]);
      BucketsOfARun(Collecting, p, trace, now, t.order[j]);
      IdleIsOld(p, t.buckets[t.order[i]], now);
      IdleIsOld(p, t.buckets[t.order[j]], now);
    }
    FilterCuts(t.order, Busy(p, t, now));
  }

  // ---- the two runs side by side -----------------------------------------------------------------------------------

  /** The collecting table is the front of the keeping one, and the keys behind are as good as new. */
  ghost predicate FrontOf(p: Policy, t: Table, all: Table, now: real) {
    && t.order <= all.order
    && (forall k :: k in t.buckets ==> k in all.buckets && t.buckets[k] == all.buckets[k])
    && (forall k :: k in all.buckets && k !in t.buckets ==> Refilled(p, all.buckets[k], now))
  }

  lemma CollectedIsFront(p: Policy, t: Table, all: Table, before: real, now: real)
    requires Sensible(p) && FrontOf(p, t, all, before) && before <= now && Collected(p, t, now).order <= t.order
    ensures FrontOf(p, Collected(p, t, now), all, now)
  {
    hide Earned, Least;
    var u := Collected(p, t, now);
    forall k | k in all.buckets && k !in u.buckets
      ensures Refilled(p, all.buckets[k], now)
    {
      if k !in t.buckets {
        StaysRefilled(p, all.buckets[k], before, now);
      }
    }
  }

  lemma {:induction false} WithoutSum(a: seq<Key>, b: seq<Key>, k: Key)
    ensures Without(a + b, k) == Without(a, k) + Without(b, k)
    decreases |a|
  {
    if a == [] {
      assert a + b == b;
    } else {
      SumParts(a, b);
      WithoutSum(a[1..], b, k);
      Regrouped(if a[0] == k then [] else [a[0]], Without(a[1..], k), Without(b, k));
    }
  }

  lemma SumParts(a: seq<Key>, b: seq<Key>)
    requires a != []
    ensures (a + b)[1..] == a[1..] + b && (a + b)[0] == a[0]
  {
  }

  lemma Regrouped(a: seq<Key>, b: seq<Key>, c: seq<Key>)
    ensures a + (b + c) == a + b + c
  {
  }

  lemma Behind(t: Table, all: Table, key: Key)
    requires t.order <= all.order
    ensures Without(t.order, key) <= Without(all.order, key)
    ensures key !in t.order ==> t.order <= Without(all.order, key)
  {
    var behind := all.order[|t.order|..];
    assert all.order == t.order + behind;
    WithoutSum(t.order, behind, key);
    WithoutKeys(t.order, key);
  }

  /** Making room for one more cuts the longer list to no less than the shorter one. */
  lemma TrimmedOrder(p: Policy, t: Table, all: Table)
    requires p.maxKeys >= 1 && t.order <= all.order && |all.order| <= p.maxKeys
    ensures Trimmed(p, t).order <= Trimmed(p, all).order
  {
  }

  lemma TouchedOrder(p: Policy, t: Table, all: Table, key: Key, now: real)
    requires Sensible(p) && Valid(p, t) && Valid(p, all) && FrontOf(p, t, all, now)
    ensures Touched(p, t, key, now).order <= Touched(p, all, key, now).order
  {
    hide Refilled, Without, Restrict, Trimmed, NoDuplicates;
    Behind(t, all, key);
    TrimmedOrder(p, t, all);
    assert key in t.order <==> key in t.buckets;
    if key !in t.buckets && key in all.buckets {
      RoomWhenShorter(p, t, all, key);
    }
  }

  /** A list that lacks a key of the longer one has room for it. */
  lemma RoomWhenShorter(p: Policy, t: Table, all: Table, key: Key)
    requires Valid(p, t) && Valid(p, all) && p.maxKeys >= 1 && t.order <= all.order && key in all.buckets && key !in t.buckets
    ensures Trimmed(p, t) == t
  {
    assert key in all.order && key !in t.order;
    assert |t.order| < |all.order|;
  }

  lemma TouchedOther(p: Policy, t: Table, key: Key, now: real, k: Key)
    requires Sensible(p) && k != key
    ensures var u := Touched(p, t, key, now);
            && (k in u.buckets <==> k in (if key in t.buckets then t else Trimmed(p, t)).buckets)
            && (k in u.buckets ==> k in t.buckets && u.buckets[k] == t.buckets[k])
  {
  }

  lemma TouchedBuckets(p: Policy, t: Table, all: Table, key: Key, now: real, k: Key)
    requires Sensible(p) && Valid(p, t) && Valid(p, all) && FrontOf(p, t, all, now) && k != key
    ensures var u, every := Touched(p, t, key, now), Touched(p, all, key, now);
            && (k in u.buckets ==> k in every.buckets && u.buckets[k] == every.buckets[k])
            && (k in every.buckets && k !in u.buckets ==> Refilled(p, every.buckets[k], now))
  {
    hide Refilled, Touched, Trimmed;
    TouchedOther(p, t, key, now, k);
    TouchedOther(p, all, key, now, k);
    TrimmedIsValid(p, t);
    TrimmedIsValid(p, all);
    if key !in t.buckets && k in t.buckets {
      SameRoom(p, t, all, key, k);
    }
  }

  /** What makes room in the shorter list makes the same room in the longer one. */
  lemma SameRoom(p: Policy, t: Table, all: Table, key: Key, k: Key)
    requires Sensible(p) && Valid(p, t) && Valid(p, all) && t.order <= all.order && key !in t.buckets && k in t.buckets
    requires forall x :: x in t.buckets ==> x in all.buckets
    ensures k in (if key in all.buckets then all else Trimmed(p, all)).buckets <==> k in Trimmed(p, t).buckets
  {
    hide NoDuplicates;
    if key in all.buckets {
      RoomWhenShorter(p, t, all, key);
    } else if |t.order| < p.maxKeys {
      assert k in t.order;
      if |all.order| == p.maxKeys {
        assert t.order <= all.order[..p.maxKeys - 1];
        assert k in all.order[..p.maxKeys - 1];
      }
    } else {
      assert t.order == all.order;
    }
  }

  lemma FoundAlike(p: Policy, t: Table, all: Table, key: Key, now: real)
    requires Sensible(p) && FrontOf(p, t, all, now)
    ensures Take(p, Touched(p, t, key, now).buckets[key], now) == Take(p, Touched(p, all, key, now).buckets[key], now)
  {
    hide Take, Refilled, Trimmed;
    if key in all.buckets && key !in t.buckets {
      NewBucketIsIdeal(p, Some(all.buckets[key]), now);
    }
  }

  /** A request gets the same answer from both tables, and leaves one the front of the other. */
  lemma ServedIsFront(p: Policy, t: Table, all: Table, key: Key, now: real)
    requires Sensible(p) && Valid(p, t) && Valid(p, all) && FrontOf(p, t, all, now)
    ensures FrontOf(p, Serve(p, t, key, now).0, Serve(p, all, key, now).0, now)
    ensures Serve(p, t, key, now).1 == Serve(p, all, key, now).1 && Serve(p, t, key, now).2 == Serve(p, all, key, now).2
  {
    hide Take, Touched, Refilled;
    FoundAlike(p, t, all, key, now);
    TouchedOrder(p, t, all, key, now);
    var u, every := Serve(p, t, key, now).0, Serve(p, all, key, now).0;
    forall k | k in u.buckets || k in every.buckets
      ensures k in u.buckets ==> k in every.buckets && u.buckets[k] == every.buckets[k]
      ensures k !in u.buckets ==> Refilled(p, every.buckets[k], now)
    {
      if k != key {
        TouchedBuckets(p, t, all, key, now, k);
      }
    }
  }

  lemma EmptyIsFront(p: Policy, now: real)
    ensures FrontOf(p, EMPTY, EMPTY, now)
  {
  }

  /** With one key, or buckets that refill in time, every request of every run gets the answer it
      would get without collection. */
  lemma {:induction false} CollectionIsSilent(p: Policy, trace: seq<Event>)
    requires Sensible(p) && Monotone(trace) && trace != [] && (p.maxKeys == 1 || RefillsInTime(p))
    ensures FrontOf(p, After(Collecting, p, trace), After(Keeping, p, trace), Last(trace).at)
    ensures Answer(Collecting, p, trace) == Answer(Keeping, p, trace)
    decreases |trace|
  {
    hide FrontOf, Serve, Collected, Monotone, RefillsInTime;
    var front, e := Front(trace), Last(trace);
    FrontIsMonotone(trace);
    RunKeepsTheTable(Collecting, p, trace);
    RunKeepsTheTable(Keeping, p, trace);
    CollectionCuts(p, front, e.at);
    if front == [] {
      EmptyIsFront(p, e.at);
      CollectedIsFront(p, EMPTY, EMPTY, e.at, e.at);
    } else {
      CollectionIsSilent(p, front);
      CollectedIsFront(p, After(Collecting, p, front), After(Keeping, p, front), Last(front).at, e.at);
    }
    ServedIsFront(p, Before(Collecting, p, trace), Before(Keeping, p, trace), e.key, e.at);
  }

  /** No run over these keys tells a limiter that collects from one that does not. */
  ghost predicate Unnoticed(p: Policy, keys: set<Key>)
    requires Sensible(p)
  {
    forall trace :: Monotone(trace) && trace != [] && Keys(trace) <= keys ==>
      Answer(Collecting, p, trace) == Answer(Keeping, p, trace)
  }

  lemma WhenUnnoticed(p: Policy, keys: set<Key>)
    requires Sensible(p) && (p.maxKeys == 1 || RefillsInTime(p) || |keys| <= p.maxKeys)
    ensures Unnoticed(p, keys)
  {
    hide Answer, RefillsInTime, Keys;
    forall trace | Monotone(trace) && trace != [] && Keys(trace) <= keys
      ensures Answer(Collecting, p, trace) == Answer(Keeping, p, trace)
    {
      if p.maxKeys == 1 || RefillsInTime(p) {
        CollectionIsSilent(p, trace);
      } else {
        KeysGrow(trace);
        SubsetIsSmaller(Keys(Front(trace)), keys);
        forall m: Mode
          ensures !Lost(m, p, Front(trace), Last(trace).key)
        {
          RoomForAll(m, p, Front(trace), Last(trace).key);
        }
        CollectionIsUnobservable(p, trace);
      }
    }
  }
}
