/** The token buckets of internal/ratelimit/ratelimit.go, with exact times and tokens: a bounded
    table of buckets, their order of use, eviction and collection. */
module RateLimit {
  import opened Prelude

  type Key = string

  const GC_INTERVAL: real := 300.0
  const BUCKET_TTL: real := 900.0
  const DEFAULT_MAX_KEYS: nat := 10000

  datatype Policy = Policy(rate: real, burst: real, maxKeys: nat)

  predicate Sensible(p: Policy) { p.rate > 0.0 && p.burst >= 1.0 && p.maxKeys >= 1 }

  datatype Bucket = Bucket(tokens: real, last: real)

  function Least(a: real, b: real): real { if a < b then a else b }

  /** The tokens that come in over a while. */
  function Earned(p: Policy, elapsed: real): real { elapsed * p.rate }

  /** What a bucket has when it is looked at. */
  function Refill(p: Policy, b: Bucket, now: real): Bucket {
    if now > b.last then Bucket(Least(p.burst, b.tokens + Earned(p, now - b.last)), now) else b
  }

  /** One request against a bucket: the bucket behind it, whether it is allowed, and how many seconds
      to wait when it is not. */
  function Take(p: Policy, b: Bucket, now: real): (r: (Bucket, bool, real))
    requires p.rate > 0.0
  {
    var f := Refill(p, b, now);
    if f.tokens >= 1.0 then (Bucket(f.tokens - 1.0, f.last), true, 0.0) else (f, false, (1.0 - f.tokens) / p.rate)
  }

  // ---- the table -----------------------------------------------------------------------------------------------

  /** The buckets, their keys from most to least recently used, and when they were last collected. */
  datatype Table = Table(buckets: map<Key, Bucket>, order: seq<Key>, lastGC: Option<real>)

  predicate NoDuplicates(ks: seq<Key>) { forall i, j :: 0 <= i < j < |ks| ==> ks[i] != ks[j] }

  /** The map and the list hold the same keys, each once, and no more than fit. */
  ghost predicate Valid(p: Policy, t: Table) {
    && NoDuplicates(t.order) && |t.order| <= p.maxKeys
    && (forall k :: k in t.order <==> k in t.buckets)
  }

  function Without(ks: seq<Key>, k: Key): seq<Key> {
    if ks == [] then [] else (if ks[0] == k then [] else [ks[0]]) + Without(ks[1..], k)
  }

  function Filter(ks: seq<Key>, keep: set<Key>): seq<Key> {
    if ks == [] then [] else (if ks[0] in keep then [ks[0]] else []) + Filter(ks[1..], keep)
  }

  function Restrict(m: map<Key, Bucket>, keep: set<Key>): map<Key, Bucket> { map k | k in m && k in keep :: m[k] }

  /** A bucket that has refilled and been idle. */
  predicate Idle(p: Policy, b: Bucket, now: real) {
    Least(p.burst, b.tokens + Earned(p, now - b.last)) >= p.burst && now - b.last > BUCKET_TTL
  }

  predicate Due(t: Table, now: real) { t.lastGC.None? || now - t.lastGC.value >= GC_INTERVAL }

  function Busy(p: Policy, t: Table, now: real): set<Key> { set k | k in t.buckets && !Idle(p, t.buckets[k], now) }

  function Collected(p: Policy, t: Table, now: real): Table {
    if !Due(t, now) then t
    else Table(Restrict(t.buckets, Busy(p, t, now)), Filter(t.order, Busy(p, t, now)), Some(now))
  }

  /** Room for one more key: the least recently used ones go. */
  function Trimmed(p: Policy, t: Table): Table
    requires p.maxKeys >= 1
  {
    if |t.order| < p.maxKeys then t
    else
      var kept := t.order[..p.maxKeys - 1];
      Table(Restrict(t.buckets, set k | k in kept), kept, t.lastGC)
  }

  function Touched(p: Policy, t: Table, key: Key, now: real): (u: Table)
    requires p.maxKeys >= 1
    ensures key in u.buckets
  {
    if key in t.buckets then t.(order := [key] + Without(t.order, key))
    else
      var room := Trimmed(p, t);
      Table(room.buckets[key := Bucket(p.burst, now)], [key] + room.order, room.lastGC)
  }

  /** A request against the table as collection left it. */
  function Serve(p: Policy, t: Table, key: Key, now: real): (Table, bool, real)
    requires Sensible(p)
  {
    var u := Touched(p, t, key, now);
    var (b, ok, wait) := Take(p, u.buckets[key], now);
    (u.(buckets := u.buckets[key := b]), ok, wait)
  }

  function Allow(p: Policy, t: Table, key: Key, now: real): (Table, bool, real)
    requires Sensible(p)
  {
    Serve(p, Collected(p, t, now), key, now)
  }

  // ---- lists of keys -------------------------------------------------------------------------------------------

  lemma {:induction false} WithoutKeys(ks: seq<Key>, k: Key)
    ensures forall x :: x in Without(ks, k) <==> x in ks && x != k
    ensures NoDuplicates(ks) ==> NoDuplicates(Without(ks, k))
    ensures |Without(ks, k)| <= |ks| && (k in ks ==> |Without(ks, k)| < |ks|) && (k !in ks ==> Without(ks, k) == ks)
  {
    if ks != [] {
      WithoutKeys(ks[1..], k);
      var rest := Without(ks[1..], k);
      assert [ks[0]] + ks[1..] == ks && ks[0] in ks;
      if NoDuplicates(ks) {
        assert forall j :: 0 < j < |ks| ==> ks[j] != ks[0];
        assert ks[0] !in ks[1..] && ks[0] !in rest;
      }
    }
  }

  lemma {:induction false} FilterKeys(ks: seq<Key>, keep: set<Key>)
    ensures forall x :: x in Filter(ks, keep) <==> x in ks && x in keep
    ensures NoDuplicates(ks) ==> NoDuplicates(Filter(ks, keep))
    ensures |Filter(ks, keep)| <= |ks|
  {
    if ks != [] {
      FilterKeys(ks[1..], keep);
      var rest := Filter(ks[1..], keep);
      assert [ks[0]] + ks[1..] == ks;
      if NoDuplicates(ks) {
        assert forall j :: 0 < j < |ks| ==> ks[j] != ks[0];
        assert ks[0] !in ks[1..] && ks[0] !in rest;
      }
    }
  }

  /** Taking the last key away is cutting the list. */
  lemma {:induction false} WithoutLast(ks: seq<Key>)
    requires ks != [] && NoDuplicates(ks)
    ensures Without(ks, ks[|ks| - 1]) == ks[..|ks| - 1]
  {
    if |ks| > 1 {
      WithoutLast(ks[1..]);
      assert ks[0] != ks[|ks| - 1];
      assert ks[..|ks| - 1] == [ks[0]] + ks[1..][..|ks| - 2];
    } else {
      assert ks[1..] == [];
    }
  }

  lemma {:induction false} WithoutIsFilter(ks: seq<Key>, keep: set<Key>, k: Key)
    ensures Without(Filter(ks, keep), k) == Filter(ks, keep - {k})
  {
    if ks != [] {
      var rest := Filter(ks[1..], keep);
      WithoutIsFilter(ks[1..], keep, k);
      if ks[0] in keep {
        assert Filter(ks, keep) == [ks[0]] + rest && ([ks[0]] + rest)[1..] == rest;
      } else {
        assert Filter(ks, keep) == rest;
      }
    }
  }

  lemma {:induction false} SizeOfKeys(ks: seq<Key>, m: map<Key, Bucket>)
    requires NoDuplicates(ks) && forall k :: k in ks <==> k in m
    ensures |m| == |ks|
  {
    if ks == [] {
      assert m.Keys == {};
    } else {
      var rest := m - {ks[0]};
      assert ks[0] in ks;
      forall k
        ensures k in ks[1..] <==> k in rest
      {
        if k in ks[1..] {
          var i :| 0 <= i < |ks[1..]| && ks[1..][i] == k;
          assert ks[0] != ks[i + 1];
        }
      }
      SizeOfKeys(ks[1..], rest);
      assert m.Keys == rest.Keys + {ks[0]};
    }
  }

  // ---- what every request keeps ---------------------------------------------------------------------------------

  lemma CollectedIsValid(p: Policy, t: Table, now: real)
    requires Valid(p, t)
    ensures Valid(p, Collected(p, t, now))
  {
    hide Idle;
    if Due(t, now) {
      FilterKeys(t.order, Busy(p, t, now));
    }
  }

  lemma TrimmedIsValid(p: Policy, t: Table)
    requires Valid(p, t) && p.maxKeys >= 1
    ensures Valid(p, Trimmed(p, t)) && |Trimmed(p, t).order| < p.maxKeys
    ensures forall k :: k in Trimmed(p, t).buckets ==> k in t.buckets && Trimmed(p, t).buckets[k] == t.buckets[k]
  {
  }

  lemma TouchedIsValid(p: Policy, t: Table, key: Key, now: real)
    requires Valid(p, t) && p.maxKeys >= 1
    ensures Valid(p, Touched(p, t, key, now)) && Touched(p, t, key, now).order[0] == key
  {
    hide Trimmed;
    if key in t.buckets {
      WithoutKeys(t.order, key);
    } else {
      TrimmedIsValid(p, t);
    }
  }

  /** The map and the list always hold the same keys, never more than fit, and the key just used is
      in front. */
  lemma AllowKeepsTheTable(p: Policy, t: Table, key: Key, now: real)
    requires Sensible(p) && Valid(p, t)
    ensures Valid(p, Allow(p, t, key, now).0) && Allow(p, t, key, now).0.order[0] == key
    ensures Valid(p, Serve(p, t, key, now).0)
  {
    hide Collected, Touched, Take;
    CollectedIsValid(p, t, now);
    TouchedIsValid(p, Collected(p, t, now), key, now);
    TouchedIsValid(p, t, key, now);
  }

  // ---- the limiter -------------------------------------------------------------------------------------------------

  class Limiter {
    var buckets: map<Key, Bucket>
    var order: seq<Key>
    var lastGC: Option<real>
    const policy: Policy
    const enabled: bool

    ghost function State(): Table
      reads this
    {
      Table(buckets, order, lastGC)
    }

    ghost predicate Ready()
      reads this
    {
      enabled ==> Sensible(policy) && Valid(policy, State())
    }

    /** New: no rate or no burst means no limit. */
    constructor (perHour: real, burst: int)
      ensures Ready() && State() == Table(map[], [], None)
      ensures enabled <==> perHour > 0.0 && burst > 0
      ensures enabled ==> policy == Policy(perHour / 3600.0, burst as real, 10_000)
    {
      enabled := perHour > 0.0 && burst > 0;
      policy := Policy(perHour / 3600.0, burst as real, DEFAULT_MAX_KEYS);
      buckets, order, lastGC := map[], [], None;
      new;
      if enabled {
        RateIsPositive(perHour);
      }
    }

    /** Allow. */
    method Request(key: Key, now: real) returns (ok: bool, wait: real)
      requires Ready()
      modifies this
      ensures Ready()
      ensures !enabled ==> ok && wait == 0.0 && State() == old(State())
      ensures enabled ==> (State(), ok, wait) == Allow(policy, old(State()), key, now)
    {
      hide Take, Touched, Collected, Least, Earned;
      if !enabled {
        return true, 0.0;
      }
      AllowKeepsTheTable(policy, State(), key, now);
      CollectedIsValid(policy, State(), now);
      TouchedIsValid(policy, Collected(policy, State(), now), key, now);
      Collect(now);
      Touch(key, now);
      var b := buckets[key];
      ghost var found := b;
      var elapsed := now - b.last;
      if elapsed > 0.0 {
        b := Bucket(Least(policy.burst, b.tokens + Earned(policy, elapsed)), now);
      }
      if b.tokens >= 1.0 {
        b := b.(tokens := b.tokens - 1.0);
        ok, wait := true, 0.0;
      } else {
        ok, wait := false, (1.0 - b.tokens) / policy.rate;
      }
      assert (b, ok, wait) == Take(policy, found, now) by { TakeSteps(policy, found, now); }
      buckets := buckets[key := b];
    }

    /** bucketLocked. */
    method Touch(key: Key, now: real)
      requires enabled && Sensible(policy) && Valid(policy, State())
      modifies this`buckets, this`order
      ensures State() == Touched(policy, old(State()), key, now)
    {
      hide Trimmed, Restrict, Without, NoDuplicates;
      if key in buckets {
        order := [key] + Without(order, key);
        return;
      }
      ghost var t := State();
      SizeOfKeys(order, buckets);
      while |buckets| >= policy.maxKeys
        invariant Valid(policy, State()) && |buckets| == |order|
        invariant Trimmed(policy, State()) == Trimmed(policy, t) && key !in buckets && lastGC == t.lastGC
        decreases |order|
      {
        TrimOne(policy, State());
        Remove(order[|order| - 1]);
        SizeOfKeys(order, buckets);
      }
      NothingToTrim(policy, State());
      buckets := buckets[key := Bucket(policy.burst, now)];
      order := [key] + order;
    }

    /** removeLocked. */
    method Remove(key: Key)
      modifies this`buckets, this`order
      ensures buckets == old(buckets) - {key} && order == Without(old(order), key)
    {
      buckets := buckets - {key};
      order := Without(order, key);
    }

    /** gcLocked: the buckets are visited in any order. */
    method Collect(now: real)
      requires enabled && Sensible(policy) && Valid(policy, State())
      modifies this
      ensures State() == Collected(policy, old(State()), now)
    {
      hide Idle, Least, Restrict, Filter, Without;
      if lastGC.Some? && now - lastGC.value < GC_INTERVAL {
        return;
      }
      ghost var t, keep := State(), buckets.Keys;
      lastGC := Some(now);
      var todo := buckets.Keys;
      KeepAll(t);
      while todo != {}
        invariant todo <= keep <= t.buckets.Keys && lastGC == Some(now)
        invariant buckets == Restrict(t.buckets, keep) && order == Filter(t.order, keep)
        invariant forall k :: k in t.buckets && k !in todo ==> (k in keep <==> !Idle(policy, t.buckets[k], now))
        decreases |todo|
      {
        var k :| k in todo;
        RestrictKeeps(t.buckets, keep, k);
        todo := todo - {k};
        if Idle(policy, buckets[k], now) {
          WithoutIsFilter(t.order, keep, k);
          Remove(k);
          keep := keep - {k};
        }
      }
      assert keep == Busy(policy, t, now);
    }
  }

  lemma RestrictKeeps(m: map<Key, Bucket>, keep: set<Key>, k: Key)
    requires k in keep && keep <= m.Keys
    ensures k in Restrict(m, keep) && Restrict(m, keep)[k] == m[k]
    ensures Restrict(m, keep) - {k} == Restrict(m, keep - {k})
  {
  }

  lemma NothingToTrim(p: Policy, t: Table)
    requires |t.order| < p.maxKeys
    ensures Trimmed(p, t) == t
  {
  }

  lemma RateIsPositive(perHour: real)
    requires perHour > 0.0
    ensures perHour / 3600.0 > 0.0
  {
  }

  lemma TakeSteps(p: Policy, b: Bucket, now: real)
    requires p.rate > 0.0
    ensures var f := Refill(p, b, now);
            Take(p, b, now) == if f.tokens >= 1.0 then (Bucket(f.tokens - 1.0, f.last), true, 0.0)
                               else (f, false, (1.0 - f.tokens) / p.rate)
  {
  }

  lemma TrimOne(p: Policy, t: Table)
    requires Valid(p, t) && p.maxKeys >= 1 && |t.order| >= p.maxKeys
    ensures var k := t.order[|t.order| - 1];
            var u := Table(t.buckets - {k}, Without(t.order, k), t.lastGC);
            Valid(p, u) && |u.order| < |t.order| && Trimmed(p, u) == Trimmed(p, t)
  {
    var k := t.order[|t.order| - 1];
    WithoutLast(t.order);
    WithoutKeys(t.order, k);
    var u := Table(t.buckets - {k}, Without(t.order, k), t.lastGC);
    var kept := t.order[..p.maxKeys - 1];
    assert kept == u.order;
    assert u.buckets == Restrict(t.buckets, set x | x in kept);
    assert Trimmed(p, u) == u;
  }

  lemma {:induction false} FilterAll(ks: seq<Key>, keep: set<Key>)
    requires forall k :: k in ks ==> k in keep
    ensures Filter(ks, keep) == ks
  {
    if ks != [] {
      FilterAll(ks[1..], keep);
      assert ks[0] in ks;
    }
  }

  lemma KeepAll(t: Table)
    requires forall k :: k in t.order <==> k in t.buckets
    ensures Restrict(t.buckets, t.buckets.Keys) == t.buckets && Filter(t.order, t.buckets.Keys) == t.order
  {
    FilterAll(t.order, t.buckets.Keys);
  }
}
