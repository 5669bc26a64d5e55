/** Whole runs of the limiter: the answers are those of one bucket that is never collected, until a
    key is forgotten for want of room. */
module RateLimitRuns {
  import opened Prelude
  import opened RateLimit

  datatype Event = Event(key: Key, at: real)

  ghost predicate Monotone(trace: seq<Event>) { forall i, j :: 0 <= i < j < |trace| ==> trace[i].at <= trace[j].at }

  const EMPTY := Table(map[], [], None)

  function Front(trace: seq<Event>): seq<Event>
    requires trace != []
  {
    trace[..|trace| - 1]
  }

  function Last(trace: seq<Event>): Event
    requires trace != []
  {
    trace[|trace| - 1]
  }

  /** The limiter as it is, and one that never collects. */
  datatype Mode = Collecting | Keeping

  function Swept(m: Mode, p: Policy, t: Table, now: real): Table { if m.Collecting? then Collected(p, t, now) else t }

  /** The table behind a run of requests, and the answer to the last of them. A collecting run is one
      of Allow after another. */
  function After(m: Mode, p: Policy, trace: seq<Event>): Table
    requires Sensible(p)
    decreases |trace|, 1
  {
    if trace == [] then EMPTY else Serve(p, Before(m, p, trace), Last(trace).key, Last(trace).at).0
  }

  /** The table the last request meets. */
  function Before(m: Mode, p: Policy, trace: seq<Event>): Table
    requires Sensible(p) && trace != []
    decreases |trace|, 0
  {
    Swept(m, p, After(m, p, Front(trace)), Last(trace).at)
  }

  function Answer(m: Mode, p: Policy, trace: seq<Event>): (bool, real)
    requires Sensible(p) && trace != []
  {
    var (_, ok, wait) := Serve(p, Before(m, p, trace), Last(trace).key, Last(trace).at);
    (ok, wait)
  }

  // ---- the simple form: one bucket a key, kept for ever -----------------------------------------------------------

  function OrFull(p: Policy, b: Option<Bucket>, now: real): Bucket {
    if b.Some? then b.value else Bucket(p.burst, now)
  }

  function Ideal(p: Policy, trace: seq<Event>, key: Key): Option<Bucket>
    requires Sensible(p)
    decreases |trace|
  {
    if trace == [] then None
    else if Last(trace).key != key then Ideal(p, Front(trace), key)
    else Some(Take(p, OrFull(p, Ideal(p, Front(trace), key), Last(trace).at), Last(trace).at).0)
  }

  function IdealAnswer(p: Policy, trace: seq<Event>): (bool, real)
    requires Sensible(p) && trace != []
  {
    var (_, ok, wait) := Take(p, OrFull(p, Ideal(p, Front(trace), Last(trace).key), Last(trace).at), Last(trace).at);
    (ok, wait)
  }

  /** The key was pushed out by others at some point of the run. */
  ghost predicate Lost(m: Mode, p: Policy, trace: seq<Event>, key: Key)
    requires Sensible(p)
    decreases |trace|
  {
    trace != []
    && (Lost(m, p, Front(trace), key) || (key in Before(m, p, trace).buckets && key !in After(m, p, trace).buckets))
  }

  // ---- agreement ----------------------------------------------------------------------------------------------------

  predicate Refilled(p: Policy, b: Bucket, now: real) {
    now > b.last && Least(p.burst, b.tokens + Earned(p, now - b.last)) >= p.burst
  }

  /** The table has the ideal bucket, or it has none and the ideal bucket is as good as new. */
  ghost predicate Agrees(p: Policy, t: Table, ideal: Option<Bucket>, key: Key, now: real) {
    if key in t.buckets then ideal == Some(t.buckets[key]) else ideal.None? || Refilled(p, ideal.value, now)
  }

  lemma EarnedGrows(p: Policy, a: real, b: real)
    requires Sensible(p)
    ensures a <= b ==> Earned(p, a) <= Earned(p, b)
    ensures Earned(p, a) + Earned(p, b) == Earned(p, a + b)
    ensures Earned(p, 0.0) == 0.0
  {
    Distributes(a, b, p.rate);
    if a <= b {
      Monotonic(a, b, p.rate);
    }
  }

  lemma Distributes(a: real, b: real, r: real)
    ensures a * r + b * r == (a + b) * r
  {
  }

  lemma Monotonic(a: real, b: real, r: real)
    requires a <= b && r > 0.0
    ensures a * r <= b * r
  {
    Distributes(a, b - a, r);
  }

  lemma StaysRefilled(p: Policy, b: Bucket, now: real, later: real)
    requires Sensible(p) && Refilled(p, b, now) && now <= later
    ensures Refilled(p, b, later)
  {
    hide Earned;
    EarnedGrows(p, now - b.last, later - b.last);
  }

  /** Collection only forgets buckets that are as good as new. */
  lemma CollectionAgrees(m: Mode, p: Policy, t: Table, ideal: Option<Bucket>, key: Key, before: real, now: real)
    requires Sensible(p) && Agrees(p, t, ideal, key, before) && before <= now
    ensures Agrees(p, Swept(m, p, t, now), ideal, key, now)
  {
    hide Earned, Least;
    if key !in t.buckets && ideal.Some? {
      StaysRefilled(p, ideal.value, before, now);
    }
  }

  lemma NewBucketIsIdeal(p: Policy, ideal: Option<Bucket>, now: real)
    requires Sensible(p) && (ideal.Some? ==> Refilled(p, ideal.value, now))
    ensures Take(p, Bucket(p.burst, now), now) == Take(p, OrFull(p, ideal, now), now)
  {
    hide Earned;
    if ideal.Some? {
      assert Refill(p, ideal.value, now) == Bucket(p.burst, now);
    }
  }

  /** One request keeps the agreement for every key it does not push out, and gives the ideal answer. */
  lemma RequestAgrees(p: Policy, t: Table, ideal: Option<Bucket>, key: Key, e: Event)
    requires Sensible(p) && Valid(p, t) && Agrees(p, t, ideal, key, e.at)
    ensures e.key == key ==> var (_, ok, wait) := Serve(p, t, e.key, e.at);
                             (ok, wait) == (Take(p, OrFull(p, ideal, e.at), e.at).1, Take(p, OrFull(p, ideal, e.at), e.at).2)
    ensures var u := Serve(p, t, e.key, e.at).0;
            var next := if e.key == key then Some(Take(p, OrFull(p, ideal, e.at), e.at).0) else ideal;
            (key in t.buckets && key !in u.buckets) || Agrees(p, u, next, key, e.at)
  {
    hide Take, Refilled;
    TrimmedIsValid(p, t);
    if e.key == key && key !in t.buckets {
      NewBucketIsIdeal(p, ideal, e.at);
    }
  }

  lemma FrontIsMonotone(trace: seq<Event>)
    requires trace != [] && Monotone(trace)
    ensures Monotone(Front(trace)) && (|trace| > 1 ==> Last(Front(trace)).at <= Last(trace).at)
  {
  }

  lemma {:induction false} RunKeepsTheTable(m: Mode, p: Policy, trace: seq<Event>)
    requires Sensible(p)
    ensures Valid(p, After(m, p, trace)) && (trace != [] ==> Valid(p, Before(m, p, trace)))
    decreases |trace|
  {
    hide Serve, Collected;
    if trace != [] {
      RunKeepsTheTable(m, p, Front(trace));
      CollectedIsValid(p, After(m, p, Front(trace)), Last(trace).at);
      AllowKeepsTheTable(p, Before(m, p, trace), Last(trace).key, Last(trace).at);
    }
  }

  lemma {:induction false} RunAgrees(m: Mode, p: Policy, trace: seq<Event>, key: Key)
    requires Sensible(p) && Monotone(trace) && trace != [] && !Lost(m, p, trace, key)
    ensures Agrees(p, After(m, p, trace), Ideal(p, trace, key), key, Last(trace).at)
    decreases |trace|
  {
    hide Serve, Agrees, Take, Swept;
    BeforeAgrees(m, p, trace, key);
    RunKeepsTheTable(m, p, trace);
    RequestAgrees(p, Before(m, p, trace), Ideal(p, Front(trace), key), key, Last(trace));
  }

  lemma BeforeAgrees(m: Mode, p: Policy, trace: seq<Event>, key: Key)
    requires Sensible(p) && Monotone(trace) && trace != [] && !Lost(m, p, Front(trace), key)
    ensures Agrees(p, Before(m, p, trace), Ideal(p, Front(trace), key), key, Last(trace).at)
    decreases |trace|, 0
  {
    hide Serve, Agrees, Take, Swept;
    var front, e := Front(trace), Last(trace);
    FrontIsMonotone(trace);
    if front == [] {
      NothingYet(p, key, e.at);
      CollectionAgrees(m, p, EMPTY, None, key, e.at, e.at);
    } else {
      RunAgrees(m, p, front, key);
      CollectionAgrees(m, p, After(m, p, front), Ideal(p, front, key), key, Last(front).at, e.at);
    }
  }

  lemma NothingYet(p: Policy, key: Key, now: real)
    ensures Agrees(p, EMPTY, None, key, now)
  {
  }

  /** Until a key is pushed out, every answer it gets is the answer of its own bucket kept for ever:
      neither collection nor the other keys can be noticed. */
  lemma AnswersAreIdeal(m: Mode, p: Policy, trace: seq<Event>)
    requires Sensible(p) && Monotone(trace) && trace != [] && !Lost(m, p, Front(trace), Last(trace).key)
    ensures Answer(m, p, trace) == IdealAnswer(p, trace)
  {
    hide Serve, Agrees, Take, Swept;
    BeforeAgrees(m, p, trace, Last(trace).key);
    RunKeepsTheTable(m, p, trace);
    RequestAgrees(p, Before(m, p, trace), Ideal(p, Front(trace), Last(trace).key), Last(trace).key, Last(trace));
  }

  /** Collection cannot be noticed: as long as a key is pushed out neither with it nor without it, the
      answers are the same. */
  lemma CollectionIsUnobservable(p: Policy, trace: seq<Event>)
    requires Sensible(p) && Monotone(trace) && trace != []
    requires forall m :: !Lost(m, p, Front(trace), Last(trace).key)
    ensures Answer(Collecting, p, trace) == Answer(Keeping, p, trace)
  {
    AnswersAreIdeal(Collecting, p, trace);
    AnswersAreIdeal(Keeping, p, trace);
  }

  function Keys(trace: seq<Event>): set<Key> { set i | 0 <= i < |trace| :: trace[i].key }

  /** Nothing is pushed out of a table that has room for every key of the run. */
  lemma {:induction false} RoomForAll(m: Mode, p: Policy, trace: seq<Event>, key: Key)
    requires Sensible(p) && |Keys(trace)| <= p.maxKeys
    ensures !Lost(m, p, trace, key) && After(m, p, trace).buckets.Keys <= Keys(trace)
    decreases |trace|
  {
    hide Serve, Swept;
    if trace != [] {
      var front, e := Front(trace), Last(trace);
      KeysGrow(trace);
      SubsetIsSmaller(Keys(front), Keys(trace));
      RoomForAll(m, p, front, key);
      RunKeepsTheTable(m, p, trace);
      SweptKeys(m, p, After(m, p, front), e.at);
      var t := Before(m, p, trace);
      assert t.buckets.Keys <= Keys(front);
      if e.key !in t.buckets {
        SizeOfKeys(t.order, t.buckets);
        assert t.buckets.Keys + {e.key} <= Keys(trace);
        SubsetIsSmaller(t.buckets.Keys + {e.key}, Keys(trace));
      }
      ServedKeys(p, t, e.key, e.at);
    }
  }

  lemma KeysGrow(trace: seq<Event>)
    requires trace != []
    ensures Keys(trace) == Keys(Front(trace)) + {Last(trace).key}
  {
    var front := Front(trace);
    forall k | k in Keys(trace)
      ensures k in Keys(front) + {Last(trace).key}
    {
      var i :| 0 <= i < |trace| && trace[i].key == k;
      assert i < |front| ==> front[i].key == k;
    }
    forall k | k in Keys(front)
      ensures k in Keys(trace)
    {
      var i :| 0 <= i < |front| && front[i].key == k;
      assert trace[i].key == k;
    }
  }

  lemma {:induction false} SubsetIsSmaller(a: set<Key>, b: set<Key>)
    requires a <= b
    ensures |a| <= |b|
  {
    if a != {} {
      var x :| x in a;
      SubsetIsSmaller(a - {x}, b - {x});
    }
  }

  lemma SweptKeys(m: Mode, p: Policy, t: Table, now: real)
    ensures Swept(m, p, t, now).buckets.Keys <= t.buckets.Keys
  {
    hide Idle;
  }

  lemma ServedKeys(p: Policy, t: Table, key: Key, now: real)
    requires Sensible(p) && (key in t.buckets || |t.order| < p.maxKeys)
    ensures Serve(p, t, key, now).0.buckets.Keys == t.buckets.Keys + {key}
  {
    hide Take;
  }

  // ---- how much is allowed ------------------------------------------------------------------------------------------

  /** The requests of a key that were allowed from the event with number `from` on. */
  function Granted(m: Mode, p: Policy, trace: seq<Event>, key: Key, from: nat): nat
    requires Sensible(p)
    decreases |trace|
  {
    if |trace| <= from || trace == [] then 0
    else Granted(m, p, Front(trace), key, from) + (if Last(trace).key == key && Answer(m, p, trace).0 then 1 else 0)
  }

  /** What a key could spend at once. */
  function Funds(p: Policy, b: Option<Bucket>, now: real): real { Refill(p, OrFull(p, b, now), now).tokens }

  predicate Solvent(p: Policy, b: Option<Bucket>, now: real) { b.Some? ==> 0.0 <= b.value.tokens <= p.burst && b.value.last <= now }

  lemma TakeSpends(p: Policy, b: Option<Bucket>, now: real)
    requires Sensible(p) && Solvent(p, b, now)
    ensures var (c, ok, _) := Take(p, OrFull(p, b, now), now);
            && Solvent(p, Some(c), now)
            && Funds(p, Some(c), now) + (if ok then 1.0 else 0.0) == Funds(p, b, now)
    ensures 0.0 <= Funds(p, b, now) <= p.burst
  {
    hide Earned;
    EarnedGrows(p, 0.0, now - OrFull(p, b, now).last);
  }

  lemma FundsGrow(p: Policy, b: Option<Bucket>, now: real, later: real)
    requires Sensible(p) && Solvent(p, b, now) && now <= later
    ensures Solvent(p, b, later) && Funds(p, b, later) <= Funds(p, b, now) + Earned(p, later - now)
  {
    hide Earned;
    EarnedGrows(p, 0.0, later - now);
    if b.Some? {
      EarnedGrows(p, now - b.value.last, later - now);
      assert now - b.value.last + (later - now) == later - b.value.last;
    }
  }

  lemma {:induction false} IdealIsSolvent(p: Policy, trace: seq<Event>, key: Key, now: real)
    requires Sensible(p) && Monotone(trace) && (trace != [] ==> Last(trace).at <= now)
    ensures Solvent(p, Ideal(p, trace, key), now)
    decreases |trace|
  {
    hide Take;
    if trace != [] {
      FrontIsMonotone(trace);
      IdealIsSolvent(p, Front(trace), key, Last(trace).at);
      TakeSpends(p, Ideal(p, Front(trace), key), Last(trace).at);
    }
  }

  /** In any window of a run, what a key was allowed and what it could still spend are at most a
      full bucket and what came in meanwhile. */
  lemma {:induction false} SpendingIsBounded(m: Mode, p: Policy, trace: seq<Event>, key: Key, from: nat)
    requires Sensible(p) && Monotone(trace) && from < |trace| && !Lost(m, p, trace, key)
    ensures Granted(m, p, trace, key, from) as real + Funds(p, Ideal(p, trace, key), Last(trace).at)
         <= p.burst + Earned(p, Last(trace).at - trace[from].at)
    decreases |trace|
  {
    hide Take, Earned, Refill, Answer, Serve, Solvent, Funds, Swept;
    var front, e := Front(trace), Last(trace);
    FrontIsMonotone(trace);
    IdealIsSolvent(p, front, key, e.at);
    TakeSpends(p, Ideal(p, front, key), e.at);
    if e.key == key {
      AnswersAreIdeal(m, p, trace);
    }
    if from == |front| {
      EarnedGrows(p, 0.0, 0.0);
    } else {
      SpendingIsBounded(m, p, front, key, from);
      IdealIsSolvent(p, front, key, Last(front).at);
      FundsGrow(p, Ideal(p, front, key), Last(front).at, e.at);
      EarnedGrows(p, Last(front).at - trace[from].at, e.at - Last(front).at);
      assert Last(front).at - trace[from].at + (e.at - Last(front).at) == e.at - trace[from].at;
    }
  }

  /** Until a key is pushed out, no window of a run allows it more than the burst and the rate over
      the length of the window. */
  lemma NeverMoreThanTheRate(m: Mode, p: Policy, trace: seq<Event>, key: Key, from: nat)
    requires Sensible(p) && Monotone(trace) && from < |trace| && !Lost(m, p, trace, key)
    ensures Granted(m, p, trace, key, from) as real <= p.burst + (Last(trace).at - trace[from].at) * p.rate
  {
    hide Granted, Funds, Ideal, Solvent, Earned, Take, Lost;
    SpendingIsBounded(m, p, trace, key, from);
    IdealIsSolvent(p, trace, key, Last(trace).at);
    TakeSpends(p, Ideal(p, trace, key), Last(trace).at);
    EarnedIs(p, Last(trace).at - trace[from].at);
  }

  /** Whoever waits as long as a refusal says, and asks nothing meanwhile, is allowed. */
  lemma WaitingIsEnough(m: Mode, p: Policy, trace: seq<Event>, others: seq<Event>, again: Event)
    requires Sensible(p) && trace != [] && Monotone(trace + others + [again])
    requires !Answer(m, p, trace).0 && again.key == Last(trace).key && again.at >= Last(trace).at + Answer(m, p, trace).1
    requires forall e :: e in others ==> e.key != again.key
    requires !Lost(m, p, trace + others, again.key)
    ensures Answer(m, p, trace + others + [again]).0
  {
    hide Answer, Take, Lost;
    var key, now, run := again.key, Last(trace).at, trace + others;
    FrontIsMonotone(run + [again]);
    assert Front(run + [again]) == run && Last(run + [again]) == again;
    AnswersAreIdeal(m, p, run + [again]);
    NotLostBefore(m, p, trace, others, key);
    assert trace == run[..|trace|];
    NotLostFront(m, p, trace, key);
    PrefixIsMonotone(run, |trace|);
    AnswersAreIdeal(m, p, trace);
    OthersDoNotMatter(p, trace, others, key);
    var b := OrFull(p, Ideal(p, Front(trace), key), now);
    FrontIsMonotone(trace);
    IdealIsSolvent(p, Front(trace), key, now);
    WaitRefills(p, b, now, again.at);
  }

  lemma PrefixIsMonotone(trace: seq<Event>, n: nat)
    requires Monotone(trace) && n <= |trace|
    ensures Monotone(trace[..n])
  {
  }

  lemma NotLostFront(m: Mode, p: Policy, trace: seq<Event>, key: Key)
    requires Sensible(p) && trace != [] && !Lost(m, p, trace, key)
    ensures !Lost(m, p, Front(trace), key)
  {
  }

  lemma {:induction false} NotLostBefore(m: Mode, p: Policy, trace: seq<Event>, others: seq<Event>, key: Key)
    requires Sensible(p) && !Lost(m, p, trace + others, key)
    ensures !Lost(m, p, trace, key)
    decreases |others|
  {
    if others == [] {
      assert trace + others == trace;
    } else {
      assert Front(trace + others) == trace + Front(others);
      NotLostFront(m, p, trace + others, key);
      NotLostBefore(m, p, trace, Front(others), key);
    }
  }

  lemma {:induction false} OthersDoNotMatter(p: Policy, trace: seq<Event>, others: seq<Event>, key: Key)
    requires Sensible(p) && forall e :: e in others ==> e.key != key
    ensures Ideal(p, trace + others, key) == Ideal(p, trace, key)
    decreases |others|
  {
    if others == [] {
      assert trace + others == trace;
    } else {
      assert Front(trace + others) == trace + Front(others) && Last(trace + others) == Last(others);
      assert Last(others) in others;
      OthersDoNotMatter(p, trace, Front(others), key);
    }
  }

  lemma WaitRefills(p: Policy, b: Bucket, now: real, later: real)
    requires Sensible(p) && b.last <= now && !Take(p, b, now).1 && later >= now + Take(p, b, now).2
    ensures Take(p, Take(p, b, now).0, later).1
  {
    hide Earned;
    var f := Refill(p, b, now);
    var missing := 1.0 - f.tokens;
    assert f.last == now;
    DividedBack(missing, p.rate);
    EarnedGrows(p, missing / p.rate, later - now);
    assert Earned(p, missing / p.rate) == missing by { EarnedIs(p, missing / p.rate); }
  }

  lemma EarnedIs(p: Policy, t: real)
    ensures Earned(p, t) == t * p.rate
  {
  }

  lemma DividedBack(x: real, r: real)
    requires r > 0.0 && x > 0.0
    ensures x / r * r == x && x / r > 0.0
  {
  }

  // ---- who is pushed out --------------------------------------------------------------------------------------------

  /** The number of a key's last request, zero when there was none. */
  function LastUse(trace: seq<Event>, key: Key): nat
    decreases |trace|
  {
    if trace == [] then 0 else if Last(trace).key == key then |trace| else LastUse(Front(trace), key)
  }

  ghost predicate ByRecency(trace: seq<Event>, ks: seq<Key>) {
    forall i, j :: 0 <= i < j < |ks| ==> LastUse(trace, ks[i]) > LastUse(trace, ks[j])
  }

  lemma {:induction false} LastUseIsPast(trace: seq<Event>, key: Key)
    ensures LastUse(trace, key) <= |trace|
    decreases |trace|
  {
    if trace != [] {
      LastUseIsPast(Front(trace), key);
    }
  }

  lemma {:induction false} FilterByRecency(trace: seq<Event>, ks: seq<Key>, keep: set<Key>)
    requires ByRecency(trace, ks)
    ensures ByRecency(trace, RateLimit.Filter(ks, keep))
    decreases |ks|
  {
    hide LastUse;
    if ks != [] {
      FilterByRecency(trace, ks[1..], keep);
      FilterKeys(ks[1..], keep);
      FirstIsLatest(trace, ks);
      if ks[0] in keep {
        FrontMost(trace, ks[0], RateLimit.Filter(ks[1..], keep));
      } else {
        assert RateLimit.Filter(ks, keep) == RateLimit.Filter(ks[1..], keep);
      }
    }
  }

  lemma FirstIsLatest(trace: seq<Event>, ks: seq<Key>)
    requires ByRecency(trace, ks) && ks != []
    ensures forall k :: k in ks[1..] ==> LastUse(trace, ks[0]) > LastUse(trace, k)
  {
    hide LastUse;
    forall k | k in ks[1..]
      ensures LastUse(trace, ks[0]) > LastUse(trace, k)
    {
      var j :| 0 <= j < |ks[1..]| && ks[1..][j] == k;
      assert ks[j + 1] == k;
    }
  }

  lemma FrontMost(trace: seq<Event>, k: Key, ks: seq<Key>)
    requires ByRecency(trace, ks) && forall x :: x in ks ==> LastUse(trace, k) > LastUse(trace, x)
    ensures ByRecency(trace, [k] + ks)
  {
    hide LastUse;
    var all := [k] + ks;
    forall i, j | 0 <= i < j < |all|
      ensures LastUse(trace, all[i]) > LastUse(trace, all[j])
    {
      assert all[j] == ks[j - 1] && ks[j - 1] in ks;
      if i > 0 {
        assert all[i] == ks[i - 1];
      }
    }
  }

  lemma {:induction false} WithoutByRecency(trace: seq<Event>, ks: seq<Key>, k: Key)
    requires ByRecency(trace, ks)
    ensures ByRecency(trace, Without(ks, k))
    decreases |ks|
  {
    hide LastUse;
    if ks != [] {
      WithoutByRecency(trace, ks[1..], k);
      WithoutKeys(ks[1..], k);
      FirstIsLatest(trace, ks);
      if ks[0] != k {
        FrontMost(trace, ks[0], Without(ks[1..], k));
      } else {
        assert Without(ks, k) == Without(ks[1..], k);
      }
    }
  }

  /** A request puts its key in front of the others, whose order stays. */
  lemma UsedNow(trace: seq<Event>, ks: seq<Key>)
    requires trace != [] && ByRecency(Front(trace), ks) && Last(trace).key !in ks
    ensures ByRecency(trace, [Last(trace).key] + ks)
  {
    var key := Last(trace).key;
    forall k | k in ks
      ensures LastUse(trace, k) == LastUse(Front(trace), k) < LastUse(trace, key)
    {
      LastUseIsPast(Front(trace), k);
    }
    assert ByRecency(trace, ks);
    FrontMost(trace, key, ks);
  }

  /** The list is always in the order of last use. */
  lemma {:induction false} ListIsByRecency(m: Mode, p: Policy, trace: seq<Event>)
    requires Sensible(p)
    ensures ByRecency(trace, After(m, p, trace).order)
    ensures trace != [] ==> ByRecency(Front(trace), Before(m, p, trace).order)
    decreases |trace|
  {
    hide ByRecency, Collected, Take;
    if trace == [] {
      NoOrder();
    } else {
      var front, e := Front(trace), Last(trace);
      ListIsByRecency(m, p, front);
      SweptByRecency(m, p, After(m, p, front), front, e.at);
      RunKeepsTheTable(m, p, trace);
      var t := Before(m, p, trace);
      ServedByRecency(p, t, trace);
    }
  }

  lemma NoOrder()
    ensures ByRecency([], EMPTY.order)
  {
  }

  lemma SweptByRecency(m: Mode, p: Policy, t: Table, trace: seq<Event>, now: real)
    requires ByRecency(trace, t.order)
    ensures ByRecency(trace, Swept(m, p, t, now).order)
  {
    hide ByRecency, Busy;
    FilterByRecency(trace, t.order, Busy(p, t, now));
  }

  lemma ServedByRecency(p: Policy, t: Table, trace: seq<Event>)
    requires Sensible(p) && trace != [] && Valid(p, t) && ByRecency(Front(trace), t.order)
    ensures ByRecency(trace, Serve(p, t, Last(trace).key, Last(trace).at).0.order)
  {
    hide Take, LastUse, Restrict;
    var key := Last(trace).key;
    if key in t.buckets {
      WithoutByRecency(Front(trace), t.order, key);
      WithoutKeys(t.order, key);
      UsedNow(trace, Without(t.order, key));
    } else {
      UsedNow(trace, Trimmed(p, t).order);
    }
  }

  /** Only the least recently used key is pushed out: every key that stays was used after it. */
  lemma TheLeastRecentlyUsedGoes(m: Mode, p: Policy, trace: seq<Event>, gone: Key, stays: Key)
    requires Sensible(p) && trace != []
    requires gone in Before(m, p, trace).buckets && gone !in After(m, p, trace).buckets
    requires stays in After(m, p, trace).buckets
    ensures LastUse(trace, stays) > LastUse(trace, gone)
  {
    hide Take, LastUse, Swept;
    var t, key := Before(m, p, trace), Last(trace).key;
    ListIsByRecency(m, p, trace);
    RunKeepsTheTable(m, p, trace);
    LastUseIsPast(Front(trace), gone);
    UseSoFar(trace, gone);
    UseSoFar(trace, stays);
    if stays != key {
      var i :| 0 <= i < |t.order| && t.order[i] == gone;
      var j :| 0 <= j < |t.order| && t.order[j] == stays;
      TrimmedKeeps(p, t, stays);
      TrimmedKeeps(p, t, gone);
      assert j < p.maxKeys - 1 by { PlaceIsUnique(t.order, j, p.maxKeys - 1); }
    }
  }

  lemma UseSoFar(trace: seq<Event>, key: Key)
    requires trace != []
    ensures LastUse(trace, key) == if Last(trace).key == key then |trace| else LastUse(Front(trace), key)
  {
  }

  lemma TrimmedKeeps(p: Policy, t: Table, k: Key)
    requires Valid(p, t) && p.maxKeys >= 1 && |t.order| >= p.maxKeys
    ensures k in Trimmed(p, t).buckets <==> k in t.order[..p.maxKeys - 1]
  {
  }

  lemma PlaceIsUnique(ks: seq<Key>, j: nat, n: nat)
    requires NoDuplicates(ks) && j < |ks| && n <= |ks| && ks[j] in ks[..n]
    ensures j < n
  {
    var i :| 0 <= i < n && ks[..n][i] == ks[j];
  }
}
