/** What the limiter grants: a key that has not been seen gets its whole burst at once and not one request
    more, and a refusal names exactly the time that has to pass. */
module RateLimitBurst {
  import opened Prelude
  import opened RateLimit
  import opened RateLimitRuns
  import opened RateLimitNoticed

  // ---- a key that has not been seen --------------------------------------------------------------------------------

  /** The table holds only keys that were used. */
  lemma {:induction false} TableHoldsUsed(m: Mode, p: Policy, trace: seq<Event>)
    requires Sensible(p)
    ensures After(m, p, trace).buckets.Keys <= Keys(trace)
    ensures trace != [] ==> Before(m, p, trace).buckets.Keys <= Keys(Front(trace))
    decreases |trace|
  {
    hide Serve, Swept;
    if trace != [] {
      TableHoldsUsed(m, p, Front(trace));
      SweptKeys(m, p, After(m, p, Front(trace)), Last(trace).at);
      ServedHolds(p, Before(m, p, trace), Last(trace).key, Last(trace).at);
      KeysGrow(trace);
    }
  }

  lemma ServedHolds(p: Policy, t: Table, key: Key, now: real)
    requires Sensible(p)
    ensures Serve(p, t, key, now).0.buckets.Keys <= t.buckets.Keys + {key} && key in Serve(p, t, key, now).0.buckets
  {
    hide Take;
  }

  lemma UnusedIsNoKey(trace: seq<Event>, key: Key)
    requires forall e :: e in trace ==> e.key != key
    ensures key !in Keys(trace)
  {
  }

  lemma {:induction false} UnusedIsNotLost(m: Mode, p: Policy, trace: seq<Event>, key: Key)
    requires Sensible(p) && forall e :: e in trace ==> e.key != key
    ensures !Lost(m, p, trace, key)
    decreases |trace|
  {
    if trace != [] {
      UnusedIsNotLost(m, p, Front(trace), key);
      TableHoldsUsed(m, p, trace);
      UnusedIsNoKey(Front(trace), key);
    }
  }

  lemma {:induction false} RepeatedIsNotLost(m: Mode, p: Policy, trace: seq<Event>, e: Event, n: nat)
    requires Sensible(p) && !Lost(m, p, trace, e.key)
    ensures !Lost(m, p, trace + Repeat(e, n), e.key)
    decreases n
  {
    hide Serve;
    if n == 0 {
      assert trace + Repeat(e, 0) == trace;
    } else {
      var all := trace + Repeat(e, n);
      assert Front(all) == trace + Repeat(e, n - 1) && Last(all) == e;
      RepeatedIsNotLost(m, p, trace, e, n - 1);
      ServedHolds(p, Before(m, p, all), e.key, e.at);
    }
  }

  /** What is left after n requests at once: the burst less n, and in the end less than one. */
  ghost predicate Left(p: Policy, n: nat, at: real, b: Bucket) {
    && b.last == at
    && (n as real <= p.burst ==> b.tokens == p.burst - n as real)
    && (n as real > p.burst ==> 0.0 <= b.tokens < 1.0)
  }

  lemma {:induction false} LeftAfter(p: Policy, trace: seq<Event>, e: Event, n: nat)
    requires Sensible(p) && n > 0 && forall x :: x in trace ==> x.key != e.key
    ensures var b := Ideal(p, trace + Repeat(e, n), e.key); b.Some? && Left(p, n, e.at, b.value)
    ensures var f := Finds(p, trace + Repeat(e, n - 1), e);
            f.tokens >= 1.0 <==> n as real <= p.burst
    decreases n
  {
    hide Take, Finds, Ideal;
    var before := trace + Repeat(e, n - 1);
    assert trace + Repeat(e, n) == before + [e];
    IdealAfter(p, before, e);
    if n == 1 {
      assert before == trace;
      FoundNew(p, trace, e);
    } else {
      LeftAfter(p, trace, e, n - 1);
      FoundAgain(p, before, e, Ideal(p, before, e.key).value.tokens);
    }
  }

  lemma GrantedIfFound(p: Policy, trace: seq<Event>, e: Event)
    requires Sensible(p)
    ensures IdealAnswer(p, trace + [e]).0 <==> Finds(p, trace, e).tokens >= 1.0
  {
    assert Front(trace + [e]) == trace && Last(trace + [e]) == e;
  }

  /** Of the requests a new key makes at once the first are allowed, as many as the burst, and no more;
      whatever other keys have done before. */
  lemma FullBudgetAtOnce(m: Mode, p: Policy, trace: seq<Event>, e: Event, n: nat)
    requires Sensible(p) && Monotone(trace) && (trace != [] ==> Last(trace).at <= e.at) && n > 0
    requires forall x :: x in trace ==> x.key != e.key
    ensures Answer(m, p, trace + Repeat(e, n)).0 <==> n as real <= p.burst
  {
    hide Answer, IdealAnswer, Take, Lost, Ideal, Monotone;
    var before := trace + Repeat(e, n - 1);
    var all := trace + Repeat(e, n);
    assert all == before + [e] && Front(all) == before && Last(all) == e;
    Extend(trace, Repeat(e, n), e.at);
    UnusedIsNotLost(m, p, trace, e.key);
    RepeatedIsNotLost(m, p, trace, e, n - 1);
    AnswersAreIdeal(m, p, all);
    GrantedIfFound(p, before, e);
    LeftAfter(p, trace, e, n);
  }

  /** For a limiter that is made: as many requests as its burst, at once. */
  lemma MadeLimiterGrantsItsBurst(perHour: real, burst: nat, trace: seq<Event>, e: Event, n: nat)
    requires perHour > 0.0 && burst > 0 && n > 0 && Monotone(trace) && (trace != [] ==> Last(trace).at <= e.at)
    requires forall x :: x in trace ==> x.key != e.key
    ensures var p := Policy(perHour / 3600.0, burst as real, 10_000);
            Sensible(p) && (Answer(Collecting, p, trace + Repeat(e, n)).0 <==> n <= burst)
  {
    hide Answer, Monotone;
    var p := Policy(perHour / 3600.0, burst as real, 10_000);
    RateIsPositive(perHour);
    FullBudgetAtOnce(Collecting, p, trace, e, n);
  }

  // ---- how long to wait ----------------------------------------------------------------------------------------------

  lemma EarlierIsRefused(p: Policy, b: Bucket, now: real, later: real)
    requires Sensible(p) && b.last <= now <= later && !Take(p, b, now).1 && later < now + Take(p, b, now).2
    ensures !Take(p, Take(p, b, now).0, later).1
  {
    hide Earned;
    var f := Refill(p, b, now);
    var missing := 1.0 - f.tokens;
    assert f.last == now;
    DividedBack(missing, p.rate);
    StrictlyMore(p, later - now, missing / p.rate);
    assert Earned(p, missing / p.rate) == missing by { EarnedIs(p, missing / p.rate); }
  }

  lemma StrictlyMore(p: Policy, a: real, b: real)
    requires Sensible(p) && a < b
    ensures Earned(p, a) < Earned(p, b)
  {
    Distributes(a, b - a, p.rate);
  }

  /** A refusal names exactly the time to wait: the next request of the key is allowed if and only if it
      comes no earlier, whatever other keys do meanwhile. */
  lemma WaitIsExact(m: Mode, p: Policy, trace: seq<Event>, others: seq<Event>, again: Event)
    requires Sensible(p) && trace != [] && Monotone(trace + others + [again])
    requires !Answer(m, p, trace).0 && again.key == Last(trace).key
    requires forall e :: e in others ==> e.key != again.key
    requires !Lost(m, p, trace + others, again.key)
    ensures Answer(m, p, trace + others + [again]).0 <==> again.at >= Last(trace).at + Answer(m, p, trace).1
  {
    hide Answer, Take, Lost;
    if again.at >= Last(trace).at + Answer(m, p, trace).1 {
      WaitingIsEnough(m, p, trace, others, again);
    } else {
      var key, now, run := again.key, Last(trace).at, trace + others;
      var all := run + [again];
      assert all[|trace| - 1] == Last(trace) && all[|all| - 1] == again;
      FrontIsMonotone(all);
      assert Front(all) == run && Last(all) == again;
      AnswersAreIdeal(m, p, all);
      NotLostBefore(m, p, trace, others, key);
      assert trace == run[..|trace|];
      NotLostFront(m, p, trace, key);
      PrefixIsMonotone(run, |trace|);
      AnswersAreIdeal(m, p, trace);
      OthersDoNotMatter(p, trace, others, key);
      var b := OrFull(p, Ideal(p, Front(trace), key), now);
      FrontIsMonotone(trace);
      IdealIsSolvent(p, Front(trace), key, now);
      EarlierIsRefused(p, b, now, again.at);
    }
  }
}
