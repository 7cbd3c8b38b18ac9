/** The limiter refines one that keeps every accepted call of a key forever; its bounds. */
module RateLimitLaws {
  import opened RateLimit

  // ----- Logs -----

  ghost predicate SortedTimes(log: seq<real>) {
    forall i, j :: 0 <= i <= j < |log| ==> log[i] <= log[j]
  }

  lemma {:induction false} CountAppend(a: seq<real>, b: seq<real>, lo: real, hi: real)
    ensures CountIn(a + b, lo, hi) == CountIn(a, lo, hi) + CountIn(b, lo, hi)
  {
    if b == [] {
      assert a + b == a;
    } else {
      CountAppend(a, b[..|b| - 1], lo, hi);
      assert (a + b)[..|a + b| - 1] == a + b[..|b| - 1];
    }
  }

  lemma {:induction false} CountAll(log: seq<real>, lo: real, hi: real)
    requires forall i :: 0 <= i < |log| ==> lo < log[i] <= hi
    ensures CountIn(log, lo, hi) == |log|
  {
    if log != [] { CountAll(log[..|log| - 1], lo, hi); }
  }

  lemma {:induction false} CountNone(log: seq<real>, lo: real, hi: real)
    requires forall i :: 0 <= i < |log| ==> !(lo < log[i] <= hi)
    ensures CountIn(log, lo, hi) == 0
  {
    if log != [] { CountNone(log[..|log| - 1], lo, hi); }
  }

  /** Where the last `k` times are the ones in the window, the count is `k`. */
  lemma CountSuffix(log: seq<real>, k: nat, lo: real, hi: real)
    requires k <= |log|
    requires forall i :: 0 <= i < k ==> !(lo < log[i] <= hi)
    requires forall i :: k <= i < |log| ==> lo < log[i] <= hi
    ensures CountIn(log, lo, hi) == |log| - k
  {
    CountNone(log[..k], lo, hi);
    CountAll(log[k..], lo, hi);
    CountAppend(log[..k], log[k..], lo, hi);
    assert log == log[..k] + log[k..];
  }

  // ----- What the deque of a key holds -----

  /** The deque is the recent end of the full log: whatever is not in it has left the
      window for good. */
  ghost predicate Linked(hits: seq<real>, log: seq<real>, rule: Rule, clock: real) {
    && SortedTimes(log)
    && (forall i :: 0 <= i < |log| ==> log[i] <= clock)
    && |hits| <= |log| && |hits| <= rule.limit
    && hits == log[|log| - |hits|..]
    && (forall i :: 0 <= i < |log| - |hits| ==> log[i] <= clock - rule.window as real)
  }

  lemma {:induction false} PruneIsSuffix(hits: seq<real>, cutoff: real)
    ensures var kept := Prune(hits, cutoff);
            && |kept| <= |hits| && kept == hits[|hits| - |kept|..]
            && (forall i :: 0 <= i < |hits| - |kept| ==> hits[i] <= cutoff)
            && (kept != [] ==> cutoff < kept[0])
  {
    if hits != [] && hits[0] <= cutoff {
      PruneIsSuffix(hits[1..], cutoff);
      var kept := Prune(hits, cutoff);
      forall i | 0 <= i < |hits| - |kept| ensures hits[i] <= cutoff {
        if i > 0 { assert hits[i] == hits[1..][i - 1]; }
      }
    } else {
      assert hits == hits[0..];
    }
  }

  /** A sweep deletes only deques that hold nothing of any window any more. */
  lemma SweepKeepsLink(rules: Rules, s: State, key: string, log: seq<real>, clock: real, now: real)
    requires ValidRules(rules) && Known(rules, key) && clock <= now
    requires Linked(HitsOf(s, key), log, RuleFor(rules, key), clock)
    ensures Linked(HitsOf(Sweep(rules, s, now), key), log, RuleFor(rules, key), now)
  {
    WidestIsLargest(rules, BucketOf(key));
    var hits, after := HitsOf(s, key), HitsOf(Sweep(rules, s, now), key);
    if after != hits {
      assert after == [] && Stale(hits, SweepCutoff(rules, now));
      assert hits[|hits| - 1] == log[|log| - 1];
    }
  }

  lemma SuffixOfSuffix(log: seq<real>, hits: seq<real>, kept: seq<real>)
    requires |kept| <= |hits| <= |log|
    requires hits == log[|log| - |hits|..] && kept == hits[|hits| - |kept|..]
    ensures kept == log[|log| - |kept|..]
    ensures forall i :: 0 <= i < |hits| ==> hits[i] == log[|log| - |hits| + i]
  {}

  /** Pruning takes off the deque exactly the times that have left the window. */
  lemma PrunedSplitsLog(hits: seq<real>, log: seq<real>, rule: Rule, now: real)
    requires Linked(hits, log, rule, now)
    ensures var cutoff := now - rule.window as real;
            var kept := Prune(hits, cutoff);
            var k := |log| - |kept|;
            && |kept| <= |hits| && kept == log[k..]
            && (forall i :: 0 <= i < k ==> log[i] <= cutoff)
            && (forall i :: k <= i < |log| ==> cutoff < log[i] <= now)
  {
    var cutoff := now - rule.window as real;
    var kept := Prune(hits, cutoff);
    PruneIsSuffix(hits, cutoff);
    SuffixOfSuffix(log, hits, kept);
    var k, h := |log| - |kept|, |log| - |hits|;
    forall i | 0 <= i < k ensures log[i] <= cutoff {
      if i >= h { assert log[i] == hits[i - h]; }
    }
    forall i | k <= i < |log| ensures cutoff < log[i] <= now { assert log[k] == kept[0]; }
  }

  /** After pruning, the deque is the part of the log inside the window. */
  lemma PrunedIsWindow(hits: seq<real>, log: seq<real>, rule: Rule, now: real)
    requires Linked(hits, log, rule, now)
    ensures var cutoff := now - rule.window as real;
            var kept := Prune(hits, cutoff);
            && Linked(kept, log, rule, now)
            && CountIn(log, cutoff, now) == |kept|
            && (kept != [] ==> kept[0] == log[|log| - |kept|] && cutoff < kept[0] <= now)
  {
    PrunedSplitsLog(hits, log, rule, now);
    var cutoff := now - rule.window as real;
    CountSuffix(log, |log| - |Prune(hits, cutoff)|, cutoff, now);
  }

  lemma LinkRecords(kept: seq<real>, log: seq<real>, rule: Rule, now: real)
    requires Linked(kept, log, rule, now) && |kept| < rule.limit
    ensures Linked(kept + [now], log + [now], rule, now)
  {
    var k := |log| - |kept|;
    assert (log + [now])[k..] == log[k..] + [now];
  }

  /** One call: the decision is the simple limiter's, and the link is kept. */
  lemma StepMatches(rules: Rules, s: State, key: string, log: seq<real>, clock: real, now: real)
    requires ValidRules(rules) && Known(rules, key) && clock <= now
    requires Linked(HitsOf(s, key), log, RuleFor(rules, key), clock)
    ensures var rule := RuleFor(rules, key);
            var (s', decision) := Step(rules, s, key, rule, now);
            && (decision == Allowed <==> IdealAllows(rule, log, now))
            && Linked(HitsOf(s', key), if decision == Allowed then log + [now] else log, rule, now)
  {
    var rule := RuleFor(rules, key);
    SweepKeepsLink(rules, s, key, log, clock, now);
    var hits := HitsOf(Sweep(rules, s, now), key);
    var kept := Prune(hits, now - rule.window as real);
    PrunedIsWindow(hits, log, rule, now);
    if |kept| < rule.limit { LinkRecords(kept, log, rule, now); }
  }

  lemma RetryFormula(oldest: real, window: int, now: real)
    requires now - window as real < oldest <= now
    ensures RetryAfter(oldest, window, now) == (oldest + window as real - now).Floor + 1
    ensures 1 <= RetryAfter(oldest, window, now) <= window + 1
  {
    assert 0.0 <= oldest + window as real - now <= window as real;
  }

  /** A refused call names the time left until the oldest call in the window leaves it. */
  lemma RefusalCounts(rules: Rules, s: State, key: string, log: seq<real>, clock: real, now: real)
    requires ValidRules(rules) && Known(rules, key) && clock <= now
    requires Linked(HitsOf(s, key), log, RuleFor(rules, key), clock)
    requires Step(rules, s, key, RuleFor(rules, key), now).1.Rejected?
    ensures var rule := RuleFor(rules, key);
            && |log| >= rule.limit && now - rule.window as real < log[|log| - rule.limit] <= now
            && Step(rules, s, key, rule, now).1.retryAfter
               == (log[|log| - rule.limit] + rule.window as real - now).Floor + 1
  {
    var rule := RuleFor(rules, key);
    SweepKeepsLink(rules, s, key, log, clock, now);
    var hits := HitsOf(Sweep(rules, s, now), key);
    PrunedIsWindow(hits, log, rule, now);
    var kept := Prune(hits, now - rule.window as real);
    assert |kept| == rule.limit;
    RetryFormula(kept[0], rule.window, now);
  }

  /** A call on another key leaves this key's link in place. */
  lemma StepElsewhere(rules: Rules, s: State, key: string, log: seq<real>, clock: real, other: string, now: real)
    requires ValidRules(rules) && Known(rules, key) && Known(rules, other) && other != key && clock <= now
    requires Linked(HitsOf(s, key), log, RuleFor(rules, key), clock)
    ensures Linked(HitsOf(Step(rules, s, other, RuleFor(rules, other), now).0, key), log, RuleFor(rules, key), now)
  {
    SweepKeepsLink(rules, s, key, log, clock, now);
  }

  function Clock(start: real, calls: seq<Call>): real {
    if calls == [] then start else Last(calls).now
  }

  lemma FrontIsRun(rules: Rules, start: real, calls: seq<Call>)
    requires calls != [] && ValidRun(rules, start, calls)
    ensures ValidRun(rules, start, Front(calls))
    ensures Clock(start, Front(calls)) <= Last(calls).now && Known(rules, Last(calls).key)
  {}

  /** The state and the log after a run, from those before its last call. */
  lemma StepOfRun(rules: Rules, start: real, calls: seq<Call>, key: string)
    requires ValidRules(rules) && calls != [] && ValidRun(rules, start, calls)
    ensures ValidRun(rules, start, Front(calls)) && Known(rules, Last(calls).key)
    ensures var call := Last(calls);
            var (s', decision) :=
              Step(rules, StateAfter(rules, start, Front(calls)), call.key, RuleFor(rules, call.key), call.now);
            && StateAfter(rules, start, calls) == s' && DecisionOn(rules, start, calls) == decision
            && Log(rules, start, calls, key)
               == Log(rules, start, Front(calls), key)
                  + (if call.key == key && decision == Allowed then [call.now] else [])
  {
    FrontIsRun(rules, start, calls);
  }

  /** One call of any key, seen from one key. */
  lemma StepLinked(rules: Rules, s: State, key: string, log: seq<real>, clock: real, call: Call)
    requires ValidRules(rules) && Known(rules, key) && Known(rules, call.key) && clock <= call.now
    requires Linked(HitsOf(s, key), log, RuleFor(rules, key), clock)
    ensures var (s', decision) := Step(rules, s, call.key, RuleFor(rules, call.key), call.now);
            Linked(HitsOf(s', key), log + (if call.key == key && decision == Allowed then [call.now] else []),
                   RuleFor(rules, key), call.now)
  {
    assert log + [] == log;
    if call.key == key {
      StepMatches(rules, s, key, log, clock, call.now);
    } else {
      StepElsewhere(rules, s, key, log, clock, call.key, call.now);
    }
  }

  lemma {:induction false} RunLinked(rules: Rules, start: real, calls: seq<Call>, key: string)
    requires ValidRules(rules) && ValidRun(rules, start, calls) && Known(rules, key)
    ensures Linked(HitsOf(StateAfter(rules, start, calls), key), Log(rules, start, calls, key),
                   RuleFor(rules, key), Clock(start, calls))
    decreases |calls|
  {
    if calls == [] {
      assert HitsOf(StateAfter(rules, start, calls), key) == [] == Log(rules, start, calls, key);
    } else {
      StepOfRun(rules, start, calls, key);
      FrontIsRun(rules, start, calls);
      RunLinked(rules, start, Front(calls), key);
      StepLinked(rules, StateAfter(rules, start, Front(calls)), key, Log(rules, start, Front(calls), key),
                 Clock(start, Front(calls)), Last(calls));
    }
  }

  // ----- Refinement over whole runs -----

  /** In any interleaving of calls on any keys, with sweeps at any point, a call is allowed
      exactly when fewer than `limit` allowed calls on its key lie in (now - window, now]. */
  lemma DecisionMatchesLog(rules: Rules, start: real, calls: seq<Call>)
    requires ValidRules(rules) && calls != [] && ValidRun(rules, start, calls)
    ensures var call := Last(calls);
            DecisionOn(rules, start, calls) == Allowed
            <==> IdealAllows(RuleFor(rules, call.key), Log(rules, start, Front(calls), call.key), call.now)
  {
    FrontIsRun(rules, start, calls);
    RunLinked(rules, start, Front(calls), Last(calls).key);
    StepMatches(rules, StateAfter(rules, start, Front(calls)), Last(calls).key,
                Log(rules, start, Front(calls), Last(calls).key), Clock(start, Front(calls)), Last(calls).now);
  }

  /** The log of a key is that of a never-swept limiter fed this key's calls only: what
      happens on other keys changes nothing. */
  lemma {:induction false} KeysAreIndependent(rules: Rules, start: real, calls: seq<Call>, key: string)
    requires ValidRules(rules) && ValidRun(rules, start, calls) && Known(rules, key)
    ensures Log(rules, start, calls, key) == IdealLog(RuleFor(rules, key), TimesOf(calls, key))
    decreases |calls|
  {
    if calls != [] {
      KeysAreIndependent(rules, start, Front(calls), key);
      if Last(calls).key == key {
        DecisionMatchesLog(rules, start, calls);
        var before := TimesOf(Front(calls), key);
        assert TimesOf(calls, key)[..|before|] == before;
      } else {
        assert TimesOf(calls, key) == TimesOf(Front(calls), key);
      }
    }
  }

  /** The clock is read before the lock is taken, so a call may enter with an earlier reading
      than the call before it. A step decides like the full log, in every state that holds the
      recent end of it, exactly when that has not happened. */
  lemma ClockMustNotGoBack(rules: Rules, key: string, clock: real, now: real)
    requires ValidRules(rules) && Known(rules, key)
    ensures (forall s, log :: Linked(HitsOf(s, key), log, RuleFor(rules, key), clock) ==>
               (Step(rules, s, key, RuleFor(rules, key), now).1 == Allowed <==> IdealAllows(RuleFor(rules, key), log, now)))
       <==> clock <= now
  {
    var rule := RuleFor(rules, key);
    if clock <= now {
      forall s, log | Linked(HitsOf(s, key), log, rule, clock)
        ensures Step(rules, s, key, rule, now).1 == Allowed <==> IdealAllows(rule, log, now)
      {
        StepMatches(rules, s, key, log, clock, now);
      }
    } else {
      var full := seq(rule.limit, i => clock);
      var s := State(map[key := full], now);
      assert HitsOf(s, key) == full == full[|full| - |full|..];
      assert Linked(HitsOf(s, key), full, rule, clock);
      assert Step(rules, s, key, rule, now).1 != Allowed;
      CountNone(full, now - rule.window as real, now);
      assert IdealAllows(rule, full, now);
    }
  }

  /** A step between sweeps that finds room after pruning. */
  lemma StepAdmits(rules: Rules, s: State, key: string, rule: Rule, now: real, kept: seq<real>)
    requires now - s.lastSweep < SWEEP_INTERVAL && |kept| < rule.limit
    requires Prune(HitsOf(s, key), now - rule.window as real) == kept
    ensures Step(rules, s, key, rule, now) == (s.(hits := s.hits[key := kept + [now]]), Allowed)
    ensures HitsOf(Step(rules, s, key, rule, now).0, key) == kept + [now]
  {}

  /** One way it goes wrong: the second call is refused although nothing lies in its window. */
  lemma ClockBackRefuses()
    ensures var rule, key, rules := Rule(1, 1), "b:i", map["b" := Rule(1, 1)];
            var (s, first) := Step(rules, State(map[], 0.0), key, rule, 10.0);
            && first == Allowed
            && Step(rules, s, key, rule, 5.0).1.Rejected? && IdealAllows(rule, [10.0], 5.0)
  {
    CountNone([10.0], 4.0, 5.0);
  }

  /** The other way: a late call has taken earlier ones off the deque, so that a call stamped
      before it is let in, as a third one within a window that has room for two. */
  lemma ClockBackAdmits()
    ensures var rule, key, rules := Rule(2, 10), "b:i", map["b" := Rule(2, 10)];
            var (s1, d1) := Step(rules, State(map[], 0.0), key, rule, 10.0);
            var (s2, d2) := Step(rules, s1, key, rule, 11.0);
            var (s3, d3) := Step(rules, s2, key, rule, 21.5);
            && d1 == d2 == d3 == Step(rules, s3, key, rule, 15.0).1 == Allowed
            && CountIn([10.0, 11.0, 21.5, 15.0], 5.0, 15.0) > rule.limit * Ceil(10.0 / rule.window as real)
  {
    AllFourAdmitted(map["b" := Rule(2, 10)], "b:i", Rule(2, 10));
    CountsOfExample();
  }

  lemma AllFourAdmitted(rules: Rules, key: string, rule: Rule)
    requires rule == Rule(2, 10)
    ensures var (s1, d1) := Step(rules, State(map[], 0.0), key, rule, 10.0);
            var (s2, d2) := Step(rules, s1, key, rule, 11.0);
            var (s3, d3) := Step(rules, s2, key, rule, 21.5);
            d1 == d2 == d3 == Step(rules, s3, key, rule, 15.0).1 == Allowed
  {
    StepAdmits(rules, State(map[], 0.0), key, rule, 10.0, []);
    var s1 := Step(rules, State(map[], 0.0), key, rule, 10.0).0;
    StepAdmits(rules, s1, key, rule, 11.0, [10.0]);
    var s2 := Step(rules, s1, key, rule, 11.0).0;
    BothPruned();
    StepAdmits(rules, s2, key, rule, 21.5, []);
    StepAdmits(rules, Step(rules, s2, key, rule, 21.5).0, key, rule, 15.0, [21.5]);
  }

  lemma BothPruned()
    ensures Prune([10.0] + [11.0], 11.5) == []
  {
    assert ([10.0] + [11.0])[1..] == [11.0] && [11.0][1..] == [];
    assert Prune([11.0], 11.5) == [];
  }

  lemma CountsOfExample()
    ensures CountIn([10.0, 11.0, 21.5, 15.0], 5.0, 15.0) == 3
  {
    CountAll([10.0, 11.0], 5.0, 15.0);
    CountNone([21.5], 5.0, 15.0);
    CountAll([15.0], 5.0, 15.0);
    CountAppend([10.0, 11.0], [21.5], 5.0, 15.0);
    CountAppend([10.0, 11.0, 21.5], [15.0], 5.0, 15.0);
    assert [10.0, 11.0] + [21.5] == [10.0, 11.0, 21.5];
    assert [10.0, 11.0, 21.5] + [15.0] == [10.0, 11.0, 21.5, 15.0];
  }

  // ----- Rate bound over arbitrary intervals -----

  /** Among the allowed calls, any `limit + 1` consecutive ones span at least a window. */
  ghost predicate Spaced(log: seq<real>, rule: Rule) {
    forall i, j :: 0 <= i < j < |log| && j == i + rule.limit ==> log[i] + rule.window as real <= log[j]
  }

  lemma {:induction false} RunSpaced(rules: Rules, start: real, calls: seq<Call>, key: string)
    requires ValidRules(rules) && ValidRun(rules, start, calls) && Known(rules, key)
    ensures Spaced(Log(rules, start, calls, key), RuleFor(rules, key))
    decreases |calls|
  {
    if calls != [] {
      FrontIsRun(rules, start, calls);
      RunSpaced(rules, start, Front(calls), key);
      RunLinked(rules, start, Front(calls), key);
      var log, rule, now := Log(rules, start, Front(calls), key), RuleFor(rules, key), Last(calls).now;
      if Last(calls).key == key && DecisionOn(rules, start, calls) == Allowed {
        DecisionMatchesLog(rules, start, calls);
        AllowedIsSpaced(log, rule, now);
      }
    }
  }

  lemma WindowFull(log: seq<real>, i: nat, lo: real, hi: real)
    requires SortedTimes(log) && i < |log|
    requires lo < log[i] && log[|log| - 1] <= hi
    ensures CountIn(log, lo, hi) >= |log| - i
  {
    CountAll(log[i..], lo, hi);
    CountAppend(log[..i], log[i..], lo, hi);
    assert log == log[..i] + log[i..];
  }

  lemma AllowedIsSpaced(log: seq<real>, rule: Rule, now: real)
    requires SortedTimes(log) && (forall i :: 0 <= i < |log| ==> log[i] <= now)
    requires rule.limit >= 1 && Spaced(log, rule) && IdealAllows(rule, log, now)
    ensures Spaced(log + [now], rule)
  {
    var cutoff := now - rule.window as real;
    if |log| >= rule.limit && cutoff < log[|log| - rule.limit] {
      WindowFull(log, |log| - rule.limit, cutoff, now);
    }
  }

  lemma {:induction false} SpacedFar(log: seq<real>, rule: Rule, i: nat, k: nat)
    requires rule.limit >= 1 && Spaced(log, rule)
    requires i + rule.limit * k < |log|
    ensures log[i] + (rule.window * k) as real <= log[i + rule.limit * k]
  {
    if k > 0 {
      var j := i + rule.limit * (k - 1);
      assert rule.limit * k == rule.limit * (k - 1) + rule.limit;
      assert rule.window * k == rule.window * (k - 1) + rule.window;
      SpacedFar(log, rule, i, k - 1);
      assert log[j] + rule.window as real <= log[j + rule.limit];
    }
  }

  /** The times of a sorted log in (lo, hi] stand next to one another. */
  lemma {:induction false} CountIsSpan(log: seq<real>, lo: real, hi: real) returns (i: nat)
    requires SortedTimes(log)
    ensures i + CountIn(log, lo, hi) <= |log|
    ensures forall j :: i <= j < i + CountIn(log, lo, hi) ==> lo < log[j] <= hi
    ensures CountIn(log, lo, hi) > 0 && i + CountIn(log, lo, hi) < |log| ==> hi < log[i + CountIn(log, lo, hi)]
  {
    i := 0;
    if log != [] {
      var front, last := log[..|log| - 1], log[|log| - 1];
      i := CountIsSpan(front, lo, hi);
      var n := CountIn(front, lo, hi);
      if lo < last <= hi {
        if n == 0 { i := |log| - 1; }
        else { assert forall j :: 0 <= j < |front| ==> front[j] <= last; }
      }
    }
  }

  /** `ceil(x)` */
  function Ceil(x: real): int { -((-x).Floor) }

  /** Within any half-open interval of length T, at most limit * ceil(T / window) calls on a
      key are allowed, in every run and across sweeps. */
  lemma RateBound(rules: Rules, start: real, calls: seq<Call>, key: string, a: real, T: real)
    requires ValidRules(rules) && ValidRun(rules, start, calls) && Known(rules, key) && T > 0.0
    ensures var rule := RuleFor(rules, key);
            CountIn(Log(rules, start, calls, key), a, a + T) <= rule.limit * Ceil(T / rule.window as real)
  {
    var rule, log := RuleFor(rules, key), Log(rules, start, calls, key);
    RunLinked(rules, start, calls, key);
    RunSpaced(rules, start, calls, key);
    var i := CountIsSpan(log, a, a + T);
    var n := CountIn(log, a, a + T);
    var k := CeilCovers(T, rule.window);
    SpanHoldsFew(log, rule, i, n, k, a, T);
  }

  lemma SpanHoldsFew(log: seq<real>, rule: Rule, i: nat, n: nat, k: nat, a: real, T: real)
    requires rule.limit >= 1 && Spaced(log, rule) && T <= (rule.window * k) as real
    requires i + n <= |log| && forall j :: i <= j < i + n ==> a < log[j] <= a + T
    ensures n <= rule.limit * k
  {
    var m := rule.limit * k;
    if m < n {
      SpacedFar(log, rule, i, k);
    }
  }

  lemma CeilCovers(T: real, window: int) returns (k: nat)
    requires T > 0.0 && window >= 1
    ensures k == Ceil(T / window as real) && T <= (window * k) as real
  {
    var w := window as real;
    var q := T / w;
    assert q * w == T;
    var c := Ceil(q);
    assert q <= c as real;
    assert c as real * w >= q * w;
    assert (window * c) as real == c as real * w;
    assert c >= 0;
    k := c;
  }

  // ----- Retry-After (section 10.2.3 of RFC 9110) -----

  lemma {:induction false} LogGrows(rules: Rules, start: real, calls: seq<Call>, more: seq<Call>, key: string)
    requires ValidRules(rules) && ValidRun(rules, start, calls + more)
    ensures ValidRun(rules, start, calls)
    ensures Log(rules, start, calls, key) <= Log(rules, start, calls + more, key)
    ensures (forall i :: 0 <= i < |more| ==> more[i].key != key) ==>
              Log(rules, start, calls + more, key) == Log(rules, start, calls, key)
    decreases |more|
  {
    if more == [] {
      assert calls + more == calls;
    } else {
      var all := calls + more;
      assert Front(all) == calls + Front(more) && Last(all) == Last(more);
      FrontIsRun(rules, start, all);
      LogGrows(rules, start, calls, Front(more), key);
      assert forall i :: 0 <= i < |Front(more)| ==> Front(more)[i] == more[i];
    }
  }

  lemma {:induction false} CountAtMost(log: seq<real>, k: nat, lo: real, hi: real)
    requires k <= |log| && forall i :: 0 <= i < k ==> log[i] <= lo
    ensures CountIn(log, lo, hi) <= |log| - k
  {
    if k < |log| {
      CountAtMost(log[..|log| - 1], k, lo, hi);
    } else {
      CountNone(log, lo, hi);
    }
  }

  /** The simple limiter's side: with `oldest` the limit-th newest allowed call, calls are
      refused while it is in the window and, as long as none is added, allowed afterwards. */
  lemma OldestDecides(rule: Rule, log: seq<real>, longer: seq<real>, t: real)
    requires 1 <= rule.limit <= |log| && log <= longer && SortedTimes(longer)
    requires forall i :: 0 <= i < |longer| ==> longer[i] <= t
    ensures t < log[|log| - rule.limit] + rule.window as real ==> !IdealAllows(rule, longer, t)
    ensures longer == log && t >= log[|log| - rule.limit] + rule.window as real ==> IdealAllows(rule, log, t)
  {
    var k := |log| - rule.limit;
    var cutoff := t - rule.window as real;
    if cutoff < log[k] {
      WindowFull(longer, k, cutoff, t);
    } else if longer == log {
      CountAtMost(log, k + 1, cutoff, t);
    }
  }

  lemma RefusalInRun(rules: Rules, start: real, calls: seq<Call>)
    requires ValidRules(rules) && calls != [] && ValidRun(rules, start, calls)
    requires DecisionOn(rules, start, calls).Rejected?
    ensures var key, now := Last(calls).key, Last(calls).now;
            var rule, log, r := RuleFor(rules, key), Log(rules, start, calls, key), DecisionOn(rules, start, calls).retryAfter;
            && 1 <= r <= rule.window + 1 && |log| >= rule.limit
            && now + (r - 1) as real <= log[|log| - rule.limit] + rule.window as real < now + r as real
  {
    var key, now := Last(calls).key, Last(calls).now;
    var rule, before := RuleFor(rules, key), Log(rules, start, Front(calls), key);
    FrontIsRun(rules, start, calls);
    RunLinked(rules, start, Front(calls), key);
    RefusalCounts(rules, StateAfter(rules, start, Front(calls)), key, before, Clock(start, Front(calls)), now);
    assert Log(rules, start, calls, key) == before;
    RetryFormula(before[|before| - rule.limit], rule.window, now);
  }

  /** A refusal's Retry-After r lies between 1 and window + 1. Whatever other calls come in
      between, a call on the key before now + r - 1 is refused; and with no other call on the
      key in between, a call at now + r or later is allowed. Sweeps make no difference. */
  lemma RetryAfterSufficientAndTight(rules: Rules, start: real, calls: seq<Call>, others: seq<Call>, t: real)
    requires ValidRules(rules) && calls != []
    requires ValidRun(rules, start, calls) && ValidRun(rules, start, calls + others + [Call(Last(calls).key, t)])
    requires DecisionOn(rules, start, calls).Rejected?
    ensures var key, now := Last(calls).key, Last(calls).now;
            var r := DecisionOn(rules, start, calls).retryAfter;
            var later := DecisionOn(rules, start, calls + others + [Call(key, t)]);
            && 1 <= r <= RuleFor(rules, key).window + 1
            && (t < now + (r - 1) as real ==> later.Rejected?)
            && ((forall i :: 0 <= i < |others| ==> others[i].key != key) && t >= now + r as real ==> later == Allowed)
  {
    var key := Last(calls).key;
    var run := calls + others + [Call(key, t)];
    assert Front(run) == calls + others && Last(run) == Call(key, t);
    RefusalInRun(rules, start, calls);
    FrontIsRun(rules, start, run);
    LogGrows(rules, start, calls, others, key);
    RunLinked(rules, start, calls + others, key);
    DecisionMatchesLog(rules, start, run);
    OldestDecides(RuleFor(rules, key), Log(rules, start, calls, key), Log(rules, start, calls + others, key), t);
  }

  // ----- Retention -----

  function Newest(hits: seq<real>): real
    requires hits != []
  {
    hits[|hits| - 1]
  }

  ghost predicate Retained(rules: Rules, s: State, clock: real) {
    && s.lastSweep <= clock
    && forall k :: k in s.hits ==>
         Known(rules, k) && s.hits[k] != [] && s.lastSweep - Widest(rules) as real < Newest(s.hits[k])
  }

  lemma SweepRetains(rules: Rules, s: State, clock: real, now: real)
    requires clock <= now && Retained(rules, s, clock)
    ensures Retained(rules, Sweep(rules, s, now), now) && now - Sweep(rules, s, now).lastSweep < SWEEP_INTERVAL
  {}

  lemma PruneKeepsNewest(hits: seq<real>, cutoff: real)
    ensures Prune(hits, cutoff) != [] ==> hits != [] && Newest(Prune(hits, cutoff)) == Newest(hits)
  {
    PruneIsSuffix(hits, cutoff);
  }

  lemma TouchRetains(rules: Rules, s: State, key: string, hits: seq<real>, now: real)
    requires Retained(rules, s, now) && Known(rules, key)
    requires hits != [] && s.lastSweep - Widest(rules) as real < Newest(hits)
    ensures Retained(rules, s.(hits := s.hits[key := hits]), now)
  {}

  /** What a step leaves under its own key. */
  function Touched(rules: Rules, s: State, key: string, rule: Rule, now: real): seq<real> {
    var kept := Prune(HitsOf(Sweep(rules, s, now), key), now - rule.window as real);
    if |kept| >= rule.limit then kept else kept + [now]
  }

  lemma StepTouches(rules: Rules, s: State, key: string, rule: Rule, now: real)
    requires rule.limit >= 1
    ensures var swept := Sweep(rules, s, now);
            Step(rules, s, key, rule, now).0 == swept.(hits := swept.hits[key := Touched(rules, s, key, rule, now)])
  {}

  lemma TouchedIsRecent(rules: Rules, s: State, key: string, now: real)
    requires ValidRules(rules) && Known(rules, key) && Retained(rules, Sweep(rules, s, now), now)
    ensures var hits := Touched(rules, s, key, RuleFor(rules, key), now);
            hits != [] && Sweep(rules, s, now).lastSweep - Widest(rules) as real < Newest(hits)
  {
    var rule, swept := RuleFor(rules, key), Sweep(rules, s, now);
    WidestIsLargest(rules, BucketOf(key));
    PruneKeepsNewest(HitsOf(swept, key), now - rule.window as real);
  }

  lemma StepRetains(rules: Rules, s: State, key: string, clock: real, now: real)
    requires ValidRules(rules) && Known(rules, key) && clock <= now && Retained(rules, s, clock)
    ensures var s' := Step(rules, s, key, RuleFor(rules, key), now).0;
            Retained(rules, s', now) && now - s'.lastSweep < SWEEP_INTERVAL
  {
    var rule := RuleFor(rules, key);
    SweepRetains(rules, s, clock, now);
    StepTouches(rules, s, key, rule, now);
    TouchedIsRecent(rules, s, key, now);
    TouchRetains(rules, Sweep(rules, s, now), key, Touched(rules, s, key, rule, now), now);
  }

  lemma {:induction false} RunRetains(rules: Rules, start: real, calls: seq<Call>)
    requires ValidRules(rules) && ValidRun(rules, start, calls)
    ensures Retained(rules, StateAfter(rules, start, calls), Clock(start, calls))
    ensures calls != [] ==> Clock(start, calls) - StateAfter(rules, start, calls).lastSweep < SWEEP_INTERVAL
    decreases |calls|
  {
    if calls != [] {
      FrontIsRun(rules, start, calls);
      RunRetains(rules, start, Front(calls));
      StepRetains(rules, StateAfter(rules, start, Front(calls)), Last(calls).key,
                  Clock(start, Front(calls)), Last(calls).now);
    }
  }

  /** After every check each stored deque is non-empty, sorted and within its limit, and its
      newest hit is younger than the widest window plus the sweep interval. */
  lemma RetentionBound(rules: Rules, start: real, calls: seq<Call>, key: string)
    requires ValidRules(rules) && ValidRun(rules, start, calls) && calls != []
    requires key in StateAfter(rules, start, calls).hits
    ensures var hits := StateAfter(rules, start, calls).hits[key];
            && Known(rules, key) && 1 <= |hits| <= RuleFor(rules, key).limit && SortedTimes(hits)
            && Last(calls).now - (Widest(rules) as real + SWEEP_INTERVAL) < Newest(hits)
  {
    RunRetains(rules, start, calls);
    RunLinked(rules, start, calls, key);
  }

  /** Right after a call its key's deque holds exactly the allowed calls of its window, this one
      included if it was allowed. */
  lemma StoredIsWindow(rules: Rules, start: real, calls: seq<Call>, cutoff: real)
    requires ValidRules(rules) && calls != [] && ValidRun(rules, start, calls)
    requires cutoff + RuleFor(rules, Last(calls).key).window as real == Last(calls).now
    ensures var key := Last(calls).key;
            IsWindow(HitsOf(StateAfter(rules, start, calls), key), Log(rules, start, calls, key), cutoff)
  {
    var key := Last(calls).key;
    var s, log := StateAfter(rules, start, Front(calls)), Log(rules, start, Front(calls), key);
    FrontIsRun(rules, start, calls);
    RunLinked(rules, start, Front(calls), key);
    StepKeepsWindow(rules, s, key, log, Clock(start, Front(calls)), Last(calls).now, cutoff);
    StepOfRun(rules, start, calls, key);
    assert log + [] == log;
  }

  lemma StepKeepsWindow(rules: Rules, s: State, key: string, log: seq<real>, clock: real, now: real, cutoff: real)
    requires ValidRules(rules) && Known(rules, key) && clock <= now
    requires Linked(HitsOf(s, key), log, RuleFor(rules, key), clock)
    requires cutoff + RuleFor(rules, key).window as real == now
    ensures var (s', decision) := Step(rules, s, key, RuleFor(rules, key), now);
            IsWindow(HitsOf(s', key), if decision == Allowed then log + [now] else log, cutoff)
  {
    var rule := RuleFor(rules, key);
    SweepKeepsLink(rules, s, key, log, clock, now);
    var hits := HitsOf(Sweep(rules, s, now), key);
    PrunedIs(hits, log, rule, now, cutoff);
    WindowRecords(Prune(hits, cutoff), log, cutoff, now);
    StepOnPruned(rules, s, key, rule, now, cutoff);
  }

  lemma PrunedIs(hits: seq<real>, log: seq<real>, rule: Rule, now: real, cutoff: real)
    requires Linked(hits, log, rule, now) && cutoff + rule.window as real == now
    ensures IsWindow(Prune(hits, cutoff), log, cutoff)
  {
    PrunedSplitsLog(hits, log, rule, now);
    assert cutoff == now - rule.window as real;
  }

  lemma WindowRecords(kept: seq<real>, log: seq<real>, cutoff: real, now: real)
    requires IsWindow(kept, log, cutoff) && cutoff < now
    ensures IsWindow(kept + [now], log + [now], cutoff)
  {
    assert (log + [now])[|log| - |kept|..] == log[|log| - |kept|..] + [now];
  }

  lemma StepOnPruned(rules: Rules, s: State, key: string, rule: Rule, now: real, cutoff: real)
    requires rule.limit >= 1 && cutoff + rule.window as real == now
    ensures var kept := Prune(HitsOf(Sweep(rules, s, now), key), cutoff);
            var (s', decision) := Step(rules, s, key, rule, now);
            HitsOf(s', key) == if decision == Allowed then kept + [now] else kept
  {
    assert cutoff == now - rule.window as real;
  }

  /** These are the times of the log after the cutoff. */
  ghost predicate IsWindow(hits: seq<real>, log: seq<real>, cutoff: real) {
    && |hits| <= |log| && hits == log[|log| - |hits|..]
    && (forall i :: 0 <= i < |log| ==> (cutoff < log[i] <==> |log| - |hits| <= i))
  }

  /** With the shipped rules nothing older than 4200 seconds keeps a key alive. */
  lemma ShippedRetention(start: real, calls: seq<Call>, key: string)
    requires ValidRules(RULES) && ValidRun(RULES, start, calls) && calls != []
    requires key in StateAfter(RULES, start, calls).hits
    ensures StateAfter(RULES, start, calls).hits[key] != []
    ensures Last(calls).now - 4200.0 < Newest(StateAfter(RULES, start, calls).hits[key])
  {
    ShippedRulesAreValid();
    RetentionBound(RULES, start, calls, key);
  }
}
