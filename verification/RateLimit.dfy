/**
 The sliding-window rate limiter (app/ratelimit.py): a deque of timestamps per key,
 pruned on access, and a periodic sweep of keys that have drained. Times are readings
 of a monotonic clock, in seconds.
*/
module RateLimit {
  import opened Wrappers
  import opened AscendingSets

  /** `limit` events allowed per `window` seconds, per key. */
  datatype Rule = Rule(limit: int, window: int)

  type Rules = map<string, Rule>

  const RULES: Rules := map[
    "login_ip" := Rule(10, 15 * 60),
    "login_email" := Rule(10, 15 * 60),
    "register_ip" := Rule(5, 60 * 60),
    "forgot_ip" := Rule(10, 60 * 60),
    "forgot_email" := Rule(3, 60 * 60),
    "resend_user" := Rule(3, 60 * 60)]

  const SWEEP_INTERVAL := 600.0

  /** What every rules table must satisfy: positive rules, and bucket names without the
      separator that sets them off from the identifier in a key. */
  ghost predicate ValidRules(rules: Rules) {
    forall b :: b in rules ==> rules[b].limit >= 1 && rules[b].window >= 1 && ':' !in b
  }

  // ----- Keys -----

  function KeyOf(bucket: string, identifier: string): string {
    bucket + ":" + identifier
  }

  function BucketOf(key: string): string {
    if key == [] || key[0] == ':' then [] else [key[0]] + BucketOf(key[1..])
  }

  /** A key determines its bucket, hence its rule, and its identifier. */
  lemma {:induction false} BucketOfKey(bucket: string, identifier: string)
    requires ':' !in bucket
    ensures BucketOf(KeyOf(bucket, identifier)) == bucket
  {
    if bucket == [] {
      assert KeyOf(bucket, identifier)[0] == ':';
    } else {
      assert KeyOf(bucket, identifier)[0] == bucket[0];
      assert KeyOf(bucket, identifier)[1..] == KeyOf(bucket[1..], identifier);
      BucketOfKey(bucket[1..], identifier);
    }
  }

  lemma KeysDistinct(rules: Rules, b1: string, i1: string, b2: string, i2: string)
    requires ValidRules(rules) && b1 in rules && b2 in rules
    requires KeyOf(b1, i1) == KeyOf(b2, i2)
    ensures b1 == b2 && i1 == i2
  {
    BucketOfKey(b1, i1);
    BucketOfKey(b2, i2);
    assert KeyOf(b1, i1)[|b1| + 1..] == i1 && KeyOf(b2, i2)[|b2| + 1..] == i2;
  }

  predicate Known(rules: Rules, key: string) {
    BucketOf(key) in rules
  }

  function RuleFor(rules: Rules, key: string): Rule
    requires Known(rules, key)
  {
    rules[BucketOf(key)]
  }

  /** `max(..., default=3600)` over the windows of the rules. */
  function Widest(rules: Rules): int {
    var windows := SortedSet(set b | b in rules :: rules[b].window);
    if windows == [] then 3600 else windows[|windows| - 1]
  }

  lemma WidestIsLargest(rules: Rules, bucket: string)
    requires bucket in rules
    ensures rules[bucket].window <= Widest(rules)
    ensures Widest(rules) in (set b | b in rules :: rules[b].window)
  {
    var all := set b | b in rules :: rules[b].window;
    var windows := SortedSet(all);
    assert rules[bucket].window in all;
    var i :| 0 <= i < |windows| && windows[i] == rules[bucket].window;
    assert windows[|windows| - 1] in windows;
  }

  lemma ShippedRule(bucket: string)
    requires bucket in RULES
    ensures RULES[bucket].limit >= 1 && 1 <= RULES[bucket].window <= 3600
    ensures ':' !in bucket
  {
    assert bucket in {"login_ip", "login_email", "register_ip", "forgot_ip", "forgot_email", "resend_user"};
  }

  lemma ShippedRulesAreValid()
    ensures ValidRules(RULES) && Widest(RULES) == 3600
  {
    forall b | b in RULES ensures RULES[b].limit >= 1 && 1 <= RULES[b].window <= 3600 && ':' !in b {
      ShippedRule(b);
    }
    WidestIsLargest(RULES, "register_ip");
  }

  // ----- The limiter as a state machine -----

  datatype State = State(hits: map<string, seq<real>>, lastSweep: real)

  datatype Decision = Allowed | Rejected(retryAfter: int)

  /** `int(x)`: truncation towards zero. */
  function Truncate(x: real): int {
    if x >= 0.0 then x.Floor else -((-x).Floor)
  }

  /** `while hits and hits[0] <= cutoff: hits.popleft()` */
  function Prune(hits: seq<real>, cutoff: real): seq<real> {
    if hits != [] && hits[0] <= cutoff then Prune(hits[1..], cutoff) else hits
  }

  predicate Stale(hits: seq<real>, cutoff: real) {
    hits == [] || hits[|hits| - 1] <= cutoff
  }

  function SweepCutoff(rules: Rules, now: real): real {
    now - Widest(rules) as real
  }

  function Sweep(rules: Rules, s: State, now: real): State {
    if now - s.lastSweep < SWEEP_INTERVAL then s
    else State(map k | k in s.hits && !Stale(s.hits[k], SweepCutoff(rules, now)) :: s.hits[k], now)
  }

  function HitsOf(s: State, key: string): seq<real> {
    if key in s.hits then s.hits[key] else []
  }

  function RetryAfter(oldest: real, window: int, now: real): int {
    var seconds := Truncate(oldest + window as real - now) + 1;
    if seconds >= 1 then seconds else 1
  }

  function Step(rules: Rules, s: State, key: string, rule: Rule, now: real): (State, Decision)
    requires rule.limit >= 1
  {
    var swept := Sweep(rules, s, now);
    var kept := Prune(HitsOf(swept, key), now - rule.window as real);
    if |kept| >= rule.limit then
      (swept.(hits := swept.hits[key := kept]), Rejected(RetryAfter(kept[0], rule.window, now)))
    else
      (swept.(hits := swept.hits[key := kept + [now]]), Allowed)
  }

  // ----- Runs: any interleaving of calls on any keys -----

  datatype Call = Call(key: string, now: real)

  /** Every key has a rule, and the clock never goes back from one call to the next. */
  ghost predicate ValidRun(rules: Rules, start: real, calls: seq<Call>) {
    && (forall i :: 0 <= i < |calls| ==> Known(rules, calls[i].key) && start <= calls[i].now)
    && (forall i, j :: 0 <= i <= j < |calls| ==> calls[i].now <= calls[j].now)
  }

  function Front(calls: seq<Call>): seq<Call>
    requires calls != []
  {
    calls[..|calls| - 1]
  }

  function Last(calls: seq<Call>): Call
    requires calls != []
  {
    calls[|calls| - 1]
  }

  ghost function StateAfter(rules: Rules, start: real, calls: seq<Call>): State
    requires ValidRules(rules) && ValidRun(rules, start, calls)
  {
    if calls == [] then State(map[], start)
    else
      var call := Last(calls);
      Step(rules, StateAfter(rules, start, Front(calls)), call.key, RuleFor(rules, call.key), call.now).0
  }

  /** The decision on the last call of a run. */
  ghost function DecisionOn(rules: Rules, start: real, calls: seq<Call>): Decision
    requires ValidRules(rules) && calls != [] && ValidRun(rules, start, calls)
  {
    var call := Last(calls);
    Step(rules, StateAfter(rules, start, Front(calls)), call.key, RuleFor(rules, call.key), call.now).1
  }

  /** The times of all calls on a key that were allowed, forever. */
  ghost function Log(rules: Rules, start: real, calls: seq<Call>, key: string): seq<real>
    requires ValidRules(rules) && ValidRun(rules, start, calls)
  {
    if calls == [] then []
    else
      Log(rules, start, Front(calls), key)
      + if Last(calls).key == key && DecisionOn(rules, start, calls) == Allowed then [Last(calls).now] else []
  }

  lemma RunExtends(rules: Rules, start: real, calls: seq<Call>, call: Call)
    requires ValidRules(rules) && ValidRun(rules, start, calls)
    requires Known(rules, call.key) && start <= call.now && (calls != [] ==> Last(calls).now <= call.now)
    ensures Front(calls + [call]) == calls && Last(calls + [call]) == call
    ensures ValidRun(rules, start, calls + [call])
    ensures (StateAfter(rules, start, calls + [call]), DecisionOn(rules, start, calls + [call]))
         == Step(rules, StateAfter(rules, start, calls), call.key, RuleFor(rules, call.key), call.now)
  {
    var all := calls + [call];
    assert Front(all) == calls && Last(all) == call;
    forall i | 0 <= i < |calls| ensures all[i].now <= call.now {
      assert all[i].now <= Last(calls).now;
    }
  }

  // ----- The simple limiter: one key, a full log, no sweep -----

  /** How many times of the log lie in (lo, hi]. */
  function CountIn(log: seq<real>, lo: real, hi: real): nat {
    if log == [] then 0
    else CountIn(log[..|log| - 1], lo, hi) + if lo < log[|log| - 1] <= hi then 1 else 0
  }

  predicate IdealAllows(rule: Rule, log: seq<real>, now: real) {
    CountIn(log, now - rule.window as real, now) < rule.limit
  }

  function IdealLog(rule: Rule, times: seq<real>): seq<real> {
    if times == [] then []
    else
      var log := IdealLog(rule, times[..|times| - 1]);
      var now := times[|times| - 1];
      if IdealAllows(rule, log, now) then log + [now] else log
  }

  /** The times of the calls on one key. */
  function TimesOf(calls: seq<Call>, key: string): seq<real> {
    if calls == [] then []
    else TimesOf(Front(calls), key) + if Last(calls).key == key then [Last(calls).now] else []
  }

  // ----- The program -----

  class SlidingWindowLimiter {
    const rules: Rules
    var hits: map<string, seq<real>>
    var lastSweep: real
    ghost const start: real
    ghost var calls: seq<Call>  // everything that was ever checked, in lock order

    ghost predicate Valid()
      reads this
    {
      && ValidRules(rules) && ValidRun(rules, start, calls)
      && StateAfter(rules, start, calls) == State(hits, lastSweep)
    }

    constructor (rules: Rules, now: real)
      requires ValidRules(rules)
      ensures Valid() && this.rules == rules && calls == []
      ensures start == now
    {
      this.rules := rules;
      hits := map[];
      lastSweep := now;
      start := now;
      calls := [];
    }

    /** Drop the keys whose windows have fully drained, at most every ten minutes. */
    method MaybeSweep(now: real)
      modifies this`hits, this`lastSweep
      ensures State(hits, lastSweep) == Sweep(rules, old(State(hits, lastSweep)), now)
    {
      if now - lastSweep < SWEEP_INTERVAL {
        return;
      }
      lastSweep := now;
      var cutoff := SweepCutoff(rules, now);
      var stale := set k | k in hits && Stale(hits[k], cutoff);
      while stale != {}
        invariant lastSweep == now && stale <= hits.Keys
        invariant forall k :: k in hits && Stale(hits[k], cutoff) ==> k in stale
        invariant forall k :: k in stale ==> Stale(hits[k], cutoff)
        invariant forall k :: k in hits ==> k in old(hits) && hits[k] == old(hits)[k]
        invariant forall k :: k in old(hits) && !Stale(old(hits)[k], cutoff) ==> k in hits
      {
        var key := Choose(stale);
        hits := hits - {key};
        stale := stale - {key};
      }
      assert hits == Sweep(rules, old(State(hits, lastSweep)), now).hits;
    }

    /** Record an attempt. The caller's clock reading is not before the previous call's. */
    method Check(key: string, rule: Rule, now: real) returns (allowed: bool, retryAfter: int)
      requires Valid() && Known(rules, key) && rule == RuleFor(rules, key)
      requires start <= now && (calls != [] ==> Last(calls).now <= now)
      modifies this
      ensures Valid() && calls == old(calls) + [Call(key, now)]
      ensures (if allowed then Allowed else Rejected(retryAfter)) == DecisionOn(rules, start, calls)
      ensures allowed ==> retryAfter == 0
    {
      RunExtends(rules, start, calls, Call(key, now));
      calls := calls + [Call(key, now)];
      allowed, retryAfter := Record(key, rule, now);
    }

    /** The step under the lock. */
    method Record(key: string, rule: Rule, now: real) returns (allowed: bool, retryAfter: int)
      requires rule.limit >= 1
      modifies this`hits, this`lastSweep
      ensures (State(hits, lastSweep), if allowed then Allowed else Rejected(retryAfter))
           == Step(rules, old(State(hits, lastSweep)), key, rule, now)
      ensures allowed ==> retryAfter == 0
    {
      var cutoff := now - rule.window as real;
      MaybeSweep(now);
      ghost var swept := State(hits, lastSweep);
      if key !in hits {
        hits := hits[key := []];
      }
      while hits[key] != [] && hits[key][0] <= cutoff
        invariant key in hits && lastSweep == swept.lastSweep
        invariant hits == swept.hits[key := hits[key]]
        invariant Prune(hits[key], cutoff) == Prune(HitsOf(swept, key), cutoff)
        decreases |hits[key]|
      {
        hits := hits[key := hits[key][1..]];
      }
      if |hits[key]| >= rule.limit {
        retryAfter := Truncate(hits[key][0] + rule.window as real - now) + 1;
        return false, if retryAfter >= 1 then retryAfter else 1;
      }
      ghost var kept := hits[key];
      hits := hits[key := hits[key] + [now]];
      assert hits == swept.hits[key := kept + [now]];
      return true, 0;
    }

    /** Count one attempt against a bucket. `Some(r)`: refused, with `Retry-After: r`. */
    method Enforce(enabled: bool, bucket: string, identifier: string, now: real) returns (refusal: Option<int>)
      requires Valid() && start <= now && (calls != [] ==> Last(calls).now <= now)
      modifies this
      ensures Valid()
      ensures if enabled && bucket in rules
              then && calls == old(calls) + [Call(KeyOf(bucket, identifier), now)]
                   && DecisionOn(rules, start, calls)
                      == (match refusal case None => Allowed case Some(r) => Rejected(r))
              else calls == old(calls) && refusal == None
    {
      if !enabled || bucket !in rules {
        return None;
      }
      BucketOfKey(bucket, identifier);
      var allowed, retryAfter := Check(KeyOf(bucket, identifier), rules[bucket], now);
      return if allowed then None else Some(retryAfter);
    }
  }
}
