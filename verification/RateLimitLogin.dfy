/**
 The two counters of a sign-in attempt (app/routers/auth.py, `login`): first one per client
 address, then one per account address. Whether the first keeps a single client from using
 up the second is a matter of the two rules, and is decided here for every pair of rules.
*/
module RateLimitLogin {
  import opened RateLimit
  import opened RateLimitLaws

  /** An attempt reads the clock twice, once at each counter it gets to. */
  datatype Attempt = Attempt(ip: string, email: string, first: real, second: real)

  function IpKey(ip: string): string { KeyOf("login_ip", ip) }

  function EmailKey(email: string): string { KeyOf("login_email", email) }

  ghost predicate LoginRules(rules: Rules) {
    ValidRules(rules) && "login_ip" in rules && "login_email" in rules
  }

  lemma IpKeyKnown(rules: Rules, ip: string)
    requires LoginRules(rules)
    ensures Known(rules, IpKey(ip)) && RuleFor(rules, IpKey(ip)) == rules["login_ip"]
  {
    BucketOfKey("login_ip", ip);
  }

  lemma EmailKeyKnown(rules: Rules, email: string)
    requires LoginRules(rules)
    ensures Known(rules, EmailKey(email)) && RuleFor(rules, EmailKey(email)) == rules["login_email"]
  {
    BucketOfKey("login_email", email);
  }

  lemma LoginKeys(rules: Rules, ip: string, email: string)
    requires LoginRules(rules)
    ensures Known(rules, IpKey(ip)) && RuleFor(rules, IpKey(ip)) == rules["login_ip"]
    ensures Known(rules, EmailKey(email)) && RuleFor(rules, EmailKey(email)) == rules["login_email"]
    ensures IpKey(ip) != EmailKey(email)
  {
    IpKeyKnown(rules, ip);
    EmailKeyKnown(rules, email);
    BucketOfKey("login_ip", ip);
    BucketOfKey("login_email", email);
  }

  /** Attempts come one after the other. */
  ghost predicate InTurn(start: real, attempts: seq<Attempt>) {
    attempts != [] ==>
      var front, last := attempts[..|attempts| - 1], attempts[|attempts| - 1];
      InTurn(start, front) && Latest(start, front) <= last.first <= last.second
  }

  function Latest(start: real, attempts: seq<Attempt>): real {
    if attempts == [] then start else attempts[|attempts| - 1].second
  }

  /** The calls an attempt makes: the second only if the first was allowed. */
  ghost function WithAttempt(rules: Rules, start: real, calls: seq<Call>, a: Attempt): (r: seq<Call>)
    requires LoginRules(rules) && ValidRun(rules, start, calls) && Clock(start, calls) <= a.first <= a.second
    ensures ValidRun(rules, start, r) && Clock(start, r) <= a.second
  {
    LoginKeys(rules, a.ip, a.email);
    StartBeforeClock(rules, start, calls);
    var one := calls + [Call(IpKey(a.ip), a.first)];
    RunExtends(rules, start, calls, Call(IpKey(a.ip), a.first));
    if DecisionOn(rules, start, one) != Allowed then one
    else
      RunExtends(rules, start, one, Call(EmailKey(a.email), a.second));
      one + [Call(EmailKey(a.email), a.second)]
  }

  lemma StartBeforeClock(rules: Rules, start: real, calls: seq<Call>)
    requires ValidRun(rules, start, calls)
    ensures start <= Clock(start, calls)
  {}

  /** All calls of a run of attempts. */
  ghost function LoginCalls(rules: Rules, start: real, attempts: seq<Attempt>): (r: seq<Call>)
    requires LoginRules(rules) && InTurn(start, attempts)
    ensures ValidRun(rules, start, r) && Clock(start, r) <= Latest(start, attempts)
  {
    if attempts == [] then []
    else
      WithAttempt(rules, start, LoginCalls(rules, start, attempts[..|attempts| - 1]), attempts[|attempts| - 1])
  }

  // ----- What one attempt adds to the two logs -----

  lemma NextDecision(rules: Rules, start: real, calls: seq<Call>, call: Call)
    requires ValidRules(rules) && ValidRun(rules, start, calls)
    requires Known(rules, call.key) && Clock(start, calls) <= call.now
    ensures ValidRun(rules, start, calls + [call])
    ensures DecisionOn(rules, start, calls + [call]) == Allowed
       <==> IdealAllows(RuleFor(rules, call.key), Log(rules, start, calls, call.key), call.now)
  {
    StartBeforeClock(rules, start, calls);
    RunExtends(rules, start, calls, call);
    DecisionMatchesLog(rules, start, calls + [call]);
  }

  lemma LogExtends(rules: Rules, start: real, calls: seq<Call>, call: Call, key: string)
    requires ValidRules(rules) && ValidRun(rules, start, calls)
    requires Known(rules, call.key) && Clock(start, calls) <= call.now
    ensures ValidRun(rules, start, calls + [call])
    ensures var log := Log(rules, start, calls, key);
            Log(rules, start, calls + [call], key)
            == if call.key == key && IdealAllows(RuleFor(rules, key), log, call.now) then log + [call.now] else log
  {
    NextDecision(rules, start, calls, call);
    StartBeforeClock(rules, start, calls);
    RunExtends(rules, start, calls, call);
    var log := Log(rules, start, calls, key);
    assert log + [] == log;
  }

  ghost predicate LetThrough(rules: Rules, start: real, calls: seq<Call>, a: Attempt)
    requires LoginRules(rules) && ValidRun(rules, start, calls)
  {
    IdealAllows(rules["login_ip"], Log(rules, start, calls, IpKey(a.ip)), a.first)
  }

  ghost predicate Counted(rules: Rules, start: real, calls: seq<Call>, a: Attempt)
    requires LoginRules(rules) && ValidRun(rules, start, calls)
  {
    && LetThrough(rules, start, calls, a)
    && IdealAllows(rules["login_email"], Log(rules, start, calls, EmailKey(a.email)), a.second)
  }

  /** Both logs after one more attempt. */
  lemma AttemptLogs(rules: Rules, start: real, calls: seq<Call>, a: Attempt, ip: string, email: string)
    requires LoginRules(rules) && ValidRun(rules, start, calls) && Clock(start, calls) <= a.first <= a.second
    ensures var after := WithAttempt(rules, start, calls, a);
            var byIp, byEmail := Log(rules, start, calls, IpKey(ip)), Log(rules, start, calls, EmailKey(email));
            && Log(rules, start, after, IpKey(ip))
               == (if a.ip == ip && LetThrough(rules, start, calls, a) then byIp + [a.first] else byIp)
            && Log(rules, start, after, EmailKey(email))
               == (if a.email == email && Counted(rules, start, calls, a) then byEmail + [a.second] else byEmail)
  {
    SameKeySameName(rules, a, ip, email);
    AttemptOnKey(rules, start, calls, a, IpKey(ip));
    AttemptOnKey(rules, start, calls, a, EmailKey(email));
  }

  lemma AttemptOnKey(rules: Rules, start: real, calls: seq<Call>, a: Attempt, key: string)
    requires LoginRules(rules) && ValidRun(rules, start, calls) && Clock(start, calls) <= a.first <= a.second
    ensures var after, log := WithAttempt(rules, start, calls, a), Log(rules, start, calls, key);
            Log(rules, start, after, key)
            == if key == IpKey(a.ip) && LetThrough(rules, start, calls, a) then log + [a.first]
               else if key == EmailKey(a.email) && Counted(rules, start, calls, a) then log + [a.second]
               else log
  {
    var one, two := Call(IpKey(a.ip), a.first), Call(EmailKey(a.email), a.second);
    LoginKeys(rules, a.ip, a.email);
    NextDecision(rules, start, calls, one);
    LogExtends(rules, start, calls, one, key);
    if LetThrough(rules, start, calls, a) {
      LogExtends(rules, start, calls, one, EmailKey(a.email));
      LogExtends(rules, start, calls + [one], two, key);
    }
  }

  lemma SameKeySameName(rules: Rules, a: Attempt, ip: string, email: string)
    requires LoginRules(rules)
    ensures IpKey(a.ip) == IpKey(ip) <==> a.ip == ip
    ensures EmailKey(a.email) == EmailKey(email) <==> a.email == email
    ensures IpKey(a.ip) != EmailKey(email) && IpKey(ip) != EmailKey(a.email)
  {
    LoginKeys(rules, a.ip, email);
    LoginKeys(rules, ip, a.email);
    if IpKey(a.ip) == IpKey(ip) { KeysDistinct(rules, "login_ip", a.ip, "login_ip", ip); }
    if EmailKey(a.email) == EmailKey(email) { KeysDistinct(rules, "login_email", a.email, "login_email", email); }
  }

  // ----- What one client can use up -----

  /** All attempts on this address come from this client; the client may try others too. */
  ghost predicate OnlyFrom(attempts: seq<Attempt>, email: string, ip: string) {
    forall i :: 0 <= i < |attempts| && attempts[i].email == email ==> attempts[i].ip == ip
  }

  /** How many attempts the address has had counted never exceeds what its only client has had
      counted by more than the one attempt that straddles the lower end. */
  lemma {:induction false} Shadowed(rules: Rules, start: real, attempts: seq<Attempt>, ip: string, email: string,
                                    lo: real, hi: real)
    requires LoginRules(rules) && InTurn(start, attempts) && OnlyFrom(attempts, email, ip)
    ensures var calls := LoginCalls(rules, start, attempts);
            CountIn(Log(rules, start, calls, EmailKey(email)), lo, hi)
            <= CountIn(Log(rules, start, calls, IpKey(ip)), lo, hi) + 1
    decreases |attempts|
  {
    if attempts != [] {
      var front, a := attempts[..|attempts| - 1], attempts[|attempts| - 1];
      var calls := LoginCalls(rules, start, front);
      Shadowed(rules, start, front, ip, email, lo, hi);
      AttemptLogs(rules, start, calls, a, ip, email);
      LogBeforeClock(rules, start, calls, email);
      ShadowStep(Log(rules, start, calls, IpKey(ip)), Log(rules, start, calls, EmailKey(email)), a.first, a.second, lo, hi);
    }
  }

  lemma LogBeforeClock(rules: Rules, start: real, calls: seq<Call>, email: string)
    requires LoginRules(rules) && ValidRun(rules, start, calls)
    ensures var log := Log(rules, start, calls, EmailKey(email));
            forall i :: 0 <= i < |log| ==> log[i] <= Clock(start, calls)
  {
    EmailKeyKnown(rules, email);
    RunLinked(rules, start, calls, EmailKey(email));
  }

  lemma ShadowStep(byIp: seq<real>, byEmail: seq<real>, first: real, second: real, lo: real, hi: real)
    requires CountIn(byEmail, lo, hi) <= CountIn(byIp, lo, hi) + 1 && first <= second
    requires forall i :: 0 <= i < |byEmail| ==> byEmail[i] <= first
    ensures CountIn(byEmail, lo, hi) <= CountIn(byIp + [first], lo, hi) + 1
    ensures CountIn(byEmail + [second], lo, hi) <= CountIn(byIp + [first], lo, hi) + 1
  {
    assert (byIp + [first])[..|byIp|] == byIp && (byEmail + [second])[..|byEmail|] == byEmail;
    if first <= lo { CountNone(byEmail, lo, hi); }
  }

  /** The most attempts on one address that one client can have counted within its window: one,
      and a full limit for every window of the client's counter that this window reaches into. */
  function ShareOf(limit: int, window: int, reach: int): int
    requires window >= 1
  {
    if reach <= 0 then 1 else limit + ShareOf(limit, window, reach - window)
  }

  function Share(ip: Rule, email: Rule): int
    requires ip.window >= 1
  {
    ShareOf(ip.limit, ip.window, email.window)
  }

  lemma {:induction false} ShareUnrolled(limit: int, window: int, reach: int) returns (c: int)
    requires window >= 1
    ensures c >= 0
    ensures ShareOf(limit, window, reach) == limit * c + 1
    ensures reach <= window * c && (reach <= 0 ==> c == 0) && (reach >= 1 ==> c >= 1 && window * (c - 1) < reach)
    decreases reach
  {
    if reach <= 0 {
      c := 0;
    } else {
      var d := ShareUnrolled(limit, window, reach - window);
      c := d + 1;
      assert limit * c == limit * d + limit && window * c == window * d + window;
      assert window * d == window * (d - 1) + window && window * (c - 1) == window * d;
      if reach <= window { assert d == 0; }
    }
  }

  lemma CeilUnique(T: int, window: int, c: nat)
    requires T >= 1 && window >= 1 && c >= 1 && window * (c - 1) < T <= window * c
    ensures Ceil(T as real / window as real) == c
  {
    var d := CeilIsTight(T, window);
    CastProduct(window, c);
    CastProduct(window, d);
    if d < c { TimesMonotone(window, d, c - 1); }
    if c < d { TimesMonotone(window, c, d - 1); }
  }

  /** The share in one formula. */
  lemma ShareFormula(ip: Rule, email: Rule)
    requires ip.window >= 1 && email.window >= 1
    ensures Share(ip, email) == ip.limit * Ceil(email.window as real / ip.window as real) + 1
  {
    var c := ShareUnrolled(ip.limit, ip.window, email.window);
    CeilUnique(email.window, ip.window, c);
  }

  /** What the client's own counter lets through within a window of the address counter. */
  lemma IpBound(rules: Rules, start: real, calls: seq<Call>, ip: string, lo: real, hi: real)
    requires LoginRules(rules) && ValidRun(rules, start, calls)
    requires lo + rules["login_email"].window as real == hi
    ensures CountIn(Log(rules, start, calls, IpKey(ip)), lo, hi) <= Share(rules["login_ip"], rules["login_email"]) - 1
  {
    ShareFormula(rules["login_ip"], rules["login_email"]);
    IpKeyKnown(rules, ip);
    RateBound(rules, start, calls, IpKey(ip), lo, rules["login_email"].window as real);
  }

  /** The address counter allows a call made at `t` after these calls. */
  ghost predicate Admits(rules: Rules, start: real, calls: seq<Call>, email: string, t: real)
    requires LoginRules(rules) && ValidRun(rules, start, calls) && Clock(start, calls) <= t
  {
    EmailKeyKnown(rules, email);
    NextDecision(rules, start, calls, Call(EmailKey(email), t));
    DecisionOn(rules, start, calls + [Call(EmailKey(email), t)]) == Allowed
  }

  lemma AdmitsIff(rules: Rules, start: real, calls: seq<Call>, email: string, t: real)
    requires LoginRules(rules) && ValidRun(rules, start, calls) && Clock(start, calls) <= t
    ensures Admits(rules, start, calls, email, t)
       <==> IdealAllows(rules["login_email"], Log(rules, start, calls, EmailKey(email)), t)
  {
    EmailKeyKnown(rules, email);
    NextDecision(rules, start, calls, Call(EmailKey(email), t));
  }

  lemma LoginAdmitsIff(rules: Rules, start: real, attempts: seq<Attempt>, email: string, t: real)
    requires LoginRules(rules) && InTurn(start, attempts) && Latest(start, attempts) <= t
    ensures Admits(rules, start, LoginCalls(rules, start, attempts), email, t)
       <==> IdealAllows(rules["login_email"], Log(rules, start, LoginCalls(rules, start, attempts), EmailKey(email)), t)
  {
    AdmitsIff(rules, start, LoginCalls(rules, start, attempts), email, t);
  }

  // ----- A run that uses it up -----

  function Firsts(attempts: seq<Attempt>): seq<real> {
    seq(|attempts|, i requires 0 <= i < |attempts| => attempts[i].first)
  }

  /** Attempts of one client on one address that its own counter lets through, all within the
      window of the address counter that ends at `end`. */
  ghost predicate Passes(byIp: Rule, byEmail: Rule, attempts: seq<Attempt>, ip: string, email: string, end: real) {
    attempts != [] ==>
      var front, last := attempts[..|attempts| - 1], attempts[|attempts| - 1];
      && Passes(byIp, byEmail, front, ip, email, end)
      && last.ip == ip && last.email == email
      && IdealAllows(byIp, Firsts(front), last.first)
      && end - byEmail.window as real < last.second <= end
  }

  /** What the counters then hold: every attempt, or as many as the address counter takes. */
  ghost predicate Held(byEmail: Rule, attempts: seq<Attempt>, ipLog: seq<real>, emailLog: seq<real>, end: real) {
    && ipLog == Firsts(attempts)
    && (forall i :: 0 <= i < |emailLog| ==> end - byEmail.window as real < emailLog[i] <= end)
    && (|emailLog| >= byEmail.limit || |emailLog| >= |attempts|)
  }

  lemma HeldNext(byIp: Rule, byEmail: Rule, attempts: seq<Attempt>, ip: string, email: string,
                 ipLog: seq<real>, emailLog: seq<real>, end: real)
    requires attempts != [] && Passes(byIp, byEmail, attempts, ip, email, end)
    requires Held(byEmail, attempts[..|attempts| - 1], ipLog, emailLog, end)
    ensures var a := attempts[|attempts| - 1];
            && IdealAllows(byIp, ipLog, a.first)
            && Held(byEmail, attempts, ipLog + [a.first],
                    if IdealAllows(byEmail, emailLog, a.second) then emailLog + [a.second] else emailLog, end)
  {
    var a := attempts[|attempts| - 1];
    assert Firsts(attempts) == Firsts(attempts[..|attempts| - 1]) + [a.first];
    CountAtMost(emailLog, 0, a.second - byEmail.window as real, a.second);
  }

  lemma {:induction false} PassedAttempts(rules: Rules, start: real, attempts: seq<Attempt>, ip: string, email: string,
                                          end: real)
    requires LoginRules(rules) && InTurn(start, attempts)
    requires Passes(rules["login_ip"], rules["login_email"], attempts, ip, email, end)
    ensures var calls := LoginCalls(rules, start, attempts);
            Held(rules["login_email"], attempts, Log(rules, start, calls, IpKey(ip)),
                 Log(rules, start, calls, EmailKey(email)), end)
    decreases |attempts|
  {
    if attempts != [] {
      var front, a := attempts[..|attempts| - 1], attempts[|attempts| - 1];
      PassedAttempts(rules, start, front, ip, email, end);
      var calls := LoginCalls(rules, start, front);
      AttemptLogs(rules, start, calls, a, ip, email);
      HeldNext(rules["login_ip"], rules["login_email"], attempts, ip, email, Log(rules, start, calls, IpKey(ip)),
               Log(rules, start, calls, EmailKey(email)), end);
    }
  }

  lemma HeldIsFull(byEmail: Rule, attempts: seq<Attempt>, ipLog: seq<real>, emailLog: seq<real>, end: real)
    requires Held(byEmail, attempts, ipLog, emailLog, end) && |attempts| >= byEmail.limit
    ensures !IdealAllows(byEmail, emailLog, end)
  {
    CountAll(emailLog, end - byEmail.window as real, end);
  }

  /** The first attempt straddles its window; the others come in full batches, one a window. */
  function Batch(limit: int, i: nat): int
    requires limit >= 1
  {
    (i + limit - 1) / limit
  }

  lemma BatchBounds(limit: int, i: nat)
    requires limit >= 1
    ensures var b := Batch(limit, i);
            && limit * (b - 1) < i <= limit * b && b >= 0 && (b == 0 <==> i == 0)
  {
    var b := Batch(limit, i);
    assert i + limit - 1 == limit * b + (i + limit - 1) % limit;
    assert limit * (b - 1) == limit * b - limit;
    NonNegative(limit, b);
  }

  lemma NonNegative(limit: int, b: int)
    requires limit >= 1 && limit * b >= 0
    ensures b >= 0
  {}

  lemma BatchAtMost(limit: int, i: nat, b: int)
    requires limit >= 1 && i <= limit * b
    ensures Batch(limit, i) <= b
  {
    BatchBounds(limit, i);
    assert limit * (b - (Batch(limit, i) - 1)) == limit * b - limit * (Batch(limit, i) - 1);
    NonNegative(limit, b - (Batch(limit, i) - 1));
  }

  lemma TimesMonotone(window: int, a: int, b: int)
    requires window >= 1 && a <= b
    ensures window * a <= window * b
  {
    assert window * b == window * a + window * (b - a);
  }

  /** A later batch comes at least a window later. */
  lemma TimesApart(window: int, a: int, b: int)
    requires window >= 1 && a < b
    ensures window * a <= window * b - window
  {
    TimesMonotone(window, a, b - 1);
    assert window * b == window * (b - 1) + window;
  }

  function FirstAt(rule: Rule, i: nat): real
    requires rule.limit >= 1
  {
    (rule.window * Batch(rule.limit, i)) as real
  }

  function SecondAt(rule: Rule, i: nat): real
    requires rule.limit >= 1
  {
    (rule.window * if i == 0 then 1 else Batch(rule.limit, i)) as real
  }

  function Crowd(rule: Rule, ip: string, email: string, n: nat): seq<Attempt>
    requires rule.limit >= 1
  {
    seq(n, i requires 0 <= i < n => Attempt(ip, email, FirstAt(rule, i), SecondAt(rule, i)))
  }

  lemma CrowdLatest(rule: Rule, i: nat)
    requires rule.limit >= 1 && rule.window >= 1
    ensures 0.0 <= FirstAt(rule, i) <= SecondAt(rule, i) <= FirstAt(rule, i + 1)
  {
    var b := Batch(rule.limit, i);
    BatchBounds(rule.limit, i);
    BatchBounds(rule.limit, i + 1);
    BatchAtMost(rule.limit, i, Batch(rule.limit, i + 1));
    TimesMonotone(rule.window, 0, b);
    TimesMonotone(rule.window, b, if i == 0 then 1 else b);
    TimesMonotone(rule.window, if i == 0 then 1 else b, Batch(rule.limit, i + 1));
  }

  lemma {:induction false} CrowdInTurn(rule: Rule, ip: string, email: string, n: nat)
    requires rule.limit >= 1 && rule.window >= 1
    ensures InTurn(0.0, Crowd(rule, ip, email, n))
  {
    if n > 0 {
      CrowdInTurn(rule, ip, email, n - 1);
      CrowdLatest(rule, n - 1);
      if n > 1 { CrowdLatest(rule, n - 2); }
      assert Crowd(rule, ip, email, n)[..n - 1] == Crowd(rule, ip, email, n - 1);
    }
  }

  /** The client's counter lets the next of the crowd through. */
  lemma CrowdAllowed(rule: Rule, log: seq<real>)
    requires rule.limit >= 1 && rule.window >= 1 && forall i :: 0 <= i < |log| ==> log[i] == FirstAt(rule, i)
    ensures IdealAllows(rule, log, FirstAt(rule, |log|))
  {
    var n, b, now := |log|, Batch(rule.limit, |log|), FirstAt(rule, |log|);
    BatchBounds(rule.limit, n);
    if n > 0 {
      var k := rule.limit * (b - 1) + 1;
      TimesMonotone(rule.limit, 0, b - 1);
      forall i | 0 <= i < k ensures FirstAt(rule, i) <= now - rule.window as real {
        BatchAtMost(rule.limit, i, b - 1);
        TimesApart(rule.window, Batch(rule.limit, i), b);
      }
      CountAtMost(log, k, now - rule.window as real, now);
      assert rule.limit * b == rule.limit * (b - 1) + rule.limit;
    }
  }

  lemma CrowdTimes(rule: Rule, other: Rule, i: nat, c: nat)
    requires rule.limit >= 1 && rule.window >= 1 && i <= rule.limit * c
    requires c >= 1 && rule.window * (c - 1) < other.window
    ensures var end := (rule.window * c) as real;
            end - other.window as real < SecondAt(rule, i) <= end
  {
    var b := if i == 0 then 1 else Batch(rule.limit, i);
    BatchBounds(rule.limit, i);
    BatchAtMost(rule.limit, i, c);
    TimesMonotone(rule.window, 1, b);
    TimesMonotone(rule.window, b, c);
    assert rule.window * c == rule.window * (c - 1) + rule.window;
  }

  lemma {:induction false} CrowdPasses(rule: Rule, other: Rule, ip: string, email: string, n: nat, c: nat)
    requires rule.limit >= 1 && rule.window >= 1 && n <= rule.limit * c + 1
    requires c >= 1 && rule.window * (c - 1) < other.window
    ensures Passes(rule, other, Crowd(rule, ip, email, n), ip, email, (rule.window * c) as real)
  {
    if n > 0 {
      var front := Crowd(rule, ip, email, n - 1);
      CrowdPasses(rule, other, ip, email, n - 1, c);
      CrowdAllowed(rule, Firsts(front));
      CrowdTimes(rule, other, n - 1, c);
      assert Crowd(rule, ip, email, n)[..n - 1] == front;
    }
  }

  lemma StrictlyScaled(x: real, y: real, w: real)
    requires x < y && w > 0.0
    ensures x * w < y * w
  {}

  lemma CeilBelow(q: real)
    ensures (Ceil(q) - 1) as real < q
  {}

  lemma CastProduct(a: int, b: int)
    ensures (a * b) as real == a as real * b as real
  {}

  lemma ScaledBack(x: real, q: real, T: real, w: real)
    requires w > 0.0 && q == T / w && x < q
    ensures w * x < T
  {
    assert q * w == T;
    StrictlyScaled(x, q, w);
  }

  lemma CeilIsTight(T: int, window: int) returns (c: nat)
    requires T >= 1 && window >= 1
    ensures c == Ceil(T as real / window as real) && c >= 1
    ensures window * (c - 1) < T && T <= window * c
  {
    var q := T as real / window as real;
    c := CeilCovers(T as real, window);
    assert c >= 1 by { assert window * 0 == 0; }
    CeilBelow(q);
    ScaledBack((c - 1) as real, q, T as real, window as real);
    CastProduct(window, c - 1);
  }

  /** If the share of one client reaches the limit, some run of its attempts fills it. */
  lemma ShareIsReached(rules: Rules, ip: string, email: string) returns (attempts: seq<Attempt>, t: real)
    requires LoginRules(rules) && rules["login_email"].limit <= Share(rules["login_ip"], rules["login_email"])
    ensures InTurn(0.0, attempts) && OnlyFrom(attempts, email, ip) && Latest(0.0, attempts) <= t
    ensures !Admits(rules, 0.0, LoginCalls(rules, 0.0, attempts), email, t)
  {
    attempts, t := FillingCrowd(rules["login_ip"], rules["login_email"], ip, email);
    var calls := LoginCalls(rules, 0.0, attempts);
    PassedAttempts(rules, 0.0, attempts, ip, email, t);
    HeldIsFull(rules["login_email"], attempts, Log(rules, 0.0, calls, IpKey(ip)),
               Log(rules, 0.0, calls, EmailKey(email)), t);
    LoginAdmitsIff(rules, 0.0, attempts, email, t);
  }

  lemma FillingCrowd(byIp: Rule, byEmail: Rule, ip: string, email: string) returns (attempts: seq<Attempt>, t: real)
    requires byIp.limit >= 1 && byIp.window >= 1 && byEmail.window >= 1 && byEmail.limit <= Share(byIp, byEmail)
    ensures InTurn(0.0, attempts) && OnlyFrom(attempts, email, ip) && Latest(0.0, attempts) <= t
    ensures Passes(byIp, byEmail, attempts, ip, email, t) && |attempts| >= byEmail.limit
  {
    var c := ShareUnrolled(byIp.limit, byIp.window, byEmail.window);
    TimesMonotone(byIp.limit, 0, c);
    var n := byIp.limit * c + 1;
    attempts, t := Crowd(byIp, ip, email, n), (byIp.window * c) as real;
    CrowdInTurn(byIp, ip, email, n);
    CrowdPasses(byIp, byEmail, ip, email, n, c);
    assert attempts[n - 1].second <= t;
  }

  /** However a client that alone tries an address goes about it, the address counter allows
      the next call, from wherever that comes. */
  ghost predicate OneClientNeverFills(rules: Rules)
    requires LoginRules(rules)
  {
    forall start, attempts, ip, email, t ::
      InTurn(start, attempts) && OnlyFrom(attempts, email, ip) && Latest(start, attempts) <= t
      ==> Admits(rules, start, LoginCalls(rules, start, attempts), email, t)
  }

  lemma FewCounted(rules: Rules, start: real, attempts: seq<Attempt>, ip: string, email: string, lo: real, hi: real)
    requires LoginRules(rules) && InTurn(start, attempts) && OnlyFrom(attempts, email, ip)
    requires lo + rules["login_email"].window as real == hi
    ensures CountIn(Log(rules, start, LoginCalls(rules, start, attempts), EmailKey(email)), lo, hi)
         <= Share(rules["login_ip"], rules["login_email"])
  {
    Shadowed(rules, start, attempts, ip, email, lo, hi);
    IpBound(rules, start, LoginCalls(rules, start, attempts), ip, lo, hi);
  }

  lemma RoomLeft(rule: Rule, log: seq<real>, lo: real, now: real, share: int)
    requires lo + rule.window as real == now && CountIn(log, lo, now) <= share < rule.limit
    ensures IdealAllows(rule, log, now)
  {}

  lemma WithinShare(rules: Rules, start: real, attempts: seq<Attempt>, ip: string, email: string, t: real)
    requires LoginRules(rules) && Share(rules["login_ip"], rules["login_email"]) < rules["login_email"].limit
    requires InTurn(start, attempts) && OnlyFrom(attempts, email, ip) && Latest(start, attempts) <= t
    ensures IdealAllows(rules["login_email"], Log(rules, start, LoginCalls(rules, start, attempts), EmailKey(email)), t)
  {
    var lo := t - rules["login_email"].window as real;
    FewCounted(rules, start, attempts, ip, email, lo, t);
    RoomLeft(rules["login_email"], Log(rules, start, LoginCalls(rules, start, attempts), EmailKey(email)), lo, t,
             Share(rules["login_ip"], rules["login_email"]));
  }

  /** One client cannot fill an address counter exactly when its share is below the limit. */
  lemma OneClientNeverFillsIff(rules: Rules)
    requires LoginRules(rules)
    ensures OneClientNeverFills(rules) <==> Share(rules["login_ip"], rules["login_email"]) < rules["login_email"].limit
  {
    if Share(rules["login_ip"], rules["login_email"]) < rules["login_email"].limit {
      forall start, attempts, ip, email, t
        | InTurn(start, attempts) && OnlyFrom(attempts, email, ip) && Latest(start, attempts) <= t
        ensures Admits(rules, start, LoginCalls(rules, start, attempts), email, t)
      {
        WithinShare(rules, start, attempts, ip, email, t);
        LoginAdmitsIff(rules, start, attempts, email, t);
      }
    } else {
      var attempts, t := ShareIsReached(rules, "", "");
    }
  }

  lemma ShippedLoginRules()
    ensures LoginRules(RULES)
    ensures RULES["login_ip"] == Rule(10, 900) == RULES["login_email"]
  {
    ShippedRulesAreValid();
  }

  lemma ShippedShare()
    ensures Share(Rule(10, 900), Rule(10, 900)) == 11
  {
    assert ShareOf(10, 900, 0) == 1;
  }

  /** With the shipped rules the share is 11, while the address limit is 10. */
  lemma ShippedRulesLetOneClientFill()
    ensures LoginRules(RULES) && !OneClientNeverFills(RULES)
  {
    ShippedLoginRules();
    ShippedShare();
    OneClientNeverFillsIff(RULES);
  }
}
