/**
 The fixed-window rate limiter (platform/security/rate_limit.py). Times are the store's clock in
 milliseconds. The script is atomic: it increments the counter of the key, and the increment that creates
 the counter also sets its expiry.
 */
module RateLimit {
  import opened Common

  datatype OutageMode = Deny | Allow

  datatype Policy = Policy(capacity: int, windowSeconds: int, mode: OutageMode) {
    predicate Valid() { capacity >= 1 && windowSeconds >= 1 }
  }

  // The constructor of RateLimitPolicy refuses anything else.
  type RateLimitPolicy = p: Policy | p.Valid() witness Policy(1, 1, Deny)

  datatype Decision = Decision(allowed: bool, remaining: int, degraded: bool)

  datatype Counter = Counter(count: nat, expiresAt: int)

  type Counters = map<string, Counter>

  function Milliseconds(p: RateLimitPolicy): nat {
    p.windowSeconds * 1000
  }

  /** A key is expired once the clock is past its expiry. */
  predicate Live(c: Counter, now: int) {
    now <= c.expiresAt
  }

  /** Windows of one key start at least this far apart. */
  function Period(p: RateLimitPolicy): nat {
    Milliseconds(p) + 1
  }

  /** FIXED_WINDOW_SCRIPT: the counter of the key after the script has run. */
  function Hit(counters: Counters, key: string, now: int, window: nat): Counter {
    if key in counters && Live(counters[key], now) then counters[key].(count := counters[key].count + 1)
    else Counter(1, now + window)
  }

  // An outage surfaces as an exception, either before the script ran or after it, when the reply was lost.
  datatype Reply = Answered | Unreachable | ReplyLost

  function Decide(count: nat, p: RateLimitPolicy, reply: Reply): Decision {
    if reply != Answered then Decision(p.mode == Allow, 0, true)
    else Decision(count <= p.capacity, if p.capacity >= count then p.capacity - count else 0, false)
  }

  datatype Request = Request(key: string, policy: RateLimitPolicy, now: int, reply: Reply)

  function After(counters: Counters, q: Request): Counters {
    if q.reply == Unreachable then counters
    else counters[q.key := Hit(counters, q.key, q.now, Milliseconds(q.policy))]
  }

  function Decided(counters: Counters, q: Request): Decision {
    Decide(Hit(counters, q.key, q.now, Milliseconds(q.policy)).count, q.policy, q.reply)
  }

  datatype CheckError = BlankKey

  class RedisRateLimiter {
    var counters: Counters

    constructor ()
      ensures counters == map[]
    {
      counters := map[];
    }

    method Check(key: string, policy: RateLimitPolicy, now: int, reply: Reply) returns (r: Result<Decision, CheckError>)
      modifies this
      ensures r == Failure(BlankKey) <==> Blank(key)
      ensures r.Failure? ==> counters == old(counters)
      ensures r.Success? ==>
        var q := Request(key, policy, now, reply);
        r.value == Decided(old(counters), q) && counters == After(old(counters), q)
    {
      if Blank(key) { return Failure(BlankKey); }
      if reply == Unreachable { return Success(Decision(policy.mode == Allow, 0, true)); }
      var window := policy.windowSeconds * 1000;
      var count := 1;
      if key in counters && now <= counters[key].expiresAt {
        count := counters[key].count + 1;
        counters := counters[key := Counter(count, counters[key].expiresAt)];
      } else {
        counters := counters[key := Counter(1, now + window)];
      }
      if reply == ReplyLost { return Success(Decision(policy.mode == Allow, 0, true)); }
      var remaining := if policy.capacity >= count then policy.capacity - count else 0;
      r := Success(Decision(count <= policy.capacity, remaining, false));
    }
  }

  // ----- runs -----

  function Run(requests: seq<Request>): Counters {
    if requests == [] then map[] else After(Run(requests[..|requests| - 1]), requests[|requests| - 1])
  }

  function Decisions(requests: seq<Request>): (r: seq<Decision>)
    ensures |r| == |requests|
  {
    if requests == [] then []
    else Decisions(requests[..|requests| - 1]) + [Decided(Run(requests[..|requests| - 1]), requests[|requests| - 1])]
  }

  /** How many requests for the key were allowed at times from `a` to `b`, both included. */
  function Allowed(requests: seq<Request>, key: string, a: int, b: int): nat {
    if requests == [] then 0
    else
      var n := |requests| - 1;
      var q := requests[n];
      Allowed(requests[..n], key, a, b)
      + if q.key == key && a <= q.now <= b && Decided(Run(requests[..n]), q).allowed then 1 else 0
  }

  /** How many of these were allowed by the counter. */
  function Counted(requests: seq<Request>, key: string, a: int, b: int): nat {
    if requests == [] then 0
    else
      var n := |requests| - 1;
      var q := requests[n];
      Counted(requests[..n], key, a, b)
      + if q.key == key && a <= q.now <= b && q.reply == Answered && Decided(Run(requests[..n]), q).allowed
        then 1 else 0
  }

  /** How many of them the policy let through because the store was out. */
  function Waved(requests: seq<Request>, key: string, a: int, b: int): nat {
    if requests == [] then 0
    else
      var n := |requests| - 1;
      var q := requests[n];
      Waved(requests[..n], key, a, b)
      + if q.key == key && a <= q.now <= b && q.reply != Answered && q.policy.mode == Allow then 1 else 0
  }

  /** Every allowed request is allowed in exactly one of the two ways, and under DENY only by the counter. */
  lemma {:induction false} AllowedIsCountedOrWaved(requests: seq<Request>, key: string, p: RateLimitPolicy,
                                                  a: int, b: int)
    requires Uses(requests, key, p)
    ensures Allowed(requests, key, a, b) == Counted(requests, key, a, b) + Waved(requests, key, a, b)
    ensures p.mode == Deny ==> Waved(requests, key, a, b) == 0
  {
    if requests != [] { AllowedIsCountedOrWaved(requests[..|requests| - 1], key, p, a, b); }
  }

  ghost predicate InOrder(requests: seq<Request>) {
    forall i, j :: 0 <= i < j < |requests| ==> requests[i].now <= requests[j].now
  }

  /** The key is always checked under this policy; other keys may use any. */
  ghost predicate Uses(requests: seq<Request>, key: string, p: RateLimitPolicy) {
    forall i :: 0 <= i < |requests| && requests[i].key == key ==> requests[i].policy == p
  }

  /** A counter was created by a request no later than the last one. */
  lemma {:induction false} WindowsStartInThePast(requests: seq<Request>, key: string, p: RateLimitPolicy, last: int)
    requires InOrder(requests) && Uses(requests, key, p) && key in Run(requests)
    requires forall i :: 0 <= i < |requests| ==> requests[i].now <= last
    ensures Run(requests)[key].expiresAt <= last + Milliseconds(p)
    ensures Run(requests)[key].count >= 1
  {
    var n := |requests| - 1;
    if key in Run(requests[..n]) { WindowsStartInThePast(requests[..n], key, p, last); }
  }

  // ----- the window is fixed -----

  /** The request ran the script for the key. */
  predicate Reached(q: Request, key: string) {
    q.key == key && q.reply != Unreachable
  }

  /** How many of the requests ran the script for the key. */
  function Hits(requests: seq<Request>, key: string): nat {
    if requests == [] then 0
    else Hits(requests[..|requests| - 1], key) + if Reached(requests[|requests| - 1], key) then 1 else 0
  }

  /** A hit on a key in force counts one and leaves the end of its window where it is. */
  lemma HitsDoNotProlongWindows(requests: seq<Request>, q: Request)
    requires q.key in Run(requests) && q.now <= Run(requests)[q.key].expiresAt
    ensures var before, after := Run(requests)[q.key], Run(requests + [q]);
      && q.key in after && after[q.key].expiresAt == before.expiresAt
      && after[q.key].count == before.count + (if q.reply == Unreachable then 0 else 1)
  {
    assert (requests + [q])[..|requests|] == requests;
  }

  /** The window in force was opened by request i, when none was in force. */
  ghost predicate OpenedBy(requests: seq<Request>, key: string, i: nat)
    requires i < |requests|
  {
    && Reached(requests[i], key)
    && (key in Run(requests[..i]) ==> requests[i].now > Run(requests[..i])[key].expiresAt)
  }

  /**
   A counter was opened by one request, ends exactly one window of that request's policy after it, and counts
   exactly the requests for the key from that one on that reached the store, all of them within the window.
   */
  lemma {:induction false} WindowsAreFixed(requests: seq<Request>, key: string) returns (i: nat)
    requires key in Run(requests)
    ensures i < |requests| && OpenedBy(requests, key, i)
    ensures Run(requests)[key].expiresAt == requests[i].now + requests[i].policy.windowSeconds * 1000
    ensures Run(requests)[key].count == Hits(requests[i..], key)
    ensures forall j :: i <= j < |requests| && Reached(requests[j], key) ==>
      requests[j].now <= Run(requests)[key].expiresAt
  {
    var n := |requests| - 1;
    var front, q := requests[..n], requests[n];
    if !Reached(q, key) || (key in Run(front) && q.now <= Run(front)[key].expiresAt) {
      i := WindowsAreFixed(front, key);
      assert requests[..i] == front[..i];
      assert requests[i..][..|requests[i..]| - 1] == front[i..];
    } else {
      i := n;
      assert requests[n..] == [q] && Hits([q], key) == 1 by { assert [q][..0] == []; }
    }
  }

  /**
   Decisions told by counting. An answered request is allowed exactly if, itself included, no more requests for
   the key than the capacity have reached the store since the window was opened, or if it opens one.
   */
  lemma DecisionsCountTheWindow(requests: seq<Request>, q: Request) returns (i: nat)
    requires q.reply == Answered
    ensures q.key in Run(requests) && q.now <= Run(requests)[q.key].expiresAt ==>
      && i < |requests| && OpenedBy(requests, q.key, i)
      && Run(requests)[q.key].expiresAt == requests[i].now + requests[i].policy.windowSeconds * 1000
      && (Decided(Run(requests), q).allowed <==> Hits(requests[i..], q.key) + 1 <= q.policy.capacity)
    ensures !(q.key in Run(requests) && q.now <= Run(requests)[q.key].expiresAt) ==> Decided(Run(requests), q).allowed
  {
    i := 0;
    if q.key in Run(requests) { i := WindowsAreFixed(requests, q.key); }
  }

  /** What a decision says besides: what is left, and whether it is a guess. */
  lemma DecisionsInFull(count: nat, p: RateLimitPolicy, reply: Reply)
    ensures var d := Decide(count, p, reply);
      && d.degraded == (reply != Answered)
      && (reply != Answered ==> d.remaining == 0 && d.allowed == (p.mode == Allow))
      && (reply == Answered && d.allowed ==> d.remaining + count == p.capacity)
      && (reply == Answered && !d.allowed ==> d.remaining == 0 && count > p.capacity)
  {
  }

  // ----- counting windows -----

  /** x + .. + x, n times: products are kept out of the counting argument. */
  function Times(n: nat, x: nat): nat {
    if n == 0 then 0 else Times(n - 1, x) + x
  }

  lemma {:induction false} TimesIsProduct(n: nat, x: nat)
    ensures Times(n, x) == n * x
  {
    if n > 0 {
      TimesIsProduct(n - 1, x);
      assert (n - 1) * x + x == n * x;
    }
  }

  lemma {:induction false} TimesMonotone(i: nat, j: nat, x: nat)
    requires i <= j
    ensures Times(i, x) <= Times(j, x)
    decreases j
  {
    if i < j { TimesMonotone(i, j - 1, x); }
  }

  /** The counter and `m` full windows before it, the first of which does not end before `a`, account for `counted`. */
  ghost predicate Accounted(c: Counter, p: RateLimitPolicy, a: int, m: nat, counted: nat) {
    && counted <= Times(m, p.capacity) + (if c.count <= p.capacity then c.count else p.capacity)
    && c.expiresAt >= a + Times(m, Period(p))
  }

  /** Whoever the counter allows from time `a` on is counted by the window in force and full windows before it. */
  lemma {:induction false} CountWindows(requests: seq<Request>, key: string, p: RateLimitPolicy, a: int, b: int)
    returns (m: nat)
    requires InOrder(requests) && Uses(requests, key, p)
    ensures Counted(requests, key, a, b) > 0 ==>
      key in Run(requests) && Accounted(Run(requests)[key], p, a, m, Counted(requests, key, a, b))
  {
    m := 0;
    if requests != [] {
      var n := |requests| - 1;
      var q := requests[n];
      var before := Run(requests[..n]);
      m := CountWindows(requests[..n], key, p, a, b);
      if q.key == key && q.reply != Unreachable {
        if Counted(requests[..n], key, a, b) == 0 {
          m := 0;
        } else if !Live(before[key], q.now) {
          m := m + 1;
        }
      }
    }
  }

  /** m windows that start less than one window before an interval and within it are few. */
  lemma WindowsFit(m: nat, window: nat, length: nat)
    requires window >= 1 && Times(m, window) < length + window
    ensures m <= CeilDiv(length, window)
  {
    var k := CeilDiv(length, window);
    CeilDivIsCeiling(length, window);
    TimesIsProduct(k, window);
    if m > k { TimesMonotone(k + 1, m, window); }
  }

  lemma {:induction false} CountedBound(requests: seq<Request>, key: string, p: RateLimitPolicy, a: int, length: nat)
    requires InOrder(requests) && Uses(requests, key, p)
    ensures Counted(requests, key, a, a + length) <= (CeilDiv(length, Period(p)) + 1) * p.capacity
  {
    if requests != [] {
      var n := |requests| - 1;
      var b := a + length;
      if requests[n].now > b {
        CountedBound(requests[..n], key, p, a, length);
      } else if Counted(requests, key, a, b) > 0 {
        var m := CountWindows(requests, key, p, a, b);
        WindowsStartInThePast(requests, key, p, b);
        WindowsFit(m, Period(p), length);
        TimesMonotone(m, CeilDiv(length, Period(p)), p.capacity);
      }
    }
    TimesIsProduct(CeilDiv(length, Period(p)) + 1, p.capacity);
  }

  lemma WholeWindowsBound(p: RateLimitPolicy, length: nat)
    ensures (CeilDiv(length, Period(p)) + 1) * p.capacity <= (CeilDiv(length, Milliseconds(p)) + 1) * p.capacity
  {
    CeilDivShrinks(length, Milliseconds(p), Period(p));
    TimesMonotone(CeilDiv(length, Period(p)) + 1, CeilDiv(length, Milliseconds(p)) + 1, p.capacity);
    TimesIsProduct(CeilDiv(length, Period(p)) + 1, p.capacity);
    TimesIsProduct(CeilDiv(length, Milliseconds(p)) + 1, p.capacity);
  }

  /**
   The sliding bound. In any interval of length L a key is allowed at most capacity * (ceil(L / window) + 1)
   times plus the requests waved through during outages, whatever the request times, the outages and the
   other keys. Under DENY on outage nothing is waved through. The bound holds with the period for the window.
   */
  lemma SlidingBound(requests: seq<Request>, key: string, p: RateLimitPolicy, a: int, length: nat)
    requires InOrder(requests) && Uses(requests, key, p)
    ensures Allowed(requests, key, a, a + length)
         <= (CeilDiv(length, Period(p)) + 1) * p.capacity + Waved(requests, key, a, a + length)
    ensures Allowed(requests, key, a, a + length)
         <= (CeilDiv(length, Milliseconds(p)) + 1) * p.capacity + Waved(requests, key, a, a + length)
    ensures p.mode == Deny ==>
      Allowed(requests, key, a, a + length) <= (CeilDiv(length, Milliseconds(p)) + 1) * p.capacity
  {
    CountedBound(requests, key, p, a, length);
    WholeWindowsBound(p, length);
    AllowedIsCountedOrWaved(requests, key, p, a, a + length);
  }

  /** At most twice the capacity in any interval no longer than a period, outages aside. */
  lemma TwiceTheCapacity(requests: seq<Request>, key: string, p: RateLimitPolicy, a: int, length: nat)
    requires InOrder(requests) && Uses(requests, key, p) && length <= Period(p)
    ensures Allowed(requests, key, a, a + length) <= 2 * p.capacity + Waved(requests, key, a, a + length)
    ensures p.mode == Deny ==> Allowed(requests, key, a, a + length) <= 2 * p.capacity
  {
    CountedBound(requests, key, p, a, length);
    CeilDivGrows(length, Period(p), Period(p));
    TimesMonotone(CeilDiv(length, Period(p)) + 1, 2, p.capacity);
    TimesIsProduct(CeilDiv(length, Period(p)) + 1, p.capacity);
    TimesIsProduct(2, p.capacity);
    AllowedIsCountedOrWaved(requests, key, p, a, a + length);
  }

  /** n requests for the key while the store cannot be reached. */
  function Outage(p: RateLimitPolicy, key: string, n: nat): (requests: seq<Request>)
    ensures |requests| == n
  {
    seq(n, i => Request(key, p, 0, Unreachable))
  }

  lemma {:induction false} OutageIsWavedThrough(p: RateLimitPolicy, key: string, n: nat)
    ensures Allowed(Outage(p, key, n), key, 0, 0) == if p.mode == Allow then n else 0
  {
    if n > 0 {
      OutageIsWavedThrough(p, key, n - 1);
      assert Outage(p, key, n)[..n - 1] == Outage(p, key, n - 1);
    }
  }

  lemma {:induction false} AllowedGrows(requests: seq<Request>, key: string, a: int, b: int, c: int)
    requires b <= c
    ensures Allowed(requests, key, a, b) <= Allowed(requests, key, a, c)
  {
    if requests != [] { AllowedGrows(requests[..|requests| - 1], key, a, b, c); }
  }

  ghost predicate Bounded(requests: seq<Request>, key: string, p: RateLimitPolicy, a: int) {
    InOrder(requests) && Uses(requests, key, p) ==> Allowed(requests, key, a, a + Period(p)) <= 2 * p.capacity
  }

  /** The bound of twice the capacity holds of all runs exactly for the policies that deny during an outage. */
  lemma BoundedExactlyUnderDeny(key: string, p: RateLimitPolicy)
    ensures (forall requests, a :: Bounded(requests, key, p, a)) <==> p.mode == Deny
  {
    if p.mode == Deny {
      forall requests, a ensures Bounded(requests, key, p, a) {
        if InOrder(requests) && Uses(requests, key, p) { TwiceTheCapacity(requests, key, p, a, Period(p)); }
      }
    } else {
      var n := 2 * p.capacity + 1;
      OutageIsWavedThrough(p, key, n);
      AllowedGrows(Outage(p, key, n), key, 0, 0, Period(p));
      assert !Bounded(Outage(p, key, n), key, p, 0);
    }
  }

  /**
   Retry-After. A denial answers "retry in one window". At any time after that the window that denied is over,
   whatever requests came in between: a window then in force is a later one.
   */
  lemma RetryAfterIsLongEnough(requests: seq<Request>, later: seq<Request>, q: Request, at: int)
    requires q.reply == Answered && !Decided(Run(requests), q).allowed
    requires InOrder(requests + [q] + later) && Uses(requests + [q] + later, q.key, q.policy)
    ensures var counters := Run(requests + [q] + later);
      var denying := Run(requests + [q])[q.key].expiresAt;
      && q.key in counters
      && denying <= q.now + Milliseconds(q.policy)
      && (at > q.now + Milliseconds(q.policy) && Live(counters[q.key], at) ==> counters[q.key].expiresAt > denying)
  {
    var all := requests + [q] + later;
    var upTo := requests + [q];
    assert upTo[..|requests|] == requests && upTo[|requests|] == q;
    assert forall i :: 0 <= i < |upTo| ==> upTo[i] == all[i];
    WindowsStartInThePast(upTo, q.key, q.policy, q.now);
    CountersStay(upTo, later, q.key);
  }

  /**
   What a client may rely on: after a denial, with no other request for the key in between, a request is allowed
   exactly if it comes after the end of the window that denied, and so any time after one Retry-After.
   */
  lemma RetryIsAllowed(requests: seq<Request>, later: seq<Request>, q: Request, retry: Request)
    requires q.reply == Answered && !Decided(Run(requests), q).allowed
    requires InOrder(requests + [q] + later) && Uses(requests + [q] + later, q.key, q.policy)
    requires forall i :: 0 <= i < |later| ==> later[i].key != q.key
    requires retry.key == q.key && retry.policy == q.policy && retry.reply == Answered
    ensures q.key in Run(requests + [q])
    ensures Decided(Run(requests + [q] + later), retry).allowed <==> retry.now > Run(requests + [q])[q.key].expiresAt
    ensures retry.now > q.now + Milliseconds(q.policy) ==> Decided(Run(requests + [q] + later), retry).allowed
  {
    DenialFillsTheCounter(requests, q);
    OtherKeysLeaveTheCounter(requests + [q], later, q.key);
    RetryAfterIsLongEnough(requests, later, q, retry.now);
    FullCounterDecides(Run(requests + [q] + later), retry);
  }

  /** After a denial the counter of the key exceeds the capacity. */
  lemma DenialFillsTheCounter(requests: seq<Request>, q: Request)
    requires q.reply == Answered && !Decided(Run(requests), q).allowed
    ensures q.key in Run(requests + [q]) && Run(requests + [q])[q.key].count > q.policy.capacity
  {
    var upTo := requests + [q];
    assert upTo[..|requests|] == requests && upTo[|requests|] == q;
  }

  lemma FullCounterDecides(counters: Counters, retry: Request)
    requires retry.key in counters && counters[retry.key].count > retry.policy.capacity && retry.reply == Answered
    ensures Decided(counters, retry).allowed <==> !Live(counters[retry.key], retry.now)
  {
  }

  /** Two bursts: as many requests as the capacity at time 0, the others one period later. */
  function Burst(p: RateLimitPolicy, key: string, n: nat): (requests: seq<Request>)
    ensures |requests| == n
  {
    seq(n, i => Request(key, p, if i < p.capacity then 0 else Period(p), Answered))
  }

  lemma {:induction false} BurstFills(p: RateLimitPolicy, key: string, n: nat)
    requires 0 < n <= p.capacity
    ensures key in Run(Burst(p, key, n)) && Run(Burst(p, key, n))[key] == Counter(n, Milliseconds(p))
  {
    assert Burst(p, key, n)[..n - 1] == Burst(p, key, n - 1);
    if n > 1 { BurstFills(p, key, n - 1); }
  }

  /**
   At the very millisecond it can fail: a window is filled and denies all in one instant, and is still in force
   one Retry-After later.
   */
  lemma RetryAtTheTieIsDenied(p: RateLimitPolicy, key: string) returns (requests: seq<Request>, q: Request)
    ensures InOrder(requests + [q]) && Uses(requests + [q], key, p) && q.key == key && q.policy == p
    ensures q.reply == Answered && !Decided(Run(requests), q).allowed
    ensures !Decided(Run(requests + [q]), q.(now := q.now + Milliseconds(p))).allowed
  {
    requests, q := Burst(p, key, p.capacity), Request(key, p, 0, Answered);
    BurstFills(p, key, p.capacity);
    assert (requests + [q])[..|requests|] == requests;
  }

  lemma {:induction false} OtherKeysLeaveTheCounter(requests: seq<Request>, later: seq<Request>, key: string)
    requires key in Run(requests) && forall i :: 0 <= i < |later| ==> later[i].key != key
    ensures key in Run(requests + later) && Run(requests + later)[key] == Run(requests)[key]
    decreases |later|
  {
    if later == [] {
      assert requests + later == requests;
    } else {
      var n := |later| - 1;
      assert (requests + later)[..|requests| + n] == requests + later[..n];
      OtherKeysLeaveTheCounter(requests, later[..n], key);
    }
  }

  lemma {:induction false} CountersStay(requests: seq<Request>, later: seq<Request>, key: string)
    requires key in Run(requests)
    ensures key in Run(requests + later)
    decreases |later|
  {
    if later == [] {
      assert requests + later == requests;
    } else {
      var n := |later| - 1;
      assert (requests + later)[..|requests| + n] == requests + later[..n];
      CountersStay(requests, later[..n], key);
    }
  }

  lemma {:induction false} BurstIsAllowed(p: RateLimitPolicy, key: string, n: nat)
    requires n <= 2 * p.capacity
    ensures Allowed(Burst(p, key, n), key, 0, Period(p)) == n
    ensures n > 0 ==> key in Run(Burst(p, key, n))
    ensures 0 < n <= p.capacity ==> Run(Burst(p, key, n))[key] == Counter(n, Milliseconds(p))
    ensures n > p.capacity ==> Run(Burst(p, key, n))[key] == Counter(n - p.capacity, Period(p) + Milliseconds(p))
  {
    if n > 0 {
      BurstIsAllowed(p, key, n - 1);
      assert Burst(p, key, n)[..n - 1] == Burst(p, key, n - 1);
    }
  }

  /** The bound is tight: twice the capacity can be allowed within one period. */
  lemma BoundIsTight(p: RateLimitPolicy, key: string) returns (requests: seq<Request>)
    ensures InOrder(requests) && Uses(requests, key, p)
    ensures Allowed(requests, key, 0, Period(p)) == 2 * p.capacity
  {
    requests := Burst(p, key, 2 * p.capacity);
    BurstIsAllowed(p, key, 2 * p.capacity);
  }
}
