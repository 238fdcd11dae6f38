/**
 One outbox row (platform/database/outbox.py): its state machine, and what every run of it keeps.
 `Action`s are the row updates a caller can make. A row's log is a history variable: the actions
 applied to it, oldest first. No rule below reads it.
 */
module OutboxEvent {
  import opened Common
  import Backoff

  type Time = real
  type Token = nat
  type EventId = nat

  const MAX_ERROR_LENGTH := 2000

  datatype Policy = Policy(maxAttempts: int, base: real, cap: real) {
    predicate Valid() {
      maxAttempts >= 1 && base > 0.0 && cap >= base
    }
  }

  // The constructor of RetryPolicy refuses anything else.
  type RetryPolicy = p: Policy | p.Valid() witness Policy(1, 1.0, 1.0)

  datatype Status = Pending | Processing | Published | DeadLetter

  datatype Row = Row(
    status: Status,
    attempts: nat,
    availableAt: Time,
    claimedAt: Option<Time>,
    claimedUntil: Option<Time>,
    token: Option<Token>,
    publishedAt: Option<Time>,
    lastError: Option<string>,
    createdAt: Time)

  datatype ClaimError = NotClaimed

  /** `OutboxEventModel.create` */
  function NewRow(createdAt: Time): Row {
    Row(Pending, 0, createdAt, None, None, None, None, None, createdAt)
  }

  /** The WHERE clause of `claim_batch`; a NULL `claimed_until` never compares. */
  predicate Eligible(row: Row, now: Time) {
    || (row.status == Pending && row.availableAt <= now)
    || (row.status == Processing && row.claimedUntil.Some? && row.claimedUntil.value <= now)
  }

  function Claim(row: Row, now: Time, lease: real, token: Token): Row {
    row.(status := Processing, attempts := row.attempts + 1,
         claimedAt := Some(now), claimedUntil := Some(now + lease), token := Some(token))
  }

  predicate HoldsClaim(row: Row, token: Token) {
    row.status == Processing && row.token == Some(token)
  }

  function MarkPublished(row: Row, token: Token, now: Time): Result<Row, ClaimError> {
    if !HoldsClaim(row, token) then Failure(NotClaimed)
    else Success(row.(status := Published, publishedAt := Some(now),
                      claimedUntil := None, token := None, lastError := None))
  }

  /** Line breaks become spaces, then the text is cut; `text` has already been redacted. */
  function Sanitize(text: string): string {
    var flat := seq(|text|, i requires 0 <= i < |text| => if text[i] in {'\r', '\n'} then ' ' else text[i]);
    if |flat| <= MAX_ERROR_LENGTH then flat else flat[..MAX_ERROR_LENGTH]
  }

  function ApplyFailure(row: Row, token: Token, now: Time, text: string, policy: RetryPolicy)
    : Result<Row, ClaimError>
  {
    if !HoldsClaim(row, token) then Failure(NotClaimed)
    else
      var released := row.(lastError := Some(Sanitize(text)), claimedAt := None, claimedUntil := None, token := None);
      if row.attempts >= policy.maxAttempts then Success(released.(status := DeadLetter))
      else Success(released.(status := Pending,
                             availableAt := now + Backoff.Delay(policy.base, policy.cap, row.attempts)))
  }

  datatype Action =
    | Claimed(now: Time, lease: real, token: Token)
    | Acknowledged(now: Time, token: Token)
    | Failed(now: Time, token: Token, text: string, policy: RetryPolicy)

  /** The row after an action, or None where the operation leaves the row alone (not selected, or raised). */
  function Step(row: Row, action: Action): Option<Row> {
    match action
    case Claimed(now, lease, token) =>
      if Eligible(row, now) && lease > 0.0 then Some(Claim(row, now, lease, token)) else None
    case Acknowledged(now, token) =>
      var r := MarkPublished(row, token, now);
      if r.Success? then Some(r.value) else None
    case Failed(now, token, text, policy) =>
      var r := ApplyFailure(row, token, now, text, policy);
      if r.Success? then Some(r.value) else None
  }

  function Run(createdAt: Time, log: seq<Action>): Option<Row> {
    if log == [] then Some(NewRow(createdAt))
    else
      var before := Run(createdAt, Front(log));
      if before.None? then None else Step(before.value, Last(log))
  }

  function Front<T>(s: seq<T>): seq<T>
    requires s != []
  {
    s[..|s| - 1]
  }

  function Last<T>(s: seq<T>): T
    requires s != []
  {
    s[|s| - 1]
  }

  predicate Legal(createdAt: Time, log: seq<Action>) {
    Run(createdAt, log).Some?
  }

  predicate FreshTokens(log: seq<Action>) {
    forall i, j :: 0 <= i < j < |log| && log[i].Claimed? && log[j].Claimed? ==> log[i].token != log[j].token
  }

  lemma {:induction false} PrefixIsLegal(createdAt: Time, log: seq<Action>, k: nat)
    requires Legal(createdAt, log) && k <= |log|
    ensures Legal(createdAt, log[..k])
  {
    if k == |log| {
      assert log[..k] == log;
    } else {
      PrefixIsLegal(createdAt, Front(log), k);
      assert Front(log)[..k] == log[..k];
    }
  }

  // ----- what a row looks like, read off its history -----

  /**
   A row is PROCESSING exactly when the last thing that happened to it is a claim, and then it carries
   that claim's token, time and lease end; in every other state it holds no token and no lease. It is
   PUBLISHED exactly after an acknowledgement, and DEAD_LETTER exactly after a failure that found the
   attempts used up; a failure records its text, a publication erases it.
   */
  ghost predicate Shape(row: Row, log: seq<Action>) {
    && (row.status == Processing <==> log != [] && Last(log).Claimed?)
    && (row.status == Published <==> log != [] && Last(log).Acknowledged?)
    && (row.status == Processing ==>
          && row.attempts >= 1
          && row.token == Some(Last(log).token)
          && row.claimedAt == Some(Last(log).now)
          && row.claimedUntil == Some(Last(log).now + Last(log).lease)
          && Last(log).lease > 0.0)
    && (row.status != Processing ==> row.token.None? && row.claimedUntil.None?)
    && (row.status == DeadLetter <==>
          log != [] && Last(log).Failed? && row.attempts >= Last(log).policy.maxAttempts)
    && row.publishedAt == (if row.status == Published then Some(Last(log).now) else None)
    && (row.status == Published ==> row.lastError.None?)
    && (log != [] && Last(log).Failed? ==> row.lastError == Some(Sanitize(Last(log).text)) && row.claimedAt.None?)
    && (row.lastError.Some? ==> SafeError(row.lastError.value))
  }

  ghost predicate SafeError(text: string) {
    |text| <= MAX_ERROR_LENGTH && forall i :: 0 <= i < |text| ==> text[i] != '\r' && text[i] != '\n'
  }

  lemma {:induction false} RunHasShape(createdAt: Time, log: seq<Action>)
    requires Legal(createdAt, log)
    ensures Shape(Run(createdAt, log).value, log)
  {
    if log != [] { RunHasShape(createdAt, Front(log)); }
  }

  // ----- fencing -----

  /** Once anything has happened after a claim, that claim's token can no longer publish or fail the event. */
  lemma SupersededTokenIsFenced(createdAt: Time, log: seq<Action>, i: nat,
                                now: Time, text: string, policy: RetryPolicy)
    requires Legal(createdAt, log) && FreshTokens(log)
    requires i < |log| - 1 && log[i].Claimed?
    ensures MarkPublished(Run(createdAt, log).value, log[i].token, now) == Failure(NotClaimed)
    ensures ApplyFailure(Run(createdAt, log).value, log[i].token, now, text, policy) == Failure(NotClaimed)
  {
    RunHasShape(createdAt, log);
  }

  /** A settlement always uses the token of the claim immediately before it. */
  lemma SettlementsMatchTheLatestClaim(createdAt: Time, log: seq<Action>, k: nat)
    requires Legal(createdAt, log) && k < |log| && !log[k].Claimed?
    ensures k > 0 && log[k - 1].Claimed? && log[k].token == log[k - 1].token
  {
    PrefixIsLegal(createdAt, log, k + 1);
    assert log[..k + 1][..k] == log[..k];
    RunHasShape(createdAt, log[..k]);
  }

  predicate Terminal(row: Row) {
    row.status == Published || row.status == DeadLetter
  }

  /** PUBLISHED and DEAD_LETTER are absorbing: nothing further ever happens to the row. */
  lemma {:induction false} TerminalIsAbsorbing(createdAt: Time, log: seq<Action>, later: seq<Action>)
    requires Legal(createdAt, log + later) && Legal(createdAt, log)
    requires Terminal(Run(createdAt, log).value)
    ensures later == []
  {
    if later != [] {
      var next := log + [later[0]];
      assert Front(next) == log && (log + later)[..|log| + 1] == next;
      PrefixIsLegal(createdAt, log + later, |log| + 1);
    }
  }

  /** An event is published at most once, and its publication is the last entry of its history. */
  lemma PublishedAtMostOnce(createdAt: Time, log: seq<Action>, k: nat)
    requires Legal(createdAt, log) && k < |log| && log[k].Acknowledged?
    ensures k == |log| - 1
  {
    PrefixIsLegal(createdAt, log, k + 1);
    RunHasShape(createdAt, log[..k + 1]);
    assert log == log[..k + 1] + log[k + 1..];
    TerminalIsAbsorbing(createdAt, log[..k + 1], log[k + 1..]);
  }

  // ----- two claims of one event -----

  /** Claims with no failure between them are lease takeovers, and lease ends only move forward. */
  lemma {:induction false} TakeoversWaitForTheLease(createdAt: Time, log: seq<Action>, i: nat, j: nat)
    requires Legal(createdAt, log) && i < j < |log|
    requires forall k :: i <= k <= j ==> log[k].Claimed?
    ensures log[j].now >= log[i].now + log[i].lease
    decreases j
  {
    PrefixIsLegal(createdAt, log, j + 1);
    assert log[..j + 1][..j] == log[..j];
    RunHasShape(createdAt, log[..j]);
    if i < j - 1 { TakeoversWaitForTheLease(createdAt, log, i, j - 1); }
  }

  /**
   Exclusion: two claims of one event are separated by a recorded failure, or by at least the
   first claim's lease. No assumption is made on the clocks of the workers.
   */
  lemma ClaimsAreSeparated(createdAt: Time, log: seq<Action>, i: nat, j: nat)
    requires Legal(createdAt, log) && i < j < |log|
    requires log[i].Claimed? && log[j].Claimed?
    ensures (exists k :: i < k < j && log[k].Failed?) || log[j].now >= log[i].now + log[i].lease
  {
    if k :| i < k < j && !log[k].Claimed? {
      if log[k].Acknowledged? { PublishedAtMostOnce(createdAt, log, k); }
    } else {
      TakeoversWaitForTheLease(createdAt, log, i, j);
    }
  }

  // ----- claim accounting -----

  /** The attempts counted at each failure that returned the event to PENDING, oldest first. */
  function ReturnAttempts(createdAt: Time, log: seq<Action>): seq<int>
    requires Legal(createdAt, log)
  {
    if log == [] then []
    else
      var earlier := ReturnAttempts(createdAt, Front(log));
      var row := Run(createdAt, log).value;
      if Last(log).Failed? && row.status == Pending then earlier + [row.attempts] else earlier
  }

  /** How many claims took over an expired lease. */
  function Takeovers(createdAt: Time, log: seq<Action>): nat
    requires Legal(createdAt, log)
  {
    if log == [] then 0
    else
      Takeovers(createdAt, Front(log))
      + if Last(log).Claimed? && Run(createdAt, Front(log)).value.status == Processing then 1 else 0
  }

  /** attempt_count = returns to PENDING + lease takeovers + 1 unless the event is PENDING. */
  lemma {:induction false} ClaimAccounting(createdAt: Time, log: seq<Action>)
    requires Legal(createdAt, log)
    ensures var row := Run(createdAt, log).value;
      row.attempts == |ReturnAttempts(createdAt, log)| + Takeovers(createdAt, log)
                      + if row.status == Pending then 0 else 1
  {
    if log != [] {
      ClaimAccounting(createdAt, Front(log));
    }
  }

  ghost predicate UsesPolicy(log: seq<Action>, policy: RetryPolicy) {
    forall k :: 0 <= k < |log| && log[k].Failed? ==> log[k].policy == policy
  }

  lemma ProcessingIsCounted(createdAt: Time, log: seq<Action>)
    requires Legal(createdAt, log) && Run(createdAt, log).value.status == Processing
    ensures Run(createdAt, log).value.attempts >= 1
  {
    RunHasShape(createdAt, log);
  }

  lemma {:induction false} ReturnsAreIncreasing(createdAt: Time, log: seq<Action>, policy: RetryPolicy)
    requires Legal(createdAt, log) && UsesPolicy(log, policy)
    ensures
      var retries := ReturnAttempts(createdAt, log);
      var row := Run(createdAt, log).value;
      && Backoff.Increasing(retries)
      && (forall i :: 0 <= i < |retries| ==> 1 <= retries[i] < policy.maxAttempts)
      && (forall i :: 0 <= i < |retries| ==>
            if row.status == Pending then retries[i] <= row.attempts else retries[i] < row.attempts)
  {
    if log != [] {
      ReturnsAreIncreasing(createdAt, Front(log), policy);
      if Last(log).Failed? { ProcessingIsCounted(createdAt, Front(log)); }
    }
  }

  /** Under one policy an event returns to PENDING at most max_attempts - 1 times, whatever the takeovers. */
  lemma ReturnsAreBounded(createdAt: Time, log: seq<Action>, policy: RetryPolicy)
    requires Legal(createdAt, log) && UsesPolicy(log, policy)
    ensures |ReturnAttempts(createdAt, log)| <= policy.maxAttempts - 1
  {
    ReturnsAreIncreasing(createdAt, log, policy);
    Backoff.IncreasingIsShort(ReturnAttempts(createdAt, log), policy.maxAttempts - 1);
  }

  /** The whole time one event spends backing off is within both budgets of its policy. */
  lemma BackoffBudget(createdAt: Time, log: seq<Action>, policy: RetryPolicy, retries: nat)
    requires Legal(createdAt, log) && UsesPolicy(log, policy)
    requires retries == policy.maxAttempts - 1
    ensures Backoff.WithinBudget(policy.base, policy.cap, ReturnAttempts(createdAt, log), retries)
  {
    ReturnsAreIncreasing(createdAt, log, policy);
    Backoff.TotalIsBounded(policy.base, policy.cap, ReturnAttempts(createdAt, log), retries);
  }

  /** A failed event is not claimed again before its backoff has passed. */
  lemma BackoffIsHonoured(createdAt: Time, log: seq<Action>, k: nat)
    requires Legal(createdAt, log) && k + 1 < |log|
    requires log[k].Failed?
    ensures Legal(createdAt, log[..k]) && log[k + 1].Claimed?
    ensures var p := log[k].policy;
      log[k + 1].now >= log[k].now + Backoff.Delay(p.base, p.cap, Run(createdAt, log[..k]).value.attempts)
  {
    PrefixIsLegal(createdAt, log, k);
    PrefixIsLegal(createdAt, log, k + 1);
    PrefixIsLegal(createdAt, log, k + 2);
    assert log[..k + 2][..k + 1] == log[..k + 1];
    assert log[..k + 1][..k] == log[..k];
  }

  // ----- exactly what can happen next -----

  predicate IsMinimum(x: real, a: real, b: real) {
    x <= a && x <= b && (x == a || x == b)
  }

  /**
   A failure with attempts left makes the event available again after exactly the capped exponential delay
   base * 2 ** (attempts - 1), and with none left it is the end.
   */
  lemma FailureDecides(createdAt: Time, log: seq<Action>)
    requires Legal(createdAt, log) && log != [] && Last(log).Failed?
    ensures var row, p := Run(createdAt, log).value, Last(log).policy;
      if row.attempts >= p.maxAttempts then row.status == DeadLetter
      else
        && row.status == Pending
        && IsMinimum(row.availableAt - Last(log).now, p.base * Backoff.TwoTo(row.attempts - 1), p.cap)
  {
    var p := Last(log).policy;
    Backoff.DelayIsCappedPower(p.base, p.cap, Run(createdAt, log).value.attempts);
  }

  /** Nothing but a failure with attempts left ever moves the time from which an event is available. */
  lemma OnlyFailuresReschedule(createdAt: Time, log: seq<Action>)
    requires Legal(createdAt, log)
    ensures log == [] ==> Run(createdAt, log).value.availableAt == createdAt
    ensures log != [] && !(Last(log).Failed? && Run(createdAt, log).value.status == Pending) ==>
      && Legal(createdAt, Front(log))
      && Run(createdAt, log).value.availableAt == Run(createdAt, Front(log)).value.availableAt
  {
  }

  /**
   The next claim of an event is possible exactly: from its availability on while it is PENDING; from the end of
   the lease on while its last update is a claim; never after it was published or dead-lettered.
   */
  lemma NextClaimExactly(createdAt: Time, log: seq<Action>, now: Time, lease: real, token: Token)
    requires Legal(createdAt, log)
    ensures Legal(createdAt, log + [Claimed(now, lease, token)])
       <==> && lease > 0.0
            && var row := Run(createdAt, log).value;
               if row.status == Pending then now >= row.availableAt
               else log != [] && Last(log).Claimed? && now >= Last(log).now + Last(log).lease
  {
    RunHasShape(createdAt, log);
    assert Front(log + [Claimed(now, lease, token)]) == log;
  }

  /** A new event can be claimed from its creation on. */
  lemma NewEventsAreAvailable(createdAt: Time, now: Time, lease: real, token: Token)
    ensures Legal(createdAt, [Claimed(now, lease, token)]) <==> lease > 0.0 && now >= createdAt
  {
    assert Front([Claimed(now, lease, token)]) == [];
    assert Run(createdAt, []) == Some(NewRow(createdAt));
  }

  /** A publication or failure is possible exactly right after a claim, with the token of that claim. */
  lemma NextSettlementExactly(createdAt: Time, log: seq<Action>, action: Action)
    requires Legal(createdAt, log) && !action.Claimed?
    ensures Legal(createdAt, log + [action]) <==> log != [] && Last(log).Claimed? && Last(log).token == action.token
  {
    RunHasShape(createdAt, log);
    assert Front(log + [action]) == log;
  }

  /** The recorded error is the text itself, cut to the limit, with a blank for every line break. */
  lemma SanitizedText(text: string)
    ensures var kept := Sanitize(text);
      && (|text| <= 2000 ==> |kept| == |text|) && (|text| > 2000 ==> |kept| == 2000)
      && (forall i :: 0 <= i < |kept| ==>
            if text[i] == '\r' || text[i] == '\n' then kept[i] == ' ' else kept[i] == text[i])
  {
  }

  // ----- when attempt_count stays within max_attempts -----

  /** A row returns to PENDING only with attempts left. */
  lemma PendingHasAttemptsLeft(createdAt: Time, log: seq<Action>, policy: RetryPolicy)
    requires Legal(createdAt, log) && UsesPolicy(log, policy)
    requires Run(createdAt, log).value.status == Pending
    ensures Run(createdAt, log).value.attempts < policy.maxAttempts
  {
    RunHasShape(createdAt, log);
    if log != [] { assert log[|log| - 1].Failed?; }
  }

  /** The row is still being processed and its attempts are used up. */
  predicate Spent(row: Row, policy: RetryPolicy) {
    row.status == Processing && row.attempts >= policy.maxAttempts
  }

  /** Update k of the history is a takeover of a spent row, which the claimer could have seen on the row. */
  predicate TakesOverSpent(createdAt: Time, log: seq<Action>, k: nat, policy: RetryPolicy)
    requires Legal(createdAt, log) && k < |log|
  {
    PrefixIsLegal(createdAt, log, k);
    log[k].Claimed? && Spent(Run(createdAt, log[..k]).value, policy)
  }

  /**
   attempt_count <= max_attempts is not an invariant, because a takeover does not ask the policy. It holds
   exactly for the histories in which no claim has taken over a row whose attempts were used up.
   */
  lemma {:induction false} AttemptsStayWithinPolicy(createdAt: Time, log: seq<Action>, policy: RetryPolicy)
    requires Legal(createdAt, log) && UsesPolicy(log, policy)
    ensures Run(createdAt, log).value.attempts <= policy.maxAttempts
       <==> forall k :: 0 <= k < |log| ==> !TakesOverSpent(createdAt, log, k, policy)
  {
    if log != [] {
      var front := Front(log);
      AttemptsStayWithinPolicy(createdAt, front, policy);
      forall k | 0 <= k < |front|
        ensures TakesOverSpent(createdAt, front, k, policy) == TakesOverSpent(createdAt, log, k, policy)
      {
        assert front[..k] == log[..k];
      }
      var before := Run(createdAt, front).value;
      if before.status == Pending { PendingHasAttemptsLeft(createdAt, front, policy); }
      assert TakesOverSpent(createdAt, log, |front|, policy) <==> Last(log).Claimed? && Spent(before, policy);
    }
  }

  /**
   For every policy and every n there is a history of n takeovers without a single failure, after which
   attempt_count is n + 1: beyond max_attempts as soon as n reaches it.
   */
  lemma {:induction false} TakeoversAreUnbounded(createdAt: Time, policy: RetryPolicy, n: nat)
    returns (log: seq<Action>)
    ensures Legal(createdAt, log) && FreshTokens(log) && UsesPolicy(log, policy)
    ensures Takeovers(createdAt, log) == n && ReturnAttempts(createdAt, log) == []
    ensures Run(createdAt, log).value.attempts == n + 1
    ensures n >= policy.maxAttempts ==> Run(createdAt, log).value.attempts > policy.maxAttempts
    ensures Run(createdAt, log).value.claimedUntil == Some(createdAt + (n + 1) as real)
    ensures |log| == n + 1 && forall i :: 0 <= i < |log| ==> log[i].Claimed? && log[i].token == i
  {
    if n == 0 {
      log := [Claimed(createdAt, 1.0, 0)];
      assert Front(log) == [];
      assert Run(createdAt, []).Some?;
    } else {
      var before := TakeoversAreUnbounded(createdAt, policy, n - 1);
      RunHasShape(createdAt, before);
      log := before + [Claimed(createdAt + n as real, 1.0, n)];
      assert Front(log) == before;
    }
  }
}
