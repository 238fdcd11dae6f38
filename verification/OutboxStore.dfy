/**
 The outbox as the program holds it: mutable event objects and the store that claims them in place
 (platform/database/outbox.py:150-227). Every method is proved against the rules of `OutboxEvent`
 and the selection of `OutboxQuery`.
 */
module OutboxStore {
  import opened Common
  import opened OutboxEvent
  import opened OutboxQuery
  import Backoff

  const MAX_EVENT_TYPE_LENGTH := 200
  const MAX_AGGREGATE_TYPE_LENGTH := 100
  const MAX_AGGREGATE_ID_LENGTH := 200

  datatype Envelope = Envelope(
    eventType: string,
    aggregateType: string,
    aggregateId: string,
    aggregateVersion: Option<int>,
    occurredAt: Time,
    aware: bool)

  datatype Field = EventType | AggregateType | AggregateId

  datatype EnvelopeError = NaiveTime | BlankText(field: Field) | TextTooLong(field: Field) | NegativeVersion

  function Text(e: Envelope, field: Field): string {
    match field
    case EventType => e.eventType
    case AggregateType => e.aggregateType
    case AggregateId => e.aggregateId
  }

  function MaxLength(field: Field): nat {
    match field
    case EventType => MAX_EVENT_TYPE_LENGTH
    case AggregateType => MAX_AGGREGATE_TYPE_LENGTH
    case AggregateId => MAX_AGGREGATE_ID_LENGTH
  }

  /** What an error says about an envelope. */
  predicate Applies(e: Envelope, error: EnvelopeError) {
    match error
    case NaiveTime => !e.aware
    case BlankText(field) => Blank(Text(e, field))
    case TextTooLong(field) => |Text(e, field)| > MaxLength(field)
    case NegativeVersion => e.aggregateVersion.Some? && e.aggregateVersion.value < 0
  }

  /** The order in which the checks are made. */
  function Rank(error: EnvelopeError): nat {
    match error
    case NaiveTime => 0
    case BlankText(field) => if field.EventType? then 1 else if field.AggregateType? then 3 else 5
    case TextTooLong(field) => if field.EventType? then 2 else if field.AggregateType? then 4 else 6
    case NegativeVersion => 7
  }

  ghost predicate Sendable(e: Envelope) {
    forall error :: !Applies(e, error)
  }

  /** `_validate_required_text` */
  method ValidateText(e: Envelope, field: Field) returns (error: Option<EnvelopeError>)
    ensures error == if Applies(e, BlankText(field)) then Some(BlankText(field))
                     else if Applies(e, TextTooLong(field)) then Some(TextTooLong(field)) else None
  {
    var text := Text(e, field);
    if Blank(text) { return Some(BlankText(field)); }
    if |text| > MaxLength(field) { return Some(TextTooLong(field)); }
    error := None;
  }

  /**
   `OutboxEventModel.create`. It refuses an envelope exactly if some check fails, with the error of the first
   check that does; the event it creates is new, PENDING, never attempted, and available from when it occurred.
   */
  method CreateEvent(id: EventId, envelope: Envelope) returns (r: Result<Event, EnvelopeError>)
    ensures r.Success? <==> Sendable(envelope)
    ensures r.Success? ==>
      && fresh(r.value) && r.value.id == id && r.value.envelope == envelope
      && r.value.View() == NewRow(envelope.occurredAt)
    ensures r.Failure? ==> Applies(envelope, r.error)
    ensures r.Failure? ==> forall other :: Applies(envelope, other) ==> Rank(r.error) <= Rank(other)
  {
    assert !envelope.aware ==> Applies(envelope, NaiveTime);
    if !envelope.aware { return Failure(NaiveTime); }
    var error := ValidateText(envelope, EventType);
    if error.Some? { return Failure(error.value); }
    error := ValidateText(envelope, AggregateType);
    if error.Some? { return Failure(error.value); }
    error := ValidateText(envelope, AggregateId);
    if error.Some? { return Failure(error.value); }
    if envelope.aggregateVersion.Some? && envelope.aggregateVersion.value < 0 {
      assert Applies(envelope, NegativeVersion);
      return Failure(NegativeVersion);
    }
    var event := new Event(id, envelope);
    r := Success(event);
  }

  class Event {
    const id: EventId
    const envelope: Envelope
    const createdAt: Time
    var status: Status
    var attempts: nat
    var availableAt: Time
    var claimedAt: Option<Time>
    var claimedUntil: Option<Time>
    var token: Option<Token>
    var publishedAt: Option<Time>
    var lastError: Option<string>

    constructor (id: EventId, envelope: Envelope)
      ensures this.id == id && this.envelope == envelope && View() == NewRow(envelope.occurredAt)
    {
      this.id, this.envelope, createdAt := id, envelope, envelope.occurredAt;
      status, attempts, availableAt := Pending, 0, envelope.occurredAt;
      claimedAt, claimedUntil, token, publishedAt, lastError := None, None, None, None, None;
    }

    function View(): Row
      reads this
    {
      Row(status, attempts, availableAt, claimedAt, claimedUntil, token, publishedAt, lastError, createdAt)
    }

    /** The loop body of `claim_batch`. */
    method Claim(now: Time, lease: real, drawn: Token)
      modifies this
      ensures View() == OutboxEvent.Claim(old(View()), now, lease, drawn)
      ensures status == Processing && attempts == old(attempts) + 1 && token == Some(drawn)
      ensures claimedUntil == Some(now + lease) && availableAt == old(availableAt)
    {
      status := Processing;
      attempts := attempts + 1;
      claimedAt := Some(now);
      claimedUntil := Some(now + lease);
      token := Some(drawn);
    }

    method MarkPublished(claimToken: Token, now: Time) returns (failure: Option<ClaimError>)
      modifies this
      ensures Settles(old(View()), OutboxEvent.MarkPublished(old(View()), claimToken, now), View(), failure)
      ensures failure.None? <==> old(status) == Processing && old(token) == Some(claimToken)
      ensures failure.None? ==> status == Published && publishedAt == Some(now) && token == None
    {
      if status != Processing || token != Some(claimToken) {
        return Some(NotClaimed);
      }
      status := Published;
      publishedAt := Some(now);
      claimedUntil := None;
      token := None;
      lastError := None;
      failure := None;
    }

    method ApplyFailure(claimToken: Token, now: Time, text: string, policy: RetryPolicy)
      returns (failure: Option<ClaimError>)
      modifies this
      ensures Settles(old(View()), OutboxEvent.ApplyFailure(old(View()), claimToken, now, text, policy),
                      View(), failure)
      ensures failure.None? <==> old(status) == Processing && old(token) == Some(claimToken)
      ensures failure.None? && old(attempts) >= policy.maxAttempts ==>
        status == DeadLetter && availableAt == old(availableAt)
      ensures failure.None? && old(attempts) < policy.maxAttempts ==>
        && status == Pending && token == None
        && IsMinimum(availableAt - now, policy.base * Backoff.TwoTo(old(attempts) - 1), policy.cap)
    {
      if status != Processing || token != Some(claimToken) {
        return Some(NotClaimed);
      }
      failure := None;
      lastError := Some(Sanitize(text));
      claimedAt := None;
      claimedUntil := None;
      token := None;
      if attempts >= policy.maxAttempts {
        status := DeadLetter;
        return;
      }
      var delay := Backoff.Delay(policy.base, policy.cap, attempts);
      Backoff.DelayIsCappedPower(policy.base, policy.cap, attempts);
      status := Pending;
      availableAt := now + delay;
    }
  }

  /** The object now shows the outcome; when the call raised, it shows what it showed before. */
  predicate Settles(before: Row, outcome: Result<Row, ClaimError>, after: Row, failure: Option<ClaimError>) {
    match outcome
    case Success(row) => failure == None && after == row
    case Failure(error) => failure == Some(error) && after == before
  }

  datatype StoreError = LimitBelowOne | LeaseNotPositive

  class Store {
    var events: map<EventId, Event>

    ghost predicate Valid()
      reads this
    {
      forall id :: id in events ==> events[id].id == id
    }

    ghost function View(): Table
      reads this, events.Values
    {
      map id | id in events :: events[id].View()
    }

    /** Some event with the smallest key among the open ones. */
    method First(open: set<EventId>) returns (first: EventId)
      requires Valid() && open <= events.Keys && open != {}
      ensures first in open
      ensures forall id :: id in open ==> KeyLeq(View()[first], View()[id])
    {
      first :| first in open;
      var rest := open - {first};
      while rest != {}
        invariant first in open && rest <= open
        invariant forall id :: id in open - rest ==> KeyLeq(View()[first], View()[id])
        decreases rest
      {
        var id :| id in rest;
        if !KeyLeq(events[first].View(), events[id].View()) {
          first := id;
        }
        rest := rest - {id};
      }
    }

    /** What the database answers to the SELECT of `claim_batch`. */
    method SelectForUpdate(locked: set<EventId>, limit: nat, now: Time) returns (batch: seq<EventId>)
      requires Valid()
      ensures IsBatch(View(), locked, limit, now, batch)
    {
      var open := set id | id in events && id !in locked && Eligible(events[id].View(), now);
      ghost var table, all := View(), open;
      assert all == Candidates(table, locked, now);
      batch := [];
      while open != {} && |batch| < limit
        invariant Selected(table, all, open, batch) && |batch| <= limit && table == View()
        decreases limit - |batch|
      {
        var next := First(open);
        SelectNext(table, all, open, batch, next);
        batch := batch + [next];
        open := open - {next};
      }
      SelectedIsBatch(table, all, open, batch, locked, limit, now);
    }

    method ClaimBatch(locked: set<EventId>, limit: int, now: Time, lease: real, tokens: map<EventId, Token>)
      returns (r: Result<seq<EventId>, StoreError>)
      requires Valid() && events.Keys <= tokens.Keys
      modifies events.Values
      ensures Valid() && events == old(events)
      ensures r == Failure(LimitBelowOne) <==> limit < 1
      ensures r == Failure(LeaseNotPositive) <==> limit >= 1 && lease <= 0.0
      ensures r.Failure? ==> View() == old(View())
      ensures r.Success? ==>
        && IsBatch(old(View()), locked, limit, now, r.value)
        && Elements(r.value) <= tokens.Keys
        && View() == ClaimRows(old(View()), r.value, now, lease, tokens)
    {
      if limit < 1 { return Failure(LimitBelowOne); }
      if lease <= 0.0 { return Failure(LeaseNotPositive); }
      var batch := SelectForUpdate(locked, limit, now);
      ClaimAll(batch, now, lease, tokens);
      r := Success(batch);
    }

    /** The loop of `claim_batch` over the selected rows. */
    method ClaimAll(batch: seq<EventId>, now: Time, lease: real, tokens: map<EventId, Token>)
      requires Valid() && Ordered(View(), batch) && Elements(batch) <= tokens.Keys
      modifies events.Values
      ensures Valid()
      ensures View() == ClaimRows(old(View()), batch, now, lease, tokens)
    {
      ghost var before := View();
      assert forall i :: 0 <= i < |batch| ==> batch[i] in Elements(batch);
      var i := 0;
      while i < |batch|
        invariant 0 <= i <= |batch| && Valid()
        invariant forall id :: id in events ==>
          events[id].View() == if id in batch[..i] then Claim(before[id], now, lease, tokens[id]) else before[id]
      {
        assert batch[i] !in batch[..i];
        assert batch[..i + 1] == batch[..i] + [batch[i]];
        events[batch[i]].Claim(now, lease, tokens[batch[i]]);
        i := i + 1;
      }
      assert batch[..i] == batch;
    }
  }

  /** Part of a selection: `batch` taken, in order, off the front of `all`, leaving `open`. */
  ghost predicate Selected(table: Table, all: set<EventId>, open: set<EventId>, batch: seq<EventId>) {
    && all <= table.Keys && open <= all && Elements(batch) == all - open
    && |batch| + |open| == |all|
    && Ordered(table, batch)
    && (forall i, id :: 0 <= i < |batch| && id in open ==> KeyLeq(table[batch[i]], table[id]))
  }

  lemma SelectNext(table: Table, all: set<EventId>, open: set<EventId>, batch: seq<EventId>, next: EventId)
    requires Selected(table, all, open, batch)
    requires next in open && forall id :: id in open ==> KeyLeq(table[next], table[id])
    ensures Selected(table, all, open - {next}, batch + [next])
  {
    assert next !in Elements(batch);
    OrderedSnoc(table, batch, next);
    assert Elements(batch + [next]) == Elements(batch) + {next};
  }

  lemma OrderedSnoc(table: Table, batch: seq<EventId>, next: EventId)
    requires Ordered(table, batch) && next in table && next !in batch
    requires forall i :: 0 <= i < |batch| ==> KeyLeq(table[batch[i]], table[next])
    ensures Ordered(table, batch + [next])
  {
  }

  lemma SelectedIsBatch(table: Table, all: set<EventId>, open: set<EventId>, batch: seq<EventId>,
                        locked: set<EventId>, limit: nat, now: Time)
    requires all == Candidates(table, locked, now) && Selected(table, all, open, batch)
    requires |batch| <= limit && (open == {} || |batch| == limit)
    ensures IsBatch(table, locked, limit, now, batch)
  {
    assert open == {} ==> |open| == 0;
    assert forall id :: id in all && id !in batch ==> id in open;
  }
}
