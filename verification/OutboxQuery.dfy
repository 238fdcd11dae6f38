/**
 The row selection of `OutboxStore.claim_batch` (platform/database/outbox.py:170-191): eligible and
 unlocked rows, by (available_at, created_at), at most `limit`, and what repeating it does.
 Rows with equal keys may come in any order, so a selection is a relation, not a function.
 */
module OutboxQuery {
  import opened Common
  import opened OutboxEvent

  type Table = map<EventId, Row>

  predicate KeyLeq(a: Row, b: Row) {
    a.availableAt < b.availableAt || (a.availableAt == b.availableAt && a.createdAt <= b.createdAt)
  }

  function Candidates(table: Table, locked: set<EventId>, now: Time): set<EventId> {
    set id | id in table && id !in locked && Eligible(table[id], now)
  }

  ghost predicate Ordered(table: Table, ids: seq<EventId>) {
    && (forall i :: 0 <= i < |ids| ==> ids[i] in table)
    && (forall i, j :: 0 <= i < j < |ids| ==> ids[i] != ids[j] && KeyLeq(table[ids[i]], table[ids[j]]))
  }

  function Elements(ids: seq<EventId>): (r: set<EventId>)
    ensures forall id :: id in r <==> id in ids
  {
    set id | id in ids
  }

  /** `batch` is a possible answer to SELECT .. ORDER BY .. LIMIT .. FOR UPDATE SKIP LOCKED. */
  ghost predicate IsBatch(table: Table, locked: set<EventId>, limit: nat, now: Time, batch: seq<EventId>) {
    var open := Candidates(table, locked, now);
    && Ordered(table, batch)
    && Elements(batch) <= open
    && |batch| == (if |open| < limit then |open| else limit)
    && (forall id, i :: id in open && id !in batch && 0 <= i < |batch| ==> KeyLeq(table[batch[i]], table[id]))
  }

  /** Pending and due, or claimed with the lease over. */
  ghost predicate Due(row: Row, now: Time) {
    || (row.status == Pending && row.availableAt <= now)
    || (row.status == Processing && row.claimedUntil.Some? && row.claimedUntil.value <= now)
  }

  /** No later than the other by (available_at, created_at). */
  ghost predicate ComesFirst(a: Row, b: Row) {
    a.availableAt <= b.availableAt && (a.availableAt == b.availableAt ==> a.createdAt <= b.createdAt)
  }

  /**
   What a batch is, in terms of the rows: distinct due unlocked rows, at most `limit`, by available_at and then
   created_at; fewer than `limit` only if it has all of them, and otherwise none left out comes before one in it.
   */
  lemma BatchInTermsOfRows(table: Table, locked: set<EventId>, limit: nat, now: Time, batch: seq<EventId>)
    requires IsBatch(table, locked, limit, now, batch)
    ensures |batch| <= limit
    ensures forall i :: 0 <= i < |batch| ==> batch[i] in table && batch[i] !in locked && Due(table[batch[i]], now)
    ensures forall i, j :: 0 <= i < j < |batch| ==>
      batch[i] != batch[j] && ComesFirst(table[batch[i]], table[batch[j]])
    ensures |batch| < limit ==> forall id :: id in table && id !in locked && Due(table[id], now) ==> id in batch
    ensures forall id, i :: id in table && id !in locked && Due(table[id], now) && id !in batch && 0 <= i < |batch| ==>
      ComesFirst(table[batch[i]], table[id])
  {
    var open := Candidates(table, locked, now);
    forall i | 0 <= i < |batch| ensures batch[i] in open { assert batch[i] in Elements(batch); }
    if |batch| < limit {
      DistinctCount(table, batch);
      WholeSubset(Elements(batch), open);
    }
  }

  lemma WholeSubset<T>(part: set<T>, whole: set<T>)
    requires part <= whole && |part| == |whole|
    ensures part == whole
  {
    assert |whole - part| == |whole| - |part|;
  }

  function ClaimRows(table: Table, batch: seq<EventId>, now: Time, lease: real, tokens: map<EventId, Token>): Table
    requires Elements(batch) <= tokens.Keys
  {
    map id | id in table :: if id in batch then Claim(table[id], now, lease, tokens[id]) else table[id]
  }

  lemma {:induction false} DistinctCount(table: Table, ids: seq<EventId>)
    requires Ordered(table, ids)
    ensures |Elements(ids)| == |ids|
  {
    if ids != [] {
      DistinctCount(table, Front(ids));
      assert Elements(ids) == Elements(Front(ids)) + {Last(ids)};
    }
  }

  /** A claimed row is out of reach of every further selection at the same instant, and only those rows are. */
  lemma ClaimedRowsAreNotCandidates(table: Table, locked: set<EventId>, limit: nat, now: Time, lease: real,
                                    batch: seq<EventId>, tokens: map<EventId, Token>)
    requires IsBatch(table, locked, limit, now, batch) && lease > 0.0
    requires Elements(batch) <= tokens.Keys
    ensures Candidates(ClaimRows(table, batch, now, lease, tokens), locked, now)
         == Candidates(table, locked, now) - Elements(batch)
    ensures |Candidates(ClaimRows(table, batch, now, lease, tokens), locked, now)|
         == |Candidates(table, locked, now)| - |batch|
  {
    DistinctCount(table, batch);
    var after := Candidates(ClaimRows(table, batch, now, lease, tokens), locked, now);
    assert after == Candidates(table, locked, now) - Elements(batch);
  }

  /** Repeated calls at one instant, each finding something, until one would find nothing. */
  ghost predicate Drains(table: Table, locked: set<EventId>, limit: nat, now: Time, lease: real,
                         batches: seq<seq<EventId>>, draws: seq<map<EventId, Token>>)
    requires |draws| == |batches|
    decreases |batches|
  {
    if batches == [] then Candidates(table, locked, now) == {}
    else
      && batches[0] != []
      && IsBatch(table, locked, limit, now, batches[0])
      && Elements(batches[0]) <= draws[0].Keys
      && Drains(ClaimRows(table, batches[0], now, lease, draws[0]), locked, limit, now, lease, batches[1..], draws[1..])
  }

  function Concat(batches: seq<seq<EventId>>): seq<EventId> {
    if batches == [] then [] else batches[0] + Concat(batches[1..])
  }

  /** A batch followed by an ordered listing of the candidates it left lists all candidates in order. */
  lemma JoinKeepsOrder(table: Table, after: Table, locked: set<EventId>, limit: nat, now: Time,
                       batch: seq<EventId>, rest: seq<EventId>)
    requires IsBatch(table, locked, limit, now, batch) && Ordered(after, rest)
    requires Elements(rest) == Candidates(table, locked, now) - Elements(batch)
    requires forall id :: id in table && id !in batch ==> id in after && after[id] == table[id]
    ensures Ordered(table, batch + rest)
    ensures Elements(batch + rest) == Candidates(table, locked, now)
  {
    var flat := batch + rest;
    forall i | 0 <= i < |flat| ensures flat[i] in Candidates(table, locked, now) {
      if i < |batch| {
        assert batch[i] in Elements(batch);
      } else {
        assert rest[i - |batch|] in Elements(rest);
      }
    }
    forall i, j | 0 <= i < j < |flat|
      ensures flat[i] != flat[j] && KeyLeq(table[flat[i]], table[flat[j]])
    {
      if |batch| <= j {
        assert rest[j - |batch|] in Elements(rest);
        if i >= |batch| { assert rest[i - |batch|] in Elements(rest); }
      }
    }
    assert Elements(flat) == Elements(batch) + Elements(rest);
  }

  /**
   Repeating `claim_batch` at one instant claims each of the n eligible unlocked events exactly once,
   in ceil(n / limit) non-empty calls, and the calls together list all of them in delivery order.
   */
  lemma {:induction false} DrainingClaimsEachEventOnce(table: Table, locked: set<EventId>, limit: nat, now: Time,
                                                       lease: real, batches: seq<seq<EventId>>,
                                                       draws: seq<map<EventId, Token>>)
    requires limit >= 1 && lease > 0.0 && |draws| == |batches|
    requires Drains(table, locked, limit, now, lease, batches, draws)
    ensures Ordered(table, Concat(batches))
    ensures Elements(Concat(batches)) == Candidates(table, locked, now)
    ensures |batches| == CeilDiv(|Candidates(table, locked, now)|, limit)
    decreases |batches|
  {
    if batches != [] {
      var batch := batches[0];
      var after := ClaimRows(table, batch, now, lease, draws[0]);
      DrainingClaimsEachEventOnce(after, locked, limit, now, lease, batches[1..], draws[1..]);
      ClaimedRowsAreNotCandidates(table, locked, limit, now, lease, batch, draws[0]);
      JoinKeepsOrder(table, after, locked, limit, now, batch, Concat(batches[1..]));
    }
  }
}
