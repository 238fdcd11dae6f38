/**
 Many workers sharing one outbox table. Every operation belongs to a transaction; a transaction locks
 the rows it selects, changes its own copies of them, and makes the changes visible all at once when it
 commits, or not at all. Operations of different transactions interleave freely.
 */
module OutboxTransactions {
  import opened Common
  import opened OutboxEvent
  import opened OutboxQuery

  type TxId = nat

  // `log` is the history of `row`; no operation looks at it.
  datatype Entry = Entry(row: Row, log: seq<Action>)

  // Where a transaction keeps its own copy of a row.
  datatype Slot = Slot(tx: TxId, id: EventId)

  datatype Db = Db(
    table: map<EventId, Entry>,       // committed rows
    locks: map<EventId, TxId>,        // row locks and who holds them
    copies: map<Slot, Entry>,         // uncommitted rows; several transactions could have one of the same event
    open: set<TxId>,                  // transactions that have begun and not ended
    issued: map<Token, EventId>)      // every token ever drawn, also by aborted transactions

  datatype Op =
    | Insert(id: EventId, createdAt: Time)
    | ClaimBatch(tx: TxId, limit: int, now: Time, lease: real, batch: seq<EventId>, tokens: map<EventId, Token>)
    | Load(tx: TxId, id: EventId)
    | Acknowledge(tx: TxId, id: EventId, token: Token, now: Time)
    | Fail(tx: TxId, id: EventId, token: Token, now: Time, text: string, policy: RetryPolicy)
    | Commit(tx: TxId)
    | Abort(tx: TxId)

  const EMPTY := Db(map[], map[], map[], {}, map[])

  function Rows(db: Db): Table {
    map id | id in db.table :: db.table[id].row
  }

  predicate Holds(db: Db, tx: TxId, id: EventId) {
    Slot(tx, id) in db.copies
  }

  /** A row as a transaction sees it: its own copy if it has one, otherwise what is committed. */
  function Seen(db: Db, tx: TxId, id: EventId): Entry
    requires id in db.table
  {
    if Holds(db, tx, id) then db.copies[Slot(tx, id)] else db.table[id]
  }

  function Visible(db: Db, tx: TxId): Table {
    map id | id in db.table :: Seen(db, tx, id).row
  }

  /** The rows that SKIP LOCKED passes over. */
  function LockedByOthers(db: Db, tx: TxId): set<EventId> {
    set id | id in db.locks && db.locks[id] != tx
  }

  function Open(db: Db, tx: TxId, now: Time): set<EventId> {
    Candidates(Visible(db, tx), LockedByOthers(db, tx), now)
  }

  function Extend(entry: Entry, row: Row, action: Action): Entry {
    Entry(row, entry.log + [action])
  }

  function ClaimedEntry(entry: Entry, now: Time, lease: real, token: Token): Entry {
    Extend(entry, Claim(entry.row, now, lease, token), Claimed(now, lease, token))
  }

  /** The transaction changes its own copy. */
  function Write(db: Db, tx: TxId, id: EventId, entry: Entry): Db {
    db.(copies := db.copies[Slot(tx, id) := entry])
  }

  function Slots(tx: TxId, ids: set<EventId>): set<Slot> {
    set id | id in ids :: Slot(tx, id)
  }

  /** Tokens are drawn at random: never one that was drawn before, never two equal ones. */
  ghost predicate FreshDraw(db: Db, op: Op)
    requires op.ClaimBatch?
  {
    && op.tokens.Keys == Elements(op.batch)
    && (forall id :: id in op.tokens ==> op.tokens[id] !in db.issued)
    && (forall id, other :: id in op.tokens && other in op.tokens && id != other ==> op.tokens[id] != op.tokens[other])
  }

  /** When an operation can happen. A transaction that claims again has flushed its changes before. */
  ghost predicate Enabled(db: Db, op: Op) {
    match op
    case Insert(id, _) => id !in db.table
    case ClaimBatch(tx, limit, now, lease, batch, tokens) =>
      && limit >= 1 && lease > 0.0
      && IsBatch(Visible(db, tx), LockedByOthers(db, tx), limit, now, batch)
      && FreshDraw(db, op)
    case Load(tx, id) => id in db.table && id !in db.locks
    case Acknowledge(tx, id, _, _) => Holds(db, tx, id)
    case Fail(tx, id, _, _, _, _) => Holds(db, tx, id)
    case Commit(tx) => tx in db.open
    case Abort(tx) => tx in db.open
  }

  ghost function Apply(db: Db, op: Op): Db
    requires Enabled(db, op)
  {
    match op
    case Insert(id, createdAt) => db.(table := db.table[id := Entry(NewRow(createdAt), [])])
    case ClaimBatch(tx, limit, now, lease, batch, tokens) =>
      var claimed := Open(db, tx, now) * tokens.Keys;
      db.(locks := map id | id in db.locks.Keys + tokens.Keys :: if id in tokens then tx else db.locks[id],
          copies := map s | s in db.copies.Keys + Slots(tx, tokens.Keys) ::
                      if s.tx == tx && s.id in claimed
                      then ClaimedEntry(Seen(db, tx, s.id), now, lease, tokens[s.id]) else db.copies[s],
          open := db.open + {tx},
          issued := map t | t in db.issued.Keys + tokens.Values ::
                      if t in db.issued then db.issued[t] else Drawer(tokens, t))
    case Load(tx, id) => Write(db, tx, id, db.table[id]).(locks := db.locks[id := tx], open := db.open + {tx})
    case Acknowledge(tx, id, token, now) =>
      var entry := db.copies[Slot(tx, id)];
      var r := MarkPublished(entry.row, token, now);
      if r.Failure? then db else Write(db, tx, id, Extend(entry, r.value, Acknowledged(now, token)))
    case Fail(tx, id, token, now, text, policy) =>
      var entry := db.copies[Slot(tx, id)];
      var r := ApplyFailure(entry.row, token, now, text, policy);
      if r.Failure? then db else Write(db, tx, id, Extend(entry, r.value, Failed(now, token, text, policy)))
    case Commit(tx) => Release(db, tx).(table :=
      map id | id in db.table :: Seen(db, tx, id))
    case Abort(tx) => Release(db, tx)
  }

  ghost function Drawer(tokens: map<EventId, Token>, t: Token): EventId
    requires t in tokens.Values
  {
    var id :| id in tokens && tokens[id] == t; id
  }

  function Release(db: Db, tx: TxId): Db {
    db.(locks := map id | id in db.locks && db.locks[id] != tx :: db.locks[id],
        copies := map s | s in db.copies && s.tx != tx :: db.copies[s],
        open := db.open - {tx})
  }

  // ----- the invariant -----

  /** The row is exactly what its history makes of a new row, and its tokens were drawn for it, once each. */
  ghost predicate Sound(db: Db, id: EventId, entry: Entry) {
    && Run(entry.row.createdAt, entry.log) == Some(entry.row)
    && FreshTokens(entry.log)
    && (forall k :: 0 <= k < |entry.log| && entry.log[k].Claimed? ==>
          entry.log[k].token in db.issued && db.issued[entry.log[k].token] == id)
  }

  /** The committed history is a beginning of the copy's: nobody has committed behind its back. */
  ghost predicate Continues(copy: Entry, committed: Entry) {
    committed.log <= copy.log && copy.row.createdAt == committed.row.createdAt
  }

  ghost predicate Inv(db: Db) {
    && (forall id :: id in db.table ==> Sound(db, id, db.table[id]))
    && (forall id :: id in db.locks ==> id in db.table && db.locks[id] in db.open)
    && (forall s :: s in db.copies ==> CopySound(db, s))
  }

  /** Whoever has a copy holds the lock, and the copy goes on from what is committed. */
  ghost predicate CopySound(db: Db, s: Slot)
    requires s in db.copies
  {
    && s.id in db.table
    && s.id in db.locks && db.locks[s.id] == s.tx
    && Sound(db, s.id, db.copies[s])
    && Continues(db.copies[s], db.table[s.id])
  }

  lemma ExtendIsSound(db: Db, after: Db, id: EventId, entry: Entry, row: Row, action: Action)
    requires Sound(db, id, entry) && Step(entry.row, action) == Some(row)
    requires action.Claimed? ==>
      action.token !in db.issued && action.token in after.issued && after.issued[action.token] == id
    requires IssuedGrows(db, after)
    ensures Sound(after, id, Extend(entry, row, action))
    ensures Continues(Extend(entry, row, action), entry)
  {
    var log := entry.log + [action];
    assert Front(log) == entry.log && Last(log) == action;
  }

  ghost predicate IssuedGrows(db: Db, after: Db) {
    forall t :: t in db.issued ==> t in after.issued && after.issued[t] == db.issued[t]
  }

  lemma SeenIsSound(db: Db, tx: TxId, id: EventId)
    requires Inv(db) && id in db.table
    ensures Sound(db, id, Seen(db, tx, id)) && Continues(Seen(db, tx, id), db.table[id])
  {
    if Holds(db, tx, id) { assert CopySound(db, Slot(tx, id)); }
  }

  lemma ClaimedEntryIsSound(db: Db, after: Db, tx: TxId, id: EventId, now: Time, lease: real, token: Token)
    requires Inv(db) && id in db.table && Eligible(Seen(db, tx, id).row, now) && lease > 0.0
    requires token !in db.issued && token in after.issued && after.issued[token] == id
    requires IssuedGrows(db, after)
    ensures Sound(after, id, ClaimedEntry(Seen(db, tx, id), now, lease, token))
    ensures Continues(ClaimedEntry(Seen(db, tx, id), now, lease, token), db.table[id])
  {
    var entry := Seen(db, tx, id);
    SeenIsSound(db, tx, id);
    ExtendIsSound(db, after, id, entry, Claim(entry.row, now, lease, token), Claimed(now, lease, token));
  }

  /** The tokens of a claim are known to have been drawn for its events. */
  ghost predicate Issues(db: Db, op: Op, after: Db)
    requires op.ClaimBatch?
  {
    && IssuedGrows(db, after)
    && (forall id :: id in op.tokens ==>
          && op.tokens[id] !in db.issued
          && op.tokens[id] in after.issued && after.issued[op.tokens[id]] == id)
  }

  lemma ClaimIssuesTokens(db: Db, op: Op)
    requires Enabled(db, op) && op.ClaimBatch?
    ensures Issues(db, op, Apply(db, op))
  {
    var after := Apply(db, op);
    forall id | id in op.tokens
      ensures op.tokens[id] in after.issued && after.issued[op.tokens[id]] == id
    {
      assert op.tokens[id] in op.tokens.Values && Drawer(op.tokens, op.tokens[id]) == id;
    }
  }

  lemma ClaimKeepsInv(db: Db, op: Op)
    requires Inv(db) && Enabled(db, op) && op.ClaimBatch?
    ensures Inv(Apply(db, op))
  {
    ClaimLocksTheBatch(db, op);
    ClaimIssuesTokens(db, op);
    assert op.tokens.Keys <= Open(db, op.tx, op.now);
    ClaimedIsSound(db, op, Apply(db, op));
  }

  lemma CopiesStaySound(db: Db, op: Op, after: Db)
    requires Inv(db) && op.ClaimBatch? && op.lease > 0.0 && ClaimedFrom(db, op, after) && Issues(db, op, after)
    requires op.tokens.Keys <= Open(db, op.tx, op.now)
    ensures forall s :: s in after.copies ==> CopySound(after, s)
  {
    forall s | s in after.copies ensures CopySound(after, s) {
      if s.tx == op.tx && s.id in op.tokens {
        ClaimedCopyIsSound(db, op, after, s.id);
      } else {
        OtherCopyStaysSound(db, op, after, s);
      }
    }
  }

  lemma ClaimedIsSound(db: Db, op: Op, after: Db)
    requires Inv(db) && op.ClaimBatch? && op.lease > 0.0 && ClaimedFrom(db, op, after) && Issues(db, op, after)
    requires op.tokens.Keys <= Open(db, op.tx, op.now) && db.open <= after.open
    ensures Inv(after)
  {
    CopiesStaySound(db, op, after);
    TableStaysSound(db, after);
    LocksStayOpen(db, op, after);
  }

  lemma TableStaysSound(db: Db, after: Db)
    requires Inv(db) && after.table == db.table && IssuedGrows(db, after)
    ensures forall id :: id in after.table ==> Sound(after, id, after.table[id])
  {
    forall id | id in after.table ensures Sound(after, id, after.table[id]) { assert Sound(db, id, db.table[id]); }
  }

  lemma LocksStayOpen(db: Db, op: Op, after: Db)
    requires Inv(db) && op.ClaimBatch? && ClaimedFrom(db, op, after) && db.open <= after.open
    ensures forall id :: id in after.locks ==> id in after.table && after.locks[id] in after.open
  {
  }

  /** A batch contains no row that another transaction has locked. */
  lemma OtherCopyStaysSound(db: Db, op: Op, after: Db, s: Slot)
    requires Inv(db) && op.ClaimBatch? && ClaimedFrom(db, op, after) && IssuedGrows(db, after)
    requires s in after.copies && !(s.tx == op.tx && s.id in op.tokens)
    ensures CopySound(after, s)
  {
    assert CopySound(db, s);
    if s.tx != op.tx { OthersHaveNoCopy(db, s, op.tx); }
    assert after.copies[s] == db.copies[s] && after.table == db.table;
  }

  lemma ClaimedCopyIsSound(db: Db, op: Op, after: Db, id: EventId)
    requires Inv(db) && op.ClaimBatch? && op.lease > 0.0 && ClaimedFrom(db, op, after) && Issues(db, op, after)
    requires op.tokens.Keys <= Open(db, op.tx, op.now) && id in op.tokens
    ensures Slot(op.tx, id) in after.copies && CopySound(after, Slot(op.tx, id))
  {
    assert Slot(op.tx, id) in Slots(op.tx, op.tokens.Keys);
    ClaimedEntryIsSound(db, after, op.tx, id, op.now, op.lease, op.tokens[id]);
  }

  /** A successful settlement of a copy keeps the invariant. */
  lemma SettlingKeepsInv(db: Db, tx: TxId, id: EventId, row: Row, action: Action)
    requires Inv(db) && Holds(db, tx, id) && !action.Claimed?
    requires Step(db.copies[Slot(tx, id)].row, action) == Some(row)
    ensures Inv(Write(db, tx, id, Extend(db.copies[Slot(tx, id)], row, action)))
  {
    var entry := db.copies[Slot(tx, id)];
    var after := Write(db, tx, id, Extend(entry, row, action));
    assert CopySound(db, Slot(tx, id));
    ExtendIsSound(db, after, id, entry, row, action);
    forall s | s in after.copies ensures CopySound(after, s) {
      if s != Slot(tx, id) { assert CopySound(db, s); }
    }
  }

  lemma ReleaseKeepsInv(db: Db, tx: TxId)
    requires Inv(db)
    ensures Inv(Release(db, tx))
  {
    forall s | s in Release(db, tx).copies ensures CopySound(Release(db, tx), s) { assert CopySound(db, s); }
  }

  lemma OthersHaveNoCopy(db: Db, s: Slot, other: TxId)
    requires Inv(db) && s in db.copies && other != s.tx
    ensures !Holds(db, other, s.id) && s.id in LockedByOthers(db, other)
  {
    assert CopySound(db, s);
    if Holds(db, other, s.id) { SlotIsLocked(db, Slot(other, s.id)); }
  }

  lemma SlotIsLocked(db: Db, s: Slot)
    requires Inv(db) && s in db.copies
    ensures s.id in db.locks && db.locks[s.id] == s.tx
  {
    assert CopySound(db, s);
  }

  /** A commit replaces no row of which another transaction has a copy: it would need that row's lock. */
  lemma OtherCopySurvivesCommit(db: Db, tx: TxId, s: Slot)
    requires Inv(db) && tx in db.open && s in db.copies && s.tx != tx
    ensures var after := Apply(db, Commit(tx)); s in after.copies && CopySound(after, s)
  {
    assert CopySound(db, s);
    OthersHaveNoCopy(db, s, tx);
  }

  lemma CommitKeepsInv(db: Db, tx: TxId)
    requires Inv(db) && tx in db.open
    ensures Inv(Apply(db, Commit(tx)))
  {
    var after := Apply(db, Commit(tx));
    forall s | s in after.copies ensures CopySound(after, s) { OtherCopySurvivesCommit(db, tx, s); }
    forall id | id in db.table ensures Sound(after, id, after.table[id]) { SeenIsSound(db, tx, id); }
  }

  lemma InsertKeepsInv(db: Db, id: EventId, createdAt: Time)
    requires Inv(db) && id !in db.table
    ensures Inv(Apply(db, Insert(id, createdAt)))
  {
    var after := Apply(db, Insert(id, createdAt));
    forall s | s in db.copies ensures CopySound(after, s) { assert CopySound(db, s); }
  }

  lemma LoadKeepsInv(db: Db, tx: TxId, id: EventId)
    requires Inv(db) && Enabled(db, Load(tx, id))
    ensures Inv(Apply(db, Load(tx, id)))
  {
    var after := Apply(db, Load(tx, id));
    forall s | s in after.copies ensures CopySound(after, s) {
      if s != Slot(tx, id) { assert CopySound(db, s); }
    }
  }

  /** Every operation of every worker keeps the invariant. */
  lemma OperationKeepsInv(db: Db, op: Op)
    requires Inv(db) && Enabled(db, op)
    ensures Inv(Apply(db, op))
  {
    match op
    case Insert(id, createdAt) => InsertKeepsInv(db, id, createdAt);
    case ClaimBatch(_, _, _, _, _, _) => ClaimKeepsInv(db, op);
    case Load(tx, id) => LoadKeepsInv(db, tx, id);
    case Acknowledge(tx, id, token, now) =>
      var r := MarkPublished(db.copies[Slot(tx, id)].row, token, now);
      if r.Success? { SettlingKeepsInv(db, tx, id, r.value, Acknowledged(now, token)); }
    case Fail(tx, id, token, now, text, policy) =>
      var r := ApplyFailure(db.copies[Slot(tx, id)].row, token, now, text, policy);
      if r.Success? { SettlingKeepsInv(db, tx, id, r.value, Failed(now, token, text, policy)); }
    case Commit(tx) => CommitKeepsInv(db, tx);
    case Abort(tx) => ReleaseKeepsInv(db, tx);
  }

  /** No operation ever loses a committed update: committed histories only grow. */
  lemma HistoriesOnlyGrow(db: Db, op: Op, id: EventId)
    requires Inv(db) && Enabled(db, op) && id in db.table
    ensures id in Apply(db, op).table && Continues(Apply(db, op).table[id], db.table[id])
  {
    if op.Commit? { SeenIsSound(db, op.tx, id); }
  }

  // ----- whole runs -----

  /** `states` is a run: it starts empty and each state results from some enabled operation. */
  ghost predicate IsRun(states: seq<Db>, ops: seq<Op>) {
    && |states| == |ops| + 1
    && states[0] == EMPTY
    && (forall i :: 0 <= i < |ops| ==> Steps(states, ops, i))
  }

  ghost predicate Steps(states: seq<Db>, ops: seq<Op>, i: nat)
    requires i < |ops| < |states|
  {
    Enabled(states[i], ops[i]) && states[i + 1] == Apply(states[i], ops[i])
  }

  lemma {:induction false} RunsKeepInv(states: seq<Db>, ops: seq<Op>, k: nat)
    requires IsRun(states, ops) && k < |states|
    ensures Inv(states[k])
  {
    if k > 0 {
      RunsKeepInv(states, ops, k - 1);
      assert Steps(states, ops, k - 1);
      OperationKeepsInv(states[k - 1], ops[k - 1]);
    }
  }

  lemma {:induction false} CommittedHistoryGrows(states: seq<Db>, ops: seq<Op>, i: nat, j: nat, id: EventId)
    requires IsRun(states, ops) && i <= j < |states| && id in states[i].table
    ensures id in states[j].table && Continues(states[j].table[id], states[i].table[id])
    decreases j
  {
    if i < j {
      CommittedHistoryGrows(states, ops, i, j - 1, id);
      RunsKeepInv(states, ops, j - 1);
      assert Steps(states, ops, j - 1);
      HistoriesOnlyGrow(states[j - 1], ops[j - 1], id);
    }
  }

  /** In no state of any run are two transactions at work on one event. */
  lemma OneWorkerPerEvent(states: seq<Db>, ops: seq<Op>, k: nat, tx: TxId, other: TxId, id: EventId)
    requires IsRun(states, ops) && k < |states|
    requires Holds(states[k], tx, id) && Holds(states[k], other, id)
    ensures tx == other
  {
    RunsKeepInv(states, ops, k);
    assert CopySound(states[k], Slot(tx, id)) && CopySound(states[k], Slot(other, id));
  }

  /**
   Safety of every interleaving. In each state of each run a committed event is PROCESSING exactly when
   its latest update is a claim, whose live token and lease it carries; its attempts obey the accounting
   law; and any two of its committed claims are a failure or the first lease apart.
   */
  lemma EveryRunIsSafe(states: seq<Db>, ops: seq<Op>, k: nat, id: EventId)
    requires IsRun(states, ops) && k < |states| && id in states[k].table
    ensures var e := states[k].table[id];
      && Legal(e.row.createdAt, e.log) && FreshTokens(e.log)
      && Shape(e.row, e.log)
      && e.row.attempts == |ReturnAttempts(e.row.createdAt, e.log)| + Takeovers(e.row.createdAt, e.log)
                           + (if e.row.status == Pending then 0 else 1)
    ensures forall i, j :: 0 <= i < j < |states[k].table[id].log| ==>
      Apart(states[k].table[id].log, i, j)
  {
    RunsKeepInv(states, ops, k);
    var e := states[k].table[id];
    assert Sound(states[k], id, e);
    RunHasShape(e.row.createdAt, e.log);
    ClaimAccounting(e.row.createdAt, e.log);
    forall i, j | 0 <= i < j < |e.log| ensures Apart(e.log, i, j) {
      if e.log[i].Claimed? && e.log[j].Claimed? { ClaimsAreSeparated(e.row.createdAt, e.log, i, j); }
    }
  }

  ghost predicate Apart(log: seq<Action>, i: nat, j: nat)
    requires i < j < |log|
  {
    log[i].Claimed? && log[j].Claimed? ==>
      (exists k :: i < k < j && log[k].Failed?) || log[j].now >= log[i].now + log[i].lease
  }

  /**
   Fencing across transactions. A worker that holds the current row but comes with a token whose claim
   has been followed by anything at all, or with a token drawn for another event, changes nothing.
   */
  lemma StaleTokensChangeNothing(states: seq<Db>, ops: seq<Op>, k: nat, tx: TxId, id: EventId, token: Token,
                                 now: Time, text: string, policy: RetryPolicy)
    requires IsRun(states, ops) && k < |states| && Holds(states[k], tx, id)
    requires Superseded(states[k].copies[Slot(tx, id)].log, token)
          || (token in states[k].issued && states[k].issued[token] != id)
    ensures Apply(states[k], Acknowledge(tx, id, token, now)) == states[k]
    ensures Apply(states[k], Fail(tx, id, token, now, text, policy)) == states[k]
  {
    RunsKeepInv(states, ops, k);
    assert CopySound(states[k], Slot(tx, id));
    var e := states[k].copies[Slot(tx, id)];
    RunHasShape(e.row.createdAt, e.log);
    if Superseded(e.log, token) {
      var i :| 0 <= i < |e.log| - 1 && e.log[i].Claimed? && e.log[i].token == token;
      SupersededTokenIsFenced(e.row.createdAt, e.log, i, now, text, policy);
    }
  }

  /** The copy's last update is the claim that drew the token. */
  ghost predicate Live(copy: Entry, token: Token) {
    copy.log != [] && Last(copy.log).Claimed? && Last(copy.log).token == token
  }

  /** Settlements take effect exactly with a live token. */
  lemma SettlementsTakeEffectExactly(states: seq<Db>, ops: seq<Op>, k: nat, tx: TxId, id: EventId, token: Token,
                                     now: Time, text: string, policy: RetryPolicy)
    requires IsRun(states, ops) && k < |states| && Holds(states[k], tx, id)
    ensures var db, slot := states[k], Slot(tx, id);
      var acknowledged := Apply(db, Acknowledge(tx, id, token, now));
      var failed := Apply(db, Fail(tx, id, token, now, text, policy));
      if Live(db.copies[slot], token) then
        && acknowledged == db.(copies := acknowledged.copies) && failed == db.(copies := failed.copies)
        && acknowledged.copies == db.copies[slot := acknowledged.copies[slot]]
        && failed.copies == db.copies[slot := failed.copies[slot]]
        && acknowledged.copies[slot].row.status == Published
        && acknowledged.copies[slot].log == db.copies[slot].log + [Acknowledged(now, token)]
        && failed.copies[slot].log == db.copies[slot].log + [Failed(now, token, text, policy)]
        && failed.copies[slot].row.status
           == (if db.copies[slot].row.attempts >= policy.maxAttempts then DeadLetter else Pending)
      else acknowledged == db && failed == db
  {
    RunsKeepInv(states, ops, k);
    assert CopySound(states[k], Slot(tx, id));
    var e := states[k].copies[Slot(tx, id)];
    RunHasShape(e.row.createdAt, e.log);
  }

  /** A commit makes exactly the transaction's own copies the committed rows and gives up its locks. */
  lemma CommitPublishesOwnCopies(db: Db, tx: TxId)
    requires Enabled(db, Commit(tx))
    ensures var after := Apply(db, Commit(tx));
      && after.table.Keys == db.table.Keys
      && (forall id :: id in db.table ==>
            after.table[id] == if Slot(tx, id) in db.copies then db.copies[Slot(tx, id)] else db.table[id])
      && (forall s :: s in after.copies <==> s in db.copies && s.tx != tx)
      && (forall id :: id in after.locks <==> id in db.locks && db.locks[id] != tx)
  {
  }

  /** An abort leaves the committed rows as they were and gives up the locks as well. */
  lemma AbortDiscardsOwnCopies(db: Db, tx: TxId)
    requires Enabled(db, Abort(tx))
    ensures Apply(db, Abort(tx)).table == db.table
    ensures Apply(db, Abort(tx)).copies == Apply(db, Commit(tx)).copies
    ensures Apply(db, Abort(tx)).locks == Apply(db, Commit(tx)).locks
  {
  }

  ghost predicate Superseded(log: seq<Action>, token: Token) {
    exists i :: 0 <= i < |log| - 1 && log[i].Claimed? && log[i].token == token
  }

  /** Once an event is committed as PUBLISHED or DEAD_LETTER, its row is the same in every later state. */
  lemma TerminalRowsNeverChange(states: seq<Db>, ops: seq<Op>, i: nat, j: nat, id: EventId)
    requires IsRun(states, ops) && i <= j < |states| && id in states[i].table
    requires Terminal(states[i].table[id].row)
    ensures id in states[j].table && states[j].table[id] == states[i].table[id]
  {
    CommittedHistoryGrows(states, ops, i, j, id);
    RunsKeepInv(states, ops, i);
    RunsKeepInv(states, ops, j);
    var e, f := states[i].table[id], states[j].table[id];
    assert Sound(states[j], id, f) && Sound(states[i], id, e);
    var later := f.log[|e.log|..];
    assert f.log == e.log + later;
    TerminalIsAbsorbing(e.row.createdAt, e.log, later);
    assert f.log == e.log;
  }

  // ----- attempts and the policy -----

  /** All failures of a run are recorded under one policy. */
  ghost predicate OnePolicy(ops: seq<Op>, policy: RetryPolicy) {
    forall i :: 0 <= i < |ops| && ops[i].Fail? ==> ops[i].policy == policy
  }

  ghost predicate PolicyKept(db: Db, policy: RetryPolicy) {
    && (forall id :: id in db.table ==> UsesPolicy(db.table[id].log, policy))
    && (forall s :: s in db.copies ==> UsesPolicy(db.copies[s].log, policy))
  }

  lemma OperationKeepsPolicy(db: Db, op: Op, policy: RetryPolicy)
    requires Enabled(db, op) && PolicyKept(db, policy) && (op.Fail? ==> op.policy == policy)
    ensures PolicyKept(Apply(db, op), policy)
  {
    if op.ClaimBatch? {
      ClaimLocksTheBatch(db, op);
      ClaimKeepsPolicy(db, op, Apply(db, op), policy);
    }
  }

  lemma ClaimKeepsPolicy(db: Db, op: Op, claimed: Db, policy: RetryPolicy)
    requires op.ClaimBatch? && ClaimedFrom(db, op, claimed) && PolicyKept(db, policy)
    ensures PolicyKept(claimed, policy)
  {
    forall s | s in claimed.copies ensures UsesPolicy(claimed.copies[s].log, policy) {
      if s.id in op.tokens { assert UsesPolicy(Seen(db, op.tx, s.id).log, policy); }
    }
  }

  lemma {:induction false} RunsKeepPolicy(states: seq<Db>, ops: seq<Op>, policy: RetryPolicy, k: nat)
    requires IsRun(states, ops) && OnePolicy(ops, policy) && k < |states|
    ensures PolicyKept(states[k], policy)
  {
    if k > 0 {
      RunsKeepPolicy(states, ops, policy, k - 1);
      assert Steps(states, ops, k - 1);
      OperationKeepsPolicy(states[k - 1], ops[k - 1], policy);
    }
  }

  /**
   In every state of every interleaving under one policy, a committed event has attempt_count <=
   max_attempts exactly when none of its committed claims took over a row whose attempts were used up.
   */
  lemma AttemptsStayWithinPolicyInRuns(states: seq<Db>, ops: seq<Op>, policy: RetryPolicy, k: nat, id: EventId)
    requires IsRun(states, ops) && OnePolicy(ops, policy) && k < |states| && id in states[k].table
    ensures var e := states[k].table[id];
      && Legal(e.row.createdAt, e.log)
      && (e.row.attempts <= policy.maxAttempts
          <==> forall i :: 0 <= i < |e.log| ==> !TakesOverSpent(e.row.createdAt, e.log, i, policy))
  {
    RunsKeepInv(states, ops, k);
    RunsKeepPolicy(states, ops, policy, k);
    var e := states[k].table[id];
    assert Sound(states[k], id, e);
    AttemptsStayWithinPolicy(e.row.createdAt, e.log, policy);
  }

  /** A claim that passes over the spent rows among those it sees. */
  ghost predicate AvoidsSpent(db: Db, op: Op, policy: RetryPolicy) {
    op.ClaimBatch? ==>
      forall id :: id in op.batch && id in db.table ==> !Spent(Seen(db, op.tx, id).row, policy)
  }

  ghost predicate WithinPolicy(db: Db, policy: RetryPolicy) {
    && (forall id :: id in db.table ==> db.table[id].row.attempts <= policy.maxAttempts)
    && (forall s :: s in db.copies ==> db.copies[s].row.attempts <= policy.maxAttempts)
  }

  lemma ClaimableRowHasAttemptsLeft(db: Db, id: EventId, entry: Entry, now: Time, policy: RetryPolicy)
    requires Sound(db, id, entry) && UsesPolicy(entry.log, policy)
    requires Eligible(entry.row, now) && !Spent(entry.row, policy)
    ensures entry.row.attempts < policy.maxAttempts
  {
    if entry.row.status == Pending { PendingHasAttemptsLeft(entry.row.createdAt, entry.log, policy); }
  }

  lemma ClaimedAttempts(db: Db, op: Op, claimed: Db, policy: RetryPolicy)
    requires op.ClaimBatch? && ClaimedFrom(db, op, claimed) && WithinPolicy(db, policy)
    requires forall id :: id in op.tokens ==> Seen(db, op.tx, id).row.attempts < policy.maxAttempts
    ensures WithinPolicy(claimed, policy)
  {
  }

  lemma ClaimStaysWithinPolicy(db: Db, op: Op, policy: RetryPolicy)
    requires Inv(db) && Enabled(db, op) && op.ClaimBatch? && PolicyKept(db, policy)
    requires WithinPolicy(db, policy) && AvoidsSpent(db, op, policy)
    ensures WithinPolicy(Apply(db, op), policy)
  {
    ClaimLocksTheBatch(db, op);
    assert op.tokens.Keys <= Open(db, op.tx, op.now);
    forall id | id in op.tokens ensures Seen(db, op.tx, id).row.attempts < policy.maxAttempts {
      SeenIsSound(db, op.tx, id);
      ClaimableRowHasAttemptsLeft(db, id, Seen(db, op.tx, id), op.now, policy);
    }
    ClaimedAttempts(db, op, Apply(db, op), policy);
  }

  lemma OthersStayWithinPolicy(db: Db, op: Op, policy: RetryPolicy)
    requires Enabled(db, op) && !op.ClaimBatch? && WithinPolicy(db, policy)
    ensures WithinPolicy(Apply(db, op), policy)
  {
  }

  lemma OperationStaysWithinPolicy(db: Db, op: Op, policy: RetryPolicy)
    requires Inv(db) && Enabled(db, op) && PolicyKept(db, policy)
    requires WithinPolicy(db, policy) && AvoidsSpent(db, op, policy)
    ensures WithinPolicy(Apply(db, op), policy)
  {
    if op.ClaimBatch? {
      ClaimStaysWithinPolicy(db, op, policy);
    } else {
      OthersStayWithinPolicy(db, op, policy);
    }
  }

  ghost predicate AllAvoidSpent(states: seq<Db>, ops: seq<Op>, policy: RetryPolicy)
    requires |states| > |ops|
  {
    forall i :: 0 <= i < |ops| ==> AvoidsSpent(states[i], ops[i], policy)
  }

  /** If every claim passes over spent rows, no event ever exceeds max_attempts, committed or not. */
  lemma {:induction false} GuardedClaimsStayWithinPolicy(states: seq<Db>, ops: seq<Op>, policy: RetryPolicy, k: nat)
    requires IsRun(states, ops) && OnePolicy(ops, policy) && k < |states|
    requires AllAvoidSpent(states, ops, policy)
    ensures WithinPolicy(states[k], policy)
  {
    if k > 0 {
      GuardedClaimsStayWithinPolicy(states, ops, policy, k - 1);
      GuardedStep(states, ops, policy, k - 1);
    }
  }

  lemma GuardedStep(states: seq<Db>, ops: seq<Op>, policy: RetryPolicy, i: nat)
    requires IsRun(states, ops) && OnePolicy(ops, policy) && i < |ops|
    requires AvoidsSpent(states[i], ops[i], policy) && WithinPolicy(states[i], policy)
    ensures WithinPolicy(states[i + 1], policy)
  {
    RunsKeepInv(states, ops, i);
    RunsKeepPolicy(states, ops, policy, i);
    var db, op, after := states[i], ops[i], states[i + 1];
    assert Steps(states, ops, i);
    OperationStaysWithinPolicy(db, op, policy);
    assert after == Apply(db, op);
  }

  // ----- one claim -----

  /** `claimed` is `db` with the batch claimed and locked by the transaction. */
  ghost predicate ClaimedFrom(db: Db, op: Op, claimed: Db)
    requires op.ClaimBatch?
  {
    && op.tokens.Keys == Elements(op.batch) <= db.table.Keys - LockedByOthers(db, op.tx)
    && claimed.table == db.table && op.tx in claimed.open
    && claimed.locks.Keys == db.locks.Keys + op.tokens.Keys
    && (forall id :: id in claimed.locks ==> claimed.locks[id] == if id in op.tokens then op.tx else db.locks[id])
    && claimed.copies.Keys == db.copies.Keys + Slots(op.tx, op.tokens.Keys)
    && (forall s :: s in claimed.copies && s.tx == op.tx && s.id in op.tokens ==>
          claimed.copies[s] == ClaimedEntry(Seen(db, op.tx, s.id), op.now, op.lease, op.tokens[s.id]))
    && (forall s :: s in claimed.copies && !(s.tx == op.tx && s.id in op.tokens) ==>
          s in db.copies && claimed.copies[s] == db.copies[s])
  }

  lemma ClaimLocksTheBatch(db: Db, op: Op)
    requires Enabled(db, op) && op.ClaimBatch?
    ensures ClaimedFrom(db, op, Apply(db, op))
  {
    assert op.tokens.Keys == Elements(op.batch) <= Open(db, op.tx, op.now);
  }

  lemma ClaimedLocksAreReleased(db: Db, op: Op, claimed: Db)
    requires op.ClaimBatch? && ClaimedFrom(db, op, claimed)
    ensures Release(claimed, op.tx).locks == Release(db, op.tx).locks
  {
  }

  lemma ClaimedRowIsCommitted(db: Db, op: Op, claimed: Db, id: EventId)
    requires op.ClaimBatch? && ClaimedFrom(db, op, claimed) && id in db.table
    ensures Seen(claimed, op.tx, id).row
         == if id in op.batch then Claim(Seen(db, op.tx, id).row, op.now, op.lease, op.tokens[id])
            else Seen(db, op.tx, id).row
  {
    assert id in op.batch <==> id in Elements(op.batch);
    if id !in op.batch { assert Holds(claimed, op.tx, id) <==> Holds(db, op.tx, id); }
  }

  /**
   A claim that commits with nothing in between has exactly the effect of `claim_batch` on the rows that its
   transaction saw, and then holds no lock.
   */
  lemma ClaimThenCommit(db: Db, op: Op, claimed: Db)
    requires op.ClaimBatch? && ClaimedFrom(db, op, claimed)
    ensures Rows(Apply(claimed, Commit(op.tx))) == ClaimRows(Visible(db, op.tx), op.batch, op.now, op.lease, op.tokens)
    ensures Apply(claimed, Commit(op.tx)).locks == Release(db, op.tx).locks
  {
    ClaimedLocksAreReleased(db, op, claimed);
    var committed := Apply(claimed, Commit(op.tx));
    forall id | id in db.table
      ensures committed.table[id].row == ClaimRows(Visible(db, op.tx), op.batch, op.now, op.lease, op.tokens)[id]
    {
      ClaimedRowIsCommitted(db, op, claimed, id);
    }
  }

  // ----- draining the table, one transaction after the other -----

  /** A new transaction sees the committed rows, and every lock is somebody else's. */
  lemma NewTransactionsSeeTheTable(db: Db, tx: TxId)
    requires Inv(db) && tx !in db.open
    ensures Visible(db, tx) == Rows(db) && LockedByOthers(db, tx) == db.locks.Keys
    ensures Release(db, tx).locks == db.locks
  {
    forall id ensures !Holds(db, tx, id) {
      if Holds(db, tx, id) { SlotIsLocked(db, Slot(tx, id)); }
    }
    assert forall id :: id in db.locks ==> db.locks[id] != tx;
  }

  /** The table after a claim that commits. */
  ghost function AfterClaim(db: Db, claim: Op): Db
    requires Enabled(db, claim) && claim.ClaimBatch?
  {
    Apply(Apply(db, claim), Commit(claim.tx))
  }

  lemma AfterClaimIsClaimed(db: Db, claim: Op)
    requires Inv(db) && Enabled(db, claim) && claim.ClaimBatch? && claim.tx !in db.open
    ensures Inv(AfterClaim(db, claim)) && AfterClaim(db, claim).locks == db.locks
    ensures Elements(claim.batch) <= claim.tokens.Keys
    ensures Rows(AfterClaim(db, claim)) == ClaimRows(Rows(db), claim.batch, claim.now, claim.lease, claim.tokens)
  {
    NewTransactionsSeeTheTable(db, claim.tx);
    ClaimLocksTheBatch(db, claim);
    ClaimThenCommit(db, claim, Apply(db, claim));
    ClaimKeepsInv(db, claim);
    CommitKeepsInv(Apply(db, claim), claim.tx);
  }

  /** New transactions, each claiming something at the same instant and committing, until nothing is left. */
  ghost predicate DrainedBy(db: Db, limit: nat, now: Time, lease: real, claims: seq<Op>)
    decreases |claims|
  {
    if claims == [] then Candidates(Rows(db), db.locks.Keys, now) == {}
    else
      var claim := claims[0];
      && claim.ClaimBatch? && claim.tx !in db.open && claim.batch != []
      && claim.limit == limit && claim.now == now && claim.lease == lease
      && Enabled(db, claim)
      && DrainedBy(AfterClaim(db, claim), limit, now, lease, claims[1..])
  }

  function Batches(claims: seq<Op>): (r: seq<seq<EventId>>)
    ensures |r| == |claims|
  {
    seq(|claims|, i requires 0 <= i < |claims| => if claims[i].ClaimBatch? then claims[i].batch else [])
  }

  function Draws(claims: seq<Op>): (r: seq<map<EventId, Token>>)
    ensures |r| == |claims|
  {
    seq(|claims|, i requires 0 <= i < |claims| => if claims[i].ClaimBatch? then claims[i].tokens else map[])
  }

  lemma ClaimIsBatch(db: Db, claim: Op)
    requires Inv(db) && claim.ClaimBatch? && claim.tx !in db.open && Enabled(db, claim)
    ensures IsBatch(Rows(db), db.locks.Keys, claim.limit, claim.now, claim.batch)
  {
    NewTransactionsSeeTheTable(db, claim.tx);
  }

  lemma FirstClaim(db: Db, limit: nat, now: Time, lease: real, claims: seq<Op>) returns (after: Db)
    requires Inv(db) && DrainedBy(db, limit, now, lease, claims) && claims != []
    ensures Inv(after) && after.locks == db.locks && DrainedBy(after, limit, now, lease, claims[1..])
    ensures var batch, draw := Batches(claims)[0], Draws(claims)[0];
      && batch != [] && IsBatch(Rows(db), db.locks.Keys, limit, now, batch)
      && Elements(batch) <= draw.Keys
      && Rows(after) == ClaimRows(Rows(db), batch, now, lease, draw)
  {
    ClaimIsBatch(db, claims[0]);
    AfterClaimIsClaimed(db, claims[0]);
    after := AfterClaim(db, claims[0]);
  }

  lemma TailsOfClaims(claims: seq<Op>)
    requires claims != []
    ensures Batches(claims)[1..] == Batches(claims[1..]) && Draws(claims)[1..] == Draws(claims[1..])
  {
  }

  lemma {:induction false} DrainedTableIsDrained(db: Db, limit: nat, now: Time, lease: real, claims: seq<Op>)
    requires Inv(db) && DrainedBy(db, limit, now, lease, claims)
    ensures Drains(Rows(db), db.locks.Keys, limit, now, lease, Batches(claims), Draws(claims))
    decreases |claims|
  {
    if claims != [] {
      var after := FirstClaim(db, limit, now, lease, claims);
      DrainedTableIsDrained(after, limit, now, lease, claims[1..]);
      TailsOfClaims(claims);
    }
  }

  /**
   Repeated claims at one instant, each in a transaction of its own that commits, claim every eligible event
   that nobody has locked exactly once, in delivery order, in ceil(n / limit) transactions.
   */
  lemma DrainingTransactionsClaimEachEventOnce(db: Db, limit: nat, now: Time, lease: real, claims: seq<Op>)
    requires Inv(db) && limit >= 1 && lease > 0.0 && DrainedBy(db, limit, now, lease, claims)
    ensures Ordered(Rows(db), Concat(Batches(claims)))
    ensures Elements(Concat(Batches(claims))) == Candidates(Rows(db), db.locks.Keys, now)
    ensures |claims| == CeilDiv(|Candidates(Rows(db), db.locks.Keys, now)|, limit)
  {
    DrainedTableIsDrained(db, limit, now, lease, claims);
    DrainingClaimsEachEventOnce(Rows(db), db.locks.Keys, limit, now, lease, Batches(claims), Draws(claims));
  }
}
