/**
 Concurrent creations and appends, split at every database statement
 (modules/documents/infrastructure/repository.py:34-87). A transaction reads committed rows, except that
 the document row it has selected FOR UPDATE is its own until it ends. An insertion that would clash with
 a row another open transaction has inserted waits: it is not enabled.
 */
module DocumentTransactions {
  import opened Common
  import opened DocumentModel
  import opened DocumentTable

  type TxId = nat

  // What an open transaction has executed so far.
  datatype Work =
    | Locked(d: Id, p: Prepared)                   // document row selected FOR UPDATE
    | Unique(d: Id, p: Prepared)                   // no row with this content seen
    | Ready(d: Id, p: Prepared, v: Version)        // number computed, version built
    | Appended(d: Id, p: Prepared, v: Version)     // row inserted, not committed
    | Created(p: Prepared, v: Version)             // document and first row inserted, not committed

  datatype Db = Db(t: Tables, locks: map<Id, TxId>, txs: map<TxId, Work>)

  const EMPTY := Db(Tables(map[], []), map[], map[])

  datatype Op =
    | SelectForUpdate(tx: TxId, d: Id, p: Prepared)
    | SelectDuplicate(tx: TxId)
    | SelectMax(tx: TxId)
    | Flush(tx: TxId)
    | Create(tx: TxId, p: Prepared)
    | Commit(tx: TxId)
    | Abort(tx: TxId)

  predicate Pending(w: Work) {
    w.Appended? || w.Created?
  }

  /** No other open transaction has inserted a row with this id. */
  ghost predicate NoPendingClash(db: Db, v: Version) {
    forall tx :: tx in db.txs && Pending(db.txs[tx]) ==> db.txs[tx].v.id != v.id
  }

  ghost predicate Enabled(db: Db, op: Op) {
    match op
    case SelectForUpdate(tx, d, p) => tx !in db.txs && (p.documentId == d && d in db.t.documents ==> d !in db.locks)
    case SelectDuplicate(tx) => tx in db.txs && db.txs[tx].Locked?
    case SelectMax(tx) => tx in db.txs && db.txs[tx].Unique?
    case Flush(tx) => tx in db.txs && db.txs[tx].Ready? && NoPendingClash(db, db.txs[tx].v)
    case Create(tx, p) =>
      && tx !in db.txs
      && NoPendingClash(db, Numbered(p, 1))
      && (forall other :: other in db.txs && db.txs[other].Created? ==> db.txs[other].v.documentId != p.documentId)
    case Commit(tx) => tx in db.txs && Pending(db.txs[tx])
    case Abort(tx) => tx in db.txs
  }

  /** The error a statement raises in its transaction, if any. */
  function Raised(db: Db, op: Op): Option<RepositoryError> {
    match op
    case SelectForUpdate(tx, d, p) =>
      if p.documentId != d then Some(WrongTarget) else if d !in db.t.documents then Some(NotFound) else None
    case SelectDuplicate(tx) =>
      if tx in db.txs && db.txs[tx].Locked? && HashKnown(db.t.rows, db.txs[tx].d, db.txs[tx].p.fileHash)
      then Some(DuplicateContent) else None
    case SelectMax(tx) =>
      if tx !in db.txs || !db.txs[tx].Unique? then None
      else
        var latest := MaxVersion(db.t.rows, db.txs[tx].d);
        if latest.None? then Some(NoFirstVersion)
        else
          var v := ToVersion(db.txs[tx].p, latest.value + 1);
          if v.Failure? then Some(v.error) else None
    case Flush(tx) =>
      if tx in db.txs && db.txs[tx].Ready? then InsertFault(db.t.rows, db.txs[tx].v) else None
    case Create(tx, p) =>
      var v := CreateOutcome(db.t, p);
      if v.Failure? then Some(v.error) else None
    case Commit(tx) => None
    case Abort(tx) => None
  }

  function End(db: Db, tx: TxId): Db {
    db.(txs := db.txs - {tx}, locks := map d | d in db.locks && db.locks[d] != tx :: db.locks[d])
  }

  function Note(db: Db, tx: TxId, w: Work): Db {
    db.(txs := db.txs[tx := w])
  }

  function Committed(t: Tables, w: Work): Tables
    requires Pending(w)
  {
    if w.Created? then WithCreated(t, w.v) else WithAppended(t, w.v)
  }

  ghost function Apply(db: Db, op: Op): Db
    requires Enabled(db, op)
  {
    if Raised(db, op).Some? then End(db, op.tx)
    else
      match op
      case SelectForUpdate(tx, d, p) => Note(db, tx, Locked(d, p)).(locks := db.locks[d := tx])
      case SelectDuplicate(tx) => Note(db, tx, Unique(db.txs[tx].d, db.txs[tx].p))
      case SelectMax(tx) =>
        var w := db.txs[tx];
        Note(db, tx, Ready(w.d, w.p, Numbered(w.p, MaxVersion(db.t.rows, w.d).value + 1)))
      case Flush(tx) => Note(db, tx, Appended(db.txs[tx].d, db.txs[tx].p, db.txs[tx].v))
      case Create(tx, p) => Note(db, tx, Created(p, Numbered(p, 1)))
      case Commit(tx) =>
        End(db, tx).(t := Committed(db.t, db.txs[tx]))
      case Abort(tx) => End(db, tx)
  }

  // ----- the invariant -----

  /** What a transaction has found out is still true of the committed tables. */
  ghost predicate Established(t: Tables, w: Work) {
    if w.Created? then
      CreateOutcome(t, w.p) == Success(w.v)
    else
      && w.d in t.documents && w.p.documentId == w.d
      && (w.Locked? || !HashKnown(t.rows, w.d, w.p.fileHash))
      && (w.Ready? || w.Appended? ==> NextVersion(t, w.d, w.p) == Some(w.v))
      && (w.Appended? ==> !IdKnown(t.rows, w.v.id))
  }

  function NextVersion(t: Tables, d: Id, p: Prepared): Option<Version> {
    var latest := MaxVersion(t.rows, d);
    if latest.None? || ToVersion(p, latest.value + 1).Failure? then None else Some(Numbered(p, latest.value + 1))
  }

  ghost predicate WorkHolds(db: Db) {
    forall tx :: tx in db.txs ==> Established(db.t, db.txs[tx])
  }

  /** An appending transaction owns its document's row until it ends. */
  ghost predicate LocksHeld(db: Db) {
    forall tx :: tx in db.txs && !db.txs[tx].Created? ==> db.txs[tx].d in db.locks && db.locks[db.txs[tx].d] == tx
  }

  ghost predicate Clash(w: Work, v: Work) {
    && Pending(w) && Pending(v)
    && (w.v.id == v.v.id || (w.Created? && v.Created? && w.v.documentId == v.v.documentId))
  }

  /** Rows inserted by different open transactions do not clash with each other. */
  ghost predicate NoClashes(txs: map<TxId, Work>) {
    forall tx, other :: tx in txs && other in txs && tx != other ==> !Clash(txs[tx], txs[other])
  }

  ghost predicate Inv(db: Db) {
    DocumentTable.Inv(db.t) && WorkHolds(db) && LocksHeld(db) && NoClashes(db.txs)
  }

  /** An uncommitted append is exactly the append of `AppendOutcome` on the committed tables. */
  lemma PendingAppendIsAtomic(t: Tables, w: Work)
    requires DocumentTable.Inv(t) && w.Appended? && Established(t, w)
    ensures AppendOutcome(t, w.d, w.p) == Success(w.v)
  {
    MaxVersionIsCount(t.rows, w.d);
    NumberKnownInHistory(t.rows, w.d, w.v.version);
  }

  lemma MoreRows(rows: seq<Version>, v: Version, d: Id, hash: string)
    requires v.documentId != d
    ensures MaxVersion(rows + [v], d) == MaxVersion(rows, d)
    ensures HashKnown(rows + [v], d, hash) <==> HashKnown(rows, d, hash)
    ensures forall n :: NumberKnown(rows + [v], d, n) <==> NumberKnown(rows, d, n)
    ensures forall id :: IdKnown(rows + [v], id) <==> IdKnown(rows, id) || v.id == id
  {
    var longer := rows + [v];
    assert longer[..|rows|] == rows && longer[|rows|] == v;
    assert forall i :: 0 <= i < |rows| ==> longer[i] == rows[i];
    forall n ensures NumberKnown(longer, d, n) <==> NumberKnown(rows, d, n) {
      if i :| 0 <= i < |rows| && rows[i].documentId == d && rows[i].version == n { assert longer[i] == rows[i]; }
    }
    forall id ensures IdKnown(longer, id) <==> IdKnown(rows, id) || v.id == id {
      if i :| 0 <= i < |rows| && rows[i].id == id { assert longer[i] == rows[i]; }
    }
    if i :| 0 <= i < |rows| && rows[i].documentId == d && rows[i].fileHash == hash { assert longer[i] == rows[i]; }
  }

  /** A row committed for another document takes nothing from what a transaction has found out. */
  lemma EstablishedSurvives(t: Tables, documents: map<Id, Stamp>, v: Version, w: Work)
    requires Established(t, w)
    requires documents.Keys == t.documents.Keys + {v.documentId}
    requires w.p.documentId != v.documentId && (Pending(w) ==> w.v.id != v.id)
    ensures Established(Tables(documents, t.rows + [v]), w)
  {
    MoreRows(t.rows, v, w.p.documentId, w.p.fileHash);
  }

  /** A transaction about to commit has no rival for its document or for its row id. */
  lemma OthersAreElsewhere(db: Db, tx: TxId, other: TxId)
    requires Inv(db) && tx in db.txs && Pending(db.txs[tx]) && other in db.txs && other != tx
    ensures db.txs[other].p.documentId != db.txs[tx].v.documentId
    ensures Pending(db.txs[other]) ==> db.txs[other].v.id != db.txs[tx].v.id
  {
    assert Established(db.t, db.txs[tx]) && Established(db.t, db.txs[other]);
    assert !Clash(db.txs[tx], db.txs[other]);
  }

  lemma CommitKeepsTables(t: Tables, w: Work)
    requires DocumentTable.Inv(t) && Pending(w) && Established(t, w)
    ensures DocumentTable.Inv(Committed(t, w))
  {
    if w.Created? {
      CreateKeepsInv(t, w.p);
    } else {
      PendingAppendIsAtomic(t, w);
      AppendKeepsInv(t, w.d, w.p);
    }
  }

  lemma CommitKeepsInv(db: Db, tx: TxId)
    requires Inv(db) && Enabled(db, Commit(tx))
    ensures Inv(Apply(db, Commit(tx)))
  {
    var w := db.txs[tx];
    var after := Committed(db.t, w);
    assert Established(db.t, w);
    CommitKeepsTables(db.t, w);
    EndKeepsInv(db, tx);
    forall other | other in End(db, tx).txs ensures Established(after, db.txs[other]) {
      OthersAreElsewhere(db, tx, other);
      EstablishedSurvives(db.t, after.documents, w.v, db.txs[other]);
    }
  }

  lemma EndKeepsInv(db: Db, tx: TxId)
    requires Inv(db)
    ensures Inv(End(db, tx))
  {
    assert WorkHolds(End(db, tx));
    assert LocksHeld(End(db, tx));
    assert NoClashes(End(db, tx).txs);
  }

  lemma NoteKeepsInv(db: Db, tx: TxId, w: Work)
    requires Inv(db) && Established(db.t, w)
    requires !w.Created? ==> w.d in db.locks && db.locks[w.d] == tx
    requires forall other :: other in db.txs && other != tx ==> !Clash(w, db.txs[other])
    ensures Inv(Note(db, tx, w))
  {
    assert WorkHolds(Note(db, tx, w));
    assert LocksHeld(Note(db, tx, w));
    assert NoClashes(Note(db, tx, w).txs);
  }

  /** Every statement of every transaction keeps the invariant. */
  lemma StatementKeepsInv(db: Db, op: Op)
    requires Inv(db) && Enabled(db, op)
    ensures Inv(Apply(db, op))
  {
    if Raised(db, op).Some? {
      EndKeepsInv(db, op.tx);
    } else if op.SelectForUpdate? {
      var locked := db.(locks := db.locks[op.d := op.tx]);
      assert LocksHeld(locked) && WorkHolds(locked);
      NoteKeepsInv(locked, op.tx, Locked(op.d, op.p));
      assert Apply(db, op) == Note(locked, op.tx, Locked(op.d, op.p));
    } else if op.Create? {
      NoteKeepsInv(db, op.tx, Created(op.p, Numbered(op.p, 1)));
    } else if op.Commit? {
      CommitKeepsInv(db, op.tx);
    } else if op.Abort? {
      EndKeepsInv(db, op.tx);
    } else {
      var w := db.txs[op.tx];
      assert Established(db.t, w);
      match op
      case SelectDuplicate(tx) => NoteKeepsInv(db, tx, Unique(w.d, w.p));
      case SelectMax(tx) => NoteKeepsInv(db, tx, Ready(w.d, w.p, NextVersion(db.t, w.d, w.p).value));
      case Flush(tx) => NoteKeepsInv(db, tx, Appended(w.d, w.p, w.v));
    }
  }

  // ----- a transaction on its own -----

  /** The statements are possible one after the other, up to the first that raises. */
  ghost predicate Runs(db: Db, ops: seq<Op>)
    decreases |ops|
  {
    ops == [] || (Enabled(db, ops[0]) && (Raised(db, ops[0]).Some? || Runs(Apply(db, ops[0]), ops[1..])))
  }

  /** Where they lead, and what was raised. */
  ghost function Proceed(db: Db, ops: seq<Op>): (Db, Option<RepositoryError>)
    requires Runs(db, ops)
    decreases |ops|
  {
    if ops == [] then (db, None)
    else if Raised(db, ops[0]).Some? then (Apply(db, ops[0]), Raised(db, ops[0]))
    else Proceed(Apply(db, ops[0]), ops[1..])
  }

  /** They append the version of the outcome, or raise its error and leave the tables alone. */
  ghost predicate EndsLike(db: Db, ops: seq<Op>, outcome: Result<Version, RepositoryError>) {
    && Runs(db, ops)
    && var (after, raised) := Proceed(db, ops);
       if outcome.Failure? then raised == Some(outcome.error) && after.t == db.t
       else raised == None && after.t == WithAppended(db.t, outcome.value)
  }

  /** No other transaction has inserted a row with the id. */
  ghost predicate NoRival(db: Db, tx: TxId, id: Id) {
    forall other :: other in db.txs && other != tx && Pending(db.txs[other]) ==> db.txs[other].v.id != id
  }

  lemma FirstStatement(db: Db, op: Op, rest: seq<Op>, outcome: Result<Version, RepositoryError>)
    requires Enabled(db, op)
    requires Raised(db, op).Some? ==> outcome == Failure(Raised(db, op).value) && Apply(db, op).t == db.t
    requires Raised(db, op).None? ==> Apply(db, op).t == db.t && EndsLike(Apply(db, op), rest, outcome)
    ensures EndsLike(db, [op] + rest, outcome)
  {
    assert ([op] + rest)[0] == op && ([op] + rest)[1..] == rest;
  }

  lemma CommitAlone(db: Db, tx: TxId)
    requires tx in db.txs && db.txs[tx].Appended?
    ensures EndsLike(db, [Commit(tx)], Success(db.txs[tx].v))
  {
    assert [Commit(tx)][1..] == [];
    assert Runs(Apply(db, Commit(tx)), []);
  }

  lemma FlushAlone(db: Db, tx: TxId)
    requires tx in db.txs && db.txs[tx].Ready? && NoRival(db, tx, db.txs[tx].v.id)
    ensures var fault := InsertFault(db.t.rows, db.txs[tx].v);
      EndsLike(db, [Flush(tx)] + [Commit(tx)],
               if fault.Some? then Failure(fault.value) else Success(db.txs[tx].v))
  {
    var fault := InsertFault(db.t.rows, db.txs[tx].v);
    if fault.None? { CommitAlone(Apply(db, Flush(tx)), tx); }
    FirstStatement(db, Flush(tx), [Commit(tx)], if fault.Some? then Failure(fault.value) else Success(db.txs[tx].v));
  }

  /** What is left of an append once the content is known to be new. */
  function NumberOutcome(t: Tables, d: Id, p: Prepared): Result<Version, RepositoryError> {
    var latest := MaxVersion(t.rows, d);
    if latest.None? then Failure(NoFirstVersion)
    else
      var v := ToVersion(p, latest.value + 1);
      if v.Failure? then v
      else
        var fault := InsertFault(t.rows, v.value);
        if fault.Some? then Failure(fault.value) else v
  }

  lemma SelectMaxAlone(db: Db, tx: TxId)
    requires tx in db.txs && db.txs[tx].Unique? && NoRival(db, tx, db.txs[tx].p.id)
    ensures EndsLike(db, [SelectMax(tx)] + ([Flush(tx)] + [Commit(tx)]),
                     NumberOutcome(db.t, db.txs[tx].d, db.txs[tx].p))
  {
    var after := Apply(db, SelectMax(tx));
    if Raised(db, SelectMax(tx)).None? {
      assert NoRival(after, tx, after.txs[tx].v.id);
      FlushAlone(after, tx);
    }
    FirstStatement(db, SelectMax(tx), [Flush(tx)] + [Commit(tx)], NumberOutcome(db.t, db.txs[tx].d, db.txs[tx].p));
  }

  function Statements(tx: TxId): seq<Op> {
    [SelectDuplicate(tx)] + ([SelectMax(tx)] + ([Flush(tx)] + [Commit(tx)]))
  }

  lemma SelectDuplicateAlone(db: Db, tx: TxId)
    requires tx in db.txs && db.txs[tx].Locked? && NoRival(db, tx, db.txs[tx].p.id)
    ensures var w := db.txs[tx];
      EndsLike(db, Statements(tx),
               if HashKnown(db.t.rows, w.d, w.p.fileHash) then Failure(DuplicateContent)
               else NumberOutcome(db.t, w.d, w.p))
  {
    var w, after := db.txs[tx], Apply(db, SelectDuplicate(tx));
    if Raised(db, SelectDuplicate(tx)).None? {
      assert NoRival(after, tx, w.p.id);
      SelectMaxAlone(after, tx);
    }
    FirstStatement(db, SelectDuplicate(tx), [SelectMax(tx)] + ([Flush(tx)] + [Commit(tx)]),
                   if HashKnown(db.t.rows, w.d, w.p.fileHash) then Failure(DuplicateContent)
                   else NumberOutcome(db.t, w.d, w.p));
  }

  /**
   An append whose document nobody has locked and whose row id nobody is inserting goes through statement by
   statement: it commits the version of the atomic `append`, or raises exactly its error.
   */
  lemma AppendAlone(db: Db, tx: TxId, d: Id, p: Prepared)
    requires tx !in db.txs && d !in db.locks && NoRival(db, tx, p.id)
    ensures EndsLike(db, [SelectForUpdate(tx, d, p)] + Statements(tx), AppendOutcome(db.t, d, p))
  {
    var op := SelectForUpdate(tx, d, p);
    var after := Apply(db, op);
    if Raised(db, op).None? {
      assert NoRival(after, tx, p.id);
      SelectDuplicateAlone(after, tx);
    }
    FirstStatement(db, op, Statements(tx), AppendOutcome(db.t, d, p));
  }

  // ----- whole runs -----

  ghost predicate IsRun(states: seq<Db>, ops: seq<Op>) {
    && |states| == |ops| + 1
    && states[0] == EMPTY
    && (forall i :: 0 <= i < |ops| ==> Steps(states, ops, i))
  }

  ghost predicate Steps(states: seq<Db>, ops: seq<Op>, i: nat)
    requires i < |ops| < |states|
  {
    Enabled(states[i], ops[i]) && states[i + 1] == Apply(states[i], ops[i])
  }

  lemma StepKeepsInv(states: seq<Db>, ops: seq<Op>, i: nat)
    requires i < |ops| < |states| && Steps(states, ops, i) && Inv(states[i])
    ensures Inv(states[i + 1])
  {
    StatementKeepsInv(states[i], ops[i]);
  }

  lemma {:induction false} RunsKeepInv(states: seq<Db>, ops: seq<Op>, k: nat)
    requires IsRun(states, ops) && k < |states|
    ensures Inv(states[k])
  {
    if k > 0 {
      RunsKeepInv(states, ops, k - 1);
      StepKeepsInv(states, ops, k - 1);
    }
  }

  /** In every state of every interleaving each document's rows are versions 1..n with distinct contents. */
  lemma HistoriesAreAlwaysValid(states: seq<Db>, ops: seq<Op>, k: nat, d: Id)
    requires IsRun(states, ops) && k < |states| && d in states[k].t.documents
    ensures RowsOf(states[k].t.rows, d) != [] && ValidHistory(d, RowsOf(states[k].t.rows, d))
    ensures MaxVersion(states[k].t.rows, d) == Some(|RowsOf(states[k].t.rows, d)|)
  {
    RunsKeepInv(states, ops, k);
    MaxVersionIsCount(states[k].t.rows, d);
  }

  /** The version-sequence conflict never fires, nor is the content found duplicated only at the INSERT. */
  lemma VersionConflictNeverFires(states: seq<Db>, ops: seq<Op>, k: nat)
    requires IsRun(states, ops) && k < |ops| && ops[k].Flush?
    ensures Raised(states[k], ops[k]) in {None, Some(OtherConflict)}
  {
    RunsKeepInv(states, ops, k);
    assert Steps(states, ops, k);
    var db, tx := states[k], ops[k].tx;
    assert Established(db.t, db.txs[tx]);
    MaxVersionIsCount(db.t.rows, db.txs[tx].d);
    NumberKnownInHistory(db.t.rows, db.txs[tx].d, db.txs[tx].v.version);
  }

  /** An existing document always has a first version to count from. */
  lemma FirstVersionIsNeverMissing(states: seq<Db>, ops: seq<Op>, k: nat)
    requires IsRun(states, ops) && k < |ops|
    ensures Raised(states[k], ops[k]) != Some(NoFirstVersion)
  {
    RunsKeepInv(states, ops, k);
    assert Steps(states, ops, k);
    var db, tx := states[k], ops[k].tx;
    if tx in db.txs && db.txs[tx].Unique? {
      assert Established(db.t, db.txs[tx]);
      MaxVersionIsCount(db.t.rows, db.txs[tx].d);
    }
  }

  /**
   Serializability. Whatever happened between its statements, a committing transaction does what one
   atomic `append` or `create` would do to the tables at that moment.
   */
  lemma CommitsAreAtomic(states: seq<Db>, ops: seq<Op>, k: nat)
    requires IsRun(states, ops) && k < |ops| && ops[k].Commit?
    ensures ops[k].tx in states[k].txs && Pending(states[k].txs[ops[k].tx])
    ensures var w := states[k].txs[ops[k].tx];
      if w.Created? then
        && CreateOutcome(states[k].t, w.p) == Success(w.v)
        && states[k + 1].t == WithCreated(states[k].t, w.v)
      else
        && AppendOutcome(states[k].t, w.d, w.p) == Success(w.v)
        && states[k + 1].t == WithAppended(states[k].t, w.v)
  {
    RunsKeepInv(states, ops, k);
    assert Steps(states, ops, k);
    var w := states[k].txs[ops[k].tx];
    assert Established(states[k].t, w);
    if w.Appended? { PendingAppendIsAtomic(states[k].t, w); }
  }

  lemma OnlyCommitsAddRows(db: Db, op: Op)
    requires Enabled(db, op)
    ensures Apply(db, op).t.rows == if op.Commit? then db.t.rows + [db.txs[op.tx].v] else db.t.rows
  {
  }

  /** Histories are append-only: no statement other than a commit changes the tables, and that only adds. */
  lemma {:induction false} HistoriesOnlyGrow(states: seq<Db>, ops: seq<Op>, i: nat, j: nat)
    requires IsRun(states, ops) && i <= j < |states|
    ensures states[i].t.rows <= states[j].t.rows
    decreases j
  {
    if i < j {
      HistoriesOnlyGrow(states, ops, i, j - 1);
      assert Steps(states, ops, j - 1);
      OnlyCommitsAddRows(states[j - 1], ops[j - 1]);
    }
  }
}
