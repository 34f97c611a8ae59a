/**
 Concurrency in the ledger's database. A revoke is a transaction over two tables that holds a row lock
 between its statements; a sweep is an update that takes its rows one by one, locking each, and
 publishes them together; a save is a single statement.
 */
module Transactions {
  import opened Texts
  import opened Ledger

  /** How far a revoke has come. */
  datatype Phase =
    | Begun
    | Locked
    | RowUpdated
    | RevocationInserted
    | Replied(outcome: RevokeOutcome)
    | Failed

  datatype Write = SetRevoked(id: Text) | AddRevocation(id: Text, reason: Text)

  /** The writes of a transaction are staged until its commit: nobody else sees them before. */
  datatype Txn = Txn(id: Text, reason: Text, phase: Phase, staged: seq<Write>)

  /** An operation that took effect, with the reply it gave. */
  datatype Logged = Logged(op: Op, reply: Reply)

  /** A sweep under way: the rows its snapshot selected and still has to visit, and those it has marked. */
  datatype SweepTxn = SweepTxn(now: int, unvisited: set<Text>, marked: set<Text>, open: bool)

  datatype Holder = ByRevoke(txn: nat) | BySweep(sweep: nat)

  /** The committed tables, the row locks, the transactions, and the history of what took effect. */
  datatype Database = Database(
    grants: Table, revocations: map<Text, Text>, locks: map<Text, Holder>,
    txns: seq<Txn>, sweeps: seq<SweepTxn>, log: seq<Logged>)

  datatype Statement =
    | Insert(record: GrantRecord)
    | Begin(id: Text, reason: Text)
    | SelectForUpdate(txn: nat)
    | UpdateRow(txn: nat)
    | InsertRevocation(txn: nat)
    | Commit(txn: nat)
    | Rollback(txn: nat)
    | BeginSweep(now: int)
    | VisitRow(sweep: nat, id: Text)
    | CommitSweep(sweep: nat)
    | AbortSweep(sweep: nat)

  const EMPTY := Database(map[], map[], map[], [], [], [])

  predicate Holding(p: Phase) {
    p.Locked? || p.RowUpdated? || p.RevocationInserted?
  }

  predicate InPhase(db: Database, x: nat, p: Phase) {
    x < |db.txns| && db.txns[x].phase == p
  }

  function Move(db: Database, x: nat, p: Phase): Database
    requires x < |db.txns|
  {
    db.(txns := db.txns[x := db.txns[x].(phase := p)])
  }

  function Stage(db: Database, x: nat, p: Phase, w: Write): Database
    requires x < |db.txns|
  {
    db.(txns := db.txns[x := db.txns[x].(phase := p, staged := db.txns[x].staged + [w])])
  }

  /** `UPDATE grants ... WHERE grant_id = $1`, and `INSERT ... ON CONFLICT DO NOTHING` */
  function Apply(grants: Table, revocations: map<Text, Text>, w: Write): (Table, map<Text, Text>) {
    match w
    case SetRevoked(id) =>
      (if id in grants then grants[id := grants[id].(status := Revoked)] else grants, revocations)
    case AddRevocation(id, reason) =>
      (grants, if id in revocations then revocations else revocations[id := reason])
  }

  function Publish(grants: Table, revocations: map<Text, Text>, writes: seq<Write>): (r: (Table, map<Text, Text>))
    ensures r.0.Keys == grants.Keys && revocations.Keys <= r.1.Keys
    decreases |writes|
  {
    if writes == [] then (grants, revocations)
    else
      var first := Apply(grants, revocations, writes[0]);
      Publish(first.0, first.1, writes[1..])
  }

  /** `SELECT ... FOR UPDATE` waits for the row's lock, then reads the committed status. */
  function SelectStep(db: Database, x: nat): Database {
    if !InPhase(db, x, Begun) || db.txns[x].id in db.locks then db
    else
      var id := db.txns[x].id;
      var outcome := RevokeReply(db.grants, id);
      if outcome == RevokedNow then Move(db, x, Locked).(locks := db.locks[id := ByRevoke(x)])
      else Move(db, x, Replied(outcome)).(log := db.log + [Logged(Revoke(id, db.txns[x].reason), Outcome(outcome))])
  }

  /** `COMMIT` publishes the staged writes together and lets the lock go. */
  function CommitStep(db: Database, x: nat): Database {
    if !InPhase(db, x, RevocationInserted) then db
    else
      var t := db.txns[x];
      var published := Publish(db.grants, db.revocations, t.staged);
      Move(db, x, Replied(RevokedNow)).(
        grants := published.0,
        revocations := published.1,
        locks := db.locks - {t.id},
        log := db.log + [Logged(Revoke(t.id, t.reason), Outcome(RevokedNow))])
  }

  /** `ROLLBACK` after an error at any point: nothing was published, the lock goes. */
  function RollbackStep(db: Database, x: nat): Database {
    if x >= |db.txns| then db
    else if Holding(db.txns[x].phase) then Move(db, x, Failed).(locks := db.locks - {db.txns[x].id})
    else if db.txns[x].phase == Begun then Move(db, x, Failed)
    else db
  }

  predicate IsOpen(db: Database, k: nat) {
    k < |db.sweeps| && db.sweeps[k].open
  }

  function SetSweep(db: Database, k: nat, w: SweepTxn): Database
    requires k < |db.sweeps|
  {
    db.(sweeps := db.sweeps[k := w])
  }

  /** A row is visited once its lock is free: if it is still due it is locked and marked, else passed over. */
  function VisitStep(db: Database, k: nat, id: Text): Database {
    if !IsOpen(db, k) || id !in db.sweeps[k].unvisited || id in db.locks then db
    else
      var w := db.sweeps[k].(unvisited := db.sweeps[k].unvisited - {id});
      if id in db.grants && Due(db.grants[id], w.now)
      then SetSweep(db, k, w.(marked := w.marked + {id})).(locks := db.locks[id := BySweep(k)])
      else SetSweep(db, k, w)
  }

  /** The table with these rows marked expired. */
  function MarkRows(t: Table, ids: set<Text>): Table {
    map id | id in t :: if id in ids then t[id].(status := Expired) else t[id]
  }

  function LocksWithout(db: Database, k: nat): map<Text, Holder> {
    map id | id in db.locks && db.locks[id] != BySweep(k) :: db.locks[id]
  }

  predicate Finishing(db: Database, k: nat) {
    IsOpen(db, k) && db.sweeps[k].unvisited == {}
  }

  /** The statement ends: its marks are published together, with their number for a reply. */
  function CommitSweepStep(db: Database, k: nat): Database {
    if !Finishing(db, k) then db
    else
      var w := db.sweeps[k];
      SetSweep(db, k, w.(open := false)).(
        grants := MarkRows(db.grants, w.marked),
        locks := LocksWithout(db, k),
        log := db.log + [Logged(MarkExpired(w.now), Marked(|w.marked|))])
  }

  /** The statement fails, as when it is chosen to break a deadlock: nothing was published. */
  function AbortSweepStep(db: Database, k: nat): Database {
    if !IsOpen(db, k) then db
    else SetSweep(db, k, db.sweeps[k].(open := false)).(locks := LocksWithout(db, k))
  }

  function Execute(db: Database, s: Statement): Database {
    match s
    case Insert(r) =>
      db.(grants := InsertIfAbsent(db.grants, r), log := db.log + [Logged(Save(r), Saved)])
    case Begin(id, reason) => db.(txns := db.txns + [Txn(id, reason, Begun, [])])
    case SelectForUpdate(x) => SelectStep(db, x)
    case UpdateRow(x) => if InPhase(db, x, Locked) then Stage(db, x, RowUpdated, SetRevoked(db.txns[x].id)) else db
    case InsertRevocation(x) =>
      if InPhase(db, x, RowUpdated)
      then Stage(db, x, RevocationInserted, AddRevocation(db.txns[x].id, db.txns[x].reason)) else db
    case Commit(x) => CommitStep(db, x)
    case Rollback(x) => RollbackStep(db, x)
    case BeginSweep(now) => db.(sweeps := db.sweeps + [SweepTxn(now, DueIds(db.grants, now), {}, true)])
    case VisitRow(k, id) => VisitStep(db, k, id)
    case CommitSweep(k) => CommitSweepStep(db, k)
    case AbortSweep(k) => AbortSweepStep(db, k)
  }

  function Ran(statements: seq<Statement>): Database {
    if statements == [] then EMPTY
    else Execute(Ran(statements[..|statements| - 1]), statements[|statements| - 1])
  }

  // ---- What every interleaving keeps ----

  /** Whoever holds a lock holds its own row: a revoke one that is not revoked, a sweep ones that are due. */
  predicate LocksOk(db: Database) {
    && (forall x :: 0 <= x < |db.txns| && Holding(db.txns[x].phase) ==> HoldsItsRow(db, x))
    && (forall k :: 0 <= k < |db.sweeps| && db.sweeps[k].open ==> HoldsItsRows(db, k))
    && (forall id :: id in db.locks ==> Owns(db, db.locks[id], id))
  }

  predicate HoldsItsRow(db: Database, x: nat)
    requires x < |db.txns|
  {
    var id := db.txns[x].id;
    id in db.locks && db.locks[id] == ByRevoke(x) && RevokeReply(db.grants, id) == RevokedNow
  }

  predicate HoldsItsRows(db: Database, k: nat)
    requires k < |db.sweeps|
  {
    forall id :: id in db.sweeps[k].marked ==>
      id in db.locks && db.locks[id] == BySweep(k) && id in db.grants && Due(db.grants[id], db.sweeps[k].now)
  }

  predicate Owns(db: Database, h: Holder, id: Text) {
    match h
    case ByRevoke(x) => x < |db.txns| && Holding(db.txns[x].phase) && db.txns[x].id == id
    case BySweep(k) => IsOpen(db, k) && id in db.sweeps[k].marked
  }

  /** What each transaction has staged so far. */
  predicate StagedOk(db: Database) {
    forall x :: 0 <= x < |db.txns| ==> StagedFits(db.txns[x])
  }

  predicate StagedFits(t: Txn) {
    match t.phase
    case Begun => t.staged == []
    case Locked => t.staged == []
    case RowUpdated => t.staged == [SetRevoked(t.id)]
    case RevocationInserted => t.staged == [SetRevoked(t.id), AddRevocation(t.id, t.reason)]
    case _ => true
  }

  /** Transaction `x` is a revoke of `id` that replied 'revoked'. */
  predicate Won(db: Database, x: nat, id: Text) {
    InPhase(db, x, Replied(RevokedNow)) && db.txns[x].id == id
  }

  /** The ledger and the revocation table say the same, and each revocation has its one revoker. */
  ghost predicate RevokersOk(db: Database) {
    && db.revocations.Keys == WithStatus(db.grants, Revoked)
    && (forall x: nat, id :: Won(db, x, id) ==> id in db.revocations)
    && (forall x: nat, y: nat, id :: Won(db, x, id) && Won(db, y, id) ==> x == y)
    && (forall id :: id in db.revocations ==> exists x: nat :: Won(db, x, id))
  }

  ghost predicate DatabaseOk(db: Database) {
    LocksOk(db) && StagedOk(db) && RevokersOk(db)
  }

  /** Records come from the service in status ISSUED. */
  predicate FromService(s: Statement) {
    s.Insert? ==> s.record.status == Issued
  }

  /** When the same revokes have won and the same grants are revoked, nothing is lost. */
  lemma SameRevokers(db: Database, next: Database)
    requires RevokersOk(db) && next.revocations == db.revocations
    requires WithStatus(next.grants, Revoked) == WithStatus(db.grants, Revoked)
    requires forall x: nat, id :: Won(next, x, id) <==> Won(db, x, id)
    ensures RevokersOk(next)
  {
    forall id | id in next.revocations ensures exists x: nat :: Won(next, x, id) {
      var x: nat :| Won(db, x, id);
      assert Won(next, x, id);
    }
  }

  /** A phase change that publishes nothing and is not a completed revoke keeps the revokers. */
  lemma RevokersAfterMove(db: Database, next: Database, x: nat, p: Phase)
    requires x < |db.txns| == |next.txns| && RevokersOk(db)
    requires p != Replied(RevokedNow) && db.txns[x].phase != Replied(RevokedNow)
    requires next.txns == db.txns[x := db.txns[x].(phase := p, staged := next.txns[x].staged)]
    requires next.grants == db.grants && next.revocations == db.revocations
    ensures RevokersOk(next)
  {
    SameRevokers(db, next);
  }

  /** A change to one transaction that keeps its hold on its row, or takes it, leaves the others alone. */
  lemma OneTxnMoves(db: Database, next: Database, x: nat)
    requires LocksOk(db) && StagedOk(db) && x < |db.txns| == |next.txns|
    requires next.sweeps == db.sweeps && next.grants == db.grants
    requires forall y :: 0 <= y < |db.txns| && y != x ==> next.txns[y] == db.txns[y]
    requires next.txns[x].id == db.txns[x].id && StagedFits(next.txns[x])
    requires Holding(next.txns[x].phase) ==> HoldsItsRow(next, x) && next.locks == db.locks[next.txns[x].id := ByRevoke(x)]
    requires Holding(next.txns[x].phase) ==> db.txns[x].id in db.locks ==> db.locks[db.txns[x].id] == ByRevoke(x)
    requires !Holding(next.txns[x].phase) ==> next.locks == db.locks && !Holding(db.txns[x].phase)
    ensures LocksOk(next) && StagedOk(next)
  {
    forall y | 0 <= y < |next.txns| && Holding(next.txns[y].phase) ensures HoldsItsRow(next, y) {
      assert y != x ==> HoldsItsRow(db, y);
    }
    forall k | 0 <= k < |next.sweeps| && next.sweeps[k].open ensures HoldsItsRows(next, k) {
      assert HoldsItsRows(db, k);
    }
    forall id | id in next.locks ensures Owns(next, next.locks[id], id) {
      assert id in db.locks ==> Owns(db, db.locks[id], id);
    }
  }

  lemma SelectKeepsLocks(db: Database, x: nat)
    requires LocksOk(db) && StagedOk(db)
    ensures LocksOk(SelectStep(db, x)) && StagedOk(SelectStep(db, x))
  {
    if SelectStep(db, x) != db {
      assert StagedFits(db.txns[x]);
      OneTxnMoves(db, SelectStep(db, x), x);
    }
  }

  lemma SelectKeepsRevokers(db: Database, x: nat)
    requires RevokersOk(db)
    ensures RevokersOk(SelectStep(db, x))
  {
    var next := SelectStep(db, x);
    if next != db {
      RevokersAfterMove(db, next, x, next.txns[x].phase);
    }
  }

  lemma SelectKeeps(db: Database, x: nat)
    requires DatabaseOk(db)
    ensures DatabaseOk(SelectStep(db, x))
  {
    SelectKeepsLocks(db, x);
    SelectKeepsRevokers(db, x);
  }

  /** What a commit publishes is the whole effect of the revoke. */
  lemma PublishRevokes(grants: Table, revocations: map<Text, Text>, id: Text, reason: Text)
    requires RevokeReply(grants, id) == RevokedNow
    ensures Publish(grants, revocations, [SetRevoked(id), AddRevocation(id, reason)]) ==
            (RevokeRow(grants, id), RevocationsAfter(revocations, grants, id, reason))
  {
    var w0, w1 := SetRevoked(id), AddRevocation(id, reason);
    var first := Apply(grants, revocations, w0);
    assert [w0, w1][1..] == [w1] && [w1][1..] == [];
    assert Publish(first.0, first.1, [w1]) == Apply(first.0, first.1, w1);
  }

  lemma CommitPublishes(db: Database, x: nat)
    requires LocksOk(db) && StagedOk(db) && InPhase(db, x, RevocationInserted)
    ensures var t, next := db.txns[x], CommitStep(db, x);
            && RevokeReply(db.grants, t.id) == RevokedNow
            && next.grants == RevokeRow(db.grants, t.id)
            && next.revocations == RevocationsAfter(db.revocations, db.grants, t.id, t.reason)
  {
    var t := db.txns[x];
    assert StagedFits(t) && HoldsItsRow(db, x);
    PublishRevokes(db.grants, db.revocations, t.id, t.reason);
  }

  lemma CommitKeepsLocks(db: Database, x: nat)
    requires LocksOk(db) && StagedOk(db)
    ensures LocksOk(CommitStep(db, x)) && StagedOk(CommitStep(db, x))
  {
    if InPhase(db, x, RevocationInserted) {
      CommitPublishes(db, x);
      OneRevokeLess(db, CommitStep(db, x), x);
    }
  }

  /** Letting one lock go and changing only that row keeps the other locks in order. */
  lemma OneRevokeLess(db: Database, next: Database, x: nat)
    requires LocksOk(db) && StagedOk(db) && x < |db.txns| && Holding(db.txns[x].phase)
    requires next.locks == db.locks - {db.txns[x].id}
    requires |next.txns| == |db.txns| && !Holding(next.txns[x].phase) && next.txns[x].phase != Begun
    requires forall y :: 0 <= y < |db.txns| && y != x ==> next.txns[y] == db.txns[y]
    requires next.sweeps == db.sweeps && SameRowsBut(db.grants, next.grants, db.txns[x].id)
    ensures LocksOk(next) && StagedOk(next)
  {
    assert HoldsItsRow(db, x);
    forall y | 0 <= y < |next.txns| && Holding(next.txns[y].phase) ensures HoldsItsRow(next, y) {
      assert HoldsItsRow(db, y);
    }
    forall k | 0 <= k < |next.sweeps| && next.sweeps[k].open ensures HoldsItsRows(next, k) {
      assert HoldsItsRows(db, k);
    }
    forall id | id in next.locks ensures Owns(next, next.locks[id], id) {
      assert Owns(db, db.locks[id], id);
    }
  }

  /** All rows but one are there before and after, unchanged. */
  ghost predicate SameRowsBut(t: Table, u: Table, own: Text) {
    forall id :: id != own ==> (id in t <==> id in u) && (id in t ==> u[id] == t[id])
  }

  lemma CommitKeepsRevokers(db: Database, x: nat)
    requires LocksOk(db) && StagedOk(db) && RevokersOk(db)
    ensures RevokersOk(CommitStep(db, x))
  {
    if InPhase(db, x, RevocationInserted) {
      var next, id := CommitStep(db, x), db.txns[x].id;
      CommitPublishes(db, x);
      assert id !in WithStatus(db.grants, Revoked);
      assert WithStatus(next.grants, Revoked) == WithStatus(db.grants, Revoked) + {id};
      assert next.revocations.Keys == db.revocations.Keys + {id};
      RevokersAfterCommit(db, next, x);
    }
  }

  lemma RevokersAfterCommit(db: Database, next: Database, x: nat)
    requires x < |db.txns| && RevokersOk(db) && db.txns[x].id !in db.revocations
    requires next.txns == db.txns[x := db.txns[x].(phase := Replied(RevokedNow))]
    requires next.revocations.Keys == db.revocations.Keys + {db.txns[x].id} == WithStatus(next.grants, Revoked)
    ensures RevokersOk(next)
  {
    var won := db.txns[x].id;
    assert forall y: nat, id :: Won(next, y, id) <==> Won(db, y, id) || (y == x && id == won);
    forall id | id in next.revocations ensures exists y: nat :: Won(next, y, id) {
      if id == won {
        assert Won(next, x, id);
      } else {
        var y: nat :| Won(db, y, id);
        assert Won(next, y, id);
      }
    }
  }

  lemma CommitKeeps(db: Database, x: nat)
    requires DatabaseOk(db)
    ensures DatabaseOk(CommitStep(db, x))
  {
    CommitKeepsLocks(db, x);
    CommitKeepsRevokers(db, x);
  }

  lemma RollbackKeepsLocks(db: Database, x: nat)
    requires LocksOk(db) && StagedOk(db)
    ensures LocksOk(RollbackStep(db, x)) && StagedOk(RollbackStep(db, x))
  {
    var next := RollbackStep(db, x);
    if next != db {
      if Holding(db.txns[x].phase) {
        OneRevokeLess(db, next, x);
      } else {
        OneTxnMoves(db, next, x);
      }
    }
  }

  lemma RollbackKeepsRevokers(db: Database, x: nat)
    requires RevokersOk(db)
    ensures RevokersOk(RollbackStep(db, x))
  {
    if RollbackStep(db, x) != db {
      RevokersAfterMove(db, RollbackStep(db, x), x, Failed);
    }
  }

  lemma RollbackKeeps(db: Database, x: nat)
    requires DatabaseOk(db)
    ensures DatabaseOk(RollbackStep(db, x))
  {
    RollbackKeepsLocks(db, x);
    RollbackKeepsRevokers(db, x);
  }

  lemma StageKeeps(db: Database, x: nat, p: Phase, w: Write)
    requires DatabaseOk(db) && x < |db.txns| && Holding(db.txns[x].phase) && Holding(p)
    requires StagedFits(Stage(db, x, p, w).txns[x])
    ensures DatabaseOk(Stage(db, x, p, w))
  {
    var next := Stage(db, x, p, w);
    RevokersAfterMove(db, next, x, p);
    assert HoldsItsRow(db, x);
    assert db.locks == db.locks[db.txns[x].id := ByRevoke(x)];
    OneTxnMoves(db, next, x);
  }

  // ---- Saves and sweeps ----

  lemma InsertKeeps(db: Database, r: GrantRecord)
    requires DatabaseOk(db) && r.status == Issued
    ensures DatabaseOk(Execute(db, Insert(r)))
  {
    var next := Execute(db, Insert(r));
    forall k | 0 <= k < |next.sweeps| && next.sweeps[k].open ensures HoldsItsRows(next, k) {
      assert HoldsItsRows(db, k);
    }
    forall x | 0 <= x < |next.txns| && Holding(next.txns[x].phase) ensures HoldsItsRow(next, x) {
      assert HoldsItsRow(db, x);
    }
    forall id | id in next.locks ensures Owns(next, next.locks[id], id) {
      assert Owns(db, db.locks[id], id);
    }
    assert WithStatus(next.grants, Revoked) == WithStatus(db.grants, Revoked);
    SameRevokers(db, next);
  }

  lemma BeginKeeps(db: Database, id: Text, reason: Text)
    requires DatabaseOk(db)
    ensures DatabaseOk(Execute(db, Begin(id, reason)))
  {
    var next := Execute(db, Begin(id, reason));
    forall k | 0 <= k < |next.sweeps| && next.sweeps[k].open ensures HoldsItsRows(next, k) {
      assert HoldsItsRows(db, k);
    }
    forall x | 0 <= x < |next.txns| && Holding(next.txns[x].phase) ensures HoldsItsRow(next, x) {
      assert HoldsItsRow(db, x);
    }
    forall i | i in next.locks ensures Owns(next, next.locks[i], i) {
      assert Owns(db, db.locks[i], i);
    }
    SameRevokers(db, next);
  }

  /** Sweeps that only look, or lock rows that are free, keep everyone's hold on theirs. */
  lemma SweepStepKeepsLocks(db: Database, next: Database, k: nat)
    requires LocksOk(db) && next.txns == db.txns && next.grants == db.grants
    requires k < |next.sweeps| && |db.sweeps| <= |next.sweeps| && next.sweeps[k].open && HoldsItsRows(next, k)
    requires forall j :: 0 <= j < |next.sweeps| && j != k ==> j < |db.sweeps| && next.sweeps[j] == db.sweeps[j]
    requires k < |db.sweeps| ==> db.sweeps[k].open && db.sweeps[k].marked <= next.sweeps[k].marked
    requires forall id :: id in next.locks ==>
      id in db.locks || (next.locks[id] == BySweep(k) && id in next.sweeps[k].marked)
    requires forall id :: id in db.locks ==> id in next.locks && next.locks[id] == db.locks[id]
    ensures LocksOk(next)
  {
    forall x | 0 <= x < |next.txns| && Holding(next.txns[x].phase) ensures HoldsItsRow(next, x) {
      assert HoldsItsRow(db, x);
    }
    forall j | 0 <= j < |next.sweeps| && next.sweeps[j].open ensures HoldsItsRows(next, j) {
      assert j != k ==> HoldsItsRows(db, j);
    }
    forall id | id in next.locks ensures Owns(next, next.locks[id], id) {
      assert id in db.locks ==> Owns(db, db.locks[id], id);
    }
  }

  lemma VisitKeepsLocks(db: Database, k: nat, id: Text)
    requires LocksOk(db)
    ensures LocksOk(VisitStep(db, k, id))
  {
    var next := VisitStep(db, k, id);
    if next != db {
      assert HoldsItsRows(db, k);
      assert HoldsItsRows(next, k);
      SweepStepKeepsLocks(db, next, k);
    }
  }

  lemma BeginSweepKeepsLocks(db: Database, now: int)
    requires LocksOk(db)
    ensures LocksOk(Execute(db, BeginSweep(now)))
  {
    SweepStepKeepsLocks(db, Execute(db, BeginSweep(now)), |db.sweeps|);
  }

  /** A sweep that ends lets its locks go; the rows it did not mark are as they were. */
  lemma SweepEndKeepsLocks(db: Database, next: Database, k: nat)
    requires LocksOk(db) && IsOpen(db, k) && next.txns == db.txns && next.locks == LocksWithout(db, k)
    requires next.sweeps == db.sweeps[k := db.sweeps[k].(open := false)]
    requires forall id :: id in db.grants ==>
      id in next.grants && (id in db.sweeps[k].marked || next.grants[id] == db.grants[id])
    ensures LocksOk(next)
  {
    assert HoldsItsRows(db, k);
    forall x | 0 <= x < |next.txns| && Holding(next.txns[x].phase) ensures HoldsItsRow(next, x) {
      assert HoldsItsRow(db, x);
    }
    forall j | 0 <= j < |next.sweeps| && next.sweeps[j].open ensures HoldsItsRows(next, j) {
      assert HoldsItsRows(db, j);
    }
    forall id | id in next.locks ensures Owns(next, next.locks[id], id) {
      assert Owns(db, db.locks[id], id);
    }
  }

  /** Only issued grants are marked, so a sweep revokes nothing and unrevokes nothing. */
  lemma MarkingKeepsRevoked(t: Table, ids: set<Text>)
    requires forall id :: id in ids ==> id in t && t[id].status == Issued
    ensures WithStatus(MarkRows(t, ids), Revoked) == WithStatus(t, Revoked)
    ensures WithStatus(MarkRows(t, ids), Expired) == WithStatus(t, Expired) + ids
  {
  }

  lemma CommitSweepKeeps(db: Database, k: nat)
    requires DatabaseOk(db)
    ensures DatabaseOk(CommitSweepStep(db, k))
  {
    var next := CommitSweepStep(db, k);
    if Finishing(db, k) {
      assert HoldsItsRows(db, k);
      SweepEndKeepsLocks(db, next, k);
      MarkingKeepsRevoked(db.grants, db.sweeps[k].marked);
      SameRevokers(db, next);
    }
  }

  lemma AbortSweepKeepsLocks(db: Database, k: nat)
    requires LocksOk(db)
    ensures LocksOk(AbortSweepStep(db, k))
  {
    if IsOpen(db, k) {
      SweepEndKeepsLocks(db, AbortSweepStep(db, k), k);
    }
  }

  /** Until its commit a sweep publishes nothing. */
  lemma SweepMovesKeep(db: Database, next: Database)
    requires DatabaseOk(db) && LocksOk(next) && next.txns == db.txns
    requires next.grants == db.grants && next.revocations == db.revocations
    ensures DatabaseOk(next)
  {
    SameRevokers(db, next);
  }

  lemma UpdateRowKeeps(db: Database, x: nat)
    requires DatabaseOk(db)
    ensures DatabaseOk(Execute(db, UpdateRow(x)))
  {
    if InPhase(db, x, Locked) {
      StageKeeps(db, x, RowUpdated, SetRevoked(db.txns[x].id));
    }
  }

  lemma InsertRevocationKeeps(db: Database, x: nat)
    requires DatabaseOk(db)
    ensures DatabaseOk(Execute(db, InsertRevocation(x)))
  {
    if InPhase(db, x, RowUpdated) {
      StageKeeps(db, x, RevocationInserted, AddRevocation(db.txns[x].id, db.txns[x].reason));
    }
  }

  lemma BeginSweepKeeps(db: Database, now: int)
    requires DatabaseOk(db)
    ensures DatabaseOk(Execute(db, BeginSweep(now)))
  {
    BeginSweepKeepsLocks(db, now);
    SweepMovesKeep(db, Execute(db, BeginSweep(now)));
  }

  lemma VisitKeeps(db: Database, k: nat, id: Text)
    requires DatabaseOk(db)
    ensures DatabaseOk(VisitStep(db, k, id))
  {
    VisitKeepsLocks(db, k, id);
    SweepMovesKeep(db, VisitStep(db, k, id));
  }

  lemma AbortSweepKeeps(db: Database, k: nat)
    requires DatabaseOk(db)
    ensures DatabaseOk(AbortSweepStep(db, k))
  {
    AbortSweepKeepsLocks(db, k);
    SweepMovesKeep(db, AbortSweepStep(db, k));
  }

  lemma ExecuteKeeps(db: Database, s: Statement)
    requires DatabaseOk(db) && FromService(s)
    ensures DatabaseOk(Execute(db, s))
  {
    match s
    case Insert(r) => InsertKeeps(db, r);
    case Begin(id, reason) => BeginKeeps(db, id, reason);
    case SelectForUpdate(x) => SelectKeeps(db, x);
    case UpdateRow(x) => UpdateRowKeeps(db, x);
    case InsertRevocation(x) => InsertRevocationKeeps(db, x);
    case Commit(x) => CommitKeeps(db, x);
    case Rollback(x) => RollbackKeeps(db, x);
    case CommitSweep(k) => CommitSweepKeeps(db, k);
    case BeginSweep(now) => BeginSweepKeeps(db, now);
    case VisitRow(k, id) => VisitKeeps(db, k, id);
    case AbortSweep(k) => AbortSweepKeeps(db, k);
  }

  lemma {:induction false} RanIsOk(statements: seq<Statement>)
    requires forall i :: 0 <= i < |statements| ==> FromService(statements[i])
    ensures DatabaseOk(Ran(statements))
  {
    if statements != [] {
      RanIsOk(statements[..|statements| - 1]);
      ExecuteKeeps(Ran(statements[..|statements| - 1]), statements[|statements| - 1]);
    }
  }

  // ---- Main results ----

  /** In every committed state a grant is REVOKED exactly when its id is in the revocation table. */
  lemma LedgerMatchesRevocations(statements: seq<Statement>, id: Text)
    requires forall i :: 0 <= i < |statements| ==> FromService(statements[i])
    ensures var db := Ran(statements);
            id in db.revocations <==> id in db.grants && db.grants[id].status == Revoked
  {
    RanIsOk(statements);
    var db := Ran(statements);
    assert id in db.revocations.Keys <==> id in WithStatus(db.grants, Revoked);
  }

  /** The revokes of `id` that replied 'revoked'. */
  function Winners(db: Database, id: Text): set<nat> {
    set x: nat | x < |db.txns| && Won(db, x, id)
  }

  lemma WinnerIsUnique(db: Database, id: Text)
    requires RevokersOk(db) && id in db.revocations
    ensures |Winners(db, id)| == 1
  {
    var x: nat :| Won(db, x, id);
    assert Winners(db, id) == {x};
  }

  /** Whoever was told 'already revoked' was told the truth. */
  ghost predicate LosersLost(db: Database) {
    forall x: nat :: InPhase(db, x, Replied(AlreadyRevoked)) ==> db.txns[x].id in db.revocations
  }

  /** The grant exists, and no revoke begun since transaction `from` was told 'not found'. */
  predicate Found(db: Database, from: nat, id: Text) {
    id in db.grants && forall x :: from <= x < |db.txns| && db.txns[x].id == id ==> !InPhase(db, x, Replied(NotFound))
  }

  lemma ExecuteKeepsLosers(db: Database, s: Statement)
    requires RevokersOk(db) && LosersLost(db)
    ensures LosersLost(Execute(db, s))
  {
    if s.SelectForUpdate? && InPhase(db, s.txn, Begun) && RevokeReply(db.grants, db.txns[s.txn].id) == AlreadyRevoked {
      assert db.txns[s.txn].id in WithStatus(db.grants, Revoked);
    }
  }

  lemma ExecuteKeepsFound(db: Database, s: Statement, from: nat, id: Text)
    requires Found(db, from, id)
    ensures Found(Execute(db, s), from, id)
  {
  }

  lemma ExecuteKeepsRevocations(db: Database, s: Statement)
    ensures db.revocations.Keys <= Execute(db, s).revocations.Keys
  {
  }

  lemma ButLast<T>(a: seq<T>, b: seq<T>)
    requires b != []
    ensures var all := a + b; all[..|all| - 1] == a + b[..|b| - 1] && all[|all| - 1] == b[|b| - 1]
  {
  }

  lemma RanOneMore(statements: seq<Statement>, more: seq<Statement>)
    requires more != []
    ensures var n := |more| - 1; Ran(statements + more) == Execute(Ran(statements + more[..n]), more[n])
  {
    ButLast(statements, more);
  }

  lemma {:induction false} AllLosersLost(statements: seq<Statement>)
    requires forall i :: 0 <= i < |statements| ==> FromService(statements[i])
    ensures LosersLost(Ran(statements))
  {
    if statements != [] {
      var n := |statements| - 1;
      RanIsOk(statements[..n]);
      AllLosersLost(statements[..n]);
      ExecuteKeepsLosers(Ran(statements[..n]), statements[n]);
    }
  }

  lemma {:induction false} FoundFromThenOn(before: seq<Statement>, more: seq<Statement>, id: Text)
    requires id in Ran(before).grants
    ensures Found(Ran(before + more), |Ran(before).txns|, id)
  {
    if more == [] {
      assert before + more == before;
    } else {
      var n := |more| - 1;
      FoundFromThenOn(before, more[..n], id);
      RanOneMore(before, more);
      ExecuteKeepsFound(Ran(before + more[..n]), more[n], |Ran(before).txns|, id);
    }
  }

  lemma AnswerHasWinner(db: Database, from: nat, x: nat, id: Text)
    requires RevokersOk(db) && LosersLost(db) && Found(db, from, id)
    requires from <= x < |db.txns| && db.txns[x].id == id && db.txns[x].phase.Replied?
    ensures |Winners(db, id)| == 1
    ensures Won(db, x, id) || db.txns[x].phase == Replied(AlreadyRevoked)
  {
    assert !InPhase(db, x, Replied(NotFound));
    if db.txns[x].phase.outcome == AlreadyRevoked {
      assert InPhase(db, x, Replied(AlreadyRevoked));
    } else {
      assert Won(db, x, id);
    }
    WinnerIsUnique(db, id);
  }

  /**
   Among any number of concurrent revokes of an existing grant, once one of them has been answered
   exactly one of all of them has the answer 'revoked'.
   */
  lemma OneRevokerWins(before: seq<Statement>, more: seq<Statement>, x: nat, id: Text)
    requires forall i :: 0 <= i < |before + more| ==> FromService((before + more)[i])
    requires id in Ran(before).grants
    requires var db := Ran(before + more);
             |Ran(before).txns| <= x < |db.txns| && db.txns[x].id == id && db.txns[x].phase.Replied?
    ensures |Winners(Ran(before + more), id)| == 1
    ensures Won(Ran(before + more), x, id) || Ran(before + more).txns[x].phase == Replied(AlreadyRevoked)
  {
    var db := Ran(before + more);
    RanIsOk(before + more);
    AllLosersLost(before + more);
    FoundFromThenOn(before, more, id);
    AnswerHasWinner(db, |Ran(before).txns|, x, id);
  }

  /** Once in the revocation table, always in it. */
  lemma {:induction false} RevocationIsForever(statements: seq<Statement>, more: seq<Statement>, id: Text)
    requires id in Ran(statements).revocations
    ensures id in Ran(statements + more).revocations
  {
    if more == [] {
      assert statements + more == statements;
    } else {
      var n := |more| - 1;
      RevocationIsForever(statements, more[..n], id);
      RanOneMore(statements, more);
      ExecuteKeepsRevocations(Ran(statements + more[..n]), more[n]);
    }
  }

  // ---- All or nothing ----

  /** The revoke has failed: it holds no lock, and it never answered. */
  predicate Gone(db: Database, x: nat) {
    InPhase(db, x, Failed) && forall id :: id in db.locks ==> db.locks[id] != ByRevoke(x)
  }

  lemma GoneStays(db: Database, s: Statement, x: nat)
    requires Gone(db, x)
    ensures Gone(Execute(db, s), x)
  {
  }

  /** A rollback, wherever the revoke stands, publishes nothing. */
  lemma RollbackPublishesNothing(db: Database, x: nat)
    requires LocksOk(db) && x < |db.txns| && !db.txns[x].phase.Replied?
    ensures var next := Execute(db, Rollback(x));
            Gone(next, x) && next.grants == db.grants && next.revocations == db.revocations && next.log == db.log
  {
    var next := Execute(db, Rollback(x));
    forall id | id in next.locks ensures next.locks[id] != ByRevoke(x) {
      assert Owns(db, db.locks[id], id);
    }
  }

  /**
   All or nothing. A revoke that is rolled back before it answered leaves both tables as they are, and
   whatever runs afterwards never takes its row again nor answers for it.
   */
  lemma {:induction false} RolledBackIsGone(statements: seq<Statement>, more: seq<Statement>, x: nat)
    requires forall i :: 0 <= i < |statements| ==> FromService(statements[i])
    requires x < |Ran(statements).txns| && !Ran(statements).txns[x].phase.Replied?
    ensures var before, after := Ran(statements), Ran(statements + [Rollback(x)]);
            after.grants == before.grants && after.revocations == before.revocations && after.log == before.log
    ensures Gone(Ran(statements + [Rollback(x)] + more), x)
  {
    var rolledBack := statements + [Rollback(x)];
    if more == [] {
      RanIsOk(statements);
      RanOneMore(statements, [Rollback(x)]);
      assert statements + [Rollback(x)][..0] == statements;
      RollbackPublishesNothing(Ran(statements), x);
      assert rolledBack + more == rolledBack;
    } else {
      var n := |more| - 1;
      RolledBackIsGone(statements, more[..n], x);
      RanOneMore(rolledBack, more);
      GoneStays(Ran(rolledBack + more[..n]), more[n], x);
    }
  }
}
