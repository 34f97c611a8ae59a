/**
 When the ledger's concurrency is as if the operations ran one at a time in the order of their commits:
 exactly when no sweep overlooks a grant that was saved, already due, after the sweep's snapshot.
 */
module Serializability {
  import opened Texts
  import opened Ledger
  import opened Transactions

  function Ops(log: seq<Logged>): (ops: seq<Op>)
    ensures |ops| == |log| && forall i :: 0 <= i < |log| ==> ops[i] == log[i].op
  {
    seq(|log|, i requires 0 <= i < |log| => log[i].op)
  }

  /** Both tables after running the logged operations one at a time. */
  function Serial(ops: seq<Op>): (Table, map<Text, Text>) {
    if ops == [] then (map[], map[])
    else
      var before, last := Serial(ops[..|ops| - 1]), ops[|ops| - 1];
      (SqlStep(before.0, last).0,
       if last.Revoke? then RevocationsAfter(before.1, before.0, last.id, last.reason) else before.1)
  }

  /** The reply is the one the operation gives when run alone after those before it. */
  predicate RepliesAlone(before: seq<Op>, entry: Logged) {
    entry.reply == SqlStep(Serial(before).0, entry.op).1
  }

  predicate RepliesAreSerial(log: seq<Logged>) {
    forall i :: 0 <= i < |log| ==> RepliesAlone(Ops(log)[..i], log[i])
  }

  /** Tables and replies are what the logged operations give, one at a time. */
  predicate LogOk(db: Database) {
    Serial(Ops(db.log)) == (db.grants, db.revocations) && RepliesAreSerial(db.log)
  }

  lemma SerialGrows(ops: seq<Op>, op: Op)
    ensures Serial(ops + [op]) ==
            (SqlStep(Serial(ops).0, op).0,
             if op.Revoke? then RevocationsAfter(Serial(ops).1, Serial(ops).0, op.id, op.reason) else Serial(ops).1)
  {
    assert (ops + [op])[..|ops|] == ops;
  }

  lemma RepliesGrow(log: seq<Logged>, entry: Logged)
    requires RepliesAreSerial(log) && RepliesAlone(Ops(log), entry)
    ensures Ops(log + [entry]) == Ops(log) + [entry.op] && RepliesAreSerial(log + [entry])
  {
    var ops := Ops(log + [entry]);
    assert ops == Ops(log) + [entry.op];
    forall i | 0 <= i <= |log| ensures RepliesAlone(ops[..i], (log + [entry])[i]) {
      assert ops[..i] == Ops(log)[..i];
      assert i == |log| ==> Ops(log)[..i] == Ops(log);
    }
  }

  /** Taking an operation's whole effect and logging it with its own reply keeps the log exact. */
  lemma LogGrows(db: Database, next: Database, entry: Logged)
    requires LogOk(db) && next.log == db.log + [entry]
    requires (next.grants, entry.reply) == SqlStep(db.grants, entry.op)
    requires next.revocations == if entry.op.Revoke?
                                 then RevocationsAfter(db.revocations, db.grants, entry.op.id, entry.op.reason)
                                 else db.revocations
    ensures LogOk(next)
  {
    RepliesGrow(db.log, entry);
    SerialGrows(Ops(db.log), entry.op);
  }

  lemma SelectKeepsLog(db: Database, x: nat)
    requires LogOk(db)
    ensures LogOk(SelectStep(db, x))
  {
    var next := SelectStep(db, x);
    if next.log != db.log {
      var id := db.txns[x].id;
      LogGrows(db, next, Logged(Revoke(id, db.txns[x].reason), Outcome(RevokeReply(db.grants, id))));
    }
  }

  lemma CommitKeepsLog(db: Database, x: nat)
    requires LocksOk(db) && StagedOk(db) && LogOk(db)
    ensures LogOk(CommitStep(db, x))
  {
    if InPhase(db, x, RevocationInserted) {
      var t := db.txns[x];
      CommitPublishes(db, x);
      LogGrows(db, CommitStep(db, x), Logged(Revoke(t.id, t.reason), Outcome(RevokedNow)));
    }
  }

  /** The sweep is about to end and has not seen every grant that is due. */
  predicate Overlooks(db: Database, s: Statement) {
    s.CommitSweep? && Finishing(db, s.sweep)
    && !(DueIds(db.grants, db.sweeps[s.sweep].now) <= db.sweeps[s.sweep].marked)
  }

  lemma MarkingAllIsSweep(t: Table, now: int)
    ensures MarkRows(t, DueIds(t, now)) == Sweep(t, now)
  {
  }

  lemma MarkingLessIsNoSweep(t: Table, now: int, ids: set<Text>)
    requires !(DueIds(t, now) <= ids)
    ensures MarkRows(t, ids) != Sweep(t, now)
  {
    var id :| id in DueIds(t, now) && id !in ids;
    assert MarkRows(t, ids)[id].status == Issued && Sweep(t, now)[id].status == Expired;
  }

  /** A sweep takes effect as one operation, at its commit, exactly when it overlooked nothing. */
  lemma SweepIsSerialExactly(db: Database, k: nat)
    requires LocksOk(db) && LogOk(db) && Finishing(db, k)
    ensures LogOk(CommitSweepStep(db, k)) <==> !Overlooks(db, CommitSweep(k))
  {
    var w, next := db.sweeps[k], CommitSweepStep(db, k);
    assert HoldsItsRows(db, k);
    if Overlooks(db, CommitSweep(k)) {
      MarkingLessIsNoSweep(db.grants, w.now, w.marked);
      assert Ops(next.log) == Ops(db.log) + [MarkExpired(w.now)];
      SerialGrows(Ops(db.log), MarkExpired(w.now));
    } else {
      assert w.marked == DueIds(db.grants, w.now);
      MarkingAllIsSweep(db.grants, w.now);
      LogGrows(db, next, Logged(MarkExpired(w.now), Marked(|w.marked|)));
    }
  }

  lemma ExecuteKeepsLog(db: Database, s: Statement)
    requires LocksOk(db) && StagedOk(db) && LogOk(db) && !Overlooks(db, s)
    ensures LogOk(Execute(db, s))
  {
    match s
    case Insert(r) => LogGrows(db, Execute(db, s), Logged(Save(r), Saved));
    case SelectForUpdate(x) => SelectKeepsLog(db, x);
    case Commit(x) => CommitKeepsLog(db, x);
    case CommitSweep(k) =>
      if Finishing(db, k) {
        SweepIsSerialExactly(db, k);
      }
    case _ => OthersLogNothing(db, s);
  }

  lemma OthersLogNothing(db: Database, s: Statement)
    requires !s.Insert? && !s.SelectForUpdate? && !s.Commit? && !s.CommitSweep?
    ensures var next := Execute(db, s);
            next.log == db.log && next.grants == db.grants && next.revocations == db.revocations
  {
  }

  /** No sweep of the run overlooks a grant. */
  predicate NoneOverlooked(statements: seq<Statement>) {
    forall n :: 0 <= n < |statements| ==> !Overlooks(Ran(statements[..n]), statements[n])
  }

  /** At every point of the run the committed tables and all replies are serial. */
  predicate SerialThroughout(statements: seq<Statement>) {
    forall n :: 0 <= n <= |statements| ==> LogOk(Ran(statements[..n]))
  }

  lemma SamePrefix(statements: seq<Statement>, n: nat)
    requires n <= |statements|
    ensures forall i :: 0 <= i < n ==> statements[..n][..i] == statements[..i] && statements[..n][i] == statements[i]
  {
  }

  lemma PrefixOverlooksNone(statements: seq<Statement>, n: nat)
    requires n <= |statements| && NoneOverlooked(statements)
    ensures NoneOverlooked(statements[..n])
  {
    SamePrefix(statements, n);
  }

  lemma {:induction false} NothingOverlookedIsSerial(statements: seq<Statement>)
    requires forall i :: 0 <= i < |statements| ==> FromService(statements[i])
    requires NoneOverlooked(statements)
    ensures LogOk(Ran(statements))
  {
    if statements != [] {
      var n := |statements| - 1;
      PrefixOverlooksNone(statements, n);
      NothingOverlookedIsSerial(statements[..n]);
      RanIsOk(statements[..n]);
      ExecuteKeepsLog(Ran(statements[..n]), statements[n]);
    }
  }

  lemma SerialEndOverlooksNothing(db: Database, k: nat)
    requires LocksOk(db) && LogOk(db) && LogOk(CommitSweepStep(db, k))
    ensures !Overlooks(db, CommitSweep(k))
  {
    if Finishing(db, k) {
      SweepIsSerialExactly(db, k);
    }
  }

  lemma CommitSweepEnds(db: Database, k: nat)
    ensures Execute(db, CommitSweep(k)) == CommitSweepStep(db, k)
  {
  }

  lemma SerialStepOverlooksNothing(db: Database, s: Statement)
    requires LocksOk(db) && LogOk(db) && LogOk(Execute(db, s))
    ensures !Overlooks(db, s)
  {
    if s.CommitSweep? {
      CommitSweepEnds(db, s.sweep);
      SerialEndOverlooksNothing(db, s.sweep);
    }
  }

  lemma RanPrefix(statements: seq<Statement>, n: nat)
    requires n < |statements|
    ensures Ran(statements[..n + 1]) == Execute(Ran(statements[..n]), statements[n])
  {
    var more := statements[..n + 1];
    assert more[..|more| - 1] == statements[..n] && more[|more| - 1] == statements[n];
  }

  /**
   Every interleaving of saves, of revokes statement by statement and of sweeps row by row leaves, at
   all times, the two committed tables as if the operations had run one at a time in the order of
   their commits, with the same replies, if and only if no sweep overlooks a grant that is due.
   */
  lemma ConcurrentRunsAreSerialExactly(statements: seq<Statement>)
    requires forall i :: 0 <= i < |statements| ==> FromService(statements[i])
    ensures SerialThroughout(statements) <==> NoneOverlooked(statements)
  {
    if NoneOverlooked(statements) {
      forall n | 0 <= n <= |statements| ensures LogOk(Ran(statements[..n])) {
        PrefixOverlooksNone(statements, n);
        NothingOverlookedIsSerial(statements[..n]);
      }
    }
    if SerialThroughout(statements) {
      forall n | 0 <= n < |statements| ensures !Overlooks(Ran(statements[..n]), statements[n]) {
        RanIsOk(statements[..n]);
        RanPrefix(statements, n);
        SerialStepOverlooksNothing(Ran(statements[..n]), statements[n]);
      }
    }
  }

  // ---- Grants that are not due when they are saved ----

  /** A save is not due for any sweep under way. */
  predicate Timely(db: Database, s: Statement) {
    s.Insert? ==> forall k :: 0 <= k < |db.sweeps| && db.sweeps[k].open ==> !Due(s.record, db.sweeps[k].now)
  }

  /** Every sweep under way has marked, or still has to visit, all that is due for it. */
  predicate InSight(db: Database) {
    forall k :: 0 <= k < |db.sweeps| && db.sweeps[k].open ==> SeesAll(db.grants, db.sweeps[k])
  }

  predicate SeesAll(t: Table, w: SweepTxn) {
    DueIds(t, w.now) <= w.unvisited + w.marked
  }

  /** Nothing becomes due by statuses moving forward. */
  lemma NoMoreDue(db: Database, next: Database)
    requires InSight(db) && next.sweeps == db.sweeps
    requires forall id :: id in next.grants ==>
      id in db.grants && (next.grants[id] == db.grants[id] || next.grants[id].status != Issued)
    ensures InSight(next)
  {
    forall k | 0 <= k < |next.sweeps| && next.sweeps[k].open ensures SeesAll(next.grants, next.sweeps[k]) {
      assert SeesAll(db.grants, db.sweeps[k]);
    }
  }

  lemma SweepsStayInSight(db: Database, s: Statement)
    requires InSight(db) && LocksOk(db) && (s.BeginSweep? || s.VisitRow? || s.CommitSweep? || s.AbortSweep?)
    ensures InSight(Execute(db, s))
  {
    match s
    case BeginSweep(now) =>
      var next := Execute(db, s);
      forall k | 0 <= k < |next.sweeps| && next.sweeps[k].open ensures SeesAll(next.grants, next.sweeps[k]) {
        assert k < |db.sweeps| ==> SeesAll(db.grants, db.sweeps[k]);
      }
    case VisitRow(k, id) => VisitStaysInSight(db, k, id);
    case CommitSweep(k) => EndStaysInSight(db, CommitSweepStep(db, k));
    case AbortSweep(k) => EndStaysInSight(db, AbortSweepStep(db, k));
  }

  lemma VisitStaysInSight(db: Database, k: nat, id: Text)
    requires InSight(db)
    ensures InSight(VisitStep(db, k, id))
  {
    var next := VisitStep(db, k, id);
    forall j | 0 <= j < |next.sweeps| && next.sweeps[j].open ensures SeesAll(next.grants, next.sweeps[j]) {
      assert SeesAll(db.grants, db.sweeps[j]);
    }
  }

  lemma EndStaysInSight(db: Database, next: Database)
    requires InSight(db) && |next.sweeps| == |db.sweeps|
    requires forall j :: 0 <= j < |db.sweeps| && next.sweeps[j].open ==> next.sweeps[j] == db.sweeps[j]
    requires forall id :: id in next.grants ==>
      id in db.grants && (next.grants[id] == db.grants[id] || next.grants[id].status != Issued)
    ensures InSight(next)
  {
    forall j | 0 <= j < |next.sweeps| && next.sweeps[j].open ensures SeesAll(next.grants, next.sweeps[j]) {
      assert SeesAll(db.grants, db.sweeps[j]);
    }
  }

  lemma InsertStaysInSight(db: Database, r: GrantRecord)
    requires InSight(db) && Timely(db, Insert(r))
    ensures InSight(Execute(db, Insert(r)))
  {
    var next := Execute(db, Insert(r));
    forall k | 0 <= k < |next.sweeps| && next.sweeps[k].open ensures SeesAll(next.grants, next.sweeps[k]) {
      assert SeesAll(db.grants, db.sweeps[k]);
    }
  }

  lemma ExecuteStaysInSight(db: Database, s: Statement)
    requires InSight(db) && Timely(db, s) && LocksOk(db) && StagedOk(db)
    ensures InSight(Execute(db, s)) && !Overlooks(db, s)
  {
    assert s.CommitSweep? && Finishing(db, s.sweep) ==> SeesAll(db.grants, db.sweeps[s.sweep]);
    if s.Insert? {
      InsertStaysInSight(db, s.record);
    } else if s.BeginSweep? || s.VisitRow? || s.CommitSweep? || s.AbortSweep? {
      SweepsStayInSight(db, s);
    } else {
      if s.Commit? && InPhase(db, s.txn, RevocationInserted) {
        CommitPublishes(db, s.txn);
      }
      NoMoreDue(db, Execute(db, s));
    }
  }

  predicate TimelyThroughout(statements: seq<Statement>) {
    forall n :: 0 <= n < |statements| ==> Timely(Ran(statements[..n]), statements[n])
  }

  lemma {:induction false} TimelyStaysInSight(statements: seq<Statement>)
    requires forall i :: 0 <= i < |statements| ==> FromService(statements[i])
    requires TimelyThroughout(statements)
    ensures InSight(Ran(statements))
  {
    if statements != [] {
      var n := |statements| - 1;
      SamePrefix(statements, n);
      TimelyStaysInSight(statements[..n]);
      RanIsOk(statements[..n]);
      ExecuteStaysInSight(Ran(statements[..n]), statements[n]);
    }
  }

  /** When no grant is saved that a sweep under way would have to expire, every run is serial throughout. */
  lemma TimelyRunsAreSerial(statements: seq<Statement>)
    requires forall i :: 0 <= i < |statements| ==> FromService(statements[i])
    requires TimelyThroughout(statements)
    ensures SerialThroughout(statements)
  {
    forall n | 0 <= n < |statements| ensures !Overlooks(Ran(statements[..n]), statements[n]) {
      SamePrefix(statements, n);
      TimelyStaysInSight(statements[..n]);
      RanIsOk(statements[..n]);
      ExecuteStaysInSight(Ran(statements[..n]), statements[n]);
    }
    ConcurrentRunsAreSerialExactly(statements);
  }
}
