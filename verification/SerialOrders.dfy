/**
 Every run of the ledger is as if its operations had run one at a time in some order, which differs from
 the order of their commits only in where the saves are.
 */
module SerialOrders {
  import opened Texts
  import opened Ledger
  import opened Transactions
  import opened Serializability

  /** Both tables after the logged operations, one at a time. */
  function Tables(log: seq<Logged>): (Table, map<Text, Text>) {
    Serial(Ops(log))
  }

  function StepBoth(t: Table, revs: map<Text, Text>, op: Op): (Table, map<Text, Text>) {
    (SqlStep(t, op).0, if op.Revoke? then RevocationsAfter(revs, t, op.id, op.reason) else revs)
  }

  lemma TablesGrow(log: seq<Logged>, entry: Logged)
    ensures Ops(log + [entry]) == Ops(log) + [entry.op]
    ensures Tables(log + [entry]) == StepBoth(Tables(log).0, Tables(log).1, entry.op)
  {
    assert Ops(log + [entry]) == Ops(log) + [entry.op];
    SerialGrows(Ops(log), entry.op);
  }

  lemma RepliesSplit(log: seq<Logged>, entry: Logged)
    requires RepliesAreSerial(log + [entry])
    ensures RepliesAreSerial(log) && RepliesAlone(Ops(log), entry)
  {
    var all := log + [entry];
    TablesGrow(log, entry);
    forall i | 0 <= i <= |log| ensures Ops(all)[..i] == Ops(log)[..i] {
    }
    forall i | 0 <= i < |log| ensures RepliesAlone(Ops(log)[..i], log[i]) {
      assert all[i] == log[i];
      assert RepliesAlone(Ops(all)[..i], all[i]);
    }
    assert all[|log|] == entry && Ops(log)[..|log|] == Ops(log);
    assert RepliesAlone(Ops(all)[..|log|], all[|log|]);
  }

  lemma LastSplit(log: seq<Logged>)
    requires log != []
    ensures log == log[..|log| - 1] + [log[|log| - 1]]
  {
  }

  // ---- Setting saves aside ----

  predicate SavesIn(entry: Logged, ids: set<Text>) {
    entry.op.Save? && entry.op.record.grantId in ids
  }

  /** The log without the saves of `ids`. */
  function Rest(log: seq<Logged>, ids: set<Text>): seq<Logged> {
    if log == [] then []
    else Rest(log[..|log| - 1], ids) + if SavesIn(log[|log| - 1], ids) then [] else [log[|log| - 1]]
  }

  /** The saves of `ids` in the log. */
  function SavesOf(log: seq<Logged>, ids: set<Text>): seq<Logged> {
    if log == [] then []
    else SavesOf(log[..|log| - 1], ids) + if SavesIn(log[|log| - 1], ids) then [log[|log| - 1]] else []
  }

  /** The log without any saves. */
  function NotSaves(log: seq<Logged>): seq<Logged> {
    if log == [] then []
    else NotSaves(log[..|log| - 1]) + if log[|log| - 1].op.Save? then [] else [log[|log| - 1]]
  }

  lemma {:induction false} NotSavesOfBoth(a: seq<Logged>, b: seq<Logged>)
    ensures NotSaves(a + b) == NotSaves(a) + NotSaves(b)
  {
    if b == [] {
      assert a + b == a;
    } else {
      var n := |b| - 1;
      NotSavesOfBoth(a, b[..n]);
      assert (a + b)[..|a + b| - 1] == a + b[..n] && (a + b)[|a + b| - 1] == b[n];
    }
  }

  lemma {:induction false} SettingAside(log: seq<Logged>, ids: set<Text>)
    ensures multiset(Rest(log, ids)) + multiset(SavesOf(log, ids)) == multiset(log)
    ensures NotSaves(Rest(log, ids)) == NotSaves(log) && NotSaves(SavesOf(log, ids)) == []
  {
    if log != [] {
      var before, last := log[..|log| - 1], log[|log| - 1];
      LastSplit(log);
      SettingAside(before, ids);
      NotSavesOfBoth(Rest(before, ids), if SavesIn(last, ids) then [] else [last]);
      NotSavesOfBoth(SavesOf(before, ids), if SavesIn(last, ids) then [last] else []);
      assert NotSaves([last]) == if last.op.Save? then [] else [last];
    }
  }

  /** Those of `ids` that are in the table are still as they were saved. */
  predicate Unmoved(t: Table, ids: set<Text>) {
    forall id :: id in ids && id in t ==> t[id].status == Issued
  }

  function Restricted(t: Table, ids: set<Text>): Table {
    map id | id in t && id in ids :: t[id]
  }

  lemma UnmovedBefore(t: Table, op: Op, ids: set<Text>)
    requires Unmoved(SqlStep(t, op).0, ids)
    ensures Unmoved(t, ids)
  {
    forall id | id in ids && id in t ensures t[id].status == Issued {
      assert id in SqlStep(t, op).0;
    }
  }

  lemma PutApart(t: Table, id: Text, r: GrantRecord, ids: set<Text>)
    requires id !in ids
    ensures t[id := r] - ids == (t - ids)[id := r]
  {
  }

  lemma RevokeApart(t: Table, revs: map<Text, Text>, op: Op, ids: set<Text>)
    requires op.Revoke? && Unmoved(SqlStep(t, op).0, ids)
    ensures SqlStep(t - ids, op) == (SqlStep(t, op).0 - ids, SqlStep(t, op).1)
    ensures StepBoth(t - ids, revs, op).1 == StepBoth(t, revs, op).1
  {
    assert op.id in t ==> op.id in SqlStep(t, op).0 && SqlStep(t, op).0[op.id].status == Revoked;
    assert op.id in t ==> op.id !in ids;
    if RevokeReply(t, op.id) == RevokedNow {
      PutApart(t, op.id, t[op.id].(status := Revoked), ids);
    }
  }

  lemma SweepApart(t: Table, now: int, ids: set<Text>)
    requires Unmoved(Sweep(t, now), ids)
    ensures DueIds(t - ids, now) == DueIds(t, now) && Sweep(t - ids, now) == Sweep(t, now) - ids
  {
    forall id | id in ids && id in t ensures !Due(t[id], now) {
      assert id in Sweep(t, now);
    }
  }

  /** An operation that leaves `ids` as saved does and answers the same without them. */
  lemma StepApart(t: Table, revs: map<Text, Text>, op: Op, ids: set<Text>)
    requires Unmoved(SqlStep(t, op).0, ids) && !(op.Save? && op.record.grantId in ids)
    ensures SqlStep(t - ids, op).1 == SqlStep(t, op).1
    ensures StepBoth(t - ids, revs, op) == (StepBoth(t, revs, op).0 - ids, StepBoth(t, revs, op).1)
  {
    match op
    case Save(r) => PutApart(t, r.grantId, r, ids);
    case Revoke(_, _) => RevokeApart(t, revs, op, ids);
    case MarkExpired(now) => SweepApart(t, now, ids);
  }

  lemma SaveGoes(t: Table, r: GrantRecord, ids: set<Text>)
    requires r.grantId in ids
    ensures InsertIfAbsent(t, r) - ids == t - ids
    ensures Restricted(InsertIfAbsent(t, r), ids) == InsertIfAbsent(Restricted(t, ids), r)
  {
  }

  lemma RestOfLast(before: seq<Logged>, last: Logged, ids: set<Text>)
    ensures Rest(before + [last], ids) == if SavesIn(last, ids) then Rest(before, ids) else Rest(before, ids) + [last]
  {
    var log := before + [last];
    assert log[..|log| - 1] == before && log[|log| - 1] == last;
  }

  /** One entry more, next to a log that gives the same but for `ids`. */
  lemma OneMoreApart(rest: seq<Logged>, before: seq<Logged>, last: Logged, ids: set<Text>)
    requires !SavesIn(last, ids) && Unmoved(Tables(before + [last]).0, ids) && RepliesAlone(Ops(before), last)
    requires RepliesAreSerial(rest) && Tables(rest) == (Tables(before).0 - ids, Tables(before).1)
    ensures Tables(rest + [last]) == (Tables(before + [last]).0 - ids, Tables(before + [last]).1)
    ensures RepliesAreSerial(rest + [last])
  {
    TablesGrow(before, last);
    TablesGrow(rest, last);
    StepApart(Tables(before).0, Tables(before).1, last.op, ids);
    RepliesGrow(rest, last);
  }

  /** Without the saves of ids that are as saved in the end, everything else goes as before. */
  lemma {:induction false} RestIsSerial(log: seq<Logged>, ids: set<Text>)
    requires RepliesAreSerial(log) && Unmoved(Tables(log).0, ids)
    ensures Tables(Rest(log, ids)) == (Tables(log).0 - ids, Tables(log).1) && RepliesAreSerial(Rest(log, ids))
  {
    if log == [] {
      assert Tables(log).0 - ids == Tables(log).0;
    } else {
      var before, last := log[..|log| - 1], log[|log| - 1];
      LastSplit(log);
      TablesGrow(before, last);
      RepliesSplit(before, last);
      UnmovedBefore(Tables(before).0, last.op, ids);
      RestIsSerial(before, ids);
      RestOfLast(before, last, ids);
      if SavesIn(last, ids) {
        SaveGoes(Tables(before).0, last.op.record, ids);
      } else {
        OneMoreApart(Rest(before, ids), before, last, ids);
      }
    }
  }

  /** What is not a save of `ids` leaves them as they are, if it leaves them as saved. */
  lemma StepElsewhere(t: Table, op: Op, ids: set<Text>)
    requires Unmoved(SqlStep(t, op).0, ids) && !(op.Save? && op.record.grantId in ids)
    ensures Restricted(SqlStep(t, op).0, ids) == Restricted(t, ids)
  {
    var u := SqlStep(t, op).0;
    forall id | id in ids ensures (id in u <==> id in t) && (id in t ==> u[id] == t[id]) {
    }
  }

  lemma InsertApart(t: Table, u: Table, r: GrantRecord)
    requires r.grantId !in t
    ensures InsertIfAbsent(t + u, r) == t + InsertIfAbsent(u, r)
  {
  }

  lemma NothingComesBack(base: seq<Logged>, ids: set<Text>)
    ensures base + SavesOf([], ids) == base
    ensures Tables(base).0 + Restricted(Tables([]).0, ids) == Tables(base).0
  {
  }

  lemma SavesOfLast(base: seq<Logged>, before: seq<Logged>, last: Logged, ids: set<Text>)
    ensures base + SavesOf(before + [last], ids) ==
            if SavesIn(last, ids) then base + SavesOf(before, ids) + [last] else base + SavesOf(before, ids)
  {
    var log := before + [last];
    assert log[..|log| - 1] == before && log[|log| - 1] == last;
  }

  /** Run after anything that does not know `ids`, their saves bring them back as they were. */
  lemma {:induction false} SavesComeBack(base: seq<Logged>, log: seq<Logged>, ids: set<Text>)
    requires RepliesAreSerial(log) && Unmoved(Tables(log).0, ids)
    requires RepliesAreSerial(base) && Tables(base).0.Keys !! ids
    ensures Tables(base + SavesOf(log, ids)) == (Tables(base).0 + Restricted(Tables(log).0, ids), Tables(base).1)
    ensures RepliesAreSerial(base + SavesOf(log, ids))
  {
    if log == [] {
      NothingComesBack(base, ids);
    } else {
      var before, last := log[..|log| - 1], log[|log| - 1];
      LastSplit(log);
      TablesGrow(before, last);
      RepliesSplit(before, last);
      UnmovedBefore(Tables(before).0, last.op, ids);
      SavesComeBack(base, before, ids);
      SavesOfLast(base, before, last, ids);
      if SavesIn(last, ids) {
        OneSaveBack(base + SavesOf(before, ids), Tables(base).0, before, last, ids);
      } else {
        StepElsewhere(Tables(before).0, last.op, ids);
      }
    }
  }

  lemma OneSaveBack(sofar: seq<Logged>, t: Table, before: seq<Logged>, last: Logged, ids: set<Text>)
    requires SavesIn(last, ids) && t.Keys !! ids && RepliesAlone(Ops(before), last)
    requires RepliesAreSerial(sofar) && Tables(sofar).0 == t + Restricted(Tables(before).0, ids)
    ensures Tables(sofar + [last]) == (t + Restricted(Tables(before + [last]).0, ids), Tables(sofar).1)
    ensures RepliesAreSerial(sofar + [last])
  {
    TablesGrow(before, last);
    TablesGrow(sofar, last);
    RepliesGrow(sofar, last);
    SaveGoes(Tables(before).0, last.op.record, ids);
    InsertApart(t, Restricted(Tables(before).0, ids), last.op.record);
  }

  // ---- An order for every run ----

  /**
   Running the entries one at a time in this order gives the committed tables and all the replies. It
   is a permutation of the log, in which everything but the saves keeps its place among the others.
   */
  ghost predicate IsOrderOf(order: seq<Logged>, db: Database) {
    && Tables(order) == (db.grants, db.revocations) && RepliesAreSerial(order)
    && multiset(order) == multiset(db.log) && NotSaves(order) == NotSaves(db.log)
  }

  /** The grants that a sweep at its end has not seen. */
  function Overlooked(db: Database, k: nat): set<Text>
    requires k < |db.sweeps|
  {
    DueIds(db.grants, db.sweeps[k].now) - db.sweeps[k].marked
  }

  /** Without what it overlooked, the sweep is a whole sweep. */
  lemma SweepOfTheRest(t: Table, now: int, marked: set<Text>)
    requires marked <= DueIds(t, now)
    ensures var missed := DueIds(t, now) - marked;
            && DueIds(t - missed, now) == marked && Unmoved(t, missed)
            && Sweep(t - missed, now) + Restricted(t, missed) == MarkRows(t, marked)
            && Sweep(t - missed, now).Keys !! missed
  {
  }

  /** The order with the saves of what the sweep overlooked put after the sweep. */
  function SavedLater(order: seq<Logged>, sweep: Logged, missed: set<Text>): seq<Logged> {
    Rest(order, missed) + [sweep] + SavesOf(order, missed)
  }

  lemma SavedLaterIsSerial(order: seq<Logged>, t: Table, revs: map<Text, Text>, now: int, marked: set<Text>)
    requires Tables(order) == (t, revs) && RepliesAreSerial(order) && marked <= DueIds(t, now)
    ensures var missed, sweep := DueIds(t, now) - marked, Logged(MarkExpired(now), Marked(|marked|));
            Tables(SavedLater(order, sweep, missed)) == (MarkRows(t, marked), revs)
            && RepliesAreSerial(SavedLater(order, sweep, missed))
  {
    var missed, sweep := DueIds(t, now) - marked, Logged(MarkExpired(now), Marked(|marked|));
    SweepOfTheRest(t, now, marked);
    RestIsSerial(order, missed);
    TablesGrow(Rest(order, missed), sweep);
    RepliesGrow(Rest(order, missed), sweep);
    SavesComeBack(Rest(order, missed) + [sweep], order, missed);
  }

  lemma SavedLaterIsReordered(order: seq<Logged>, log: seq<Logged>, sweep: Logged, missed: set<Text>)
    requires multiset(order) == multiset(log) && NotSaves(order) == NotSaves(log) && !sweep.op.Save?
    ensures multiset(SavedLater(order, sweep, missed)) == multiset(log + [sweep])
    ensures NotSaves(SavedLater(order, sweep, missed)) == NotSaves(log + [sweep])
  {
    var rest, saves := Rest(order, missed), SavesOf(order, missed);
    SettingAside(order, missed);
    NotSavesOfBoth(rest + [sweep], saves);
    NotSavesOfBoth(rest, [sweep]);
    NotSavesOfBoth(log, [sweep]);
    SameEntries(rest, saves, log, sweep);
  }

  lemma SameEntries(rest: seq<Logged>, saves: seq<Logged>, log: seq<Logged>, sweep: Logged)
    requires multiset(rest) + multiset(saves) == multiset(log)
    ensures multiset(rest + [sweep] + saves) == multiset(log + [sweep])
  {
  }

  lemma EndOfSweepHasOrder(db: Database, k: nat, order: seq<Logged>) returns (next: seq<Logged>)
    requires LocksOk(db) && IsOrderOf(order, db) && Finishing(db, k)
    ensures IsOrderOf(next, CommitSweepStep(db, k))
  {
    var w := db.sweeps[k];
    assert HoldsItsRows(db, k);
    assert w.marked <= DueIds(db.grants, w.now);
    var sweep := Logged(MarkExpired(w.now), Marked(|w.marked|));
    next := SavedLater(order, sweep, Overlooked(db, k));
    SavedLaterIsSerial(order, db.grants, db.revocations, w.now, w.marked);
    SavedLaterIsReordered(order, db.log, sweep, Overlooked(db, k));
  }

  /** The database with this log instead of its own. */
  function WithLog(db: Database, log: seq<Logged>): Database {
    db.(log := log)
  }

  /** `next` is `step`, but for a log that starts with `order`. */
  predicate Appends(next: Database, order: seq<Logged>, step: Database) {
    next == WithLog(step, order + step.log)
  }

  lemma SelectAppends(db: Database, order: seq<Logged>, x: nat)
    ensures Appends(SelectStep(WithLog(db, order), x), order, SelectStep(WithLog(db, []), x))
  {
  }

  lemma CommitAppends(db: Database, order: seq<Logged>, x: nat)
    ensures Appends(CommitStep(WithLog(db, order), x), order, CommitStep(WithLog(db, []), x))
  {
  }

  lemma CommitSweepAppends(db: Database, order: seq<Logged>, k: nat)
    ensures Appends(CommitSweepStep(WithLog(db, order), k), order, CommitSweepStep(WithLog(db, []), k))
  {
  }

  lemma RollbackAppends(db: Database, order: seq<Logged>, x: nat)
    ensures Appends(RollbackStep(WithLog(db, order), x), order, RollbackStep(WithLog(db, []), x))
  {
  }

  lemma VisitAppends(db: Database, order: seq<Logged>, k: nat, id: Text)
    ensures Appends(VisitStep(WithLog(db, order), k, id), order, VisitStep(WithLog(db, []), k, id))
  {
  }

  lemma AbortSweepAppends(db: Database, order: seq<Logged>, k: nat)
    ensures Appends(AbortSweepStep(WithLog(db, order), k), order, AbortSweepStep(WithLog(db, []), k))
  {
  }

  lemma StageAppends(db: Database, order: seq<Logged>, x: nat, p: Phase, w: Write)
    requires x < |db.txns|
    ensures Appends(Stage(WithLog(db, order), x, p, w), order, Stage(WithLog(db, []), x, p, w))
  {
  }

  /** What a statement does and logs does not depend on the log. */
  lemma ExecuteAppends(db: Database, order: seq<Logged>, s: Statement)
    ensures Appends(Execute(WithLog(db, order), s), order, Execute(WithLog(db, []), s))
  {
    match s
    case Insert(r) =>
    case Begin(_, _) =>
    case SelectForUpdate(x) => SelectAppends(db, order, x);
    case UpdateRow(x) =>
      if InPhase(db, x, Locked) {
        StageAppends(db, order, x, RowUpdated, SetRevoked(db.txns[x].id));
      }
    case InsertRevocation(x) =>
      if InPhase(db, x, RowUpdated) {
        StageAppends(db, order, x, RevocationInserted, AddRevocation(db.txns[x].id, db.txns[x].reason));
      }
    case Commit(x) => CommitAppends(db, order, x);
    case Rollback(x) => RollbackAppends(db, order, x);
    case BeginSweep(_) =>
    case VisitRow(k, id) => VisitAppends(db, order, k, id);
    case CommitSweep(k) => CommitSweepAppends(db, order, k);
    case AbortSweep(k) => AbortSweepAppends(db, order, k);
  }

  lemma ExecuteOnlyAppends(db: Database, order: seq<Logged>, s: Statement) returns (more: seq<Logged>)
    ensures Execute(db, s).log == db.log + more
    ensures Execute(WithLog(db, order), s) == WithLog(Execute(db, s), order + more)
  {
    more := Execute(WithLog(db, []), s).log;
    ExecuteAppends(db, order, s);
    ExecuteAppends(db, db.log, s);
    assert WithLog(db, db.log) == db;
  }

  lemma AppendedIsOrder(db: Database, next: Database, order: seq<Logged>, more: seq<Logged>)
    requires multiset(order) == multiset(db.log) && NotSaves(order) == NotSaves(db.log)
    requires next.log == db.log + more && LogOk(WithLog(next, order + more))
    ensures IsOrderOf(order + more, next)
  {
    NotSavesOfBoth(order, more);
    NotSavesOfBoth(db.log, more);
  }

  lemma ExecuteHasOrder(db: Database, s: Statement, order: seq<Logged>) returns (next: seq<Logged>)
    requires LocksOk(db) && StagedOk(db) && IsOrderOf(order, db)
    ensures IsOrderOf(next, Execute(db, s))
  {
    if s.CommitSweep? && Finishing(db, s.sweep) {
      CommitSweepEnds(db, s.sweep);
      next := EndOfSweepHasOrder(db, s.sweep, order);
    } else {
      var more := ExecuteOnlyAppends(db, order, s);
      ExecuteKeepsLog(WithLog(db, order), s);
      AppendedIsOrder(db, Execute(db, s), order, more);
      next := order + more;
    }
  }

  /**
   Every interleaving of saves, revokes statement by statement and sweeps row by row, late saves and all,
   leaves the committed tables and gives the replies that its operations give one at a time in some
   order: that of the commits, but for the saves. Grants that a sweep overlooked are saved after it.
   */
  lemma {:induction false} EveryRunHasSerialOrder(statements: seq<Statement>) returns (order: seq<Logged>)
    requires forall i :: 0 <= i < |statements| ==> FromService(statements[i])
    ensures IsOrderOf(order, Ran(statements))
  {
    if statements == [] {
      order := [];
    } else {
      var n := |statements| - 1;
      order := EveryRunHasSerialOrder(statements[..n]);
      RanIsOk(statements[..n]);
      order := ExecuteHasOrder(Ran(statements[..n]), statements[n], order);
    }
  }

  lemma RanThree(a: Statement, b: Statement, c: Statement)
    ensures [a, b, c][..2] == [a, b]
    ensures Ran([a, b]) == Execute(Execute(EMPTY, a), b)
  {
    assert [a, b, c][..2] == [a, b];
    assert [a, b][..1] == [a] && [a][..0] == [];
    assert Ran([a]) == Execute(EMPTY, a);
  }

  /** The order of the commits is not such an order when a due grant is saved during a sweep. */
  lemma LateSaveBreaksCommitOrder(r: GrantRecord, now: int)
    requires Due(r, now)
    ensures var run := [BeginSweep(now), Insert(r), CommitSweep(0)];
            (forall i :: 0 <= i < |run| ==> FromService(run[i])) && !SerialThroughout(run)
  {
    var run := [BeginSweep(now), Insert(r), CommitSweep(0)];
    RanThree(run[0], run[1], run[2]);
    assert r.grantId in DueIds(Ran(run[..2]).grants, now);
    assert Overlooks(Ran(run[..2]), run[2]);
    ConcurrentRunsAreSerialExactly(run);
  }
}
