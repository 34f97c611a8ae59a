/** The accounts of the ledger balance in every concurrent history of the whole system. */
module Conservation {
  import opened Texts
  import opened Grants
  import opened GrantCheck
  import opened Ledger
  import opened Transactions
  import opened Marketplace

  /** The saves that took effect. */
  function SavesLogged(log: seq<Logged>): nat {
    if log == [] then 0 else SavesLogged(log[..|log| - 1]) + (if log[|log| - 1].op.Save? then 1 else 0)
  }

  /** The sum of the counts that the sweeps returned. */
  function MarkedTotal(log: seq<Logged>): nat {
    if log == [] then 0
    else MarkedTotal(log[..|log| - 1]) + (if log[|log| - 1].reply.Marked? then log[|log| - 1].reply.n else 0)
  }

  lemma LoggedOneMore(log: seq<Logged>, entry: Logged)
    ensures SavesLogged(log + [entry]) == SavesLogged(log) + if entry.op.Save? then 1 else 0
    ensures MarkedTotal(log + [entry]) == MarkedTotal(log) + if entry.reply.Marked? then entry.reply.n else 0
  {
    assert (log + [entry])[..|log|] == log;
  }

  /** The books of a database, given the grants that ever expired in it. */
  ghost predicate Books(db: Database, ever: set<Text>) {
    Balanced(db.grants, SavesLogged(db.log), MarkedTotal(db.log), ever)
  }

  /** The books after a step, with what is expired now counted as having expired. */
  ghost predicate BooksAfter(next: Database, ever: set<Text>) {
    Books(next, ever + WithStatus(next.grants, Status.Expired))
  }

  lemma SaveKeepsBooks(db: Database, r: GrantRecord, ever: set<Text>)
    requires Books(db, ever) && r.status == Issued && r.grantId !in db.grants
    ensures BooksAfter(Execute(db, Insert(r)), ever)
  {
    LoggedOneMore(db.log, Logged(Save(r), Saved));
    SaveBalances(db.grants, r, SavesLogged(db.log), MarkedTotal(db.log), ever);
  }

  lemma MarkingKeepsSize(t: Table, ids: set<Text>)
    ensures MarkRows(t, ids).Keys == t.Keys && |MarkRows(t, ids)| == |t|
  {
    var u := MarkRows(t, ids);
    assert u.Keys == t.Keys;
    assert |u| == |u.Keys| && |t| == |t.Keys|;
  }

  lemma DisjointSizes(a: set<Text>, b: set<Text>)
    requires a !! b
    ensures |a + b| == |a| + |b|
  {
  }

  lemma MarkingBalances(t: Table, ids: set<Text>, saves: nat, marked: nat, ever: set<Text>)
    requires Balanced(t, saves, marked, ever)
    requires forall id :: id in ids ==> id in t && t[id].status == Issued
    ensures Balanced(MarkRows(t, ids), saves, marked + |ids|, ever + WithStatus(MarkRows(t, ids), Status.Expired))
  {
    var u := MarkRows(t, ids);
    MarkingKeepsRevoked(t, ids);
    MarkingKeepsSize(t, ids);
    assert ever + WithStatus(u, Status.Expired) == ever + ids;
    DisjointSizes(ever, ids);
  }

  lemma SweepKeepsBooks(db: Database, k: nat, ever: set<Text>)
    requires Books(db, ever) && LocksOk(db) && Finishing(db, k)
    ensures BooksAfter(CommitSweepStep(db, k), ever)
  {
    var w := db.sweeps[k];
    assert HoldsItsRows(db, k);
    LoggedOneMore(db.log, Logged(MarkExpired(w.now), Marked(|w.marked|)));
    MarkingBalances(db.grants, w.marked, SavesLogged(db.log), MarkedTotal(db.log), ever);
  }

  lemma RevokeKeepsBooks(db: Database, x: nat, ever: set<Text>)
    requires Books(db, ever) && LocksOk(db) && StagedOk(db) && InPhase(db, x, RevocationInserted)
    ensures BooksAfter(CommitStep(db, x), ever)
  {
    var t := db.txns[x];
    CommitPublishes(db, x);
    LoggedOneMore(db.log, Logged(Revoke(t.id, t.reason), Outcome(RevokedNow)));
    RevokeBalances(db.grants, t.id, SavesLogged(db.log), MarkedTotal(db.log), ever);
  }

  /** A reply of a revoke at most was logged, and the table is as it was. */
  predicate Uncounted(db: Database, next: Database) {
    && next.grants == db.grants
    && (next.log == db.log
        || (|next.log| == |db.log| + 1 && next.log[..|db.log|] == db.log
            && next.log[|db.log|].op.Revoke? && next.log[|db.log|].reply.Outcome?))
  }

  lemma SelectIsUncounted(db: Database, x: nat)
    ensures Uncounted(db, SelectStep(db, x))
  {
  }

  lemma OthersAreUncounted(db: Database, s: Statement)
    requires !s.Insert?
    requires !(s.CommitSweep? && Finishing(db, s.sweep)) && !(s.Commit? && InPhase(db, s.txn, RevocationInserted))
    ensures Uncounted(db, Execute(db, s))
  {
    if s.SelectForUpdate? {
      SelectIsUncounted(db, s.txn);
    }
  }

  lemma UncountedKeepsBooks(db: Database, next: Database, ever: set<Text>)
    requires Books(db, ever) && Uncounted(db, next)
    ensures BooksAfter(next, ever)
  {
    assert ever + WithStatus(db.grants, Status.Expired) == ever;
    if next.log != db.log {
      var last := next.log[|db.log|];
      assert next.log == db.log + [last];
      LoggedOneMore(db.log, last);
    }
  }

  /** Statements other than saves, finished sweeps and completed revokes. */
  lemma OthersKeepBooks(db: Database, s: Statement, ever: set<Text>)
    requires Books(db, ever) && !s.Insert?
    requires !(s.CommitSweep? && Finishing(db, s.sweep)) && !(s.Commit? && InPhase(db, s.txn, RevocationInserted))
    ensures BooksAfter(Execute(db, s), ever)
  {
    OthersAreUncounted(db, s);
    UncountedKeepsBooks(db, Execute(db, s), ever);
  }

  lemma EndsAreSteps(db: Database, s: Statement)
    ensures s.CommitSweep? ==> Execute(db, s) == CommitSweepStep(db, s.sweep)
    ensures s.Commit? ==> Execute(db, s) == CommitStep(db, s.txn)
  {
  }

  lemma ExecuteKeepsBooks(db: Database, s: Statement, ever: set<Text>)
    requires Books(db, ever) && LocksOk(db) && StagedOk(db) && FromService(s)
    requires s.Insert? ==> s.record.grantId !in db.grants
    ensures BooksAfter(Execute(db, s), ever)
  {
    EndsAreSteps(db, s);
    if s.Insert? {
      SaveKeepsBooks(db, s.record, ever);
    } else if s.CommitSweep? && Finishing(db, s.sweep) {
      SweepKeepsBooks(db, s.sweep, ever);
    } else if s.Commit? && InPhase(db, s.txn, RevocationInserted) {
      RevokeKeepsBooks(db, s.txn, ever);
    } else {
      OthersKeepBooks(db, s, ever);
    }
  }

  // ---- Expired grants ----

  /** Some committed sweep had a clock past the grant's expiry. */
  predicate SweptInLog(log: seq<Logged>, r: GrantRecord) {
    exists i :: 0 <= i < |log| && log[i].op.MarkExpired? && r.expiresAt < log[i].op.now
  }

  predicate ExpiredWereSwept(t: Table, log: seq<Logged>) {
    forall id :: id in t && t[id].status == Status.Expired ==> SweptInLog(log, t[id])
  }

  /** Records that were expired before, under a log that goes on, need no other sweep. */
  lemma SweptStays(t: Table, log: seq<Logged>, u: Table, more: seq<Logged>)
    requires ExpiredWereSwept(t, log) && log <= more
    requires forall id :: id in u && u[id].status == Status.Expired ==>
               (id in t && u[id] == t[id]) || SweptInLog(more, u[id])
    ensures ExpiredWereSwept(u, more)
  {
    forall id | id in u && u[id].status == Status.Expired ensures SweptInLog(more, u[id]) {
      if id in t && u[id] == t[id] {
        var i :| 0 <= i < |log| && log[i].op.MarkExpired? && t[id].expiresAt < log[i].op.now;
        assert more[i] == log[i];
      }
    }
  }

  lemma EndOfSweepIsSwept(db: Database, k: nat)
    requires LocksOk(db) && Finishing(db, k) && ExpiredWereSwept(db.grants, db.log)
    ensures ExpiredWereSwept(CommitSweepStep(db, k).grants, CommitSweepStep(db, k).log)
  {
    var w, next := db.sweeps[k], CommitSweepStep(db, k);
    assert HoldsItsRows(db, k);
    assert next.log[|db.log|].op == MarkExpired(w.now);
    forall id | id in w.marked ensures SweptInLog(next.log, next.grants[id]) {
      assert next.grants[id].expiresAt < next.log[|db.log|].op.now;
    }
    SweptStays(db.grants, db.log, next.grants, next.log);
  }

  lemma CommitIsSwept(db: Database, x: nat)
    requires LocksOk(db) && StagedOk(db) && InPhase(db, x, RevocationInserted) && ExpiredWereSwept(db.grants, db.log)
    ensures ExpiredWereSwept(CommitStep(db, x).grants, CommitStep(db, x).log)
  {
    CommitPublishes(db, x);
    SweptStays(db.grants, db.log, CommitStep(db, x).grants, CommitStep(db, x).log);
  }

  lemma UncountedIsSwept(db: Database, next: Database)
    requires Uncounted(db, next) && ExpiredWereSwept(db.grants, db.log)
    ensures ExpiredWereSwept(next.grants, next.log)
  {
    SweptStays(db.grants, db.log, next.grants, next.log);
  }

  lemma ExecuteKeepsSwept(db: Database, s: Statement)
    requires LocksOk(db) && StagedOk(db) && FromService(s) && ExpiredWereSwept(db.grants, db.log)
    ensures ExpiredWereSwept(Execute(db, s).grants, Execute(db, s).log)
  {
    EndsAreSteps(db, s);
    if s.Insert? {
      SweptStays(db.grants, db.log, Execute(db, s).grants, Execute(db, s).log);
    } else if s.CommitSweep? && Finishing(db, s.sweep) {
      EndOfSweepIsSwept(db, s.sweep);
    } else if s.Commit? && InPhase(db, s.txn, RevocationInserted) {
      CommitIsSwept(db, s.txn);
    } else {
      OthersAreUncounted(db, s);
      UncountedIsSwept(db, Execute(db, s));
    }
  }

  lemma HappenKeepsSwept(am: Issuer, w: World, e: Event)
    requires LocksOk(w.db) && StagedOk(w.db) && ExpiredWereSwept(w.db.grants, w.db.log)
    ensures ExpiredWereSwept(Happen(am, w, e).db.grants, Happen(am, w, e).db.log)
  {
    if e.SaveGrant? && e.grant in w.unsaved {
      ExecuteKeepsSwept(w.db, Insert(RecordFor(e.grant)));
    } else if e.LedgerStatement? && !e.statement.Insert? {
      ExecuteKeepsSwept(w.db, e.statement);
    }
  }

  /** In every concurrent history a grant is expired only if a sweep was committed with a clock past its expiry. */
  lemma {:induction false} ExpiredOnlyAfterExpiry(am: Issuer, events: seq<Event>, id: Text)
    requires forall i :: 0 <= i < |events| ==> Trusting(am, events[i])
    requires var t := History(am, events).db.grants; id in t && t[id].status == Status.Expired
    ensures var db := History(am, events).db;
            exists i :: 0 <= i < |db.log| && db.log[i].op.MarkExpired? && db.grants[id].expiresAt < db.log[i].op.now
  {
    HistoryIsSwept(am, events);
    assert SweptInLog(History(am, events).db.log, History(am, events).db.grants[id]);
  }

  lemma {:induction false} HistoryIsSwept(am: Issuer, events: seq<Event>)
    requires forall i :: 0 <= i < |events| ==> Trusting(am, events[i])
    ensures ExpiredWereSwept(History(am, events).db.grants, History(am, events).db.log)
  {
    if events != [] {
      var n := |events| - 1;
      HistoryIsSwept(am, events[..n]);
      HistoryIsOk(am, events[..n]);
      HappenKeepsSwept(am, History(am, events[..n]), events[n]);
    }
  }

  // ---- Fresh ids ----

  lemma ExecuteKeys(db: Database, s: Statement)
    ensures Execute(db, s).grants.Keys == db.grants.Keys + (if s.Insert? then {s.record.grantId} else {})
  {
    if s.CommitSweep? {
      SweepKeepsKeys(db, s.sweep);
    } else if s.SelectForUpdate? {
      SelectIsUncounted(db, s.txn);
    } else if !s.Insert? && !s.Commit? {
      OthersAreUncounted(db, s);
    }
  }

  lemma SweepKeepsKeys(db: Database, k: nat)
    ensures CommitSweepStep(db, k).grants.Keys == db.grants.Keys
  {
  }

  /** Grants not saved yet are under ids of their own, and every saved one was issued. */
  ghost predicate IdsOk(w: World) {
    && (forall g :: g in w.unsaved ==> g.claims in w.issued && g.claims.grantId !in w.db.grants)
    && (forall g, h :: g in w.unsaved && h in w.unsaved && g.claims.grantId == h.claims.grantId ==> g == h)
    && (forall id :: id in w.db.grants ==> !FreshId(w.issued, id))
  }

  lemma HappenKeepsIds(am: Issuer, w: World, e: Event)
    requires IdsOk(w)
    ensures IdsOk(Happen(am, w, e))
  {
    match e
    case SaveGrant(g) =>
      if g in w.unsaved {
        SavingKeepsIds(w, g);
      }
    case LedgerStatement(s) =>
      ExecuteKeys(w.db, s);
    case SignGrant(request, grantId, nonce, nowSeconds, signature) =>
      SigningKeepsIds(am, w, ClaimsFor(am, request, grantId, nonce, nowSeconds), signature);
    case _ =>
  }

  lemma SavingKeepsIds(w: World, g: SignedGrant)
    requires IdsOk(w) && g in w.unsaved
    ensures IdsOk(w.(db := Execute(w.db, Insert(RecordFor(g))), unsaved := w.unsaved - {g}))
  {
    ExecuteKeys(w.db, Insert(RecordFor(g)));
  }

  lemma SigningKeepsIds(am: Issuer, w: World, c: Claims, signature: Text)
    requires IdsOk(w)
    ensures IdsOk(SignGrantStep(am, w, c, signature))
  {
    var v := SignGrantStep(am, w, c, signature);
    forall id | id in v.db.grants ensures !FreshId(v.issued, id) {
      assert !FreshId(w.issued, id);
    }
  }

  // ---- Main result ----

  /** The grants that were in status EXPIRED at some point of the history. */
  function EverExpiredIn(am: Issuer, events: seq<Event>): set<Text> {
    if events == [] then {}
    else EverExpiredIn(am, events[..|events| - 1]) + WithStatus(History(am, events).db.grants, Status.Expired)
  }

  lemma HappenKeepsBooks(am: Issuer, w: World, e: Event, ever: set<Text>)
    requires Books(w.db, ever) && LocksOk(w.db) && StagedOk(w.db) && IdsOk(w)
    ensures BooksAfter(Happen(am, w, e).db, ever)
  {
    if e.SaveGrant? && e.grant in w.unsaved {
      ExecuteKeepsBooks(w.db, Insert(RecordFor(e.grant)), ever);
    } else if e.LedgerStatement? && !e.statement.Insert? {
      ExecuteKeepsBooks(w.db, e.statement, ever);
    } else {
      BooksStand(am, w, e, ever);
    }
  }

  lemma BooksStand(am: Issuer, w: World, e: Event, ever: set<Text>)
    requires Books(w.db, ever) && Happen(am, w, e).db == w.db
    ensures BooksAfter(w.db, ever)
  {
    assert ever + WithStatus(w.db.grants, Status.Expired) == ever;
  }

  lemma {:induction false} HistoryKeepsBooks(am: Issuer, events: seq<Event>)
    requires forall i :: 0 <= i < |events| ==> Trusting(am, events[i])
    ensures IdsOk(History(am, events)) && Books(History(am, events).db, EverExpiredIn(am, events))
  {
    if events != [] {
      var n := |events| - 1;
      HistoryKeepsBooks(am, events[..n]);
      HistoryIsOk(am, events[..n]);
      HappenKeepsIds(am, History(am, events[..n]), events[n]);
      HappenKeepsBooks(am, History(am, events[..n]), events[n], EverExpiredIn(am, events[..n]));
    }
  }

  /**
   Conservation in every concurrent history: issued, expired and revoked grants together are the
   grants saved, the counts the sweeps returned add up to the grants that ever expired, each counted
   once, and a grant is revoked exactly when the providers' table says so.
   */
  lemma ConcurrentLedgerConserves(am: Issuer, events: seq<Event>)
    requires forall i :: 0 <= i < |events| ==> Trusting(am, events[i])
    ensures var db := History(am, events).db;
            var ever := EverExpiredIn(am, events);
            && |WithStatus(db.grants, Issued)| + |WithStatus(db.grants, Status.Expired)| + |WithStatus(db.grants, Revoked)|
                 == SavesLogged(db.log)
            && MarkedTotal(db.log) == |ever|
            && WithStatus(db.grants, Status.Expired) <= ever
                 <= WithStatus(db.grants, Status.Expired) + WithStatus(db.grants, Revoked)
            && WithStatus(db.grants, Revoked) == db.revocations.Keys
  {
    HistoryIsOk(am, events);
    HistoryKeepsBooks(am, events);
    StatusesPartition(History(am, events).db.grants);
  }
}
