/** The Access Manager's ledger: its records, what each operation does to them, and both stores. */
module Ledger {
  import opened Texts
  import opened Grants
  import Sorting

  datatype Status = Issued | Revoked | Expired

  datatype GrantRecord = GrantRecord(
    grantId: Text, granteeId: Text, bppId: Text, resourceId: Text, offerId: Text, scope: Scope,
    licenseClass: LicenseClass, purpose: Text, transactionId: Text, issuedAt: int, expiresAt: int,
    status: Status, signedGrant: SignedGrant)

  datatype RevokeOutcome = RevokedNow | NotFound | AlreadyRevoked

  type Table = map<Text, GrantRecord>

  /** The record the service saves for a grant it has just signed. */
  function RecordFor(g: SignedGrant): GrantRecord {
    var c := g.claims;
    GrantRecord(c.grantId, c.grantee.id, c.provider.bppId, c.resource.resourceId, c.resource.offerId, c.scope,
                c.licenseClass, c.purpose, c.transactionId, c.issuedAt, c.expiresAt, Issued, g)
  }

  // ---- What the operations do to the table of grants ----

  /** `Map.set` */
  function Put(t: Table, r: GrantRecord): Table {
    t[r.grantId := r]
  }

  /** `INSERT ... ON CONFLICT (grant_id) DO NOTHING` */
  function InsertIfAbsent(t: Table, r: GrantRecord): Table {
    if r.grantId in t then t else t[r.grantId := r]
  }

  function RevokeReply(t: Table, id: Text): RevokeOutcome {
    if id !in t then NotFound else if t[id].status == Revoked then AlreadyRevoked else RevokedNow
  }

  function RevokeRow(t: Table, id: Text): Table {
    if RevokeReply(t, id) == RevokedNow then t[id := t[id].(status := Revoked)] else t
  }

  /** An issued grant past its expiry. */
  predicate Due(r: GrantRecord, now: int) {
    r.status == Issued && r.expiresAt < now
  }

  function DueIds(t: Table, now: int): set<Text> {
    set id | id in t && Due(t[id], now)
  }

  function Sweep(t: Table, now: int): Table {
    map id | id in t :: if Due(t[id], now) then t[id].(status := Expired) else t[id]
  }

  /** Every record is filed under its own id. */
  predicate Keyed(t: Table) {
    forall id :: id in t ==> t[id].grantId == id
  }

  /**
   What a sweep at `now` does to the table: the issued grants whose expiry is before `now` become
   expired, `n` of them; every other record stays, and no issued grant with such an expiry is left.
   */
  ghost predicate ExpiresPast(before: Table, after: Table, now: int, n: nat) {
    && after.Keys == before.Keys
    && (forall id :: id in before ==>
          after[id] == if before[id].status == Issued && before[id].expiresAt < now
                       then before[id].(status := Expired) else before[id])
    && (forall id :: id in after && after[id].status == Issued ==> after[id].expiresAt >= now)
    && n == |set id | id in before && after[id] != before[id]|
  }

  lemma SweepExpiresPast(t: Table, now: int)
    ensures ExpiresPast(t, Sweep(t, now), now, |DueIds(t, now)|)
  {
    var u := Sweep(t, now);
    assert DueIds(t, now) == set id | id in t && u[id] != t[id];
  }

  // ---- Listings ----

  predicate NewerFirst(a: GrantRecord, b: GrantRecord) {
    a.issuedAt > b.issuedAt
  }

  predicate NoRepeats(rs: seq<GrantRecord>) {
    forall i, j :: 0 <= i < j < |rs| ==> rs[i].grantId != rs[j].grantId
  }

  /** The grantee's records, each once, newest first; the order among equal times is left open. */
  ghost predicate IsListing(t: Table, grantee: Text, rs: seq<GrantRecord>) {
    && (forall r :: r in rs <==> r.grantId in t && t[r.grantId] == r && r.granteeId == grantee)
    && NoRepeats(rs)
    && Sorting.Sorted(NewerFirst, rs)
  }

  /** Newest first. */
  predicate NewestFirst(rs: seq<GrantRecord>) {
    forall i, j :: 0 <= i < j < |rs| ==> rs[i].issuedAt >= rs[j].issuedAt
  }

  lemma ListingIsNewestFirst(t: Table, grantee: Text, rs: seq<GrantRecord>)
    requires IsListing(t, grantee, rs)
    ensures NewestFirst(rs)
  {
    forall i, j | 0 <= i < j < |rs| ensures rs[i].issuedAt >= rs[j].issuedAt {
      assert !NewerFirst(rs[j], rs[i]);
    }
  }

  lemma SortIsListing(t: Table, grantee: Text, rs: seq<GrantRecord>)
    requires forall r :: r in rs <==> r.grantId in t && t[r.grantId] == r && r.granteeId == grantee
    requires NoRepeats(rs)
    ensures IsListing(t, grantee, Sorting.Sort(NewerFirst, rs))
  {
    Sorting.SortSorts(NewerFirst, rs);
    Sorting.SortKeepsElements(NewerFirst, rs);
    Sorting.SameMembers(Sorting.Sort(NewerFirst, rs), rs);
    PermutationNoRepeats(rs, Sorting.Sort(NewerFirst, rs));
  }

  lemma {:induction false} NoRepeatsMultiplicity(rs: seq<GrantRecord>)
    requires NoRepeats(rs)
    ensures forall r :: multiset(rs)[r] <= 1
  {
    if rs != [] {
      NoRepeatsMultiplicity(rs[1..]);
      assert rs == [rs[0]] + rs[1..];
      assert rs[0] !in rs[1..];
      assert multiset(rs) == multiset{rs[0]} + multiset(rs[1..]);
    }
  }

  lemma TwiceInSequence(ss: seq<GrantRecord>, i: nat, j: nat)
    requires i < j < |ss| && ss[i] == ss[j]
    ensures multiset(ss)[ss[i]] >= 2
  {
    var a, b := ss[..j], ss[j..];
    assert ss == a + b;
    assert a[i] == ss[i] && b[0] == ss[i];
    assert ss[i] in multiset(a) && ss[i] in multiset(b);
  }

  lemma PermutationNoRepeats(rs: seq<GrantRecord>, ss: seq<GrantRecord>)
    requires NoRepeats(rs) && multiset(rs) == multiset(ss)
    ensures NoRepeats(ss)
  {
    NoRepeatsMultiplicity(rs);
    Sorting.SameMembers(rs, ss);
    forall i, j | 0 <= i < j < |ss| ensures ss[i].grantId != ss[j].grantId {
      assert ss[i] in rs && ss[j] in rs;
      if ss[i] == ss[j] {
        TwiceInSequence(ss, i, j);
      }
    }
  }

  lemma SameElements(rs: seq<GrantRecord>, ss: seq<GrantRecord>)
    requires NoRepeats(rs) && NoRepeats(ss) && forall r :: r in rs <==> r in ss
    ensures multiset(rs) == multiset(ss)
  {
    NoRepeatsMultiplicity(rs);
    NoRepeatsMultiplicity(ss);
    forall r ensures multiset(rs)[r] == multiset(ss)[r] {
      assert r in rs <==> r in multiset(rs);
      assert r in ss <==> r in multiset(ss);
    }
  }

  /** Any two listings of one table agree but for the order of records issued at the same second. */
  lemma ListingsAgree(t: Table, grantee: Text, rs: seq<GrantRecord>, ss: seq<GrantRecord>)
    requires IsListing(t, grantee, rs) && IsListing(t, grantee, ss)
    ensures SameButForTies(rs, ss)
  {
    SameElements(rs, ss);
    Sorting.SortedPermutationsAgree(NewerFirst, rs, ss);
  }

  // ---- The in-memory store ----

  /** Records are kept by value: the program copies them on the way in and on the way out. */
  class InMemoryGrantStore {
    var order: seq<Text>
    var grants: Table

    /** `order` is the insertion order that a JavaScript Map keeps. */
    ghost predicate Valid()
      reads this
    {
      && Keyed(grants)
      && (forall i, j :: 0 <= i < j < |order| ==> order[i] != order[j])
      && (forall id :: id in order <==> id in grants)
    }

    constructor ()
      ensures Valid() && grants == map[]
    {
      order := [];
      grants := map[];
    }

    method Save(r: GrantRecord)
      requires Valid()
      modifies this
      ensures Valid() && grants == Put(old(grants), r)
    {
      if r.grantId !in grants {
        order := order + [r.grantId];
      }
      grants := grants[r.grantId := r];
    }

    method Get(id: Text) returns (r: Option<GrantRecord>)
      requires Valid()
      ensures r == GetReply(grants, id)
    {
      r := if id in grants then Some(grants[id]) else None;
    }

    method ListByGrantee(grantee: Text) returns (rs: seq<GrantRecord>)
      requires Valid()
      ensures IsListing(grants, grantee, rs)
      ensures forall i, j :: 0 <= i < j < |rs| ==> rs[i].issuedAt >= rs[j].issuedAt
    {
      var mine: seq<GrantRecord> := [];
      for i := 0 to |order|
        invariant forall r :: r in mine <==> r.grantId in order[..i] && grants[r.grantId] == r && r.granteeId == grantee
        invariant NoRepeats(mine)
      {
        assert order[..i + 1] == order[..i] + [order[i]];
        assert order[i] !in order[..i];
        if grants[order[i]].granteeId == grantee {
          mine := mine + [grants[order[i]]];
        }
      }
      assert order[..|order|] == order;
      SortIsListing(grants, grantee, mine);
      rs := Sorting.Sort(NewerFirst, mine);
      ListingIsNewestFirst(grants, grantee, rs);
    }

    method Revoke(id: Text) returns (outcome: RevokeOutcome)
      requires Valid()
      modifies this
      ensures Valid() && outcome == RevokeReply(old(grants), id) && grants == RevokeRow(old(grants), id)
      ensures outcome == NotFound <==> id !in old(grants)
      ensures outcome == AlreadyRevoked <==> id in old(grants) && old(grants)[id].status == Revoked
      ensures grants == if outcome == RevokedNow then old(grants)[id := old(grants)[id].(status := Revoked)] else old(grants)
    {
      if id !in grants {
        return NotFound;
      }
      if grants[id].status == Revoked {
        return AlreadyRevoked;
      }
      grants := grants[id := grants[id].(status := Revoked)];
      outcome := RevokedNow;
    }

    /** Marks due grants expired, one record at a time, counting them. */
    method MarkExpired(now: int) returns (n: nat)
      requires Valid()
      modifies this
      ensures Valid() && grants == Sweep(old(grants), now) && n == |DueIds(old(grants), now)|
      ensures ExpiresPast(old(grants), grants, now, n)
    {
      n := 0;
      ghost var before := grants;
      for i := 0 to |order|
        invariant order == old(order)
        invariant SweptFrom(grants, n, now, order[i..]) == SweptFrom(before, 0, now, order)
      {
        var id := order[i];
        assert order[i..][1..] == order[i + 1..];
        if id in grants && grants[id].status == Issued && grants[id].expiresAt < now {
          grants := grants[id := grants[id].(status := Expired)];
          n := n + 1;
        }
      }
      SweepingInOrderSweeps(before, now, order);
      SweepExpiresPast(before, now);
    }
  }

  /** The table and the count once the records in `ids` have been visited in turn. */
  function SweptFrom(t: Table, n: nat, now: int, ids: seq<Text>): (Table, nat)
    decreases |ids|
  {
    if ids == [] then (t, n)
    else
      var next := MarkIfDue(t, n, now, ids[0]);
      SweptFrom(next.0, next.1, now, ids[1..])
  }

  function MarkIfDue(t: Table, n: nat, now: int, id: Text): (Table, nat) {
    if id in t && Due(t[id], now) then (t[id := t[id].(status := Expired)], n + 1) else (t, n)
  }

  lemma MarkOneMore(t: Table, now: int, seen: set<Text>, id: Text)
    requires id in t && id !in seen
    ensures MarkIfDue(SweepSome(t, now, seen), |DueIds(t, now) * seen|, now, id) ==
            (SweepSome(t, now, seen + {id}), |DueIds(t, now) * (seen + {id})|)
  {
    SweepOneMore(t, now, seen, id);
  }

  lemma SweptFirst(t: Table, n: nat, now: int, ids: seq<Text>)
    requires ids != []
    ensures var next := MarkIfDue(t, n, now, ids[0]); SweptFrom(t, n, now, ids) == SweptFrom(next.0, next.1, now, ids[1..])
  {
  }

  lemma RestUnseen(t: Table, seen: set<Text>, ids: seq<Text>)
    requires ids != [] && forall i, j :: 0 <= i < j < |ids| ==> ids[i] != ids[j]
    requires forall i :: 0 <= i < |ids| ==> ids[i] in t && ids[i] !in seen
    requires forall id :: id in t ==> id in seen || id in ids
    ensures var rest := ids[1..];
            && (forall i :: 0 <= i < |rest| ==> rest[i] in t && rest[i] !in seen + {ids[0]})
            && (forall id :: id in t ==> id in seen + {ids[0]} || id in rest)
  {
    assert ids == [ids[0]] + ids[1..];
  }

  lemma AllSwept(t: Table, now: int, seen: set<Text>)
    requires forall id :: id in t ==> id in seen
    ensures SweepSome(t, now, seen) == Sweep(t, now) && DueIds(t, now) * seen == DueIds(t, now)
  {
  }

  lemma {:induction false} SweepingOnSweeps(t: Table, now: int, seen: set<Text>, ids: seq<Text>)
    requires forall i, j :: 0 <= i < j < |ids| ==> ids[i] != ids[j]
    requires forall i :: 0 <= i < |ids| ==> ids[i] in t && ids[i] !in seen
    requires forall id :: id in t ==> id in seen || id in ids
    ensures SweptFrom(SweepSome(t, now, seen), |DueIds(t, now) * seen|, now, ids) == (Sweep(t, now), |DueIds(t, now)|)
    decreases |ids|
  {
    if ids == [] {
      AllSwept(t, now, seen);
    } else {
      MarkOneMore(t, now, seen, ids[0]);
      RestUnseen(t, seen, ids);
      SweptFirst(SweepSome(t, now, seen), |DueIds(t, now) * seen|, now, ids);
      SweepingOnSweeps(t, now, seen + {ids[0]}, ids[1..]);
    }
  }

  /** Visiting every record once, in any order, is the sweep. */
  lemma SweepingInOrderSweeps(t: Table, now: int, ids: seq<Text>)
    requires forall i, j :: 0 <= i < j < |ids| ==> ids[i] != ids[j]
    requires forall id :: id in ids <==> id in t
    ensures SweptFrom(t, 0, now, ids) == (Sweep(t, now), |DueIds(t, now)|)
  {
    assert SweepSome(t, now, {}) == t;
    assert DueIds(t, now) * {} == {};
    SweepingOnSweeps(t, now, {}, ids);
  }

  /** The table when only the records in `seen` have been swept. */
  function SweepSome(t: Table, now: int, seen: set<Text>): Table {
    map id | id in t :: if id in seen && Due(t[id], now) then t[id].(status := Expired) else t[id]
  }

  lemma SweepOneMore(t: Table, now: int, seen: set<Text>, id: Text)
    requires id in t && id !in seen
    ensures SweepSome(t, now, seen)[id] == t[id]
    ensures SweepSome(t, now, seen + {id}) ==
            if Due(t[id], now) then SweepSome(t, now, seen)[id := t[id].(status := Expired)]
            else SweepSome(t, now, seen)
    ensures |DueIds(t, now) * (seen + {id})| == |DueIds(t, now) * seen| + if Due(t[id], now) then 1 else 0
  {
    var due := DueIds(t, now);
    if Due(t[id], now) {
      assert due * (seen + {id}) == due * seen + {id};
    } else {
      assert due * (seen + {id}) == due * seen;
    }
  }

  // ---- The SQL store, one call at a time ----

  class PostgresGrantStore {
    var grants: Table
    /** `grant_revocations`, the table the BPPs read: grant id to reason. */
    var revocations: map<Text, Text>

    ghost predicate Valid()
      reads this
    {
      Keyed(grants)
    }

    constructor ()
      ensures Valid() && grants == map[] && revocations == map[]
    {
      grants := map[];
      revocations := map[];
    }

    method Save(r: GrantRecord)
      requires Valid()
      modifies this
      ensures Valid() && grants == InsertIfAbsent(old(grants), r) && revocations == old(revocations)
    {
      if r.grantId !in grants {
        grants := grants[r.grantId := r];
      }
    }

    method Get(id: Text) returns (r: Option<GrantRecord>)
      requires Valid()
      ensures r == GetReply(grants, id)
    {
      r := if id in grants then Some(grants[id]) else None;
    }

    /** `ORDER BY issued_at DESC`: rows come in any order and ties stay in any order. */
    method ListByGrantee(grantee: Text) returns (rs: seq<GrantRecord>)
      requires Valid()
      ensures IsListing(grants, grantee, rs)
      ensures forall i, j :: 0 <= i < j < |rs| ==> rs[i].issuedAt >= rs[j].issuedAt
    {
      var rows: seq<GrantRecord> := [];
      var unvisited := grants.Keys;
      while unvisited != {}
        invariant unvisited <= grants.Keys
        invariant forall r :: r in rows <==>
          r.grantId in grants.Keys - unvisited && grants[r.grantId] == r && r.granteeId == grantee
        invariant NoRepeats(rows)
        decreases unvisited
      {
        var id :| id in unvisited;
        unvisited := unvisited - {id};
        if grants[id].granteeId == grantee {
          rows := rows + [grants[id]];
        }
      }
      SortIsListing(grants, grantee, rows);
      rs := Sorting.Sort(NewerFirst, rows);
      ListingIsNewestFirst(grants, grantee, rs);
    }

    /** The committed effect of the two-table transaction. */
    method Revoke(id: Text, reason: Text) returns (outcome: RevokeOutcome)
      requires Valid()
      modifies this
      ensures Valid() && outcome == RevokeReply(old(grants), id) && grants == RevokeRow(old(grants), id)
      ensures outcome == NotFound <==> id !in old(grants)
      ensures outcome == AlreadyRevoked <==> id in old(grants) && old(grants)[id].status == Revoked
      ensures grants == if outcome == RevokedNow then old(grants)[id := old(grants)[id].(status := Revoked)] else old(grants)
      ensures revocations == RevocationsAfter(old(revocations), old(grants), id, reason)
      ensures revocations ==
              if outcome == RevokedNow && id !in old(revocations) then old(revocations)[id := reason] else old(revocations)
    {
      if id !in grants {
        return NotFound;
      }
      if grants[id].status == Revoked {
        return AlreadyRevoked;
      }
      grants := grants[id := grants[id].(status := Revoked)];
      if id !in revocations {
        revocations := revocations[id := reason];
      }
      outcome := RevokedNow;
    }

    method MarkExpired(now: int) returns (n: nat)
      requires Valid()
      modifies this
      ensures Valid() && grants == Sweep(old(grants), now) && n == |DueIds(old(grants), now)|
      ensures ExpiresPast(old(grants), grants, now, n)
      ensures revocations == old(revocations)
    {
      var due := set id | id in grants && grants[id].status == Issued && grants[id].expiresAt < now;
      var updated := map id | id in grants ::
        if grants[id].status == Issued && grants[id].expiresAt < now
        then grants[id].(status := Expired) else grants[id];
      SweepExpiresPast(grants, now);
      UpdateIsSweep(grants, now, due, updated);
      n := |due|;
      grants := updated;
    }
  }

  lemma UpdateIsSweep(t: Table, now: int, due: set<Text>, updated: Table)
    requires due == set id | id in t && t[id].status == Issued && t[id].expiresAt < now
    requires updated == map id | id in t ::
               if t[id].status == Issued && t[id].expiresAt < now then t[id].(status := Expired) else t[id]
    ensures due == DueIds(t, now) && updated == Sweep(t, now)
    ensures Keyed(t) ==> Keyed(updated)
  {
  }

  /** The insert into the revocation table, made only by a revoke that changes the status. */
  function RevocationsAfter(revs: map<Text, Text>, t: Table, id: Text, reason: Text): map<Text, Text> {
    if RevokeReply(t, id) == RevokedNow && id !in revs then revs[id := reason] else revs
  }

  // ---- Runs ----

  datatype Op = Save(record: GrantRecord) | Revoke(id: Text, reason: Text) | MarkExpired(now: int)

  datatype Reply = Saved | Outcome(outcome: RevokeOutcome) | Marked(n: nat)

  function MemoryStep(t: Table, op: Op): (Table, Reply) {
    match op
    case Save(r) => (Put(t, r), Saved)
    case Revoke(id, _) => (RevokeRow(t, id), Outcome(RevokeReply(t, id)))
    case MarkExpired(now) => (Sweep(t, now), Marked(|DueIds(t, now)|))
  }

  function SqlStep(t: Table, op: Op): (Table, Reply) {
    match op
    case Save(r) => (InsertIfAbsent(t, r), Saved)
    case Revoke(id, _) => (RevokeRow(t, id), Outcome(RevokeReply(t, id)))
    case MarkExpired(now) => (Sweep(t, now), Marked(|DueIds(t, now)|))
  }

  function MemoryRun(ops: seq<Op>): Table {
    if ops == [] then map[] else MemoryStep(MemoryRun(ops[..|ops| - 1]), ops[|ops| - 1]).0
  }

  function SqlRun(ops: seq<Op>): Table {
    if ops == [] then map[] else SqlStep(SqlRun(ops[..|ops| - 1]), ops[|ops| - 1]).0
  }

  /** No save writes over a different record. */
  predicate SavesFresh(ops: seq<Op>) {
    forall i :: 0 <= i < |ops| && ops[i].Save? ==>
      var t := MemoryRun(ops[..i]);
      ops[i].record.grantId !in t || t[ops[i].record.grantId] == ops[i].record
  }

  lemma PrefixSavesFresh(ops: seq<Op>, n: nat)
    requires n <= |ops| && SavesFresh(ops)
    ensures SavesFresh(ops[..n])
  {
    forall i | 0 <= i < n ensures ops[..n][..i] == ops[..i] && ops[..n][i] == ops[i] {
    }
  }

  lemma {:induction false} StoresAgreeWhenFresh(ops: seq<Op>)
    requires SavesFresh(ops)
    ensures SqlRun(ops) == MemoryRun(ops)
  {
    if ops != [] {
      var n := |ops| - 1;
      PrefixSavesFresh(ops, n);
      StoresAgreeWhenFresh(ops[..n]);
    }
  }

  function GetReply(t: Table, id: Text): Option<GrantRecord> {
    if id in t then Some(t[id]) else None
  }

  /** Two lists with the same records and the same times position by position. */
  predicate SameButForTies(rs: seq<GrantRecord>, ss: seq<GrantRecord>) {
    multiset(rs) == multiset(ss) && |rs| == |ss| && forall i :: 0 <= i < |rs| ==> rs[i].issuedAt == ss[i].issuedAt
  }

  /** Nobody can tell the tables apart by asking: not with get, and not with list but for ties. */
  ghost predicate AskAlike(t: Table, u: Table) {
    && (forall id: Text :: GetReply(t, id) == GetReply(u, id))
    && (forall grantee, rs, ss :: IsListing(t, grantee, rs) && IsListing(u, grantee, ss) ==> SameButForTies(rs, ss))
  }

  /** At every point of the run both stores answer every question alike, and the next operation too. */
  ghost predicate StoresAgree(ops: seq<Op>) {
    forall n :: 0 <= n <= |ops| ==>
      && AskAlike(MemoryRun(ops[..n]), SqlRun(ops[..n]))
      && (n < |ops| ==> SqlStep(SqlRun(ops[..n]), ops[n]).1 == MemoryStep(MemoryRun(ops[..n]), ops[n]).1)
  }

  lemma SameTableAsksAlike(t: Table)
    ensures AskAlike(t, t)
  {
    forall grantee, rs, ss | IsListing(t, grantee, rs) && IsListing(t, grantee, ss) ensures SameButForTies(rs, ss) {
      ListingsAgree(t, grantee, rs, ss);
    }
  }

  /** A save that overwrites a different record is seen by the next get. */
  lemma OverwriteIsSeen(ops: seq<Op>, i: nat)
    requires i < |ops| && ops[i].Save? && StoresAgree(ops)
    ensures var t := MemoryRun(ops[..i]);
            ops[i].record.grantId !in t || t[ops[i].record.grantId] == ops[i].record
  {
    var r, next := ops[i].record, ops[..i + 1];
    var t, u := MemoryRun(ops[..i]), SqlRun(ops[..i]);
    assert next[..i] == ops[..i];
    assert AskAlike(t, u) && AskAlike(MemoryRun(next), SqlRun(next));
    assert GetReply(t, r.grantId) == GetReply(u, r.grantId);
    assert GetReply(MemoryRun(next), r.grantId) == GetReply(SqlRun(next), r.grantId);
  }

  /**
   The two stores are interchangeable on a run, for get, list (but for the order of ties), revoke and
   sweep, exactly when no save writes over a different record: there the Map overwrites and the
   table keeps the first row.
   */
  lemma StoresAgreeExactly(ops: seq<Op>)
    ensures StoresAgree(ops) <==> SavesFresh(ops)
  {
    if SavesFresh(ops) {
      forall n | 0 <= n <= |ops|
        ensures SqlRun(ops[..n]) == MemoryRun(ops[..n]) && AskAlike(MemoryRun(ops[..n]), SqlRun(ops[..n]))
      {
        PrefixSavesFresh(ops, n);
        StoresAgreeWhenFresh(ops[..n]);
        SameTableAsksAlike(MemoryRun(ops[..n]));
      }
    }
    if StoresAgree(ops) {
      forall i | 0 <= i < |ops| && ops[i].Save?
        ensures var t := MemoryRun(ops[..i]);
                ops[i].record.grantId !in t || t[ops[i].record.grantId] == ops[i].record
      {
        OverwriteIsSeen(ops, i);
      }
    }
  }

  // ---- Conservation ----

  /** A run of the service: records are saved as issued, under ids never used before. */
  predicate ServiceRun(ops: seq<Op>) {
    forall i :: 0 <= i < |ops| && ops[i].Save? ==>
      ops[i].record.status == Issued && ops[i].record.grantId !in MemoryRun(ops[..i])
  }

  function SavesIn(ops: seq<Op>): nat {
    if ops == [] then 0 else SavesIn(ops[..|ops| - 1]) + (if ops[|ops| - 1].Save? then 1 else 0)
  }

  /** The sum of the counts returned by all sweeps. */
  function TotalMarked(ops: seq<Op>): nat {
    if ops == [] then 0
    else
      var before, last := ops[..|ops| - 1], ops[|ops| - 1];
      TotalMarked(before) + (if last.MarkExpired? then |DueIds(MemoryRun(before), last.now)| else 0)
  }

  function WithStatus(t: Table, s: Status): set<Text> {
    set id | id in t && t[id].status == s
  }

  /** The grants that were in status EXPIRED at some point of the run. */
  function EverExpired(ops: seq<Op>): set<Text> {
    if ops == [] then {} else EverExpired(ops[..|ops| - 1]) + WithStatus(MemoryRun(ops), Expired)
  }

  /** The three moves a status can make. */
  predicate MayBecome(a: Status, b: Status) {
    a == b || (a == Issued && b == Expired) || (a == Issued && b == Revoked) || (a == Expired && b == Revoked)
  }

  lemma StepMovesForward(t: Table, op: Op, id: Text)
    requires id in t && (op.Save? ==> op.record.grantId !in t)
    ensures var u := MemoryStep(t, op).0;
            id in u && MayBecome(t[id].status, u[id].status) && u[id] == t[id].(status := u[id].status)
  {
  }

  lemma StatusesMoveForward(ops: seq<Op>, id: Text)
    requires ops != [] && ServiceRun(ops) && id in MemoryRun(ops[..|ops| - 1])
    ensures id in MemoryRun(ops)
    ensures var a, b := MemoryRun(ops[..|ops| - 1])[id], MemoryRun(ops)[id];
            MayBecome(a.status, b.status) && b == a.(status := b.status)
  {
    StepMovesForward(MemoryRun(ops[..|ops| - 1]), ops[|ops| - 1], id);
  }

  lemma SweepLeavesNoneDue(t: Table, now: int)
    ensures DueIds(Sweep(t, now), now) == {}
    ensures WithStatus(Sweep(t, now), Expired) == WithStatus(t, Expired) + DueIds(t, now)
    ensures forall id :: id in Sweep(t, now) && Sweep(t, now)[id].status == Issued ==> Sweep(t, now)[id].expiresAt >= now
    ensures forall id :: id in t && Sweep(t, now)[id] != t[id] ==> t[id].status == Issued && t[id].expiresAt < now
  {
  }

  /** Some sweep of the run had a clock past the grant's expiry. */
  predicate WasSwept(ops: seq<Op>, r: GrantRecord) {
    exists i :: 0 <= i < |ops| && ops[i].MarkExpired? && r.expiresAt < ops[i].now
  }

  /** Over any run, a grant is expired only if some sweep came after its expiry. */
  lemma {:induction false} ExpiredWasSwept(ops: seq<Op>, id: Text)
    requires ServiceRun(ops) && id in MemoryRun(ops) && MemoryRun(ops)[id].status == Expired
    ensures WasSwept(ops, MemoryRun(ops)[id])
  {
    var n := |ops| - 1;
    var before := MemoryRun(ops[..n]);
    PrefixServiceRun(ops, n);
    if id in before && before[id].status == Expired {
      ExpiredWasSwept(ops[..n], id);
      StepMovesForward(before, ops[n], id);
      var i :| 0 <= i < n && ops[..n][i].MarkExpired? && before[id].expiresAt < ops[..n][i].now;
      assert ops[i] == ops[..n][i];
    } else {
      assert ops[n].MarkExpired?;
      SweepLeavesNoneDue(before, ops[n].now);
    }
  }

  lemma PrefixServiceRun(ops: seq<Op>, n: nat)
    requires n <= |ops| && ServiceRun(ops)
    ensures ServiceRun(ops[..n])
  {
    forall i | 0 <= i < n ensures ops[..n][..i] == ops[..i] && ops[..n][i] == ops[i] {
    }
  }

  /** The state of the accounts of a run: grants saved, counts returned, grants ever expired. */
  ghost predicate Balanced(t: Table, saves: nat, marked: nat, ever: set<Text>) {
    && |t| == saves
    && marked == |ever|
    && ever <= t.Keys
    && WithStatus(t, Expired) <= ever
    && forall id :: id in ever ==> t[id].status != Issued
  }

  lemma PutGrows(t: Table, r: GrantRecord)
    requires r.grantId !in t
    ensures |Put(t, r)| == |t| + 1
  {
    assert Put(t, r).Keys == t.Keys + {r.grantId};
    assert |t.Keys + {r.grantId}| == |t.Keys| + 1;
  }

  lemma SaveBalances(t: Table, r: GrantRecord, saves: nat, marked: nat, ever: set<Text>)
    requires Balanced(t, saves, marked, ever) && r.grantId !in t && r.status == Issued
    ensures Balanced(Put(t, r), saves + 1, marked, ever + WithStatus(Put(t, r), Expired))
  {
    var u := Put(t, r);
    PutGrows(t, r);
    assert WithStatus(u, Expired) == WithStatus(t, Expired);
    assert ever + WithStatus(u, Expired) == ever;
  }

  lemma RevokeBalances(t: Table, id: Text, saves: nat, marked: nat, ever: set<Text>)
    requires Balanced(t, saves, marked, ever)
    ensures Balanced(RevokeRow(t, id), saves, marked, ever + WithStatus(RevokeRow(t, id), Expired))
  {
    var u := RevokeRow(t, id);
    assert u.Keys == t.Keys;
    assert |u.Keys| == |t.Keys|;
    assert WithStatus(u, Expired) <= WithStatus(t, Expired);
    assert ever + WithStatus(u, Expired) == ever;
  }

  lemma SweepBalances(t: Table, now: int, saves: nat, marked: nat, ever: set<Text>)
    requires Balanced(t, saves, marked, ever)
    ensures Balanced(Sweep(t, now), saves, marked + |DueIds(t, now)|, ever + WithStatus(Sweep(t, now), Expired))
  {
    var u, due := Sweep(t, now), DueIds(t, now);
    assert u.Keys == t.Keys;
    assert |u.Keys| == |t.Keys|;
    SweepLeavesNoneDue(t, now);
    assert ever + WithStatus(u, Expired) == ever + due;
    assert ever * due == {};
    assert |ever + due| == |ever| + |due|;
  }

  lemma {:induction false} RunBalances(ops: seq<Op>)
    requires ServiceRun(ops)
    ensures Balanced(MemoryRun(ops), SavesIn(ops), TotalMarked(ops), EverExpired(ops))
  {
    if ops != [] {
      var n := |ops| - 1;
      var before := ops[..n];
      PrefixServiceRun(ops, n);
      RunBalances(before);
      match ops[n]
      case Save(r) => SaveBalances(MemoryRun(before), r, SavesIn(before), TotalMarked(before), EverExpired(before));
      case Revoke(id, _) => RevokeBalances(MemoryRun(before), id, SavesIn(before), TotalMarked(before), EverExpired(before));
      case MarkExpired(now) =>
        SweepBalances(MemoryRun(before), now, SavesIn(before), TotalMarked(before), EverExpired(before));
    }
  }

  /**
   Conservation over any run of the service: issued, expired and revoked grants together are the
   grants saved, and the counts returned by the sweeps add up to the grants that ever expired, each
   counted once although some were revoked later.
   */
  lemma LedgerConserves(ops: seq<Op>)
    requires ServiceRun(ops)
    ensures var t := MemoryRun(ops);
            && |WithStatus(t, Issued)| + |WithStatus(t, Expired)| + |WithStatus(t, Revoked)| == SavesIn(ops)
            && TotalMarked(ops) == |EverExpired(ops)|
            && WithStatus(t, Expired) <= EverExpired(ops) <= WithStatus(t, Expired) + WithStatus(t, Revoked)
  {
    RunBalances(ops);
    StatusesPartition(MemoryRun(ops));
  }

  lemma StatusesPartition(t: Table)
    ensures |WithStatus(t, Issued)| + |WithStatus(t, Expired)| + |WithStatus(t, Revoked)| == |t|
  {
    var i, e, r := WithStatus(t, Issued), WithStatus(t, Expired), WithStatus(t, Revoked);
    assert t.Keys == (i + e) + r;
    assert i * e == {} && (i + e) * r == {};
    assert |i + e| == |i| + |e| && |(i + e) + r| == |i + e| + |r|;
  }
}
