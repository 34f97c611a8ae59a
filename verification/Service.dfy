/** The Access Manager's service: it mints, signs and saves grants, and passes the rest to its store. */
module Service {
  import opened Texts
  import opened Grants
  import opened GrantCheck
  import opened Signing
  import opened Ledger

  /** The record is that of a valid grant signed with the key; only its status may have moved on. */
  predicate RecordBacked(signed: set<Sealed>, am: Issuer, r: GrantRecord) {
    && ValidSigned(r.signedGrant, am.isUrl)
    && GrantSeal(am.publicKey, r.signedGrant.claims) in signed
    && r.(status := Issued) == RecordFor(r.signedGrant)
  }

  predicate Backed(signed: set<Sealed>, am: Issuer, t: Table) {
    forall id :: id in t ==> RecordBacked(signed, am, t[id])
  }

  lemma InsertKeepsBacked(signed: set<Sealed>, am: Issuer, t: Table, g: SignedGrant)
    requires Backed(signed, am, t) && ValidSigned(g, am.isUrl)
    ensures Backed(signed + {GrantSeal(am.publicKey, g.claims)}, am, InsertIfAbsent(t, RecordFor(g)))
  {
    var more := signed + {GrantSeal(am.publicKey, g.claims)};
    assert RecordBacked(more, am, RecordFor(g));
    forall id | id in t ensures RecordBacked(more, am, t[id]) {
      assert RecordBacked(signed, am, t[id]);
    }
  }

  /** The grant says what was requested, from now on for the requested lifetime or the default one. */
  predicate IsIssuedFor(am: Issuer, req: IssueRequest, nowSeconds: int, grantId: Text, nonce: Text, g: SignedGrant) {
    var c := g.claims;
    && c.grantId == grantId && c.nonce == nonce && c.issuer == am.amId && c.issuerKeyId == am.issuerKeyId
    && c.grantee == req.grantee && c.provider == req.provider && c.resource == req.resource && c.scope == req.scope
    && c.licenseClass == req.licenseClass && c.purpose == req.purpose && c.transactionId == req.transactionId
    && c.issuedAt == nowSeconds == c.notBefore && c.revocable
    && (req.ttlSeconds.Some? ==> c.expiresAt == nowSeconds + req.ttlSeconds.value)
    && (req.ttlSeconds.None? ==> c.expiresAt == nowSeconds + am.ttlSeconds)
  }

  /** The record repeats the grant's claims and is in status ISSUED. */
  predicate IsRecordOf(g: SignedGrant, r: GrantRecord) {
    var c := g.claims;
    && r.grantId == c.grantId && r.granteeId == c.grantee.id && r.bppId == c.provider.bppId
    && r.resourceId == c.resource.resourceId && r.offerId == c.resource.offerId && r.scope == c.scope
    && r.licenseClass == c.licenseClass && r.purpose == c.purpose && r.transactionId == c.transactionId
    && r.issuedAt == c.issuedAt && r.expiresAt == c.expiresAt && r.status == Issued && r.signedGrant == g
  }

  lemma IssuedIsBacked(signed: set<Sealed>, am: Issuer, t: Table, g: SignedGrant, more: set<Sealed>, u: Table)
    requires Backed(signed, am, t) && ValidClaims(g.claims, am.isUrl) && IsSignatureText(g.signature)
    requires more == signed + {GrantSeal(am.publicKey, g.claims)} && u == InsertIfAbsent(t, RecordFor(g))
    ensures Backed(more, am, u)
  {
    InsertKeepsBacked(signed, am, t, g);
  }

  lemma IsRecordFor(r: GrantRecord, g: SignedGrant)
    requires var c := g.claims;
             r == GrantRecord(c.grantId, c.grantee.id, c.provider.bppId, c.resource.resourceId, c.resource.offerId, c.scope,
                              c.licenseClass, c.purpose, c.transactionId, c.issuedAt, c.expiresAt, Issued, g)
    ensures r == RecordFor(g)
  {
  }

  predicate OnlyStatusesDiffer(t: Table, u: Table) {
    u.Keys == t.Keys && forall id :: id in t ==> u[id] == t[id].(status := u[id].status)
  }

  lemma RevokeChangesStatus(t: Table, id: Text)
    ensures OnlyStatusesDiffer(t, RevokeRow(t, id))
  {
  }

  lemma SweepChangesStatuses(t: Table, now: int)
    ensures OnlyStatusesDiffer(t, Sweep(t, now))
  {
  }

  lemma StatusKeepsBacked(signed: set<Sealed>, am: Issuer, t: Table, u: Table)
    requires Backed(signed, am, t) && OnlyStatusesDiffer(t, u)
    ensures Backed(signed, am, u)
  {
    forall id | id in u ensures RecordBacked(signed, am, u[id]) {
      assert RecordBacked(signed, am, t[id]);
    }
  }

  lemma RevokeKeepsBacked(signed: set<Sealed>, am: Issuer, t: Table, id: Text)
    requires Backed(signed, am, t)
    ensures Backed(signed, am, RevokeRow(t, id))
  {
    RevokeChangesStatus(t, id);
    StatusKeepsBacked(signed, am, t, RevokeRow(t, id));
  }

  lemma SweepKeepsBacked(signed: set<Sealed>, am: Issuer, t: Table, now: int)
    requires Backed(signed, am, t)
    ensures Backed(signed, am, Sweep(t, now)) && DueIds(Sweep(t, now), now) == {}
  {
    SweepLeavesNoneDue(t, now);
    SweepChangesStatuses(t, now);
    StatusKeepsBacked(signed, am, t, Sweep(t, now));
  }

  class GrantService {
    const am: Issuer
    const store: PostgresGrantStore
    /** Every message the service has signed. */
    ghost var signed: set<Sealed>

    ghost predicate Valid()
      reads this, store
    {
      store.Valid() && Backed(signed, am, store.grants)
    }

    constructor (am: Issuer, store: PostgresGrantStore)
      requires store.Valid() && store.grants == map[]
      ensures Valid() && this.am == am && this.store == store && signed == {}
    {
      this.am := am;
      this.store := store;
      signed := {};
    }

    /**
     Mints, signs and saves a grant; the two identifiers and the signature come from outside. Claims
     that the schema refuses are neither signed nor saved.
     */
    method Issue(req: IssueRequest, nowSeconds: int, grantId: Text, nonce: Text, signature: Text)
      returns (r: Option<SignedGrant>)
      requires Valid() && IsSignatureText(signature)
      modifies this, store
      ensures Valid() && store.revocations == old(store.revocations)
      ensures var c := ClaimsFor(am, req, grantId, nonce, nowSeconds);
              if ValidClaims(c, am.isUrl) then
                && r == Some(SignedGrant(c, signature))
                && signed == old(signed) + {GrantSeal(am.publicKey, c)}
                && store.grants == InsertIfAbsent(old(store.grants), RecordFor(r.value))
              else
                r == None && signed == old(signed) && store.grants == old(store.grants)
      ensures r.Some? ==> IsIssuedFor(am, req, nowSeconds, grantId, nonce, r.value)
      ensures r.Some? && grantId !in old(store.grants) ==>
                grantId in store.grants && IsRecordOf(r.value, store.grants[grantId])
    {
      var ttl := if req.ttlSeconds.Some? then req.ttlSeconds.value else am.ttlSeconds;
      var claims := Claims(grantId, am.amId, am.issuerKeyId, req.grantee, req.provider, req.resource, req.scope,
                           req.licenseClass, req.purpose, req.transactionId, nowSeconds, nowSeconds, nowSeconds + ttl,
                           true, nonce);
      assert claims == ClaimsFor(am, req, grantId, nonce, nowSeconds);
      if !ValidClaims(claims, am.isUrl) {
        return None;
      }
      var grant := SignedGrant(claims, signature);
      ghost var more, table := signed + {GrantSeal(am.publicKey, claims)}, InsertIfAbsent(store.grants, RecordFor(grant));
      IssuedIsBacked(signed, am, store.grants, grant, more, table);
      signed := more;
      var record :=
        GrantRecord(claims.grantId, claims.grantee.id, claims.provider.bppId, claims.resource.resourceId,
                    claims.resource.offerId, claims.scope, claims.licenseClass, claims.purpose,
                    claims.transactionId, claims.issuedAt, claims.expiresAt, Issued, grant);
      IsRecordFor(record, grant);
      store.Save(record);
      assert store.grants == table;
      return Some(grant);
    }

    method Revoke(grantId: Text, reason: Text) returns (outcome: RevokeOutcome)
      requires Valid()
      modifies store
      ensures Valid()
      ensures outcome == RevokeReply(old(store.grants), grantId)
      ensures store.grants == RevokeRow(old(store.grants), grantId)
      ensures store.revocations == RevocationsAfter(old(store.revocations), old(store.grants), grantId, reason)
      ensures outcome == NotFound <==> grantId !in old(store.grants)
      ensures outcome == AlreadyRevoked <==> grantId in old(store.grants) && old(store.grants)[grantId].status == Revoked
    {
      ghost var next := RevokeRow(store.grants, grantId);
      RevokeKeepsBacked(signed, am, store.grants, grantId);
      outcome := store.Revoke(grantId, reason);
      assert store.grants == next;
    }

    method SweepExpired(nowSeconds: int) returns (n: nat)
      requires Valid()
      modifies store
      ensures Valid()
      ensures n == |DueIds(old(store.grants), nowSeconds)| && DueIds(store.grants, nowSeconds) == {}
      ensures store.grants == Sweep(old(store.grants), nowSeconds) && store.revocations == old(store.revocations)
      ensures ExpiresPast(old(store.grants), store.grants, nowSeconds, n)
    {
      ghost var next := Sweep(store.grants, nowSeconds);
      SweepKeepsBacked(signed, am, store.grants, nowSeconds);
      n := store.MarkExpired(nowSeconds);
      assert store.grants == next;
    }
  }
}
