/**
 The whole life of grants: the Access Manager signs, saves, revokes and sweeps while any number of
 redemptions, at any number of providers over one database, run step by step among each other.
 */
module Marketplace {
  import opened Texts
  import opened Grants
  import opened GrantJson
  import opened GrantCheck
  import opened Signing
  import opened Utf8
  import opened Ledger
  import opened Transactions
  import opened Download

  /** A redemption is `lost` when its process or a store failed under it: it goes no further. */
  datatype Redemption = Redemption(bpp: Bpp, presentation: Presentation, stage: Stage, lost: bool)

  /**
   `signed`, `issued` and `holders` are history: every message ever signed, every claim the Access
   Manager ever signed, and who took each slot of each grant, in order.
   */
  datatype World = World(
    db: Database, signed: set<Sealed>, issued: set<Claims>, unsaved: set<SignedGrant>, counts: Counts,
    redemptions: seq<Redemption>, holders: map<Text, seq<nat>>)

  datatype Event =
    | SignGrant(request: IssueRequest, grantId: Text, nonce: Text, nowSeconds: int, signature: Text)
    | SaveGrant(grant: SignedGrant)
    | SignElsewhere(seal: Sealed)
    | LedgerStatement(statement: Statement)
    | Present(bpp: Bpp, presentation: Presentation)
    | Proceed(redemption: nat)
    | Lose(redemption: nat)

  const START := World(Transactions.EMPTY, {}, {}, {}, map[], [], map[])

  function HoldersOf(holders: map<Text, seq<nat>>, id: Text): seq<nat> {
    if id in holders then holders[id] else []
  }

  /** Grant ids are random: the one drawn was never drawn before. */
  predicate FreshId(issued: set<Claims>, id: Text) {
    forall c :: c in issued ==> c.grantId != id
  }

  function SignGrantStep(am: Issuer, w: World, c: Claims, signature: Text): World {
    if !ValidClaims(c, am.isUrl) || !IsSignatureText(signature) || !FreshId(w.issued, c.grantId) then w
    else w.(signed := w.signed + {GrantSeal(am.publicKey, c)},
            issued := w.issued + {c},
            unsaved := w.unsaved + {SignedGrant(c, signature)})
  }

  function ProceedStep(w: World, x: nat): World {
    if x >= |w.redemptions| || w.redemptions[x].lost then w
    else
      var r := w.redemptions[x];
      var next := Advance(r.bpp, w.signed, r.presentation, r.stage, w.db.revocations.Keys, w.counts);
      w.(redemptions := w.redemptions[x := r.(stage := next.0)],
         counts := next.1,
         holders := if r.stage.Located?
                    then w.holders[r.stage.claims.grantId := HoldersOf(w.holders, r.stage.claims.grantId) + [x]]
                    else w.holders)
  }

  function Happen(am: Issuer, w: World, e: Event): World {
    match e
    case SignGrant(request, grantId, nonce, nowSeconds, signature) =>
      SignGrantStep(am, w, ClaimsFor(am, request, grantId, nonce, nowSeconds), signature)
    case SaveGrant(g) =>
      if g !in w.unsaved then w
      else w.(db := Execute(w.db, Insert(RecordFor(g))), unsaved := w.unsaved - {g})
    case SignElsewhere(seal) =>
      if seal.key == LowerHex(am.publicKey) then w else w.(signed := w.signed + {seal})
    case LedgerStatement(s) =>
      if s.Insert? then w else w.(db := Execute(w.db, s))
    case Present(bpp, presentation) =>
      w.(redemptions := w.redemptions + [Redemption(bpp, presentation, Arrived, false)])
    case Proceed(x) => ProceedStep(w, x)
    case Lose(x) =>
      if x >= |w.redemptions| || w.redemptions[x].stage.Finished? then w
      else w.(redemptions := w.redemptions[x := w.redemptions[x].(lost := true)])
  }

  function History(am: Issuer, events: seq<Event>): World {
    if events == [] then START
    else Happen(am, History(am, events[..|events| - 1]), events[|events| - 1])
  }

  /** The statements that an event sends to the database: a saved grant's own record, or the ledger's. */
  function StatementsOf(w: World, e: Event): seq<Statement> {
    if e.SaveGrant? && e.grant in w.unsaved then [Insert(RecordFor(e.grant))]
    else if e.LedgerStatement? && !e.statement.Insert? then [e.statement]
    else []
  }

  function AllStatements(am: Issuer, events: seq<Event>): seq<Statement> {
    if events == [] then []
    else
      AllStatements(am, events[..|events| - 1])
      + StatementsOf(History(am, events[..|events| - 1]), events[|events| - 1])
  }

  /** The database of a history is that of its statements, in their order: nothing else touches it. */
  lemma {:induction false} DatabaseIsRun(am: Issuer, events: seq<Event>)
    ensures History(am, events).db == Ran(AllStatements(am, events))
  {
    if events != [] {
      var before := events[..|events| - 1];
      DatabaseIsRun(am, before);
      var all := AllStatements(am, events);
      if all != AllStatements(am, before) {
        assert all[..|all| - 1] == AllStatements(am, before);
      }
    }
  }

  /** The provider trusts this Access Manager's key, or has none configured. */
  predicate TrustsOrUnset(am: Issuer, b: Bpp) {
    b.issuerKey == [] || LowerHex(b.issuerKey) == LowerHex(am.publicKey)
  }

  predicate Trusting(am: Issuer, e: Event) {
    e.Present? ==> TrustsOrUnset(am, e.bpp)
  }

  // ---- What was issued, and the database ----

  /** The issuer's key signed nothing but payloads of issued grants, and no two of them share an id. */
  ghost predicate IssuedOk(am: Issuer, signed: set<Sealed>, issued: set<Claims>) {
    IssuesOnly(signed, am.publicKey, issued) && IdsDiffer(issued)
  }

  predicate IdsDiffer(issued: set<Claims>) {
    forall c, d :: c in issued && d in issued && c.grantId == d.grantId ==> c == d
  }

  lemma SigningIssuesOnly(publicKey: Text, signed: set<Sealed>, issued: set<Claims>, c: Claims)
    requires IssuesOnly(signed, publicKey, issued) && WellShaped(c)
    ensures IssuesOnly(signed + {GrantSeal(publicKey, c)}, publicKey, issued + {c})
  {
    forall s | s in signed + {GrantSeal(publicKey, c)} && s.key == LowerHex(publicKey)
      ensures exists d :: d in issued + {c} && WellShaped(d) && s.bytes == Encode(Payload(d))
    {
      if s in signed {
        var d :| d in issued && WellShaped(d) && s.bytes == Encode(Payload(d));
        assert d in issued + {c};
      } else {
        assert c in issued + {c};
      }
    }
  }

  lemma SigningKeepsIssued(am: Issuer, signed: set<Sealed>, issued: set<Claims>, c: Claims)
    requires IssuedOk(am, signed, issued) && WellShaped(c) && FreshId(issued, c.grantId)
    ensures IssuedOk(am, signed + {GrantSeal(am.publicKey, c)}, issued + {c})
  {
    SigningIssuesOnly(am.publicKey, signed, issued, c);
  }

  lemma HappenKeepsIssued(am: Issuer, w: World, e: Event)
    requires IssuedOk(am, w.signed, w.issued)
    ensures var v := Happen(am, w, e); IssuedOk(am, v.signed, v.issued) && w.issued <= v.issued
  {
    if e.SignGrant? {
      var c := ClaimsFor(am, e.request, e.grantId, e.nonce, e.nowSeconds);
      if ValidClaims(c, am.isUrl) && FreshId(w.issued, c.grantId) {
        SigningKeepsIssued(am, w.signed, w.issued, c);
      }
    }
  }

  lemma HappenKeepsDatabase(am: Issuer, w: World, e: Event)
    requires DatabaseOk(w.db)
    ensures DatabaseOk(Happen(am, w, e).db)
  {
    if e.SaveGrant? {
      ExecuteKeeps(w.db, Insert(RecordFor(e.grant)));
    } else if e.LedgerStatement? && !e.statement.Insert? {
      ExecuteKeeps(w.db, e.statement);
    }
  }

  lemma HappenKeepsRevocations(am: Issuer, w: World, e: Event)
    ensures w.db.revocations.Keys <= Happen(am, w, e).db.revocations.Keys
  {
    if e.SaveGrant? {
      ExecuteKeepsRevocations(w.db, Insert(RecordFor(e.grant)));
    } else if e.LedgerStatement? && !e.statement.Insert? {
      ExecuteKeepsRevocations(w.db, e.statement);
    }
  }

  // ---- What every redemption that got somewhere has shown ----

  /** The presentation is an issued grant, in its window, at its provider, and covers the request. */
  ghost predicate Accepted(issued: set<Claims>, r: Redemption, c: Claims) {
    && c in issued && ValidClaims(c, r.bpp.isUrl) && Presents(r.presentation.grant, c, r.bpp.isUrl)
    && c.notBefore - r.bpp.skewSeconds <= r.presentation.nowSeconds <= c.expiresAt + r.bpp.skewSeconds
    && (r.bpp.bppId != [] ==> c.provider.bppId == r.bpp.bppId)
    && Covers(c, r.presentation.requested)
  }

  ghost predicate RedemptionOk(issued: set<Claims>, r: Redemption) {
    match r.stage
    case Arrived => true
    case Verified(c) => Accepted(issued, r, c)
    case Unrevoked(c) => Accepted(issued, r, c)
    case Located(c, file) => Accepted(issued, r, c) && FileFor(r.bpp, c) == Some(file)
    case Reserved(c, file, _) => Accepted(issued, r, c) && FileFor(r.bpp, c) == Some(file)
    case Finished(Served(c, file, n)) => Accepted(issued, r, c) && IsFileOf(r.bpp, c, file, n)
    case Finished(Refused(_, _)) => true
  }

  lemma OfflineAccepts(signed: set<Sealed>, issued: set<Claims>, r: Redemption)
    requires IssuesOnly(signed, r.bpp.issuerKey, issued)
    ensures match OfflineStage(r.bpp, signed, r.presentation)
            case Verified(c) => Accepted(issued, r, c)
            case _ => true
  {
    var b, p := r.bpp, r.presentation;
    VerifiedWasIssued(signed, b.isUrl, p.grant, b.issuerKey, p.nowSeconds, Some(b.bppId), Some(p.requested),
                      Some(b.skewSeconds), issued);
    VerifiedIsInBounds(signed, b.isUrl, p.grant, b.issuerKey, p.nowSeconds, b.bppId, p.requested, b.skewSeconds);
  }

  /** A redemption keeps what it has shown, whatever happens to the others. */
  lemma AdvanceKeepsRedemption(am: Issuer, w: World, r: Redemption)
    requires IssuedOk(am, w.signed, w.issued) && RedemptionOk(w.issued, r) && TrustsOrUnset(am, r.bpp)
    ensures var next := Advance(r.bpp, w.signed, r.presentation, r.stage, w.db.revocations.Keys, w.counts);
            RedemptionOk(w.issued, r.(stage := next.0))
  {
    if r.stage.Arrived? && r.bpp.issuerKey != [] {
      OfflineAccepts(w.signed, w.issued, r);
    }
  }

  lemma MoreIssued(issued: set<Claims>, more: set<Claims>, r: Redemption)
    requires RedemptionOk(issued, r) && issued <= more
    ensures RedemptionOk(more, r)
  {
  }

  ghost predicate RedemptionsOk(am: Issuer, w: World) {
    forall x :: 0 <= x < |w.redemptions| ==>
      RedemptionOk(w.issued, w.redemptions[x]) && TrustsOrUnset(am, w.redemptions[x].bpp)
  }

  /** What an event makes of redemption `x`: nothing, a new one, a lost one, or one a step further. */
  lemma OneRedemptionMoves(am: Issuer, w: World, e: Event, x: nat)
    requires x < |Happen(am, w, e).redemptions|
    ensures var r := Happen(am, w, e).redemptions[x];
            if x < |w.redemptions| then r == w.redemptions[x] || r == w.redemptions[x].(lost := true) || e == Proceed(x)
            else e.Present? && r == Redemption(e.bpp, e.presentation, Arrived, false)
  {
  }

  lemma ProceedKeepsRedemption(am: Issuer, w: World, x: nat)
    requires IssuedOk(am, w.signed, w.issued) && x < |w.redemptions|
    requires RedemptionOk(w.issued, w.redemptions[x]) && TrustsOrUnset(am, w.redemptions[x].bpp)
    ensures var r := ProceedStep(w, x).redemptions[x]; RedemptionOk(w.issued, r) && TrustsOrUnset(am, r.bpp)
  {
    AdvanceKeepsRedemption(am, w, w.redemptions[x]);
  }

  lemma HappenKeepsRedemptions(am: Issuer, w: World, e: Event)
    requires Trusting(am, e) && IssuedOk(am, w.signed, w.issued) && RedemptionsOk(am, w)
    ensures RedemptionsOk(am, Happen(am, w, e))
  {
    var v := Happen(am, w, e);
    HappenKeepsIssued(am, w, e);
    forall x | 0 <= x < |v.redemptions|
      ensures RedemptionOk(v.issued, v.redemptions[x]) && TrustsOrUnset(am, v.redemptions[x].bpp)
    {
      OneRedemptionMoves(am, w, e, x);
      if x < |w.redemptions| {
        MoreIssued(w.issued, v.issued, w.redemptions[x]);
        if e == Proceed(x) {
          ProceedKeepsRedemption(am, w, x);
        }
      }
    }
  }

  // ---- Every history ----

  ghost predicate WorldOk(am: Issuer, w: World) {
    DatabaseOk(w.db) && IssuedOk(am, w.signed, w.issued) && RedemptionsOk(am, w)
  }

  lemma {:induction false} HistoryIsOk(am: Issuer, events: seq<Event>)
    requires forall i :: 0 <= i < |events| ==> Trusting(am, events[i])
    ensures WorldOk(am, History(am, events))
  {
    if events == [] {
      RanIsOk([]);
    } else {
      var n := |events| - 1;
      HistoryIsOk(am, events[..n]);
      HappenKeepsDatabase(am, History(am, events[..n]), events[n]);
      HappenKeepsIssued(am, History(am, events[..n]), events[n]);
      HappenKeepsRedemptions(am, History(am, events[..n]), events[n]);
    }
  }

  lemma HistoryOneMore(am: Issuer, events: seq<Event>, more: seq<Event>)
    requires more != []
    ensures var n := |more| - 1; History(am, events + more) == Happen(am, History(am, events + more[..n]), more[n])
  {
    ButLast(events, more);
  }

  // ---- The revocation check ----

  /** The redemption is past its revocation check with claims `c`. */
  predicate PassedCheck(w: World, x: nat, c: Claims) {
    x < |w.redemptions| &&
    match w.redemptions[x].stage
    case Unrevoked(d) => d == c
    case Located(d, _) => d == c
    case Reserved(d, _, _) => d == c
    case Finished(Served(d, _, _)) => d == c
    case _ => false
  }

  /** Event `k` is the revocation check of redemption `x`, and the grant was not revoked then. */
  predicate FoundUnrevoked(am: Issuer, events: seq<Event>, k: nat, x: nat, c: Claims) {
    && k < |events| && events[k] == Proceed(x)
    && var w := History(am, events[..k]);
       x < |w.redemptions| && w.redemptions[x].stage == Verified(c) && c.grantId !in w.db.revocations
  }

  lemma PassingTheCheck(am: Issuer, w: World, e: Event, x: nat, c: Claims)
    requires PassedCheck(Happen(am, w, e), x, c) && !PassedCheck(w, x, c)
    ensures e == Proceed(x) && x < |w.redemptions|
    ensures w.redemptions[x].stage == Verified(c) && c.grantId !in w.db.revocations
  {
  }

  lemma {:induction false} PassedMeansChecked(am: Issuer, events: seq<Event>, x: nat, c: Claims) returns (k: nat)
    requires PassedCheck(History(am, events), x, c)
    ensures FoundUnrevoked(am, events, k, x, c)
  {
    var n := |events| - 1;
    if PassedCheck(History(am, events[..n]), x, c) {
      k := PassedMeansChecked(am, events[..n], x, c);
      assert events[..n][..k] == events[..k];
    } else {
      PassingTheCheck(am, History(am, events[..n]), events[n], x, c);
      k := n;
    }
  }

  /**
   Download soundness: whatever is served was asked for with the JSON of a grant the Access Manager
   issued, at its provider, within its skewed window and scope, not revoked when the provider checked,
   and the file is the one the signed claims lead to, within their cap.
   */
  lemma DownloadIsSound(am: Issuer, events: seq<Event>, x: nat)
    requires forall i :: 0 <= i < |events| ==> Trusting(am, events[i])
    requires var w := History(am, events);
             x < |w.redemptions| && w.redemptions[x].stage.Finished? && w.redemptions[x].stage.answer.Served?
    ensures var w := History(am, events);
            var r := w.redemptions[x];
            var Served(c, file, n) := r.stage.answer;
            && c in w.issued && ValidClaims(c, r.bpp.isUrl) && Presents(r.presentation.grant, c, r.bpp.isUrl)
            && c.notBefore - r.bpp.skewSeconds <= r.presentation.nowSeconds <= c.expiresAt + r.bpp.skewSeconds
            && (r.bpp.bppId != [] ==> c.provider.bppId == r.bpp.bppId)
            && Covers(c, r.presentation.requested)
            && r.bpp.resolve(c.resource.resourceId, c.resource.offerId, c.scope.kind) == Some(file)
            && (c.scope.maxDownloads.Some? ==> n <= c.scope.maxDownloads.value)
            && exists k: nat :: FoundUnrevoked(am, events, k, x, c)
  {
    HistoryIsOk(am, events);
    var w := History(am, events);
    assert RedemptionOk(w.issued, w.redemptions[x]);
    var k := PassedMeansChecked(am, events, x, w.redemptions[x].stage.answer.claims);
  }

  lemma {:induction false} RevokedStaysRevoked(am: Issuer, events: seq<Event>, more: seq<Event>, id: Text)
    requires id in History(am, events).db.revocations
    ensures id in History(am, events + more).db.revocations
  {
    if more == [] {
      assert events + more == events;
    } else {
      var n := |more| - 1;
      RevokedStaysRevoked(am, events, more[..n], id);
      HistoryOneMore(am, events, more);
      HappenKeepsRevocations(am, History(am, events + more[..n]), more[n]);
    }
  }

  lemma {:induction false} NeverPassesOnceRevoked(am: Issuer, events: seq<Event>, more: seq<Event>, x: nat, c: Claims)
    requires c.grantId in History(am, events).db.revocations && !PassedCheck(History(am, events), x, c)
    ensures !PassedCheck(History(am, events + more), x, c)
  {
    if more == [] {
      assert events + more == events;
    } else {
      var n := |more| - 1;
      NeverPassesOnceRevoked(am, events, more[..n], x, c);
      RevokedStaysRevoked(am, events, more[..n], c.grantId);
      HistoryOneMore(am, events, more);
      var w := History(am, events + more[..n]);
      if PassedCheck(Happen(am, w, more[n]), x, c) {
        PassingTheCheck(am, w, more[n], x, c);
      }
    }
  }

  /**
   Revocation is final for redemptions: once some revoke of a grant has replied 'revoked', no
   redemption that has not passed its check by then is ever served with it, however the run goes on,
   and each one that comes to its check is refused.
   */
  lemma RevokedIsNeverServed(am: Issuer, events: seq<Event>, more: seq<Event>, revoker: nat, x: nat, c: Claims)
    requires forall i :: 0 <= i < |events| ==> Trusting(am, events[i])
    requires Won(History(am, events).db, revoker, c.grantId)
    requires !PassedCheck(History(am, events), x, c)
    ensures var w := History(am, events + more);
            x < |w.redemptions| ==>
              && !(w.redemptions[x].stage.Finished? && w.redemptions[x].stage.answer.Served?
                   && w.redemptions[x].stage.answer.claims == c)
              && (w.redemptions[x].stage == Verified(c) && !w.redemptions[x].lost ==>
                    Happen(am, w, Proceed(x)).redemptions[x].stage == Finished(Refused(403, GrantRevoked)))
  {
    HistoryIsOk(am, events);
    assert c.grantId in History(am, events).db.revocations;
    NeverPassesOnceRevoked(am, events, more, x, c);
    RevokedStaysRevoked(am, events, more, c.grantId);
  }
}
