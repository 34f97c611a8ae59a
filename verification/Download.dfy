/** The grant-gated download: offline verification, then revocation, file, slot and cap, in order. */
module Download {
  import opened Texts
  import opened Json
  import opened Grants
  import opened GrantCheck
  import opened Signing

  datatype File = File(path: Text, filename: Text, contentType: Text)

  /** The file for a resource, an offer and a scope kind; the catalog may have none. */
  type Resolver = (Text, Text, ScopeKind) -> Option<File>

  /** A provider: its id, the issuer key it trusts (empty when unconfigured), its skew, schema and files. */
  datatype Bpp = Bpp(bppId: Text, issuerKey: Text, skewSeconds: int, isUrl: UrlCheck, resolve: Resolver)

  datatype Presentation = Presentation(grant: Value, requested: Requested, nowSeconds: int)

  datatype Refusal =
    | IssuerKeyUnconfigured | Offline(reason: Rejection) | GrantRevoked | ResourceUnavailable | DownloadLimitExceeded

  datatype Answer =
    | Served(claims: Claims, file: File, redemptionCount: nat)
    | Refused(status: int, refusal: Refusal)

  /** How far a redemption has come. */
  datatype Stage =
    | Arrived
    | Verified(claims: Claims)
    | Unrevoked(claims: Claims)
    | Located(claims: Claims, file: File)
    | Reserved(claims: Claims, file: File, slot: nat)
    | Finished(answer: Answer)

  type Counts = map<Text, nat>

  function CountOf(counts: Counts, id: Text): nat {
    if id in counts then counts[id] else 0
  }

  function CountOneMore(counts: Counts, id: Text): Counts {
    counts[id := CountOf(counts, id) + 1]
  }

  // ---- The stores ----

  class InMemoryRevocationStore {
    var revoked: map<Text, Text>

    constructor ()
      ensures revoked == map[]
    {
      revoked := map[];
    }

    method IsRevoked(id: Text) returns (r: bool)
      ensures r <==> id in revoked
    {
      r := id in revoked;
    }

    /** A second revocation replaces the reason. */
    method Revoke(id: Text, reason: Text)
      modifies this
      ensures revoked == old(revoked)[id := reason]
    {
      revoked := revoked[id := reason];
    }
  }

  class InMemoryRedemptionStore {
    var counts: Counts

    constructor ()
      ensures counts == map[]
    {
      counts := map[];
    }

    method RecordRedemption(id: Text) returns (next: nat)
      modifies this
      ensures counts == CountOneMore(old(counts), id) && next == CountOf(counts, id) == CountOf(old(counts), id) + 1
    {
      next := (if id in counts then counts[id] else 0) + 1;
      counts := counts[id := next];
    }

    method GetCount(id: Text) returns (n: nat)
      ensures n == CountOf(counts, id)
    {
      n := if id in counts then counts[id] else 0;
    }
  }

  class PostgresRedemptionStore {
    /** `bpp_grant_redemptions`: grant id to `downloads_used`. */
    var downloadsUsed: Counts

    constructor ()
      ensures downloadsUsed == map[]
    {
      downloadsUsed := map[];
    }

    /** The upsert inserts a first row with 1, or adds 1 to the row that conflicts. */
    method RecordRedemption(id: Text) returns (used: nat)
      modifies this
      ensures downloadsUsed == CountOneMore(old(downloadsUsed), id)
      ensures used == CountOf(downloadsUsed, id) == CountOf(old(downloadsUsed), id) + 1
    {
      if id !in downloadsUsed {
        downloadsUsed := downloadsUsed[id := 1];
      } else {
        downloadsUsed := downloadsUsed[id := downloadsUsed[id] + 1];
      }
      used := downloadsUsed[id];
    }

    method GetCount(id: Text) returns (n: nat)
      ensures n == CountOf(downloadsUsed, id)
    {
      n := if id in downloadsUsed then downloadsUsed[id] else 0;
    }
  }

  // ---- One redemption, step by step ----

  /** What the provider finds offline. */
  function OfflineFinding(bpp: Bpp, signed: set<Sealed>, p: Presentation): Verification {
    VerifyGrant(signed, bpp.isUrl, p.grant, bpp.issuerKey, p.nowSeconds, Some(bpp.bppId), Some(p.requested),
                Some(bpp.skewSeconds))
  }

  function FindingStage(v: Verification): Stage {
    match v
    case Invalid(reason) => Finished(Refused(if reason.Malformed? then 400 else 403, Offline(reason)))
    case Valid(c) => Verified(c)
  }

  function OfflineStage(bpp: Bpp, signed: set<Sealed>, p: Presentation): Stage {
    if bpp.issuerKey == [] then Finished(Refused(503, IssuerKeyUnconfigured))
    else FindingStage(OfflineFinding(bpp, signed, p))
  }

  function RevocationStage(c: Claims, revoked: set<Text>): Stage {
    if c.grantId in revoked then Finished(Refused(403, GrantRevoked)) else Unrevoked(c)
  }

  function FileFor(bpp: Bpp, c: Claims): Option<File> {
    bpp.resolve(c.resource.resourceId, c.resource.offerId, c.scope.kind)
  }

  function LocateStage(bpp: Bpp, c: Claims): Stage {
    match FileFor(bpp, c)
    case None => Finished(Refused(404, ResourceUnavailable))
    case Some(file) => Located(c, file)
  }

  predicate OverCap(c: Claims, n: nat) {
    c.scope.maxDownloads.Some? && n > c.scope.maxDownloads.value
  }

  function CompareStage(c: Claims, file: File, n: nat): Stage {
    Finished(if OverCap(c, n) then Refused(403, DownloadLimitExceeded) else Served(c, file, n))
  }

  /** One step of a redemption; only the reservation touches the counters. */
  function Advance(bpp: Bpp, signed: set<Sealed>, p: Presentation, stage: Stage,
                   revoked: set<Text>, counts: Counts): (Stage, Counts)
  {
    match stage
    case Arrived => (OfflineStage(bpp, signed, p), counts)
    case Verified(c) => (RevocationStage(c, revoked), counts)
    case Unrevoked(c) => (LocateStage(bpp, c), counts)
    case Located(c, file) => (Reserved(c, file, CountOf(counts, c.grantId) + 1), CountOneMore(counts, c.grantId))
    case Reserved(c, file, n) => (CompareStage(c, file, n), counts)
    case Finished(_) => (stage, counts)
  }

  function StepsLeft(stage: Stage): (n: nat)
    ensures n == 0 <==> stage.Finished?
  {
    match stage
    case Arrived => 5
    case Verified(_) => 4
    case Unrevoked(_) => 3
    case Located(_, _) => 2
    case Reserved(_, _, _) => 1
    case Finished(_) => 0
  }

  /** The rest of a redemption that nothing interrupts. */
  function Complete(bpp: Bpp, signed: set<Sealed>, p: Presentation, stage: Stage,
                    revoked: set<Text>, counts: Counts): (Answer, Counts)
    decreases StepsLeft(stage)
  {
    if stage.Finished? then (stage.answer, counts)
    else
      var next := Advance(bpp, signed, p, stage, revoked, counts);
      Complete(bpp, signed, p, next.0, revoked, next.1)
  }

  lemma OneStep(bpp: Bpp, signed: set<Sealed>, p: Presentation, stage: Stage, revoked: set<Text>, counts: Counts)
    requires !stage.Finished?
    ensures var next := Advance(bpp, signed, p, stage, revoked, counts);
            Complete(bpp, signed, p, stage, revoked, counts) == Complete(bpp, signed, p, next.0, revoked, next.1)
  {
  }

  /** What is left to do after offline verification, in one expression. */
  function OnlineOutcome(bpp: Bpp, c: Claims, revoked: set<Text>, counts: Counts): (Answer, Counts) {
    var n := CountOf(counts, c.grantId) + 1;
    if c.grantId in revoked then (Refused(403, GrantRevoked), counts)
    else if FileFor(bpp, c).None? then (Refused(404, ResourceUnavailable), counts)
    else if OverCap(c, n) then (Refused(403, DownloadLimitExceeded), CountOneMore(counts, c.grantId))
    else (Served(c, FileFor(bpp, c).value, n), CountOneMore(counts, c.grantId))
  }

  lemma FromLocated(bpp: Bpp, signed: set<Sealed>, p: Presentation, c: Claims, file: File,
                    revoked: set<Text>, counts: Counts)
    ensures var n := CountOf(counts, c.grantId) + 1;
            Complete(bpp, signed, p, Located(c, file), revoked, counts) ==
            (CompareStage(c, file, n).answer, CountOneMore(counts, c.grantId))
  {
    OneStep(bpp, signed, p, Located(c, file), revoked, counts);
    OneStep(bpp, signed, p, Reserved(c, file, CountOf(counts, c.grantId) + 1), revoked, CountOneMore(counts, c.grantId));
  }

  lemma FromVerified(bpp: Bpp, signed: set<Sealed>, p: Presentation, c: Claims, revoked: set<Text>, counts: Counts)
    ensures Complete(bpp, signed, p, Verified(c), revoked, counts) == OnlineOutcome(bpp, c, revoked, counts)
  {
    OneStep(bpp, signed, p, Verified(c), revoked, counts);
    if c.grantId !in revoked {
      OneStep(bpp, signed, p, Unrevoked(c), revoked, counts);
      if FileFor(bpp, c).Some? {
        FromLocated(bpp, signed, p, c, FileFor(bpp, c).value, revoked, counts);
      }
    }
  }

  /** A whole redemption: what offline verification refused, or what came of the online half. */
  lemma FromArrived(bpp: Bpp, signed: set<Sealed>, p: Presentation, revoked: set<Text>, counts: Counts)
    ensures var stage := OfflineStage(bpp, signed, p);
            Complete(bpp, signed, p, Arrived, revoked, counts) ==
            if stage.Verified? then OnlineOutcome(bpp, stage.claims, revoked, counts) else (stage.answer, counts)
  {
    var stage := OfflineStage(bpp, signed, p);
    OneStep(bpp, signed, p, Arrived, revoked, counts);
    if stage.Verified? {
      FromVerified(bpp, signed, p, stage.claims, revoked, counts);
    }
  }

  /** The file is the resolver's for the claims' own resource, offer and scope kind, and the count is within their cap. */
  predicate IsFileOf(bpp: Bpp, c: Claims, file: File, n: nat) {
    && bpp.resolve(c.resource.resourceId, c.resource.offerId, c.scope.kind) == Some(file)
    && (c.scope.maxDownloads.Some? ==> n <= c.scope.maxDownloads.value)
  }

  /** The HTTP status that goes with a refusal. */
  predicate StatusFits(status: int, refusal: Refusal) {
    match refusal
    case IssuerKeyUnconfigured => status == 503
    case Offline(Malformed) => status == 400
    case ResourceUnavailable => status == 404
    case _ => status == 403
  }

  /** What is served is the unrevoked claims' own file, and what is refused has the status of its reason. */
  predicate AnswerFits(bpp: Bpp, revoked: set<Text>, answer: Answer) {
    match answer
    case Served(c, file, n) => c.grantId !in revoked && IsFileOf(bpp, c, file, n)
    case Refused(status, refusal) => StatusFits(status, refusal)
  }

  lemma OnlineFits(bpp: Bpp, c: Claims, revoked: set<Text>, counts: Counts)
    ensures AnswerFits(bpp, revoked, OnlineOutcome(bpp, c, revoked, counts).0)
  {
  }

  lemma FindingFits(bpp: Bpp, revoked: set<Text>, v: Verification)
    requires v.Invalid?
    ensures FindingStage(v).Finished? && AnswerFits(bpp, revoked, FindingStage(v).answer)
  {
  }

  lemma CompleteFits(bpp: Bpp, signed: set<Sealed>, p: Presentation, revoked: set<Text>, counts: Counts)
    ensures AnswerFits(bpp, revoked, Complete(bpp, signed, p, Arrived, revoked, counts).0)
  {
    var v := OfflineFinding(bpp, signed, p);
    FromArrived(bpp, signed, p, revoked, counts);
    if v.Valid? {
      OnlineFits(bpp, v.claims, revoked, counts);
    } else {
      FindingFits(bpp, revoked, v);
    }
  }

  /** `redeemGrant` is the uninterrupted run of the steps from a fresh presentation. */
  method RedeemGrant(bpp: Bpp, signed: set<Sealed>, p: Presentation,
                     revocations: InMemoryRevocationStore, redemptions: InMemoryRedemptionStore) returns (answer: Answer)
    modifies redemptions
    ensures (answer, redemptions.counts) ==
            Complete(bpp, signed, p, Arrived, revocations.revoked.Keys, old(redemptions.counts))
    ensures AnswerFits(bpp, revocations.revoked.Keys, answer)
  {
    CompleteFits(bpp, signed, p, revocations.revoked.Keys, redemptions.counts);
    FromArrived(bpp, signed, p, revocations.revoked.Keys, redemptions.counts);
    if bpp.issuerKey == [] {
      return Refused(503, IssuerKeyUnconfigured);
    }
    var offline :=
      VerifyGrant(signed, bpp.isUrl, p.grant, bpp.issuerKey, p.nowSeconds, Some(bpp.bppId), Some(p.requested),
                  Some(bpp.skewSeconds));
    if offline.Invalid? {
      return Refused(if offline.reason.Malformed? then 400 else 403, Offline(offline.reason));
    }
    var claims := offline.claims;
    var revoked := revocations.IsRevoked(claims.grantId);
    if revoked {
      return Refused(403, GrantRevoked);
    }
    var file := bpp.resolve(claims.resource.resourceId, claims.resource.offerId, claims.scope.kind);
    if file.None? {
      return Refused(404, ResourceUnavailable);
    }
    var redemptionCount := redemptions.RecordRedemption(claims.grantId);
    var cap := claims.scope.maxDownloads;
    if cap.Some? && redemptionCount > cap.value {
      return Refused(403, DownloadLimitExceeded);
    }
    return Served(claims, file.value, redemptionCount);
  }

  /** An answer that comes after a slot was reserved. */
  predicate TookSlot(answer: Answer) {
    answer.Served? || answer.refusal == DownloadLimitExceeded
  }

  lemma OfflineTakesNoSlot(bpp: Bpp, signed: set<Sealed>, p: Presentation)
    ensures var stage := OfflineStage(bpp, signed, p);
            stage.Verified? || (stage.Finished? && !TookSlot(stage.answer))
  {
  }

  lemma OfflineExactly(bpp: Bpp, signed: set<Sealed>, p: Presentation, c: Claims)
    requires IsHex(bpp.issuerKey, PUBLIC_KEY_BYTES) && bpp.bppId != []
    ensures OfflineStage(bpp, signed, p) == Verified(c) <==>
            && Presents(p.grant, c, bpp.isUrl)
            && GrantSeal(bpp.issuerKey, c) in signed
            && c.notBefore - bpp.skewSeconds <= p.nowSeconds <= c.expiresAt + bpp.skewSeconds
            && c.provider.bppId == bpp.bppId
            && Covers(c, p.requested)
  {
    VerifiesExactly(signed, bpp.isUrl, p.grant, bpp.issuerKey, p.nowSeconds, bpp.bppId, p.requested, bpp.skewSeconds, c);
  }

  lemma OnlineExactly(bpp: Bpp, c: Claims, revoked: set<Text>, counts: Counts, file: File, n: nat)
    ensures OnlineOutcome(bpp, c, revoked, counts).0 == Served(c, file, n) <==>
            && c.grantId !in revoked
            && bpp.resolve(c.resource.resourceId, c.resource.offerId, c.scope.kind) == Some(file)
            && n == (if c.grantId in counts then counts[c.grantId] else 0) + 1
            && (c.scope.maxDownloads.Some? ==> n <= c.scope.maxDownloads.value)
  {
  }

  lemma OnlineCounts(bpp: Bpp, c: Claims, revoked: set<Text>, counts: Counts)
    ensures var (answer, after) := OnlineOutcome(bpp, c, revoked, counts);
            && after == (if TookSlot(answer) then CountOneMore(counts, c.grantId) else counts)
            && (answer.Served? ==> answer.claims == c && answer.redemptionCount == CountOf(after, c.grantId))
            && (TookSlot(answer) ==> (answer.Served? <==> !OverCap(c, CountOf(after, c.grantId))))
  {
  }

  /** What offline verification refuses, and with what answer. */
  lemma RefusedOffline(bpp: Bpp, signed: set<Sealed>, p: Presentation, revoked: set<Text>, counts: Counts, reason: Rejection)
    ensures bpp.issuerKey == [] ==>
            Complete(bpp, signed, p, Arrived, revoked, counts).0 == Refused(503, IssuerKeyUnconfigured)
    ensures bpp.issuerKey != [] ==>
            (Complete(bpp, signed, p, Arrived, revoked, counts).0 ==
             Refused(if reason == Malformed then 400 else 403, Offline(reason))
             <==> VerifyGrant(signed, bpp.isUrl, p.grant, bpp.issuerKey, p.nowSeconds, Some(bpp.bppId), Some(p.requested),
                              Some(bpp.skewSeconds)) == Invalid(reason))
  {
    var v := OfflineFinding(bpp, signed, p);
    FromArrived(bpp, signed, p, revoked, counts);
    RefusesFinding(bpp, v, revoked, counts, reason);
  }

  lemma RefusesFinding(bpp: Bpp, v: Verification, revoked: set<Text>, counts: Counts, reason: Rejection)
    ensures FindingStage(v) == Finished(Refused(if reason == Malformed then 400 else 403, Offline(reason)))
            <==> v == Invalid(reason)
    ensures v.Valid? ==> OnlineOutcome(bpp, v.claims, revoked, counts).0 !=
                         Refused(if reason == Malformed then 400 else 403, Offline(reason))
  {
  }

  /** What is refused after offline verification, and exactly when: the checks come in this order. */
  lemma RefusedOnline(bpp: Bpp, signed: set<Sealed>, p: Presentation, revoked: set<Text>, counts: Counts, c: Claims)
    requires OfflineStage(bpp, signed, p) == Verified(c)
    ensures var answer := Complete(bpp, signed, p, Arrived, revoked, counts).0;
            var file := bpp.resolve(c.resource.resourceId, c.resource.offerId, c.scope.kind);
            var n := (if c.grantId in counts then counts[c.grantId] else 0) + 1;
            && (answer == Refused(403, GrantRevoked) <==> c.grantId in revoked)
            && (answer == Refused(404, ResourceUnavailable) <==> c.grantId !in revoked && file == None)
            && (answer == Refused(403, DownloadLimitExceeded) <==>
                c.grantId !in revoked && file != None && c.scope.maxDownloads.Some? && n > c.scope.maxDownloads.value)
  {
    FromArrived(bpp, signed, p, revoked, counts);
  }

  /** A redemption is served if and only if both of its halves say so, for the same claims. */
  lemma ServedInTwoHalves(bpp: Bpp, signed: set<Sealed>, p: Presentation, revoked: set<Text>, counts: Counts,
                          c: Claims, file: File, n: nat)
    ensures Complete(bpp, signed, p, Arrived, revoked, counts).0 == Served(c, file, n) <==>
            OfflineStage(bpp, signed, p) == Verified(c) && OnlineOutcome(bpp, c, revoked, counts).0 == Served(c, file, n)
  {
    FromArrived(bpp, signed, p, revoked, counts);
    OfflineTakesNoSlot(bpp, signed, p);
    var stage := OfflineStage(bpp, signed, p);
    if stage.Verified? {
      OnlineCounts(bpp, stage.claims, revoked, counts);
    }
  }

  /**
   A download is served exactly when the presented JSON is a valid grant whose payload the trusted
   key signed, within its skewed window, for this provider and this request, not revoked, with a file
   to serve and a slot under its cap.
   */
  lemma ServedExactly(bpp: Bpp, signed: set<Sealed>, p: Presentation, revoked: set<Text>, counts: Counts,
                      c: Claims, file: File, n: nat)
    requires IsHex(bpp.issuerKey, PUBLIC_KEY_BYTES) && bpp.bppId != []
    ensures Complete(bpp, signed, p, Arrived, revoked, counts).0 == Served(c, file, n) <==>
            && Presents(p.grant, c, bpp.isUrl)
            && GrantSeal(bpp.issuerKey, c) in signed
            && c.notBefore - bpp.skewSeconds <= p.nowSeconds <= c.expiresAt + bpp.skewSeconds
            && c.provider.bppId == bpp.bppId
            && Covers(c, p.requested)
            && c.grantId !in revoked
            && bpp.resolve(c.resource.resourceId, c.resource.offerId, c.scope.kind) == Some(file)
            && n == (if c.grantId in counts then counts[c.grantId] else 0) + 1
            && (c.scope.maxDownloads.Some? ==> n <= c.scope.maxDownloads.value)
  {
    ServedInTwoHalves(bpp, signed, p, revoked, counts, c, file, n);
    OfflineExactly(bpp, signed, p, c);
    OnlineExactly(bpp, c, revoked, counts, file, n);
  }

  /** A refusal before the reservation moves no counter; a slot moves its grant's counter by one, served or not. */
  lemma OnlySlotsAreCounted(bpp: Bpp, signed: set<Sealed>, p: Presentation, revoked: set<Text>, counts: Counts)
    ensures var stage := OfflineStage(bpp, signed, p);
            var (answer, after) := Complete(bpp, signed, p, Arrived, revoked, counts);
            && (stage.Finished? ==> !TookSlot(answer) && after == counts)
            && (stage.Verified? ==> after == if TookSlot(answer) then CountOneMore(counts, stage.claims.grantId) else counts)
            && (answer.Served? ==> stage == Verified(answer.claims))
            && (answer.Served? ==> answer.redemptionCount == CountOf(after, answer.claims.grantId))
  {
    FromArrived(bpp, signed, p, revoked, counts);
    var stage := OfflineStage(bpp, signed, p);
    OfflineTakesNoSlot(bpp, signed, p);
    if stage.Verified? {
      OnlineCounts(bpp, stage.claims, revoked, counts);
    }
  }
}
