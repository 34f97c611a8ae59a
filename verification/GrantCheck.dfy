/** Issuing a grant, and the offline half of verifying one. */
module GrantCheck {
  import opened Texts
  import opened Json
  import opened Grants
  import opened GrantJson
  import opened Signing
  import opened Utf8
  import Utf16
  import Canonicalization

  datatype Rejection =
    | Malformed | BadSignature | NotYetValid | Expired | WrongProvider | WrongResource
    | ScopeInsufficient(overreach: seq<Text>)

  datatype Verification = Valid(claims: Claims) | Invalid(reason: Rejection)

  datatype Requested = Requested(resourceId: Text, offerId: Option<Text>, fields: Option<seq<Text>>)

  /** The issuer's side of the service: who it is and how long its grants live by default. */
  datatype Issuer = Issuer(amId: Text, issuerKeyId: Text, publicKey: Text, ttlSeconds: int, isUrl: UrlCheck)

  // ---- Issuing ----

  /** The claims `issue` builds; the two identifiers are random in the program. */
  function ClaimsFor(am: Issuer, req: IssueRequest, grantId: Text, nonce: Text, nowSeconds: int): Claims {
    var ttl := if req.ttlSeconds.Some? then req.ttlSeconds.value else am.ttlSeconds;
    Claims(grantId, am.amId, am.issuerKeyId, req.grantee, req.provider, req.resource, req.scope, req.licenseClass,
           req.purpose, req.transactionId, nowSeconds, nowSeconds, nowSeconds + ttl, true, nonce)
  }

  /** What signing a grant adds to the messages signed with the issuer's key. */
  function GrantSeal(publicKey: Text, c: Claims): Sealed {
    Sealed(LowerHex(publicKey), Encode(Payload(c)))
  }

  // ---- Verifying ----

  /** `opts.requested.fields.filter((f) => !allowed.has(f))` */
  function Overreach(fields: seq<Text>, allowed: seq<Text>): (r: seq<Text>)
    ensures forall f :: f in r <==> f in fields && f !in allowed
  {
    if fields == [] then []
    else (if fields[0] in allowed then [] else [fields[0]]) + Overreach(fields[1..], allowed)
  }

  /** `at` lists the places from `first` on of fields that are not allowed, all of them and in order. */
  predicate ListsOverreach(fields: seq<Text>, allowed: seq<Text>, first: nat, at: seq<nat>) {
    && (forall k :: 0 <= k < |at| ==> first <= at[k] < |fields| && fields[at[k]] !in allowed)
    && (forall k, l :: 0 <= k < l < |at| ==> at[k] < at[l])
    && (forall i {:trigger i in at} :: first <= i < |fields| && fields[i] !in allowed ==> i in at)
  }

  lemma OneFieldMore(fields: seq<Text>, allowed: seq<Text>, first: nat, at: seq<nat>)
    requires first < |fields| && ListsOverreach(fields, allowed, first + 1, at)
    ensures ListsOverreach(fields, allowed, first, if fields[first] in allowed then at else [first] + at)
  {
    if fields[first] !in allowed {
      var all := [first] + at;
      assert all[0] == first && forall k :: 0 < k < |all| ==> all[k] == at[k - 1];
      forall i | first <= i < |fields| && fields[i] !in allowed ensures i in all {
        assert i == first || i in at;
      }
    }
  }

  /** The filter keeps each field that is not allowed, in its order and as often as it is there. */
  lemma {:induction false} OverreachInOrder(fields: seq<Text>, allowed: seq<Text>, first: nat) returns (at: seq<nat>)
    requires first <= |fields|
    ensures ListsOverreach(fields, allowed, first, at) && |Overreach(fields[first..], allowed)| == |at|
    ensures forall k :: 0 <= k < |at| ==> Overreach(fields[first..], allowed)[k] == fields[at[k]]
    decreases |fields| - first
  {
    at := [];
    if first < |fields| {
      var rest := OverreachInOrder(fields, allowed, first + 1);
      assert fields[first..][1..] == fields[first + 1..];
      OneFieldMore(fields, allowed, first, rest);
      at := if fields[first] in allowed then rest else [first] + rest;
    }
  }

  function GrantedFields(s: Scope): seq<Text> {
    if s.fields.Some? then s.fields.value else []
  }

  /** An optional text that is present and not empty. */
  predicate Truthy(t: Option<Text>) {
    t.Some? && t.value != []
  }

  /** The checks on the request, in order: resource, offer, then the fields of a subset grant. */
  function CheckRequest(c: Claims, r: Requested): Verification {
    if c.resource.resourceId != r.resourceId then Invalid(WrongResource)
    else if Truthy(r.offerId) && c.resource.offerId != r.offerId.value then Invalid(WrongResource)
    else if c.scope.kind == Subset && r.fields.Some? && Overreach(r.fields.value, GrantedFields(c.scope)) != []
    then Invalid(ScopeInsufficient(Overreach(r.fields.value, GrantedFields(c.scope))))
    else Valid(c)
  }

  const DEFAULT_SKEW_SECONDS := 30

  /** `verifyGrant` on an untrusted value. */
  function VerifyGrant(signed: set<Sealed>, isUrl: UrlCheck, presented: Value, issuerKey: Text, nowSeconds: int,
                       expectedBppId: Option<Text>, requested: Option<Requested>, skewSeconds: Option<int>): Verification
  {
    match ReadSigned(presented, isUrl)
    case None => Invalid(Malformed)
    case Some(g) => VerifyRead(signed, g, issuerKey, nowSeconds, expectedBppId, requested, skewSeconds)
  }

  /** The checks on a grant in shape, in order. */
  function VerifyRead(signed: set<Sealed>, g: SignedGrant, issuerKey: Text, nowSeconds: int,
                      expectedBppId: Option<Text>, requested: Option<Requested>, skewSeconds: Option<int>): Verification
  {
    var c := g.claims;
    var skew := if skewSeconds.Some? then skewSeconds.value else DEFAULT_SKEW_SECONDS;
    if !VerifyCanonical(signed, g.signature, ClaimsJson(c), issuerKey) then Invalid(BadSignature)
    else if nowSeconds + skew < c.notBefore then Invalid(NotYetValid)
    else if nowSeconds - skew > c.expiresAt then Invalid(Expired)
    else if Truthy(expectedBppId) && c.provider.bppId != expectedBppId.value then Invalid(WrongProvider)
    else if requested.None? then Valid(c)
    else CheckRequest(c, requested.value)
  }

  /** The presented JSON is a well-formed grant with claims `c`. */
  ghost predicate Presents(v: Value, c: Claims, isUrl: UrlCheck) {
    exists g: SignedGrant :: g.claims == c && ValidSigned(g, isUrl) && Denote(v) == Denote(SignedJson(g))
  }

  /** The request asks for nothing beyond the grant. */
  predicate Covers(c: Claims, r: Requested) {
    && c.resource.resourceId == r.resourceId
    && (Truthy(r.offerId) ==> c.resource.offerId == r.offerId.value)
    && (c.scope.kind == Subset && r.fields.Some? ==> forall f :: f in r.fields.value ==> f in GrantedFields(c.scope))
  }

  lemma RequestCheckedExactly(c: Claims, r: Requested)
    ensures CheckRequest(c, r) == Valid(c) <==> Covers(c, r)
    ensures CheckRequest(c, r) == Valid(c) <==>
            && c.resource.resourceId == r.resourceId
            && (r.offerId == None || r.offerId == Some([]) || r.offerId == Some(c.resource.offerId))
            && (c.scope.kind == Subset && r.fields.Some? ==>
                  forall f :: f in r.fields.value ==> c.scope.fields.Some? && f in c.scope.fields.value)
  {
    if c.scope.kind == Subset && r.fields.Some? {
      var over := Overreach(r.fields.value, GrantedFields(c.scope));
      assert over != [] ==> over[0] in over;
    }
  }

  lemma ReadsExactly(presented: Value, isUrl: UrlCheck, c: Claims)
    ensures ReadSigned(presented, isUrl).Some? && ReadSigned(presented, isUrl).value.claims == c <==>
            Presents(presented, c, isUrl)
  {
    if g: SignedGrant :| g.claims == c && ValidSigned(g, isUrl) && Denote(presented) == Denote(SignedJson(g)) {
      SignedIsExact(presented, g, isUrl);
    }
    if ReadSigned(presented, isUrl).Some? {
      SignedIsExact(presented, ReadSigned(presented, isUrl).value, isUrl);
    }
  }

  lemma ChecksExactly(signed: set<Sealed>, g: SignedGrant, issuerKey: Text, nowSeconds: int,
                      bppId: Text, r: Requested, skew: int)
    requires IsHex(issuerKey, PUBLIC_KEY_BYTES) && bppId != [] && IsHex(g.signature, SIGNATURE_BYTES)
    ensures var c := g.claims;
            var v := VerifyRead(signed, g, issuerKey, nowSeconds, Some(bppId), Some(r), Some(skew));
            && (v.Valid? ==> v.claims == c)
            && (v.Valid? <==>
                  && GrantSeal(issuerKey, c) in signed
                  && c.notBefore - skew <= nowSeconds <= c.expiresAt + skew
                  && c.provider.bppId == bppId
                  && Covers(c, r))
  {
    RequestCheckedExactly(g.claims, r);
    ClaimsJsonIsJson(g.claims);
    Canonicalization.CanonicalSucceeds(ClaimsJson(g.claims));
  }

  lemma ReadSignatureIsHex(presented: Value, isUrl: UrlCheck)
    ensures ReadSigned(presented, isUrl).Some? ==> IsHex(ReadSigned(presented, isUrl).value.signature, SIGNATURE_BYTES)
  {
  }

  /**
   Offline verification accepts exactly the JSON of a valid grant whose payload the issuer's key has
   signed, within its skewed window, at its own provider and within its resource and scope.
   */
  lemma VerifiesExactly(signed: set<Sealed>, isUrl: UrlCheck, presented: Value, issuerKey: Text, nowSeconds: int,
                        bppId: Text, r: Requested, skew: int, c: Claims)
    requires IsHex(issuerKey, PUBLIC_KEY_BYTES) && bppId != []
    ensures VerifyGrant(signed, isUrl, presented, issuerKey, nowSeconds, Some(bppId), Some(r), Some(skew)) == Valid(c) <==>
            && Presents(presented, c, isUrl)
            && GrantSeal(issuerKey, c) in signed
            && c.notBefore - skew <= nowSeconds <= c.expiresAt + skew
            && c.provider.bppId == bppId
            && Covers(c, r)
  {
    ReadsExactly(presented, isUrl, c);
    match ReadSigned(presented, isUrl)
    case None =>
    case Some(g) =>
      ReadSignatureIsHex(presented, isUrl);
      ChecksExactly(signed, g, issuerKey, nowSeconds, bppId, r, skew);
  }

  /** What a verification that is given no provider, request or skew asks for. */
  lemma VerifiesByDefault(signed: set<Sealed>, isUrl: UrlCheck, presented: Value, issuerKey: Text, nowSeconds: int,
                          c: Claims)
    requires IsHex(issuerKey, PUBLIC_KEY_BYTES)
    ensures VerifyGrant(signed, isUrl, presented, issuerKey, nowSeconds, None, None, None) == Valid(c) <==>
            && Presents(presented, c, isUrl)
            && GrantSeal(issuerKey, c) in signed
            && c.notBefore - 30 <= nowSeconds <= c.expiresAt + 30
  {
    ReadsExactly(presented, isUrl, c);
    if ReadSigned(presented, isUrl).Some? {
      ReadSignatureIsHex(presented, isUrl);
      ReadByDefault(signed, ReadSigned(presented, isUrl).value, issuerKey, nowSeconds);
      GrantIsJudged(signed, isUrl, presented, ReadSigned(presented, isUrl).value, issuerKey, nowSeconds, None, None, None);
    }
  }

  lemma GrantIsJudged(signed: set<Sealed>, isUrl: UrlCheck, presented: Value, g: SignedGrant, issuerKey: Text,
                      nowSeconds: int, expectedBppId: Option<Text>, requested: Option<Requested>, skew: Option<int>)
    requires ReadSigned(presented, isUrl) == Some(g)
    ensures VerifyGrant(signed, isUrl, presented, issuerKey, nowSeconds, expectedBppId, requested, skew) ==
            VerifyRead(signed, g, issuerKey, nowSeconds, expectedBppId, requested, skew)
  {
  }

  lemma ReadByDefault(signed: set<Sealed>, g: SignedGrant, issuerKey: Text, nowSeconds: int)
    requires IsHex(issuerKey, PUBLIC_KEY_BYTES) && IsHex(g.signature, SIGNATURE_BYTES)
    ensures var c, v := g.claims, VerifyRead(signed, g, issuerKey, nowSeconds, None, None, None);
            && (v.Valid? ==> v.claims == c)
            && (v.Valid? <==> GrantSeal(issuerKey, c) in signed && c.notBefore - 30 <= nowSeconds <= c.expiresAt + 30)
  {
    SealExactly(signed, g, issuerKey);
  }

  lemma SealExactly(signed: set<Sealed>, g: SignedGrant, issuerKey: Text)
    requires IsHex(issuerKey, PUBLIC_KEY_BYTES) && IsHex(g.signature, SIGNATURE_BYTES)
    ensures VerifyCanonical(signed, g.signature, ClaimsJson(g.claims), issuerKey)
            <==> GrantSeal(issuerKey, g.claims) in signed
  {
    ClaimsJsonIsJson(g.claims);
    Canonicalization.CanonicalSucceeds(ClaimsJson(g.claims));
  }

  /** The value is in no way a grant in shape. */
  ghost predicate PresentsNothing(v: Value, isUrl: UrlCheck) {
    forall c: Claims :: !Presents(v, c, isUrl)
  }

  lemma ReadsNothingExactly(presented: Value, isUrl: UrlCheck)
    ensures ReadSigned(presented, isUrl) == None <==> PresentsNothing(presented, isUrl)
  {
    if ReadSigned(presented, isUrl).Some? {
      ReadsExactly(presented, isUrl, ReadSigned(presented, isUrl).value.claims);
    } else {
      forall c: Claims ensures !Presents(presented, c, isUrl) {
        ReadsExactly(presented, isUrl, c);
      }
    }
  }

  lemma MalformedExactly(signed: set<Sealed>, isUrl: UrlCheck, presented: Value, issuerKey: Text, nowSeconds: int,
                         expectedBppId: Option<Text>, requested: Option<Requested>, skew: Option<int>)
    ensures var v := VerifyGrant(signed, isUrl, presented, issuerKey, nowSeconds, expectedBppId, requested, skew);
            v == Invalid(Malformed) <==> PresentsNothing(presented, isUrl)
  {
    ReadsNothingExactly(presented, isUrl);
    if ReadSigned(presented, isUrl).Some? {
      var g := ReadSigned(presented, isUrl).value;
      GrantIsJudged(signed, isUrl, presented, g, issuerKey, nowSeconds, expectedBppId, requested, skew);
      ReadIsWellFormed(signed, g, issuerKey, nowSeconds, expectedBppId, requested, skew);
    }
  }

  lemma ReadIsWellFormed(signed: set<Sealed>, g: SignedGrant, issuerKey: Text, nowSeconds: int,
                         expectedBppId: Option<Text>, requested: Option<Requested>, skew: Option<int>)
    ensures VerifyRead(signed, g, issuerKey, nowSeconds, expectedBppId, requested, skew) != Invalid(Malformed)
  {
  }

  /** Each rejection of a grant in shape, and exactly when it is given: the checks come in this order. */
  lemma RejectedExactly(signed: set<Sealed>, g: SignedGrant, issuerKey: Text, now: int, bppId: Text, r: Requested, skew: int)
    requires IsHex(issuerKey, PUBLIC_KEY_BYTES) && bppId != [] && IsHex(g.signature, SIGNATURE_BYTES)
    ensures var c, v := g.claims, VerifyRead(signed, g, issuerKey, now, Some(bppId), Some(r), Some(skew));
            var inTime := c.notBefore - skew <= now <= c.expiresAt + skew;
            var resourceFits := c.resource.resourceId == r.resourceId
                                && (r.offerId == None || r.offerId == Some([]) || r.offerId == Some(c.resource.offerId));
            && (v == Invalid(BadSignature) <==> GrantSeal(issuerKey, c) !in signed)
            && (GrantSeal(issuerKey, c) in signed ==>
                && (v == Invalid(NotYetValid) <==> now < c.notBefore - skew)
                && (v == Invalid(Expired) <==> c.notBefore - skew <= now && c.expiresAt + skew < now)
                && (v == Invalid(WrongProvider) <==> inTime && c.provider.bppId != bppId)
                && (v == Invalid(WrongResource) <==> inTime && c.provider.bppId == bppId && !resourceFits)
                && (v.Invalid? && v.reason.ScopeInsufficient? ==>
                    && v.reason.overreach != [] && c.scope.kind == Subset && r.fields.Some?
                    && forall f :: f in v.reason.overreach <==>
                         f in r.fields.value && !(c.scope.fields.Some? && f in c.scope.fields.value)))
  {
    SealExactly(signed, g, issuerKey);
    RequestCheckedExactly(g.claims, r);
  }

  // ---- Only what the issuer signed ----

  /** Everything signed with the issuer's key is the payload of an issued grant. */
  ghost predicate IssuesOnly(signed: set<Sealed>, issuerKey: Text, issued: set<Claims>) {
    forall s :: s in signed && s.key == LowerHex(issuerKey) ==>
      exists c :: c in issued && WellShaped(c) && s.bytes == Encode(Payload(c))
  }

  /** A presented grant that verifies is, as JSON, one the Access Manager issued. */
  lemma VerifiedWasIssued(signed: set<Sealed>, isUrl: UrlCheck, presented: Value, issuerKey: Text, nowSeconds: int,
                          expectedBppId: Option<Text>, requested: Option<Requested>, skew: Option<int>, issued: set<Claims>)
    requires IssuesOnly(signed, issuerKey, issued)
    ensures match VerifyGrant(signed, isUrl, presented, issuerKey, nowSeconds, expectedBppId, requested, skew)
            case Valid(c) => c in issued && ValidClaims(c, isUrl) && Presents(presented, c, isUrl)
            case Invalid(_) => true
  {
    if VerifyGrant(signed, isUrl, presented, issuerKey, nowSeconds, expectedBppId, requested, skew).Valid? {
      var g := ReadSigned(presented, isUrl).value;
      SignedIsExact(presented, g, isUrl);
      SealedIsPayload(signed, g.signature, g.claims, issuerKey);
      SealedWasIssued(signed, issuerKey, issued, g.claims);
    }
  }

  /** Verifying claims against the signature finds their payload among the signed messages. */
  lemma SealedIsPayload(signed: set<Sealed>, signature: Text, c: Claims, issuerKey: Text)
    requires VerifyCanonical(signed, signature, ClaimsJson(c), issuerKey)
    ensures GrantSeal(issuerKey, c) in signed
  {
    ClaimsJsonIsJson(c);
    Canonicalization.CanonicalSucceeds(ClaimsJson(c));
  }

  /** The signed bytes of two claims differ when the claims do. */
  lemma PayloadEncodesInjectively(c: Claims, d: Claims)
    requires WellShaped(c) && WellShaped(d)
    ensures Encode(Payload(c)) == Encode(Payload(d)) <==> c == d
  {
    PayloadIsWellPaired(c);
    PayloadIsWellPaired(d);
    ScrubFixesWellPaired(Payload(c));
    ScrubFixesWellPaired(Payload(d));
    EncodeIsExact(Payload(c), Payload(d));
    PayloadIsInjective(c, d);
  }

  lemma PayloadIsWellPaired(c: Claims)
    ensures Utf16.WellPaired(Payload(c))
  {
    ClaimsJsonIsJson(c);
    Canonicalization.CanonicalSucceeds(ClaimsJson(c));
    Utf16.CanonicalIsWellPaired(ClaimsJson(c));
  }

  lemma SealedWasIssued(signed: set<Sealed>, issuerKey: Text, issued: set<Claims>, c: Claims)
    requires IssuesOnly(signed, issuerKey, issued) && GrantSeal(issuerKey, c) in signed && WellShaped(c)
    ensures c in issued
  {
    var d :| d in issued && WellShaped(d) && GrantSeal(issuerKey, c).bytes == Encode(Payload(d));
    PayloadEncodesInjectively(c, d);
  }

  /** A grant that verifies is in its window, for this provider, and covers the request. */
  lemma VerifiedIsInBounds(signed: set<Sealed>, isUrl: UrlCheck, presented: Value, issuerKey: Text, nowSeconds: int,
                           bppId: Text, r: Requested, skew: int)
    ensures match VerifyGrant(signed, isUrl, presented, issuerKey, nowSeconds, Some(bppId), Some(r), Some(skew))
            case Valid(c) =>
              && c.notBefore - skew <= nowSeconds <= c.expiresAt + skew
              && (bppId != [] ==> c.provider.bppId == bppId)
              && Covers(c, r)
            case Invalid(_) => true
  {
    if VerifyGrant(signed, isUrl, presented, issuerKey, nowSeconds, Some(bppId), Some(r), Some(skew)).Valid? {
      RequestCheckedExactly(ReadSigned(presented, isUrl).value.claims, r);
    }
  }

  /**
   A grant issued at `t0` for a positive lifetime verifies at its own provider, for its own resource
   and offer, exactly from `t0 - skew` to `t0 + ttl + skew` and, for a subset grant whose request
   names fields, when all of them were granted.
   */
  lemma IssuedGrantVerifies(am: Issuer, req: IssueRequest, grantId: Text, nonce: Text, t0: int, signature: Text,
                            signed: set<Sealed>, presented: Value, now: int, fields: Option<seq<Text>>, skew: int)
    requires var c := ClaimsFor(am, req, grantId, nonce, t0);
             && ValidClaims(c, am.isUrl) && IsSignatureText(signature) && GrantSeal(am.publicKey, c) in signed
             && Denote(presented) == Denote(SignedJson(SignedGrant(c, signature)))
    requires IsHex(am.publicKey, PUBLIC_KEY_BYTES)
    ensures var ttl := if req.ttlSeconds.Some? then req.ttlSeconds.value else am.ttlSeconds;
            var r := Requested(req.resource.resourceId, Some(req.resource.offerId), fields);
            VerifyGrant(signed, am.isUrl, presented, am.publicKey, now, Some(req.provider.bppId), Some(r), Some(skew)) ==
              Valid(ClaimsFor(am, req, grantId, nonce, t0)) <==>
            && t0 - skew <= now <= t0 + ttl + skew
            && (req.scope.kind == Subset && fields.Some? ==>
                  forall f :: f in fields.value ==> f in GrantedFields(req.scope))
  {
    var c := ClaimsFor(am, req, grantId, nonce, t0);
    var r := Requested(req.resource.resourceId, Some(req.resource.offerId), fields);
    assert ValidSigned(SignedGrant(c, signature), am.isUrl);
    VerifiesExactly(signed, am.isUrl, presented, am.publicKey, now, req.provider.bppId, r, skew, c);
  }
}
