/** The grant schema reads exactly the JSON of valid grants, in any key order. */
module GrantJson {
  import opened Texts
  import opened Json
  import opened FieldNames
  import opened Grants
  import opened Canonicalization
  import opened Signing

  // ---- Maps and entry lists ----

  ghost predicate Lists(es: seq<Entry>, k: Text) {
    exists i :: 0 <= i < |es| && es[i].key == k
  }

  lemma EntriesOfMap(es: seq<Entry>)
    requires DistinctKeys(es)
    ensures forall i :: 0 <= i < |es| ==>
              es[i].key in DenoteEntries(es) && DenoteEntries(es)[es[i].key] == Denote(es[i].val)
    ensures forall k :: k in DenoteEntries(es) <==> Lists(es, k)
  {
    forall i | 0 <= i < |es|
      ensures es[i].key in DenoteEntries(es) && DenoteEntries(es)[es[i].key] == Denote(es[i].val)
    {
      DenoteEntriesAt(es, i);
    }
    forall k ensures k in DenoteEntries(es) <==> Lists(es, k) {
      DenoteEntriesKeys(es, k);
    }
  }

  /** An object is denoted by the map that has its entries and nothing else. */
  lemma MapOfEntries(m: map<Text, Data>, es: seq<Entry>)
    requires DistinctKeys(es)
    requires forall k :: k in m ==> Lists(es, k)
    requires forall i :: 0 <= i < |es| ==> es[i].key in m && m[es[i].key] == Denote(es[i].val)
    ensures m == DenoteEntries(es)
  {
    EntriesOfMap(es);
    forall k | k in DenoteEntries(es) ensures k in m && m[k] == DenoteEntries(es)[k] {
      assert Lists(es, k);
      var i :| 0 <= i < |es| && es[i].key == k;
    }
  }

  lemma DenoteOfTexts(ts: seq<Text>)
    ensures |DenoteItems(TextItems(ts))| == |ts|
    ensures forall i :: 0 <= i < |ts| ==> DenoteItems(TextItems(ts))[i] == DStr(ts[i])
  {
    forall i | 0 <= i < |ts| ensures DenoteItems(TextItems(ts))[i] == DStr(ts[i]) {
      DenoteItemsAt(TextItems(ts), i);
    }
  }

  // ---- Grantee, provider, resource ----

  lemma PairIsExact(d: Data, first: Text, second: Text, a: Text, b: Text)
    requires first != second
    ensures ReadTextPair(d, first, second) == Some((a, b)) <==>
            d == Denote(Obj([Entry(first, Str(a)), Entry(second, Str(b))]))
  {
    var es := [Entry(first, Str(a)), Entry(second, Str(b))];
    assert es[0].key == first && es[1].key == second;
    MapOfEntries(map[first := DStr(a), second := DStr(b)], es);
    if ReadTextPair(d, first, second) == Some((a, b)) {
      assert d.fields == DenoteEntries(es);
    }
  }

  lemma GranteeIsExact(d: Data, g: Grantee)
    ensures ReadGrantee(d) == Some(g) <==> d == Denote(GranteeJson(g))
  {
    var es := GranteeJson(g).entries;
    assert ID != PUBLIC_KEY by { assert |ID| != |PUBLIC_KEY|; }
    if g.publicKey.Some? {
      assert es[0].key == ID && es[1].key == PUBLIC_KEY;
      MapOfEntries(map[ID := DStr(g.id), PUBLIC_KEY := DStr(g.publicKey.value)], es);
    } else {
      assert DenoteEntries(es) == map[ID := DStr(g.id)];
    }
    if ReadGrantee(d) == Some(g) {
      assert d.fields == DenoteEntries(es);
    }
  }

  // ---- Scope ----

  lemma ScopeNamesDiffer()
    ensures KIND != FIELDS && KIND != MAX_DOWNLOADS && FIELDS != MAX_DOWNLOADS
    ensures FULL != SAMPLE && FULL != SUBSET && SAMPLE != SUBSET
  {
    assert |KIND| == 4 && |FIELDS| == 6 && |MAX_DOWNLOADS| == 12;
    assert |FULL| == 4 && SAMPLE[1] != SUBSET[1];
  }

  lemma KindIsExact(d: Data, k: ScopeKind)
    ensures ReadKind(d) == Some(k) <==> d == DStr(KindName(k))
  {
    ScopeNamesDiffer();
  }

  lemma LicenseIsExact(d: Data, l: LicenseClass)
    ensures ReadLicense(d) == Some(l) <==> d == DStr(LicenseName(l))
  {
    assert |PERMISSIVE| == 10 && |RESEARCH_ONLY| == 13 && |NO_REDISTRIBUTION| == 17;
  }

  lemma FieldListIsExact(d: Data, ts: seq<Text>)
    ensures d.DList? && AllText(d.items) && ReadTexts(d.items) == ts <==> d == Denote(Arr(TextItems(ts)))
  {
    DenoteOfTexts(ts);
    if d.DList? && AllText(d.items) && ReadTexts(d.items) == ts {
      forall i | 0 <= i < |ts| ensures d.items[i] == DenoteItems(TextItems(ts))[i] {
        assert ReadTexts(d.items)[i] == ts[i];
      }
      assert d.items == DenoteItems(TextItems(ts));
    }
    if d == Denote(Arr(TextItems(ts))) {
      assert ReadTexts(d.items) == ts;
    }
  }

  function ScopeMap(s: Scope): map<Text, Data> {
    var kind := map[KIND := DStr(KindName(s.kind))];
    var fields := if s.fields.Some? then kind[FIELDS := Denote(Arr(TextItems(s.fields.value)))] else kind;
    if s.maxDownloads.Some? then fields[MAX_DOWNLOADS := DNum(s.maxDownloads.value)] else fields
  }

  lemma ScopeDenotesMap(s: Scope)
    ensures Denote(ScopeJson(s)) == DMap(ScopeMap(s))
  {
    ScopeNamesDiffer();
    var es := ScopeJson(s).entries;
    assert es[0] == Entry(KIND, Str(KindName(s.kind)));
    if s.fields.Some? {
      assert es[1] == Entry(FIELDS, Arr(TextItems(s.fields.value)));
    }
    if s.maxDownloads.Some? {
      assert es[|es| - 1] == Entry(MAX_DOWNLOADS, Num(s.maxDownloads.value));
    }
    MapOfEntries(ScopeMap(s), es);
  }

  lemma ScopeIsExact(d: Data, s: Scope)
    ensures ReadScope(d) == Some(s) <==> d == Denote(ScopeJson(s))
  {
    ScopeDenotesMap(s);
    ScopeNamesDiffer();
    if ReadScope(d) == Some(s) {
      KindIsExact(d.fields[KIND], s.kind);
      if s.fields.Some? {
        FieldListIsExact(d.fields[FIELDS], s.fields.value);
      }
      assert d.fields == ScopeMap(s);
    }
    if d == DMap(ScopeMap(s)) {
      KindIsExact(d.fields[KIND], s.kind);
      if s.fields.Some? {
        FieldListIsExact(d.fields[FIELDS], s.fields.value);
      }
    }
  }

  // ---- Claims ----

  lemma ClaimEntryKeys(c: Claims)
    ensures |ClaimEntries(c)| == |CLAIM_NAMES|
    ensures forall i :: 0 <= i < |CLAIM_NAMES| ==> ClaimEntries(c)[i].key == CLAIM_NAMES[i]
    ensures DistinctKeys(ClaimEntries(c))
  {
    ClaimNamesAreDistinct();
  }

  /** A map with exactly the claim names as keys. */
  predicate HasClaimNames(m: map<Text, Data>) {
    m.Keys == (set k | k in CLAIM_NAMES)
  }

  lemma ClaimsDenoteNames(c: Claims)
    ensures HasClaimNames(DenoteEntries(ClaimEntries(c)))
    ensures forall i :: 0 <= i < |CLAIM_NAMES| ==>
              At(DenoteEntries(ClaimEntries(c)), CLAIM_NAMES[i]) == Denote(ClaimEntries(c)[i].val)
  {
    var es := ClaimEntries(c);
    ClaimEntryKeys(c);
    EntriesOfMap(es);
    forall k ensures k in DenoteEntries(es) <==> k in CLAIM_NAMES {
      if k in CLAIM_NAMES {
        var i :| 0 <= i < |CLAIM_NAMES| && CLAIM_NAMES[i] == k;
        assert es[i].key == k;
      }
    }
  }

  lemma ClaimsFromMap(m: map<Text, Data>, c: Claims)
    requires HasClaimNames(m)
    requires forall i :: 0 <= i < |CLAIM_NAMES| ==> At(m, CLAIM_NAMES[i]) == Denote(ClaimEntries(c)[i].val)
    ensures m == DenoteEntries(ClaimEntries(c))
  {
    var es := ClaimEntries(c);
    ClaimEntryKeys(c);
    forall i | 0 <= i < |es| ensures es[i].key in m && m[es[i].key] == Denote(es[i].val) {
      assert CLAIM_NAMES[i] in CLAIM_NAMES;
    }
    forall k | k in m ensures Lists(es, k) {
      var i :| 0 <= i < |CLAIM_NAMES| && CLAIM_NAMES[i] == k;
      assert es[i].key == k;
    }
    MapOfEntries(m, es);
  }

  /** The meanings of the claims in schema order, given those of the structured ones. */
  function ClaimValuesWith(c: Claims, grantee: Data, provider: Data, resource: Data, scope: Data): seq<Data> {
    [DStr(GRANT_VERSION), DStr(c.grantId), DStr(c.issuer), DStr(c.issuerKeyId), grantee, provider, resource, scope,
     DStr(LicenseName(c.licenseClass)), DStr(c.purpose), DStr(c.transactionId), DNum(c.issuedAt),
     DNum(c.notBefore), DNum(c.expiresAt), DBool(c.revocable), DStr(c.nonce)]
  }

  function ClaimValues(c: Claims): seq<Data> {
    ClaimValuesWith(c, Denote(GranteeJson(c.grantee)), Denote(ProviderJson(c.provider)),
                    Denote(ResourceJson(c.resource)), Denote(ScopeJson(c.scope)))
  }

  lemma ClaimValuesAt(c: Claims, i: nat)
    requires i < |CLAIM_NAMES|
    ensures |ClaimValues(c)| == |CLAIM_NAMES| && ClaimValues(c)[i] == Denote(ClaimEntries(c)[i].val)
  {
  }

  /** The claims of a map, by name. */
  predicate ValuesByName(m: map<Text, Data>, v: seq<Data>)
    requires |v| == |CLAIM_NAMES|
  {
    && At(m, VERSION_KEY) == v[0] && At(m, GRANT_ID) == v[1] && At(m, ISSUER) == v[2] && At(m, ISSUER_KEY_ID) == v[3]
    && At(m, GRANTEE) == v[4] && At(m, PROVIDER) == v[5] && At(m, RESOURCE) == v[6] && At(m, SCOPE) == v[7]
    && At(m, LICENSE_CLASS) == v[8] && At(m, PURPOSE) == v[9] && At(m, TRANSACTION_ID) == v[10]
    && At(m, ISSUED_AT) == v[11] && At(m, NOT_BEFORE) == v[12] && At(m, EXPIRES_AT) == v[13]
    && At(m, REVOCABLE) == v[14] && At(m, NONCE) == v[15]
  }

  lemma ByNameIsByIndex(m: map<Text, Data>, v: seq<Data>)
    requires |v| == |CLAIM_NAMES|
    ensures ValuesByName(m, v) <==> forall i :: 0 <= i < |CLAIM_NAMES| ==> At(m, CLAIM_NAMES[i]) == v[i]
  {
    if forall i :: 0 <= i < |CLAIM_NAMES| ==> At(m, CLAIM_NAMES[i]) == v[i] {
      assert At(m, CLAIM_NAMES[0]) == v[0] && At(m, CLAIM_NAMES[1]) == v[1] && At(m, CLAIM_NAMES[2]) == v[2];
      assert At(m, CLAIM_NAMES[3]) == v[3] && At(m, CLAIM_NAMES[4]) == v[4] && At(m, CLAIM_NAMES[5]) == v[5];
      assert At(m, CLAIM_NAMES[6]) == v[6] && At(m, CLAIM_NAMES[7]) == v[7] && At(m, CLAIM_NAMES[8]) == v[8];
      assert At(m, CLAIM_NAMES[9]) == v[9] && At(m, CLAIM_NAMES[10]) == v[10] && At(m, CLAIM_NAMES[11]) == v[11];
      assert At(m, CLAIM_NAMES[12]) == v[12] && At(m, CLAIM_NAMES[13]) == v[13] && At(m, CLAIM_NAMES[14]) == v[14];
      assert At(m, CLAIM_NAMES[15]) == v[15];
    }
  }

  predicate ClaimsAt(m: map<Text, Data>, c: Claims) {
    ValuesByName(m, ClaimValues(c))
  }

  lemma ClaimsAtByIndex(m: map<Text, Data>, c: Claims)
    ensures ClaimsAt(m, c) <==>
            forall i :: 0 <= i < |CLAIM_NAMES| ==> At(m, CLAIM_NAMES[i]) == Denote(ClaimEntries(c)[i].val)
  {
    ByNameIsByIndex(m, ClaimValues(c));
    forall i | 0 <= i < |CLAIM_NAMES| ensures ClaimValues(c)[i] == Denote(ClaimEntries(c)[i].val) {
      ClaimValuesAt(c, i);
    }
  }

  lemma AssembleIsExact(m: map<Text, Data>, g: Option<Grantee>, p: Option<(Text, Text)>, r: Option<(Text, Text)>,
                        s: Option<Scope>, l: Option<LicenseClass>, c: Claims)
    ensures Assemble(m, g, p, r, s, l) == Some(c) <==>
            && WellShaped(c) && g == Some(c.grantee) && s == Some(c.scope) && l == Some(c.licenseClass)
            && p == Some((c.provider.bppId, c.provider.bppUri)) && r == Some((c.resource.resourceId, c.resource.offerId))
            && At(m, VERSION_KEY) == DStr(GRANT_VERSION) && At(m, GRANT_ID) == DStr(c.grantId)
            && At(m, ISSUER) == DStr(c.issuer) && At(m, ISSUER_KEY_ID) == DStr(c.issuerKeyId)
            && At(m, PURPOSE) == DStr(c.purpose) && At(m, TRANSACTION_ID) == DStr(c.transactionId)
            && At(m, ISSUED_AT) == DNum(c.issuedAt) && At(m, NOT_BEFORE) == DNum(c.notBefore)
            && At(m, EXPIRES_AT) == DNum(c.expiresAt) && At(m, REVOCABLE) == DBool(c.revocable)
            && At(m, NONCE) == DStr(c.nonce)
  {
  }

  lemma ProviderIsExact(d: Data, p: Provider)
    ensures ReadTextPair(d, BPP_ID, BPP_URI) == Some((p.bppId, p.bppUri)) <==> d == Denote(ProviderJson(p))
  {
    assert |BPP_ID| != |BPP_URI|;
    PairIsExact(d, BPP_ID, BPP_URI, p.bppId, p.bppUri);
  }

  lemma ResourceIsExact(d: Data, r: Resource)
    ensures ReadTextPair(d, RESOURCE_ID, OFFER_ID) == Some((r.resourceId, r.offerId)) <==> d == Denote(ResourceJson(r))
  {
    assert |RESOURCE_ID| != |OFFER_ID|;
    PairIsExact(d, RESOURCE_ID, OFFER_ID, r.resourceId, r.offerId);
  }

  lemma AssembleByName(m: map<Text, Data>, g: Option<Grantee>, p: Option<(Text, Text)>, r: Option<(Text, Text)>,
                       s: Option<Scope>, l: Option<LicenseClass>, c: Claims,
                       grantee: Data, provider: Data, resource: Data, scope: Data)
    requires g == Some(c.grantee) <==> At(m, GRANTEE) == grantee
    requires p == Some((c.provider.bppId, c.provider.bppUri)) <==> At(m, PROVIDER) == provider
    requires r == Some((c.resource.resourceId, c.resource.offerId)) <==> At(m, RESOURCE) == resource
    requires s == Some(c.scope) <==> At(m, SCOPE) == scope
    requires l == Some(c.licenseClass) <==> At(m, LICENSE_CLASS) == DStr(LicenseName(c.licenseClass))
    ensures Assemble(m, g, p, r, s, l) == Some(c) <==>
            WellShaped(c) && ValuesByName(m, ClaimValuesWith(c, grantee, provider, resource, scope))
  {
    AssembleIsExact(m, g, p, r, s, l, c);
  }

  lemma ReadShapeByName(d: Data, c: Claims)
    ensures ReadShape(d) == Some(c) <==>
            WellShaped(c) && d.DMap? && HasClaimNames(d.fields) && ClaimsAt(d.fields, c)
  {
    if d.DMap? {
      var m := d.fields;
      GranteeIsExact(At(m, GRANTEE), c.grantee);
      ScopeIsExact(At(m, SCOPE), c.scope);
      LicenseIsExact(At(m, LICENSE_CLASS), c.licenseClass);
      ProviderIsExact(At(m, PROVIDER), c.provider);
      ResourceIsExact(At(m, RESOURCE), c.resource);
      AssembleByName(m, ReadGrantee(At(m, GRANTEE)), ReadTextPair(At(m, PROVIDER), BPP_ID, BPP_URI),
                     ReadTextPair(At(m, RESOURCE), RESOURCE_ID, OFFER_ID), ReadScope(At(m, SCOPE)),
                     ReadLicense(At(m, LICENSE_CLASS)), c,
                     Denote(GranteeJson(c.grantee)), Denote(ProviderJson(c.provider)),
                     Denote(ResourceJson(c.resource)), Denote(ScopeJson(c.scope)));
    }
  }

  function ClaimsMap(c: Claims): map<Text, Data> {
    DenoteEntries(ClaimEntries(c))
  }

  lemma ClaimsMapByName(m: map<Text, Data>, c: Claims)
    ensures HasClaimNames(m) && ClaimsAt(m, c) <==> m == ClaimsMap(c)
  {
    ClaimsAtByIndex(m, c);
    if HasClaimNames(m) && ClaimsAt(m, c) {
      ClaimsFromMap(m, c);
    }
    if m == ClaimsMap(c) {
      ClaimsDenoteNames(c);
    }
  }

  lemma ClaimsDenoteMap(c: Claims)
    ensures Denote(ClaimsJson(c)) == DMap(ClaimsMap(c))
  {
  }

  lemma ShapeIsExact(d: Data, c: Claims)
    ensures ReadShape(d) == Some(c) <==> WellShaped(c) && d == Denote(ClaimsJson(c))
  {
    ReadShapeByName(d, c);
    ClaimsDenoteMap(c);
    if d.DMap? {
      ClaimsMapByName(d.fields, c);
    }
  }

  /** The claims schema accepts exactly the JSON objects of valid claims. */
  lemma ClaimsAreExact(d: Data, c: Claims, isUrl: UrlCheck)
    ensures ReadClaims(d, isUrl) == Some(c) <==> ValidClaims(c, isUrl) && d == Denote(ClaimsJson(c))
  {
    ShapeIsExact(d, c);
  }

  /** Hexadecimal groups of 8, 4, 4, 4 and 12 digits with dashes between them. */
  ghost predicate HasUuidGroups(s: Text) {
    exists a, b, c, d, e ::
      s == a + [MINUS] + b + [MINUS] + c + [MINUS] + d + [MINUS] + e
      && IsHex(a, 4) && IsHex(b, 2) && IsHex(c, 2) && IsHex(d, 2) && IsHex(e, 6)
  }

  lemma UuidExactly(s: Text)
    ensures IsUuid(s) <==> HasUuidGroups(s)
  {
    if IsUuid(s) {
      GroupsOfUuid(s);
    }
    if HasUuidGroups(s) {
      var a, b, c, d, e :| s == a + [MINUS] + b + [MINUS] + c + [MINUS] + d + [MINUS] + e
                           && IsHex(a, 4) && IsHex(b, 2) && IsHex(c, 2) && IsHex(d, 2) && IsHex(e, 6);
      UuidOfGroups(a, b, c, d, e);
    }
  }

  lemma GroupsOfUuid(s: Text)
    requires IsUuid(s)
    ensures HasUuidGroups(s)
  {
    var a, b, c, d, e := s[..8], s[9..13], s[14..18], s[19..23], s[24..];
    assert s == a + [MINUS] + b + [MINUS] + c + [MINUS] + d + [MINUS] + e;
    assert IsHex(a, 4) && IsHex(b, 2) && IsHex(c, 2) && IsHex(d, 2) && IsHex(e, 6);
  }

  lemma UuidOfGroups(a: Text, b: Text, c: Text, d: Text, e: Text)
    requires IsHex(a, 4) && IsHex(b, 2) && IsHex(c, 2) && IsHex(d, 2) && IsHex(e, 6)
    ensures IsUuid(a + [MINUS] + b + [MINUS] + c + [MINUS] + d + [MINUS] + e)
  {
    var s := a + [MINUS] + b + [MINUS] + c + [MINUS] + d + [MINUS] + e;
    assert |s| == 36 && s[8] == MINUS && s[13] == MINUS && s[18] == MINUS && s[23] == MINUS;
    assert s[..8] == a && s[9..13] == b && s[14..18] == c && s[19..23] == d && s[24..] == e;
  }

  /** What the schema asks of each claim. */
  lemma SchemaAsks(c: Claims, isUrl: UrlCheck)
    ensures ReadClaims(Denote(ClaimsJson(c)), isUrl) == Some(c) <==>
            && HasUuidGroups(c.grantId) && HasUuidGroups(c.transactionId)
            && c.issuer != [] && c.issuerKeyId != [] && c.grantee.id != [] && c.purpose != [] && c.nonce != []
            && c.provider.bppId != [] && isUrl(c.provider.bppUri)
            && c.resource.resourceId != [] && c.resource.offerId != []
            && c.scope.fields != Some([]) && (c.scope.kind == Subset ==> c.scope.fields != None)
            && (c.scope.maxDownloads.Some? ==> c.scope.maxDownloads.value >= 1)
            && 0 <= c.issuedAt && 0 <= c.notBefore <= c.expiresAt
  {
    ClaimsAreExact(Denote(ClaimsJson(c)), c, isUrl);
    UuidExactly(c.grantId);
    UuidExactly(c.transactionId);
  }

  lemma SignedNamesDiffer()
    ensures CLAIMS != ALG && CLAIMS != SIGNATURE && ALG != SIGNATURE
  {
    assert |CLAIMS| == 6 && |ALG| == 3 && |SIGNATURE| == 9;
  }

  lemma SignedDenotesMap(g: SignedGrant)
    ensures Denote(SignedJson(g)) ==
            DMap(map[CLAIMS := Denote(ClaimsJson(g.claims)), ALG := DStr(ED25519), SIGNATURE := DStr(g.signature)])
  {
    var es := SignedJson(g).entries;
    SignedNamesDiffer();
    assert es[0].key == CLAIMS && es[1].key == ALG && es[2].key == SIGNATURE;
    MapOfEntries(map[CLAIMS := Denote(ClaimsJson(g.claims)), ALG := DStr(ED25519), SIGNATURE := DStr(g.signature)], es);
  }

  lemma SignedMapIsExact(d: Data, claims: Data, signature: Text)
    ensures d == DMap(map[CLAIMS := claims, ALG := DStr(ED25519), SIGNATURE := DStr(signature)]) <==>
            d.DMap? && d.fields.Keys == {CLAIMS, ALG, SIGNATURE} && d.fields[ALG] == DStr(ED25519)
            && d.fields[SIGNATURE] == DStr(signature) && d.fields[CLAIMS] == claims
  {
    SignedNamesDiffer();
    var m := map[CLAIMS := claims, ALG := DStr(ED25519), SIGNATURE := DStr(signature)];
    assert m.Keys == {CLAIMS, ALG, SIGNATURE};
    if d.DMap? && d.fields.Keys == {CLAIMS, ALG, SIGNATURE} && d.fields[ALG] == DStr(ED25519)
       && d.fields[SIGNATURE] == DStr(signature) && d.fields[CLAIMS] == claims {
      assert d.fields == m;
    }
  }

  /** Signatures are 128 hexadecimal digits, the letters among them in lower case. */
  lemma SignatureTextExactly(s: Text)
    ensures IsSignatureText(s) <==> IsHex(s, 64) && forall i :: 0 <= i < |s| ==> !('A' as int <= s[i] <= 'F' as int)
  {
  }

  /** The signed-grant schema accepts exactly the JSON of valid signed grants, in any key order. */
  lemma SignedIsExact(v: Value, g: SignedGrant, isUrl: UrlCheck)
    ensures ReadSigned(v, isUrl) == Some(g) <==> ValidSigned(g, isUrl) && Denote(v) == Denote(SignedJson(g))
  {
    var d := Denote(v);
    SignedDenotesMap(g);
    SignedMapIsExact(d, Denote(ClaimsJson(g.claims)), g.signature);
    if d.DMap? && CLAIMS in d.fields {
      ClaimsAreExact(d.fields[CLAIMS], g.claims, isUrl);
    }
  }

  // ---- The payload that is signed ----

  predicate IsJson(v: Value) {
    WellFormed(v) && Serializable(v)
  }

  lemma ScopeIsJson(s: Scope)
    ensures IsJson(ScopeJson(s))
  {
    ScopeNamesDiffer();
    var es := ScopeJson(s).entries;
    assert es[0] == Entry(KIND, Str(KindName(s.kind)));
    if s.fields.Some? {
      assert es[1] == Entry(FIELDS, Arr(TextItems(s.fields.value)));
      forall i | 0 <= i < |s.fields.value| ensures IsJson(TextItems(s.fields.value)[i]) {
      }
    }
    if s.maxDownloads.Some? {
      assert es[|es| - 1] == Entry(MAX_DOWNLOADS, Num(s.maxDownloads.value));
    }
    forall i | 0 <= i < |es| ensures IsJson(es[i].val) {
    }
  }

  lemma ClaimPartsAreJson(c: Claims)
    ensures IsJson(GranteeJson(c.grantee)) && IsJson(ScopeJson(c.scope))
    ensures IsJson(ProviderJson(c.provider)) && IsJson(ResourceJson(c.resource))
  {
    ScopeIsJson(c.scope);
    assert |BPP_ID| != |BPP_URI| && |RESOURCE_ID| != |OFFER_ID| && |ID| != |PUBLIC_KEY|;
  }

  lemma ClaimsJsonIsJson(c: Claims)
    ensures IsJson(ClaimsJson(c))
  {
    ClaimEntryKeys(c);
    ClaimPartsAreJson(c);
    forall i | 0 <= i < |ClaimEntries(c)| ensures IsJson(ClaimEntries(c)[i].val) {
    }
  }

  /** `grantSigningPayload`. */
  function Payload(c: Claims): Text {
    ClaimsJsonIsJson(c);
    CanonicalSucceeds(ClaimsJson(c));
    Canonical(ClaimsJson(c)).value
  }

  /** Different claims in shape have different signing payloads. */
  lemma PayloadIsInjective(c: Claims, d: Claims)
    requires WellShaped(c) && WellShaped(d)
    ensures Payload(c) == Payload(d) <==> c == d
  {
    if Payload(c) == Payload(d) {
      ClaimsJsonIsJson(c);
      ClaimsJsonIsJson(d);
      CanonicalSucceeds(ClaimsJson(c));
      CanonicalSucceeds(ClaimsJson(d));
      CanonicalIsExact(ClaimsJson(c), ClaimsJson(d));
      ShapeIsExact(Denote(ClaimsJson(c)), c);
      ShapeIsExact(Denote(ClaimsJson(d)), d);
    }
  }
}
