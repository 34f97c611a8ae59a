/** The Access Grant: its claims, their schema, their JSON form and its reader. */
module Grants {
  import opened Texts
  import opened Json
  import opened FieldNames
  import opened Signing

  datatype ScopeKind = Full | Sample | Subset

  datatype Scope = Scope(kind: ScopeKind, fields: Option<seq<Text>>, maxDownloads: Option<int>)

  datatype LicenseClass = Permissive | ResearchOnly | NoRedistribution

  datatype Grantee = Grantee(id: Text, publicKey: Option<Text>)

  datatype Provider = Provider(bppId: Text, bppUri: Text)

  datatype Resource = Resource(resourceId: Text, offerId: Text)

  datatype Claims = Claims(
    grantId: Text, issuer: Text, issuerKeyId: Text, grantee: Grantee, provider: Provider,
    resource: Resource, scope: Scope, licenseClass: LicenseClass, purpose: Text, transactionId: Text,
    issuedAt: int, notBefore: int, expiresAt: int, revocable: bool, nonce: Text)

  datatype SignedGrant = SignedGrant(claims: Claims, signature: Text)

  datatype IssueRequest = IssueRequest(
    grantee: Grantee, provider: Provider, resource: Resource, scope: Scope, licenseClass: LicenseClass,
    purpose: Text, transactionId: Text, ttlSeconds: Option<int>)

  // ---- The schema ----

  /** Hexadecimal groups of 8, 4, 4, 4 and 12 digits. */
  predicate IsUuid(s: Text) {
    |s| == 36 && forall i :: 0 <= i < 36 ==>
      if i == 8 || i == 13 || i == 18 || i == 23 then s[i] == MINUS else IsHexUnit(s[i])
  }

  predicate ValidScope(s: Scope) {
    && (s.fields.Some? ==> s.fields.value != [])
    && (s.maxDownloads.Some? ==> s.maxDownloads.value > 0)
    && (s.kind == Subset ==> s.fields.Some?)
  }

  /** Whether the schema library takes a text for a URL. */
  type UrlCheck = Text -> bool

  /** Everything the schema asks of claims but for the syntax of their URL. */
  predicate WellShaped(c: Claims) {
    && IsUuid(c.grantId) && c.issuer != [] && c.issuerKeyId != [] && c.grantee.id != []
    && c.provider.bppId != [] && c.resource.resourceId != [] && c.resource.offerId != []
    && ValidScope(c.scope) && c.purpose != [] && IsUuid(c.transactionId)
    && c.issuedAt >= 0 && c.notBefore >= 0 && c.expiresAt >= 0 && c.nonce != []
    && c.notBefore <= c.expiresAt
  }

  predicate ValidClaims(c: Claims, isUrl: UrlCheck) {
    WellShaped(c) && isUrl(c.provider.bppUri)
  }

  /** 128 lower-case hexadecimal digits. */
  predicate IsSignatureText(s: Text) {
    |s| == 128 && forall i :: 0 <= i < 128 ==> IsDigit(s[i]) || 97 <= s[i] <= 102
  }

  predicate ValidSigned(g: SignedGrant, isUrl: UrlCheck) {
    ValidClaims(g.claims, isUrl) && IsSignatureText(g.signature)
  }

  // ---- The JSON form ----

  function KindName(k: ScopeKind): Text {
    match k
    case Full => FULL
    case Sample => SAMPLE
    case Subset => SUBSET
  }

  function LicenseName(l: LicenseClass): Text {
    match l
    case Permissive => PERMISSIVE
    case ResearchOnly => RESEARCH_ONLY
    case NoRedistribution => NO_REDISTRIBUTION
  }

  function TextItems(ts: seq<Text>): (r: seq<Value>)
    ensures |r| == |ts| && forall i :: 0 <= i < |ts| ==> r[i] == Str(ts[i])
  {
    seq(|ts|, i requires 0 <= i < |ts| => Str(ts[i]))
  }

  function ScopeJson(s: Scope): Value {
    Obj([Entry(KIND, Str(KindName(s.kind)))]
        + (if s.fields.Some? then [Entry(FIELDS, Arr(TextItems(s.fields.value)))] else [])
        + (if s.maxDownloads.Some? then [Entry(MAX_DOWNLOADS, Num(s.maxDownloads.value))] else []))
  }

  function GranteeJson(g: Grantee): Value {
    Obj([Entry(ID, Str(g.id))] + (if g.publicKey.Some? then [Entry(PUBLIC_KEY, Str(g.publicKey.value))] else []))
  }

  function ProviderJson(p: Provider): Value {
    Obj([Entry(BPP_ID, Str(p.bppId)), Entry(BPP_URI, Str(p.bppUri))])
  }

  function ResourceJson(r: Resource): Value {
    Obj([Entry(RESOURCE_ID, Str(r.resourceId)), Entry(OFFER_ID, Str(r.offerId))])
  }

  function ClaimEntries(c: Claims): seq<Entry> {
    [Entry(VERSION_KEY, Str(GRANT_VERSION)), Entry(GRANT_ID, Str(c.grantId)), Entry(ISSUER, Str(c.issuer)),
     Entry(ISSUER_KEY_ID, Str(c.issuerKeyId)), Entry(GRANTEE, GranteeJson(c.grantee)),
     Entry(PROVIDER, ProviderJson(c.provider)), Entry(RESOURCE, ResourceJson(c.resource)),
     Entry(SCOPE, ScopeJson(c.scope)), Entry(LICENSE_CLASS, Str(LicenseName(c.licenseClass))),
     Entry(PURPOSE, Str(c.purpose)), Entry(TRANSACTION_ID, Str(c.transactionId)),
     Entry(ISSUED_AT, Num(c.issuedAt)), Entry(NOT_BEFORE, Num(c.notBefore)),
     Entry(EXPIRES_AT, Num(c.expiresAt)), Entry(REVOCABLE, Bool(c.revocable)), Entry(NONCE, Str(c.nonce))]
  }

  function ClaimsJson(c: Claims): Value {
    Obj(ClaimEntries(c))
  }

  function SignedJson(g: SignedGrant): Value {
    Obj([Entry(CLAIMS, ClaimsJson(g.claims)), Entry(ALG, Str(ED25519)), Entry(SIGNATURE, Str(g.signature))])
  }

  // ---- Reading it back: strict schemas ----

  function ReadKind(d: Data): Option<ScopeKind> {
    if d == DStr(FULL) then Some(Full)
    else if d == DStr(SAMPLE) then Some(Sample)
    else if d == DStr(SUBSET) then Some(Subset)
    else None
  }

  function ReadLicense(d: Data): Option<LicenseClass> {
    if d == DStr(PERMISSIVE) then Some(Permissive)
    else if d == DStr(RESEARCH_ONLY) then Some(ResearchOnly)
    else if d == DStr(NO_REDISTRIBUTION) then Some(NoRedistribution)
    else None
  }

  predicate AllText(ds: seq<Data>) {
    forall i :: 0 <= i < |ds| ==> ds[i].DStr?
  }

  function ReadTexts(ds: seq<Data>): seq<Text>
    requires AllText(ds)
  {
    seq(|ds|, i requires 0 <= i < |ds| => ds[i].s)
  }

  function ReadScope(d: Data): Option<Scope> {
    if !d.DMap? || KIND !in d.fields || !(d.fields.Keys <= {KIND, FIELDS, MAX_DOWNLOADS})
       || ReadKind(d.fields[KIND]).None?
       || (FIELDS in d.fields && !(d.fields[FIELDS].DList? && AllText(d.fields[FIELDS].items)))
       || (MAX_DOWNLOADS in d.fields && !d.fields[MAX_DOWNLOADS].DNum?)
    then None
    else Some(Scope(ReadKind(d.fields[KIND]).value,
                    if FIELDS in d.fields then Some(ReadTexts(d.fields[FIELDS].items)) else None,
                    if MAX_DOWNLOADS in d.fields then Some(d.fields[MAX_DOWNLOADS].n) else None))
  }

  function ReadGrantee(d: Data): Option<Grantee> {
    if !d.DMap? || ID !in d.fields || !(d.fields.Keys <= {ID, PUBLIC_KEY}) || !d.fields[ID].DStr?
       || (PUBLIC_KEY in d.fields && !d.fields[PUBLIC_KEY].DStr?)
    then None
    else Some(Grantee(d.fields[ID].s, if PUBLIC_KEY in d.fields then Some(d.fields[PUBLIC_KEY].s) else None))
  }

  /** A strict object of two text fields. */
  function ReadTextPair(d: Data, first: Text, second: Text): Option<(Text, Text)> {
    if d.DMap? && d.fields.Keys == {first, second} && d.fields[first].DStr? && d.fields[second].DStr?
    then Some((d.fields[first].s, d.fields[second].s))
    else None
  }

  /** A field of an object; an absent one reads as null, which no claim accepts. */
  function At(m: map<Text, Data>, k: Text): Data {
    if k in m then m[k] else DNull
  }

  predicate TextAt(m: map<Text, Data>, k: Text) {
    At(m, k).DStr?
  }

  predicate NumAt(m: map<Text, Data>, k: Text) {
    At(m, k).DNum?
  }

  /** The claims of an object whose structured fields have been read, if everything is in shape. */
  function Assemble(m: map<Text, Data>, grantee: Option<Grantee>, provider: Option<(Text, Text)>,
                    resource: Option<(Text, Text)>, scope: Option<Scope>, license: Option<LicenseClass>): Option<Claims>
  {
    if At(m, VERSION_KEY) == DStr(GRANT_VERSION) && TextAt(m, GRANT_ID) && TextAt(m, ISSUER) && TextAt(m, ISSUER_KEY_ID)
       && grantee.Some? && provider.Some? && resource.Some? && scope.Some? && license.Some?
       && TextAt(m, PURPOSE) && TextAt(m, TRANSACTION_ID) && NumAt(m, ISSUED_AT) && NumAt(m, NOT_BEFORE)
       && NumAt(m, EXPIRES_AT) && At(m, REVOCABLE).DBool? && TextAt(m, NONCE)
    then
      var c := Claims(At(m, GRANT_ID).s, At(m, ISSUER).s, At(m, ISSUER_KEY_ID).s, grantee.value,
                      Provider(provider.value.0, provider.value.1), Resource(resource.value.0, resource.value.1),
                      scope.value, license.value, At(m, PURPOSE).s, At(m, TRANSACTION_ID).s,
                      At(m, ISSUED_AT).n, At(m, NOT_BEFORE).n, At(m, EXPIRES_AT).n, At(m, REVOCABLE).b, At(m, NONCE).s);
      if WellShaped(c) then Some(c) else None
    else None
  }

  function ReadShape(d: Data): Option<Claims> {
    if !d.DMap? || d.fields.Keys != (set k | k in CLAIM_NAMES) then None
    else
      var m := d.fields;
      Assemble(m, ReadGrantee(At(m, GRANTEE)), ReadTextPair(At(m, PROVIDER), BPP_ID, BPP_URI),
               ReadTextPair(At(m, RESOURCE), RESOURCE_ID, OFFER_ID), ReadScope(At(m, SCOPE)),
               ReadLicense(At(m, LICENSE_CLASS)))
  }

  /** `AccessGrantClaims.safeParse` on a decoded object. */
  function ReadClaims(d: Data, isUrl: UrlCheck): Option<Claims> {
    match ReadShape(d)
    case None => None
    case Some(c) => if isUrl(c.provider.bppUri) then Some(c) else None
  }

  /** `SignedAccessGrant.safeParse` on untrusted JSON. */
  function ReadSigned(v: Value, isUrl: UrlCheck): Option<SignedGrant> {
    var d := Denote(v);
    if d.DMap? && d.fields.Keys == {CLAIMS, ALG, SIGNATURE} && d.fields[ALG] == DStr(ED25519)
       && d.fields[SIGNATURE].DStr? && IsSignatureText(d.fields[SIGNATURE].s) && ReadClaims(d.fields[CLAIMS], isUrl).Some?
    then Some(SignedGrant(ReadClaims(d.fields[CLAIMS], isUrl).value, d.fields[SIGNATURE].s))
    else None
  }
}
