/** The field names and literals of grants, headers and callbacks, as code units. */
module FieldNames {
  import opened Texts

  const VERSION_KEY: Text := [118]  // v
  const GRANT_ID: Text := [103, 114, 97, 110, 116, 73, 100]  // grantId
  const ISSUER: Text := [105, 115, 115, 117, 101, 114]  // issuer
  const ISSUER_KEY_ID: Text := [105, 115, 115, 117, 101, 114, 75, 101, 121, 73, 100]  // issuerKeyId
  const GRANTEE: Text := [103, 114, 97, 110, 116, 101, 101]  // grantee
  const PROVIDER: Text := [112, 114, 111, 118, 105, 100, 101, 114]  // provider
  const RESOURCE: Text := [114, 101, 115, 111, 117, 114, 99, 101]  // resource
  const SCOPE: Text := [115, 99, 111, 112, 101]  // scope
  const LICENSE_CLASS: Text := [108, 105, 99, 101, 110, 115, 101, 67, 108, 97, 115, 115]  // licenseClass
  const PURPOSE: Text := [112, 117, 114, 112, 111, 115, 101]  // purpose
  const TRANSACTION_ID: Text := [116, 114, 97, 110, 115, 97, 99, 116, 105, 111, 110, 73, 100]  // transactionId
  const ISSUED_AT: Text := [105, 115, 115, 117, 101, 100, 65, 116]  // issuedAt
  const NOT_BEFORE: Text := [110, 111, 116, 66, 101, 102, 111, 114, 101]  // notBefore
  const EXPIRES_AT: Text := [101, 120, 112, 105, 114, 101, 115, 65, 116]  // expiresAt
  const REVOCABLE: Text := [114, 101, 118, 111, 99, 97, 98, 108, 101]  // revocable
  const NONCE: Text := [110, 111, 110, 99, 101]  // nonce

  const ID: Text := [105, 100]  // id
  const PUBLIC_KEY: Text := [112, 117, 98, 108, 105, 99, 75, 101, 121]  // publicKey
  const BPP_ID: Text := [98, 112, 112, 73, 100]  // bppId
  const BPP_URI: Text := [98, 112, 112, 85, 114, 105]  // bppUri
  const RESOURCE_ID: Text := [114, 101, 115, 111, 117, 114, 99, 101, 73, 100]  // resourceId
  const OFFER_ID: Text := [111, 102, 102, 101, 114, 73, 100]  // offerId
  const KIND: Text := [107, 105, 110, 100]  // kind
  const FIELDS: Text := [102, 105, 101, 108, 100, 115]  // fields
  const MAX_DOWNLOADS: Text := [109, 97, 120, 68, 111, 119, 110, 108, 111, 97, 100, 115]  // maxDownloads
  const CLAIMS: Text := [99, 108, 97, 105, 109, 115]  // claims
  const ALG: Text := [97, 108, 103]  // alg
  const SIGNATURE: Text := [115, 105, 103, 110, 97, 116, 117, 114, 101]  // signature

  const CONTEXT: Text := [99, 111, 110, 116, 101, 120, 116]  // context
  const MESSAGE: Text := [109, 101, 115, 115, 97, 103, 101]  // message
  const ACTION: Text := [97, 99, 116, 105, 111, 110]  // action
  const NETWORK_ID: Text := [110, 101, 116, 119, 111, 114, 107, 73, 100]  // networkId
  const PROTOCOL_VERSION: Text := [118, 101, 114, 115, 105, 111, 110]  // version
  const BAP_ID: Text := [98, 97, 112, 73, 100]  // bapId
  const BAP_URI: Text := [98, 97, 112, 85, 114, 105]  // bapUri
  const MESSAGE_ID: Text := [109, 101, 115, 115, 97, 103, 101, 73, 100]  // messageId
  const TIMESTAMP: Text := [116, 105, 109, 101, 115, 116, 97, 109, 112]  // timestamp
  const TTL: Text := [116, 116, 108]  // ttl

  const GRANT_VERSION: Text := [98, 100, 99, 45, 103, 114, 97, 110, 116, 47, 49]  // bdc-grant/1
  const ED25519: Text := [101, 100, 50, 53, 53, 49, 57]  // ed25519
  const FULL: Text := [102, 117, 108, 108]  // full
  const SAMPLE: Text := [115, 97, 109, 112, 108, 101]  // sample
  const SUBSET: Text := [115, 117, 98, 115, 101, 116]  // subset
  const PERMISSIVE: Text := [112, 101, 114, 109, 105, 115, 115, 105, 118, 101]  // permissive
  const RESEARCH_ONLY: Text := [114, 101, 115, 101, 97, 114, 99, 104, 45, 111, 110, 108, 121]  // research-only
  const NO_REDISTRIBUTION: Text :=
    [110, 111, 45, 114, 101, 100, 105, 115, 116, 114, 105, 98, 117, 116, 105, 111, 110]  // no-redistribution

  /** The sixteen claim names, in schema order. */
  const CLAIM_NAMES: seq<Text> := [
    VERSION_KEY, GRANT_ID, ISSUER, ISSUER_KEY_ID, GRANTEE, PROVIDER, RESOURCE, SCOPE,
    LICENSE_CLASS, PURPOSE, TRANSACTION_ID, ISSUED_AT, NOT_BEFORE, EXPIRES_AT, REVOCABLE, NONCE]

  /** Length, first and last unit: enough to tell the claim names apart. */
  function Fingerprint(t: Text): int
    requires t != []
  {
    1_000_000 * |t| + 1_000 * (t[0] as int) + t[|t| - 1] as int
  }

  const FINGERPRINTS: seq<int> := [
    1118118, 7103100, 6105114, 11105100, 7103101, 8112114, 8114101, 5115101,
    12108115, 7112101, 13116100, 8105116, 9110101, 9101116, 9114101, 5110101]

  lemma ClaimNamesAreDistinct()
    ensures forall i, j :: 0 <= i < j < |CLAIM_NAMES| ==> CLAIM_NAMES[i] != CLAIM_NAMES[j]
  {
    assert |CLAIM_NAMES| == 16 && |FINGERPRINTS| == 16;
    forall i | 0 <= i < 16 ensures CLAIM_NAMES[i] != [] && Fingerprint(CLAIM_NAMES[i]) == FINGERPRINTS[i] {
    }
    assert forall i, j :: 0 <= i < j < 16 ==> FINGERPRINTS[i] != FINGERPRINTS[j];
  }
}
