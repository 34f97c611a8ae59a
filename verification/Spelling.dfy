/** The names and literals on the wire, spelled out, and the header as it is printed. */
module Spelling {
  import opened Texts
  import BapRoutes
  import Correlation
  import FieldNames
  import Headers
  import Json

  /** The claims of a grant. */
  lemma ClaimNames()
    ensures FieldNames.VERSION_KEY == Units("v") && FieldNames.GRANT_ID == Units("grantId")
    ensures FieldNames.ISSUER == Units("issuer") && FieldNames.ISSUER_KEY_ID == Units("issuerKeyId")
    ensures FieldNames.GRANTEE == Units("grantee") && FieldNames.PROVIDER == Units("provider")
    ensures FieldNames.RESOURCE == Units("resource") && FieldNames.SCOPE == Units("scope")
    ensures FieldNames.LICENSE_CLASS == Units("licenseClass") && FieldNames.PURPOSE == Units("purpose")
    ensures FieldNames.TRANSACTION_ID == Units("transactionId") && FieldNames.ISSUED_AT == Units("issuedAt")
    ensures FieldNames.NOT_BEFORE == Units("notBefore") && FieldNames.EXPIRES_AT == Units("expiresAt")
    ensures FieldNames.REVOCABLE == Units("revocable") && FieldNames.NONCE == Units("nonce")
  {
  }

  /** The fields inside claims and around them. */
  lemma PartNames()
    ensures FieldNames.ID == Units("id") && FieldNames.PUBLIC_KEY == Units("publicKey")
    ensures FieldNames.BPP_ID == Units("bppId") && FieldNames.BPP_URI == Units("bppUri")
    ensures FieldNames.RESOURCE_ID == Units("resourceId") && FieldNames.OFFER_ID == Units("offerId")
    ensures FieldNames.KIND == Units("kind") && FieldNames.FIELDS == Units("fields")
    ensures FieldNames.MAX_DOWNLOADS == Units("maxDownloads") && FieldNames.CLAIMS == Units("claims")
    ensures FieldNames.ALG == Units("alg") && FieldNames.SIGNATURE == Units("signature")
  {
  }

  /** The fields of messages and contexts. */
  lemma MessageNames()
    ensures FieldNames.CONTEXT == Units("context") && FieldNames.MESSAGE == Units("message")
    ensures FieldNames.ACTION == Units("action") && FieldNames.NETWORK_ID == Units("networkId")
    ensures FieldNames.PROTOCOL_VERSION == Units("version") && FieldNames.BAP_ID == Units("bapId")
    ensures FieldNames.BAP_URI == Units("bapUri") && FieldNames.MESSAGE_ID == Units("messageId")
    ensures FieldNames.TIMESTAMP == Units("timestamp") && FieldNames.TTL == Units("ttl")
  {
  }

  /** The literals of grants. */
  lemma GrantLiterals()
    ensures FieldNames.GRANT_VERSION == Units("bdc-grant/1") && FieldNames.ED25519 == Units("ed25519")
    ensures FieldNames.FULL == Units("full") && FieldNames.SAMPLE == Units("sample")
    ensures FieldNames.SUBSET == Units("subset") && FieldNames.PERMISSIVE == Units("permissive")
    ensures FieldNames.RESEARCH_ONLY == Units("research-only") && FieldNames.NO_REDISTRIBUTION == Units("no-redistribution")
  {
  }

  /** The actions, the prefix of callbacks, the protocol version, and the words of JSON and `String`. */
  lemma Words()
    ensures Correlation.DISCOVER == Units("discover") && Correlation.SELECT == Units("select")
    ensures Correlation.INIT == Units("init") && Correlation.CONFIRM == Units("confirm")
    ensures Correlation.ON == Units("on_") && Correlation.VERSION == Units("2.0.0")
    ensures Json.NULL_WORD == Units("null") && Json.TRUE_WORD == Units("true")
    ensures Json.FALSE_WORD == Units("false")
    ensures BapRoutes.OBJECT_WORD == Units("[object Object]")
  {
  }

  lemma Punctuation()
    ensures [NEWLINE] == Units("\n") && [COLON] == Units(":") && [COMMA] == Units(",") && [MINUS] == Units("-")
    ensures [ZERO] == Units("0") && [QUOTE] == Units("\"") && [Correlation.SLASH] == Units("/")
    ensures [Json.LBRACKET] == Units("[") && [Json.RBRACKET] == Units("]")
    ensures [Json.LBRACE] == Units("{") && [Json.RBRACE] == Units("}")
  {
  }

  /** The escapes of JSON strings that take two characters. */
  lemma ShortEscapes(paired: bool)
    ensures Json.EscapeUnit('\"' as int, paired) == Units("\\\"") && Json.EscapeUnit('\\' as int, paired) == Units("\\\\")
    ensures Json.EscapeUnit('\n' as int, paired) == Units("\\n") && Json.EscapeUnit('\t' as int, paired) == Units("\\t")
    ensures Json.EscapeUnit('\r' as int, paired) == Units("\\r")
    ensures Json.EscapeUnit(8, paired) == Units("\\b") && Json.EscapeUnit(12, paired) == Units("\\f")
  {
  }

  lemma HeaderNames()
    ensures Headers.KEY_ID == Units("keyId") && Headers.ALGORITHM == Units("algorithm")
    ensures Headers.CREATED == Units("created") && Headers.EXPIRES == Units("expires")
    ensures Headers.SCHEME == Units("Signature")
    ensures FieldNames.NONCE == Units("nonce") && FieldNames.SIGNATURE == Units("signature")
    ensures FieldNames.ED25519 == Units("ed25519")
  {
  }

  /** `name="value"`, and a comma after it when more follows. */
  function Field(name: string, value: Text): Text
    requires forall i :: 0 <= i < |name| ==> name[i] <= '~'
  {
    Units(name) + Units("=\"") + value + Units("\"")
  }

  /** The header of a signed message, character by character. */
  lemma HeaderIsPrinted(h: Headers.ParsedHeader)
    ensures Headers.PrintHeader(h) ==
            Units("Signature ") + Field("keyId", h.keyId) + Units(",") + Field("algorithm", Units("ed25519")) + Units(",")
            + Field("created", Decimal(h.created)) + Units(",") + Field("expires", Decimal(h.expires)) + Units(",")
            + Field("nonce", h.nonce) + Units(",") + Field("signature", h.signature)
  {
    HeaderNames();
    var ps := Headers.Pairs(h);
    PairIsField(ps[0], "keyId");
    PairIsField(ps[1], "algorithm");
    PairIsField(ps[2], "created");
    PairIsField(ps[3], "expires");
    PairIsField(ps[4], "nonce");
    PairIsField(ps[5], "signature");
    SixPairs(ps);
    assert Units(",") == [COMMA];
    assert Headers.SCHEME + [Headers.SPACE] == Units("Signature ");
    var f := seq(6, i requires 0 <= i < 6 => Headers.Pair(ps[i].0, ps[i].1));
    SixInARow(Units("Signature "), [COMMA], f[0], f[1], f[2], f[3], f[4], f[5]);
  }

  lemma PairIsField(p: (Text, Text), name: string)
    requires forall i :: 0 <= i < |name| ==> name[i] <= '~'
    requires p.0 == Units(name)
    ensures Headers.Pair(p.0, p.1) == Field(name, p.1)
  {
    assert Units("=\"") == [Headers.EQUALS, QUOTE] && Units("\"") == [QUOTE];
  }

  lemma SixPairs(ps: seq<(Text, Text)>)
    requires |ps| == 6
    ensures var f := seq(6, i requires 0 <= i < 6 => Headers.Pair(ps[i].0, ps[i].1));
            Headers.PrintPairs(ps) ==
            f[0] + [COMMA] + (f[1] + [COMMA] + (f[2] + [COMMA] + (f[3] + [COMMA] + (f[4] + [COMMA] + f[5]))))
  {
    assert ps[1..][1..] == ps[2..] && ps[2..][1..] == ps[3..] && ps[3..][1..] == ps[4..] && ps[4..][1..] == ps[5..];
    OneField(ps);
    OneField(ps[1..]);
    OneField(ps[2..]);
    OneField(ps[3..]);
    OneField(ps[4..]);
  }

  lemma OneField(ps: seq<(Text, Text)>)
    requires |ps| > 1
    ensures Headers.PrintPairs(ps) == Headers.Pair(ps[0].0, ps[0].1) + [COMMA] + Headers.PrintPairs(ps[1..])
  {
    Headers.PrintPairsCons(ps);
  }

  lemma SixInARow(s: Text, c: Text, a0: Text, a1: Text, a2: Text, a3: Text, a4: Text, a5: Text)
    ensures s + (a0 + c + (a1 + c + (a2 + c + (a3 + c + (a4 + c + a5))))) ==
            s + a0 + c + a1 + c + a2 + c + a3 + c + a4 + c + a5
  {
  }
}
