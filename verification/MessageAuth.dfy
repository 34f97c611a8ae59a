/** Per-hop message authentication: who sent a message, and is it fresh. */
module MessageAuth {
  import opened Texts
  import opened Json
  import opened Headers
  import opened Replay
  import opened Signing
  import Canonicalization
  import JsonText
  import Utf16
  import Utf8
  import Wire

  datatype Reason = Missing | Malformed | UnknownKey | NotYetValid | Expired | Replayed | BadSignature

  datatype Verdict = Accepted(keyId: Text) | Rejected(reason: Reason)

  datatype Check = Passed(header: ParsedHeader) | Refused(reason: Reason)

  // ---- Signing ----

  /** The canonical text of the body as it crosses the wire. */
  function CanonicalBody(body: Value): Text {
    Canonicalization.CanonicalSucceeds(Wire.Normalized(body));
    Canonical(Wire.Normalized(body)).value
  }

  /** The lines after the key id. */
  function BaseTail(created: int, expires: int, nonce: Text, body: Value): Text {
    Decimal(created) + [NEWLINE] + (Decimal(expires) + [NEWLINE] + (nonce + [NEWLINE] + CanonicalBody(body)))
  }

  /** The five lines that are signed. */
  function SigningBase(keyId: Text, created: int, expires: int, nonce: Text, body: Value): Text {
    keyId + [NEWLINE] + BaseTail(created, expires, nonce, body)
  }

  function BaseOf(h: ParsedHeader, body: Value): Text {
    SigningBase(h.keyId, h.created, h.expires, h.nonce, body)
  }

  /** The header `signMessage` prints; `signature` is what the signer's key yields. */
  function FreshHeader(keyId: Text, nowMs: int, ttlSeconds: int, nonce: Text, signature: Text): ParsedHeader {
    ParsedHeader(keyId, nowMs / 1000, nowMs / 1000 + ttlSeconds, nonce, signature)
  }

  // ---- Verifying ----

  /** The key under which the replay cache files a message. */
  function Slot(h: ParsedHeader): Text {
    h.keyId + [COLON] + h.nonce
  }

  /** Every check `verifyMessage` makes before it asks the replay cache, in order. */
  function Examine(signed: set<Sealed>, resolveKey: Text -> Option<Text>, readNumber: Text -> Option<int>,
                   body: Value, header: Option<Text>, nowMs: int, skew: int): Check
  {
    if header.None? || header.value == [] then Refused(Missing)
    else match Parsed(header.value, readNumber)
      case None => Refused(Malformed)
      case Some(h) =>
        var publicKey := resolveKey(h.keyId);
        if publicKey.None? || publicKey.value == [] then Refused(UnknownKey)
        else if h.created > nowMs / 1000 + skew then Refused(NotYetValid)
        else if h.expires < nowMs / 1000 - skew then Refused(Expired)
        else if !Verify(signed, h.signature, BaseOf(h, body), publicKey.value) then Refused(BadSignature)
        else Passed(h)
  }

  /** Each refusal, and exactly when it is given: the checks come in this order. */
  lemma RefusedExactly(signed: set<Sealed>, resolveKey: Text -> Option<Text>, readNumber: Text -> Option<int>,
                       body: Value, header: Text, nowMs: int, skew: int)
    ensures Examine(signed, resolveKey, readNumber, body, None, nowMs, skew) == Refused(Missing)
    ensures Examine(signed, resolveKey, readNumber, body, Some(header), nowMs, skew) == Refused(Missing) <==> header == []
    ensures Examine(signed, resolveKey, readNumber, body, Some(header), nowMs, skew) == Refused(Malformed) <==>
            header != [] && Parsed(header, readNumber) == None
    ensures header != [] && Parsed(header, readNumber).Some? ==>
            var h, seconds := Parsed(header, readNumber).value, nowMs / 1000;
            var check := Examine(signed, resolveKey, readNumber, body, Some(header), nowMs, skew);
            var known := resolveKey(h.keyId).Some? && resolveKey(h.keyId).value != [];
            && (check == Refused(UnknownKey) <==> !known)
            && (check == Refused(NotYetValid) <==> known && seconds < h.created - skew)
            && (check == Refused(Expired) <==> known && h.created - skew <= seconds && h.expires + skew < seconds)
            && (check == Refused(BadSignature) <==>
                known && h.created - skew <= seconds <= h.expires + skew
                && !Verify(signed, h.signature, BaseOf(h, body), resolveKey(h.keyId).value))
            && check != Refused(Replayed)
  {
  }

  /** The verdict once the stateless checks are done, and the cache afterwards. */
  function Settle(m: Cache, check: Check, cacheNowMs: int): (Verdict, Cache) {
    match check
    case Refused(reason) => (Rejected(reason), m)
    case Passed(h) =>
      var (already, after) := SeenStep(m, Call(Slot(h), h.expires, cacheNowMs));
      (if already then Rejected(Replayed) else Accepted(h.keyId), after)
  }

  /**
   `verifyMessage`. Without a cache nothing is single-use. The cache reads its own clock, so its
   reading is a separate argument.
   */
  method VerifyMessage(signed: set<Sealed>, resolveKey: Text -> Option<Text>, readNumber: Text -> Option<int>,
                       body: Value, header: Option<Text>, nowMs: int, skew: int,
                       cache: ReplayCache?, cacheNowMs: int) returns (r: Verdict)
    modifies cache
    ensures var check := Examine(signed, resolveKey, readNumber, body, header, nowMs, skew);
            if cache == null then
              r == match check { case Refused(reason) => Rejected(reason) case Passed(h) => Accepted(h.keyId) }
            else (r, cache.seenUntil) == Settle(old(cache.seenUntil), check, cacheNowMs)
  {
    if header.None? || header.value == [] {
      return Rejected(Missing);
    }
    var parsed := ParseHeader(header.value, readNumber);
    if parsed.None? {
      return Rejected(Malformed);
    }
    var h := parsed.value;
    var publicKey := resolveKey(h.keyId);
    if publicKey.None? || publicKey.value == [] {
      return Rejected(UnknownKey);
    }
    var nowSec := nowMs / 1000;
    if h.created > nowSec + skew {
      return Rejected(NotYetValid);
    }
    if h.expires < nowSec - skew {
      return Rejected(Expired);
    }
    if !Verify(signed, h.signature, BaseOf(h, body), publicKey.value) {
      return Rejected(BadSignature);
    }
    if cache != null {
      var already := cache.Seen(Slot(h), h.expires, cacheNowMs);
      if already {
        return Rejected(Replayed);
      }
    }
    r := Accepted(h.keyId);
  }

  /** The body line parses to the body as it crosses the wire, keys in ascending order. */
  ghost predicate IsBodyLine(line: Text, body: Value) {
    && Without(NEWLINE, line)
    && exists arrived, parsed ::
         JsonText.Parse(Wire.Stringify(body)) == Some(arrived) && JsonText.Parse(line) == Some(parsed)
         && Denote(parsed) == Denote(arrived) && Canonicalization.KeysAscend(parsed)
  }

  /** What is signed: the key id, the two times, the nonce and the body, a line each. */
  lemma BaseIsFiveLines(h: ParsedHeader, body: Value) returns (line: Text)
    requires WellFormed(body)
    ensures BaseOf(h, body) ==
              h.keyId + [NEWLINE] + Decimal(h.created) + [NEWLINE] + Decimal(h.expires) + [NEWLINE]
              + h.nonce + [NEWLINE] + line
    ensures IsBodyLine(line, body)
  {
    line := CanonicalBody(body);
    Wire.SentArrives(body);
    Wire.ParseOfStringify(body);
    Canonicalization.CanonicalReadsBack(Wire.Normalized(body));
    var c, e, n := Decimal(h.created), Decimal(h.expires), h.nonce;
    assert h.keyId + [NEWLINE] + (c + [NEWLINE] + (e + [NEWLINE] + (n + [NEWLINE] + line))) ==
           h.keyId + [NEWLINE] + c + [NEWLINE] + e + [NEWLINE] + n + [NEWLINE] + line;
  }

  // ---- The signing base determines what was signed ----

  predicate SameMessage(g: ParsedHeader, a: Value, h: ParsedHeader, b: Value) {
    && g.keyId == h.keyId && g.created == h.created && g.expires == h.expires && g.nonce == h.nonce
    && Denote(Wire.Strip(a)) == Denote(Wire.Strip(b))
  }

  lemma CanonicalBodyIsExact(a: Value, b: Value)
    requires WellFormed(a) && WellFormed(b)
    ensures Without(NEWLINE, CanonicalBody(a))
    ensures CanonicalBody(a) == CanonicalBody(b) <==> Denote(Wire.Strip(a)) == Denote(Wire.Strip(b))
  {
    Wire.StripIsJson(a);
    Wire.StripIsJson(b);
    Canonicalization.CanonicalReadsBack(Wire.Normalized(a));
    Canonicalization.CanonicalReadsBack(Wire.Normalized(b));
    Canonicalization.CanonicalIsExact(Wire.Normalized(a), Wire.Normalized(b));
  }

  /** What follows the key id line is unambiguous whatever the nonces hold. */
  lemma TailIsInjective(g: ParsedHeader, a: Value, h: ParsedHeader, b: Value)
    requires WellFormed(a) && WellFormed(b)
    requires BaseTail(g.created, g.expires, g.nonce, a) == BaseTail(h.created, h.expires, h.nonce, b)
    ensures g.created == h.created && g.expires == h.expires && g.nonce == h.nonce
    ensures Denote(Wire.Strip(a)) == Denote(Wire.Strip(b))
  {
    var ca, cb := CanonicalBody(a), CanonicalBody(b);
    CanonicalBodyIsExact(a, b);
    CanonicalBodyIsExact(b, a);
    FirstSplitIsUnique(NEWLINE, Decimal(g.created), Decimal(g.expires) + [NEWLINE] + (g.nonce + [NEWLINE] + ca),
                       Decimal(h.created), Decimal(h.expires) + [NEWLINE] + (h.nonce + [NEWLINE] + cb));
    FirstSplitIsUnique(NEWLINE, Decimal(g.expires), g.nonce + [NEWLINE] + ca,
                       Decimal(h.expires), h.nonce + [NEWLINE] + cb);
    LastSplitIsUnique(NEWLINE, g.nonce, ca, h.nonce, cb);
    DecimalIsInjective(g.created, h.created);
    DecimalIsInjective(g.expires, h.expires);
  }

  /** For key ids without a newline, equal signing bases mean equal messages. */
  lemma BaseIsInjective(g: ParsedHeader, a: Value, h: ParsedHeader, b: Value)
    requires WellFormed(a) && WellFormed(b) && Without(NEWLINE, g.keyId) && Without(NEWLINE, h.keyId)
    ensures BaseOf(g, a) == BaseOf(h, b) <==> SameMessage(g, a, h, b)
  {
    CanonicalBodyIsExact(a, b);
    if BaseOf(g, a) == BaseOf(h, b) {
      FirstSplitIsUnique(NEWLINE, g.keyId, BaseTail(g.created, g.expires, g.nonce, a),
                         h.keyId, BaseTail(h.created, h.expires, h.nonce, b));
      TailIsInjective(g, a, h, b);
    }
  }

  // ---- Which key ids the framing tells apart ----

  /** `r` can be read as a decimal line and whatever follows it. */
  ghost predicate ExpiryLine(r: Text) {
    || (exists e: int :: r == Decimal(e))
    || (exists e: int, rest: Text :: r == Decimal(e) + [NEWLINE] + rest)
  }

  /** `t` can be read as a decimal line and, if it goes on, another one. */
  ghost predicate LeadingLines(t: Text) {
    || (exists c: int :: t == Decimal(c))
    || (exists c: int, r: Text :: t == Decimal(c) + [NEWLINE] + r && ExpiryLine(r))
  }

  /** Id `l` is id `k`, a newline, and lines that could be `k`'s own timestamps. */
  ghost predicate Confusable(k: Text, l: Text) {
    exists t: Text :: l == k + [NEWLINE] + t && LeadingLines(t)
  }

  /** A text that shares its first line with a decimal line is that line, or goes on after it. */
  lemma ShareDecimalLine(t: Text, rest: Text, c: int, tail: Text) returns (more: Option<Text>)
    requires t + [NEWLINE] + rest == Decimal(c) + [NEWLINE] + tail
    ensures match more
            case None => t == Decimal(c)
            case Some(r) => t == Decimal(c) + [NEWLINE] + r && r + [NEWLINE] + rest == tail
  {
    var n := FirstIndex(NEWLINE, t);
    if n == |t| {
      assert t[..n] == t;
      FirstSplitIsUnique(NEWLINE, t, rest, Decimal(c), tail);
      more := None;
    } else {
      var r := t[n + 1..];
      assert t == t[..n] + [NEWLINE] + r;
      assert t + [NEWLINE] + rest == t[..n] + [NEWLINE] + (r + [NEWLINE] + rest);
      FirstSplitIsUnique(NEWLINE, t[..n], r + [NEWLINE] + rest, Decimal(c), tail);
      more := Some(r);
    }
  }

  lemma LeadingLinesOfTail(t: Text, rest: Text, created: int, expires: int, more: Text)
    requires t + [NEWLINE] + rest == Decimal(created) + [NEWLINE] + (Decimal(expires) + [NEWLINE] + more)
    ensures LeadingLines(t)
  {
    var r := ShareDecimalLine(t, rest, created, Decimal(expires) + [NEWLINE] + more);
    if r.Some? {
      var u := ShareDecimalLine(r.value, rest, expires, more);
      assert ExpiryLine(r.value);
    }
  }

  /** Equal bases under a shorter and a longer id: the longer one imitates the shorter one's lines. */
  lemma CollisionIsConfusable(g: ParsedHeader, a: Value, h: ParsedHeader, b: Value)
    requires BaseOf(g, a) == BaseOf(h, b) && g.keyId != h.keyId && |g.keyId| <= |h.keyId|
    ensures Confusable(g.keyId, h.keyId)
  {
    var y := BaseTail(h.created, h.expires, h.nonce, b);
    var t := LongerHeadGoesOn(NEWLINE, g.keyId, BaseTail(g.created, g.expires, g.nonce, a), h.keyId, y);
    LeadingLinesOfTail(t, y, g.created, g.expires, g.nonce + [NEWLINE] + CanonicalBody(a));
  }

  lemma Regroup(a: Text, b: Text, c: Text)
    ensures a + [NEWLINE] + (b + [NEWLINE] + c) == a + [NEWLINE] + b + [NEWLINE] + c
  {
  }

  lemma RegroupNonce(a: Text, b: Text, c: Text, d: Text)
    ensures a + [NEWLINE] + b + [NEWLINE] + (c + [NEWLINE] + d) == a + [NEWLINE] + (b + [NEWLINE] + c + [NEWLINE] + d)
  {
  }

  /** A text that starts like an expiry line completes to an expiry line and a nonce line. */
  lemma CompleteExpiry(r: Text, n: Text, body: Text) returns (e: int, nonce: Text)
    requires ExpiryLine(r) && Without(QUOTE, r) && Quotable(n)
    ensures r + [NEWLINE] + (n + [NEWLINE] + body) == Decimal(e) + [NEWLINE] + (nonce + [NEWLINE] + body)
    ensures Quotable(nonce)
  {
    if x: int :| r == Decimal(x) {
      e, nonce := x, n;
    } else {
      var x: int, rest: Text :| r == Decimal(x) + [NEWLINE] + rest;
      e, nonce := x, rest + [NEWLINE] + n;
      RegroupNonce(Decimal(x), rest, n, body);
    }
  }

  lemma CompleteLines(t: Text, created: int, n: Text, body: Text) returns (c: int, e: int, nonce: Text)
    requires LeadingLines(t) && Without(QUOTE, t) && Quotable(n)
    ensures t + [NEWLINE] + (Decimal(created) + [NEWLINE] + (n + [NEWLINE] + body)) ==
            Decimal(c) + [NEWLINE] + (Decimal(e) + [NEWLINE] + (nonce + [NEWLINE] + body))
    ensures Quotable(nonce)
  {
    if x: int :| t == Decimal(x) {
      c, e, nonce := x, created, n;
    } else {
      var x: int, r: Text :| t == Decimal(x) + [NEWLINE] + r && ExpiryLine(r);
      var m := Decimal(created) + [NEWLINE] + n;
      Regroup(Decimal(created), n, body);
      c := x;
      e, nonce := CompleteExpiry(r, m, body);
      Regroup(Decimal(x), r, m + [NEWLINE] + body);
    }
  }

  lemma CompleteTail(t: Text, h: ParsedHeader, body: Value) returns (g: ParsedHeader)
    requires LeadingLines(t) && Without(QUOTE, t) && Quotable(h.nonce)
    ensures g.keyId == h.keyId && g.signature == h.signature && Quotable(g.nonce)
    ensures BaseTail(g.created, g.expires, g.nonce, body) ==
            t + [NEWLINE] + BaseTail(h.created, h.expires, h.nonce, body)
  {
    var end := CanonicalBody(body);
    var n := Decimal(h.expires) + [NEWLINE] + h.nonce;
    Regroup(Decimal(h.expires), h.nonce, end);
    var c, e, nonce := CompleteLines(t, h.created, n, end);
    g := ParsedHeader(h.keyId, c, e, nonce, h.signature);
  }

  /** What the header parser can return: nonempty texts without quotes. */
  predicate Receivable(h: ParsedHeader) {
    Quotable(h.keyId) && Quotable(h.nonce) && Quotable(h.signature)
  }

  /** Confusable ids do collide: two different messages that can be received have one signing base. */
  lemma ConfusableIdsCollide(k: Text, l: Text, body: Value) returns (g: ParsedHeader, h: ParsedHeader)
    requires Confusable(k, l) && Quotable(k) && Quotable(l)
    ensures g.keyId == k && h.keyId == l && Receivable(g) && Receivable(h) && BaseOf(g, body) == BaseOf(h, body)
  {
    var t: Text :| l == k + [NEWLINE] + t && LeadingLines(t);
    h := ParsedHeader(l, 0, 0, [ZERO], [ZERO]);
    g := CompleteTail(t, h.(keyId := k), body);
    Regroup(k, t, BaseTail(0, 0, [ZERO], body));
  }

  ghost predicate Collide(g: ParsedHeader, h: ParsedHeader, body: Value) {
    Receivable(g) && Receivable(h) && BaseOf(g, body) == BaseOf(h, body)
  }

  /**
   Messages under two different ids that can both be received share a signing base exactly when the
   ids fit a header and one imitates the other's lines.
   */
  lemma FramingIsExact(k: Text, l: Text, body: Value)
    requires k != l
    ensures (exists g: ParsedHeader, h: ParsedHeader :: g.keyId == k && h.keyId == l && Collide(g, h, body)) <==>
            Quotable(k) && Quotable(l) && (Confusable(k, l) || Confusable(l, k))
  {
    if g: ParsedHeader, h: ParsedHeader :| g.keyId == k && h.keyId == l && Collide(g, h, body) {
      if |k| <= |l| {
        CollisionIsConfusable(g, body, h, body);
      } else {
        CollisionIsConfusable(h, body, g, body);
      }
    }
    if Quotable(k) && Quotable(l) && Confusable(k, l) {
      var g, h := ConfusableIdsCollide(k, l, body);
      assert Collide(g, h, body);
    }
    if Quotable(k) && Quotable(l) && Confusable(l, k) {
      var h, g := ConfusableIdsCollide(l, k, body);
      assert Collide(g, h, body);
    }
  }

  // ---- The bytes that are signed ----

  /** What the signed bytes tell of a header: lone surrogates in its id and nonce are all alike. */
  function Scrubbed(h: ParsedHeader): ParsedHeader {
    h.(keyId := Utf8.Scrub(h.keyId), nonce := Utf8.Scrub(h.nonce))
  }

  lemma PlainLines(created: int, body: Value)
    ensures Utf8.Scrub(Decimal(created)) == Decimal(created)
    ensures Utf8.Scrub(CanonicalBody(body)) == CanonicalBody(body)
  {
    Utf16.DecimalIsPlain(created);
    Utf8.ScrubFixesWellPaired(Decimal(created));
    Canonicalization.CanonicalSucceeds(Wire.Normalized(body));
    Utf16.CanonicalIsWellPaired(Wire.Normalized(body));
    Utf8.ScrubFixesWellPaired(CanonicalBody(body));
  }

  lemma ScrubOfBase(h: ParsedHeader, body: Value)
    ensures Utf8.Scrub(BaseOf(h, body)) == BaseOf(Scrubbed(h), body)
  {
    PlainLines(h.created, body);
    PlainLines(h.expires, body);
    var c := CanonicalBody(body);
    Utf8.ScrubAcross(h.nonce, NEWLINE, c);
    Utf8.ScrubAcross(Decimal(h.expires), NEWLINE, h.nonce + [NEWLINE] + c);
    Utf8.ScrubAcross(Decimal(h.created), NEWLINE, Decimal(h.expires) + [NEWLINE] + (h.nonce + [NEWLINE] + c));
    Utf8.ScrubAcross(h.keyId, NEWLINE, BaseTail(h.created, h.expires, h.nonce, body));
  }

  /**
   For key ids without a newline, equal signed bytes mean equal messages, but for surrogates without
   a partner in ids and nonces, which the encoding cannot tell apart.
   */
  lemma BytesAreInjective(g: ParsedHeader, a: Value, h: ParsedHeader, b: Value)
    requires WellFormed(a) && WellFormed(b) && Without(NEWLINE, g.keyId) && Without(NEWLINE, h.keyId)
    ensures Utf8.Encode(BaseOf(g, a)) == Utf8.Encode(BaseOf(h, b)) <==> SameMessage(Scrubbed(g), a, Scrubbed(h), b)
  {
    ScrubOfBase(g, a);
    ScrubOfBase(h, b);
    Utf8.EncodeIsExact(BaseOf(g, a), BaseOf(h, b));
    Utf8.ScrubKeepsAway(NEWLINE, g.keyId);
    Utf8.ScrubKeepsAway(NEWLINE, h.keyId);
    BaseIsInjective(Scrubbed(g), a, Scrubbed(h), b);
  }

  // ---- Authenticity ----

  /** A message some key holder signed. */
  datatype Sent = Sent(key: Text, header: ParsedHeader, body: Value)

  /** Everything ever signed with `key` is one of the messages in `sent`. */
  ghost predicate SignedOnly(signed: set<Sealed>, key: Text, sent: set<Sent>) {
    forall s :: s in signed && s.key == key ==>
      exists m :: m in sent && m.key == key && s.bytes == Utf8.Encode(BaseOf(m.header, m.body))
  }

  /**
   A message is let through only if the holder of the key registered for its key id signed exactly
   that message: same id, same times, same nonce, and as JSON the same body. Ids and nonces are the
   same up to lone surrogates, so simply the same when they are well-formed UTF-16.
   */
  lemma PassedIsAuthentic(signed: set<Sealed>, resolveKey: Text -> Option<Text>, readNumber: Text -> Option<int>,
                          body: Value, header: Option<Text>, nowMs: int, skew: int, sent: set<Sent>)
    requires WellFormed(body) && forall m :: m in sent ==> WellFormed(m.body) && Without(NEWLINE, m.header.keyId)
    requires forall k: Text :: resolveKey(k).Some? ==> Without(NEWLINE, k)
    requires forall k: Text :: resolveKey(k).Some? ==> SignedOnly(signed, LowerHex(resolveKey(k).value), sent)
    ensures match Examine(signed, resolveKey, readNumber, body, header, nowMs, skew)
            case Refused(_) => true
            case Passed(h) =>
              && h.created <= nowMs / 1000 + skew && nowMs / 1000 - skew <= h.expires
              && exists m :: m in sent && m.key == LowerHex(resolveKey(h.keyId).value)
                             && SameMessage(Scrubbed(m.header), m.body, Scrubbed(h), body)
  {
    match Examine(signed, resolveKey, readNumber, body, header, nowMs, skew)
    case Refused(_) =>
    case Passed(h) =>
      var key := LowerHex(resolveKey(h.keyId).value);
      SealedWasSent(signed, key, sent, h, body);
  }

  lemma SealedWasSent(signed: set<Sealed>, key: Text, sent: set<Sent>, h: ParsedHeader, body: Value)
    requires SignedOnly(signed, key, sent) && Sealed(key, Utf8.Encode(BaseOf(h, body))) in signed
    requires WellFormed(body) && Without(NEWLINE, h.keyId)
    requires forall m :: m in sent ==> WellFormed(m.body) && Without(NEWLINE, m.header.keyId)
    ensures exists m :: m in sent && m.key == key && SameMessage(Scrubbed(m.header), m.body, Scrubbed(h), body)
  {
    var s := Sealed(key, Utf8.Encode(BaseOf(h, body)));
    var m :| m in sent && m.key == key && s.bytes == Utf8.Encode(BaseOf(m.header, m.body));
    BytesAreInjective(m.header, m.body, h, body);
  }

  lemma HexIsQuotable(s: Text, bytes: nat)
    requires IsHex(s, bytes) && bytes > 0
    ensures Quotable(s)
  {
  }

  /**
   A freshly signed message, sent as text and parsed on arrival, passes exactly while the clock is
   between its creation and its expiry, give or take the skew.
   */
  lemma SignedMessagePasses(signed: set<Sealed>, resolveKey: Text -> Option<Text>, readNumber: Text -> Option<int>,
                            body: Value, h: ParsedHeader, publicKey: Text, nowMs: int, skew: int)
    requires ReadsDecimals(readNumber)
    requires Quotable(h.keyId) && Quotable(h.nonce) && IsHex(h.signature, SIGNATURE_BYTES)
    requires resolveKey(h.keyId) == Some(publicKey) && IsHex(publicKey, PUBLIC_KEY_BYTES)
    requires Sealed(LowerHex(publicKey), Utf8.Encode(BaseOf(h, body))) in signed
    ensures var arrived := JsonText.Parse(Wire.Stringify(body));
            && arrived.Some?
            && Examine(signed, resolveKey, readNumber, arrived.value, Some(PrintHeader(h)), nowMs, skew) ==
                 if nowMs / 1000 < h.created - skew then Refused(NotYetValid)
                 else if h.expires + skew < nowMs / 1000 then Refused(Expired)
                 else Passed(h)
  {
    var arrived := JsonText.Parse(Wire.Stringify(body));
    Wire.WireParity(body, arrived);
    HexIsQuotable(h.signature, SIGNATURE_BYTES);
    ParseUndoesPrint(h, readNumber);
    assert BaseOf(h, arrived.value) == BaseOf(h, body);
    assert PrintHeader(h) != [];
  }

  // ---- Single use ----

  /** One call of `verifyMessage` in a run: the outcome of its checks and the cache's clock reading. */
  datatype Attempt = Attempt(check: Check, cacheNowMs: int)

  function CacheAfterAttempts(run: seq<Attempt>): Cache {
    if run == [] then map[]
    else
      var last := run[|run| - 1];
      Settle(CacheAfterAttempts(run[..|run| - 1]), last.check, last.cacheNowMs).1
  }

  function VerdictAt(run: seq<Attempt>, i: nat): Verdict
    requires i < |run|
  {
    Settle(CacheAfterAttempts(run[..i]), run[i].check, run[i].cacheNowMs).0
  }

  /** No check that lets a message through in `(i, n)` reads the cache clock past `untilMs`. */
  predicate ClockBefore(run: seq<Attempt>, i: int, n: nat, untilMs: int)
    requires -1 <= i && n <= |run|
  {
    forall m :: i < m < n && run[m].check.Passed? ==> run[m].cacheNowMs <= untilMs
  }

  lemma {:induction false} RecordStays(run: seq<Attempt>, i: nat, n: nat)
    requires i < n <= |run| && run[i].check.Passed? && VerdictAt(run, i).Accepted?
    requires ClockBefore(run, i, n, run[i].check.header.expires * 1000)
    ensures var m := CacheAfterAttempts(run[..n]);
            var h := run[i].check.header;
            Slot(h) in m && m[Slot(h)] == h.expires * 1000
  {
    assert run[..n][..n - 1] == run[..n - 1];
    if n > i + 1 {
      RecordStays(run, i, n - 1);
    }
  }

  /**
   Two messages filed under the same key id and nonce are not both accepted while no clock reading
   of the cache has passed the expiry of the first; refused messages in between do not matter.
   */
  lemma AcceptedOnce(run: seq<Attempt>, i: nat, j: nat)
    requires i < j < |run| && run[i].check.Passed? && run[j].check.Passed?
    requires Slot(run[i].check.header) == Slot(run[j].check.header)
    requires VerdictAt(run, i).Accepted?
    requires ClockBefore(run, i, j + 1, run[i].check.header.expires * 1000)
    ensures VerdictAt(run, j) == Rejected(Replayed)
  {
    RecordStays(run, i, j);
  }

  /** Nonces without a colon keep the slots of different key ids and nonces apart. */
  lemma SlotIsInjective(g: ParsedHeader, h: ParsedHeader)
    requires Without(COLON, g.nonce) && Without(COLON, h.nonce) && Slot(g) == Slot(h)
    ensures g.keyId == h.keyId && g.nonce == h.nonce
  {
    LastSplitIsUnique(COLON, g.keyId, g.nonce, h.keyId, h.nonce);
  }

  lemma {:induction false} CachedSlotsWereUsed(run: seq<Attempt>, slot: Text) returns (i: nat)
    requires slot in CacheAfterAttempts(run)
    ensures i < |run| && run[i].check.Passed? && Slot(run[i].check.header) == slot
    ensures CacheAfterAttempts(run)[slot] == run[i].check.header.expires * 1000
  {
    var n := |run| - 1;
    var before := CacheAfterAttempts(run[..n]);
    if run[n].check.Passed? && Slot(run[n].check.header) == slot && slot !in Pruned(before, run[n].cacheNowMs) {
      i := n;
    } else {
      i := CachedSlotsWereUsed(run[..n], slot);
    }
  }

  /** A message that passes the checks with a colon-free nonce its sender never used is accepted. */
  lemma FreshNonceIsAccepted(run: seq<Attempt>, i: nat)
    requires i < |run| && run[i].check.Passed?
    requires forall k :: 0 <= k <= i && run[k].check.Passed? ==> Without(COLON, run[k].check.header.nonce)
    requires forall k :: 0 <= k < i && run[k].check.Passed? ==>
               run[k].check.header.keyId != run[i].check.header.keyId
               || run[k].check.header.nonce != run[i].check.header.nonce
    ensures VerdictAt(run, i) == Accepted(run[i].check.header.keyId)
  {
    var slot := Slot(run[i].check.header);
    if slot in CacheAfterAttempts(run[..i]) {
      var k := CachedSlotsWereUsed(run[..i], slot);
      SlotIsInjective(run[k].check.header, run[i].check.header);
      assert false;
    }
  }

  /** Completeness of signing: what `signMessage` prints, once it has crossed the wire. */
  function FreshCheck(signed: set<Sealed>, resolveKey: Text -> Option<Text>, readNumber: Text -> Option<int>,
                      body: Value, h: ParsedHeader, nowMs: int, skew: int): Check
  {
    Wire.ParseOfStringify(body);
    Examine(signed, resolveKey, readNumber, JsonText.Parse(Wire.Stringify(body)).value, Some(PrintHeader(h)), nowMs, skew)
  }

  /**
   A freshly signed message whose colon-free nonce its sender never used is accepted at every time
   from its creation to its expiry, give or take the skew, and refused as early or late otherwise,
   whatever the verifier has seen before and whenever its cache is asked.
   */
  lemma {:induction false} FreshMessageIsAccepted(
      signed: set<Sealed>, resolveKey: Text -> Option<Text>, readNumber: Text -> Option<int>, body: Value,
      keyId: Text, signedMs: int, ttlSeconds: int, nonce: Text, signature: Text, publicKey: Text,
      nowMs: int, skew: int, run: seq<Attempt>, cacheNowMs: int)
    requires ReadsDecimals(readNumber)
    requires Quotable(keyId) && Quotable(nonce) && Without(COLON, nonce) && IsHex(signature, SIGNATURE_BYTES)
    requires resolveKey(keyId) == Some(publicKey) && IsHex(publicKey, PUBLIC_KEY_BYTES)
    requires var h := FreshHeader(keyId, signedMs, ttlSeconds, nonce, signature);
             Sealed(LowerHex(publicKey), Utf8.Encode(BaseOf(h, body))) in signed
    requires forall k :: 0 <= k < |run| && run[k].check.Passed? ==>
               Without(COLON, run[k].check.header.nonce)
               && (run[k].check.header.keyId != keyId || run[k].check.header.nonce != nonce)
    ensures var h := FreshHeader(keyId, signedMs, ttlSeconds, nonce, signature);
            var check := FreshCheck(signed, resolveKey, readNumber, body, h, nowMs, skew);
            Settle(CacheAfterAttempts(run), check, cacheNowMs).0 ==
            if nowMs / 1000 < signedMs / 1000 - skew then Rejected(NotYetValid)
            else if signedMs / 1000 + ttlSeconds + skew < nowMs / 1000 then Rejected(Expired)
            else Accepted(keyId)
  {
    var h := FreshHeader(keyId, signedMs, ttlSeconds, nonce, signature);
    SignedMessagePasses(signed, resolveKey, readNumber, body, h, publicKey, nowMs, skew);
    UnusedIsAccepted(run, h, cacheNowMs);
  }

  lemma UnusedIsAccepted(run: seq<Attempt>, h: ParsedHeader, cacheNowMs: int)
    requires Without(COLON, h.nonce)
    requires forall k :: 0 <= k < |run| && run[k].check.Passed? ==>
               Without(COLON, run[k].check.header.nonce)
               && (run[k].check.header.keyId != h.keyId || run[k].check.header.nonce != h.nonce)
    ensures Settle(CacheAfterAttempts(run), Passed(h), cacheNowMs).0 == Accepted(h.keyId)
  {
    var all := run + [Attempt(Passed(h), cacheNowMs)];
    assert all[..|run|] == run;
    FreshNonceIsAccepted(all, |run|);
  }

  // ---- How long a nonce stays single-use ----

  /** Once the cache's clock is past every expiry recorded for its slot, a passed message is accepted, again and again. */
  lemma PastExpiryNothingBlocks(run: seq<Attempt>, i: nat)
    requires i < |run| && run[i].check.Passed?
    requires forall k :: 0 <= k < i && run[k].check.Passed? && Slot(run[k].check.header) == Slot(run[i].check.header) ==>
               run[k].check.header.expires * 1000 < run[i].cacheNowMs
    ensures VerdictAt(run, i) == Accepted(run[i].check.header.keyId)
  {
    var slot := Slot(run[i].check.header);
    if slot in CacheAfterAttempts(run[..i]) {
      var k := CachedSlotsWereUsed(run[..i], slot);
      assert run[..i][k] == run[k];
    }
  }

  /** On a cache clock that runs forward, an accepted message is a replay until its expiry has passed. */
  lemma ReplayedUntilExpiry(run: seq<Attempt>, i: nat, j: nat, h: ParsedHeader)
    requires i < j < |run| && run[i].check == Passed(h) && run[j].check == Passed(h)
    requires forall k :: i < k < j ==> run[k].cacheNowMs <= run[j].cacheNowMs
    requires VerdictAt(run, i).Accepted? && run[j].cacheNowMs <= h.expires * 1000
    ensures VerdictAt(run, j) == Rejected(Replayed)
  {
    AcceptedOnce(run, i, j);
  }

  /** Two showings of a message, the second after its expiry on the cache's clock: both are accepted. */
  lemma AcceptedAfterExpiry(h: ParsedHeader, firstMs: int, laterMs: int)
    requires h.expires * 1000 < laterMs
    ensures var run := [Attempt(Passed(h), firstMs), Attempt(Passed(h), laterMs)];
            VerdictAt(run, 0).Accepted? && VerdictAt(run, 1).Accepted?
  {
    var run := [Attempt(Passed(h), firstMs), Attempt(Passed(h), laterMs)];
    PastExpiryNothingBlocks(run, 1);
    assert run[..0] == [];
  }

  /** The verdict on a message whose freshness is read at `t` and whose cache check at `u`. */
  function VerdictOn(signed: set<Sealed>, resolveKey: Text -> Option<Text>, readNumber: Text -> Option<int>,
                     body: Value, header: Option<Text>, skew: int, m: Cache, t: int, u: int): (Verdict, Cache)
  {
    Settle(m, Examine(signed, resolveKey, readNumber, body, header, t, skew), u)
  }

  /**
   The same message shown again to a verifier that accepted it. The clock is read twice, for
   freshness at `t` and, once the signature is checked, by the cache at `u`: the message is late
   when the skew has passed at `t`, a replay when its expiry has not passed at `u`, and accepted
   once more otherwise.
   */
  lemma SecondShowing(signed: set<Sealed>, resolveKey: Text -> Option<Text>, readNumber: Text -> Option<int>,
                      body: Value, header: Option<Text>, skew: int, m: Cache, t0: int, u0: int, t: int, u: int)
    requires t0 <= t
    ensures var first := VerdictOn(signed, resolveKey, readNumber, body, header, skew, m, t0, u0);
            first.0.Accepted? ==>
              var h := Examine(signed, resolveKey, readNumber, body, header, t0, skew).header;
              VerdictOn(signed, resolveKey, readNumber, body, header, skew, first.1, t, u).0 ==
              if h.expires + skew < t / 1000 then Rejected(Expired)
              else if u <= h.expires * 1000 then Rejected(Replayed)
              else Accepted(h.keyId)
  {
  }
}
