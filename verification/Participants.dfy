/**
 A participant's side of message authentication: what comes in, what the registry says about who signed
 it, and which signed messages do come through.
 */
module Participants {
  import opened Texts
  import opened Json
  import opened Headers
  import opened Signing
  import opened MessageAuth
  import Replay
  import Utf16
  import Utf8
  import Wire

  /** What a participant verifies messages with; `signed` is everything any key holder ever signed. */
  datatype Auth = Auth(
    signed: set<Sealed>, resolveKey: Text -> Option<Text>, readNumber: Text -> Option<int>, skew: int)

  /** A message as it comes in: a parsed body, a header, and the two clock readings. */
  datatype Inbound = Inbound(body: Value, header: Option<Text>, nowMs: int, cacheNowMs: int)

  function CheckOf(auth: Auth, i: Inbound): Check {
    Examine(auth.signed, auth.resolveKey, auth.readNumber, i.body, i.header, i.nowMs, auth.skew)
  }

  function SettleOf(auth: Auth, cache: Replay.Cache, i: Inbound): (Verdict, Replay.Cache) {
    Settle(cache, CheckOf(auth, i), i.cacheNowMs)
  }

  // ---- Whose keys are registered ----

  /** The body is what parsing a request yields. */
  predicate ParsedBody(i: Inbound) {
    WellFormed(i.body) && Serializable(i.body)
  }

  predicate PlainId(k: Text) {
    Without(NEWLINE, k) && Utf16.WellPaired(k)
  }

  /** Ids are plain text on one line, and the registered keys signed nothing but the messages in `sent`. */
  ghost predicate Registry(auth: Auth, sent: set<Sent>) {
    && (forall k: Text :: auth.resolveKey(k).Some? ==> PlainId(k))
    && (forall k: Text :: auth.resolveKey(k).Some? ==> SignedOnly(auth.signed, LowerHex(auth.resolveKey(k).value), sent))
    && (forall m :: m in sent ==> WellFormed(m.body) && PlainId(m.header.keyId))
  }

  /** The message was signed with the key registered for its key id. */
  predicate Registered(auth: Auth, m: Sent) {
    var publicKey := auth.resolveKey(m.header.keyId);
    publicKey.Some? && m.key == LowerHex(publicKey.value)
  }

  /** The JSON a signed message becomes on the wire. */
  function Meaning(m: Sent): Data {
    Denote(Wire.Strip(m.body))
  }

  /** The key id and JSON of what came in are those of a message signed with the key registered for that id. */
  ghost predicate SignedAs(auth: Auth, sent: set<Sent>, i: Inbound, m: Sent)
    requires CheckOf(auth, i).Passed?
  {
    && m in sent && Registered(auth, m) && m.header.keyId == CheckOf(auth, i).header.keyId
    && Meaning(m) == Denote(i.body)
  }

  lemma PassedIsRegistered(auth: Auth, i: Inbound)
    ensures CheckOf(auth, i).Passed? ==> auth.resolveKey(CheckOf(auth, i).header.keyId).Some?
  {
  }

  /** A message that passes the checks was signed by the holder of the key registered for its key id. */
  lemma PassedWasSigned(auth: Auth, sent: set<Sent>, i: Inbound)
    requires Registry(auth, sent) && ParsedBody(i)
    ensures CheckOf(auth, i).Passed? ==> exists m :: SignedAs(auth, sent, i, m)
  {
    PassedIsAuthentic(auth.signed, auth.resolveKey, auth.readNumber, i.body, i.header, i.nowMs, auth.skew, sent);
    Wire.StripFixesJson(i.body);
    PassedIsRegistered(auth, i);
    if CheckOf(auth, i).Passed? {
      var h := CheckOf(auth, i).header;
      var m :| m in sent && m.key == LowerHex(auth.resolveKey(h.keyId).value)
               && SameMessage(Scrubbed(m.header), m.body, Scrubbed(h), i.body);
      Utf8.ScrubFixesWellPaired(m.header.keyId);
      Utf8.ScrubFixesWellPaired(h.keyId);
      assert SignedAs(auth, sent, i, m);
    }
  }

  // ---- Messages that do come through ----

  function SealOf(m: Sent): Sealed {
    Sealed(m.key, Utf8.Encode(BaseOf(m.header, m.body)))
  }

  /** A message some key holder signed, in a shape and with a lifetime that can be verified at all. */
  predicate WellSigned(auth: Auth, m: Sent) {
    && WellFormed(m.body) && IsHex(m.key, PUBLIC_KEY_BYTES)
    && Quotable(m.header.keyId) && Quotable(m.header.nonce) && IsHex(m.header.signature, SIGNATURE_BYTES)
    && SealOf(m) in auth.signed
    && m.header.created - auth.skew <= m.header.expires + auth.skew
  }

  /** The message as it comes in when its lifetime begins. */
  function InboundOf(auth: Auth, m: Sent): Inbound {
    var nowMs := (m.header.created - auth.skew) * 1000;
    Inbound(Wire.Strip(m.body), Some(PrintHeader(m.header)), nowMs, nowMs)
  }

  lemma LowerHexIsHex(s: Text, bytes: nat)
    requires IsHex(LowerHex(s), bytes)
    ensures IsHex(s, bytes)
  {
    forall i | 0 <= i < |s| ensures IsHexUnit(s[i]) {
      assert IsHexUnit(LowerHex(s)[i]);
    }
  }

  lemma WholeSeconds(seconds: int)
    ensures seconds * 1000 / 1000 == seconds
  {
  }

  lemma InboundIsParsed(auth: Auth, m: Sent)
    requires WellFormed(m.body)
    ensures ParsedBody(InboundOf(auth, m))
  {
    Wire.StripIsJson(m.body);
  }

  lemma StrippedPasses(auth: Auth, m: Sent, publicKey: Text, i: Inbound)
    requires ReadsDecimals(auth.readNumber) && WellSigned(auth, m) && IsHex(publicKey, PUBLIC_KEY_BYTES)
    requires auth.resolveKey(m.header.keyId) == Some(publicKey) && m.key == LowerHex(publicKey)
    requires i.body == Wire.Strip(m.body) && i.header == Some(PrintHeader(m.header))
    requires i.nowMs / 1000 == m.header.created - auth.skew
    ensures CheckOf(auth, i) == Passed(m.header)
  {
    Wire.ParseOfStringify(m.body);
    SignedMessagePasses(auth.signed, auth.resolveKey, auth.readNumber, m.body, m.header, publicKey, i.nowMs, auth.skew);
  }

  lemma RegisteredKeyIsHex(auth: Auth, m: Sent)
    requires Registered(auth, m) && IsHex(m.key, PUBLIC_KEY_BYTES)
    ensures IsHex(auth.resolveKey(m.header.keyId).value, PUBLIC_KEY_BYTES)
  {
    LowerHexIsHex(auth.resolveKey(m.header.keyId).value, PUBLIC_KEY_BYTES);
  }

  lemma InboundPasses(auth: Auth, m: Sent)
    requires ReadsDecimals(auth.readNumber) && WellSigned(auth, m) && Registered(auth, m)
    ensures CheckOf(auth, InboundOf(auth, m)) == Passed(m.header)
  {
    RegisteredKeyIsHex(auth, m);
    WholeSeconds(m.header.created - auth.skew);
    StrippedPasses(auth, m, auth.resolveKey(m.header.keyId).value, InboundOf(auth, m));
  }

  // ---- Single use ----

  /** The calls of `verifyMessage` that showing these messages makes, in the order in which they reach the cache. */
  function AttemptsOf(auth: Auth, run: seq<Inbound>): seq<Attempt> {
    seq(|run|, k requires 0 <= k < |run| => Attempt(CheckOf(auth, run[k]), run[k].cacheNowMs))
  }

  function VerdictOf(auth: Auth, run: seq<Inbound>, k: nat): Verdict
    requires k < |run|
  {
    VerdictAt(AttemptsOf(auth, run), k)
  }

  /** The cache's clock never runs backwards. */
  predicate ClockSteady(run: seq<Inbound>) {
    forall j, k :: 0 <= j < k < |run| ==> run[j].cacheNowMs <= run[k].cacheNowMs
  }

  /** Each message reaches the cache at most `delay` milliseconds after its freshness was tested. */
  predicate Prompt(run: seq<Inbound>, delay: nat) {
    forall k :: 0 <= k < |run| ==> run[k].nowMs <= run[k].cacheNowMs <= run[k].nowMs + delay
  }

  /** Messages `i` and `j` of the run both pass the checks and have the same header. */
  predicate ShownAgain(auth: Auth, run: seq<Inbound>, i: nat, j: nat) {
    && i < j < |run| && CheckOf(auth, run[i]).Passed? && CheckOf(auth, run[j]).Passed?
    && CheckOf(auth, run[i]).header == CheckOf(auth, run[j]).header
  }

  lemma BeforeExpiryRefused(auth: Auth, run: seq<Inbound>, i: nat, j: nat)
    requires ClockSteady(run) && ShownAgain(auth, run, i, j) && VerdictOf(auth, run, i).Accepted?
    requires run[j].cacheNowMs <= CheckOf(auth, run[i]).header.expires * 1000
    ensures VerdictOf(auth, run, j) == Rejected(Replayed)
  {
    ReplayedUntilExpiry(AttemptsOf(auth, run), i, j, CheckOf(auth, run[i]).header);
  }

  /** Until message `j`, nobody but this one message had its key id and nonce. */
  predicate SlotIsItsOwn(auth: Auth, run: seq<Inbound>, j: nat)
    requires j < |run| && CheckOf(auth, run[j]).Passed?
  {
    var h := CheckOf(auth, run[j]).header;
    forall k :: 0 <= k < j && CheckOf(auth, run[k]).Passed? && Slot(CheckOf(auth, run[k]).header) == Slot(h) ==>
      CheckOf(auth, run[k]).header.expires == h.expires
  }

  /**
   The outcome of showing an accepted message again, whatever was shown in between and however often:
   a replay as long as its expiry has not passed on the cache's clock, and accepted again afterwards.
   */
  lemma LaterShowing(auth: Auth, run: seq<Inbound>, i: nat, j: nat)
    requires ClockSteady(run) && ShownAgain(auth, run, i, j) && VerdictOf(auth, run, i).Accepted?
    requires SlotIsItsOwn(auth, run, j)
    ensures var h := CheckOf(auth, run[j]).header;
            VerdictOf(auth, run, j) ==
            if run[j].cacheNowMs <= h.expires * 1000 then Rejected(Replayed) else Accepted(h.keyId)
  {
    if run[j].cacheNowMs <= CheckOf(auth, run[j]).header.expires * 1000 {
      BeforeExpiryRefused(auth, run, i, j);
    } else {
      PastExpiryNothingBlocks(AttemptsOf(auth, run), j);
    }
  }

  /** No message is accepted twice in any run of showings that keeps to the bound on the delay. */
  ghost predicate SingleUse(auth: Auth, delay: nat) {
    forall run: seq<Inbound>, i: nat, j: nat ::
      ClockSteady(run) && Prompt(run, delay) && ShownAgain(auth, run, i, j) ==>
        !(VerdictOf(auth, run, i).Accepted? && VerdictOf(auth, run, j).Accepted?)
  }

  lemma FreshAtTheEnd(auth: Auth, i: Inbound, late: Inbound)
    requires CheckOf(auth, i).Passed? && late.body == i.body && late.header == i.header
    requires late.nowMs == (CheckOf(auth, i).header.expires + auth.skew) * 1000 + 999
    ensures CheckOf(auth, late) == CheckOf(auth, i) && i.nowMs <= late.nowMs
  {
  }

  /** With room between the expiry and the last fresh moment, a message is accepted at both ends. */
  lemma TwiceWithRoom(auth: Auth, i: Inbound, delay: nat)
    requires CheckOf(auth, i).Passed? && auth.skew * 1000 + 999 + delay > 0
    ensures !SingleUse(auth, delay)
  {
    var h := CheckOf(auth, i).header;
    var end := (h.expires + auth.skew) * 1000 + 999;
    var first, late := i.(cacheNowMs := i.nowMs), i.(nowMs := end, cacheNowMs := end + delay);
    FreshAtTheEnd(auth, first, late);
    TwoAttempts(auth, first, late, h);
    AcceptedAfterExpiry(h, i.nowMs, end + delay);
    assert ShownAgain(auth, [first, late], 0, 1);
  }

  lemma TwoAttempts(auth: Auth, first: Inbound, late: Inbound, h: ParsedHeader)
    requires CheckOf(auth, first) == Passed(h) && CheckOf(auth, late) == Passed(h)
    ensures AttemptsOf(auth, [first, late]) == [Attempt(Passed(h), first.cacheNowMs), Attempt(Passed(h), late.cacheNowMs)]
  {
  }

  lemma PassedInTime(auth: Auth, i: Inbound)
    requires CheckOf(auth, i).Passed?
    ensures i.nowMs <= (CheckOf(auth, i).header.expires + auth.skew) * 1000 + 999
  {
  }

  lemma NoneTwiceWithoutRoom(auth: Auth, run: seq<Inbound>, i: nat, j: nat, delay: nat)
    requires auth.skew * 1000 + 999 + delay <= 0
    requires ClockSteady(run) && Prompt(run, delay) && ShownAgain(auth, run, i, j)
    ensures !(VerdictOf(auth, run, i).Accepted? && VerdictOf(auth, run, j).Accepted?)
  {
    PassedInTime(auth, run[j]);
    if VerdictOf(auth, run, i).Accepted? {
      BeforeExpiryRefused(auth, run, i, j);
    }
  }

  /**
   Single use over whole runs. A verifier whose cache check follows its freshness test by at most
   `delay` milliseconds accepts no message twice, whatever else it is shown, if and only if the skew is
   negative enough to make up for the delay and for the rounding of the clock to seconds.
   */
  lemma SingleUseExactly(auth: Auth, some: Inbound, delay: nat)
    requires CheckOf(auth, some).Passed?
    ensures SingleUse(auth, delay) <==> auth.skew * 1000 + 999 + delay <= 0
  {
    if auth.skew * 1000 + 999 + delay <= 0 {
      forall run: seq<Inbound>, i: nat, j: nat | ClockSteady(run) && Prompt(run, delay) && ShownAgain(auth, run, i, j)
        ensures !(VerdictOf(auth, run, i).Accepted? && VerdictOf(auth, run, j).Accepted?)
      {
        NoneTwiceWithoutRoom(auth, run, i, j, delay);
      }
    } else {
      TwiceWithRoom(auth, some, delay);
    }
  }
}
