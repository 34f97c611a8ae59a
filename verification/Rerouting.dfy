/** What a network of this code can be made to sign: a request, and an answer of any provider's any route to it. */
module Rerouting {
  import opened Texts
  import opened Json
  import opened Headers
  import opened Signing
  import opened Correlation
  import opened Contexts
  import opened MessageAuth
  import opened Participants
  import opened BapRoutes
  import opened BppRoutes
  import opened Networks
  import Wire

  const LIFETIME := 30

  /** Some nonce and some text in the shape of a signature. */
  const NONCE: Text := [110]

  function AnySignature(): Text { seq(2 * SIGNATURE_BYTES, _ => ZERO) }

  function Signed(key: Text, keyId: Text, body: Value): Sent {
    Sent(key, FreshHeader(keyId, 0, LIFETIME, NONCE, AnySignature()), body)
  }

  /** Ids and keys are in shape and the tolerated skews are not negative, so that signing works at all. */
  ghost predicate InShape(net: Network) {
    && PlainIds(net) && ReadsDecimals(net.readNumber)
    && IsHex(net.key, PUBLIC_KEY_BYTES) && Quotable(net.config.bapId) && net.skew >= 0
    && forall p :: p in net.providers ==> IsHex(p.key, PUBLIC_KEY_BYTES) && Quotable(p.me.bppId) && p.skew >= 0
  }

  /** The provider's registry resolves the BAP's id to the BAP's key. */
  predicate KnowsBap(net: Network, p: Provider) {
    net.config.bapId in p.registry && LowerHex(p.registry[net.config.bapId]) == net.key
  }

  lemma SignedIsWellSigned(auth: Auth, key: Text, keyId: Text, body: Value)
    requires SealOf(Signed(key, keyId, body)) in auth.signed && auth.skew >= 0
    requires WellFormed(body) && IsHex(key, PUBLIC_KEY_BYTES) && Quotable(keyId)
    ensures WellSigned(auth, Signed(key, keyId, body))
  {
  }

  /** A signed message that says `d`. */
  lemma MessageSaying(key: Text, keyId: Text, d: Data) returns (m: Sent)
    ensures m == Signed(key, keyId, m.body) && WellFormed(m.body) && Meaning(m) == d
  {
    var body := Wire.TreeOf(d);
    Wire.StripFixesJson(body);
    m := Signed(key, keyId, body);
  }

  /** The BAP's request of transaction `t` and action `b` to a configured provider. */
  lemma RequestSigned(net: Network, b: Action, t: Text, target: Endpoint, stamp: Stamp) returns (m: Sent)
    requires target in net.config.bpps
    ensures m == Signed(net.key, net.config.bapId, m.body) && WellFormed(m.body)
    ensures Meaning(m) == MessageData(RequestContext(net.config, b, t, target, stamp), DMap(map[]))
    ensures ByBap(net, m) && IsOwnRequest(net.config, Meaning(m), t, b)
  {
    m := MessageSaying(net.key, net.config.bapId, MessageData(RequestContext(net.config, b, t, target, stamp), DMap(map[])));
    assert IsOwnRequest(net.config, Meaning(m), t, b);
  }

  lemma RequestIsRead(net: Network, b: Action, t: Text, target: Endpoint, stamp: Stamp, d: Data)
    requires d == MessageData(RequestContext(net.config, b, t, target, stamp), DMap(map[]))
    requires ValidContext(net.formats, RequestContext(net.config, b, t, target, stamp))
    ensures ReadRequest(net.formats, d) == Some(RequestContext(net.config, b, t, target, stamp)) && Carries(d, t)
  {
    NamesDiffer();
    DataIsRead(net.formats, RequestContext(net.config, b, t, target, stamp));
    MessageCarries(RequestContext(net.config, b, t, target, stamp), DMap(map[]));
  }

  lemma FirstIsAccepted(auth: Auth, i: Inbound)
    requires CheckOf(auth, i).Passed?
    ensures SettleOf(auth, map[], i).0.Accepted?
  {
  }

  /** Any route of a provider answers a message that it can verify and read. */
  lemma RouteGives(net: Network, p: Provider, log: seq<Sent>, m: Sent, req: Context, a: Action) returns (d: Data)
    requires ReadsDecimals(net.readNumber)
    requires WellSigned(BppAuth(net, p, log), m) && Registered(BppAuth(net, p, log), m)
    requires ReadRequest(net.formats, Meaning(m)) == Some(req)
    ensures RouteAnswers(net, p, log, req.transactionId, a, d)
  {
    var auth := BppAuth(net, p, log);
    var x := Posted(a, InboundOf(auth, m), [], map[]);
    InboundIsParsed(auth, m);
    InboundPasses(auth, m);
    assert Incoming(x) == x.inbound;
    FirstIsAccepted(auth, x.inbound);
    ReadCarries(net.formats, Meaning(m), req);
    d := CallbackTo(req, p.me, x);
    assert Gives(net, p, log, map[], x, req.transactionId, d);
  }

  lemma TwoAreHonest(net: Network, m: Sent, n: Sent)
    requires Justified(net, [], m) && Justified(net, [m], n)
    ensures HonestLog(net, [m, n])
  {
    assert [m, n][..0] == [] && [m, n][..1] == [m];
  }

  /** A provider signs what one of its routes answers. */
  lemma AnswerIsJustified(net: Network, p: Provider, log: seq<Sent>, t: Text, a: Action, m: Sent)
    requires p in net.providers && RouteAnswers(net, p, log, t, a, Meaning(m))
    requires m.key == p.key && m.header.keyId == p.me.bppId && WellFormed(m.body)
    ensures Justified(net, log, m)
  {
    assert ByProvider(net, p, log, m);
  }

  /** The BAP's request can be verified by the providers that know the BAP. */
  lemma RequestIsVerifiable(net: Network, p: Provider, m: Sent)
    requires InShape(net) && p in net.providers && KnowsBap(net, p)
    requires m == Signed(net.key, net.config.bapId, m.body) && WellFormed(m.body)
    ensures WellSigned(BppAuth(net, p, [m]), m) && Registered(BppAuth(net, p, [m]), m)
  {
    assert m in [m];
    SignedIsWellSigned(BppAuth(net, p, [m]), net.key, net.config.bapId, m.body);
  }

  /** The provider's answer is one that the BAP can verify, once it has the provider's key. */
  lemma AnswerIsWellSigned(net: Network, p: Provider, m: Sent, n: Sent)
    requires InShape(net) && p in net.providers && n == Signed(p.key, p.me.bppId, n.body) && WellFormed(n.body)
    ensures WellSigned(BapAuth(net, [m, n]), n)
  {
    assert n in [m, n];
    SignedIsWellSigned(BapAuth(net, [m, n]), p.key, p.me.bppId, n.body);
  }

  /** A request of action `b` to one provider, answered by any provider that knows the BAP, on its route for `a`. */
  lemma AnsweredAnywhere(net: Network, p: Provider, a: Action, b: Action, t: Text, target: Endpoint, stamp: Stamp)
    returns (request: Sent, answer: Sent)
    requires InShape(net) && target in net.config.bpps && p in net.providers && KnowsBap(net, p)
    requires ValidContext(net.formats, RequestContext(net.config, b, t, target, stamp))
    ensures HonestLog(net, [request, answer])
    ensures IsOwnRequest(net.config, Meaning(request), t, b)
    ensures Meaning(request) == MessageData(RequestContext(net.config, b, t, target, stamp), DMap(map[]))
    ensures answer.key == p.key && answer.header.keyId == p.me.bppId
    ensures WellSigned(BapAuth(net, [request, answer]), answer)
    ensures RouteAnswers(net, p, [request], t, a, Meaning(answer))
  {
    var req := RequestContext(net.config, b, t, target, stamp);
    request := RequestSigned(net, b, t, target, stamp);
    RequestIsRead(net, b, t, target, stamp, Meaning(request));
    RequestIsVerifiable(net, p, request);
    var d := RouteGives(net, p, [request], request, req, a);
    answer := MessageSaying(p.key, p.me.bppId, d);
    AnswerIsJustified(net, p, [request], t, a, answer);
    AnswerIsWellSigned(net, p, request, answer);
    TwoAreHonest(net, request, answer);
  }
}
