/**
 A network of one BAP and its providers, all running this code: what their keys sign, one message after
 the other, and where a response that the BAP collects comes from.
 */
module Networks {
  import opened Texts
  import opened Json
  import opened Signing
  import opened Collectors
  import opened Correlation
  import opened Contexts
  import opened MessageAuth
  import opened Participants
  import opened BapRoutes
  import opened BppRoutes
  import FieldNames
  import Replay

  /** A provider: who it is, its public key (lower-case hexadecimal), and the keys it trusts. */
  datatype Provider = Provider(me: Responder, key: Text, registry: map<Text, Text>, skew: int)

  /** The BAP's configuration, key, registry and skew, and the providers. */
  datatype Network = Network(
    config: Config, key: Text, registry: map<Text, Text>, skew: int,
    providers: set<Provider>, formats: Formats, readNumber: Text -> Option<int>)

  function Resolver(registry: map<Text, Text>): Text -> Option<Text> {
    k => if k in registry then Some(registry[k]) else None
  }

  function Seals(log: seq<Sent>): set<Sealed> {
    set m | m in log :: SealOf(m)
  }

  function BapAuth(net: Network, log: seq<Sent>): Auth {
    Auth(Seals(log), Resolver(net.registry), net.readNumber, net.skew)
  }

  function BppAuth(net: Network, p: Provider, log: seq<Sent>): Auth {
    Auth(Seals(log), Resolver(p.registry), net.readNumber, p.skew)
  }

  // ---- What is signed ----

  /** The body of a message to the Access Manager: it has no context. */
  predicate NoContext(d: Data) {
    Field(d, FieldNames.CONTEXT).None?
  }

  /** The BAP signs its requests and its messages to the Access Manager, under its own id. */
  ghost predicate ByBap(net: Network, m: Sent) {
    && m.key == net.key && m.header.keyId == net.config.bapId
    && (NoContext(Meaning(m)) || exists t, a :: IsOwnRequest(net.config, Meaning(m), t, a))
  }

  /**
   The route answers `d` to what was posted, a message about transaction `t`, when `log` is what was signed
   and `cache` what the provider has filed so far.
   */
  predicate Gives(net: Network, p: Provider, log: seq<Sent>, cache: Replay.Cache, x: Posted, t: Text, d: Data) {
    && ParsedBody(x.inbound) && Carries(Denote(Incoming(x).body), t)
    && var reply := Respond(net.formats, p.me, BppAuth(net, p, log), cache, x).0;
       reply.Acknowledged? && reply.callback == d
  }

  /** The provider's route of action `a` gives `d` in answer to some message about transaction `t`. */
  ghost predicate RouteAnswers(net: Network, p: Provider, log: seq<Sent>, t: Text, a: Action, d: Data) {
    exists cache: Replay.Cache, x: Posted :: x.route == a && Gives(net, p, log, cache, x, t, d)
  }

  /** A provider signs, under its own id, the answers of its routes. */
  ghost predicate ByProvider(net: Network, p: Provider, log: seq<Sent>, m: Sent) {
    && m.key == p.key && m.header.keyId == p.me.bppId
    && exists t, a :: RouteAnswers(net, p, log, t, a, Meaning(m))
  }

  ghost predicate Justified(net: Network, log: seq<Sent>, m: Sent) {
    WellFormed(m.body) && (ByBap(net, m) || exists p :: p in net.providers && ByProvider(net, p, log, m))
  }

  /** Everything signed with the participants' keys, in order. Nothing else is signed with a registered key. */
  ghost predicate HonestLog(net: Network, log: seq<Sent>) {
    forall i :: 0 <= i < |log| ==> Justified(net, log[..i], log[i])
  }

  /** Ids are plain text on one line, in every registry and of every participant. */
  predicate PlainIds(net: Network) {
    && PlainId(net.config.bapId) && (forall k :: k in net.registry ==> PlainId(k))
    && forall p :: p in net.providers ==> PlainId(p.me.bppId) && forall k :: k in p.registry ==> PlainId(k)
  }

  lemma SignedIsLogged(signed: set<Sealed>, key: Text, log: seq<Sent>, sent: set<Sent>)
    requires signed == Seals(log) && forall m :: m in log ==> m in sent
    ensures SignedOnly(signed, key, sent)
  {
  }

  lemma JustifiedIsPlain(net: Network, log: seq<Sent>, m: Sent)
    requires PlainIds(net) && Justified(net, log, m)
    ensures PlainId(m.header.keyId)
  {
  }

  lemma LogIsRegistry(net: Network, log: seq<Sent>, registry: map<Text, Text>, skew: int)
    requires PlainIds(net) && HonestLog(net, log) && forall k :: k in registry ==> PlainId(k)
    ensures Registry(Auth(Seals(log), Resolver(registry), net.readNumber, skew), set m | m in log)
  {
    var auth, sent := Auth(Seals(log), Resolver(registry), net.readNumber, skew), set m | m in log;
    forall k: Text | auth.resolveKey(k).Some?
      ensures SignedOnly(auth.signed, LowerHex(auth.resolveKey(k).value), sent)
    {
      SignedIsLogged(auth.signed, LowerHex(auth.resolveKey(k).value), log, sent);
    }
    forall m | m in sent ensures WellFormed(m.body) && PlainId(m.header.keyId) {
      var i :| 0 <= i < |log| && log[i] == m;
      JustifiedIsPlain(net, log[..i], m);
    }
  }

  lemma AnswersItself(net: Network, p: Provider, log: seq<Sent>, t: Text, a: Action, d: Data)
    requires RouteAnswers(net, p, log, t, a, d)
    ensures AnswersAs(d, t, a, p.me.bppId)
  {
    var cache: Replay.Cache, x: Posted :| x.route == a && Gives(net, p, log, cache, x, t, d);
    EveryRouteAnswersAsItself(net.formats, p.me, BppAuth(net, p, log), cache, x, Incoming(x));
  }

  // ---- Where messages about a transaction come from ----

  /** A message that passes the checks of a participant is in the log, under the id and key it was verified with. */
  lemma PassedWasLogged(net: Network, log: seq<Sent>, registry: map<Text, Text>, skew: int, i: Inbound) returns (k: nat)
    requires PlainIds(net) && HonestLog(net, log) && ParsedBody(i) && forall id :: id in registry ==> PlainId(id)
    requires CheckOf(Auth(Seals(log), Resolver(registry), net.readNumber, skew), i).Passed?
    ensures var auth := Auth(Seals(log), Resolver(registry), net.readNumber, skew);
            && k < |log| && Meaning(log[k]) == Denote(i.body) && Registered(auth, log[k])
            && log[k].header.keyId == CheckOf(auth, i).header.keyId
  {
    var auth, sent := Auth(Seals(log), Resolver(registry), net.readNumber, skew), set m | m in log;
    LogIsRegistry(net, log, registry, skew);
    PassedWasSigned(auth, sent, i);
    var m :| SignedAs(auth, sent, i, m);
    k :| 0 <= k < |log| && log[k] == m;
  }

  lemma AnsweredPassed(net: Network, p: Provider, log: seq<Sent>, cache: Replay.Cache, x: Posted, t: Text, d: Data)
    requires Gives(net, p, log, cache, x, t, d)
    ensures CheckOf(BppAuth(net, p, log), Incoming(x)).Passed? && ParsedBody(Incoming(x))
    ensures Carries(Denote(Incoming(x).body), t)
  {
  }

  /** What a provider answers to is in the log. */
  lemma AnsweredWasLogged(net: Network, p: Provider, log: seq<Sent>, t: Text, a: Action, d: Data) returns (j: nat)
    requires PlainIds(net) && p in net.providers && HonestLog(net, log) && RouteAnswers(net, p, log, t, a, d)
    ensures j < |log| && Carries(Meaning(log[j]), t)
  {
    var cache: Replay.Cache, x: Posted :| x.route == a && Gives(net, p, log, cache, x, t, d);
    AnsweredPassed(net, p, log, cache, x, t, d);
    j := PassedWasLogged(net, log, p.registry, p.skew, Incoming(x));
  }

  lemma RequestCarries(config: Config, d: Data, t: Text, a: Action)
    requires IsOwnRequest(config, d, t, a)
    ensures Carries(d, t)
  {
    var target: Endpoint, stamp: Stamp, content: Data :|
      target in config.bpps && content != DNull
      && d == MessageData(RequestContext(config, a, t, target, stamp), content);
    MessageCarries(RequestContext(config, a, t, target, stamp), content);
  }

  lemma AnswerCarries(d: Data, t: Text, a: Action, bppId: Text)
    requires AnswersAs(d, t, a, bppId)
    ensures Carries(d, t)
  {
    var req: Context, bppUri: Text, nowIso: Text, content: Data :|
      req.transactionId == t && content != DNull
      && d == MessageData(Callback(req, a, Responder(bppId, bppUri), nowIso, content).0, content);
    MessageCarries(Callback(req, a, Responder(bppId, bppUri), nowIso, content).0, content);
  }

  /** The BAP signed a request of transaction `t`, of whatever action and to whatever provider. */
  ghost predicate Requests(net: Network, m: Sent, t: Text) {
    ByBap(net, m) && exists b :: IsOwnRequest(net.config, Meaning(m), t, b)
  }

  lemma PrefixIsHonest(net: Network, log: seq<Sent>, k: nat)
    requires HonestLog(net, log) && k <= |log|
    ensures HonestLog(net, log[..k])
  {
    forall i | 0 <= i < k ensures Justified(net, log[..k][..i], log[..k][i]) {
      assert log[..k][..i] == log[..i];
    }
  }

  lemma OwnMessageIsRequest(net: Network, m: Sent, t: Text)
    requires ByBap(net, m) && Carries(Meaning(m), t)
    ensures Requests(net, m, t)
  {
    var u, b :| IsOwnRequest(net.config, Meaning(m), u, b);
    RequestCarries(net.config, Meaning(m), u, b);
  }

  /** A provider's message about a transaction follows an earlier message about it. */
  lemma OneStepBack(net: Network, p: Provider, log: seq<Sent>, m: Sent, t: Text) returns (k: nat)
    requires PlainIds(net) && p in net.providers && HonestLog(net, log)
    requires ByProvider(net, p, log, m) && Carries(Meaning(m), t)
    ensures k < |log| && Carries(Meaning(log[k]), t)
  {
    var u, a :| RouteAnswers(net, p, log, u, a, Meaning(m));
    AnswersItself(net, p, log, u, a, Meaning(m));
    AnswerCarries(Meaning(m), u, a, p.me.bppId);
    k := AnsweredWasLogged(net, p, log, u, a, Meaning(m));
  }

  /**
   Whatever the network does with messages, forwarding, repeating or posting them to other routes and
   other participants: each message about a transaction goes back to a request of the BAP for it.
   */
  lemma {:induction false} EveryMessageGoesBack(net: Network, log: seq<Sent>, i: nat, t: Text) returns (j: nat)
    requires PlainIds(net) && HonestLog(net, log) && i < |log| && Carries(Meaning(log[i]), t)
    ensures j <= i && Requests(net, log[j], t)
    decreases i
  {
    assert Justified(net, log[..i], log[i]);
    if ByBap(net, log[i]) {
      OwnMessageIsRequest(net, log[i], t);
      j := i;
    } else {
      var p :| p in net.providers && ByProvider(net, p, log[..i], log[i]);
      PrefixIsHonest(net, log, i);
      var k := OneStepBack(net, p, log[..i], log[i], t);
      j := EveryMessageGoesBack(net, log, k, t);
    }
  }

  // ---- Where a response comes from ----

  /** The BAP's registry resolves its own id to its own key, as a registry of all participants does. */
  predicate TrustsItself(net: Network) {
    net.config.bapId in net.registry && LowerHex(net.registry[net.config.bapId]) == net.key
  }

  /**
   A passed callback is what the provider whose id it has answered on its route for `a`, to some message
   about transaction `t`: not necessarily a request for `a`, nor one addressed to that provider.
   */
  ghost predicate IsAnswer(net: Network, log: seq<Sent>, i: Inbound, t: Text, a: Action) {
    && CheckOf(BapAuth(net, log), i).Passed?
    && var bppId := CheckOf(BapAuth(net, log), i).header.keyId;
       && AnswersAs(Denote(i.body), t, a, bppId)
       && exists p, k: nat :: p in net.providers && p.me.bppId == bppId && k <= |log|
                              && RouteAnswers(net, p, log[..k], t, a, Denote(i.body))
  }

  /** A passed callback is the BAP's own request, signed with its own key. */
  ghost predicate IsReflection(net: Network, log: seq<Sent>, i: Inbound, t: Text, a: Action) {
    && TrustsItself(net) && CheckOf(BapAuth(net, log), i).Passed?
    && CheckOf(BapAuth(net, log), i).header.keyId == net.config.bapId
    && IsOwnRequest(net.config, Denote(i.body), t, a)
  }

  lemma ProviderMessageIsAnswer(net: Network, log: seq<Sent>, i: Inbound, k: nat, p: Provider, u: Text, b: Action)
    requires k < |log| && p in net.providers && CheckOf(BapAuth(net, log), i).Passed?
    requires p.me.bppId == CheckOf(BapAuth(net, log), i).header.keyId
    requires RouteAnswers(net, p, log[..k], u, b, Denote(i.body))
    ensures IsAnswer(net, log, i, u, b)
  {
    AnswersItself(net, p, log[..k], u, b, Denote(i.body));
  }

  /** A passed callback with a collector's key is an answer or a reflection, and about a transaction the BAP asked for. */
  lemma FiledIsAnswerOrReflection(net: Network, log: seq<Sent>, i: Inbound, t: Text, a: Action)
    requires PlainIds(net) && HonestLog(net, log) && ParsedBody(i) && CheckOf(BapAuth(net, log), i).Passed?
    requires CallbackKey(EnvelopeOf(Denote(i.body))) == Some(Key(t, ActionName(a)))
    ensures IsAnswer(net, log, i, t, a) || IsReflection(net, log, i, t, a)
    ensures exists j: nat :: j < |log| && Requests(net, log[j], t)
  {
    var d := Denote(i.body);
    var k := PassedWasLogged(net, log, net.registry, net.skew, i);
    assert Justified(net, log[..k], log[k]);
    if ByBap(net, log[k]) {
      var u, b :| IsOwnRequest(net.config, d, u, b);
      RequestIsFiled(net.config, d, u, b);
      SameFiling(t, a, u, b);
      assert Requests(net, log[k], t);
    } else {
      var p :| p in net.providers && ByProvider(net, p, log[..k], log[k]);
      var u, b :| RouteAnswers(net, p, log[..k], u, b, d);
      ProviderMessageIsAnswer(net, log, i, k, p, u, b);
      AnswerIsFiled(d, u, b, p.me.bppId);
      SameFiling(t, a, u, b);
      AnswerCarries(d, t, a, p.me.bppId);
      var j := EveryMessageGoesBack(net, log, k, t);
    }
  }

  /**
   Whatever anyone posts to the callback routes, every response a fan-out collects is an answer of a
   registered provider, for the fan-out's own transaction and action, to some message that goes back to
   a request of the BAP for that transaction; or it is the BAP's own request come back, which only a
   registry that trusts the BAP's own key lets in.
   */
  lemma CollectedIsAnswerOrReflection(
      net: Network, log: seq<Sent>, hs: seq<Happening>, c: nat, m: nat, t: Text, a: Action) returns (n: nat, j: nat)
    requires PlainIds(net) && HonestLog(net, log) && ParsedBodies(hs)
    requires var s := Serve(BapAuth(net, log), net.config, hs).system.bap;
             c < |s.collectors| && m < |s.collectors[c].responses| && s.collectors[c].key == Key(t, ActionName(a))
    ensures Brought(BapAuth(net, log), net.config, hs, n, c, m)
    ensures Serve(BapAuth(net, log), net.config, hs).system.bap.collectors[c].responses[m] ==
            ResponseOf(EnvelopeOf(Denote(hs[n].inbound.body)))
    ensures IsAnswer(net, log, hs[n].inbound, t, a) || IsReflection(net, log, hs[n].inbound, t, a)
    ensures j < |log| && Requests(net, log[j], t)
  {
    n := EveryResponseWasBrought(BapAuth(net, log), net.config, hs, c, m);
    FiledIsAnswerOrReflection(net, log, hs[n].inbound, t, a);
    j :| j < |log| && Requests(net, log[j], t);
  }
}
