/**
 Small deployments: one or two providers, and a registry that has the BAP's own key or not. All meet what
 the results about provenance suppose, and both sides of these results occur.
 */
module Deployment {
  import opened Texts
  import opened Signing
  import opened Headers
  import opened Correlation
  import opened Contexts
  import opened MessageAuth
  import opened Participants
  import opened BapRoutes
  import opened Networks
  import opened Rerouting
  import opened Provenance

  const BAP: Text := [97]
  const FIRST: Text := [98]
  const SECOND: Text := [99]
  const URI: Text := [117]
  const SKEW := 5
  const STAMP := Stamp(URI, URI)

  function KeyOf(id: Text): Text
    requires id == BAP || id == FIRST || id == SECOND
  {
    seq(2 * PUBLIC_KEY_BYTES, _ => if id == BAP then 48 else if id == FIRST then 49 else 50)
  }

  function ProviderNamed(id: Text): Provider
    requires id == FIRST || id == SECOND
  {
    Provider(Responder(id, URI), KeyOf(id), map[BAP := KeyOf(BAP)], SKEW)
  }

  function EndpointsOf(two: bool): seq<Endpoint> {
    if two then [Endpoint(FIRST, URI), Endpoint(SECOND, URI)] else [Endpoint(FIRST, URI)]
  }

  function RegistryOf(two: bool, trusting: bool): map<Text, Text> {
    map id | id in {BAP, FIRST, SECOND} && (id == BAP ==> trusting) && (id == SECOND ==> two) :: KeyOf(id)
  }

  function ReadNumber(t: Text): Option<int> {
    match ReadInt(t)
    case None => None
    case Some((n, rest)) => if rest == [] then Some(n) else None
  }

  /** A network in which every nonempty text is of every format. */
  function NetworkOf(two: bool, trusting: bool): Network {
    Network(Config(URI, BAP, URI, URI, EndpointsOf(two)), KeyOf(BAP), RegistryOf(two, trusting), SKEW,
            if two then {ProviderNamed(FIRST), ProviderNamed(SECOND)} else {ProviderNamed(FIRST)},
            Formats(t => t != [], t => t != [], t => t != [], t => t != []), ReadNumber)
  }

  lemma NumbersAreRead()
    ensures ReadsDecimals(ReadNumber)
  {
    forall n: int ensures ReadNumber(Decimal(n)) == Some(n) {
      ReadIntOfDecimal(n, []);
      assert Decimal(n) + [] == Decimal(n);
    }
  }

  lemma KeysAreLowerHex(id: Text)
    requires id == BAP || id == FIRST || id == SECOND
    ensures IsHex(KeyOf(id), PUBLIC_KEY_BYTES) && LowerHex(KeyOf(id)) == KeyOf(id)
    ensures PlainId(id) && Quotable(id)
  {
  }

  lemma NetworkIsInShape(two: bool, trusting: bool)
    ensures InShape(NetworkOf(two, trusting))
  {
    NumbersAreRead();
    KeysAreLowerHex(BAP);
    KeysAreLowerHex(FIRST);
    KeysAreLowerHex(SECOND);
  }

  lemma ParticipantsAreRegistered(two: bool, trusting: bool)
    ensures var net := NetworkOf(two, trusting);
            && RegistersParticipants(net) && (TrustsItself(net) <==> trusting)
            && KnowsBap(net, ProviderNamed(FIRST)) && KnowsProvider(net, ProviderNamed(FIRST))
  {
    var net := NetworkOf(two, trusting);
    KeysAreLowerHex(BAP);
    KeysAreLowerHex(FIRST);
    KeysAreLowerHex(SECOND);
    forall k | k in net.registry && k != BAP
      ensures exists p :: p in net.providers && p.me.bppId == k && KnowsProvider(net, p) && KnowsBap(net, p)
    {
      assert ProviderNamed(k) in net.providers;
    }
  }

  lemma RequestIsValid(net: Network, a: Action, target: Endpoint)
    requires net.config == Config(URI, BAP, URI, URI, net.config.bpps) && target.bppId != [] && target.uri == URI
    requires net.formats == NetworkOf(false, false).formats
    ensures ValidContext(net.formats, RequestContext(net.config, a, URI, target, STAMP))
  {
    KnownFields(RequestContext(net.config, a, URI, target, STAMP));
  }

  lemma RequestsAreSendable(two: bool, trusting: bool)
    ensures Sendable(NetworkOf(two, trusting), URI, STAMP)
  {
    var net := NetworkOf(two, trusting);
    forall target, a: Action | target in net.config.bpps
      ensures ValidContext(net.formats, RequestContext(net.config, a, URI, target, STAMP))
    {
      RequestIsValid(net, a, target);
    }
  }

  lemma TrustedTargets(two: bool, trusting: bool)
    ensures TrustsOnlyTargets(NetworkOf(two, trusting)) <==> !two && !trusting
  {
    var net := NetworkOf(two, trusting);
    ParticipantsAreRegistered(two, trusting);
    assert EndpointsOf(two)[0] in net.config.bpps && FIRST in net.registry;
    assert two ==> SECOND in net.registry;
  }

  /**
   All four deployments meet the suppositions. Every grant is confirmed by the provider it names in the
   one with a single provider and a registry without the BAP's own key, and in no other; a registry of
   all participants, as the key generator of the repository makes it, is among the others.
   */
  lemma BothSidesOccur(two: bool, trusting: bool)
    ensures var net := NetworkOf(two, trusting);
            && InShape(net) && RegistersParticipants(net) && Sendable(net, URI, STAMP)
            && (AlwaysConfirmed(net) <==> !two && !trusting)
  {
    NetworkIsInShape(two, trusting);
    ParticipantsAreRegistered(two, trusting);
    RequestsAreSendable(two, trusting);
    TrustedTargets(two, trusting);
    GrantsAreConfirmedExactly(NetworkOf(two, trusting), URI, STAMP);
  }

  /** Where every grant is confirmed, grants do occur. */
  lemma GrantsOccur() returns (log: seq<Sent>, hs: seq<Happening>)
    ensures var net := NetworkOf(false, false);
            && HonestLog(net, log) && ParsedBodies(hs) && |Serve(BapAuth(net, log), net.config, hs).system.issued| == 1
            && ConfirmedByTarget(BapAuth(net, log), net.config, hs, 0)
  {
    var net, target := NetworkOf(false, false), Endpoint(FIRST, URI);
    NetworkIsInShape(false, false);
    ParticipantsAreRegistered(false, false);
    RequestIsValid(net, Confirm, target);
    var request, answer: Sent;
    request, answer, hs := MisdirectedConfirms(net, ProviderNamed(FIRST), Confirm, URI, target, STAMP);
    log := [request, answer];
  }
}
