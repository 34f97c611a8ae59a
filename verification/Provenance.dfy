/**
 Who confirmed: exactly when everything the BAP collects is an answer, and exactly when every grant it
 asks for was confirmed by the provider the grant names.
 */
module Provenance {
  import opened Texts
  import opened Json
  import opened Headers
  import opened Signing
  import opened Collectors
  import opened Correlation
  import opened Confirmation
  import opened Contexts
  import opened MessageAuth
  import opened Participants
  import opened BapRoutes
  import opened Networks
  import opened Rerouting
  import Grants

  // ---- One callback after the opening of a fan-out ----

  lemma ServedOneMore(auth: Auth, config: Config, hs: seq<Happening>, h: Happening)
    ensures Serve(auth, config, hs + [h]) == Handle(auth, config, Serve(auth, config, hs), h)
  {
    assert (hs + [h])[..|hs|] == hs;
  }

  lemma FirstDelivery(key: Text, e: Envelope)
    requires CallbackKey(e) == Some(key)
    ensures var s := RegisterStep(INITIAL, key, 1);
            && Adds(s, e, 0, 0)
            && DeliverStep(s, e).collectors == [Collector(key, 1, [ResponseOf(e)], false, 1, Some([ResponseOf(e)]))]
  {
    var cs := DeliverStep(RegisterStep(INITIAL, key, 1), e).collectors;
    assert |cs| == 1 && cs[0].responses == [ResponseOf(e)];
    assert cs[0] == Collector(key, 1, [ResponseOf(e)], false, 1, Some([ResponseOf(e)]));
  }

  lemma AcceptedFirst(auth: Auth, config: Config, system: System, i: Inbound)
    requires CheckOf(auth, i).Passed?
    ensures SettleOf(auth, map[], i).0.Accepted?
    ensures Handle(auth, config, Bap(system, map[]), Receive(i)).system ==
            system.(bap := DeliverStep(system.bap, EnvelopeOf(Denote(i.body))))
  {
  }

  /** What the opening of a run leaves: one fan-out under `key`, and nothing seen yet. */
  predicate Opens(auth: Auth, config: Config, opening: Happening, system: System, key: Text) {
    && !opening.Receive? && system.bap == RegisterStep(INITIAL, key, 1)
    && Handle(auth, config, IDLE, opening) == Bap(system, map[])
  }

  /** A run: something opens a fan-out under its key, then one callback comes in and resolves it. */
  lemma FirstCallback(auth: Auth, config: Config, opening: Happening, system: System, m: Sent, key: Text)
    requires ReadsDecimals(auth.readNumber) && WellSigned(auth, m) && Registered(auth, m)
    requires Opens(auth, config, opening, system, key)
    requires CallbackKey(EnvelopeOf(Meaning(m))) == Some(key)
    ensures var hs, e := [opening, Receive(InboundOf(auth, m))], EnvelopeOf(Meaning(m));
            && ParsedBodies(hs) && Brought(auth, config, hs, 1, 0, 0)
            && Serve(auth, config, hs).system == system.(bap := DeliverStep(system.bap, e))
            && DeliverStep(system.bap, e).collectors == [Collector(key, 1, [ResponseOf(e)], false, 1, Some([ResponseOf(e)]))]
  {
    InboundPasses(auth, m);
    InboundIsParsed(auth, m);
    FirstReceived(auth, config, opening, system, InboundOf(auth, m), key);
    TwoBodies(opening, InboundOf(auth, m));
  }

  lemma TwoBodies(opening: Happening, i: Inbound)
    requires !opening.Receive? && ParsedBody(i)
    ensures ParsedBodies([opening, Receive(i)])
  {
  }

  lemma FirstReceived(auth: Auth, config: Config, opening: Happening, system: System, i: Inbound, key: Text)
    requires CheckOf(auth, i).Passed? && Opens(auth, config, opening, system, key)
    requires CallbackKey(EnvelopeOf(Denote(i.body))) == Some(key)
    ensures var hs, e := [opening, Receive(i)], EnvelopeOf(Denote(i.body));
            && Brought(auth, config, hs, 1, 0, 0)
            && Serve(auth, config, hs).system == system.(bap := DeliverStep(system.bap, e))
            && DeliverStep(system.bap, e).collectors == [Collector(key, 1, [ResponseOf(e)], false, 1, Some([ResponseOf(e)]))]
  {
    TwoSteps(auth, config, opening, Receive(i));
    AcceptedFirst(auth, config, system, i);
    FirstDelivery(key, EnvelopeOf(Denote(i.body)));
  }

  lemma TwoSteps(auth: Auth, config: Config, g: Happening, h: Happening)
    ensures [g, h][..1] == [g]
    ensures Serve(auth, config, [g]) == Handle(auth, config, IDLE, g)
    ensures Serve(auth, config, [g, h]) == Handle(auth, config, Serve(auth, config, [g]), h)
  {
    ServedOneMore(auth, config, [], g);
    ServedOneMore(auth, config, [g], h);
    assert [] + [g] == [g] && [g] + [h] == [g, h];
  }

  // ---- Only answers are collected ----

  /** Every response collected in the run was an answer of a BPP, to whatever message. */
  ghost predicate OnlyAnswers(auth: Auth, config: Config, hs: seq<Happening>) {
    forall n: nat, c: nat, m: nat :: Brought(auth, config, hs, n, c, m) ==> AnswersSomething(Denote(hs[n].inbound.body))
  }

  ghost predicate AnswersSomething(d: Data) {
    exists t, a, bppId :: AnswersAs(d, t, a, bppId)
  }

  /** A fan-out, and its own request posted back to the callback route. */
  function Reflecting(auth: Auth, m: Sent, t: Text, a: Action): seq<Happening> {
    [Search(Key(t, ActionName(a)), 1), Receive(InboundOf(auth, m))]
  }

  lemma ReflectionIsCollected(auth: Auth, config: Config, m: Sent, t: Text, a: Action)
    requires ReadsDecimals(auth.readNumber) && WellSigned(auth, m) && Registered(auth, m)
    requires t != [] && IsOwnRequest(config, Meaning(m), t, a)
    ensures ParsedBodies(Reflecting(auth, m, t, a)) && !OnlyAnswers(auth, config, Reflecting(auth, m, t, a))
  {
    RequestIsFiled(config, Meaning(m), t, a);
    FirstCallback(auth, config, Search(Key(t, ActionName(a)), 1),
                  System(RegisterStep(INITIAL, Key(t, ActionName(a)), 1), [], []), m, Key(t, ActionName(a)));
    assert !AnswersSomething(Meaning(m)) by {
      forall u, b, bppId ensures !AnswersAs(Meaning(m), u, b, bppId) {
        RequestIsNoAnswer(config, Meaning(m), t, a, u, b, bppId);
      }
    }
    assert Brought(auth, config, Reflecting(auth, m, t, a), 1, 0, 0);
  }

  /** The BAP, when it trusts itself, can verify its own request. */
  lemma OwnRequestIsVerifiable(net: Network, m: Sent)
    requires InShape(net) && TrustsItself(net) && m == Signed(net.key, net.config.bapId, m.body) && WellFormed(m.body)
    ensures WellSigned(BapAuth(net, [m]), m) && Registered(BapAuth(net, [m]), m)
  {
    assert m in [m];
    SignedIsWellSigned(BapAuth(net, [m]), net.key, net.config.bapId, m.body);
  }

  lemma OneIsHonest(net: Network, m: Sent)
    requires WellFormed(m.body) && ByBap(net, m)
    ensures HonestLog(net, [m])
  {
  }

  /** What the BAP collects is always an answer, whatever is signed and whatever happens. */
  ghost predicate OnlyAnswersEver(net: Network) {
    forall log: seq<Sent>, hs: seq<Happening> ::
      HonestLog(net, log) && ParsedBodies(hs) ==> OnlyAnswers(BapAuth(net, log), net.config, hs)
  }

  lemma NoContextIsNotFiled(d: Data)
    requires NoContext(d)
    ensures CallbackKey(EnvelopeOf(d)) == None
  {
  }

  lemma BroughtIsAnswer(net: Network, log: seq<Sent>, hs: seq<Happening>, n: nat, c: nat, m: nat)
    requires PlainIds(net) && HonestLog(net, log) && ParsedBodies(hs)
    requires !TrustsItself(net) || net.config.bpps == []
    requires Brought(BapAuth(net, log), net.config, hs, n, c, m)
    ensures AnswersSomething(Denote(hs[n].inbound.body))
  {
    var i := hs[n].inbound;
    var k := PassedWasLogged(net, log, net.registry, net.skew, i);
    assert Justified(net, log[..k], log[k]);
    if ByBap(net, log[k]) {
      if NoContext(Meaning(log[k])) {
        NoContextIsNotFiled(Denote(i.body));
      }
      assert false;
    }
    var p :| p in net.providers && ByProvider(net, p, log[..k], log[k]);
    var t, a :| RouteAnswers(net, p, log[..k], t, a, Denote(i.body));
    AnswersItself(net, p, log[..k], t, a, Denote(i.body));
  }

  /**
   Everything the BAP ever collects is an answer of some BPP if and only if the registry does not
   resolve the BAP's own id to its own key, or no provider is configured to send requests to.
   */
  lemma OnlyAnswersExactly(net: Network)
    requires InShape(net)
    ensures OnlyAnswersEver(net) <==> !TrustsItself(net) || net.config.bpps == []
  {
    if TrustsItself(net) && net.config.bpps != [] {
      var own := RequestSigned(net, Discover, NONCE, net.config.bpps[0], Stamp([], []));
      OneIsHonest(net, own);
      OwnRequestIsVerifiable(net, own);
      ReflectionIsCollected(BapAuth(net, [own]), net.config, own, NONCE, Discover);
    } else {
      forall log: seq<Sent>, hs: seq<Happening>, n: nat, c: nat, m: nat |
        HonestLog(net, log) && ParsedBodies(hs) && Brought(BapAuth(net, log), net.config, hs, n, c, m)
        ensures AnswersSomething(Denote(hs[n].inbound.body))
      {
        BroughtIsAnswer(net, log, hs, n, c, m);
      }
    }
  }

  // ---- Grants ----

  /**
   The grant of issue request `x` was confirmed by the provider it names: the first callback of the
   call's own fan-out was that provider's `on_confirm` for the call's transaction, under its own key id.
   What message the provider was answering is left open.
   */
  ghost predicate ConfirmedByTarget(auth: Auth, config: Config, hs: seq<Happening>, x: nat) {
    var s := Serve(auth, config, hs).system;
    && x < |s.issued| && s.issued[x].call < |s.calls|
    && var call := s.calls[s.issued[x].call];
       exists n: nat :: n < |hs| && Brought(auth, config, hs, n, call.collector, 0)
                        && ConfirmsAs(auth, hs[n].inbound, call.params.transactionId, call.target.bppId)
  }

  ghost predicate ConfirmsAs(auth: Auth, i: Inbound, t: Text, bppId: Text) {
    && CheckOf(auth, i).Passed? && CheckOf(auth, i).header.keyId == bppId
    && AnswersAs(Denote(i.body), t, Confirm, bppId)
  }

  /**
   Each issue request follows a callback of its call's own fan-out that is the `on_confirm` of some
   registered provider for the call's transaction, or the BAP's own confirm request come back; and the
   BAP did sign a request of that transaction.
   */
  lemma IssuedAfterAnswerOrReflection(net: Network, log: seq<Sent>, hs: seq<Happening>, x: nat) returns (n: nat, j: nat)
    requires PlainIds(net) && HonestLog(net, log) && ParsedBodies(hs)
    requires x < |Serve(BapAuth(net, log), net.config, hs).system.issued|
    ensures var s := Serve(BapAuth(net, log), net.config, hs).system;
            && s.issued[x].call < |s.calls|
            && var call := s.calls[s.issued[x].call];
               && s.issued[x].request == RequestOf(call.params, call.target)
               && call.target in net.config.bpps && call.target.bppId == call.params.bppId
               && Brought(BapAuth(net, log), net.config, hs, n, call.collector, 0)
               && (IsAnswer(net, log, hs[n].inbound, call.params.transactionId, Confirm)
                   || IsReflection(net, log, hs[n].inbound, call.params.transactionId, Confirm))
               && j < |log| && Requests(net, log[j], call.params.transactionId)
  {
    var s := Serve(BapAuth(net, log), net.config, hs).system;
    ServedIsOk(BapAuth(net, log), net.config, hs);
    assert Confirmation.IssuedOk(s, s.issued[x]);
    var call := s.calls[s.issued[x].call];
    assert CallOk(net.config, s, call);
    assert CollectorOk(s.bap.collectors[call.collector]);
    n, j := CollectedIsAnswerOrReflection(net, log, hs, call.collector, 0, call.params.transactionId, Confirm);
  }

  /**
   The registry holds the key of no one but the provider that grants will name. With two configured
   providers it holds no key at all, and nothing ever gets through.
   */
  predicate TrustsOnlyTargets(net: Network) {
    forall target, k :: target in net.config.bpps && k in net.registry ==> k == target.bppId && !TrustsItself(net)
  }

  lemma AnswerOfTarget(net: Network, log: seq<Sent>, i: Inbound, t: Text, target: Endpoint)
    requires TrustsOnlyTargets(net) && target in net.config.bpps
    requires IsAnswer(net, log, i, t, Confirm) || IsReflection(net, log, i, t, Confirm)
    ensures ConfirmsAs(BapAuth(net, log), i, t, target.bppId)
  {
    PassedIsRegistered(BapAuth(net, log), i);
    assert CheckOf(BapAuth(net, log), i).header.keyId in net.registry;
  }

  lemma IssuedAfterTarget(net: Network, log: seq<Sent>, hs: seq<Happening>, x: nat)
    requires PlainIds(net) && HonestLog(net, log) && ParsedBodies(hs) && TrustsOnlyTargets(net)
    requires x < |Serve(BapAuth(net, log), net.config, hs).system.issued|
    ensures ConfirmedByTarget(BapAuth(net, log), net.config, hs, x)
  {
    var n, j := IssuedAfterAnswerOrReflection(net, log, hs, x);
    var s := Serve(BapAuth(net, log), net.config, hs).system;
    var call := s.calls[s.issued[x].call];
    AnswerOfTarget(net, log, hs[n].inbound, call.params.transactionId, call.target);
  }

  /** A confirm call, one callback, and the call goes on. */
  function ConfirmRun(auth: Auth, p: Params, m: Sent): seq<Happening> {
    [Ask(p), Receive(InboundOf(auth, m)), Await(0)]
  }

  lemma AskOpens(auth: Auth, config: Config, p: Params, target: Endpoint)
    requires Resolved(config.bpps, p.bppId) == Some(target)
    ensures var key := Key(p.transactionId, ActionName(Confirm));
            Opens(auth, config, Ask(p), System(RegisterStep(INITIAL, key, 1), [Call(p, target, 0, Waiting)], []), key)
  {
  }

  lemma AwaitResumes(auth: Auth, config: Config, b: Bap, c: nat)
    ensures Handle(auth, config, b, Await(c)).system == ResumeMove(b.system, c)
  {
  }

  lemma ConfirmRunSteps(auth: Auth, config: Config, p: Params, m: Sent)
    ensures var hs := ConfirmRun(auth, p, m);
            && hs[..2] == [Ask(p), Receive(InboundOf(auth, m))]
            && Serve(auth, config, hs).system == ResumeMove(Serve(auth, config, hs[..2]).system, 0)
  {
    var hs := ConfirmRun(auth, p, m);
    ServedOneMore(auth, config, hs[..2], Await(0));
    assert hs == hs[..2] + [Await(0)];
    AwaitResumes(auth, config, Serve(auth, config, hs[..2]), 0);
  }

  /** Any callback filed under the call's key makes the call ask for its grant. */
  lemma ConfirmRunIssues(auth: Auth, config: Config, p: Params, target: Endpoint, m: Sent)
    requires ReadsDecimals(auth.readNumber) && WellSigned(auth, m) && Registered(auth, m)
    requires Resolved(config.bpps, p.bppId) == Some(target)
    requires CallbackKey(EnvelopeOf(Meaning(m))) == Some(Key(p.transactionId, ActionName(Confirm)))
    ensures var hs := ConfirmRun(auth, p, m);
            var s := Serve(auth, config, hs).system;
            && ParsedBodies(hs) && s.issued == [Issued(0, RequestOf(p, target))]
            && s.calls == [Call(p, target, 0, Issuing)]
  {
    var key := Key(p.transactionId, ActionName(Confirm));
    var started := System(RegisterStep(INITIAL, key, 1), [Call(p, target, 0, Waiting)], []);
    var e := EnvelopeOf(Meaning(m));
    AskOpens(auth, config, p, target);
    FirstCallback(auth, config, Ask(p), started, m, key);
    ConfirmRunSteps(auth, config, p, m);
    ResumeIssues(started.(bap := DeliverStep(started.bap, e)), p, target, ResponseOf(e));
    BodiesOfTwo(ConfirmRun(auth, p, m));
  }

  lemma BodiesOfTwo(hs: seq<Happening>)
    requires |hs| == 3 && !hs[2].Receive? && ParsedBodies([hs[0], hs[1]])
    ensures ParsedBodies(hs)
  {
    forall n | 0 <= n < |hs| && hs[n].Receive? ensures ParsedBody(hs[n].inbound) {
      assert [hs[0], hs[1]][n] == hs[n];
    }
  }

  lemma ResumeIssues(s: System, p: Params, target: Endpoint, r: Response)
    requires s.calls == [Call(p, target, 0, Waiting)] && s.issued == []
    requires |s.bap.collectors| == 1 && s.bap.collectors[0].resolvedWith == Some([r])
    ensures var t := ResumeMove(s, 0);
            t.issued == [Issued(0, RequestOf(p, target))] && t.calls == [Call(p, target, 0, Issuing)]
  {
  }

  /** The only callback of such a run brings its grant about, and confirms it if its provider does. */
  lemma ConfirmRunIsConfirmedOnlyBy(auth: Auth, config: Config, p: Params, target: Endpoint, m: Sent)
    requires ReadsDecimals(auth.readNumber) && WellSigned(auth, m) && Registered(auth, m)
    requires Resolved(config.bpps, p.bppId) == Some(target)
    requires CallbackKey(EnvelopeOf(Meaning(m))) == Some(Key(p.transactionId, ActionName(Confirm)))
    ensures ConfirmedByTarget(auth, config, ConfirmRun(auth, p, m), 0) <==>
            m.header.keyId == target.bppId && AnswersAs(Meaning(m), p.transactionId, Confirm, target.bppId)
  {
    var hs := ConfirmRun(auth, p, m);
    ConfirmRunIssues(auth, config, p, target, m);
    if ConfirmedByTarget(auth, config, hs, 0) {
      var n := Confirmer(auth, config, hs, 0);
      OneReceive(auth, p, m, n);
      ConfirmsAsSigned(auth, m, p.transactionId, target.bppId);
    }
    if m.header.keyId == target.bppId && AnswersAs(Meaning(m), p.transactionId, Confirm, target.bppId) {
      ConfirmRunBrings(auth, config, p, target, m);
      InboundPasses(auth, m);
      assert ConfirmsAs(auth, hs[1].inbound, p.transactionId, target.bppId);
    }
  }

  lemma ConfirmRunBrings(auth: Auth, config: Config, p: Params, target: Endpoint, m: Sent)
    requires ReadsDecimals(auth.readNumber) && WellSigned(auth, m) && Registered(auth, m)
    requires Resolved(config.bpps, p.bppId) == Some(target)
    requires CallbackKey(EnvelopeOf(Meaning(m))) == Some(Key(p.transactionId, ActionName(Confirm)))
    ensures Brought(auth, config, ConfirmRun(auth, p, m), 1, 0, 0)
  {
    var key := Key(p.transactionId, ActionName(Confirm));
    AskOpens(auth, config, p, target);
    FirstCallback(auth, config, Ask(p), System(RegisterStep(INITIAL, key, 1), [Call(p, target, 0, Waiting)], []), m, key);
    ConfirmRunSteps(auth, config, p, m);
    BroughtEarlier(auth, config, ConfirmRun(auth, p, m), 2, 1, 0, 0);
  }

  lemma OneReceive(auth: Auth, p: Params, m: Sent, n: nat)
    requires n < 3 && ConfirmRun(auth, p, m)[n].Receive?
    ensures ConfirmRun(auth, p, m)[n].inbound == InboundOf(auth, m)
  {
  }

  lemma ConfirmsAsSigned(auth: Auth, m: Sent, t: Text, bppId: Text)
    requires ReadsDecimals(auth.readNumber) && WellSigned(auth, m) && Registered(auth, m)
    requires ConfirmsAs(auth, InboundOf(auth, m), t, bppId)
    ensures m.header.keyId == bppId && AnswersAs(Meaning(m), t, Confirm, bppId)
  {
    InboundPasses(auth, m);
  }

  lemma Confirmer(auth: Auth, config: Config, hs: seq<Happening>, x: nat) returns (n: nat)
    requires ConfirmedByTarget(auth, config, hs, x)
    ensures n < |hs| && hs[n].Receive?
    ensures var s := Serve(auth, config, hs).system;
            var call := s.calls[s.issued[x].call];
            ConfirmsAs(auth, hs[n].inbound, call.params.transactionId, call.target.bppId)
  {
    var s := Serve(auth, config, hs).system;
    var call := s.calls[s.issued[x].call];
    n :| n < |hs| && Brought(auth, config, hs, n, call.collector, 0)
         && ConfirmsAs(auth, hs[n].inbound, call.params.transactionId, call.target.bppId);
  }

  /**
   The BAP's own confirm request, posted back to it, makes it ask for the grant with no provider
   having said anything, when the registry has the BAP's own key.
   */
  lemma ReflectedConfirmIssues(auth: Auth, config: Config, p: Params, target: Endpoint, m: Sent) returns (hs: seq<Happening>)
    requires ReadsDecimals(auth.readNumber) && WellSigned(auth, m) && Registered(auth, m)
    requires Resolved(config.bpps, p.bppId) == Some(target)
    requires p.transactionId != [] && IsOwnRequest(config, Meaning(m), p.transactionId, Confirm)
    ensures ParsedBodies(hs) && Serve(auth, config, hs).system.issued == [Issued(0, RequestOf(p, target))]
    ensures !ConfirmedByTarget(auth, config, hs, 0)
  {
    hs := ConfirmRun(auth, p, m);
    RequestIsFiled(config, Meaning(m), p.transactionId, Confirm);
    ConfirmRunIssues(auth, config, p, target, m);
    ConfirmRunIsConfirmedOnlyBy(auth, config, p, target, m);
    RequestIsNoAnswer(config, Meaning(m), p.transactionId, Confirm, p.transactionId, Confirm, target.bppId);
  }

  /** The `on_confirm` of any registered provider makes the BAP ask for the grant, whichever provider that names. */
  lemma AnyProviderConfirms(auth: Auth, config: Config, p: Params, target: Endpoint, m: Sent, bppId: Text)
    returns (hs: seq<Happening>)
    requires ReadsDecimals(auth.readNumber) && WellSigned(auth, m) && Registered(auth, m)
    requires Resolved(config.bpps, p.bppId) == Some(target)
    requires p.transactionId != [] && m.header.keyId == bppId && AnswersAs(Meaning(m), p.transactionId, Confirm, bppId)
    ensures ParsedBodies(hs) && Serve(auth, config, hs).system.issued == [Issued(0, RequestOf(p, target))]
    ensures ConfirmedByTarget(auth, config, hs, 0) <==> bppId == target.bppId
  {
    hs := ConfirmRun(auth, p, m);
    AnswerIsFiled(Meaning(m), p.transactionId, Confirm, bppId);
    ConfirmRunIssues(auth, config, p, target, m);
    ConfirmRunIsConfirmedOnlyBy(auth, config, p, target, m);
  }

  /** Confirm parameters; the rest of them does not matter. */
  function ParamsFor(t: Text, bppId: Text): Params {
    Params(t, bppId, None, [], [], Grants.Grantee([], None), [], Grants.Permissive, None)
  }

  // ---- Forwarded and re-routed requests ----

  /** The BAP's registry resolves the provider's id to the provider's key. */
  predicate KnowsProvider(net: Network, p: Provider) {
    p.me.bppId in net.registry && LowerHex(net.registry[p.me.bppId]) == p.key
  }

  /** In this run, with these messages signed, the BAP asks for a grant at `target`, and for no other. */
  ghost predicate IssuesAt(net: Network, log: seq<Sent>, hs: seq<Happening>, t: Text, target: Endpoint) {
    HonestLog(net, log) && ParsedBodies(hs)
    && Serve(BapAuth(net, log), net.config, hs).system.issued == [Issued(0, RequestOf(ParamsFor(t, target.bppId), target))]
  }

  /** The message is a request of action `b` and transaction `t` to `target`. */
  ghost predicate RequestTo(config: Config, m: Sent, b: Action, t: Text, target: Endpoint) {
    exists stamp: Stamp, content: Data ::
      content != DNull && Meaning(m) == MessageData(RequestContext(config, b, t, target, stamp), content)
  }

  /** The BAP signed a request of action `b` to `target`, and the provider answered it on its route for `confirm`. */
  ghost predicate Elicited(net: Network, p: Provider, b: Action, t: Text, target: Endpoint, request: Sent, answer: Sent) {
    && HonestLog(net, [request, answer]) && RequestTo(net.config, request, b, t, target)
    && answer.header.keyId == p.me.bppId && AnswersAs(Meaning(answer), t, Confirm, p.me.bppId)
    && WellSigned(BapAuth(net, [request, answer]), answer)
  }

  lemma AnyRequestElicits(net: Network, p: Provider, b: Action, t: Text, target: Endpoint, stamp: Stamp)
    returns (request: Sent, answer: Sent)
    requires InShape(net) && p in net.providers && KnowsBap(net, p) && target in net.config.bpps
    requires ValidContext(net.formats, RequestContext(net.config, b, t, target, stamp))
    ensures Elicited(net, p, b, t, target, request, answer) && answer.key == p.key
  {
    request, answer := AnsweredAnywhere(net, p, Confirm, b, t, target, stamp);
    AnswersItself(net, p, [request], t, Confirm, Meaning(answer));
  }

  lemma ElicitedIssues(net: Network, p: Provider, b: Action, t: Text, target: Endpoint, request: Sent, answer: Sent)
    returns (hs: seq<Happening>)
    requires Elicited(net, p, b, t, target, request, answer) && answer.key == p.key
    requires ReadsDecimals(net.readNumber) && KnowsProvider(net, p) && t != []
    requires Resolved(net.config.bpps, target.bppId) == Some(target)
    ensures IssuesAt(net, [request, answer], hs, t, target)
    ensures ConfirmedByTarget(BapAuth(net, [request, answer]), net.config, hs, 0) <==> p.me.bppId == target.bppId
  {
    var auth := BapAuth(net, [request, answer]);
    hs := AnyProviderConfirms(auth, net.config, ParamsFor(t, target.bppId), target, answer, p.me.bppId);
  }

  /**
   A request of action `b` to the provider `target`, which reaches the provider `p` on its route for
   `confirm`: `p` confirms, and the BAP asks for its grant at `target`.
   */
  lemma MisdirectedConfirms(net: Network, p: Provider, b: Action, t: Text, target: Endpoint, stamp: Stamp)
    returns (request: Sent, answer: Sent, hs: seq<Happening>)
    requires InShape(net) && p in net.providers && KnowsBap(net, p) && KnowsProvider(net, p) && t != []
    requires Resolved(net.config.bpps, target.bppId) == Some(target)
    requires ValidContext(net.formats, RequestContext(net.config, b, t, target, stamp))
    ensures Elicited(net, p, b, t, target, request, answer)
    ensures IssuesAt(net, [request, answer], hs, t, target)
    ensures ConfirmedByTarget(BapAuth(net, [request, answer]), net.config, hs, 0) <==> p.me.bppId == target.bppId
  {
    request, answer := AnyRequestElicits(net, p, b, t, target, stamp);
    hs := ElicitedIssues(net, p, b, t, target, request, answer);
  }

  /**
   The forwarded confirm: the BAP makes one request, a confirm request to `target`. Posted to another
   provider, it makes that one confirm, and the BAP asks for the grant at `target`, which said nothing.
   */
  lemma ForwardedConfirmIssues(net: Network, p: Provider, t: Text, target: Endpoint, stamp: Stamp)
    returns (request: Sent, answer: Sent, hs: seq<Happening>)
    requires InShape(net) && p in net.providers && KnowsBap(net, p) && KnowsProvider(net, p) && t != []
    requires Resolved(net.config.bpps, target.bppId) == Some(target) && p.me.bppId != target.bppId
    requires ValidContext(net.formats, RequestContext(net.config, Confirm, t, target, stamp))
    ensures RequestTo(net.config, request, Confirm, t, target)
    ensures answer.header.keyId == p.me.bppId
    ensures IssuesAt(net, [request, answer], hs, t, target)
    ensures !ConfirmedByTarget(BapAuth(net, [request, answer]), net.config, hs, 0)
  {
    request, answer, hs := MisdirectedConfirms(net, p, Confirm, t, target, stamp);
  }

  /** No message asks anyone to confirm transaction `t`. */
  ghost predicate NobodyWasAsked(net: Network, log: seq<Sent>, t: Text) {
    forall m :: m in log ==> !IsOwnRequest(net.config, Meaning(m), t, Confirm)
  }

  /**
   The re-routed select: a select request to the provider itself, posted to its route for `confirm`,
   makes it confirm, and the BAP asks for the grant, although it never asked anyone to confirm.
   */
  lemma ReroutedSelectIssues(net: Network, p: Provider, t: Text, target: Endpoint, stamp: Stamp)
    returns (log: seq<Sent>, hs: seq<Happening>)
    requires InShape(net) && p in net.providers && KnowsBap(net, p) && KnowsProvider(net, p) && t != []
    requires Resolved(net.config.bpps, target.bppId) == Some(target) && p.me.bppId == target.bppId
    requires ValidContext(net.formats, RequestContext(net.config, Select, t, target, stamp))
    ensures IssuesAt(net, log, hs, t, target) && NobodyWasAsked(net, log, t)
    ensures ConfirmedByTarget(BapAuth(net, log), net.config, hs, 0)
  {
    var request, answer: Sent;
    request, answer, hs := MisdirectedConfirms(net, p, Select, t, target, stamp);
    log := [request, answer];
    RequestIsOwn(net.config, request, Select, t, target);
    OneActionOnly(net.config, Meaning(request), t, Select, Confirm);
    AnswerIsNoRequest(net.config, Meaning(answer), t, Confirm, p.me.bppId);
    TwoDoNotAsk(net, request, answer, t);
  }

  lemma RequestIsOwn(config: Config, m: Sent, b: Action, t: Text, target: Endpoint)
    requires RequestTo(config, m, b, t, target) && target in config.bpps
    ensures IsOwnRequest(config, Meaning(m), t, b)
  {
  }

  lemma TwoDoNotAsk(net: Network, m: Sent, n: Sent, t: Text)
    requires !IsOwnRequest(net.config, Meaning(m), t, Confirm) && !IsOwnRequest(net.config, Meaning(n), t, Confirm)
    ensures NobodyWasAsked(net, [m, n], t)
  {
  }

  lemma OneActionOnly(config: Config, d: Data, t: Text, a: Action, b: Action)
    requires IsOwnRequest(config, d, t, a) && a != b
    ensures !IsOwnRequest(config, d, t, b)
  {
    RequestIsFiled(config, d, t, a);
    ActionNamesDiffer(a, b);
    if IsOwnRequest(config, d, t, b) {
      RequestIsFiled(config, d, t, b);
    }
  }

  lemma AnswerIsNoRequest(config: Config, d: Data, t: Text, a: Action, bppId: Text)
    requires AnswersAs(d, t, a, bppId)
    ensures !IsOwnRequest(config, d, t, a)
  {
    if IsOwnRequest(config, d, t, a) {
      RequestIsNoAnswer(config, d, t, a, t, a, bppId);
    }
  }

  // ---- When every grant is confirmed ----

  /** Whatever is signed and whatever happens, every grant is confirmed by the provider it names. */
  ghost predicate AlwaysConfirmed(net: Network) {
    forall log: seq<Sent>, hs: seq<Happening>, x: nat ::
      HonestLog(net, log) && ParsedBodies(hs) && x < |Serve(BapAuth(net, log), net.config, hs).system.issued| ==>
        ConfirmedByTarget(BapAuth(net, log), net.config, hs, x)
  }

  /** Who is in the BAP's registry: the BAP itself, or a provider that has the BAP in its own. */
  predicate RegistersParticipants(net: Network) {
    forall k :: k in net.registry ==>
      || (k == net.config.bapId && TrustsItself(net))
      || exists p :: p in net.providers && p.me.bppId == k && KnowsProvider(net, p) && KnowsBap(net, p)
  }

  /** With this transaction id and stamp, requests to the configured providers meet the schema of contexts. */
  predicate Sendable(net: Network, t: Text, stamp: Stamp) {
    t != [] && forall target, a: Action :: target in net.config.bpps ==>
      ValidContext(net.formats, RequestContext(net.config, a, t, target, stamp))
  }

  lemma ConfiguredIsResolved(bpps: seq<Endpoint>, bppId: Text)
    requires exists b :: b in bpps && b.bppId == bppId
    ensures Resolved(bpps, bppId).Some? && Resolved(bpps, bppId).value.bppId == bppId && Resolved(bpps, bppId).value in bpps
  {
  }

  lemma UnconfirmedBreaks(net: Network, log: seq<Sent>, hs: seq<Happening>, x: nat)
    requires HonestLog(net, log) && ParsedBodies(hs) && x < |Serve(BapAuth(net, log), net.config, hs).system.issued|
    requires !ConfirmedByTarget(BapAuth(net, log), net.config, hs, x)
    ensures !AlwaysConfirmed(net)
  {
  }

  lemma TrustingItselfBreaks(net: Network, target: Endpoint)
    requires InShape(net) && TrustsItself(net) && Resolved(net.config.bpps, target.bppId) == Some(target)
    ensures !AlwaysConfirmed(net)
  {
    var own := RequestSigned(net, Confirm, NONCE, target, Stamp([], []));
    OneIsHonest(net, own);
    OwnRequestIsVerifiable(net, own);
    var hs := ReflectedConfirmIssues(BapAuth(net, [own]), net.config, ParamsFor(NONCE, target.bppId), target, own);
    UnconfirmedBreaks(net, [own], hs, 0);
  }

  lemma ForwardingBreaks(net: Network, p: Provider, t: Text, target: Endpoint, stamp: Stamp)
    requires InShape(net) && p in net.providers && KnowsBap(net, p) && KnowsProvider(net, p) && t != []
    requires Resolved(net.config.bpps, target.bppId) == Some(target) && p.me.bppId != target.bppId
    requires ValidContext(net.formats, RequestContext(net.config, Confirm, t, target, stamp))
    ensures !AlwaysConfirmed(net)
  {
    var request, answer, hs := ForwardedConfirmIssues(net, p, t, target, stamp);
    UnconfirmedBreaks(net, [request, answer], hs, 0);
  }

  lemma TrustedTargetsConfirm(net: Network)
    requires PlainIds(net) && TrustsOnlyTargets(net)
    ensures AlwaysConfirmed(net)
  {
    forall log: seq<Sent>, hs: seq<Happening>, x: nat |
      HonestLog(net, log) && ParsedBodies(hs) && x < |Serve(BapAuth(net, log), net.config, hs).system.issued|
      ensures ConfirmedByTarget(BapAuth(net, log), net.config, hs, x)
    {
      IssuedAfterTarget(net, log, hs, x);
    }
  }

  lemma OtherTrustedBreaks(net: Network, t: Text, stamp: Stamp, named: Endpoint, k: Text)
    requires InShape(net) && RegistersParticipants(net) && Sendable(net, t, stamp)
    requires named in net.config.bpps && k in net.registry && (k != named.bppId || TrustsItself(net))
    ensures !AlwaysConfirmed(net)
  {
    ConfiguredIsResolved(net.config.bpps, named.bppId);
    var target := Resolved(net.config.bpps, named.bppId).value;
    if TrustsItself(net) {
      TrustingItselfBreaks(net, target);
    } else {
      var p :| p in net.providers && p.me.bppId == k && KnowsProvider(net, p) && KnowsBap(net, p);
      ForwardingBreaks(net, p, t, target, stamp);
    }
  }

  /**
   The BAP compares neither the `bppId` of a callback nor the id that signed it with the provider it
   asked, and a provider answers whatever it can verify. Every grant is nevertheless confirmed by the
   provider it names, in all runs of the whole network, if and only if the BAP's registry resolves no
   id but that provider's, and not the BAP's own to its own key.
   */
  lemma GrantsAreConfirmedExactly(net: Network, t: Text, stamp: Stamp)
    requires InShape(net) && RegistersParticipants(net) && Sendable(net, t, stamp)
    ensures AlwaysConfirmed(net) <==> TrustsOnlyTargets(net)
  {
    if TrustsOnlyTargets(net) {
      TrustedTargetsConfirm(net);
    } else {
      var named, k :| named in net.config.bpps && k in net.registry && (k != named.bppId || TrustsItself(net));
      OtherTrustedBreaks(net, t, stamp, named, k);
    }
  }
}
