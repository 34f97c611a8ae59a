/** Confirm calls: each asks a BPP, and only after its callback asks the Access Manager for a grant. */
module Confirmation {
  import opened Texts
  import opened Collectors
  import opened Correlation
  import opened Grants

  datatype Params = Params(
    transactionId: Text, bppId: Text, bppUri: Option<Text>, offerId: Text, resourceId: Text,
    grantee: Grantee, purpose: Text, licenseClass: LicenseClass, scope: Option<Scope>)

  /** Where one `confirm` call stands. `collector` is the fan-out it awaits. */
  datatype Phase = Waiting | TimedOut | Issuing

  datatype Call = Call(params: Params, target: Endpoint, collector: nat, phase: Phase)

  /** An issue request, with the call that made it. */
  datatype Issued = Issued(call: nat, request: IssueRequest)

  datatype System = System(bap: State, calls: seq<Call>, issued: seq<Issued>)

  /** Other fan-outs, callbacks and timers are the machine's own events. */
  datatype Move = Machine(event: Event) | Start(params: Params) | Resume(call: nat)

  /** `resolveBpp` */
  function Resolved(bpps: seq<Endpoint>, bppId: Text): (r: Option<Endpoint>)
    ensures r.Some? ==> exists i :: 0 <= i < |bpps| && bpps[i] == r.value && r.value.bppId == bppId
                                    && forall j :: 0 <= j < i ==> bpps[j].bppId != bppId
    ensures r.None? ==> forall b :: b in bpps ==> b.bppId != bppId
  {
    if bpps == [] then None
    else if bpps[0].bppId == bppId then Some(bpps[0])
    else Resolved(bpps[1..], bppId)
  }

  function RequestOf(p: Params, target: Endpoint): IssueRequest {
    IssueRequest(p.grantee,
                 Provider(target.bppId, if p.bppUri.Some? then p.bppUri.value else target.uri),
                 Resource(p.resourceId, p.offerId),
                 if p.scope.Some? then p.scope.value else Scope(Full, None, None),
                 p.licenseClass, p.purpose, p.transactionId, None)
  }

  /** `confirm` up to its first await; an unknown BPP throws and nothing is sent. */
  function StartMove(config: Config, s: System, p: Params): System {
    match Resolved(config.bpps, p.bppId)
    case None => s
    case Some(target) =>
      s.(bap := RegisterStep(s.bap, Key(p.transactionId, ActionName(Confirm)), 1),
         calls := s.calls + [Call(p, target, |s.bap.collectors|, Waiting)])
  }

  /** `confirm` after the await: no response is a timeout, otherwise the grant is requested. */
  function ResumeMove(s: System, c: nat): System {
    if c >= |s.calls| || s.calls[c].phase != Waiting || s.calls[c].collector >= |s.bap.collectors| then s
    else match s.bap.collectors[s.calls[c].collector].resolvedWith
      case None => s
      case Some(responses) =>
        if responses == [] then s.(calls := s.calls[c := s.calls[c].(phase := TimedOut)])
        else s.(calls := s.calls[c := s.calls[c].(phase := Issuing)],
                issued := s.issued + [Issued(c, RequestOf(s.calls[c].params, s.calls[c].target))])
  }

  function Apply(config: Config, s: System, m: Move): System {
    match m
    case Machine(e) => s.(bap := Step(s.bap, e))
    case Start(p) => StartMove(config, s, p)
    case Resume(c) => ResumeMove(s, c)
  }

  function Play(config: Config, moves: seq<Move>): System {
    if moves == [] then System(INITIAL, [], [])
    else Apply(config, Play(config, moves[..|moves| - 1]), moves[|moves| - 1])
  }

  /** The collector of a call belongs to its transaction and resolved as the call's phase says. */
  predicate CallOk(config: Config, s: System, c: Call) {
    && c.target in config.bpps && c.target.bppId == c.params.bppId
    && c.collector < |s.bap.collectors|
    && s.bap.collectors[c.collector].key == Key(c.params.transactionId, ActionName(Confirm))
    && (c.phase == TimedOut ==> s.bap.collectors[c.collector].resolvedWith == Some([]))
    && (c.phase == Issuing ==>
          && s.bap.collectors[c.collector].resolvedWith.Some?
          && s.bap.collectors[c.collector].resolvedWith.value != [])
  }

  predicate IssuedOk(s: System, x: Issued) {
    && x.call < |s.calls|
    && s.calls[x.call].phase == Issuing
    && x.request == RequestOf(s.calls[x.call].params, s.calls[x.call].target)
  }

  ghost predicate Requested(issued: seq<Issued>, c: nat) {
    exists x :: 0 <= x < |issued| && issued[x].call == c
  }

  ghost predicate SystemOk(config: Config, s: System) {
    && Inv(s.bap)
    && (forall c :: 0 <= c < |s.calls| ==> CallOk(config, s, s.calls[c]))
    && (forall x :: 0 <= x < |s.issued| ==> IssuedOk(s, s.issued[x]))
    && (forall x, y :: 0 <= x < y < |s.issued| ==> s.issued[x].call != s.issued[y].call)
    && (forall c :: 0 <= c < |s.calls| && s.calls[c].phase == Issuing ==> Requested(s.issued, c))
    && (forall c, d :: 0 <= c < d < |s.calls| ==> s.calls[c].collector != s.calls[d].collector)
  }

  lemma MachineKeepsCalls(config: Config, s: System, e: Event)
    requires SystemOk(config, s)
    ensures SystemOk(config, s.(bap := Step(s.bap, e)))
  {
    var t := s.(bap := Step(s.bap, e));
    StepKeepsInv(s.bap, e);
    forall c | 0 <= c < |s.calls| ensures CallOk(config, t, t.calls[c]) {
      assert CallOk(config, s, s.calls[c]);
      StepKeepsResolved(s.bap, e, s.calls[c].collector);
      assert CollectorOk(s.bap.collectors[s.calls[c].collector]);
    }
    forall x | 0 <= x < |s.issued| ensures IssuedOk(t, t.issued[x]) {
      assert IssuedOk(s, s.issued[x]);
    }
  }

  lemma OneMoreRequest(issued: seq<Issued>, x: Issued, d: nat)
    ensures Requested(issued + [x], d) <==> Requested(issued, d) || x.call == d
  {
    if Requested(issued, d) {
      var y :| 0 <= y < |issued| && issued[y].call == d;
      assert (issued + [x])[y].call == d;
    }
    assert (issued + [x])[|issued|] == x;
  }

  lemma ResumeKeepsCallOk(config: Config, s: System, c: nat)
    requires forall d :: 0 <= d < |s.calls| ==> CallOk(config, s, s.calls[d])
    ensures var t := ResumeMove(s, c);
            |t.calls| == |s.calls| && forall d :: 0 <= d < |t.calls| ==>
              CallOk(config, t, t.calls[d]) && t.calls[d].collector == s.calls[d].collector
  {
    var t := ResumeMove(s, c);
    forall d | 0 <= d < |t.calls| ensures CallOk(config, t, t.calls[d]) {
      assert CallOk(config, s, s.calls[d]);
    }
  }

  lemma ResumeKeepsIssued(config: Config, s: System, c: nat)
    requires SystemOk(config, s)
    ensures var t := ResumeMove(s, c);
            && (forall x :: 0 <= x < |t.issued| ==> IssuedOk(t, t.issued[x]))
            && (forall x, y :: 0 <= x < y < |t.issued| ==> t.issued[x].call != t.issued[y].call)
  {
    var t := ResumeMove(s, c);
    if t != s {
      forall x | 0 <= x < |s.issued| ensures IssuedOk(t, s.issued[x]) && s.issued[x].call != c {
        assert IssuedOk(s, s.issued[x]);
      }
    }
  }

  lemma ResumeKeepsCalls(config: Config, s: System, c: nat)
    requires SystemOk(config, s)
    ensures SystemOk(config, ResumeMove(s, c))
  {
    var t := ResumeMove(s, c);
    ResumeKeepsCallOk(config, s, c);
    ResumeKeepsIssued(config, s, c);
    forall d | 0 <= d < |t.calls| && t.calls[d].phase == Issuing ensures Requested(t.issued, d) {
      if t.issued != s.issued {
        OneMoreRequest(s.issued, Issued(c, RequestOf(s.calls[c].params, s.calls[c].target)), d);
      }
    }
  }

  lemma StartKeepsCalls(config: Config, s: System, p: Params)
    requires SystemOk(config, s)
    ensures SystemOk(config, StartMove(config, s, p))
  {
    var key := Key(p.transactionId, ActionName(Confirm));
    MachineKeepsCalls(config, s, Register(key, 1));
    var u, t := s.(bap := Step(s.bap, Register(key, 1))), StartMove(config, s, p);
    if t != s {
      forall d | 0 <= d < |t.calls| ensures CallOk(config, t, t.calls[d]) {
        if d < |s.calls| {
          assert CallOk(config, u, u.calls[d]);
        }
      }
      forall x | 0 <= x < |s.issued| ensures IssuedOk(t, s.issued[x]) {
        assert IssuedOk(s, s.issued[x]);
      }
      forall c | 0 <= c < |s.calls| ensures s.calls[c].collector < |s.bap.collectors| {
        assert CallOk(config, s, s.calls[c]);
      }
      forall d | 0 <= d < |t.calls| && t.calls[d].phase == Issuing
        ensures Requested(t.issued, d)
      {
        assert s.calls[d].phase == Issuing;
      }
    }
  }

  lemma {:induction false} PlayIsOk(config: Config, moves: seq<Move>)
    ensures SystemOk(config, Play(config, moves))
  {
    if moves != [] {
      var before, m := moves[..|moves| - 1], moves[|moves| - 1];
      PlayIsOk(config, before);
      match m
      case Machine(e) => MachineKeepsCalls(config, Play(config, before), e);
      case Start(p) => StartKeepsCalls(config, Play(config, before), p);
      case Resume(c) => ResumeKeepsCalls(config, Play(config, before), c);
    }
  }

  /** What the call was asked for: its scope or else the full one, its provider URI or else the target's. */
  predicate AsksFor(request: IssueRequest, call: Call) {
    var p := call.params;
    && (p.scope.Some? ==> request.scope == p.scope.value)
    && (p.scope.None? ==> request.scope.kind == Full && request.scope.fields == None && request.scope.maxDownloads == None)
    && (p.bppUri.Some? ==> request.provider.bppUri == p.bppUri.value)
    && (p.bppUri.None? ==> request.provider.bppUri == call.target.uri)
    && request.provider.bppId == call.target.bppId
    && request.resource.resourceId == p.resourceId && request.resource.offerId == p.offerId
    && request.grantee == p.grantee && request.purpose == p.purpose && request.licenseClass == p.licenseClass
    && request.transactionId == p.transactionId && request.ttlSeconds == None
  }

  /**
   No grant without a confirmation. Over every run of concurrent confirm calls, other fan-outs,
   callbacks and timers, each issue request was made by one confirm call, whose own fan-out for its
   own transaction resolved with at least one callback; the request carries everything that call was
   asked for, at the configured provider; and no call makes two.
   */
  lemma NoGrantWithoutConfirmation(config: Config, moves: seq<Move>, x: nat)
    requires x < |Play(config, moves).issued|
    ensures var s := Play(config, moves);
            var c := s.issued[x].call;
            && c < |s.calls| && s.calls[c].phase == Issuing
            && var call := s.calls[c];
            && call.collector < |s.bap.collectors|
            && s.bap.collectors[call.collector].key == Key(call.params.transactionId, ActionName(Confirm))
            && s.bap.collectors[call.collector].resolvedWith.Some?
            && s.bap.collectors[call.collector].resolvedWith.value != []
            && call.target in config.bpps
            && s.issued[x].request.provider.bppId == call.params.bppId == call.target.bppId
            && s.issued[x].request.transactionId == call.params.transactionId
            && s.issued[x].request.resource == Resource(call.params.resourceId, call.params.offerId)
            && AsksFor(s.issued[x].request, call)
            && forall y :: 0 <= y < |s.issued| && s.issued[y].call == c ==> y == x
  {
    PlayIsOk(config, moves);
    var s := Play(config, moves);
    assert IssuedOk(s, s.issued[x]);
    assert CallOk(config, s, s.calls[s.issued[x].call]);
  }

  /** A call to a configured provider awaits a fan-out of its own for one callback; any other starts nothing. */
  lemma StartedExactly(config: Config, moves: seq<Move>, p: Params)
    ensures var s, t := Play(config, moves), Play(config, moves + [Start(p)]);
            if forall b :: b in config.bpps ==> b.bppId != p.bppId then t == s
            else
              && |t.calls| == |s.calls| + 1 && t.calls[..|s.calls|] == s.calls && t.issued == s.issued
              && var call := t.calls[|s.calls|];
              && call.params == p && call.phase == Waiting
              && call.target in config.bpps && call.target.bppId == p.bppId
              && call.collector == |s.bap.collectors|
              && t.bap == Step(s.bap, Register(Key(p.transactionId, ActionName(Confirm)), 1))
  {
    assert (moves + [Start(p)])[..|moves|] == moves;
  }

  /**
   Once its fan-out has resolved, a waiting call asks for one grant if anything was collected and times
   out if nothing was; before that it waits.
   */
  lemma ResumedExactly(config: Config, moves: seq<Move>, c: nat)
    requires c < |Play(config, moves).calls| && Play(config, moves).calls[c].phase == Waiting
    ensures var s, t := Play(config, moves), Play(config, moves + [Resume(c)]);
            var call := s.calls[c];
            && call.collector < |s.bap.collectors| && t.bap == s.bap
            && (s.bap.collectors[call.collector].resolvedWith == None ==> t == s)
            && (s.bap.collectors[call.collector].resolvedWith == Some([]) ==>
                  t.calls == s.calls[c := call.(phase := TimedOut)] && t.issued == s.issued)
            && (s.bap.collectors[call.collector].resolvedWith.Some?
                && s.bap.collectors[call.collector].resolvedWith.value != [] ==>
                  && t.calls == s.calls[c := call.(phase := Issuing)]
                  && |t.issued| == |s.issued| + 1 && t.issued[..|s.issued|] == s.issued
                  && t.issued[|s.issued|].call == c && AsksFor(t.issued[|s.issued|].request, call))
  {
    assert (moves + [Resume(c)])[..|moves|] == moves;
    PlayIsOk(config, moves);
    assert CallOk(config, Play(config, moves), Play(config, moves).calls[c]);
  }

  /** A call that timed out never issues, and its fan-out collected nothing. */
  lemma TimeoutNeverIssues(config: Config, moves: seq<Move>, more: seq<Move>, c: nat)
    requires c < |Play(config, moves).calls| && Play(config, moves).calls[c].phase == TimedOut
    ensures var s := Play(config, moves + more);
            && c < |s.calls| && s.calls[c].phase == TimedOut
            && (forall x :: 0 <= x < |s.issued| ==> s.issued[x].call != c)
            && s.calls[c].collector < |s.bap.collectors|
            && s.bap.collectors[s.calls[c].collector].resolvedWith == Some([])
  {
    TimeoutStays(config, moves, more, c);
    PlayIsOk(config, moves + more);
    var s := Play(config, moves + more);
    assert CallOk(config, s, s.calls[c]);
    forall x | 0 <= x < |s.issued| ensures s.issued[x].call != c {
      assert IssuedOk(s, s.issued[x]);
    }
  }

  lemma MoveKeepsTimeout(config: Config, s: System, m: Move, c: nat)
    requires c < |s.calls| && s.calls[c].phase == TimedOut
    ensures c < |Apply(config, s, m).calls| && Apply(config, s, m).calls[c].phase == TimedOut
  {
  }

  lemma {:induction false} TimeoutStays(config: Config, moves: seq<Move>, more: seq<Move>, c: nat)
    requires c < |Play(config, moves).calls| && Play(config, moves).calls[c].phase == TimedOut
    ensures c < |Play(config, moves + more).calls| && Play(config, moves + more).calls[c].phase == TimedOut
  {
    if more == [] {
      assert moves + more == moves;
    } else {
      var n := |more| - 1;
      TimeoutStays(config, moves, more[..n], c);
      var all := moves + more;
      assert all[..|all| - 1] == moves + more[..n] && all[|all| - 1] == more[n];
      MoveKeepsTimeout(config, Play(config, moves + more[..n]), more[n], c);
    }
  }
}
