/** How a request finds its way back: what the BAP sends, what a BPP echoes, and the collector key. */
module Correlation {
  import opened Texts
  import opened Json
  import opened Collectors

  datatype Action = Discover | Select | Init | Confirm

  const DISCOVER: Text := [100, 105, 115, 99, 111, 118, 101, 114]   // discover
  const SELECT: Text := [115, 101, 108, 101, 99, 116]               // select
  const INIT: Text := [105, 110, 105, 116]                          // init
  const CONFIRM: Text := [99, 111, 110, 102, 105, 114, 109]         // confirm
  const ON: Text := [111, 110, 95]                                  // on_
  const SLASH: CodeUnit := 47
  const VERSION: Text := [50, 46, 48, 46, 48]                       // 2.0.0

  function ActionName(a: Action): (name: Text)
    ensures name != [] && Without(COLON, name)
  {
    match a
    case Discover => DISCOVER
    case Select => SELECT
    case Init => INIT
    case Confirm => CONFIRM
  }

  datatype Endpoint = Endpoint(bppId: Text, uri: Text)

  datatype Config = Config(networkId: Text, bapId: Text, bapUri: Text, messageTtl: Text, bpps: seq<Endpoint>)

  /** The random message id and the clock reading of one request. */
  datatype Stamp = Stamp(messageId: Text, timestamp: Text)

  /** A Beckn context; `extra` are the fields a network adds, which every hop keeps. */
  datatype Context = Context(
    networkId: Text, action: Text, version: Text, bapId: Text, bapUri: Text,
    bppId: Option<Text>, bppUri: Option<Text>,
    transactionId: Text, messageId: Text, timestamp: Text, ttl: Text, extra: map<Text, Data>)

  datatype Send = Send(uri: Text, route: Action, context: Context)

  /** The context `fanOut` puts on a request to one target. */
  function RequestContext(config: Config, a: Action, transactionId: Text, target: Endpoint, stamp: Stamp): Context {
    Context(config.networkId, ActionName(a), VERSION, config.bapId, config.bapUri,
            Some(target.bppId), Some(target.uri),
            transactionId, stamp.messageId, stamp.timestamp, config.messageTtl, map[])
  }

  /** The context names the network, the BAP, the target and the request, and adds nothing. */
  predicate NamesRequest(c: Context, config: Config, a: Action, transactionId: Text, target: Endpoint, stamp: Stamp) {
    && c.networkId == config.networkId && c.bapId == config.bapId && c.bapUri == config.bapUri && c.ttl == config.messageTtl
    && c.version == VERSION && c.bppId == Some(target.bppId) && c.bppUri == Some(target.uri)
    && c.transactionId == transactionId && c.messageId == stamp.messageId && c.timestamp == stamp.timestamp
    && c.extra == map[]
    && match a
       case Discover => c.action == DISCOVER
       case Select => c.action == SELECT
       case Init => c.action == INIT
       case Confirm => c.action == CONFIRM
  }

  datatype Responder = Responder(bppId: Text, bppUri: Text)

  /** `responseContext`: the request's context with the callback action, the responder and the time. */
  function ResponseContext(req: Context, action: Text, d: Responder, nowIso: Text): Context {
    req.(action := action, bppId := Some(d.bppId), bppUri := Some(d.bppUri), timestamp := nowIso)
  }

  /** The callback built by the route of action `a`; `message` is what that builder computes. */
  function Callback(req: Context, a: Action, d: Responder, nowIso: Text, message: Data): (Context, Data) {
    (ResponseContext(req, ON + ActionName(a), d, nowIso), message)
  }

  /** What the BAP's callback route hands to `deliverCallback`. */
  function Arrived(callback: (Context, Data)): Envelope {
    var context := callback.0;
    Envelope(context.action, context.transactionId,
             if context.bppId.Some? then Some(DStr(context.bppId.value)) else None, callback.1)
  }

  lemma StripOnUndoesOn(name: Text)
    ensures StripOn(ON + name) == name
  {
    assert (ON + name)[3..] == name;
  }

  /** A transaction and a colon-free action are recovered from the key they make. */
  lemma KeyIsInjective(t: Text, a: Text, u: Text, b: Text)
    requires Without(COLON, a) && Without(COLON, b) && Key(t, a) == Key(u, b)
    ensures t == u && a == b
  {
    LastSplitIsUnique(COLON, t, a, u, b);
  }

  lemma ActionNamesDiffer(a: Action, b: Action)
    ensures ActionName(a) == ActionName(b) ==> a == b
  {
    assert |DISCOVER| == 8 && |SELECT| == 6 && |INIT| == 4 && |CONFIRM| == 7;
  }

  /**
   A callback to a request of transaction `t` goes to the collector of `t` and of the action of the
   route that built it, and to no other collector.
   */
  lemma CallbackReachesItsCollector(req: Context, a: Action, d: Responder, nowIso: Text, message: Data,
                                    t: Text, b: Action)
    requires req.transactionId != []
    ensures CallbackKey(Arrived(Callback(req, a, d, nowIso, message))) == Some(Key(t, ActionName(b))) <==>
            t == req.transactionId && b == a
  {
    StripOnUndoesOn(ActionName(a));
    ActionNamesDiffer(a, b);
    if Key(req.transactionId, ActionName(a)) == Key(t, ActionName(b)) {
      KeyIsInjective(req.transactionId, ActionName(a), t, ActionName(b));
    }
  }

  /** Where the BPP sends its callback: the `bapUri` it was given, less one trailing slash, and the action. */
  function CallbackUrl(req: Context, action: Text): Text {
    (if req.bapUri != [] && req.bapUri[|req.bapUri| - 1] == SLASH then req.bapUri[..|req.bapUri| - 1] else req.bapUri)
    + [SLASH] + action
  }

  /**
   A round trip: whatever BPP answers a request of a fan-out, its callback goes to the requesting
   BAP's own route for the action, carries the request's ids back, and is filed under the fan-out.
   */
  lemma CallbackComesHome(config: Config, a: Action, t: Text, target: Endpoint, stamp: Stamp,
                          d: Responder, nowIso: Text, message: Data, base: Text)
    requires t != [] && (config.bapUri == base || config.bapUri == base + [SLASH])
    requires base != [] && base[|base| - 1] != SLASH
    ensures var req := RequestContext(config, a, t, target, stamp);
            var (context, body) := Callback(req, a, d, nowIso, message);
            && NamesRequest(req, config, a, t, target, stamp)
            && context.action == ON + req.action && context.timestamp == nowIso
            && context.version == VERSION && context.bapUri == config.bapUri && context.ttl == config.messageTtl
            && CallbackUrl(req, context.action) == base + [SLASH] + ON + ActionName(a)
            && context.transactionId == t && context.messageId == stamp.messageId
            && context.networkId == config.networkId && context.bapId == config.bapId
            && context.bppId == Some(d.bppId) && context.bppUri == Some(d.bppUri) && body == message
            && CallbackKey(Arrived((context, body))) == Some(Key(t, ActionName(a)))
  {
    var req := RequestContext(config, a, t, target, stamp);
    CallbackReachesItsCollector(req, a, d, nowIso, message, t, a);
    assert (base + [SLASH])[..|base|] == base;
    assert base + [SLASH] + (ON + ActionName(a)) == base + [SLASH] + ON + ActionName(a);
  }

  /**
   Which envelopes of any origin reach the collector of `t` and `b`: the ones that name it, and those
   that move a colon-delimited end of the transaction id into the action.
   */
  lemma EnvelopeReaches(e: Envelope, t: Text, b: Action)
    ensures CallbackKey(e) == Some(Key(t, ActionName(b))) <==>
            && e.transactionId != []
            && (|| (e.transactionId == t && StripOn(e.action) == ActionName(b))
                || exists y: Text :: t == e.transactionId + [COLON] + y
                                     && StripOn(e.action) == y + [COLON] + ActionName(b))
  {
    var u, x, a := e.transactionId, StripOn(e.action), ActionName(b);
    if CallbackKey(e) == Some(Key(t, a)) {
      var w := u + [COLON] + x;
      assert w == t + [COLON] + a && w[|u|] == COLON;
      assert |u| <= |t|;
      if u == t {
        assert w[|u| + 1..] == x && w[|t| + 1..] == a;
      } else {
        var y := LongerHeadGoesOn(COLON, u, x, t, a);
      }
    }
    forall y: Text | t == u + [COLON] + y && x == y + [COLON] + a ensures u + [COLON] + x == t + [COLON] + a {
      assert u + [COLON] + x == u + [COLON] + (y + [COLON] + a);
    }
  }

  // ---- A network that may lose, repeat and reorder callbacks ----

  /** `e` is a callback some BPP built for a request of transaction `t` on the route of action `a`. */
  ghost predicate Answers(e: Envelope, t: Text, a: Action) {
    exists req: Context, d: Responder, nowIso: Text, message: Data ::
      req.transactionId == t && e == Arrived(Callback(req, a, d, nowIso, message))
  }

  /** Every delivered envelope answers a request that was sent, any number of times and in any order. */
  ghost predicate Honest(events: seq<Event>, sent: set<(Text, Action)>) {
    forall q :: 0 <= q < |events| && events[q].Deliver? ==>
      exists r :: r in sent && r.0 != [] && Answers(events[q].envelope, r.0, r.1)
  }

  /** Each response of a collector was brought by a delivery of its key. */
  lemma {:induction false} ResponseHasOrigin(events: seq<Event>, i: nat, m: nat) returns (q: nat)
    requires i < |Run(events).collectors| && m < |Run(events).collectors[i].responses|
    ensures q < |events| && events[q].Deliver?
    ensures CallbackKey(events[q].envelope) == Some(Run(events).collectors[i].key)
    ensures Run(events).collectors[i].responses[m] == Response(events[q].envelope.bppId, events[q].envelope.message)
  {
    var n := |events| - 1;
    var before := Run(events[..n]);
    RunKeepsInv(events[..n]);
    assert i < |before.collectors|;
    StepKeepsResolved(before, events[n], i);
    if m < |before.collectors[i].responses| {
      q := ResponseHasOrigin(events[..n], i, m);
    } else {
      q := n;
    }
  }

  /**
   Whatever the network does with honest callbacks, every response a fan-out collects answers a
   request of its own transaction and its own action.
   */
  lemma NoCrossTalk(events: seq<Event>, sent: set<(Text, Action)>, i: nat, m: nat, t: Text, a: Action)
    requires Honest(events, sent)
    requires i < |Run(events).collectors| && m < |Run(events).collectors[i].responses|
    requires Run(events).collectors[i].key == Key(t, ActionName(a))
    ensures exists q :: 0 <= q < |events| && events[q].Deliver? && Answers(events[q].envelope, t, a)
              && Run(events).collectors[i].responses[m] == Response(events[q].envelope.bppId, events[q].envelope.message)
    ensures (t, a) in sent
  {
    var q := ResponseHasOrigin(events, i, m);
    var r :| r in sent && r.0 != [] && Answers(events[q].envelope, r.0, r.1);
    var req: Context, d: Responder, nowIso: Text, message: Data :|
      req.transactionId == r.0 && events[q].envelope == Arrived(Callback(req, r.1, d, nowIso, message));
    CallbackReachesItsCollector(req, r.1, d, nowIso, message, t, a);
  }
}
