/**
 The BAP's callback routes: authentication in front of the collectors and of confirm. What a fan-out
 collects was signed with a registered key; whether it is an answer depends on whose keys those are.
 */
module BapRoutes {
  import opened Texts
  import opened Json
  import opened Collectors
  import opened Correlation
  import opened Confirmation
  import opened Contexts
  import opened MessageAuth
  import opened Participants
  import FieldNames
  import Replay

  const OBJECT_WORD: Text := [91, 111, 98, 106, 101, 99, 116, 32, 79, 98, 106, 101, 99, 116, 93] // [object Object]

  // ---- What `deliverCallback` makes of a body ----

  /** `d[k]`, with `null` and a missing field alike, as `??` takes them. */
  function Field(d: Data, k: Text): (r: Option<Data>)
    ensures r.Some? ==> r.value != DNull
  {
    if d.DMap? && k in d.fields && d.fields[k] != DNull then Some(d.fields[k]) else None
  }

  /** `String(d)` for parsed JSON. */
  function TextOf(d: Data): Text {
    match d
    case DNull => NULL_WORD
    case DBool(b) => if b then TRUE_WORD else FALSE_WORD
    case DNum(n) => Decimal(n)
    case DStr(s) => s
    case DList(items) =>
      Join(seq(|items|, i requires 0 <= i < |items| => if items[i] == DNull then [] else TextOf(items[i])))
    case DMap(_) => OBJECT_WORD
  }

  /** Null, booleans and numbers read as their JSON text, and texts as themselves. */
  lemma TextOfScalar(v: Value)
    ensures v.Null? || v.Bool? || v.Num? ==> TextOf(Denote(v)) == Print(v)
    ensures v.Str? ==> TextOf(Denote(v)) == v.s
  {
  }

  /** A list reads as its items' texts with commas between them, null as nothing. */
  lemma TextOfList(first: Data, more: seq<Data>)
    ensures TextOf(DList([])) == []
    ensures TextOf(DList([first] + more)) ==
            (if first == DNull then [] else TextOf(first)) + if more == [] then [] else [COMMA] + TextOf(DList(more))
  {
    var items := [first] + more;
    var parts := seq(|items|, i requires 0 <= i < |items| => if items[i] == DNull then [] else TextOf(items[i]));
    var rest := seq(|more|, i requires 0 <= i < |more| => if more[i] == DNull then [] else TextOf(more[i]));
    assert parts[1..] == rest;
    assert TextOf(DList(items)) == Join(parts) && TextOf(DList(more)) == Join(rest);
  }

  function TextField(d: Data, k: Text): Text {
    match Field(d, k)
    case None => []
    case Some(x) => TextOf(x)
  }

  function EnvelopeOf(d: Data): Envelope {
    var context := match Field(d, FieldNames.CONTEXT) { case None => DMap(map[]) case Some(x) => x };
    var message := match Field(d, FieldNames.MESSAGE) { case None => DMap(map[]) case Some(x) => x };
    Envelope(TextField(context, FieldNames.ACTION), TextField(context, FieldNames.TRANSACTION_ID),
             if context.DMap? && FieldNames.BPP_ID in context.fields then Some(context.fields[FieldNames.BPP_ID]) else None,
             message)
  }

  /** From the JSON of a message it takes the context's action, transaction and provider, and the content. */
  lemma MessageArrives(context: Context, content: Data)
    requires content != DNull
    ensures EnvelopeOf(MessageData(context, content)) == Arrived((context, content))
  {
    NamesDiffer();
    KnownFields(context);
  }

  // ---- Answers, and the BAP's own requests ----

  /** The body is the callback that BPP `bppId` builds on the route of `a`, from a message of transaction `t`. */
  ghost predicate AnswersAs(d: Data, t: Text, a: Action, bppId: Text) {
    exists req: Context, bppUri: Text, nowIso: Text, content: Data ::
      req.transactionId == t && content != DNull
      && d == MessageData(Callback(req, a, Responder(bppId, bppUri), nowIso, content).0, content)
  }

  /** The body is a request that this BAP sends to a provider, for a fan-out of transaction `t` and action `a`. */
  ghost predicate IsOwnRequest(config: Config, d: Data, t: Text, a: Action) {
    exists target: Endpoint, stamp: Stamp, content: Data ::
      target in config.bpps && content != DNull
      && d == MessageData(RequestContext(config, a, t, target, stamp), content)
  }

  lemma AnswerIsFiled(d: Data, t: Text, a: Action, bppId: Text)
    requires AnswersAs(d, t, a, bppId)
    ensures EnvelopeOf(d).action == ON + ActionName(a) && EnvelopeOf(d).transactionId == t
    ensures CallbackKey(EnvelopeOf(d)) == if t == [] then None else Some(Key(t, ActionName(a)))
  {
    var req: Context, bppUri: Text, nowIso: Text, content: Data :|
      req.transactionId == t && content != DNull
      && d == MessageData(Callback(req, a, Responder(bppId, bppUri), nowIso, content).0, content);
    MessageArrives(Callback(req, a, Responder(bppId, bppUri), nowIso, content).0, content);
    StripOnUndoesOn(ActionName(a));
  }

  lemma NamesHaveNoOn(a: Action)
    ensures StripOn(ActionName(a)) == ActionName(a) && ActionName(a)[0] != 111
  {
  }

  /**
   Reflection: `deliverCallback` strips `on_` only where it is, so the request itself, posted back to
   a callback route, is filed under the very fan-out that sent it.
   */
  lemma RequestIsFiled(config: Config, d: Data, t: Text, a: Action)
    requires IsOwnRequest(config, d, t, a)
    ensures EnvelopeOf(d).action == ActionName(a) && EnvelopeOf(d).transactionId == t
    ensures CallbackKey(EnvelopeOf(d)) == if t == [] then None else Some(Key(t, ActionName(a)))
  {
    var target: Endpoint, stamp: Stamp, content: Data :|
      target in config.bpps && content != DNull
      && d == MessageData(RequestContext(config, a, t, target, stamp), content);
    MessageArrives(RequestContext(config, a, t, target, stamp), content);
    NamesHaveNoOn(a);
  }

  lemma RequestIsNoAnswer(config: Config, d: Data, t: Text, a: Action, u: Text, b: Action, bppId: Text)
    requires IsOwnRequest(config, d, t, a)
    ensures !AnswersAs(d, u, b, bppId)
  {
    RequestIsFiled(config, d, t, a);
    NamesHaveNoOn(a);
    assert (ON + ActionName(b))[0] == 111;
    if AnswersAs(d, u, b, bppId) {
      AnswerIsFiled(d, u, b, bppId);
    }
  }

  lemma SameFiling(t: Text, a: Action, u: Text, b: Action)
    requires Key(t, ActionName(a)) == Key(u, ActionName(b))
    ensures t == u && a == b
  {
    KeyIsInjective(t, ActionName(a), u, ActionName(b));
    ActionNamesDiffer(a, b);
  }

  // ---- The routes ----

  /** Other fan-outs, confirm calls and their resumption, callbacks coming in, timers. */
  datatype Happening =
    | Search(key: Text, expected: nat)
    | Ask(params: Params)
    | Receive(inbound: Inbound)
    | Elapse(collector: nat)
    | Await(call: nat)

  datatype Bap = Bap(system: System, cache: Replay.Cache)

  const IDLE := Bap(System(INITIAL, [], []), map[])

  /** The move a happening is for the system behind the routes, if it gets that far. */
  function MoveOf(auth: Auth, cache: Replay.Cache, h: Happening): Option<Move> {
    match h
    case Search(key, expected) => Some(Machine(Register(key, expected)))
    case Ask(params) => Some(Start(params))
    case Elapse(i) => Some(Machine(Fire(i)))
    case Await(c) => Some(Resume(c))
    case Receive(i) =>
      if SettleOf(auth, cache, i).0.Accepted? then Some(Machine(Deliver(EnvelopeOf(Denote(i.body))))) else None
  }

  function Handle(auth: Auth, config: Config, b: Bap, h: Happening): Bap {
    var move := MoveOf(auth, b.cache, h);
    Bap(if move.Some? then Apply(config, b.system, move.value) else b.system,
        if h.Receive? then SettleOf(auth, b.cache, h.inbound).1 else b.cache)
  }

  function Serve(auth: Auth, config: Config, hs: seq<Happening>): Bap {
    if hs == [] then IDLE else Handle(auth, config, Serve(auth, config, hs[..|hs| - 1]), hs[|hs| - 1])
  }

  /** The moves of a run of the routes. */
  function MovesOf(auth: Auth, config: Config, hs: seq<Happening>): seq<Move> {
    if hs == [] then []
    else
      var before := MovesOf(auth, config, hs[..|hs| - 1]);
      match MoveOf(auth, Serve(auth, config, hs[..|hs| - 1]).cache, hs[|hs| - 1])
      case None => before
      case Some(m) => before + [m]
  }

  lemma PlayedOneMore(config: Config, moves: seq<Move>, m: Move)
    ensures Play(config, moves + [m]) == Apply(config, Play(config, moves), m)
  {
    assert (moves + [m])[..|moves|] == moves;
  }

  /** The routes move the system by the accepted callbacks alone: a refused one never reaches it. */
  lemma {:induction false} RoutesPlayMoves(auth: Auth, config: Config, hs: seq<Happening>)
    ensures Serve(auth, config, hs).system == Play(config, MovesOf(auth, config, hs))
  {
    if hs != [] {
      var before := hs[..|hs| - 1];
      RoutesPlayMoves(auth, config, before);
      match MoveOf(auth, Serve(auth, config, before).cache, hs[|hs| - 1])
      case None =>
      case Some(m) => PlayedOneMore(config, MovesOf(auth, config, before), m);
    }
  }

  lemma ServedIsOk(auth: Auth, config: Config, hs: seq<Happening>)
    ensures SystemOk(config, Serve(auth, config, hs).system)
  {
    RoutesPlayMoves(auth, config, hs);
    PlayIsOk(config, MovesOf(auth, config, hs));
  }

  /** The callbacks of a run, in order. */
  function ReceivedOf(hs: seq<Happening>): seq<Inbound> {
    if hs == [] then []
    else
      var before, last := ReceivedOf(hs[..|hs| - 1]), hs[|hs| - 1];
      if last.Receive? then before + [last.inbound] else before
  }

  lemma OneMoreAttempt(auth: Auth, run: seq<Inbound>, i: Inbound)
    ensures CacheAfterAttempts(AttemptsOf(auth, run + [i])) ==
            SettleOf(auth, CacheAfterAttempts(AttemptsOf(auth, run)), i).1
    ensures VerdictOf(auth, run + [i], |run|) == SettleOf(auth, CacheAfterAttempts(AttemptsOf(auth, run)), i).0
  {
    var all := AttemptsOf(auth, run + [i]);
    assert all[..|run|] == AttemptsOf(auth, run) && all[|run|] == Attempt(CheckOf(auth, i), i.cacheNowMs);
  }

  /** The routes verify the callbacks of a run one after the other, with one replay cache. */
  lemma {:induction false} RoutesVerifyInOrder(auth: Auth, config: Config, hs: seq<Happening>)
    ensures Serve(auth, config, hs).cache == CacheAfterAttempts(AttemptsOf(auth, ReceivedOf(hs)))
  {
    if hs == [] {
      assert AttemptsOf(auth, []) == [];
    } else {
      RoutesVerifyInOrder(auth, config, hs[..|hs| - 1]);
      if hs[|hs| - 1].Receive? {
        OneMoreAttempt(auth, ReceivedOf(hs[..|hs| - 1]), hs[|hs| - 1].inbound);
      }
    }
  }

  /** A callback moves the system exactly when it is accepted in the run of all callbacks up to it. */
  lemma AcceptedExactly(auth: Auth, config: Config, hs: seq<Happening>, i: Inbound)
    ensures var run := ReceivedOf(hs) + [i];
            MoveOf(auth, Serve(auth, config, hs).cache, Receive(i)).Some? <==> VerdictOf(auth, run, |run| - 1).Accepted?
    ensures MoveOf(auth, Serve(auth, config, hs).cache, Receive(i)).Some? ==>
            MoveOf(auth, Serve(auth, config, hs).cache, Receive(i)).value == Machine(Deliver(EnvelopeOf(Denote(i.body))))
  {
    RoutesVerifyInOrder(auth, config, hs);
    OneMoreAttempt(auth, ReceivedOf(hs), i);
  }

  /** Bodies are what parsing a request yields. */
  predicate ParsedBodies(hs: seq<Happening>) {
    forall n :: 0 <= n < |hs| && hs[n].Receive? ==> ParsedBody(hs[n].inbound)
  }

  // ---- Where a response comes from ----

  function ResponseOf(e: Envelope): Response {
    Response(e.bppId, e.message)
  }

  /** Happening `n` is an accepted callback that became response `m` of collector `c`. */
  predicate Brought(auth: Auth, config: Config, hs: seq<Happening>, n: nat, c: nat, m: nat) {
    && n < |hs| && hs[n].Receive?
    && var before := Serve(auth, config, hs[..n]);
       && SettleOf(auth, before.cache, hs[n].inbound).0.Accepted?
       && Adds(before.system.bap, EnvelopeOf(Denote(hs[n].inbound.body)), c, m)
  }

  /** Delivering the envelope adds response `m` to collector `c`. */
  predicate Adds(s: State, e: Envelope, c: nat, m: nat) {
    && c < |s.collectors| && |s.collectors[c].responses| == m
    && CallbackKey(e) == Some(s.collectors[c].key)
    && c < |DeliverStep(s, e).collectors|
    && DeliverStep(s, e).collectors[c].responses == s.collectors[c].responses + [ResponseOf(e)]
  }

  lemma DeliverAdds(s: State, e: Envelope, c: nat)
    requires Inv(s) && c < |s.collectors|
    ensures c < |DeliverStep(s, e).collectors|
    ensures DeliverStep(s, e).collectors[c].responses == s.collectors[c].responses
            || Adds(s, e, c, |s.collectors[c].responses|)
  {
  }

  lemma OnlyDeliveriesAdd(config: Config, s: System, move: Move, c: nat)
    requires Inv(s.bap) && c < |Apply(config, s, move).bap.collectors|
    requires !(move.Machine? && move.event.Deliver?)
    ensures c < |s.bap.collectors| ==> Apply(config, s, move).bap.collectors[c].responses == s.bap.collectors[c].responses
    ensures c >= |s.bap.collectors| ==> Apply(config, s, move).bap.collectors[c].responses == []
  {
  }

  /** The last happening of a run, if it is not an accepted callback, adds no response. */
  lemma LastAdds(auth: Auth, config: Config, hs: seq<Happening>, c: nat)
    requires hs != []
    requires c < |Serve(auth, config, hs).system.bap.collectors|
    ensures var n := |hs| - 1;
            var s, t := Serve(auth, config, hs[..n]).system.bap, Serve(auth, config, hs).system.bap;
            if c >= |s.collectors| then t.collectors[c].responses == []
            else t.collectors[c].key == s.collectors[c].key
                 && (t.collectors[c].responses == s.collectors[c].responses
                     || (Brought(auth, config, hs, n, c, |s.collectors[c].responses|)
                         && t.collectors[c].responses == s.collectors[c].responses
                              + [ResponseOf(EnvelopeOf(Denote(hs[n].inbound.body)))]
                         && CallbackKey(EnvelopeOf(Denote(hs[n].inbound.body))) == Some(t.collectors[c].key)))
  {
    var n := |hs| - 1;
    var b := Serve(auth, config, hs[..n]);
    ServedIsOk(auth, config, hs[..n]);
    match MoveOf(auth, b.cache, hs[n])
    case None =>
    case Some(move) =>
      MovesKeepKeys(config, b.system, move, c);
      if move.Machine? && move.event.Deliver? {
        DeliverAdds(b.system.bap, move.event.envelope, c);
      } else {
        OnlyDeliveriesAdd(config, b.system, move, c);
      }
  }

  lemma MovesKeepKeys(config: Config, s: System, move: Move, c: nat)
    requires Inv(s.bap)
    ensures |s.bap.collectors| <= |Apply(config, s, move).bap.collectors|
    ensures c < |s.bap.collectors| ==> Apply(config, s, move).bap.collectors[c].key == s.bap.collectors[c].key
  {
  }

  lemma BroughtEarlier(auth: Auth, config: Config, hs: seq<Happening>, k: nat, n: nat, c: nat, m: nat)
    requires k <= |hs| && Brought(auth, config, hs[..k], n, c, m)
    ensures Brought(auth, config, hs, n, c, m)
  {
    assert hs[..k][..n] == hs[..n] && hs[..k][n] == hs[n];
  }

  /** Every response of every collector was brought by an accepted callback filed under its key. */
  lemma {:induction false} EveryResponseWasBrought(auth: Auth, config: Config, hs: seq<Happening>, c: nat, m: nat)
    returns (n: nat)
    requires var s := Serve(auth, config, hs).system.bap; c < |s.collectors| && m < |s.collectors[c].responses|
    ensures Brought(auth, config, hs, n, c, m)
    ensures var e, d := EnvelopeOf(Denote(hs[n].inbound.body)), Serve(auth, config, hs).system.bap.collectors[c];
            d.responses[m] == ResponseOf(e) && CallbackKey(e) == Some(d.key)
  {
    n := |hs| - 1;
    var s := Serve(auth, config, hs[..n]).system.bap;
    LastAdds(auth, config, hs, c);
    assert c < |s.collectors|;
    if m < |s.collectors[c].responses| {
      var last := n;
      n := EveryResponseWasBrought(auth, config, hs[..last], c, m);
      BroughtEarlier(auth, config, hs, last, n, c, m);
    }
  }
}
