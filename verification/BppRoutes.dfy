/**
 A provider's request routes: authentication, the schema of contexts, and the callback. A route looks at
 neither the provider nor the action that a message names: it answers as itself, for its own action.
 */
module BppRoutes {
  import opened Texts
  import opened Json
  import opened Collectors
  import opened Correlation
  import opened Contexts
  import opened MessageAuth
  import opened Participants
  import opened BapRoutes
  import FieldNames
  import Replay

  /** A message posted to the route of an action; `content` is what the builder of that route computes. */
  datatype Posted = Posted(route: Action, inbound: Inbound, nowIso: Text, content: map<Text, Data>)

  datatype Reply =
    | Unauthenticated(reason: Reason)
    | InvalidContext
    | Acknowledged(messageId: Text, url: Text, callback: Data)

  /** `request.body ?? {}` */
  function Incoming(x: Posted): Inbound {
    x.inbound.(body := if x.inbound.body == Undefined || x.inbound.body == Null then Obj([]) else x.inbound.body)
  }

  /** The context a body is read with. */
  function ReadRequest(f: Formats, d: Data): Option<Context> {
    if d.DMap? && FieldNames.CONTEXT in d.fields then ReadContext(f, d.fields[FieldNames.CONTEXT]) else None
  }

  /** The callback to a request with context `req`. */
  function CallbackTo(req: Context, me: Responder, x: Posted): Data {
    MessageData(Callback(req, x.route, me, x.nowIso, DMap(x.content)).0, DMap(x.content))
  }

  /** `becknRoute`: the reply, with the callback that goes out, and the replay cache afterwards. */
  function Respond(f: Formats, me: Responder, auth: Auth, cache: Replay.Cache, x: Posted): (Reply, Replay.Cache) {
    var (verdict, after) := SettleOf(auth, cache, Incoming(x));
    if verdict.Rejected? then (Unauthenticated(verdict.reason), after)
    else match ReadRequest(f, Denote(Incoming(x).body))
      case None => (InvalidContext, after)
      case Some(req) =>
        (Acknowledged(req.messageId, CallbackUrl(req, ON + ActionName(x.route)), CallbackTo(req, me, x)), after)
  }

  method BecknRoute(f: Formats, me: Responder, auth: Auth, cache: Replay.ReplayCache, x: Posted) returns (reply: Reply)
    modifies cache
    ensures (reply, cache.seenUntil) == Respond(f, me, auth, old(cache.seenUntil), x)
  {
    var body := x.inbound.body;
    if body == Undefined || body == Null {
      body := Obj([]);
    }
    var verdict := VerifyMessage(auth.signed, auth.resolveKey, auth.readNumber, body, x.inbound.header,
                                 x.inbound.nowMs, auth.skew, cache, x.inbound.cacheNowMs);
    if verdict.Rejected? {
      return Unauthenticated(verdict.reason);
    }
    var parsed := ReadRequest(f, Denote(body));
    if parsed.None? {
      return InvalidContext;
    }
    var (context, message) := Callback(parsed.value, x.route, me, x.nowIso, DMap(x.content));
    reply := Acknowledged(parsed.value.messageId, CallbackUrl(parsed.value, context.action), MessageData(context, message));
  }

  /** The body is that of a message about transaction `t`. */
  predicate Carries(d: Data, t: Text) {
    && d.DMap? && FieldNames.CONTEXT in d.fields
    && var c := d.fields[FieldNames.CONTEXT];
       c.DMap? && FieldNames.TRANSACTION_ID in c.fields && c.fields[FieldNames.TRANSACTION_ID] == DStr(t)
  }

  lemma MessageCarries(context: Context, content: Data)
    ensures Carries(MessageData(context, content), context.transactionId)
  {
    NamesDiffer();
    KnownFields(context);
  }

  lemma ReadCarries(f: Formats, d: Data, req: Context)
    requires ReadRequest(f, d) == Some(req)
    ensures Carries(d, req.transactionId)
  {
    ReadIsData(f, d.fields[FieldNames.CONTEXT], req);
    KnownFields(req);
  }

  lemma AcknowledgedAnswers(me: Responder, req: Context, x: Posted)
    ensures AnswersAs(CallbackTo(req, me, x), req.transactionId, x.route, me.bppId)
  {
    assert CallbackTo(req, me, x) ==
           MessageData(Callback(req, x.route, Responder(me.bppId, me.bppUri), x.nowIso, DMap(x.content)).0, DMap(x.content));
  }

  /** The body is an object whose context the schema accepts. */
  ghost predicate HasContext(f: Formats, d: Data) {
    exists req: Context ::
      ValidContext(f, req) && d.DMap? && FieldNames.CONTEXT in d.fields && d.fields[FieldNames.CONTEXT] == ContextData(req)
  }

  lemma ReadExactly(f: Formats, d: Data)
    ensures ReadRequest(f, d).Some? <==> HasContext(f, d)
  {
    if ReadRequest(f, d).Some? {
      ReadIsData(f, d.fields[FieldNames.CONTEXT], ReadRequest(f, d).value);
    }
    if HasContext(f, d) {
      var req: Context :| ValidContext(f, req) && d.DMap? && FieldNames.CONTEXT in d.fields
                          && d.fields[FieldNames.CONTEXT] == ContextData(req);
      DataIsRead(f, req);
    }
  }

  /** The callback answers whatever message it was, for transaction `t` of that message. */
  predicate FiledUnder(callback: Data, t: Text, a: Action) {
    CallbackKey(EnvelopeOf(callback)) == if t == [] then None else Some(Key(t, ActionName(a)))
  }

  function ContextFields(d: Data): map<Text, Data> {
    if d.DMap? && FieldNames.CONTEXT in d.fields && d.fields[FieldNames.CONTEXT].DMap?
    then d.fields[FieldNames.CONTEXT].fields else map[]
  }

  /** `base` less one slash at its end, a slash, `on_` and the action. */
  ghost predicate IsCallbackUrl(url: Text, base: Text, a: Action) {
    exists root: Text ::
      && (base == root + [SLASH] || (base == root && (base == [] || base[|base| - 1] != SLASH)))
      && url == root + [SLASH] + ON + ActionName(a)
  }

  /**
   The reply acknowledges the message's own id and goes to the callback route of the BAP's own URI. The
   callback's context is the message's, field by field, but for the action, the responder and the time.
   */
  ghost predicate RepliesTo(reply: Reply, d: Data, me: Responder, x: Posted)
    requires reply.Acknowledged?
  {
    var asked, answer := ContextFields(d), ContextFields(reply.callback);
    && FieldNames.MESSAGE_ID in asked && asked[FieldNames.MESSAGE_ID] == DStr(reply.messageId)
    && FieldNames.BAP_URI in asked && asked[FieldNames.BAP_URI].DStr?
    && IsCallbackUrl(reply.url, asked[FieldNames.BAP_URI].s, x.route)
    && reply.callback.DMap? && FieldNames.MESSAGE in reply.callback.fields
    && reply.callback.fields[FieldNames.MESSAGE] == DMap(x.content)
    && answer == asked[FieldNames.ACTION := DStr(ON + ActionName(x.route))]
                      [FieldNames.BPP_ID := DStr(me.bppId)]
                      [FieldNames.BPP_URI := DStr(me.bppUri)]
                      [FieldNames.TIMESTAMP := DStr(x.nowIso)]
  }

  lemma UrlIsCallbackUrl(req: Context, a: Action)
    ensures IsCallbackUrl(CallbackUrl(req, ON + ActionName(a)), req.bapUri, a)
  {
    var u := req.bapUri;
    var root := if u != [] && u[|u| - 1] == SLASH then u[..|u| - 1] else u;
    assert root + [SLASH] + (ON + ActionName(a)) == root + [SLASH] + ON + ActionName(a);
    assert u == root + [SLASH] || u == root;
  }

  lemma EchoedKnown(req: Context, action: Text, me: Responder, nowIso: Text, k: Text)
    ensures Known(ResponseContext(req, action, me, nowIso), k) ==
            if k == FieldNames.ACTION then Some(action)
            else if k == FieldNames.BPP_ID then Some(me.bppId)
            else if k == FieldNames.BPP_URI then Some(me.bppUri)
            else if k == FieldNames.TIMESTAMP then Some(nowIso)
            else Known(req, k)
  {
    NamesDiffer();
  }

  lemma EchoedField(req: Context, action: Text, me: Responder, nowIso: Text, k: Text)
    ensures var asked, answer := ContextData(req).fields, ContextData(ResponseContext(req, action, me, nowIso)).fields;
            var expected := asked[FieldNames.ACTION := DStr(action)][FieldNames.BPP_ID := DStr(me.bppId)]
                                 [FieldNames.BPP_URI := DStr(me.bppUri)][FieldNames.TIMESTAMP := DStr(nowIso)];
            (k in answer <==> k in expected) && (k in answer ==> answer[k] == expected[k])
  {
    NamesDiffer();
    DataFields(req, k);
    DataFields(ResponseContext(req, action, me, nowIso), k);
    EchoedKnown(req, action, me, nowIso, k);
  }

  lemma EchoedContext(req: Context, action: Text, me: Responder, nowIso: Text)
    ensures ContextData(ResponseContext(req, action, me, nowIso)).fields ==
            ContextData(req).fields[FieldNames.ACTION := DStr(action)][FieldNames.BPP_ID := DStr(me.bppId)]
                                   [FieldNames.BPP_URI := DStr(me.bppUri)][FieldNames.TIMESTAMP := DStr(nowIso)]
  {
    forall k ensures var asked := ContextData(req).fields;
                     var answer := ContextData(ResponseContext(req, action, me, nowIso)).fields;
                     var expected := asked[FieldNames.ACTION := DStr(action)][FieldNames.BPP_ID := DStr(me.bppId)]
                                          [FieldNames.BPP_URI := DStr(me.bppUri)][FieldNames.TIMESTAMP := DStr(nowIso)];
                     (k in answer <==> k in expected) && (k in answer ==> answer[k] == expected[k])
    {
      EchoedField(req, action, me, nowIso, k);
    }
  }

  lemma AnswerEchoes(f: Formats, d: Data, req: Context, me: Responder, x: Posted)
    requires ReadRequest(f, d) == Some(req)
    ensures var url := CallbackUrl(req, ON + ActionName(x.route));
            RepliesTo(Acknowledged(req.messageId, url, CallbackTo(req, me, x)), d, me, x)
  {
    NamesDiffer();
    ReadIsData(f, d.fields[FieldNames.CONTEXT], req);
    KnownFields(req);
    DataFields(req, FieldNames.MESSAGE_ID);
    DataFields(req, FieldNames.BAP_URI);
    UrlIsCallbackUrl(req, x.route);
    EchoedContext(req, ON + ActionName(x.route), me, x.nowIso);
  }

  /** The route takes the empty object for a missing body, and everything else as it came. */
  predicate TakesIn(x: Posted, i: Inbound) {
    && i.header == x.inbound.header && i.nowMs == x.inbound.nowMs && i.cacheNowMs == x.inbound.cacheNowMs
    && (x.inbound.body == Undefined || x.inbound.body == Null ==> i.body == Obj([]))
    && (x.inbound.body != Undefined && x.inbound.body != Null ==> i.body == x.inbound.body)
  }

  /**
   Who is answered, and with what: every authenticated message with a valid context and nothing else,
   whatever provider and action it names, gets this provider's answer for the action of the route and
   the transaction of the message, and a BAP files it under these.
   */
  lemma EveryRouteAnswersAsItself(f: Formats, me: Responder, auth: Auth, cache: Replay.Cache, x: Posted, i: Inbound)
    requires TakesIn(x, i)
    ensures var (reply, after) := Respond(f, me, auth, cache, x);
            var (verdict, recorded) := SettleOf(auth, cache, i);
            var d := Denote(i.body);
            && after == recorded
            && (verdict.Rejected? ==> reply == Unauthenticated(verdict.reason))
            && (verdict.Accepted? && !HasContext(f, d) ==> reply == InvalidContext)
            && (reply.Acknowledged? <==> verdict.Accepted? && HasContext(f, d))
            && (reply.Acknowledged? ==>
                exists t :: Carries(d, t) && AnswersAs(reply.callback, t, x.route, me.bppId)
                            && FiledUnder(reply.callback, t, x.route))
            && (reply.Acknowledged? ==> RepliesTo(reply, d, me, x))
  {
    assert i == Incoming(x);
    var reply, d := Respond(f, me, auth, cache, x).0, Denote(i.body);
    ReadExactly(f, d);
    if reply.Acknowledged? {
      var req := ReadRequest(f, d).value;
      ReadCarries(f, d, req);
      AcknowledgedAnswers(me, req, x);
      AnswerIsFiled(reply.callback, req.transactionId, x.route, me.bppId);
      AnswerEchoes(f, d, req, me, x);
    }
  }
}
