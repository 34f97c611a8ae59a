/**
 The pending-collector machine of the BAP: fan-outs register collectors, callbacks and timers race
 to resolve them, and everything is found and deleted by the key `transactionId:action`.
 */
module Collectors {
  import opened Texts
  import opened Json

  datatype Response = Response(bppId: Option<Data>, message: Data)

  /** A callback body: `String(ctx.action ?? '')`, `String(ctx.transactionId ?? '')` and the rest. */
  datatype Envelope = Envelope(action: Text, transactionId: Text, bppId: Option<Data>, message: Data)

  /** One `fanOut` promise. `resolveCalls` counts the calls of `resolve`; the first one settles it. */
  datatype Collector = Collector(
    key: Text, expected: nat, responses: seq<Response>, timerArmed: bool,
    resolveCalls: nat, resolvedWith: Option<seq<Response>>)

  datatype State = State(collectors: seq<Collector>, pending: map<Text, nat>)

  datatype Event = Register(key: Text, expected: nat) | Deliver(envelope: Envelope) | Fire(collector: nat)

  function Key(transactionId: Text, action: Text): Text {
    transactionId + [COLON] + action
  }

  /** `action.replace(/^on_/, '')` */
  function StripOn(action: Text): Text {
    if |action| >= 3 && action[0] == 111 && action[1] == 110 && action[2] == 95 then action[3..] else action
  }

  /** One `on_` at the start is dropped, nothing else. */
  lemma StripOnExactly(action: Text)
    ensures [111, 110, 95] <= action ==> action == [111, 110, 95] + StripOn(action)
    ensures !([111, 110, 95] <= action) ==> StripOn(action) == action
  {
  }

  /** The key a callback is looked up by, unless it lacks an action or a transaction. */
  function CallbackKey(e: Envelope): Option<Text> {
    if StripOn(e.action) == [] || e.transactionId == [] then None
    else Some(Key(e.transactionId, StripOn(e.action)))
  }

  const INITIAL := State([], map[])

  function Resolve(c: Collector): Collector {
    c.(timerArmed := false,
       resolveCalls := c.resolveCalls + 1,
       resolvedWith := if c.resolvedWith.None? then Some(c.responses) else c.resolvedWith)
  }

  function FreshCollector(key: Text, expected: nat): Collector {
    Collector(key, expected, [], true, 0, None)
  }

  /** `fanOut`: a collector with an armed timer, taking over its key. */
  function RegisterStep(s: State, key: Text, expected: nat): State {
    State(s.collectors + [FreshCollector(key, expected)], s.pending[key := |s.collectors|])
  }

  /** `deliverCallback`, including `finish` when enough callbacks have arrived. */
  function DeliverStep(s: State, e: Envelope): State {
    match CallbackKey(e)
    case None => s
    case Some(k) =>
      if k !in s.pending || s.pending[k] >= |s.collectors| then s
      else
        var i := s.pending[k];
        var c := s.collectors[i].(responses := s.collectors[i].responses + [Response(e.bppId, e.message)]);
        if |c.responses| >= c.expected then State(s.collectors[i := Resolve(c)], s.pending - {c.key})
        else s.(collectors := s.collectors[i := c])
  }

  /** The timer callback; a cleared or already fired timer does nothing. */
  function FireStep(s: State, i: nat): State {
    if i < |s.collectors| && s.collectors[i].timerArmed then
      State(s.collectors[i := Resolve(s.collectors[i])], s.pending - {s.collectors[i].key})
    else s
  }

  function Step(s: State, e: Event): State {
    match e
    case Register(key, expected) => RegisterStep(s, key, expected)
    case Deliver(envelope) => DeliverStep(s, envelope)
    case Fire(i) => FireStep(s, i)
  }

  function Run(events: seq<Event>): State {
    if events == [] then INITIAL else Step(Run(events[..|events| - 1]), events[|events| - 1])
  }

  // ---- What every interleaving keeps ----

  /** The larger of one and the number expected. */
  function Limit(expected: nat): (limit: nat)
    ensures limit >= 1 && limit >= expected && (limit == 1 || limit == expected)
  {
    if expected == 0 then 1 else expected
  }

  predicate CollectorOk(c: Collector) {
    && c.resolveCalls == (if c.timerArmed then 0 else 1)
    && c.resolvedWith == (if c.timerArmed then None else Some(c.responses))
    && |c.responses| <= Limit(c.expected)
    && (c.timerArmed ==> |c.responses| < Limit(c.expected))
  }

  predicate PendingOk(s: State) {
    forall k :: k in s.pending ==>
      s.pending[k] < |s.collectors| && s.collectors[s.pending[k]].key == k && s.collectors[s.pending[k]].timerArmed
  }

  predicate Inv(s: State) {
    PendingOk(s) && forall i :: 0 <= i < |s.collectors| ==> CollectorOk(s.collectors[i])
  }

  lemma StepKeepsInv(s: State, e: Event)
    requires Inv(s)
    ensures Inv(Step(s, e))
  {
  }

  /** A step leaves collectors in place, keeps keys, and never touches one that has resolved. */
  lemma StepKeepsResolved(s: State, e: Event, i: nat)
    requires Inv(s) && i < |s.collectors|
    ensures i < |Step(s, e).collectors|
    ensures var c, d := s.collectors[i], Step(s, e).collectors[i];
            d.key == c.key && d.expected == c.expected && c.responses <= d.responses
            && (!c.timerArmed ==> d == c)
  {
  }

  lemma {:induction false} RunKeepsInv(events: seq<Event>)
    ensures Inv(Run(events))
  {
    if events != [] {
      RunKeepsInv(events[..|events| - 1]);
      StepKeepsInv(Run(events[..|events| - 1]), events[|events| - 1]);
    }
  }

  /**
   Over every interleaving of fan-outs, callbacks and timers, overlapping keys included: `resolve`
   is called at most once per fan-out, with a list no longer than max(1, expected) that never grows
   afterwards, and a fan-out that has not resolved still has its timer armed.
   */
  lemma ResolvedExactlyOnce(events: seq<Event>, i: nat)
    requires i < |Run(events).collectors|
    ensures var c := Run(events).collectors[i];
            && c.resolveCalls <= 1
            && |c.responses| <= Limit(c.expected)
            && (c.resolvedWith.Some? <==> c.resolveCalls == 1)
            && (c.resolvedWith.Some? ==> c.resolvedWith.value == c.responses)
            && (c.resolvedWith.None? <==> c.timerArmed)
  {
    RunKeepsInv(events);
  }

  /** What a fan-out resolved with is what it holds after any number of further events. */
  lemma {:induction false} OutcomeIsFinal(events: seq<Event>, more: seq<Event>, i: nat)
    requires i < |Run(events).collectors| && Run(events).collectors[i].resolvedWith.Some?
    ensures i < |Run(events + more).collectors| && Run(events + more).collectors[i] == Run(events).collectors[i]
  {
    RunKeepsInv(events);
    if more == [] {
      assert events + more == events;
    } else {
      var n := |more| - 1;
      OutcomeIsFinal(events, more[..n], i);
      RunKeepsInv(events + more[..n]);
      assert (events + more)[..|events + more| - 1] == events + more[..n];
      StepKeepsResolved(Run(events + more[..n]), more[n], i);
    }
  }

  /** Once the timer of a fan-out is allowed to fire, the fan-out has resolved. */
  lemma FiringResolves(events: seq<Event>, i: nat)
    requires i < |Run(events).collectors|
    ensures Run(events + [Fire(i)]).collectors[i].resolvedWith.Some?
  {
    RunKeepsInv(events);
    assert (events + [Fire(i)])[..|events|] == events;
  }

  // ---- The trace a fan-out sees ----

  /** No fan-out is registered while an unresolved one holds the same key. */
  ghost predicate NoSharing(events: seq<Event>) {
    forall p, i :: 0 <= p < |events| && events[p].Register? && 0 <= i < |Run(events[..p]).collectors| ==>
      !(Run(events[..p]).collectors[i].timerArmed && Run(events[..p]).collectors[i].key == events[p].key)
  }

  /** In a run without sharing, every unresolved fan-out owns its key. */
  ghost predicate Owned(s: State) {
    forall i :: 0 <= i < |s.collectors| && s.collectors[i].timerArmed ==>
      s.collectors[i].key in s.pending && s.pending[s.collectors[i].key] == i
  }

  lemma StepKeepsOwned(s: State, e: Event)
    requires Inv(s) && Owned(s)
    requires e.Register? ==>
      forall i :: 0 <= i < |s.collectors| && s.collectors[i].timerArmed ==> s.collectors[i].key != e.key
    ensures Owned(Step(s, e))
  {
  }

  lemma {:induction false} RunKeepsOwned(events: seq<Event>)
    requires NoSharing(events)
    ensures Owned(Run(events))
  {
    if events != [] {
      var n := |events| - 1;
      PrefixNoSharing(events, n);
      RunKeepsOwned(events[..n]);
      RunKeepsInv(events[..n]);
      StepKeepsOwned(Run(events[..n]), events[n]);
    }
  }

  lemma PrefixNoSharing(events: seq<Event>, n: nat)
    requires n <= |events| && NoSharing(events)
    ensures NoSharing(events[..n])
  {
    forall p | 0 <= p < n ensures events[..n][..p] == events[..p] && events[..n][p] == events[p] {
    }
  }

  predicate FiredAfter(events: seq<Event>, p: nat, i: nat) {
    exists q :: p < q < |events| && events[q] == Fire(i)
  }

  /** The callbacks for `key` that arrive after event `p` and before the timer of fan-out `i`. */
  function Arrivals(events: seq<Event>, p: nat, i: nat, key: Text): seq<Response>
    decreases |events|
  {
    if |events| <= p + 1 then []
    else
      var before := events[..|events| - 1];
      var last := events[|events| - 1];
      var sofar := Arrivals(before, p, i, key);
      if last.Deliver? && CallbackKey(last.envelope) == Some(key) && !FiredAfter(before, p, i)
      then sofar + [Response(last.envelope.bppId, last.envelope.message)]
      else sofar
  }

  function Take<T>(n: nat, xs: seq<T>): seq<T> {
    if n <= |xs| then xs[..n] else xs
  }

  /** The specification of one `fanOut`, read off the trace alone. */
  ghost predicate MeetsTrace(c: Collector, events: seq<Event>, p: nat, i: nat, key: Text, expected: nat) {
    var arrived := Arrivals(events, p, i, key);
    && c.key == key && c.expected == expected
    && c.responses == Take(Limit(expected), arrived)
    && (c.resolvedWith.Some? <==> |arrived| >= Limit(expected) || FiredAfter(events, p, i))
    && (c.resolvedWith.Some? ==> c.resolvedWith.value == Take(Limit(expected), arrived))
  }

  lemma FiredAfterStep(events: seq<Event>, p: nat, i: nat)
    requires |events| > p + 1
    ensures FiredAfter(events, p, i) <==>
            FiredAfter(events[..|events| - 1], p, i) || events[|events| - 1] == Fire(i)
  {
    var before := events[..|events| - 1];
    if FiredAfter(events, p, i) && events[|events| - 1] != Fire(i) {
      var q :| p < q < |events| && events[q] == Fire(i);
      assert before[q] == Fire(i);
    }
    if FiredAfter(before, p, i) {
      var q :| p < q < |before| && before[q] == Fire(i);
      assert events[q] == Fire(i);
    }
  }

  /** One more event keeps a fan-out on its trace specification. */
  lemma StepMeetsTrace(s: State, events: seq<Event>, p: nat, i: nat, key: Text, expected: nat)
    requires |events| > p + 1 && i < |s.collectors| && Inv(s) && Owned(s)
    requires MeetsTrace(s.collectors[i], events[..|events| - 1], p, i, key, expected)
    ensures var t := Step(s, events[|events| - 1]);
            i < |t.collectors| && MeetsTrace(t.collectors[i], events, p, i, key, expected)
  {
    FiredAfterStep(events, p, i);
    StepKeepsInv(s, events[|events| - 1]);
    StepKeepsResolved(s, events[|events| - 1], i);
  }

  lemma RegisteredMeetsTrace(events: seq<Event>)
    requires events != [] && events[|events| - 1].Register?
    ensures var p := |events| - 1;
            var i := |Run(events[..p]).collectors|;
            i < |Run(events).collectors|
            && MeetsTrace(Run(events).collectors[i], events, p, i, events[p].key, events[p].expected)
  {
    var p := |events| - 1;
    var i := |Run(events[..p]).collectors|;
    assert Run(events).collectors[i] == FreshCollector(events[p].key, events[p].expected);
  }

  lemma RunMeetsTraceOnward(events: seq<Event>, p: nat, i: nat, key: Text, expected: nat)
    requires |events| > p + 1 && NoSharing(events)
    requires var before := events[..|events| - 1];
             i < |Run(before).collectors| && MeetsTrace(Run(before).collectors[i], before, p, i, key, expected)
    ensures i < |Run(events).collectors| && MeetsTrace(Run(events).collectors[i], events, p, i, key, expected)
  {
    var before := events[..|events| - 1];
    PrefixNoSharing(events, |events| - 1);
    RunKeepsInv(before);
    RunKeepsOwned(before);
    StepMeetsTrace(Run(before), events, p, i, key, expected);
  }

  /**
   Fan-out refines its trace: when no two unresolved fan-outs share a key, each one resolves with
   exactly the first max(1, expected) matching callbacks, in arrival order, that come between its
   registration and its timer, and it has resolved as soon as they are complete or the timer fired.
   */
  lemma {:induction false} FanOutMeetsTrace(events: seq<Event>, p: nat)
    requires p < |events| && events[p].Register? && NoSharing(events)
    ensures var i := |Run(events[..p]).collectors|;
            i < |Run(events).collectors|
            && MeetsTrace(Run(events).collectors[i], events, p, i, events[p].key, events[p].expected)
    decreases |events|
  {
    var n := |events| - 1;
    var before := events[..n];
    var i := |Run(events[..p]).collectors|;
    if n == p {
      RegisteredMeetsTrace(events);
    } else {
      PrefixNoSharing(events, n);
      assert before[..p] == events[..p] && before[p] == events[p];
      FanOutMeetsTrace(before, p);
      RunMeetsTraceOnward(events, p, i, events[p].key, events[p].expected);
    }
  }

  // ---- Sharing a key is exactly what breaks the trace ----

  /** Every fan-out of the run is on its trace specification. */
  ghost predicate AllMeetTrace(events: seq<Event>) {
    forall p :: 0 <= p < |events| && events[p].Register? ==> MeetsTraceAt(events, p)
  }

  ghost predicate MeetsTraceAt(events: seq<Event>, p: nat)
    requires p < |events| && events[p].Register?
  {
    var i := |Run(events[..p]).collectors|;
    && i < |Run(events).collectors|
    && MeetsTrace(Run(events).collectors[i], events, p, i, events[p].key, events[p].expected)
  }

  lemma {:induction false} Registration(events: seq<Event>, i: nat) returns (p: nat)
    requires i < |Run(events).collectors|
    ensures p < |events| && events[p].Register? && |Run(events[..p]).collectors| == i
  {
    var n := |events| - 1;
    RunKeepsInv(events[..n]);
    if i < |Run(events[..n]).collectors| {
      p := Registration(events[..n], i);
      assert events[..n][..p] == events[..p];
    } else {
      p := n;
    }
  }

  /** A fan-out whose key is taken over misses the very next callback for it. */
  lemma TakenOverMissesCallback(events: seq<Event>, j: nat, e: Envelope)
    requires |events| > 0 && events[|events| - 1].Register?
    requires j < |Run(events[..|events| - 1]).collectors|
    requires var c := Run(events[..|events| - 1]).collectors[j]; c.timerArmed && c.key == events[|events| - 1].key
    requires CallbackKey(e) == Some(events[|events| - 1].key)
    ensures !AllMeetTrace(events) || !AllMeetTrace(events + [Deliver(e)])
  {
    var n := |events| - 1;
    var after := events + [Deliver(e)];
    var p := Registration(events[..n], j);
    assert events[..n][..p] == events[..p] && after[..p] == events[..p] && after[..n + 1] == events;
    RunKeepsInv(events[..n]);
    RunKeepsInv(events);
    assert !MeetsTraceAt(events, p) || !MeetsTraceAt(after, p);
  }

  lemma NoSharingMeetsTrace(events: seq<Event>)
    requires NoSharing(events)
    ensures AllMeetTrace(events)
  {
    forall p | 0 <= p < |events| && events[p].Register? ensures MeetsTraceAt(events, p) {
      FanOutMeetsTrace(events, p);
    }
  }

  /** The run is on its trace after `n` events, and would be after one more callback. */
  ghost predicate OnTrace(events: seq<Event>, n: nat, e: Envelope)
    requires n <= |events|
  {
    AllMeetTrace(events[..n]) && AllMeetTrace(events[..n] + [Deliver(e)])
  }

  lemma NoSharingStaysOnTrace(events: seq<Event>, n: nat, e: Envelope)
    requires n <= |events| && NoSharing(events)
    ensures OnTrace(events, n, e)
  {
    var prefix, after := events[..n], events[..n] + [Deliver(e)];
    PrefixNoSharing(events, n);
    NoSharingMeetsTrace(prefix);
    forall p | 0 <= p <= n ensures after[..p] == prefix[..p] {
    }
    assert forall p :: 0 <= p < |after| && after[p].Register? ==> p < n && after[p] == prefix[p];
    NoSharingMeetsTrace(after);
  }

  lemma SharingLeavesTrace(events: seq<Event>) returns (n: nat, e: Envelope)
    requires !NoSharing(events)
    requires forall p :: 0 <= p < |events| && events[p].Register? ==>
               exists e: Envelope :: CallbackKey(e) == Some(events[p].key)
    ensures n <= |events| && !OnTrace(events, n, e)
  {
    var p, j :| 0 <= p < |events| && events[p].Register? && 0 <= j < |Run(events[..p]).collectors|
      && Run(events[..p]).collectors[j].timerArmed && Run(events[..p]).collectors[j].key == events[p].key;
    n := p + 1;
    e :| CallbackKey(e) == Some(events[p].key);
    assert events[..n][..p] == events[..p];
    TakenOverMissesCallback(events[..n], j, e);
  }

  /**
   The trace specification holds throughout a run, and survives whatever callback comes next at any
   point of it, if and only if no fan-out is started while an unresolved one holds its key.
   */
  lemma TraceHoldsExactlyWithoutSharing(events: seq<Event>)
    requires forall p :: 0 <= p < |events| && events[p].Register? ==>
               exists e: Envelope :: CallbackKey(e) == Some(events[p].key)
    ensures NoSharing(events) <==> forall n: nat, e: Envelope :: n <= |events| ==> OnTrace(events, n, e)
  {
    if NoSharing(events) {
      forall n: nat, e: Envelope | n <= |events| ensures OnTrace(events, n, e) {
        NoSharingStaysOnTrace(events, n, e);
      }
    } else {
      var n, e := SharingLeavesTrace(events);
    }
  }
}
