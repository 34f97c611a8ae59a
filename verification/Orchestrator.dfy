/** The BAP orchestrator: its collector objects, and the requests and grant issues it sends out. */
module Orchestrator {
  import opened Texts
  import opened Collectors
  import opened Correlation

  /** The object behind one `fanOut` promise. */
  class Pending {
    const key: Text
    const expected: nat
    var responses: seq<Response>
    var timerArmed: bool
    var resolveCalls: nat
    var resolvedWith: Option<seq<Response>>

    constructor (key: Text, expected: nat)
      ensures fresh(this) && View() == FreshCollector(key, expected)
    {
      this.key := key;
      this.expected := expected;
      responses := [];
      timerArmed := true;
      resolveCalls := 0;
      resolvedWith := None;
    }

    function View(): Collector
      reads this
    {
      Collector(key, expected, responses, timerArmed, resolveCalls, resolvedWith)
    }

    /** Clears the timer and calls `resolve` with the responses collected so far. */
    method Settle()
      modifies this
      ensures View() == Resolve(old(View()))
    {
      timerArmed := false;
      resolveCalls := resolveCalls + 1;
      if resolvedWith == None {
        resolvedWith := Some(responses);
      }
    }
  }

  /** A delivery, seen from the collector it reaches. */
  lemma DeliveryTo(s: State, e: Envelope, i: nat)
    requires Inv(s) && i < |s.collectors| && CallbackKey(e) == Some(s.collectors[i].key)
    requires s.collectors[i].key in s.pending && s.pending[s.collectors[i].key] == i
    ensures var c := s.collectors[i].(responses := s.collectors[i].responses + [Response(e.bppId, e.message)]);
            DeliverStep(s, e) ==
            if |c.responses| >= c.expected then State(s.collectors[i := Resolve(c)], s.pending - {c.key})
            else s.(collectors := s.collectors[i := c])
    ensures Inv(DeliverStep(s, e))
  {
    StepKeepsInv(s, Deliver(e));
  }

  class BapOrchestrator {
    const config: Config
    var pending: map<Text, Pending>
    /** Every collector ever made, in order, and the state of the machine they make up. */
    ghost var all: seq<Pending>
    ghost var state: State

    ghost predicate Valid()
      reads this, all
    {
      Linked() && Inv(state)
    }

    /** Each object is what the state says of it, and so is the map of those pending. */
    ghost predicate Linked()
      reads this, all
    {
      && (forall i, j :: 0 <= i < j < |all| ==> all[i] != all[j])
      && |state.collectors| == |all|
      && (forall i :: 0 <= i < |all| ==> all[i].View() == state.collectors[i])
      && pending.Keys == state.pending.Keys
      && (forall k :: k in pending ==> state.pending[k] < |all| && pending[k] == all[state.pending[k]])
    }

    constructor (config: Config)
      ensures Valid() && state == INITIAL && this.config == config
    {
      this.config := config;
      pending := map[];
      all := [];
      state := INITIAL;
    }

    /**
     `fanOut`: registers a collector and sends the action to every target. The sends are returned;
     carrying them is the network's business.
     */
    method FanOut(action: Action, transactionId: Text, targets: seq<Endpoint>, stamp: seq<Stamp>, expected: nat)
      returns (collector: Pending, sends: seq<Send>)
      requires Valid() && |stamp| == |targets|
      modifies this
      ensures Valid() && fresh(collector)
      ensures state == RegisterStep(old(state), Key(transactionId, ActionName(action)), expected)
      ensures all == old(all) + [collector]
      ensures |sends| == |targets|
      ensures forall i :: 0 <= i < |targets| ==>
                sends[i] == Send(targets[i].uri, action, RequestContext(config, action, transactionId, targets[i], stamp[i]))
      ensures forall i :: 0 <= i < |targets| ==>
                sends[i].uri == targets[i].uri && sends[i].route == action
                && NamesRequest(sends[i].context, config, action, transactionId, targets[i], stamp[i])
    {
      var k := Key(transactionId, ActionName(action));
      StepKeepsInv(state, Register(k, expected));
      collector := new Pending(k, expected);
      pending := pending[k := collector];
      all := all + [collector];
      state := RegisterStep(state, k, expected);
      sends := [];
      for i := 0 to |targets|
        invariant |sends| == i
        invariant forall j :: 0 <= j < i ==>
          sends[j] == Send(targets[j].uri, action, RequestContext(config, action, transactionId, targets[j], stamp[j]))
      {
        sends := sends + [Send(targets[i].uri, action, RequestContext(config, action, transactionId, targets[i], stamp[i]))];
      }
    }

    /** Takes a callback for a collector that is pending. */
    method Push(p: Pending, ghost i: nat, r: Response)
      requires Linked() && i < |all| && all[i] == p
      modifies p, this`state
      ensures Linked() && p.View() == old(p.View()).(responses := old(p.responses) + [r])
      ensures state == old(state).(collectors := old(state.collectors)[i := p.View()])
    {
      p.responses := p.responses + [r];
      state := state.(collectors := state.collectors[i := p.View()]);
    }

    /** `finish`: clears the timer, deletes the entry under the collector's key, resolves. */
    method Finish(p: Pending, ghost i: nat)
      requires Linked() && i < |all| && all[i] == p
      modifies p, this`pending, this`state
      ensures Linked() && state == State(old(state.collectors)[i := Resolve(old(p.View()))], old(state.pending) - {p.key})
    {
      pending := pending - {p.key};
      p.Settle();
      state := State(state.collectors[i := p.View()], state.pending - {p.key});
    }

    method DeliverCallback(e: Envelope)
      requires Valid()
      modifies this, all
      ensures Valid() && all == old(all)
      ensures state == DeliverStep(old(state), e)
    {
      var base := StripOn(e.action);
      if base == [] || e.transactionId == [] {
        return;
      }
      var k := Key(e.transactionId, base);
      if k !in pending {
        return;
      }
      var p := pending[k];
      ghost var i, next := state.pending[k], DeliverStep(state, e);
      DeliveryTo(state, e, i);
      Push(p, i, Response(e.bppId, e.message));
      if |p.responses| >= p.expected {
        Finish(p, i);
      }
      assert state == next;
    }

    /** The timer of a collector goes off: it deletes whatever is pending under its key. */
    method TimerFires(p: Pending, ghost i: nat)
      requires Valid() && i < |all| && all[i] == p
      modifies this, p
      ensures Valid() && all == old(all)
      ensures state == FireStep(old(state), i)
    {
      StepKeepsInv(state, Fire(i));
      if p.timerArmed {
        Finish(p, i);
      }
    }
  }
}
