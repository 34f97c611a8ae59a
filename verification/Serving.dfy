/** The life of one grant through the market, from its request to the download, whatever else happens. */
module Serving {
  import opened Texts
  import opened Json
  import opened Grants
  import opened GrantCheck
  import opened Signing
  import opened Download
  import opened Marketplace

  /** A redemption that runs `n` steps. */
  function Steps(x: nat, n: nat): (events: seq<Event>)
    ensures |events| == n && forall i :: 0 <= i < n ==> events[i] == Proceed(x)
  {
    seq(n, _ => Proceed(x))
  }

  lemma OneMoreEvent(am: Issuer, events: seq<Event>, e: Event)
    ensures History(am, events + [e]) == Happen(am, History(am, events), e)
  {
    assert (events + [e])[..|events|] == events;
  }

  /** What the rest of a redemption leaves when nothing interrupts it: its own answer and the counters change. */
  ghost predicate Completes(w: World, u: World, x: nat)
    requires x < |w.redemptions|
  {
    var r := w.redemptions[x];
    var done := Complete(r.bpp, w.signed, r.presentation, r.stage, w.db.revocations.Keys, w.counts);
    && u.db == w.db && u.signed == w.signed && u.counts == done.1
    && u.redemptions == w.redemptions[x := r.(stage := Finished(done.0))]
  }

  lemma FinishedStays(w: World, x: nat)
    requires x < |w.redemptions| && !w.redemptions[x].lost && w.redemptions[x].stage.Finished?
    ensures Completes(w, w, x)
  {
  }

  lemma OneStepCompletes(w: World, u: World, x: nat)
    requires x < |w.redemptions| && !w.redemptions[x].lost && Completes(ProceedStep(w, x), u, x)
    ensures Completes(w, u, x)
  {
    var r := w.redemptions[x];
    if !r.stage.Finished? {
      OneStep(r.bpp, w.signed, r.presentation, r.stage, w.db.revocations.Keys, w.counts);
    }
  }

  /** Redemption `x` can complete in `n` steps. */
  predicate Within(w: World, x: nat, n: nat) {
    x < |w.redemptions| && !w.redemptions[x].lost && StepsLeft(w.redemptions[x].stage) <= n
  }

  lemma OneStepLess(w: World, x: nat, n: nat)
    requires Within(w, x, n) && n > 0
    ensures Within(ProceedStep(w, x), x, n - 1)
  {
  }

  /** A redemption that nothing interrupts completes. */
  lemma {:induction false} StepsComplete(am: Issuer, events: seq<Event>, x: nat, n: nat)
    requires Within(History(am, events), x, n)
    ensures Completes(History(am, events), History(am, events + Steps(x, n)), x)
    decreases n
  {
    var w := History(am, events);
    if n == 0 {
      assert events + Steps(x, n) == events;
      FinishedStays(w, x);
    } else {
      OneMoreEvent(am, events, Proceed(x));
      OneStepLess(w, x, n);
      StepsComplete(am, events + [Proceed(x)], x, n - 1);
      assert events + Steps(x, n) == events + [Proceed(x)] + Steps(x, n - 1);
      OneStepCompletes(w, History(am, events + Steps(x, n)), x);
    }
  }

  /** A redemption that is presented and not interrupted ends with the answer of the uninterrupted redemption. */
  lemma PresentedIsRedeemed(am: Issuer, events: seq<Event>, bpp: Bpp, p: Presentation)
    ensures var w := History(am, events);
            var x := |w.redemptions|;
            var u := History(am, events + [Present(bpp, p)] + Steps(x, 5));
            && |u.redemptions| == x + 1 && u.redemptions[..x] == w.redemptions && u.db == w.db
            && u.redemptions[x].stage ==
               Finished(Complete(bpp, w.signed, p, Arrived, w.db.revocations.Keys, w.counts).0)
            && u.counts == Complete(bpp, w.signed, p, Arrived, w.db.revocations.Keys, w.counts).1
  {
    OneMoreEvent(am, events, Present(bpp, p));
    StepsComplete(am, events + [Present(bpp, p)], |History(am, events).redemptions|, 5);
  }

  lemma {:induction false} SignedStays(am: Issuer, events: seq<Event>, more: seq<Event>)
    ensures History(am, events).signed <= History(am, events + more).signed
  {
    if more == [] {
      assert events + more == events;
    } else {
      SignedStays(am, events, more[..|more| - 1]);
      HistoryOneMore(am, events, more);
    }
  }

  /** A request that was granted at `t0`, with the random identifiers drawn and the signature made for it. */
  datatype Grant = Grant(request: IssueRequest, grantId: Text, nonce: Text, t0: int, signature: Text)

  function ClaimsOf(am: Issuer, g: Grant): Claims {
    ClaimsFor(am, g.request, g.grantId, g.nonce, g.t0)
  }

  function Signs(g: Grant): Event {
    SignGrant(g.request, g.grantId, g.nonce, g.t0, g.signature)
  }

  predicate Grantable(am: Issuer, w: World, g: Grant) {
    ValidClaims(ClaimsOf(am, g), am.isUrl) && IsSignatureText(g.signature) && FreshId(w.issued, g.grantId)
  }

  /** It presents the grant's JSON at the provider that the request named, for its resource and offer. */
  ghost predicate PresentsAtHome(am: Issuer, g: Grant, bpp: Bpp, p: Presentation) {
    && Denote(p.grant) == Denote(SignedJson(SignedGrant(ClaimsOf(am, g), g.signature)))
    && bpp.bppId == g.request.provider.bppId && bpp.issuerKey == am.publicKey && bpp.isUrl == am.isUrl
    && p.requested.resourceId == g.request.resource.resourceId
    && p.requested.offerId == Some(g.request.resource.offerId)
  }

  /** From the lifetime of the grant, its scope, its revocation, the files and the cap: what decides the download. */
  predicate Downloadable(am: Issuer, g: Grant, bpp: Bpp, p: Presentation, revoked: set<Text>, counts: Counts) {
    var req := g.request;
    var ttl := if req.ttlSeconds.Some? then req.ttlSeconds.value else am.ttlSeconds;
    && g.t0 - bpp.skewSeconds <= p.nowSeconds <= g.t0 + ttl + bpp.skewSeconds
    && (req.scope.kind == Subset && p.requested.fields.Some? ==>
          forall f :: f in p.requested.fields.value ==> f in GrantedFields(req.scope))
    && g.grantId !in revoked
    && bpp.resolve(req.resource.resourceId, req.resource.offerId, req.scope.kind).Some?
    && (req.scope.maxDownloads.Some? ==> CountOf(counts, g.grantId) < req.scope.maxDownloads.value)
  }

  lemma SigningSigns(am: Issuer, events: seq<Event>, more: seq<Event>, g: Grant)
    requires Grantable(am, History(am, events), g)
    ensures GrantSeal(am.publicKey, ClaimsOf(am, g)) in History(am, events + [Signs(g)] + more).signed
  {
    OneMoreEvent(am, events, Signs(g));
    SignedStays(am, events + [Signs(g)], more);
  }

  lemma RedeemsExactly(am: Issuer, g: Grant, bpp: Bpp, p: Presentation, signed: set<Sealed>, revoked: set<Text>,
                       counts: Counts)
    requires ValidClaims(ClaimsOf(am, g), am.isUrl) && IsSignatureText(g.signature)
    requires GrantSeal(am.publicKey, ClaimsOf(am, g)) in signed && IsHex(am.publicKey, PUBLIC_KEY_BYTES)
    requires PresentsAtHome(am, g, bpp, p)
    ensures var answer := Complete(bpp, signed, p, Arrived, revoked, counts).0;
            && (answer.Served? <==> Downloadable(am, g, bpp, p, revoked, counts))
            && (answer.Served? ==>
                  && answer.claims == ClaimsOf(am, g) && answer.redemptionCount == CountOf(counts, g.grantId) + 1
                  && Some(answer.file) == bpp.resolve(g.request.resource.resourceId, g.request.resource.offerId,
                                                      g.request.scope.kind))
  {
    var c, n := ClaimsOf(am, g), CountOf(counts, g.grantId) + 1;
    var answer := Complete(bpp, signed, p, Arrived, revoked, counts).0;
    assert Presents(p.grant, c, bpp.isUrl) by {
      assert ValidSigned(SignedGrant(c, g.signature), bpp.isUrl);
    }
    if answer.Served? {
      ServedExactly(bpp, signed, p, revoked, counts, answer.claims, answer.file, answer.redemptionCount);
      ReadsExactly(p.grant, bpp.isUrl, c);
      ReadsExactly(p.grant, bpp.isUrl, answer.claims);
    }
    if Downloadable(am, g, bpp, p, revoked, counts) {
      var file := bpp.resolve(c.resource.resourceId, c.resource.offerId, c.scope.kind).value;
      ServedExactly(bpp, signed, p, revoked, counts, c, file, n);
    }
  }

  /**
   From request to download. A grant that was signed at some point of a history, whatever happened since,
   and is presented and redeemed without interruption, is served exactly when it is in its lifetime, give
   or take the skew, covers the fields, was not revoked meanwhile, has a file, and its counter is below
   its cap; and what is served is the file of its own scope.
   */
  lemma GrantedIsServedExactly(am: Issuer, events: seq<Event>, g: Grant, more: seq<Event>, bpp: Bpp, p: Presentation)
    requires IsHex(am.publicKey, PUBLIC_KEY_BYTES)
    requires Grantable(am, History(am, events), g) && PresentsAtHome(am, g, bpp, p)
    ensures var w := History(am, events + [Signs(g)] + more);
            var x := |w.redemptions|;
            var u := History(am, events + [Signs(g)] + more + [Present(bpp, p)] + Steps(x, 5));
            && |u.redemptions| == x + 1 && u.redemptions[x].stage.Finished?
            && var answer := u.redemptions[x].stage.answer;
            && (answer.Served? <==> Downloadable(am, g, bpp, p, w.db.revocations.Keys, w.counts))
            && (answer.Served? ==>
                  && answer.claims == ClaimsOf(am, g) && answer.redemptionCount == CountOf(w.counts, g.grantId) + 1
                  && Some(answer.file) == bpp.resolve(g.request.resource.resourceId, g.request.resource.offerId,
                                                      g.request.scope.kind))
  {
    var w := History(am, events + [Signs(g)] + more);
    SigningSigns(am, events, more, g);
    PresentedIsRedeemed(am, events + [Signs(g)] + more, bpp, p);
    RedeemsExactly(am, g, bpp, p, w.signed, w.db.revocations.Keys, w.counts);
  }
}
