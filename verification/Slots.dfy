/** Download slots under concurrency: who holds which slot of a grant, and how many are served. */
module Slots {
  import opened Texts
  import opened Grants
  import opened GrantCheck
  import opened Signing
  import opened Download
  import opened Marketplace

  /** The redemption holds slot `n` of grant `id`: it is waiting to compare, was served, or was over the cap. */
  ghost predicate Took(issued: set<Claims>, r: Redemption, id: Text, n: nat) {
    match r.stage
    case Reserved(c, _, m) => c.grantId == id && m == n
    case Finished(Served(c, _, m)) => c.grantId == id && m == n
    case Finished(Refused(_, refusal)) =>
      refusal == DownloadLimitExceeded && exists c :: c in issued && c.grantId == id && OverCap(c, n)
    case _ => false
  }

  /** The redemption says that it holds slot `n` of grant `id`. */
  predicate Claiming(r: Redemption, id: Text, n: nat) {
    match r.stage
    case Reserved(c, _, m) => c.grantId == id && m == n
    case Finished(Served(c, _, m)) => c.grantId == id && m == n
    case _ => false
  }

  /** Each counter is the number of slots handed out. */
  predicate CountersOk(counts: Counts, holders: map<Text, seq<nat>>) {
    counts.Keys == holders.Keys && forall id :: id in counts ==> counts[id] == |holders[id]|
  }

  /** Slot `i + 1` of `id` is held by one redemption, and each is held by another. */
  ghost predicate SlotsOf(issued: set<Claims>, rs: seq<Redemption>, slots: seq<nat>, id: Text) {
    && (forall i :: 0 <= i < |slots| ==> slots[i] < |rs| && Took(issued, rs[slots[i]], id, i + 1))
    && (forall i, j :: 0 <= i < j < |slots| ==> slots[i] != slots[j])
    && (forall x: nat, n: nat :: x < |rs| && Claiming(rs[x], id, n) ==> 1 <= n <= |slots| && slots[n - 1] == x)
  }

  ghost predicate SlotsOk(w: World) {
    CountersOk(w.counts, w.holders) && forall id :: SlotsOf(w.issued, w.redemptions, HoldersOf(w.holders, id), id)
  }

  lemma MoreIssuedSlots(issued: set<Claims>, more: set<Claims>, rs: seq<Redemption>, slots: seq<nat>, id: Text)
    requires issued <= more && SlotsOf(issued, rs, slots, id)
    ensures SlotsOf(more, rs, slots, id)
  {
    forall i | 0 <= i < |slots| ensures Took(more, rs[slots[i]], id, i + 1) {
      assert Took(issued, rs[slots[i]], id, i + 1);
    }
  }

  /** A redemption that joins, or moves without a slot, disturbs no slots. */
  lemma OneMoreRedemption(issued: set<Claims>, rs: seq<Redemption>, r: Redemption, slots: seq<nat>, id: Text)
    requires SlotsOf(issued, rs, slots, id) && r.stage.Arrived?
    ensures SlotsOf(issued, rs + [r], slots, id)
  {
    forall i | 0 <= i < |slots| ensures Took(issued, (rs + [r])[slots[i]], id, i + 1) {
      assert Took(issued, rs[slots[i]], id, i + 1);
    }
  }

  /** The step of a redemption keeps each of its slots, or it had none and takes none. */
  lemma StepKeepsSlots(issued: set<Claims>, rs: seq<Redemption>, x: nat, next: Stage, slots: seq<nat>, id: Text)
    requires x < |rs| && SlotsOf(issued, rs, slots, id)
    requires forall n :: Took(issued, rs[x], id, n) ==> Took(issued, rs[x].(stage := next), id, n)
    requires forall n :: Claiming(rs[x].(stage := next), id, n) ==> Claiming(rs[x], id, n)
    ensures SlotsOf(issued, rs[x := rs[x].(stage := next)], slots, id)
  {
    var ss := rs[x := rs[x].(stage := next)];
    forall i | 0 <= i < |slots| ensures Took(issued, ss[slots[i]], id, i + 1) {
      assert Took(issued, rs[slots[i]], id, i + 1);
    }
    forall y: nat, n: nat | y < |ss| && Claiming(ss[y], id, n) ensures 1 <= n <= |slots| && slots[n - 1] == y {
      assert Claiming(rs[y], id, n);
    }
  }

  lemma LosingKeepsSlots(issued: set<Claims>, rs: seq<Redemption>, x: nat, slots: seq<nat>, id: Text)
    requires x < |rs| && SlotsOf(issued, rs, slots, id)
    ensures SlotsOf(issued, rs[x := rs[x].(lost := true)], slots, id)
  {
    var ss := rs[x := rs[x].(lost := true)];
    forall i | 0 <= i < |slots| ensures Took(issued, ss[slots[i]], id, i + 1) {
      assert Took(issued, rs[slots[i]], id, i + 1);
    }
    forall y: nat, n: nat | y < |ss| && Claiming(ss[y], id, n) ensures 1 <= n <= |slots| && slots[n - 1] == y {
      assert Claiming(rs[y], id, n);
    }
  }

  /** A reservation takes the next slot of its own grant. */
  lemma ReservingTakesNext(issued: set<Claims>, rs: seq<Redemption>, x: nat, slots: seq<nat>)
    requires x < |rs| && rs[x].stage.Located? && SlotsOf(issued, rs, slots, rs[x].stage.claims.grantId)
    ensures var Located(c, file) := rs[x].stage;
            SlotsOf(issued, rs[x := rs[x].(stage := Reserved(c, file, |slots| + 1))], slots + [x], c.grantId)
  {
    var Located(c, file) := rs[x].stage;
    var id, more := c.grantId, slots + [x];
    var ss := rs[x := rs[x].(stage := Reserved(c, file, |slots| + 1))];
    forall i | 0 <= i < |more| ensures more[i] < |ss| && Took(issued, ss[more[i]], id, i + 1) {
      if i < |slots| {
        assert Took(issued, rs[slots[i]], id, i + 1);
      }
    }
    forall i | 0 <= i < |slots| ensures more[i] != x {
      assert Took(issued, rs[slots[i]], id, i + 1);
    }
    forall y: nat, n: nat | y < |ss| && Claiming(ss[y], id, n) ensures 1 <= n <= |more| && more[n - 1] == y {
      if y != x {
        assert Claiming(rs[y], id, n);
      }
    }
  }

  /** Outside the reservation a step neither takes a slot nor gives one up. */
  lemma AdvanceKeepsSlots(issued: set<Claims>, signed: set<Sealed>, rs: seq<Redemption>, x: nat, revoked: set<Text>,
                          counts: Counts, slots: seq<nat>, id: Text)
    requires x < |rs| && !rs[x].stage.Located? && RedemptionOk(issued, rs[x]) && SlotsOf(issued, rs, slots, id)
    ensures var next := Advance(rs[x].bpp, signed, rs[x].presentation, rs[x].stage, revoked, counts).0;
            SlotsOf(issued, rs[x := rs[x].(stage := next)], slots, id)
  {
    var r := rs[x];
    var next := Advance(r.bpp, signed, r.presentation, r.stage, revoked, counts).0;
    if r.stage.Arrived? {
      OfflineTakesNoSlot(r.bpp, signed, r.presentation);
    }
    StepKeepsSlots(issued, rs, x, next, slots, id);
  }

  lemma ReservingKeepsSlots(w: World, x: nat)
    requires SlotsOk(w) && x < |w.redemptions| && w.redemptions[x].stage.Located? && !w.redemptions[x].lost
    ensures SlotsOk(ProceedStep(w, x))
  {
    var v, own := ProceedStep(w, x), w.redemptions[x].stage.claims.grantId;
    var slots := HoldersOf(w.holders, own);
    assert CountOf(w.counts, own) == |slots|;
    forall id ensures SlotsOf(v.issued, v.redemptions, HoldersOf(v.holders, id), id) {
      assert SlotsOf(w.issued, w.redemptions, HoldersOf(w.holders, id), id);
      if id == own {
        ReservingTakesNext(w.issued, w.redemptions, x, slots);
      } else {
        StepKeepsSlots(w.issued, w.redemptions, x, v.redemptions[x].stage, HoldersOf(w.holders, id), id);
      }
    }
  }

  lemma ProceedKeepsSlots(w: World, x: nat)
    requires SlotsOk(w) && x < |w.redemptions| && RedemptionOk(w.issued, w.redemptions[x]) && !w.redemptions[x].lost
    ensures SlotsOk(ProceedStep(w, x))
  {
    if w.redemptions[x].stage.Located? {
      ReservingKeepsSlots(w, x);
    } else {
      var v := ProceedStep(w, x);
      forall id ensures SlotsOf(v.issued, v.redemptions, HoldersOf(v.holders, id), id) {
        assert SlotsOf(w.issued, w.redemptions, HoldersOf(w.holders, id), id);
        AdvanceKeepsSlots(w.issued, w.signed, w.redemptions, x, w.db.revocations.Keys, w.counts,
                          HoldersOf(w.holders, id), id);
      }
      NoReservationNoCount(w, x);
    }
  }

  lemma NoReservationNoCount(w: World, x: nat)
    requires x < |w.redemptions| && !w.redemptions[x].stage.Located?
    ensures ProceedStep(w, x).counts == w.counts && ProceedStep(w, x).holders == w.holders
  {
  }

  /** The event is the reservation of a slot of grant `id`. */
  predicate Reserves(w: World, e: Event, id: Text) {
    e.Proceed? && e.redemption < |w.redemptions| && !w.redemptions[e.redemption].lost
    && w.redemptions[e.redemption].stage.Located? && w.redemptions[e.redemption].stage.claims.grantId == id
  }

  /** Of all events, only the reservation of a slot of a grant moves its counter, and by one. */
  lemma OnlyReservationsCount(am: Issuer, w: World, e: Event, id: Text)
    ensures CountOf(Happen(am, w, e).counts, id) == CountOf(w.counts, id) + (if Reserves(w, e, id) then 1 else 0)
  {
    if e.Proceed? && e.redemption < |w.redemptions| && !w.redemptions[e.redemption].stage.Located? {
      NoReservationNoCount(w, e.redemption);
    }
  }

  lemma OtherEventsKeepSlots(am: Issuer, w: World, e: Event, slots: seq<nat>, id: Text)
    requires SlotsOf(w.issued, w.redemptions, slots, id) && !e.Proceed? && w.issued <= Happen(am, w, e).issued
    ensures SlotsOf(Happen(am, w, e).issued, Happen(am, w, e).redemptions, slots, id)
  {
    if e.Present? {
      OneMoreRedemption(w.issued, w.redemptions, Redemption(e.bpp, e.presentation, Arrived, false), slots, id);
    } else if e.Lose? && e.redemption < |w.redemptions| && !w.redemptions[e.redemption].stage.Finished? {
      LosingKeepsSlots(w.issued, w.redemptions, e.redemption, slots, id);
    } else {
      MoreIssuedSlots(w.issued, Happen(am, w, e).issued, w.redemptions, slots, id);
    }
  }

  lemma HappenKeepsSlots(am: Issuer, w: World, e: Event)
    requires SlotsOk(w) && RedemptionsOk(am, w) && IssuedOk(am, w.signed, w.issued)
    ensures SlotsOk(Happen(am, w, e))
  {
    var v := Happen(am, w, e);
    if e.Proceed? {
      if e.redemption < |w.redemptions| && !w.redemptions[e.redemption].lost {
        ProceedKeepsSlots(w, e.redemption);
      }
    } else {
      HappenKeepsIssued(am, w, e);
      assert v.counts == w.counts && v.holders == w.holders;
      forall id ensures SlotsOf(v.issued, v.redemptions, HoldersOf(v.holders, id), id) {
        OtherEventsKeepSlots(am, w, e, HoldersOf(w.holders, id), id);
      }
    }
  }

  lemma {:induction false} HistoryKeepsSlots(am: Issuer, events: seq<Event>)
    requires forall i :: 0 <= i < |events| ==> Trusting(am, events[i])
    ensures SlotsOk(History(am, events))
  {
    if events != [] {
      var n := |events| - 1;
      HistoryIsOk(am, events[..n]);
      HistoryKeepsSlots(am, events[..n]);
      HappenKeepsSlots(am, History(am, events[..n]), events[n]);
    }
  }

  // ---- Main results ----

  /** The redemptions that were served the grant with this id. */
  function Successes(rs: seq<Redemption>, id: Text): set<nat> {
    set x: nat | x < |rs| && IsSuccess(rs[x], id)
  }

  predicate IsSuccess(r: Redemption, id: Text) {
    r.stage.Finished? && r.stage.answer.Served? && r.stage.answer.claims.grantId == id
  }

  /** The redemptions that hold a slot of this id within the cap and were not served yet, or never will be. */
  function Unserved(rs: seq<Redemption>, id: Text): set<nat> {
    set x: nat | x < |rs| && IsUnserved(rs[x], id)
  }

  predicate IsUnserved(r: Redemption, id: Text) {
    r.stage.Reserved? && r.stage.claims.grantId == id && !OverCap(r.stage.claims, r.stage.slot)
  }

  /** The slots within the cap. */
  function Allowed(c: Claims, count: nat): nat
    requires WellShaped(c)
  {
    if OverCap(c, count) then c.scope.maxDownloads.value else count
  }

  function Elements(slots: seq<nat>): set<nat> {
    set x: nat | x in slots
  }

  lemma {:induction false} DistinctElements(slots: seq<nat>)
    requires forall i, j :: 0 <= i < j < |slots| ==> slots[i] != slots[j]
    ensures |Elements(slots)| == |slots|
  {
    if slots != [] {
      var n := |slots| - 1;
      DistinctElements(slots[..n]);
      assert slots == slots[..n] + [slots[n]];
      assert Elements(slots) == Elements(slots[..n]) + {slots[n]};
      assert slots[n] !in Elements(slots[..n]);
    }
  }

  /** Served and unserved redemptions of a grant are exactly the holders of its slots within the cap. */
  lemma HoldersWithinCap(issued: set<Claims>, rs: seq<Redemption>, slots: seq<nat>, c: Claims, x: nat)
    requires SlotsOf(issued, rs, slots, c.grantId) && c in issued && WellShaped(c)
    requires forall d, e :: d in issued && e in issued && d.grantId == e.grantId ==> d == e
    requires forall y :: 0 <= y < |rs| ==> RedemptionOk(issued, rs[y])
    ensures x in Successes(rs, c.grantId) + Unserved(rs, c.grantId) <==> x in slots[..Allowed(c, |slots|)]
  {
    var id, m := c.grantId, Allowed(c, |slots|);
    if x in Successes(rs, id) + Unserved(rs, id) {
      assert RedemptionOk(issued, rs[x]);
      var n := if rs[x].stage.Reserved? then rs[x].stage.slot else rs[x].stage.answer.redemptionCount;
      assert Claiming(rs[x], id, n);
      assert slots[..m][n - 1] == x;
    }
    if x in slots[..m] {
      var i :| 0 <= i < m && slots[i] == x;
      assert Took(issued, rs[x], id, i + 1);
      assert !OverCap(c, i + 1);
    }
  }

  lemma ServedAndUnserved(issued: set<Claims>, rs: seq<Redemption>, slots: seq<nat>, c: Claims)
    requires SlotsOf(issued, rs, slots, c.grantId) && c in issued && WellShaped(c)
    requires forall d, e :: d in issued && e in issued && d.grantId == e.grantId ==> d == e
    requires forall y :: 0 <= y < |rs| ==> RedemptionOk(issued, rs[y])
    ensures |Successes(rs, c.grantId)| + |Unserved(rs, c.grantId)| == Allowed(c, |slots|)
  {
    var within := slots[..Allowed(c, |slots|)];
    var served, unserved := Successes(rs, c.grantId), Unserved(rs, c.grantId);
    forall x: nat ensures x in served + unserved <==> x in within {
      HoldersWithinCap(issued, rs, slots, c, x);
    }
    DistinctElements(within);
    assert served + unserved == Elements(within);
    assert served * unserved == {};
  }

  /**
   The cap under concurrency: in every state the counter is the number of reservations, and the
   redemptions already served together with those that hold a slot within the cap but were not served
   number exactly the smaller of the counter and the cap; when none of these is left, the served do.
   */
  lemma CapIsExact(am: Issuer, events: seq<Event>, c: Claims)
    requires forall i :: 0 <= i < |events| ==> Trusting(am, events[i])
    requires c in History(am, events).issued
    ensures var w := History(am, events);
            var count := CountOf(w.counts, c.grantId);
            var allowed := if c.scope.maxDownloads.Some? && c.scope.maxDownloads.value < count
                           then c.scope.maxDownloads.value else count;
            && |HoldersOf(w.holders, c.grantId)| == count
            && |Successes(w.redemptions, c.grantId)| + |Unserved(w.redemptions, c.grantId)| == allowed
            && (Unserved(w.redemptions, c.grantId) == {} ==> |Successes(w.redemptions, c.grantId)| == allowed)
  {
    var w := History(am, events);
    HistoryIsOk(am, events);
    HistoryKeepsSlots(am, events);
    IssuedAreShaped(am, events);
    assert SlotsOf(w.issued, w.redemptions, HoldersOf(w.holders, c.grantId), c.grantId);
    ServedAndUnserved(w.issued, w.redemptions, HoldersOf(w.holders, c.grantId), c);
  }

  /** A redemption refused before it reserved (offline, revoked, no file) holds no slot of any grant. */
  lemma EarlyRefusalHoldsNoSlot(am: Issuer, events: seq<Event>, x: nat, id: Text)
    requires forall i :: 0 <= i < |events| ==> Trusting(am, events[i])
    requires var w := History(am, events);
             x < |w.redemptions| && w.redemptions[x].stage.Finished? && !TookSlot(w.redemptions[x].stage.answer)
    ensures x !in HoldersOf(History(am, events).holders, id)
  {
    HistoryKeepsSlots(am, events);
    var w := History(am, events);
    var slots := HoldersOf(w.holders, id);
    assert SlotsOf(w.issued, w.redemptions, slots, id);
    forall i | 0 <= i < |slots| ensures slots[i] != x {
      assert Took(w.issued, w.redemptions[slots[i]], id, i + 1);
    }
  }

  lemma {:induction false} IssuedAreShaped(am: Issuer, events: seq<Event>)
    ensures forall c :: c in History(am, events).issued ==> WellShaped(c)
  {
    if events != [] {
      IssuedAreShaped(am, events[..|events| - 1]);
    }
  }
}
