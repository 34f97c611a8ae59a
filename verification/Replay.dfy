/** The evicting replay cache, and the unbounded history it answers for. */
module Replay {
  import opened Texts

  datatype Call = Call(key: Text, expiresSec: int, nowMs: int)

  type Cache = map<Text, int>

  function Pruned(m: Cache, nowMs: int): Cache {
    map k | k in m && m[k] >= nowMs :: m[k]
  }

  /** One call of `seen`: its answer and the cache it leaves. */
  function SeenStep(m: Cache, c: Call): (bool, Cache) {
    var kept := Pruned(m, c.nowMs);
    if c.key in kept then (true, kept) else (false, kept[c.key := c.expiresSec * 1000])
  }

  function CacheAfter(calls: seq<Call>): Cache {
    if calls == [] then map[] else SeenStep(CacheAfter(calls[..|calls| - 1]), calls[|calls| - 1]).1
  }

  function Answer(calls: seq<Call>, i: nat): bool
    requires i < |calls|
  {
    SeenStep(CacheAfter(calls[..i]), calls[i]).0
  }

  class ReplayCache {
    var seenUntil: Cache

    constructor ()
      ensures seenUntil == CacheAfter([])
    {
      seenUntil := map[];
    }

    method Seen(key: Text, expiresSec: int, nowMs: int) returns (already: bool)
      modifies this
      ensures (already, seenUntil) == SeenStep(old(seenUntil), Call(key, expiresSec, nowMs))
      ensures forall k :: k in seenUntil && (already || k != key) ==> seenUntil[k] >= nowMs
    {
      Prune(nowMs);
      if key in seenUntil {
        return true;
      }
      seenUntil := seenUntil[key := expiresSec * 1000];
      already := false;
    }

    method Prune(nowMs: int)
      modifies this
      ensures seenUntil == Pruned(old(seenUntil), nowMs)
    {
      var unvisited := seenUntil.Keys;
      while unvisited != {}
        invariant unvisited <= seenUntil.Keys <= old(seenUntil).Keys
        invariant forall k :: k in seenUntil ==> seenUntil[k] == old(seenUntil)[k]
        invariant forall k :: k in old(seenUntil) && k !in unvisited ==> (k in seenUntil <==> old(seenUntil)[k] >= nowMs)
        decreases unvisited
      {
        var k :| k in unvisited;
        unvisited := unvisited - {k};
        if seenUntil[k] < nowMs {
          seenUntil := seenUntil - {k};
        }
      }
    }
  }

  // ---- The unbounded history ----

  /** No clock reading after call `j`, up to and including call `i`, is past the expiry recorded at `j`. */
  predicate Unexpired(calls: seq<Call>, j: nat, i: int)
    requires j < |calls| && i < |calls|
  {
    forall m :: j < m <= i ==> calls[m].nowMs <= calls[j].expiresSec * 1000
  }

  /** Earlier call `j`, having answered false, recorded the key of call `i`, and the record is alive at `i`. */
  predicate Blocks(calls: seq<Call>, answers: seq<bool>, j: nat, i: nat)
    requires |answers| == |calls| && j < i < |calls|
  {
    calls[j].key == calls[i].key && !answers[j] && Unexpired(calls, j, i)
  }

  function Answers(calls: seq<Call>): (r: seq<bool>)
    ensures |r| == |calls| && forall i :: 0 <= i < |r| ==> r[i] == Answer(calls, i)
  {
    seq(|calls|, i requires 0 <= i < |calls| => Answer(calls, i))
  }

  /** Call `j` recorded `k`, and the record outlived every clock reading before call `n`. */
  predicate Holds(calls: seq<Call>, answers: seq<bool>, n: nat, k: Text, j: nat)
    requires n <= |calls| == |answers|
  {
    j < n && calls[j].key == k && !answers[j] && Unexpired(calls, j, n - 1)
  }

  /** The cache `m` after `n` calls lists exactly the records still alive, with their expiries. */
  ghost predicate Represents(calls: seq<Call>, answers: seq<bool>, n: nat, m: Cache)
    requires n <= |calls| == |answers|
  {
    && (forall k :: k in m ==> exists j: nat :: Holds(calls, answers, n, k, j))
    && (forall k, j: nat :: Holds(calls, answers, n, k, j) ==> k in m && m[k] == calls[j].expiresSec * 1000)
  }

  lemma AnswerFromRecords(calls: seq<Call>, answers: seq<bool>, n: nat, m: Cache)
    requires n < |calls| == |answers| && Represents(calls, answers, n, m)
    ensures SeenStep(m, calls[n]).0 <==> exists j: nat :: j < n && Blocks(calls, answers, j, n)
  {
    var key := calls[n].key;
    if SeenStep(m, calls[n]).0 {
      var j: nat :| Holds(calls, answers, n, key, j);
      assert Blocks(calls, answers, j, n);
    }
    forall j: nat | j < n && Blocks(calls, answers, j, n) ensures key in Pruned(m, calls[n].nowMs) {
      assert Holds(calls, answers, n, key, j);
    }
  }

  lemma StepKeepsRecords(calls: seq<Call>, answers: seq<bool>, n: nat, next: nat, m: Cache)
    requires n < |calls| == |answers| && next == n + 1 && Represents(calls, answers, n, m)
    requires answers[n] == SeenStep(m, calls[n]).0
    ensures Represents(calls, answers, next, SeenStep(m, calls[n]).1)
  {
    var after := SeenStep(m, calls[n]).1;
    AnswerFromRecords(calls, answers, n, m);
    forall k | k in after ensures exists j: nat :: Holds(calls, answers, next, k, j) {
      if k == calls[n].key && !answers[n] {
        assert Holds(calls, answers, next, k, n);
      } else {
        var j: nat :| Holds(calls, answers, n, k, j);
        assert Holds(calls, answers, next, k, j);
      }
    }
    forall k, j: nat | Holds(calls, answers, next, k, j)
      ensures k in after && after[k] == calls[j].expiresSec * 1000
    {
      HeldIsInCache(calls, answers, n, m, k, j);
    }
  }

  lemma HeldIsInCache(calls: seq<Call>, answers: seq<bool>, n: nat, m: Cache, k: Text, j: nat)
    requires n < |calls| == |answers| && Represents(calls, answers, n, m)
    requires answers[n] == SeenStep(m, calls[n]).0
    requires answers[n] <==> exists i: nat :: i < n && Blocks(calls, answers, i, n)
    requires Holds(calls, answers, n + 1, k, j)
    ensures var after := SeenStep(m, calls[n]).1; k in after && after[k] == calls[j].expiresSec * 1000
  {
    if j < n {
      assert Holds(calls, answers, n, k, j);
      assert calls[n].nowMs <= calls[j].expiresSec * 1000;
      if k == calls[n].key {
        assert Blocks(calls, answers, j, n);
      }
    }
  }

  lemma {:induction false} CacheRepresents(calls: seq<Call>, n: nat)
    requires n <= |calls|
    ensures Represents(calls, Answers(calls), n, CacheAfter(calls[..n]))
  {
    if n > 0 {
      CacheRepresents(calls, n - 1);
      StepKeepsRecords(calls, Answers(calls), n - 1, n, CacheAfter(calls[..n - 1]));
      assert calls[..n][..n - 1] == calls[..n - 1];
    }
  }

  /**
   Eviction is invisible. On every run, `seen` answers true exactly when some earlier call answered
   false for the same key and no clock reading since then has passed the expiry it recorded.
   */
  lemma CacheAgreesWithHistory(calls: seq<Call>, i: nat)
    requires i < |calls|
    ensures Answer(calls, i) <==> exists j: nat :: j < i && Blocks(calls, Answers(calls), j, i)
  {
    CacheRepresents(calls, i);
    AnswerFromRecords(calls, Answers(calls), i, CacheAfter(calls[..i]));
  }

  /** The recording that blocks a call is the latest one of its key. */
  lemma BlockerIsLatest(calls: seq<Call>, j: nat, k: nat, i: nat)
    requires j < k < i < |calls| && Blocks(calls, Answers(calls), j, i) && calls[k].key == calls[i].key
    ensures Answer(calls, k)
  {
    CacheAgreesWithHistory(calls, k);
    assert Blocks(calls, Answers(calls), j, k);
  }

  /** With a clock that never runs backwards only the current reading matters. */
  lemma SteadyClockHistory(calls: seq<Call>, i: nat)
    requires i < |calls| && forall a, b :: 0 <= a <= b < |calls| ==> calls[a].nowMs <= calls[b].nowMs
    ensures Answer(calls, i) <==>
            exists j: nat :: j < i && calls[j].key == calls[i].key && !Answer(calls, j)
                             && calls[i].nowMs <= calls[j].expiresSec * 1000
  {
    CacheAgreesWithHistory(calls, i);
    forall j: nat | j < i && calls[j].key == calls[i].key && !Answer(calls, j)
      && calls[i].nowMs <= calls[j].expiresSec * 1000
      ensures Blocks(calls, Answers(calls), j, i)
    {
    }
    if Answer(calls, i) {
      var j: nat :| j < i && Blocks(calls, Answers(calls), j, i);
      assert calls[i].nowMs <= calls[j].expiresSec * 1000;
    }
  }
}
