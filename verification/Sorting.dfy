/** Stable insertion sort, standing for `Array.prototype.sort` with a comparator. */
module Sorting {

  function Insert<T>(before: (T, T) -> bool, x: T, xs: seq<T>): seq<T> {
    if xs == [] || !before(xs[0], x) then [x] + xs
    else [xs[0]] + Insert(before, x, xs[1..])
  }

  function Sort<T>(before: (T, T) -> bool, xs: seq<T>): seq<T> {
    if xs == [] then [] else Insert(before, xs[0], Sort(before, xs[1..]))
  }

  ghost predicate WeakOrder<T(!new)>(before: (T, T) -> bool) {
    && (forall x, y :: before(x, y) ==> !before(y, x))
    && (forall x, y, z :: before(x, z) ==> before(x, y) || before(y, z))
  }

  ghost predicate Sorted<T>(before: (T, T) -> bool, xs: seq<T>) {
    forall i, j :: 0 <= i < j < |xs| ==> !before(xs[j], xs[i])
  }

  lemma {:induction false} InsertKeepsElements<T>(before: (T, T) -> bool, x: T, xs: seq<T>)
    ensures multiset(Insert(before, x, xs)) == multiset{x} + multiset(xs)
  {
    if xs != [] && before(xs[0], x) {
      InsertKeepsElements(before, x, xs[1..]);
      assert xs == [xs[0]] + xs[1..];
    }
  }

  lemma {:induction false} SortKeepsElements<T>(before: (T, T) -> bool, xs: seq<T>)
    ensures multiset(Sort(before, xs)) == multiset(xs)
  {
    if xs != [] {
      SortKeepsElements(before, xs[1..]);
      InsertKeepsElements(before, xs[0], Sort(before, xs[1..]));
      assert xs == [xs[0]] + xs[1..];
    }
  }

  /** Permutations have the same members and, as sets of members, nothing else. */
  lemma SameMembers<T>(xs: seq<T>, ys: seq<T>)
    requires multiset(xs) == multiset(ys)
    ensures forall x :: x in xs <==> x in ys
    ensures |xs| == |ys|
  {
    forall x ensures x in xs <==> x in ys {
      assert x in xs <==> x in multiset(xs);
      assert x in ys <==> x in multiset(ys);
    }
    assert |multiset(xs)| == |xs| && |multiset(ys)| == |ys|;
  }

  lemma {:induction false} InsertSorts<T(!new)>(before: (T, T) -> bool, x: T, xs: seq<T>)
    requires WeakOrder(before) && Sorted(before, xs)
    ensures Sorted(before, Insert(before, x, xs))
  {
    if xs != [] && before(xs[0], x) {
      InsertSorts(before, x, xs[1..]);
      var rest := Insert(before, x, xs[1..]);
      InsertKeepsElements(before, x, xs[1..]);
      forall j | 0 <= j < |rest| ensures !before(rest[j], xs[0]) {
        assert rest[j] in multiset(rest);
        assert rest[j] == x || rest[j] in xs[1..];
      }
    } else if xs != [] {
      forall j | 0 <= j < |xs| ensures !before(xs[j], x) {
        if j > 0 { assert !before(xs[j], xs[0]); }
      }
    }
  }

  lemma {:induction false} SortSorts<T(!new)>(before: (T, T) -> bool, xs: seq<T>)
    requires WeakOrder(before)
    ensures Sorted(before, Sort(before, xs))
  {
    if xs != [] {
      SortSorts(before, xs[1..]);
      InsertSorts(before, xs[0], Sort(before, xs[1..]));
    }
  }

  // ---- Two sorted listings of the same elements ----

  function Count<T>(p: T -> bool, xs: seq<T>): nat {
    if xs == [] then 0 else (if p(xs[0]) then 1 else 0) + Count(p, xs[1..])
  }

  lemma {:induction false} CountOfConcat<T>(p: T -> bool, xs: seq<T>, ys: seq<T>)
    ensures Count(p, xs + ys) == Count(p, xs) + Count(p, ys)
  {
    if xs == [] {
      assert xs + ys == ys;
    } else {
      CountOfConcat(p, xs[1..], ys);
      assert (xs + ys)[1..] == xs[1..] + ys;
    }
  }

  lemma CountOfRemoval<T>(p: T -> bool, ys: seq<T>, j: nat)
    requires j < |ys|
    ensures Count(p, ys) == (if p(ys[j]) then 1 else 0) + Count(p, ys[..j] + ys[j + 1..])
  {
    var a, b := ys[..j], ys[j + 1..];
    assert ys == a + ([ys[j]] + b);
    CountOfConcat(p, a, b);
    CountOfConcat(p, a, [ys[j]] + b);
    CountOfFirst(p, ys[j], b);
  }

  lemma CountOfFirst<T>(p: T -> bool, x: T, xs: seq<T>)
    ensures Count(p, [x] + xs) == (if p(x) then 1 else 0) + Count(p, xs)
  {
    assert ([x] + xs)[1..] == xs;
  }

  lemma ElementsOfRemoval<T>(ys: seq<T>, j: nat)
    requires j < |ys|
    ensures multiset(ys) == multiset{ys[j]} + multiset(ys[..j] + ys[j + 1..])
  {
    assert ys == ys[..j] + ([ys[j]] + ys[j + 1..]);
  }

  lemma RemovalAgrees<T>(xs: seq<T>, ys: seq<T>, j: nat)
    requires multiset(xs) == multiset(ys) && xs != [] && j < |ys| && ys[j] == xs[0]
    ensures multiset(xs[1..]) == multiset(ys[..j] + ys[j + 1..])
  {
    ElementsOfRemoval(xs, 0);
    ElementsOfRemoval(ys, j);
    assert xs[..0] + xs[1..] == xs[1..];
    assert multiset(xs[1..]) == multiset(xs) - multiset{xs[0]};
    assert multiset(ys[..j] + ys[j + 1..]) == multiset(ys) - multiset{ys[j]};
  }

  lemma {:induction false} CountOfPermutation<T>(p: T -> bool, xs: seq<T>, ys: seq<T>)
    requires multiset(xs) == multiset(ys)
    ensures Count(p, xs) == Count(p, ys)
  {
    SameMembers(xs, ys);
    if xs != [] {
      assert xs[0] in ys;
      var j :| 0 <= j < |ys| && ys[j] == xs[0];
      RemovalAgrees(xs, ys, j);
      CountOfPermutation(p, xs[1..], ys[..j] + ys[j + 1..]);
      CountOfRemoval(p, ys, j);
    }
  }

  lemma {:induction false} CountAtLeast<T>(p: T -> bool, xs: seq<T>, n: nat)
    requires n <= |xs| && forall k :: 0 <= k < n ==> p(xs[k])
    ensures Count(p, xs) >= n
  {
    if n > 0 { CountAtLeast(p, xs[1..], n - 1); }
  }

  lemma {:induction false} CountAtMost<T>(p: T -> bool, xs: seq<T>, n: nat)
    requires n <= |xs| && forall k :: n <= k < |xs| ==> !p(xs[k])
    ensures Count(p, xs) <= n
  {
    if n > 0 {
      CountAtMost(p, xs[1..], n - 1);
    } else if xs != [] {
      CountAtMost(p, xs[1..], 0);
    }
  }

  lemma NotBeforeCounterpart<T(!new)>(before: (T, T) -> bool, xs: seq<T>, ys: seq<T>, i: nat)
    requires WeakOrder(before) && Sorted(before, xs) && Sorted(before, ys)
    requires multiset(xs) == multiset(ys) && i < |xs| && i < |ys|
    ensures !before(xs[i], ys[i])
  {
    if before(xs[i], ys[i]) {
      var p := x => !before(xs[i], x);
      forall k | 0 <= k <= i ensures p(xs[k]) {
      }
      forall k | i <= k < |ys| ensures !p(ys[k]) {
        if k > i { assert !before(ys[k], ys[i]); }
      }
      CountAtLeast(p, xs, i + 1);
      CountAtMost(p, ys, i);
      CountOfPermutation(p, xs, ys);
      assert false;
    }
  }

  /** Sorted permutations of each other differ only in the order of equivalent elements. */
  lemma SortedPermutationsAgree<T(!new)>(before: (T, T) -> bool, xs: seq<T>, ys: seq<T>)
    requires WeakOrder(before) && Sorted(before, xs) && Sorted(before, ys) && multiset(xs) == multiset(ys)
    ensures |xs| == |ys| && forall i :: 0 <= i < |xs| ==> !before(xs[i], ys[i]) && !before(ys[i], xs[i])
  {
    SameMembers(xs, ys);
    forall i | 0 <= i < |xs| ensures !before(xs[i], ys[i]) && !before(ys[i], xs[i]) {
      NotBeforeCounterpart(before, xs, ys, i);
      NotBeforeCounterpart(before, ys, xs, i);
    }
  }
}
