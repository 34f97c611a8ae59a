/**
 The canonical serializer, and the theorem every signature rests on: two JSON trees have the same
 canonical text exactly when they are equal up to the order of object keys, at every depth.
 */
module Canonicalization {
  import opened Texts
  import opened Json
  import Sorting
  import JsonText

  // ---- Sorting entries ----

  ghost predicate StrictlySorted(es: seq<Entry>) {
    forall i, j :: 0 <= i < j < |es| ==> Less(es[i].key, es[j].key)
  }

  lemma SortEntriesMembers(es: seq<Entry>)
    ensures |SortEntries(es)| == |es|
    ensures forall e :: e in SortEntries(es) <==> e in es
  {
    Sorting.SortKeepsElements(KeyBefore, es);
    Sorting.SameMembers(SortEntries(es), es);
  }

  lemma {:induction false} InsertedStrictly(e: Entry, es: seq<Entry>)
    requires StrictlySorted(es) && forall x :: x in es ==> x.key != e.key
    ensures StrictlySorted(Sorting.Insert(KeyBefore, e, es))
  {
    if es != [] {
      LessIsTotal(es[0].key, e.key);
      if KeyBefore(es[0], e) {
        InsertedStrictly(e, es[1..]);
        var rest := Sorting.Insert(KeyBefore, e, es[1..]);
        Sorting.InsertKeepsElements(KeyBefore, e, es[1..]);
        forall j | 0 <= j < |rest| ensures Less(es[0].key, rest[j].key) {
          assert rest[j] in multiset(rest);
          assert rest[j] == e || rest[j] in es[1..];
        }
      } else {
        forall j | 0 <= j < |es| ensures Less(e.key, es[j].key) {
          if j > 0 {
            LessIsTransitive(e.key, es[0].key, es[j].key);
          }
        }
      }
    }
  }

  lemma {:induction false} SortEntriesStrictly(es: seq<Entry>)
    requires DistinctKeys(es)
    ensures StrictlySorted(SortEntries(es))
  {
    if es != [] {
      SortEntriesStrictly(es[1..]);
      SortEntriesMembers(es[1..]);
      InsertedStrictly(es[0], SortEntries(es[1..]));
    }
  }

  lemma HeadIsLeast(es: seq<Entry>, e: Entry)
    requires StrictlySorted(es) && e in es
    ensures e == es[0] || Less(es[0].key, e.key)
  {
  }

  /** A set of entries has one sorted listing. */
  lemma {:induction false} StrictlySortedIsUnique(xs: seq<Entry>, ys: seq<Entry>)
    requires StrictlySorted(xs) && StrictlySorted(ys)
    requires forall e :: e in xs <==> e in ys
    ensures xs == ys
  {
    assert ys == [] || ys[0] in ys;
    if xs != [] {
      assert xs[0] in ys;
      HeadIsLeast(ys, xs[0]);
      assert ys[0] in xs;
      HeadIsLeast(xs, ys[0]);
      if xs[0] != ys[0] {
        LessIsTransitive(xs[0].key, ys[0].key, xs[0].key);
        LessIsIrreflexive(xs[0].key);
      }
      forall e ensures e in xs[1..] <==> e in ys[1..] {
        LessIsIrreflexive(xs[0].key);
        assert e in xs <==> e == xs[0] || e in xs[1..];
        assert e in ys <==> e == ys[0] || e in ys[1..];
      }
      StrictlySortedIsUnique(xs[1..], ys[1..]);
      assert xs == [xs[0]] + xs[1..] && ys == [ys[0]] + ys[1..];
    }
  }

  /** Any sorting routine gives the same listing: it does not matter how `sort` is implemented. */
  lemma AnySortAgrees(es: seq<Entry>, sorted: seq<Entry>)
    requires DistinctKeys(es) && multiset(sorted) == multiset(es) && StrictlySorted(sorted)
    ensures sorted == SortEntries(es)
  {
    SortEntriesStrictly(es);
    SortEntriesMembers(es);
    Sorting.SameMembers(sorted, es);
    StrictlySortedIsUnique(sorted, SortEntries(es));
  }

  /** In every object of the tree, at every depth, the keys ascend by code unit. */
  ghost predicate KeysAscend(v: Value) {
    match v
    case Arr(items) => forall i :: 0 <= i < |items| ==> KeysAscend(items[i])
    case Obj(es) =>
      (forall i, j :: 0 <= i < j < |es| ==> Precedes(es[i].key, es[j].key))
      && forall i :: 0 <= i < |es| ==> KeysAscend(es[i].val)
    case _ => true
  }

  lemma {:induction false} NormalAscends(v: Value)
    requires WellFormed(v)
    ensures KeysAscend(Normal(v))
  {
    match v
    case Arr(items) =>
      forall i | 0 <= i < |items| ensures KeysAscend(NormalItems(items)[i]) {
        NormalItemsAt(items, i);
        NormalAscends(items[i]);
      }
    case Obj(es) =>
      var normal := NormalEntries(es);
      forall i | 0 <= i < |es| ensures KeysAscend(normal[i].val) {
        NormalEntriesAt(es, i);
        NormalAscends(es[i].val);
      }
      NormalEntriesDistinct(es);
      SortAscends(normal);
    case _ =>
  }

  lemma SortAscends(es: seq<Entry>)
    requires DistinctKeys(es) && forall i :: 0 <= i < |es| ==> KeysAscend(es[i].val)
    ensures KeysAscend(Obj(SortEntries(es)))
  {
    var sorted := SortEntries(es);
    SortEntriesStrictly(es);
    SortEntriesMembers(es);
    forall i, j | 0 <= i < j < |sorted| ensures Precedes(sorted[i].key, sorted[j].key) {
      LessIsUnitOrder(sorted[i].key, sorted[j].key);
    }
    forall i | 0 <= i < |sorted| ensures KeysAscend(sorted[i].val) {
      assert sorted[i] in es;
    }
  }

  // ---- Pointwise views of the recursive functions ----

  lemma {:induction false} NormalItemsAt(items: seq<Value>, i: nat)
    requires i < |items|
    ensures NormalItems(items)[i] == Normal(items[i])
  {
    if i > 0 { NormalItemsAt(items[1..], i - 1); }
  }

  lemma {:induction false} NormalEntriesAt(es: seq<Entry>, i: nat)
    requires i < |es|
    ensures NormalEntries(es)[i] == Entry(es[i].key, Normal(es[i].val))
  {
    if i > 0 { NormalEntriesAt(es[1..], i - 1); }
  }

  lemma {:induction false} DenoteItemsAt(items: seq<Value>, i: nat)
    requires i < |items|
    ensures DenoteItems(items)[i] == Denote(items[i])
  {
    if i > 0 { DenoteItemsAt(items[1..], i - 1); }
  }

  lemma {:induction false} DenoteEntriesKeys(es: seq<Entry>, k: Text)
    ensures k in DenoteEntries(es) <==> exists i :: 0 <= i < |es| && es[i].key == k
  {
    if es != [] {
      DenoteEntriesKeys(es[1..], k);
      if k in DenoteEntries(es[1..]) {
        var i :| 0 <= i < |es[1..]| && es[1..][i].key == k;
        assert es[i + 1].key == k;
      }
      assert forall i :: 0 < i < |es| ==> es[1..][i - 1] == es[i];
    }
  }

  lemma {:induction false} DenoteEntriesAt(es: seq<Entry>, i: nat)
    requires i < |es| && DistinctKeys(es)
    ensures es[i].key in DenoteEntries(es) && DenoteEntries(es)[es[i].key] == Denote(es[i].val)
  {
    if i > 0 {
      DenoteEntriesAt(es[1..], i - 1);
      assert es[1..][i - 1] == es[i];
    }
  }

  lemma NormalEntriesDistinct(es: seq<Entry>)
    requires DistinctKeys(es)
    ensures DistinctKeys(NormalEntries(es))
  {
    forall i, j | 0 <= i < j < |es| ensures NormalEntries(es)[i].key != NormalEntries(es)[j].key {
      NormalEntriesAt(es, i);
      NormalEntriesAt(es, j);
    }
  }

  // ---- Normalization keeps the meaning ----

  lemma DistinctWhenStrictlySorted(es: seq<Entry>)
    requires StrictlySorted(es)
    ensures DistinctKeys(es)
  {
    forall i, j | 0 <= i < j < |es| ensures es[i].key != es[j].key {
      LessIsIrreflexive(es[i].key);
    }
  }

  /** Entry lists with the same members denote the same object. */
  lemma SameEntriesSameMeaning(xs: seq<Entry>, ys: seq<Entry>)
    requires DistinctKeys(xs) && DistinctKeys(ys) && forall e :: e in xs <==> e in ys
    ensures DenoteEntries(xs) == DenoteEntries(ys)
  {
    forall k ensures k in DenoteEntries(xs) <==> k in DenoteEntries(ys) {
      DenoteEntriesKeys(xs, k);
      DenoteEntriesKeys(ys, k);
      if k in DenoteEntries(xs) {
        var i :| 0 <= i < |xs| && xs[i].key == k;
        assert xs[i] in ys;
      }
      if k in DenoteEntries(ys) {
        var i :| 0 <= i < |ys| && ys[i].key == k;
        assert ys[i] in xs;
      }
    }
    forall k | k in DenoteEntries(xs) ensures DenoteEntries(xs)[k] == DenoteEntries(ys)[k] {
      DenoteEntriesKeys(xs, k);
      var i :| 0 <= i < |xs| && xs[i].key == k;
      assert xs[i] in ys;
      var j :| 0 <= j < |ys| && ys[j] == xs[i];
      DenoteEntriesAt(xs, i);
      DenoteEntriesAt(ys, j);
    }
  }

  lemma {:induction false} NormalKeepsMeaning(v: Value)
    requires WellFormed(v)
    ensures Denote(Normal(v)) == Denote(v) && WellFormed(Normal(v))
    decreases v, 1
  {
    match v
    case Arr(items) =>
      forall i | 0 <= i < |items|
        ensures DenoteItems(NormalItems(items))[i] == DenoteItems(items)[i] && WellFormed(NormalItems(items)[i])
      {
        NormalItemsAt(items, i);
        DenoteItemsAt(items, i);
        DenoteItemsAt(NormalItems(items), i);
        NormalKeepsMeaning(items[i]);
      }
      assert DenoteItems(NormalItems(items)) == DenoteItems(items);
    case Obj(es) =>
      var ns := NormalEntries(es);
      NormalEntriesKeepMeaning(es);
      NormalEntriesDistinct(es);
      SortEntriesStrictly(ns);
      SortEntriesMembers(ns);
      DistinctWhenStrictlySorted(SortEntries(ns));
      SameEntriesSameMeaning(SortEntries(ns), ns);
      forall i | 0 <= i < |ns| ensures WellFormed(SortEntries(ns)[i].val) {
        assert SortEntries(ns)[i] in ns;
      }
    case _ =>
  }

  lemma {:induction false} NormalEntriesKeepMeaning(es: seq<Entry>)
    requires forall i :: 0 <= i < |es| ==> WellFormed(es[i].val)
    ensures DenoteEntries(NormalEntries(es)) == DenoteEntries(es)
    ensures forall e :: e in NormalEntries(es) ==> WellFormed(e.val)
    decreases es, 0
  {
    if es != [] {
      NormalKeepsMeaning(es[0].val);
      NormalEntriesKeepMeaning(es[1..]);
      assert NormalEntries(es)[1..] == NormalEntries(es[1..]);
    }
  }

  // ---- The meaning determines the normal form ----

  lemma {:induction false} MeaningFixesNormal(x: Value, y: Value)
    requires WellFormed(x) && WellFormed(y) && Serializable(x) && Serializable(y)
    requires Denote(x) == Denote(y)
    ensures Normal(x) == Normal(y)
    decreases x
  {
    match x
    case Arr(xs) =>
      var ys := y.items;
      forall i | 0 <= i < |xs| ensures NormalItems(xs)[i] == NormalItems(ys)[i] {
        DenoteItemsAt(xs, i);
        DenoteItemsAt(ys, i);
        MeaningFixesNormal(xs[i], ys[i]);
        NormalItemsAt(xs, i);
        NormalItemsAt(ys, i);
      }
    case Obj(xs) =>
      var ys := y.entries;
      forall i | 0 <= i < |xs| ensures NormalEntries(xs)[i] in NormalEntries(ys) {
        var j := SameKeyIn(xs, i, ys);
        MeaningFixesNormal(xs[i].val, ys[j].val);
        NormalEntriesAt(xs, i);
        NormalEntriesAt(ys, j);
      }
      forall j | 0 <= j < |ys| ensures NormalEntries(ys)[j] in NormalEntries(xs) {
        var i := SameKeyIn(ys, j, xs);
        MeaningFixesNormal(xs[i].val, ys[j].val);
        NormalEntriesAt(xs, i);
        NormalEntriesAt(ys, j);
      }
      SameMembersSortAlike(xs, ys);
    case _ =>
  }

  lemma SameKeyIn(xs: seq<Entry>, i: nat, ys: seq<Entry>) returns (j: nat)
    requires i < |xs| && DistinctKeys(xs) && DistinctKeys(ys) && DenoteEntries(xs) == DenoteEntries(ys)
    ensures j < |ys| && ys[j].key == xs[i].key && Denote(ys[j].val) == Denote(xs[i].val)
  {
    DenoteEntriesAt(xs, i);
    DenoteEntriesKeys(ys, xs[i].key);
    j :| 0 <= j < |ys| && ys[j].key == xs[i].key;
    DenoteEntriesAt(ys, j);
  }

  lemma SameMembersSortAlike(xs: seq<Entry>, ys: seq<Entry>)
    requires DistinctKeys(xs) && DistinctKeys(ys)
    requires forall i :: 0 <= i < |xs| ==> NormalEntries(xs)[i] in NormalEntries(ys)
    requires forall j :: 0 <= j < |ys| ==> NormalEntries(ys)[j] in NormalEntries(xs)
    ensures SortEntries(NormalEntries(xs)) == SortEntries(NormalEntries(ys))
  {
    NormalEntriesDistinct(xs);
    NormalEntriesDistinct(ys);
    SortEntriesStrictly(NormalEntries(xs));
    SortEntriesStrictly(NormalEntries(ys));
    SortEntriesMembers(NormalEntries(xs));
    SortEntriesMembers(NormalEntries(ys));
    StrictlySortedIsUnique(SortEntries(NormalEntries(xs)), SortEntries(NormalEntries(ys)));
  }

  // ---- When serialization succeeds ----

  lemma {:induction false} FaultFreeIsSerializable(v: Value)
    ensures FirstFault(v).None? <==> Serializable(v)
    decreases v, 1
  {
    match v
    case Arr(items) => FaultFreeItems(items);
    case Obj(es) => FaultFreeFields(es);
    case _ =>
  }

  lemma {:induction false} FaultFreeItems(items: seq<Value>)
    ensures FirstItemFault(items).None? <==> forall i :: 0 <= i < |items| ==> Serializable(items[i])
    decreases items, 0
  {
    if items != [] {
      FaultFreeIsSerializable(items[0]);
      FaultFreeItems(items[1..]);
      assert items == [items[0]] + items[1..];
    }
  }

  lemma {:induction false} FaultFreeFields(es: seq<Entry>)
    ensures FirstFieldFault(es).None? <==> forall i :: 0 <= i < |es| ==> Serializable(es[i].val)
    decreases es, 0
  {
    if es != [] {
      FaultFreeIsSerializable(es[0].val);
      FaultFreeFields(es[1..]);
      assert es == [es[0]] + es[1..];
    }
  }

  predicate AllSerializable(es: seq<Entry>) {
    forall i :: 0 <= i < |es| ==> Serializable(es[i].val)
  }

  lemma SortKeepsSerializable(es: seq<Entry>)
    ensures AllSerializable(SortEntries(es)) <==> AllSerializable(es)
  {
    var sorted := SortEntries(es);
    SortEntriesMembers(es);
    forall i | 0 <= i < |es| && AllSerializable(sorted) ensures Serializable(es[i].val) {
      assert es[i] in sorted;
    }
    forall i | 0 <= i < |sorted| && AllSerializable(es) ensures Serializable(sorted[i].val) {
      assert sorted[i] in es;
    }
  }

  /** Item by item the same. */
  predicate SameSerializable(xs: seq<Value>, ys: seq<Value>) {
    |xs| == |ys| && forall i :: 0 <= i < |xs| ==> (Serializable(xs[i]) <==> Serializable(ys[i]))
  }

  lemma SameSerializableLists(xs: seq<Value>, ys: seq<Value>)
    requires SameSerializable(xs, ys)
    ensures Serializable(Arr(xs)) <==> Serializable(Arr(ys))
  {
  }

  lemma SameSerializableFields(xs: seq<Entry>, ys: seq<Entry>)
    requires |xs| == |ys| && forall i :: 0 <= i < |xs| ==> (Serializable(xs[i].val) <==> Serializable(ys[i].val))
    ensures AllSerializable(xs) <==> AllSerializable(ys)
  {
  }

  lemma {:induction false} NormalKeepsSerializable(v: Value)
    ensures Serializable(Normal(v)) <==> Serializable(v)
  {
    match v
    case Arr(items) =>
      forall i | 0 <= i < |items| ensures Serializable(NormalItems(items)[i]) <==> Serializable(items[i]) {
        NormalItemsAt(items, i);
        NormalKeepsSerializable(items[i]);
      }
      SameSerializableLists(NormalItems(items), items);
    case Obj(es) =>
      forall i | 0 <= i < |es| ensures Serializable(NormalEntries(es)[i].val) <==> Serializable(es[i].val) {
        NormalEntriesAt(es, i);
        NormalKeepsSerializable(es[i].val);
      }
      SameSerializableFields(NormalEntries(es), es);
      SortKeepsSerializable(NormalEntries(es));
    case _ =>
  }

  /** `canonicalJson` throws exactly on trees holding `undefined` or a non-finite number. */
  lemma CanonicalSucceeds(v: Value)
    ensures Canonical(v).Ok? <==> Serializable(v)
  {
    FaultFreeIsSerializable(Normal(v));
    NormalKeepsSerializable(v);
  }

  /**
   What serializing throws: the fault that comes first, arrays item by item and objects by ascending
   keys, where everything before it can be serialized.
   */
  ghost predicate Throws(v: Value, e: Error) {
    match v
    case Undefined => e == UnsupportedType
    case NonFinite => e == NonFiniteNumber
    case Arr(items) =>
      exists i :: 0 <= i < |items| && Throws(items[i], e) && forall j :: 0 <= j < i ==> Serializable(items[j])
    case Obj(es) =>
      exists i :: 0 <= i < |es|
        && (if es[i].val == Undefined then e == UndefinedAtKey(es[i].key) else Throws(es[i].val, e))
        && forall j :: 0 <= j < |es| && Precedes(es[j].key, es[i].key) ==> Serializable(es[j].val)
    case _ => false
  }

  lemma {:induction false} FirstFaultyItem(items: seq<Value>, e: Error) returns (i: nat)
    requires FirstItemFault(items) == Some(e)
    ensures i < |items| && FirstFault(items[i]) == Some(e) && forall j :: 0 <= j < i ==> Serializable(items[j])
  {
    FaultFreeIsSerializable(items[0]);
    if FirstFault(items[0]).Some? {
      i := 0;
    } else {
      i := FirstFaultyItem(items[1..], e);
      i := i + 1;
    }
  }

  lemma {:induction false} FirstFaultyField(es: seq<Entry>, e: Error) returns (i: nat)
    requires FirstFieldFault(es) == Some(e)
    ensures i < |es| && FieldFault(es[i]) == Some(e) && forall j :: 0 <= j < i ==> Serializable(es[j].val)
  {
    FaultFreeIsSerializable(es[0].val);
    if FieldFault(es[0]).Some? {
      i := 0;
    } else {
      i := FirstFaultyField(es[1..], e);
      i := i + 1;
    }
  }

  lemma ThrowsAtField(es: seq<Entry>, e: Error, i: nat)
    requires DistinctKeys(es) && i < |es|
    requires if es[i].val == Undefined then e == UndefinedAtKey(es[i].key) else Throws(es[i].val, e)
    requires var sorted := SortEntries(NormalEntries(es));
             exists k :: 0 <= k < |sorted| && sorted[k] == Entry(es[i].key, Normal(es[i].val))
                         && forall j :: 0 <= j < k ==> Serializable(sorted[j].val)
    ensures Throws(Obj(es), e)
  {
    var normal := NormalEntries(es);
    var sorted := SortEntries(normal);
    var k :| 0 <= k < |sorted| && sorted[k] == Entry(es[i].key, Normal(es[i].val))
             && forall j :: 0 <= j < k ==> Serializable(sorted[j].val);
    NormalEntriesDistinct(es);
    SortEntriesStrictly(normal);
    SortEntriesMembers(normal);
    forall j | 0 <= j < |es| && Precedes(es[j].key, es[i].key) ensures Serializable(es[j].val) {
      NormalEntriesAt(es, j);
      assert normal[j] in sorted;
      var l :| 0 <= l < |sorted| && sorted[l] == normal[j];
      EarlierInOrder(sorted, l, k);
      NormalKeepsSerializable(es[j].val);
    }
  }

  lemma EarlierInOrder(es: seq<Entry>, l: nat, k: nat)
    requires StrictlySorted(es) && l < |es| && k < |es| && Precedes(es[l].key, es[k].key)
    ensures l < k
  {
    LessIsUnitOrder(es[l].key, es[k].key);
    LessIsIrreflexive(es[k].key);
    if k < l {
      LessIsTransitive(es[k].key, es[l].key, es[k].key);
    }
  }

  /** The serializer throws the first fault in that sense. */
  lemma {:induction false} CanonicalThrowsFirst(v: Value, e: Error)
    requires WellFormed(v) && FirstFault(Normal(v)) == Some(e)
    ensures Throws(v, e)
  {
    match v
    case Arr(items) =>
      var i := FirstFaultyItem(NormalItems(items), e);
      NormalItemsAt(items, i);
      CanonicalThrowsFirst(items[i], e);
      forall j | 0 <= j < i ensures Serializable(items[j]) {
        NormalItemsAt(items, j);
        NormalKeepsSerializable(items[j]);
      }
    case Obj(es) =>
      var normal := NormalEntries(es);
      var k := FirstFaultyField(SortEntries(normal), e);
      SortEntriesMembers(normal);
      assert SortEntries(normal)[k] in normal;
      var i :| 0 <= i < |normal| && normal[i] == SortEntries(normal)[k];
      NormalEntriesAt(es, i);
      if es[i].val != Undefined {
        CanonicalThrowsFirst(es[i].val, e);
      }
      ThrowsAtField(es, e, i);
    case _ =>
  }

  /** Canonical text is exact: it forgets the order of object keys and nothing else. */
  lemma CanonicalIsExact(x: Value, y: Value)
    requires WellFormed(x) && WellFormed(y) && Serializable(x) && Serializable(y)
    ensures Canonical(x) == Canonical(y) <==> Denote(x) == Denote(y)
  {
    CanonicalSucceeds(x);
    CanonicalSucceeds(y);
    NormalKeepsSerializable(x);
    NormalKeepsSerializable(y);
    if Canonical(x) == Canonical(y) {
      JsonText.ParseOfPrint(Normal(x));
      JsonText.ParseOfPrint(Normal(y));
      NormalKeepsMeaning(x);
      NormalKeepsMeaning(y);
    }
    if Denote(x) == Denote(y) {
      MeaningFixesNormal(x, y);
    }
  }

  /** Canonical text is itself JSON for the tree it was made from, and one line long. */
  lemma CanonicalReadsBack(v: Value)
    requires WellFormed(v) && Serializable(v)
    ensures Canonical(v).Ok? && JsonText.Parse(Canonical(v).value) == Some(Normal(v))
    ensures Denote(Normal(v)) == Denote(v)
    ensures KeysAscend(JsonText.Parse(Canonical(v).value).value)
    ensures Without(NEWLINE, Canonical(v).value)
  {
    NormalAscends(v);
    CanonicalSucceeds(v);
    NormalKeepsSerializable(v);
    JsonText.ParseOfPrint(Normal(v));
    NormalKeepsMeaning(v);
    JsonText.PrintNoControl(Normal(v));
  }

  // ---- The serializer ----

  lemma {:induction false} InsertCommutes(e: Entry, es: seq<Entry>)
    ensures Sorting.Insert(KeyBefore, Entry(e.key, Normal(e.val)), NormalEntries(es)) ==
            NormalEntries(Sorting.Insert(KeyBefore, e, es))
  {
    if es != [] && KeyBefore(es[0], e) {
      InsertCommutes(e, es[1..]);
      assert NormalEntries(es)[1..] == NormalEntries(es[1..]);
      assert ([es[0]] + Sorting.Insert(KeyBefore, e, es[1..]))[1..] == Sorting.Insert(KeyBefore, e, es[1..]);
    } else {
      assert ([e] + es)[1..] == es;
    }
  }

  lemma {:induction false} SortCommutes(es: seq<Entry>)
    ensures SortEntries(NormalEntries(es)) == NormalEntries(SortEntries(es))
  {
    if es != [] {
      SortCommutes(es[1..]);
      assert NormalEntries(es)[1..] == NormalEntries(es[1..]);
      InsertCommutes(es[0], SortEntries(es[1..]));
    }
  }

  lemma {:induction false} PrintItemsAt(items: seq<Value>, i: nat)
    requires i < |items|
    ensures PrintItems(items)[i] == Print(items[i])
  {
    if i > 0 { PrintItemsAt(items[1..], i - 1); }
  }

  lemma {:induction false} PrintFieldsAt(es: seq<Entry>, i: nat)
    requires i < |es|
    ensures PrintFields(es)[i] == Quoted(es[i].key) + [COLON] + Print(es[i].val)
  {
    if i > 0 { PrintFieldsAt(es[1..], i - 1); }
  }

  lemma {:induction false} ItemFaultAt(items: seq<Value>, i: nat)
    requires i <= |items| && forall j :: 0 <= j < i ==> FirstFault(items[j]).None?
    ensures i == |items| ==> FirstItemFault(items) == None
    ensures i < |items| && FirstFault(items[i]).Some? ==> FirstItemFault(items) == FirstFault(items[i])
  {
    if i > 0 { ItemFaultAt(items[1..], i - 1); }
  }

  lemma {:induction false} FieldFaultAt(es: seq<Entry>, i: nat)
    requires i <= |es| && forall j :: 0 <= j < i ==> FieldFault(es[j]).None?
    ensures i == |es| ==> FirstFieldFault(es) == None
    ensures i < |es| && FieldFault(es[i]).Some? ==> FirstFieldFault(es) == FieldFault(es[i])
  {
    if i > 0 { FieldFaultAt(es[1..], i - 1); }
  }

  /** The text is JSON for `v` with ascending keys on one line, or the error is the first fault of `v`. */
  ghost predicate SerializedAs(v: Value, r: Result<Text>) {
    match r
    case Ok(text) =>
      && Serializable(v) && Without(NEWLINE, text)
      && exists p :: JsonText.Parse(text) == Some(p) && Denote(p) == Denote(v) && KeysAscend(p)
    case Err(e) => !Serializable(v) && Throws(v, e)
  }

  lemma CanonicalIsSerialized(v: Value)
    requires WellFormed(v)
    ensures SerializedAs(v, Canonical(v))
  {
    CanonicalSucceeds(v);
    match Canonical(v)
    case Ok(_) => CanonicalReadsBack(v);
    case Err(e) => CanonicalThrowsFirst(v, e);
  }

  /** `canonicalJson`: scalars directly, arrays item by item, objects over their sorted entries. */
  method CanonicalJson(v: Value) returns (r: Result<Text>)
    ensures r == Canonical(v)
    ensures WellFormed(v) ==> SerializedAs(v, r)
    decreases v, 1
  {
    if WellFormed(v) {
      CanonicalIsSerialized(v);
    }
    match v {
      case Undefined => r := Err(UnsupportedType);
      case NonFinite => r := Err(NonFiniteNumber);
      case Arr(items) => r := CanonicalArray(items);
      case Obj(es) => r := CanonicalObject(es);
      case _ => r := Ok(Print(v));
    }
  }

  method CanonicalArray(items: seq<Value>) returns (r: Result<Text>)
    ensures r == Canonical(Arr(items))
    ensures WellFormed(Arr(items)) ==> SerializedAs(Arr(items), r)
    decreases items, 0
  {
    if WellFormed(Arr(items)) {
      CanonicalIsSerialized(Arr(items));
    }
    var parts: seq<Text> := [];
    ghost var normal := NormalItems(items);
    for i := 0 to |items|
      invariant |parts| == i
      invariant forall j :: 0 <= j < i ==> FirstFault(normal[j]).None? && parts[j] == Print(normal[j])
    {
      var part := CanonicalJson(items[i]);
      NormalItemsAt(items, i);
      if part.Err? {
        ItemFaultAt(normal, i);
        return part;
      }
      parts := parts + [part.value];
    }
    ItemFaultAt(normal, |items|);
    forall j | 0 <= j < |items| ensures parts[j] == PrintItems(normal)[j] {
      PrintItemsAt(normal, j);
    }
    assert parts == PrintItems(normal);
    r := Ok([LBRACKET] + Join(parts) + [RBRACKET]);
  }

  /** `"key":value` */
  function FieldText(e: Entry): Text {
    Quoted(e.key) + [COLON] + Print(e.val)
  }

  /** The texts of the first fields, none of which is at fault. */
  predicate FieldsDone(normal: seq<Entry>, parts: seq<Text>) {
    |parts| <= |normal|
    && forall j :: 0 <= j < |parts| ==> FieldFault(normal[j]).None? && parts[j] == FieldText(normal[j])
  }

  lemma PartsArePrinted(es: seq<Entry>, parts: seq<Text>)
    requires |parts| == |es| && FieldsDone(es, parts)
    ensures parts == PrintFields(es)
  {
    forall j | 0 <= j < |es| ensures parts[j] == PrintFields(es)[j] {
      PrintFieldsAt(es, j);
    }
  }

  lemma CanonicalOfParts(es: seq<Entry>, normal: seq<Entry>, parts: seq<Text>)
    requires normal == NormalEntries(SortEntries(es)) && |parts| == |normal| && FieldsDone(normal, parts)
    ensures Canonical(Obj(es)) == Ok([LBRACE] + Join(parts) + [RBRACE])
  {
    SortCommutes(es);
    FieldFaultAt(normal, |normal|);
    PartsArePrinted(normal, parts);
  }

  lemma CanonicalOfFault(es: seq<Entry>, normal: seq<Entry>, parts: seq<Text>)
    requires normal == NormalEntries(SortEntries(es)) && FieldsDone(normal, parts)
    requires |parts| < |normal| && FieldFault(normal[|parts|]).Some?
    ensures Canonical(Obj(es)) == Err(FieldFault(normal[|parts|]).value)
  {
    SortCommutes(es);
    FieldFaultAt(normal, |parts|);
  }

  /** What serializing the value of a field says about the field. */
  lemma FieldOf(e: Entry, part: Result<Text>)
    requires e.val != Undefined && part == Canonical(e.val)
    ensures var f := Entry(e.key, Normal(e.val));
            match part
            case Ok(text) => FieldFault(f).None? && FieldText(f) == Quoted(e.key) + [COLON] + text
            case Err(error) => FieldFault(f) == Some(error)
  {
  }

  lemma OneFieldMore(normal: seq<Entry>, parts: seq<Text>, text: Text)
    requires FieldsDone(normal, parts) && |parts| < |normal|
    requires FieldFault(normal[|parts|]).None? && FieldText(normal[|parts|]) == text
    ensures FieldsDone(normal, parts + [text])
  {
  }

  method CanonicalObject(es: seq<Entry>) returns (r: Result<Text>)
    ensures r == Canonical(Obj(es))
    ensures WellFormed(Obj(es)) ==> SerializedAs(Obj(es), r)
    decreases es, 0
  {
    if WellFormed(Obj(es)) {
      CanonicalIsSerialized(Obj(es));
    }
    var sorted := SortEntries(es);
    var parts: seq<Text> := [];
    ghost var normal := NormalEntries(sorted);
    SortEntriesMembers(es);
    for i := 0 to |sorted|
      invariant |parts| == i && FieldsDone(normal, parts)
    {
      NormalEntriesAt(sorted, i);
      var e := sorted[i];
      assert e in es;
      if e.val == Undefined {
        CanonicalOfFault(es, normal, parts);
        return Err(UndefinedAtKey(e.key));
      }
      var part := CanonicalJson(e.val);
      FieldOf(e, part);
      if part.Err? {
        CanonicalOfFault(es, normal, parts);
        return part;
      }
      OneFieldMore(normal, parts, Quoted(e.key) + [COLON] + part.value);
      parts := parts + [Quoted(e.key) + [COLON] + part.value];
    }
    CanonicalOfParts(es, normal, parts);
    r := Ok([LBRACE] + Join(parts) + [RBRACE]);
  }
}
