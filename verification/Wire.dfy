/** What crosses the wire: `JSON.stringify` on the sender's side, `JSON.parse` on the receiver's. */
module Wire {
  import opened Texts
  import opened Json
  import JsonText

  /**
   The part of a JavaScript value that `JSON.stringify` keeps: undefined-valued keys are dropped,
   other undefined values and non-finite numbers become null.
   */
  function Strip(v: Value): Value
    decreases v, 1
  {
    match v
    case Undefined => Null
    case NonFinite => Null
    case Arr(items) => Arr(StripItems(items))
    case Obj(es) => Obj(StripEntries(es))
    case _ => v
  }

  function StripItems(items: seq<Value>): (r: seq<Value>)
    ensures |r| == |items|
    decreases items, 0
  {
    if items == [] then [] else [Strip(items[0])] + StripItems(items[1..])
  }

  function StripEntries(es: seq<Entry>): seq<Entry>
    decreases es, 0
  {
    if es == [] then []
    else if es[0].val == Undefined then StripEntries(es[1..])
    else [Entry(es[0].key, Strip(es[0].val))] + StripEntries(es[1..])
  }

  /** The request body sent for `v`; the message layer sends `v ?? null`. */
  function Stringify(v: Value): Text {
    Print(Strip(v))
  }

  lemma {:induction false} StripIsJson(v: Value)
    ensures Serializable(Strip(v))
    ensures WellFormed(v) ==> WellFormed(Strip(v))
    decreases v, 1
  {
    match v
    case Arr(items) => StripItemsIsJson(items);
    case Obj(es) => StripEntriesIsJson(es);
    case _ =>
  }

  lemma {:induction false} StripItemsIsJson(items: seq<Value>)
    ensures forall i :: 0 <= i < |items| ==> Serializable(StripItems(items)[i])
    ensures forall i :: 0 <= i < |items| && WellFormed(items[i]) ==> WellFormed(StripItems(items)[i])
    decreases items, 0
  {
    if items != [] {
      StripIsJson(items[0]);
      StripItemsIsJson(items[1..]);
    }
  }

  lemma {:induction false} StripEntriesIsJson(es: seq<Entry>)
    ensures forall i :: 0 <= i < |StripEntries(es)| ==> Serializable(StripEntries(es)[i].val)
    ensures (forall i :: 0 <= i < |es| ==> WellFormed(es[i].val)) ==>
              forall i :: 0 <= i < |StripEntries(es)| ==> WellFormed(StripEntries(es)[i].val)
    ensures DistinctKeys(es) ==> DistinctKeys(StripEntries(es))
    decreases es, 0
  {
    if es != [] {
      StripIsJson(es[0].val);
      StripEntriesIsJson(es[1..]);
    }
    if DistinctKeys(es) {
      StripEntriesDistinct(es);
    }
  }

  lemma {:induction false} StripEntriesDistinct(es: seq<Entry>)
    requires DistinctKeys(es)
    ensures DistinctKeys(StripEntries(es))
  {
    if es != [] {
      var rest := StripEntries(es[1..]);
      StripEntriesDistinct(es[1..]);
      StripEntriesKeys(es[1..]);
      forall j | 0 <= j < |rest| ensures rest[j].key != es[0].key {
        assert rest[j] in rest;
      }
    }
  }

  lemma {:induction false} StripEntriesKeys(es: seq<Entry>)
    ensures forall e :: e in StripEntries(es) ==> exists i :: 0 <= i < |es| && es[i].key == e.key
  {
    if es != [] {
      StripEntriesKeys(es[1..]);
      forall e | e in StripEntries(es) ensures exists i :: 0 <= i < |es| && es[i].key == e.key {
        if e in StripEntries(es[1..]) {
          var i :| 0 <= i < |es[1..]| && es[1..][i].key == e.key;
          assert es[i + 1].key == e.key;
        } else {
          assert es[0].key == e.key;
        }
      }
    }
  }

  /** Sending a value and parsing what arrives loses exactly what `Strip` removes. */
  lemma ParseOfStringify(v: Value)
    ensures JsonText.Parse(Stringify(v)) == Some(Strip(v))
  {
    StripIsJson(v);
    JsonText.ParseOfPrint(Strip(v));
  }

  predicate IsJson(v: Value) {
    WellFormed(v) && Serializable(v)
  }

  /** `JSON.parse(JSON.stringify(v ?? null))`. */
  function Normalized(v: Value): (r: Value)
    ensures r == Strip(v) && Serializable(r)
  {
    ParseOfStringify(v);
    StripIsJson(v);
    JsonText.Parse(Stringify(v)).value
  }

  lemma {:induction false} StripFixesJson(v: Value)
    requires Serializable(v)
    ensures Strip(v) == v
    decreases v, 1
  {
    match v
    case Arr(items) => StripItemsFixesJson(items);
    case Obj(es) => StripEntriesFixesJson(es);
    case _ =>
  }

  lemma {:induction false} StripItemsFixesJson(items: seq<Value>)
    requires forall i :: 0 <= i < |items| ==> Serializable(items[i])
    ensures StripItems(items) == items
    decreases items, 0
  {
    if items != [] {
      StripFixesJson(items[0]);
      StripItemsFixesJson(items[1..]);
      assert items == [items[0]] + items[1..];
    }
  }

  lemma {:induction false} StripEntriesFixesJson(es: seq<Entry>)
    requires forall i :: 0 <= i < |es| ==> Serializable(es[i].val)
    ensures StripEntries(es) == es
    decreases es, 0
  {
    if es != [] {
      StripFixesJson(es[0].val);
      StripEntriesFixesJson(es[1..]);
      assert es == [es[0]] + es[1..];
    }
  }

  lemma StripIsIdempotent(v: Value)
    ensures Strip(Strip(v)) == Strip(v)
  {
    StripIsJson(v);
    StripFixesJson(Strip(v));
  }

  /** The receiver's body normalizes to the sender's, undefined-valued keys at any depth included. */
  lemma WireParity(sent: Value, arrived: Option<Value>)
    requires arrived == JsonText.Parse(Stringify(sent))
    ensures arrived.Some? && Normalized(arrived.value) == Normalized(sent)
  {
    ParseOfStringify(sent);
    StripIsIdempotent(sent);
  }

  // ---- What arrives, part by part ----

  /** `at` lists the entries from `first` on that have a defined value, all of them and in order. */
  predicate ListsDefined(es: seq<Entry>, first: nat, at: seq<nat>) {
    && (forall k :: 0 <= k < |at| ==> first <= at[k] < |es| && es[at[k]].val != Undefined)
    && (forall k, l :: 0 <= k < l < |at| ==> at[k] < at[l])
    && (forall i {:trigger i in at} :: first <= i < |es| && es[i].val != Undefined ==> i in at)
  }

  /** The object arrives with the keys that have a defined value, in their order, each with what arrives for it. */
  ghost predicate ArrivesAsObject(es: seq<Entry>, ws: seq<Entry>) {
    exists at: seq<nat> ::
      ListsDefined(es, 0, at) && |ws| == |at|
      && forall k :: 0 <= k < |at| ==> ws[k] == Entry(es[at[k]].key, Normalized(es[at[k]].val))
  }

  /** `w` is what arrives for `v`, given what arrives for its parts. */
  ghost predicate ArrivesAs(v: Value, w: Value) {
    match v
    case Undefined => w == Null
    case NonFinite => w == Null
    case Arr(items) =>
      w.Arr? && |w.items| == |items| && forall i :: 0 <= i < |items| ==> w.items[i] == Normalized(items[i])
    case Obj(es) => w.Obj? && ArrivesAsObject(es, w.entries)
    case _ => w == v
  }

  lemma OneEntryMore(es: seq<Entry>, first: nat, at: seq<nat>)
    requires first < |es| && ListsDefined(es, first + 1, at)
    ensures ListsDefined(es, first, if es[first].val == Undefined then at else [first] + at)
  {
    if es[first].val != Undefined {
      var all := [first] + at;
      assert all[0] == first && forall k :: 0 < k < |all| ==> all[k] == at[k - 1];
      forall i | first <= i < |es| && es[i].val != Undefined ensures i in all {
        assert i == first || i in at;
      }
    }
  }

  lemma {:induction false} StrippedEntries(es: seq<Entry>, first: nat) returns (at: seq<nat>)
    requires first <= |es|
    ensures ListsDefined(es, first, at) && |StripEntries(es[first..])| == |at|
    ensures forall k :: 0 <= k < |at| ==> StripEntries(es[first..])[k] == Entry(es[at[k]].key, Strip(es[at[k]].val))
    decreases |es| - first
  {
    at := [];
    if first < |es| {
      var rest := StrippedEntries(es, first + 1);
      assert es[first..][1..] == es[first + 1..];
      OneEntryMore(es, first, rest);
      at := if es[first].val == Undefined then rest else [first] + rest;
    }
  }

  lemma {:induction false} StripItemsAt(items: seq<Value>, i: nat)
    requires i < |items|
    ensures StripItems(items)[i] == Strip(items[i])
  {
    if i > 0 {
      StripItemsAt(items[1..], i - 1);
    }
  }

  /**
   What the receiver parses of a stringified value: arrays of the same length, objects with exactly
   the keys that have a defined value, in order, and null for what has no JSON of its own.
   */
  lemma SentArrives(v: Value)
    ensures match JsonText.Parse(Stringify(v))
            case Some(w) => ArrivesAs(v, w) && Serializable(w) && (WellFormed(v) ==> WellFormed(w))
            case None => false
  {
    ParseOfStringify(v);
    StripIsJson(v);
    match v
    case Arr(items) =>
      forall i | 0 <= i < |items| ensures StripItems(items)[i] == Strip(items[i]) {
        StripItemsAt(items, i);
      }
    case Obj(es) =>
      var at := StrippedEntries(es, 0);
      assert es[0..] == es;
      assert ArrivesAsObject(es, StripEntries(es));
    case _ =>
  }

  // ---- Every JSON value can be sent ----

  /** Some JSON tree has the information `d`. */
  lemma {:induction false} TreeOf(d: Data) returns (v: Value)
    ensures IsJson(v) && Denote(v) == d
    decreases d, 1
  {
    match d
    case DNull => v := Null;
    case DBool(b) => v := Bool(b);
    case DNum(n) => v := Num(n);
    case DStr(s) => v := Str(s);
    case DList(items) =>
      var trees := TreesOf(d, items);
      v := Arr(trees);
    case DMap(fields) =>
      var es := EntriesOf(d, fields.Keys);
      assert fields == DenoteEntries(es);
      v := Obj(es);
  }

  lemma {:induction false} TreesOf(d: Data, items: seq<Data>) returns (trees: seq<Value>)
    requires d.DList? && forall i :: 0 <= i < |items| ==> items[i] in d.items
    ensures forall i :: 0 <= i < |trees| ==> IsJson(trees[i])
    ensures DenoteItems(trees) == items
    decreases d, 0, |items|
  {
    trees := [];
    if items != [] {
      var first := TreeOf(items[0]);
      var rest := TreesOf(d, items[1..]);
      trees := [first] + rest;
      assert trees[1..] == rest && items == [items[0]] + items[1..];
    }
  }

  lemma {:induction false} EntriesOf(d: Data, keys: set<Text>) returns (es: seq<Entry>)
    requires d.DMap? && keys <= d.fields.Keys
    ensures DistinctKeys(es) && forall i :: 0 <= i < |es| ==> IsJson(es[i].val) && es[i].key in keys
    ensures DenoteEntries(es) == map k | k in keys :: d.fields[k]
    decreases d, 0, |keys|
  {
    es := [];
    if keys != {} {
      var k :| k in keys;
      var first := TreeOf(d.fields[k]);
      var rest := EntriesOf(d, keys - {k});
      es := [Entry(k, first)] + rest;
      assert es[1..] == rest;
    }
  }
}
