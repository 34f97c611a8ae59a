/** JSON trees, their compact text, and what canonicalization does to them. */
module Json {
  import opened Texts
  import Sorting

  /** A JavaScript value handed to the serializer; an object lists its own entries in order. */
  datatype Value =
    | Undefined
    | Null
    | Bool(b: bool)
    | NonFinite
    | Num(n: int)
    | Str(s: Text)
    | Arr(items: seq<Value>)
    | Obj(entries: seq<Entry>)

  datatype Entry = Entry(key: Text, val: Value)

  /** The information in a JSON tree: objects are finite maps, so entry order is gone. */
  datatype Data =
    | DNull
    | DBool(b: bool)
    | DNum(n: int)
    | DStr(s: Text)
    | DList(items: seq<Data>)
    | DMap(fields: map<Text, Data>)

  datatype Error = NonFiniteNumber | UndefinedAtKey(key: Text) | UnsupportedType

  datatype Result<+T> = Ok(value: T) | Err(error: Error)

  const NULL_WORD: Text := [110, 117, 108, 108]
  const TRUE_WORD: Text := [116, 114, 117, 101]
  const FALSE_WORD: Text := [102, 97, 108, 115, 101]
  const BACKSLASH: CodeUnit := 92
  const LETTER_U: CodeUnit := 117
  const LBRACKET: CodeUnit := 91
  const RBRACKET: CodeUnit := 93
  const LBRACE: CodeUnit := 123
  const RBRACE: CodeUnit := 125

  // ---- Which values are serializable JSON ----

  predicate DistinctKeys(es: seq<Entry>) {
    forall i, j :: 0 <= i < j < |es| ==> es[i].key != es[j].key
  }

  /** A JavaScript object never lists a key twice. */
  predicate WellFormed(v: Value) {
    match v
    case Arr(items) => forall i :: 0 <= i < |items| ==> WellFormed(items[i])
    case Obj(es) => DistinctKeys(es) && forall i :: 0 <= i < |es| ==> WellFormed(es[i].val)
    case _ => true
  }

  predicate Serializable(v: Value) {
    match v
    case Undefined => false
    case NonFinite => false
    case Arr(items) => forall i :: 0 <= i < |items| ==> Serializable(items[i])
    case Obj(es) => forall i :: 0 <= i < |es| ==> Serializable(es[i].val)
    case _ => true
  }

  // ---- JSON.stringify on serializable trees ----

  predicate IsHigh(u: CodeUnit) { 0xD800 <= u < 0xDC00 }

  predicate IsLow(u: CodeUnit) { 0xDC00 <= u < 0xE000 }

  /** Whether the surrogate at `i` belongs to a surrogate pair of `s`. */
  predicate Paired(s: Text, i: nat)
    requires i < |s|
  {
    || (IsHigh(s[i]) && i + 1 < |s| && IsLow(s[i + 1]))
    || (IsLow(s[i]) && i > 0 && IsHigh(s[i - 1]))
  }

  function HexDigit(d: int): CodeUnit
    requires 0 <= d < 16
  {
    if d < 10 then ZERO + d else 87 + d
  }

  function HexValue(u: CodeUnit): (d: Option<int>)
    ensures d.Some? ==> 0 <= d.value < 16
  {
    if IsDigit(u) then Some(u - ZERO)
    else if 97 <= u < 103 then Some(u - 87)
    else if 65 <= u < 71 then Some(u - 55)
    else None
  }

  function Hex4(u: CodeUnit): Text {
    [HexDigit(u / 4096), HexDigit(u / 256 % 16), HexDigit(u / 16 % 16), HexDigit(u % 16)]
  }

  function EscapeUnit(u: CodeUnit, paired: bool): Text {
    if u == QUOTE || u == BACKSLASH then [BACKSLASH, u]
    else if u == 8 then [BACKSLASH, 98]
    else if u == 9 then [BACKSLASH, 116]
    else if u == 10 then [BACKSLASH, 110]
    else if u == 12 then [BACKSLASH, 102]
    else if u == 13 then [BACKSLASH, 114]
    else if u < 32 || ((IsHigh(u) || IsLow(u)) && !paired) then [BACKSLASH, LETTER_U] + Hex4(u)
    else [u]
  }

  function Escaped(s: Text, i: nat): Text
    requires i <= |s|
    decreases |s| - i
  {
    if i == |s| then [] else EscapeUnit(s[i], Paired(s, i)) + Escaped(s, i + 1)
  }

  function Quoted(s: Text): Text {
    [QUOTE] + Escaped(s, 0) + [QUOTE]
  }

  /** `parts.join(',')`. */
  function Join(parts: seq<Text>): Text {
    if parts == [] then []
    else if |parts| == 1 then parts[0]
    else parts[0] + [COMMA] + Join(parts[1..])
  }

  /** `JSON.stringify`, entries in the order the object lists them. */
  function Print(v: Value): Text
    decreases v, 1
  {
    match v
    case Undefined => NULL_WORD
    case Null => NULL_WORD
    case Bool(b) => if b then TRUE_WORD else FALSE_WORD
    case NonFinite => NULL_WORD
    case Num(n) => Decimal(n)
    case Str(s) => Quoted(s)
    case Arr(items) => [LBRACKET] + Join(PrintItems(items)) + [RBRACKET]
    case Obj(es) => [LBRACE] + Join(PrintFields(es)) + [RBRACE]
  }

  function PrintItems(items: seq<Value>): (parts: seq<Text>)
    ensures |parts| == |items|
    decreases items, 0
  {
    if items == [] then [] else [Print(items[0])] + PrintItems(items[1..])
  }

  function PrintFields(es: seq<Entry>): (parts: seq<Text>)
    ensures |parts| == |es|
    decreases es, 0
  {
    if es == [] then []
    else [Quoted(es[0].key) + [COLON] + Print(es[0].val)] + PrintFields(es[1..])
  }

  // ---- Canonical order ----

  predicate KeyBefore(a: Entry, b: Entry) {
    Less(a.key, b.key)
  }

  function SortEntries(es: seq<Entry>): seq<Entry> {
    Sorting.Sort(KeyBefore, es)
  }

  /** The tree with the keys of every object sorted. */
  function Normal(v: Value): Value
    decreases v, 1
  {
    match v
    case Arr(items) => Arr(NormalItems(items))
    case Obj(es) => Obj(SortEntries(NormalEntries(es)))
    case _ => v
  }

  function NormalItems(items: seq<Value>): (r: seq<Value>)
    ensures |r| == |items|
    decreases items, 0
  {
    if items == [] then [] else [Normal(items[0])] + NormalItems(items[1..])
  }

  function NormalEntries(es: seq<Entry>): (r: seq<Entry>)
    ensures |r| == |es|
    decreases es, 0
  {
    if es == [] then [] else [Entry(es[0].key, Normal(es[0].val))] + NormalEntries(es[1..])
  }

  /** The error the serializer throws first when it visits `v` in the order given. */
  function FirstFault(v: Value): Option<Error>
    decreases v, 1
  {
    match v
    case Undefined => Some(UnsupportedType)
    case NonFinite => Some(NonFiniteNumber)
    case Arr(items) => FirstItemFault(items)
    case Obj(es) => FirstFieldFault(es)
    case _ => None
  }

  function FirstItemFault(items: seq<Value>): Option<Error>
    decreases items, 0
  {
    if items == [] then None
    else if FirstFault(items[0]).Some? then FirstFault(items[0])
    else FirstItemFault(items[1..])
  }

  function FieldFault(e: Entry): Option<Error>
    decreases e, 0
  {
    if e.val == Undefined then Some(UndefinedAtKey(e.key)) else FirstFault(e.val)
  }

  function FirstFieldFault(es: seq<Entry>): Option<Error>
    decreases es, 0
  {
    if es == [] then None
    else if FieldFault(es[0]).Some? then FieldFault(es[0])
    else FirstFieldFault(es[1..])
  }

  /** The specification of `canonicalJson`: the compact text of the normal form, or its first fault. */
  function Canonical(v: Value): Result<Text> {
    match FirstFault(Normal(v))
    case Some(e) => Err(e)
    case None => Ok(Print(Normal(v)))
  }

  // ---- Meaning ----

  function Denote(v: Value): Data
    decreases v, 1
  {
    match v
    case Undefined => DNull
    case Null => DNull
    case Bool(b) => DBool(b)
    case NonFinite => DNull
    case Num(n) => DNum(n)
    case Str(s) => DStr(s)
    case Arr(items) => DList(DenoteItems(items))
    case Obj(es) => DMap(DenoteEntries(es))
  }

  function DenoteItems(items: seq<Value>): (r: seq<Data>)
    ensures |r| == |items|
    decreases items, 0
  {
    if items == [] then [] else [Denote(items[0])] + DenoteItems(items[1..])
  }

  function DenoteEntries(es: seq<Entry>): map<Text, Data>
    decreases es, 0
  {
    if es == [] then map[] else DenoteEntries(es[1..])[es[0].key := Denote(es[0].val)]
  }
}
