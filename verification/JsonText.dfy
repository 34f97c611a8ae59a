/** A reader for compact JSON text, and the proof that it inverts the printer. */
module JsonText {
  import opened Texts
  import opened Json

  datatype Read<+T> = Fail | Got(value: T, rest: Text)

  function ReadEscape(s: Text): (r: Read<CodeUnit>)
    ensures r.Got? ==> |r.rest| < |s|
  {
    if s == [] then Fail
    else match s[0]
      case 34 => Got(34, s[1..])
      case 92 => Got(92, s[1..])
      case 47 => Got(47, s[1..])
      case 98 => Got(8, s[1..])
      case 102 => Got(12, s[1..])
      case 110 => Got(10, s[1..])
      case 114 => Got(13, s[1..])
      case 116 => Got(9, s[1..])
      case 117 => ReadHex4(s[1..])
      case _ => Fail
  }

  function ReadHex4(s: Text): (r: Read<CodeUnit>)
    ensures r.Got? ==> |r.rest| < |s|
  {
    if |s| < 4 then Fail
    else match (HexValue(s[0]), HexValue(s[1]), HexValue(s[2]), HexValue(s[3]))
      case (Some(a), Some(b), Some(c), Some(d)) => Got(4096 * a + 256 * b + 16 * c + d, s[4..])
      case _ => Fail
  }

  /** One character of a string, escaped or not. */
  function ReadUnit(s: Text): (r: Read<CodeUnit>)
    requires s != []
    ensures r.Got? ==> |r.rest| < |s|
  {
    if s[0] == BACKSLASH then ReadEscape(s[1..]) else Got(s[0], s[1..])
  }

  /** Reads the characters of a string up to and including its closing quote. */
  function ReadChars(s: Text): (r: Read<Text>)
    ensures r.Got? ==> |r.rest| < |s|
    decreases |s|
  {
    if s == [] || s[0] < 32 then Fail
    else if s[0] == QUOTE then Got([], s[1..])
    else
      var unit := ReadUnit(s);
      if unit.Fail? then Fail
      else match ReadChars(unit.rest)
        case Fail => Fail
        case Got(tail, rest) => Got([unit.value] + tail, rest)
  }

  function ReadString(s: Text): (r: Read<Text>)
    ensures r.Got? ==> |r.rest| < |s|
  {
    if s != [] && s[0] == QUOTE then ReadChars(s[1..]) else Fail
  }

  function ReadWord(word: Text, v: Value, s: Text): (r: Read<Value>)
    requires word != []
    ensures r.Got? ==> |r.rest| < |s|
  {
    if word <= s then Got(v, s[|word|..]) else Fail
  }

  function ReadValue(s: Text): (r: Read<Value>)
    ensures r.Got? ==> |r.rest| < |s|
    decreases |s|, 0
  {
    if s == [] then Fail
    else if s[0] == QUOTE then
      match ReadString(s)
      case Fail => Fail
      case Got(t, rest) => Got(Str(t), rest)
    else if s[0] == LBRACKET then
      if |s| > 1 && s[1] == RBRACKET then Got(Arr([]), s[2..])
      else match ReadItems(s[1..])
        case Fail => Fail
        case Got(items, rest) => Got(Arr(items), rest)
    else if s[0] == LBRACE then
      if |s| > 1 && s[1] == RBRACE then Got(Obj([]), s[2..])
      else match ReadFields(s[1..])
        case Fail => Fail
        case Got(es, rest) => Got(Obj(es), rest)
    else if s[0] == NULL_WORD[0] then ReadWord(NULL_WORD, Null, s)
    else if s[0] == TRUE_WORD[0] then ReadWord(TRUE_WORD, Bool(true), s)
    else if s[0] == FALSE_WORD[0] then ReadWord(FALSE_WORD, Bool(false), s)
    else match ReadInt(s)
      case None => Fail
      case Some((n, rest)) => Got(Num(n), rest)
  }

  /** Reads `item,item,...]`. */
  function ReadItems(s: Text): (r: Read<seq<Value>>)
    ensures r.Got? ==> |r.rest| < |s|
    decreases |s|, 1
  {
    match ReadValue(s)
    case Fail => Fail
    case Got(v, rest) =>
      if rest != [] && rest[0] == RBRACKET then Got([v], rest[1..])
      else if rest != [] && rest[0] == COMMA then
        match ReadItems(rest[1..])
        case Fail => Fail
        case Got(vs, end) => Got([v] + vs, end)
      else Fail
  }

  function ReadField(s: Text): (r: Read<Entry>)
    ensures r.Got? ==> |r.rest| < |s|
    decreases |s|, 1
  {
    match ReadString(s)
    case Fail => Fail
    case Got(key, rest) =>
      if rest != [] && rest[0] == COLON then
        match ReadValue(rest[1..])
        case Fail => Fail
        case Got(v, end) => Got(Entry(key, v), end)
      else Fail
  }

  /** Reads `"key":value,...}`. */
  function ReadFields(s: Text): (r: Read<seq<Entry>>)
    ensures r.Got? ==> |r.rest| < |s|
    decreases |s|, 2
  {
    match ReadField(s)
    case Fail => Fail
    case Got(e, rest) =>
      if rest != [] && rest[0] == RBRACE then Got([e], rest[1..])
      else if rest != [] && rest[0] == COMMA then
        match ReadFields(rest[1..])
        case Fail => Fail
        case Got(es, end) => Got([e] + es, end)
      else Fail
  }

  /** `JSON.parse` on compact text: one value and nothing after it. */
  function Parse(s: Text): Option<Value> {
    match ReadValue(s)
    case Got(v, rest) => if rest == [] then Some(v) else None
    case Fail => None
  }

  // ---- Reading what was printed ----

  lemma HexValueOfDigit(d: int)
    requires 0 <= d < 16
    ensures HexValue(HexDigit(d)) == Some(d)
  {
  }

  lemma HexDecomposition(u: CodeUnit)
    ensures 4096 * (u / 4096) + 256 * (u / 256 % 16) + 16 * (u / 16 % 16) + u % 16 == u
  {
    var x := u / 16;
    var y := x / 16;
    assert u / 256 == y && u / 4096 == y / 16;
  }

  lemma ReadHex4OfHex4(u: CodeUnit, rest: Text)
    ensures ReadHex4(Hex4(u) + rest) == Got(u, rest)
  {
    var s := Hex4(u) + rest;
    var a, b, c, d := u / 4096, u / 256 % 16, u / 16 % 16, u % 16;
    HexValueOfDigit(a);
    HexValueOfDigit(b);
    HexValueOfDigit(c);
    HexValueOfDigit(d);
    HexDecomposition(u);
    assert s[0] == HexDigit(a) && s[1] == HexDigit(b) && s[2] == HexDigit(c) && s[3] == HexDigit(d);
    assert s[4..] == rest;
  }

  lemma ReadUnitOfHex(u: CodeUnit, rest: Text)
    ensures ReadUnit([BACKSLASH, LETTER_U] + Hex4(u) + rest) == Got(u, rest)
  {
    var s := [BACKSLASH, LETTER_U] + Hex4(u) + rest;
    ReadHex4OfHex4(u, rest);
    assert s[1..] == [LETTER_U] + (Hex4(u) + rest);
    assert s[1..][1..] == Hex4(u) + rest;
  }

  /** One escaped unit is read back. */
  lemma ReadUnitOfEscape(u: CodeUnit, paired: bool, rest: Text)
    ensures var s := EscapeUnit(u, paired) + rest;
            s[0] >= 32 && s[0] != QUOTE && ReadUnit(s) == Got(u, rest)
  {
    var e := EscapeUnit(u, paired);
    var s := e + rest;
    if |e| == 1 {
      assert s[1..] == rest;
    } else if |e| == 2 {
      assert s[1..] == [e[1]] + rest;
      assert s[1..][1..] == rest;
    } else {
      ReadUnitOfHex(u, rest);
    }
  }

  lemma ReadCharsStep(s: Text, u: CodeUnit, rest: Text)
    requires s != [] && s[0] >= 32 && s[0] != QUOTE && ReadUnit(s) == Got(u, rest)
    ensures ReadChars(s) == match ReadChars(rest) { case Fail => Fail case Got(tail, end) => Got([u] + tail, end) }
  {
  }

  lemma Regroup(a: Text, b: Text, c: Text, d: Text)
    ensures a + b + c + d == a + (b + c + d) == a + (b + (c + d))
  {
  }

  lemma {:induction false} ReadCharsOfEscaped(s: Text, i: nat, rest: Text)
    requires i <= |s|
    ensures ReadChars(Escaped(s, i) + [QUOTE] + rest) == Got(s[i..], rest)
    decreases |s| - i
  {
    var tail := [QUOTE] + rest;
    if i == |s| {
      assert Escaped(s, i) + [QUOTE] + rest == tail;
      assert tail[1..] == rest;
    } else {
      var unit := EscapeUnit(s[i], Paired(s, i));
      var more := Escaped(s, i + 1) + [QUOTE] + rest;
      Regroup(unit, Escaped(s, i + 1), [QUOTE], rest);
      ReadCharsOfEscaped(s, i + 1, rest);
      ReadUnitOfEscape(s[i], Paired(s, i), more);
      ReadCharsStep(unit + more, s[i], more);
      assert s[i..] == [s[i]] + s[i + 1..];
    }
  }

  lemma ReadStringOfQuoted(s: Text, rest: Text)
    ensures ReadString(Quoted(s) + rest) == Got(s, rest)
  {
    assert (Quoted(s) + rest)[1..] == Escaped(s, 0) + [QUOTE] + rest;
    ReadCharsOfEscaped(s, 0, rest);
  }

  /** What may follow a value: nothing that would prolong a numeral. */
  predicate Stops(rest: Text) {
    rest == [] || !IsDigit(rest[0])
  }

  /** A nonempty bracketed list is read by reading its items. */
  lemma ReadArrStep(s: Text, items: seq<Value>, rest: Text)
    requires s != [] && s[0] != RBRACKET
    requires ReadItems(s) == Got(items, rest)
    ensures ReadValue([LBRACKET] + s) == Got(Arr(items), rest)
  {
    assert ([LBRACKET] + s)[1..] == s;
  }

  lemma ReadObjStep(s: Text, es: seq<Entry>, rest: Text)
    requires s != [] && s[0] != RBRACE
    requires ReadFields(s) == Got(es, rest)
    ensures ReadValue([LBRACE] + s) == Got(Obj(es), rest)
  {
    assert ([LBRACE] + s)[1..] == s;
  }

  lemma ReadWordStep(word: Text, v: Value, rest: Text)
    requires word != []
    ensures ReadWord(word, v, word + rest) == Got(v, rest)
  {
    assert (word + rest)[|word|..] == rest;
  }

  lemma ReadNumStep(n: int, rest: Text)
    requires Stops(rest)
    ensures ReadValue(Decimal(n) + rest) == Got(Num(n), rest)
  {
    assert Decimal(n)[0] in Decimal(n);
    ReadIntOfDecimal(n, rest);
  }

  lemma ReadStrStep(t: Text, rest: Text)
    ensures ReadValue(Quoted(t) + rest) == Got(Str(t), rest)
  {
    ReadStringOfQuoted(t, rest);
  }

  lemma ReadLastItem(s: Text, v: Value, rest: Text)
    requires ReadValue(s) == Got(v, [RBRACKET] + rest)
    ensures ReadItems(s) == Got([v], rest)
  {
    assert ([RBRACKET] + rest)[1..] == rest;
  }

  lemma ReadItemThenMore(s: Text, v: Value, more: Text, vs: seq<Value>, rest: Text)
    requires ReadValue(s) == Got(v, [COMMA] + more)
    requires ReadItems(more) == Got(vs, rest)
    ensures ReadItems(s) == Got([v] + vs, rest)
  {
    assert ([COMMA] + more)[1..] == more;
  }

  lemma ReadLastField(s: Text, e: Entry, rest: Text)
    requires ReadField(s) == Got(e, [RBRACE] + rest)
    ensures ReadFields(s) == Got([e], rest)
  {
    assert ([RBRACE] + rest)[1..] == rest;
  }

  lemma ReadFieldThenMore(s: Text, e: Entry, more: Text, es: seq<Entry>, rest: Text)
    requires ReadField(s) == Got(e, [COMMA] + more)
    requires ReadFields(more) == Got(es, rest)
    ensures ReadFields(s) == Got([e] + es, rest)
  {
    assert ([COMMA] + more)[1..] == more;
  }

  lemma ReadFieldStep(e: Entry, tail: Text)
    requires ReadValue(Print(e.val) + tail) == Got(e.val, tail)
    ensures ReadField(Quoted(e.key) + [COLON] + Print(e.val) + tail) == Got(e, tail)
  {
    var afterKey := [COLON] + (Print(e.val) + tail);
    ReadStringOfQuoted(e.key, afterKey);
    Regroup(Quoted(e.key), [COLON], Print(e.val), tail);
    assert afterKey[1..] == Print(e.val) + tail;
  }

  lemma PrintStart(v: Value)
    ensures Print(v) != [] && Print(v)[0] != RBRACKET
  {
    match v
    case Num(n) => assert Decimal(n)[0] in Decimal(n);
    case _ =>
  }

  lemma {:induction false} ReadValueOfPrint(v: Value, rest: Text)
    requires Serializable(v) && Stops(rest)
    ensures ReadValue(Print(v) + rest) == Got(v, rest)
    decreases v, 1
  {
    match v
    case Null => ReadWordStep(NULL_WORD, Null, rest);
    case Bool(b) => ReadWordStep(Print(v), v, rest);
    case Num(n) => ReadNumStep(n, rest);
    case Str(t) => ReadStrStep(t, rest);
    case Arr(items) => ReadArrOfPrint(items, rest);
    case Obj(es) => ReadObjOfPrint(es, rest);
  }

  lemma {:induction false} ReadArrOfPrint(items: seq<Value>, rest: Text)
    requires forall i :: 0 <= i < |items| ==> Serializable(items[i])
    ensures ReadValue([LBRACKET] + Join(PrintItems(items)) + [RBRACKET] + rest) == Got(Arr(items), rest)
    decreases items, 1
  {
    var body := Join(PrintItems(items)) + [RBRACKET] + rest;
    assert [LBRACKET] + Join(PrintItems(items)) + [RBRACKET] + rest == [LBRACKET] + body;
    if items == [] {
      assert body == [RBRACKET] + rest;
      assert ([LBRACKET] + body)[2..] == rest;
    } else {
      ReadItemsOfPrint(items, rest);
      PrintStart(items[0]);
      ReadArrStep(body, items, rest);
    }
  }

  lemma {:induction false} ReadObjOfPrint(es: seq<Entry>, rest: Text)
    requires forall i :: 0 <= i < |es| ==> Serializable(es[i].val)
    ensures ReadValue([LBRACE] + Join(PrintFields(es)) + [RBRACE] + rest) == Got(Obj(es), rest)
    decreases es, 1
  {
    var body := Join(PrintFields(es)) + [RBRACE] + rest;
    assert [LBRACE] + Join(PrintFields(es)) + [RBRACE] + rest == [LBRACE] + body;
    if es == [] {
      assert body == [RBRACE] + rest;
      assert ([LBRACE] + body)[2..] == rest;
    } else {
      ReadFieldsOfPrint(es, rest);
      assert body[0] == QUOTE;
      ReadObjStep(body, es, rest);
    }
  }

  lemma JoinOfMany(parts: seq<Text>, end: Text)
    requires |parts| > 1
    ensures Join(parts) + end == parts[0] + ([COMMA] + (Join(parts[1..]) + end))
  {
  }

  lemma JoinOfItems(items: seq<Value>, end: Text)
    requires items != []
    ensures Join(PrintItems(items)) + end ==
            if |items| == 1 then Print(items[0]) + end
            else Print(items[0]) + ([COMMA] + (Join(PrintItems(items[1..])) + end))
  {
    var parts := PrintItems(items);
    assert parts[0] == Print(items[0]) && parts[1..] == PrintItems(items[1..]);
    if |items| > 1 {
      JoinOfMany(parts, end);
    }
  }

  lemma JoinOfFields(es: seq<Entry>, end: Text)
    requires es != []
    ensures var first := Quoted(es[0].key) + [COLON] + Print(es[0].val);
            Join(PrintFields(es)) + end ==
            if |es| == 1 then first + end else first + ([COMMA] + (Join(PrintFields(es[1..])) + end))
  {
    var parts := PrintFields(es);
    assert parts[0] == Quoted(es[0].key) + [COLON] + Print(es[0].val) && parts[1..] == PrintFields(es[1..]);
    if |es| > 1 {
      JoinOfMany(parts, end);
    }
  }

  lemma {:induction false} ReadItemsOfPrint(items: seq<Value>, rest: Text)
    requires items != [] && forall i :: 0 <= i < |items| ==> Serializable(items[i])
    ensures ReadItems(Join(PrintItems(items)) + [RBRACKET] + rest) == Got(items, rest)
    decreases items, 0
  {
    var s := Join(PrintItems(items)) + [RBRACKET] + rest;
    JoinOfItems(items, [RBRACKET] + rest);
    assert s == Join(PrintItems(items)) + ([RBRACKET] + rest);
    if |items| == 1 {
      ReadValueOfPrint(items[0], [RBRACKET] + rest);
      ReadLastItem(s, items[0], rest);
      assert items == [items[0]];
    } else {
      var more := Join(PrintItems(items[1..])) + [RBRACKET] + rest;
      assert more == Join(PrintItems(items[1..])) + ([RBRACKET] + rest);
      ReadValueOfPrint(items[0], [COMMA] + more);
      ReadItemsOfPrint(items[1..], rest);
      ReadItemThenMore(s, items[0], more, items[1..], rest);
      assert items == [items[0]] + items[1..];
    }
  }

  lemma {:induction false} ReadFieldsOfPrint(es: seq<Entry>, rest: Text)
    requires es != [] && forall i :: 0 <= i < |es| ==> Serializable(es[i].val)
    ensures ReadFields(Join(PrintFields(es)) + [RBRACE] + rest) == Got(es, rest)
    decreases es, 0
  {
    var s := Join(PrintFields(es)) + [RBRACE] + rest;
    JoinOfFields(es, [RBRACE] + rest);
    assert s == Join(PrintFields(es)) + ([RBRACE] + rest);
    if |es| == 1 {
      var end := [RBRACE] + rest;
      ReadValueOfPrint(es[0].val, end);
      ReadFieldStep(es[0], end);
      ReadLastField(s, es[0], rest);
      assert es == [es[0]];
    } else {
      var more := Join(PrintFields(es[1..])) + [RBRACE] + rest;
      assert more == Join(PrintFields(es[1..])) + ([RBRACE] + rest);
      ReadValueOfPrint(es[0].val, [COMMA] + more);
      ReadFieldStep(es[0], [COMMA] + more);
      ReadFieldsOfPrint(es[1..], rest);
      ReadFieldThenMore(s, es[0], more, es[1..], rest);
      assert es == [es[0]] + es[1..];
    }
  }

  lemma ParseOfPrint(v: Value)
    requires Serializable(v)
    ensures Parse(Print(v)) == Some(v)
  {
    assert Print(v) + [] == Print(v);
    ReadValueOfPrint(v, []);
  }

  // ---- How strings are written ----

  /** `e` can stand for `u` in a JSON string, on its own. */
  predicate StandsFor(e: Text, u: CodeUnit) {
    e != [] && (e[0] == BACKSLASH || (e[0] >= 32 && e[0] != QUOTE)) && ReadUnit(e) == Got(u, [])
  }

  predicate IsLone(u: CodeUnit, paired: bool) {
    (IsHigh(u) || IsLow(u)) && !paired
  }

  /**
   Each unit is written in the shortest form that can stand for it, and in lower-case hexadecimal where
   that takes digits; a surrogate without a partner always takes digits.
   */
  lemma EscapesAreShortest(u: CodeUnit, paired: bool, e: Text)
    requires StandsFor(e, u)
    ensures StandsFor(EscapeUnit(u, paired), u)
    ensures if IsLone(u, paired) then |EscapeUnit(u, paired)| == 6 else |EscapeUnit(u, paired)| <= |e|
    ensures |EscapeUnit(u, paired)| == 6 ==>
            forall i :: 2 <= i < 6 ==> EscapeUnit(u, paired)[i] <= '9' as int || EscapeUnit(u, paired)[i] >= 'a' as int
  {
    EscapeStands(u, paired);
  }

  lemma EscapeStands(u: CodeUnit, paired: bool)
    ensures StandsFor(EscapeUnit(u, paired), u)
  {
    ReadUnitOfEscape(u, paired, []);
    assert EscapeUnit(u, paired) + [] == EscapeUnit(u, paired);
  }

  /** A text with nothing to escape is written as it is. */
  predicate IsPlain(s: Text) {
    forall i :: 0 <= i < |s| ==>
      s[i] >= 32 && s[i] != QUOTE && s[i] != BACKSLASH && (IsHigh(s[i]) || IsLow(s[i]) ==> Paired(s, i))
  }

  lemma {:induction false} PlainFrom(s: Text, i: nat)
    requires i <= |s| && IsPlain(s)
    ensures Escaped(s, i) == s[i..]
    decreases |s| - i
  {
    if i < |s| {
      PlainFrom(s, i + 1);
      assert s[i..] == [s[i]] + s[i + 1..];
    }
  }

  lemma PlainIsVerbatim(s: Text)
    requires IsPlain(s)
    ensures Print(Str(s)) == [QUOTE] + s + [QUOTE]
  {
    PlainFrom(s, 0);
  }

  // ---- The printed text holds no control character ----

  predicate NoControl(s: Text) {
    forall u :: u in s ==> u >= 32
  }

  lemma {:induction false} EscapedNoControl(s: Text, i: nat)
    requires i <= |s|
    ensures NoControl(Escaped(s, i))
    decreases |s| - i
  {
    if i < |s| {
      EscapedNoControl(s, i + 1);
    }
  }

  lemma {:induction false} JoinNoControl(parts: seq<Text>)
    requires forall i :: 0 <= i < |parts| ==> NoControl(parts[i])
    ensures NoControl(Join(parts))
  {
    if |parts| > 1 {
      JoinNoControl(parts[1..]);
    }
  }

  lemma {:induction false} PrintNoControl(v: Value)
    ensures NoControl(Print(v))
    decreases v, 1
  {
    match v
    case Str(s) => EscapedNoControl(s, 0);
    case Arr(items) =>
      PrintItemsNoControl(items);
      JoinNoControl(PrintItems(items));
    case Obj(es) =>
      PrintFieldsNoControl(es);
      JoinNoControl(PrintFields(es));
    case _ =>
  }

  lemma {:induction false} PrintItemsNoControl(items: seq<Value>)
    ensures forall i :: 0 <= i < |items| ==> NoControl(PrintItems(items)[i])
    decreases items, 0
  {
    if items != [] {
      PrintNoControl(items[0]);
      PrintItemsNoControl(items[1..]);
    }
  }

  lemma {:induction false} PrintFieldsNoControl(es: seq<Entry>)
    ensures forall i :: 0 <= i < |es| ==> NoControl(PrintFields(es)[i])
    decreases es, 0
  {
    if es != [] {
      PrintNoControl(es[0].val);
      EscapedNoControl(es[0].key, 0);
      PrintFieldsNoControl(es[1..]);
    }
  }
}
