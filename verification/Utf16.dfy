/**
 Signing works on the UTF-8 encoding of a text, which tells two texts apart when their surrogates
 are paired. Canonical text always has them paired, whatever the strings of the tree hold.
 */
module Utf16 {
  import opened Texts
  import opened Json

  predicate IsSurrogate(u: CodeUnit) {
    IsHigh(u) || IsLow(u)
  }

  /** Every surrogate is half of a pair. */
  predicate WellPaired(t: Text) {
    forall i :: 0 <= i < |t| && IsSurrogate(t[i]) ==> Paired(t, i)
  }

  predicate NoSurrogates(t: Text) {
    forall i :: 0 <= i < |t| ==> !IsSurrogate(t[i])
  }

  lemma WellPairedConcat(a: Text, b: Text)
    requires WellPaired(a) && WellPaired(b)
    ensures WellPaired(a + b)
  {
    var t := a + b;
    forall i | 0 <= i < |t| && IsSurrogate(t[i]) ensures Paired(t, i) {
      if i < |a| {
        assert Paired(a, i);
      } else {
        assert Paired(b, i - |a|);
      }
    }
  }

  /** The high surrogate just before `i`, when the unit at `i` completes its pair. */
  function OpenPair(s: Text, i: nat): Text
    requires i <= |s|
  {
    if 0 < i < |s| && IsHigh(s[i - 1]) && IsLow(s[i]) then [s[i - 1]] else []
  }

  lemma EscapeIsPlain(u: CodeUnit, paired: bool)
    requires !(IsSurrogate(u) && paired)
    ensures NoSurrogates(EscapeUnit(u, paired))
  {
  }

  lemma {:induction false} EscapedIsWellPaired(s: Text, i: nat)
    requires i <= |s|
    ensures WellPaired(OpenPair(s, i) + Escaped(s, i))
    decreases |s| - i
  {
    if i < |s| {
      var unit, more := EscapeUnit(s[i], Paired(s, i)), Escaped(s, i + 1);
      EscapedIsWellPaired(s, i + 1);
      if IsLow(s[i]) && Paired(s, i) {
        assert OpenPair(s, i) + Escaped(s, i) == [s[i - 1], s[i]] + more;
        assert OpenPair(s, i + 1) + more == more;
        WellPairedConcat([s[i - 1], s[i]], more);
      } else if IsHigh(s[i]) && Paired(s, i) {
        assert OpenPair(s, i) + Escaped(s, i) == OpenPair(s, i + 1) + more;
      } else {
        EscapeIsPlain(s[i], Paired(s, i));
        assert OpenPair(s, i + 1) + more == more;
        assert OpenPair(s, i) + Escaped(s, i) == unit + more;
        WellPairedConcat(unit, more);
      }
    }
  }

  lemma QuotedIsWellPaired(s: Text)
    ensures WellPaired(Quoted(s))
  {
    EscapedIsWellPaired(s, 0);
    assert OpenPair(s, 0) + Escaped(s, 0) == Escaped(s, 0);
    WellPairedConcat([QUOTE], Escaped(s, 0));
    WellPairedConcat([QUOTE] + Escaped(s, 0), [QUOTE]);
  }

  lemma {:induction false} JoinIsWellPaired(parts: seq<Text>)
    requires forall i :: 0 <= i < |parts| ==> WellPaired(parts[i])
    ensures WellPaired(Join(parts))
  {
    if |parts| > 1 {
      JoinIsWellPaired(parts[1..]);
      WellPairedConcat(parts[0], [COMMA]);
      WellPairedConcat(parts[0] + [COMMA], Join(parts[1..]));
    }
  }

  lemma DecimalIsPlain(n: int)
    ensures NoSurrogates(Decimal(n))
  {
    forall i | 0 <= i < |Decimal(n)| ensures !IsSurrogate(Decimal(n)[i]) {
      assert Decimal(n)[i] in Decimal(n);
    }
  }

  lemma Bracketed(open: CodeUnit, body: Text, close: CodeUnit)
    requires !IsSurrogate(open) && !IsSurrogate(close) && WellPaired(body)
    ensures WellPaired([open] + body + [close])
  {
    WellPairedConcat([open], body);
    WellPairedConcat([open] + body, [close]);
  }

  lemma {:induction false} PrintIsWellPaired(v: Value)
    ensures WellPaired(Print(v))
    decreases v, 1
  {
    match v
    case Num(n) => DecimalIsPlain(n);
    case Str(s) => QuotedIsWellPaired(s);
    case Arr(items) =>
      PrintItemsAreWellPaired(items);
      JoinIsWellPaired(PrintItems(items));
      Bracketed(LBRACKET, Join(PrintItems(items)), RBRACKET);
    case Obj(es) =>
      PrintFieldsAreWellPaired(es);
      JoinIsWellPaired(PrintFields(es));
      Bracketed(LBRACE, Join(PrintFields(es)), RBRACE);
    case _ =>
  }

  lemma {:induction false} PrintItemsAreWellPaired(items: seq<Value>)
    ensures forall i :: 0 <= i < |items| ==> WellPaired(PrintItems(items)[i])
    decreases items, 0
  {
    if items != [] {
      PrintIsWellPaired(items[0]);
      PrintItemsAreWellPaired(items[1..]);
    }
  }

  lemma {:induction false} PrintFieldsAreWellPaired(es: seq<Entry>)
    ensures forall i :: 0 <= i < |es| ==> WellPaired(PrintFields(es)[i])
    decreases es, 0
  {
    if es != [] {
      PrintIsWellPaired(es[0].val);
      QuotedIsWellPaired(es[0].key);
      WellPairedConcat(Quoted(es[0].key), [COLON]);
      WellPairedConcat(Quoted(es[0].key) + [COLON], Print(es[0].val));
      PrintFieldsAreWellPaired(es[1..]);
    }
  }

  /** What is signed is well-formed UTF-16: encoding it loses nothing. */
  lemma CanonicalIsWellPaired(v: Value)
    ensures Canonical(v).Ok? ==> WellPaired(Canonical(v).value)
  {
    PrintIsWellPaired(Normal(v));
  }
}
