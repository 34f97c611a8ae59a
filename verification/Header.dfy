/** The `Authorization` header of a signed message: its printer and its scanning parser. */
module Headers {
  import opened FieldNames
  import opened Texts

  datatype ParsedHeader = ParsedHeader(
    keyId: Text, created: int, expires: int, nonce: Text, signature: Text)

  const EQUALS: CodeUnit := 61
  const SPACE: CodeUnit := 32
  const KEY_ID: Text := [107, 101, 121, 73, 100]                                // keyId
  const ALGORITHM: Text := [97, 108, 103, 111, 114, 105, 116, 104, 109]         // algorithm
  const CREATED: Text := [99, 114, 101, 97, 116, 101, 100]                      // created
  const EXPIRES: Text := [101, 120, 112, 105, 114, 101, 115]                    // expires
  const SCHEME: Text := [83, 105, 103, 110, 97, 116, 117, 114, 101]             // Signature

  // ---- Printing ----

  /** `name="value"`. */
  function Pair(name: Text, value: Text): Text {
    name + [EQUALS, QUOTE] + value + [QUOTE]
  }

  function Pairs(h: ParsedHeader): seq<(Text, Text)> {
    [(KEY_ID, h.keyId), (ALGORITHM, ED25519), (CREATED, Decimal(h.created)),
     (EXPIRES, Decimal(h.expires)), (NONCE, h.nonce), (SIGNATURE, h.signature)]
  }

  /** `name="value",name="value",...`. */
  function PrintPairs(ps: seq<(Text, Text)>): Text {
    if ps == [] then []
    else if |ps| == 1 then Pair(ps[0].0, ps[0].1)
    else Pair(ps[0].0, ps[0].1) + [COMMA] + PrintPairs(ps[1..])
  }

  function PrintHeader(h: ParsedHeader): Text {
    SCHEME + [SPACE] + PrintPairs(Pairs(h))
  }

  // ---- The regular expressions ----

  /** `\w` */
  predicate IsWord(u: CodeUnit) {
    IsDigit(u) || 65 <= u <= 90 || u == 95 || 97 <= u <= 122
  }

  /** `\s` */
  predicate IsSpace(u: CodeUnit) {
    || 9 <= u <= 13 || u == 32 || u == 0xA0 || u == 0x1680 || 0x2000 <= u <= 0x200A
    || u == 0x2028 || u == 0x2029 || u == 0x202F || u == 0x205F || u == 0x3000 || u == 0xFEFF
  }

  function LowerAscii(u: CodeUnit): CodeUnit {
    if 65 <= u <= 90 then u + 32 else u
  }

  /** `/^Signature\s/i` */
  predicate HasScheme(header: Text) {
    && |header| > |SIGNATURE|
    && (forall i :: 0 <= i < |SIGNATURE| ==> LowerAscii(header[i]) == SIGNATURE[i])
    && IsSpace(header[|SIGNATURE|])
  }

  /** How far `s` goes on with word characters. */
  function WordLength(s: Text): (n: nat)
    ensures n <= |s|
  {
    if s != [] && IsWord(s[0]) then 1 + WordLength(s[1..]) else 0
  }

  /** The index of the first `u` in `s`, or `|s|`. */
  function FirstIndex(u: CodeUnit, s: Text): (n: nat)
    ensures n <= |s| && Without(u, s[..n])
    ensures n < |s| ==> s[n] == u
  {
    if s == [] || s[0] == u then 0
    else
      var n := FirstIndex(u, s[1..]);
      assert s[..n + 1] == [s[0]] + s[1..][..n];
      n + 1
  }

  datatype Match = NoMatch | Match(name: Text, value: Text, rest: Text)

  /** `(\w+)="([^"]*)"` matched at the start of `s`. */
  function MatchHere(s: Text): (m: Match)
    ensures m.Match? ==> |m.rest| < |s| && Without(QUOTE, m.value)
  {
    var w := WordLength(s);
    if w == 0 || w + 1 >= |s| || s[w] != EQUALS || s[w + 1] != QUOTE then NoMatch
    else
      var after := s[w + 2..];
      var q := FirstIndex(QUOTE, after);
      if q == |after| then NoMatch else Match(s[..w], after[..q], after[q + 1..])
  }

  /** `matchAll`: leftmost matches, each search resuming after the previous match. */
  function AllMatches(s: Text): seq<(Text, Text)>
    decreases |s|
  {
    if s == [] then []
    else match MatchHere(s)
      case NoMatch => AllMatches(s[1..])
      case Match(name, value, rest) => [(name, value)] + AllMatches(rest)
  }

  /** Later pairs overwrite earlier ones of the same name. */
  function Collect(params: map<Text, Text>, pairs: seq<(Text, Text)>): map<Text, Text>
    decreases |pairs|
  {
    if pairs == [] then params else Collect(params[pairs[0].0 := pairs[0].1], pairs[1..])
  }

  /** `header.slice(header.indexOf(' ') + 1)`; without a space the whole header is kept. */
  function AfterSpace(header: Text): Text {
    var n := FirstIndex(SPACE, header);
    if n == |header| then header else header[n + 1..]
  }

  /** A parameter that is present and not the empty string. */
  predicate Given(params: map<Text, Text>, name: Text) {
    name in params && params[name] != []
  }

  function FromParams(params: map<Text, Text>, readNumber: Text -> Option<int>): Option<ParsedHeader> {
    if !(Given(params, KEY_ID) && Given(params, CREATED) && Given(params, EXPIRES)
         && Given(params, NONCE) && Given(params, SIGNATURE)) then None
    else if Given(params, ALGORITHM) && params[ALGORITHM] != ED25519 then None
    else match (readNumber(params[CREATED]), readNumber(params[EXPIRES]))
      case (Some(created), Some(expires)) =>
        Some(ParsedHeader(params[KEY_ID], created, expires, params[NONCE], params[SIGNATURE]))
      case _ => None
  }

  /**
   The specification of `parseHeader`. `readNumber` stands for `Number(text)` followed by the
   finiteness test.
   */
  function Parsed(header: Text, readNumber: Text -> Option<int>): Option<ParsedHeader> {
    if !HasScheme(header) then None
    else FromParams(Collect(map[], AllMatches(AfterSpace(header))), readNumber)
  }

  method ParseHeader(header: Text, readNumber: Text -> Option<int>) returns (r: Option<ParsedHeader>)
    ensures r == Parsed(header, readNumber)
  {
    if !HasScheme(header) {
      return None;
    }
    var params: map<Text, Text> := map[];
    var text := AfterSpace(header);
    while text != []
      invariant Collect(params, AllMatches(text)) == Collect(map[], AllMatches(AfterSpace(header)))
      decreases |text|
    {
      var m := MatchHere(text);
      if m.Match? {
        params := params[m.name := m.value];
        text := m.rest;
      } else {
        text := text[1..];
      }
    }
    r := FromParams(params, readNumber);
  }

  // ---- The parser undoes the printer ----

  predicate Quotable(s: Text) {
    s != [] && Without(QUOTE, s)
  }

  /** `Number` reads back what `String` printed for an integer. */
  ghost predicate ReadsDecimals(readNumber: Text -> Option<int>) {
    forall n: int :: readNumber(Decimal(n)) == Some(n)
  }

  predicate AllWord(s: Text) {
    forall u :: u in s ==> IsWord(u)
  }

  lemma {:induction false} WordLengthOfName(name: Text, u: CodeUnit, rest: Text)
    requires AllWord(name) && !IsWord(u)
    ensures WordLength(name + [u] + rest) == |name|
  {
    var s := name + [u] + rest;
    if name != [] {
      WordLengthOfName(name[1..], u, rest);
      assert s[1..] == name[1..] + [u] + rest;
      assert name[0] in name;
    }
  }

  lemma {:induction false} FirstIndexOf(u: CodeUnit, a: Text, rest: Text)
    requires Without(u, a)
    ensures FirstIndex(u, a + [u] + rest) == |a|
  {
    var s := a + [u] + rest;
    if a != [] {
      FirstIndexOf(u, a[1..], rest);
      assert s[1..] == a[1..] + [u] + rest;
      assert a[0] in a;
    }
  }

  /** `name="value"` at the start of a text is matched whole. */
  lemma MatchPair(name: Text, value: Text, rest: Text)
    requires name != [] && AllWord(name) && Without(QUOTE, value)
    ensures MatchHere(Pair(name, value) + rest) == Match(name, value, rest)
  {
    var after := value + [QUOTE] + rest;
    var s := Pair(name, value) + rest;
    assert s == name + [EQUALS] + ([QUOTE] + after);
    WordLengthOfName(name, EQUALS, [QUOTE] + after);
    FirstIndexOf(QUOTE, value, rest);
    MatchAfterName(s, name, after);
    assert after[..|value|] == value && after[|value| + 1..] == rest;
  }

  lemma MatchAt(s: Text, w: nat, name: Text, after: Text)
    requires 0 < w == WordLength(s) && w + 1 < |s| && s[w] == EQUALS && s[w + 1] == QUOTE
    requires s[..w] == name && s[w + 2..] == after && FirstIndex(QUOTE, after) < |after|
    ensures var q := FirstIndex(QUOTE, after); MatchHere(s) == Match(name, after[..q], after[q + 1..])
  {
  }

  lemma MatchAfterName(s: Text, name: Text, after: Text)
    requires name != [] && WordLength(s) == |name| && s == name + [EQUALS] + ([QUOTE] + after)
    requires FirstIndex(QUOTE, after) < |after|
    ensures var q := FirstIndex(QUOTE, after);
            MatchHere(s) == Match(name, after[..q], after[q + 1..])
  {
    SplitPair(s, name, after);
    MatchAt(s, |name|, name, after);
  }

  lemma SplitPair(s: Text, name: Text, after: Text)
    requires s == name + [EQUALS] + ([QUOTE] + after)
    ensures var n := |name|;
            n + 2 <= |s| && s[..n] == name && s[n] == EQUALS && s[n + 1] == QUOTE && s[n + 2..] == after
  {
  }

  lemma SkipComma(rest: Text)
    ensures AllMatches([COMMA] + rest) == AllMatches(rest)
  {
    assert ([COMMA] + rest)[1..] == rest;
    assert MatchHere([COMMA] + rest) == NoMatch;
  }

  lemma ScanStep(s: Text, name: Text, value: Text, rest: Text)
    requires MatchHere(s) == Match(name, value, rest)
    ensures AllMatches(s) == [(name, value)] + AllMatches(rest)
  {
  }

  lemma ScanFirst(p: (Text, Text), rest: Text)
    requires p.0 != [] && AllWord(p.0) && Without(QUOTE, p.1)
    ensures AllMatches(Pair(p.0, p.1) + rest) == [p] + AllMatches(rest)
  {
    MatchPair(p.0, p.1, rest);
    ScanStep(Pair(p.0, p.1) + rest, p.0, p.1, rest);
  }

  lemma PrintPairsCons(ps: seq<(Text, Text)>)
    requires |ps| > 1
    ensures PrintPairs(ps) == Pair(ps[0].0, ps[0].1) + ([COMMA] + PrintPairs(ps[1..]))
  {
  }

  /** Scanning a printed parameter list finds its pairs, in order. */
  lemma {:induction false} ScanUndoesPrint(ps: seq<(Text, Text)>)
    requires forall i :: 0 <= i < |ps| ==> ps[i].0 != [] && AllWord(ps[i].0) && Without(QUOTE, ps[i].1)
    ensures AllMatches(PrintPairs(ps)) == ps
  {
    if |ps| == 1 {
      ScanFirst(ps[0], []);
      assert Pair(ps[0].0, ps[0].1) + [] == PrintPairs(ps);
    } else if |ps| > 1 {
      PrintPairsCons(ps);
      ScanFirst(ps[0], [COMMA] + PrintPairs(ps[1..]));
      SkipComma(PrintPairs(ps[1..]));
      ScanUndoesPrint(ps[1..]);
      assert ps == [ps[0]] + ps[1..];
    }
  }

  lemma AfterSpaceOfHeader(h: ParsedHeader)
    ensures HasScheme(PrintHeader(h)) && AfterSpace(PrintHeader(h)) == PrintPairs(Pairs(h))
  {
    FirstIndexOf(SPACE, SCHEME, PrintPairs(Pairs(h)));
    assert PrintHeader(h)[|SCHEME| + 1..] == PrintPairs(Pairs(h));
  }

  lemma {:induction false} CollectLooksUp(params: map<Text, Text>, pairs: seq<(Text, Text)>)
    requires forall i, j :: 0 <= i < j < |pairs| ==> pairs[i].0 != pairs[j].0
    ensures forall i :: 0 <= i < |pairs| ==>
              pairs[i].0 in Collect(params, pairs) && Collect(params, pairs)[pairs[i].0] == pairs[i].1
    ensures forall k :: k in params && (forall i :: 0 <= i < |pairs| ==> pairs[i].0 != k) ==>
              k in Collect(params, pairs) && Collect(params, pairs)[k] == params[k]
    decreases |pairs|
  {
    if pairs != [] {
      CollectLooksUp(params[pairs[0].0 := pairs[0].1], pairs[1..]);
      assert pairs == [pairs[0]] + pairs[1..];
    }
  }

  lemma NamesAreDistinctWords(h: ParsedHeader)
    ensures forall i :: 0 <= i < 6 ==> Pairs(h)[i].0 != [] && AllWord(Pairs(h)[i].0)
    ensures forall i, j :: 0 <= i < j < 6 ==> Pairs(h)[i].0 != Pairs(h)[j].0
  {
    assert KEY_ID[0] != NONCE[0] && ALGORITHM[0] != SIGNATURE[0] && CREATED[0] != EXPIRES[0];
  }

  lemma ParseUndoesPrintWhenQuotable(h: ParsedHeader, readNumber: Text -> Option<int>)
    requires readNumber(Decimal(h.created)) == Some(h.created)
    requires readNumber(Decimal(h.expires)) == Some(h.expires)
    requires Quotable(h.keyId) && Quotable(h.nonce) && Quotable(h.signature)
    ensures Parsed(PrintHeader(h), readNumber) == Some(h)
  {
    var ps := Pairs(h);
    AfterSpaceOfHeader(h);
    NamesAreDistinctWords(h);
    forall i | 0 <= i < |ps| ensures Without(QUOTE, ps[i].1) {
      assert QUOTE !in ED25519 && QUOTE !in Decimal(h.created) && QUOTE !in Decimal(h.expires);
    }
    ScanUndoesPrint(ps);
    CollectLooksUp(map[], ps);
    var params := Collect(map[], ps);
    assert ps[0].0 in params && ps[1].0 in params && ps[2].0 in params;
    assert ps[3].0 in params && ps[4].0 in params && ps[5].0 in params;
  }

  lemma {:induction false} MatchedValuesAreQuoteFree(s: Text)
    ensures forall p :: p in AllMatches(s) ==> Without(QUOTE, p.1)
    decreases |s|
  {
    if s != [] {
      match MatchHere(s)
      case NoMatch => MatchedValuesAreQuoteFree(s[1..]);
      case Match(name, value, rest) => MatchedValuesAreQuoteFree(rest);
    }
  }

  lemma {:induction false} CollectKeepsQuoteFree(params: map<Text, Text>, pairs: seq<(Text, Text)>)
    requires forall k :: k in params ==> Without(QUOTE, params[k])
    requires forall p :: p in pairs ==> Without(QUOTE, p.1)
    ensures forall k :: k in Collect(params, pairs) ==> Without(QUOTE, Collect(params, pairs)[k])
    decreases |pairs|
  {
    if pairs != [] {
      assert pairs[0] in pairs;
      CollectKeepsQuoteFree(params[pairs[0].0 := pairs[0].1], pairs[1..]);
    }
  }

  /** Whatever the header, the fields the parser returns are nonempty and free of quotes. */
  lemma ParsedIsQuotable(header: Text, readNumber: Text -> Option<int>)
    ensures match Parsed(header, readNumber)
            case Some(h) => Quotable(h.keyId) && Quotable(h.nonce) && Quotable(h.signature)
            case None => true
  {
    MatchedValuesAreQuoteFree(AfterSpace(header));
    CollectKeepsQuoteFree(map[], AllMatches(AfterSpace(header)));
  }

  /** The parser returns what was printed exactly when the free texts are nonempty and quote-free. */
  lemma ParseUndoesPrint(h: ParsedHeader, readNumber: Text -> Option<int>)
    requires ReadsDecimals(readNumber)
    ensures Parsed(PrintHeader(h), readNumber) == Some(h) <==>
            Quotable(h.keyId) && Quotable(h.nonce) && Quotable(h.signature)
  {
    if Quotable(h.keyId) && Quotable(h.nonce) && Quotable(h.signature) {
      ParseUndoesPrintWhenQuotable(h, readNumber);
    }
    if Parsed(PrintHeader(h), readNumber) == Some(h) {
      ParsedIsQuotable(PrintHeader(h), readNumber);
    }
  }

  // ---- What any header is read as ----

  const SCHEME_LOWER: Text := [115, 105, 103, 110, 97, 116, 117, 114, 101]
  const SCHEME_UPPER: Text := [83, 73, 71, 78, 65, 84, 85, 82, 69]

  /** The white space of ECMAScript. */
  const SPACES: set<CodeUnit> := {
    9, 10, 11, 12, 13, 32, 0xA0, 0x1680, 0x2000, 0x2001, 0x2002, 0x2003, 0x2004, 0x2005, 0x2006, 0x2007, 0x2008,
    0x2009, 0x200A, 0x2028, 0x2029, 0x202F, 0x205F, 0x3000, 0xFEFF}

  /** The header starts with the scheme's name, in any letters, and white space. */
  predicate NamesScheme(header: Text) {
    && |header| > 9
    && (forall i :: 0 <= i < 9 ==> header[i] == SCHEME_LOWER[i] || header[i] == SCHEME_UPPER[i])
    && header[9] in SPACES
  }

  lemma SchemeExactly(header: Text)
    ensures HasScheme(header) <==> NamesScheme(header)
  {
    assert |SIGNATURE| == 9 && |SCHEME_LOWER| == 9 && |SCHEME_UPPER| == 9;
    if |header| > 9 {
      forall i | 0 <= i < 9
        ensures LowerAscii(header[i]) == SIGNATURE[i] <==> header[i] == SCHEME_LOWER[i] || header[i] == SCHEME_UPPER[i]
      {
      }
    }
  }

  /** The last pair named `name` has this value. */
  ghost predicate IsLast(ps: seq<(Text, Text)>, name: Text, value: Text) {
    exists i :: 0 <= i < |ps| && ps[i] == (name, value) && forall j :: i < j < |ps| ==> ps[j].0 != name
  }

  ghost predicate Holds(params: map<Text, Text>, name: Text, value: Text) {
    name in params && params[name] == value
  }

  predicate NotNamed(ps: seq<(Text, Text)>, name: Text) {
    forall i :: 0 <= i < |ps| ==> ps[i].0 != name
  }

  lemma LastOfMore(p: (Text, Text), ps: seq<(Text, Text)>, name: Text, value: Text)
    ensures IsLast([p] + ps, name, value) <==> IsLast(ps, name, value) || (NotNamed(ps, name) && p == (name, value))
    ensures NotNamed([p] + ps, name) <==> NotNamed(ps, name) && p.0 != name
  {
    var all := [p] + ps;
    if IsLast(all, name, value) {
      var i :| 0 <= i < |all| && all[i] == (name, value) && forall j :: i < j < |all| ==> all[j].0 != name;
      forall j | 0 <= j < |ps| && j >= i ensures ps[j].0 != name {
        assert all[j + 1] == ps[j];
      }
      if i > 0 {
        assert ps[i - 1] == (name, value);
      }
    }
    if IsLast(ps, name, value) {
      var i :| 0 <= i < |ps| && ps[i] == (name, value) && forall j :: i < j < |ps| ==> ps[j].0 != name;
      assert all[i + 1] == (name, value);
    }
    if NotNamed(ps, name) && p == (name, value) {
      assert all[0] == (name, value);
    }
    if NotNamed(all, name) {
      assert forall j :: 0 <= j < |ps| ==> all[j + 1] == ps[j];
      assert all[0] == p;
    }
  }

  lemma {:induction false} CollectsLast(params: map<Text, Text>, ps: seq<(Text, Text)>, name: Text, value: Text)
    ensures Holds(Collect(params, ps), name, value) <==>
            IsLast(ps, name, value) || (NotNamed(ps, name) && Holds(params, name, value))
    decreases |ps|
  {
    if ps != [] {
      CollectsLast(params[ps[0].0 := ps[0].1], ps[1..], name, value);
      LastOfMore(ps[0], ps[1..], name, value);
      assert ps == [ps[0]] + ps[1..];
    }
  }

  /** The parameters, by their last pairs, are those of `h`, and no other algorithm is named. */
  ghost predicate NamesFields(ps: seq<(Text, Text)>, readNumber: Text -> Option<int>, h: ParsedHeader) {
    && IsLast(ps, KEY_ID, h.keyId) && IsLast(ps, NONCE, h.nonce) && IsLast(ps, SIGNATURE, h.signature)
    && h.keyId != [] && h.nonce != [] && h.signature != []
    && (exists c :: IsLast(ps, CREATED, c) && c != [] && readNumber(c) == Some(h.created))
    && (exists e :: IsLast(ps, EXPIRES, e) && e != [] && readNumber(e) == Some(h.expires))
    && forall a :: IsLast(ps, ALGORITHM, a) ==> a == [] || a == ED25519
  }

  lemma CollectedExactly(ps: seq<(Text, Text)>, readNumber: Text -> Option<int>, h: ParsedHeader)
    ensures FromParams(Collect(map[], ps), readNumber) == Some(h) <==> NamesFields(ps, readNumber, h)
  {
    var params := Collect(map[], ps);
    forall name, value ensures Holds(params, name, value) <==> IsLast(ps, name, value) {
      CollectsLast(map[], ps, name, value);
    }
    FieldsExactly(params, ps, readNumber, h);
  }

  lemma FieldsExactly(params: map<Text, Text>, ps: seq<(Text, Text)>, readNumber: Text -> Option<int>, h: ParsedHeader)
    requires forall name, value :: Holds(params, name, value) <==> IsLast(ps, name, value)
    ensures FromParams(params, readNumber) == Some(h) <==> NamesFields(ps, readNumber, h)
  {
    if FromParams(params, readNumber) == Some(h) {
      assert Holds(params, KEY_ID, h.keyId) && Holds(params, NONCE, h.nonce) && Holds(params, SIGNATURE, h.signature);
      assert Holds(params, CREATED, params[CREATED]) && Holds(params, EXPIRES, params[EXPIRES]);
      forall a | IsLast(ps, ALGORITHM, a) ensures a == [] || a == ED25519 {
        assert Holds(params, ALGORITHM, a);
      }
    }
    if NamesFields(ps, readNumber, h) {
      var c :| IsLast(ps, CREATED, c) && c != [] && readNumber(c) == Some(h.created);
      var e :| IsLast(ps, EXPIRES, e) && e != [] && readNumber(e) == Some(h.expires);
      assert Holds(params, CREATED, c) && Holds(params, EXPIRES, e);
      assert Holds(params, KEY_ID, h.keyId) && Holds(params, NONCE, h.nonce) && Holds(params, SIGNATURE, h.signature);
      if ALGORITHM in params {
        assert Holds(params, ALGORITHM, params[ALGORITHM]);
      }
    }
  }

  /** What follows the first space, or all of a header without one. */
  ghost predicate FollowsSpace(header: Text, rest: Text) {
    || (Without(SPACE, header) && rest == header)
    || exists before: Text :: Without(SPACE, before) && header == before + [SPACE] + rest
  }

  lemma RestIsAfterSpace(header: Text, rest: Text)
    requires FollowsSpace(header, rest)
    ensures rest == AfterSpace(header)
  {
    if Without(SPACE, header) && rest == header {
    } else {
      var before: Text :| Without(SPACE, before) && header == before + [SPACE] + rest;
      FirstIndexOf(SPACE, before, rest);
    }
  }

  /**
   What the parser reads of any header: the fields of the last pairs of their names, all of them there
   and not empty, under the scheme's name and no algorithm but Ed25519.
   */
  lemma ParsedExactly(header: Text, rest: Text, readNumber: Text -> Option<int>, h: ParsedHeader)
    requires FollowsSpace(header, rest)
    ensures Parsed(header, readNumber) == Some(h) <==>
            NamesScheme(header) && NamesFields(AllMatches(rest), readNumber, h)
  {
    RestIsAfterSpace(header, rest);
    SchemeExactly(header);
    CollectedExactly(AllMatches(rest), readNumber, h);
  }

  /** A header that names another algorithm is refused. */
  lemma OtherAlgorithmIsRefused(header: Text, rest: Text, readNumber: Text -> Option<int>, algorithm: Text)
    requires FollowsSpace(header, rest)
    requires IsLast(AllMatches(rest), ALGORITHM, algorithm) && algorithm != [] && algorithm != ED25519
    ensures Parsed(header, readNumber) == None
  {
    if Parsed(header, readNumber).Some? {
      ParsedExactly(header, rest, readNumber, Parsed(header, readNumber).value);
    }
  }

  /** Word characters are the letters and digits of ASCII and the underscore. */
  lemma WordUnits(u: CodeUnit)
    ensures IsWord(u) <==>
            || ('0' as int <= u <= '9' as int) || ('A' as int <= u <= 'Z' as int)
            || ('a' as int <= u <= 'z' as int) || u == '_' as int
  {
  }

  /** `p` is a `name="value"` of the text, with `before` before it and `after` after it. */
  predicate OccursIn(s: Text, before: Text, p: (Text, Text), after: Text) {
    s == before + Pair(p.0, p.1) + after && p.0 != [] && AllWord(p.0) && Without(QUOTE, p.1)
  }

  lemma OccursLater(head: Text, rest: Text, before: Text, p: (Text, Text), after: Text)
    requires OccursIn(rest, before, p, after)
    ensures OccursIn(head + rest, head + before, p, after)
  {
    var x := Pair(p.0, p.1);
    assert head + (before + x + after) == head + before + x + after;
  }

  lemma NothingBefore(x: Text, rest: Text)
    ensures [] + x + rest == x + rest
  {
  }

  lemma HeadOrTail<T>(p: T, head: T, tail: seq<T>)
    requires p in [head] + tail
    ensures p == head || p in tail
  {
  }

  lemma MatchedNow(s: Text, p: (Text, Text), name: Text, value: Text, rest: Text)
    requires p in AllMatches(s) && MatchHere(s) == Match(name, value, rest)
    ensures p == (name, value) || p in AllMatches(rest)
  {
    ScanStep(s, name, value, rest);
    HeadOrTail(p, (name, value), AllMatches(rest));
  }

  lemma MatchedLater(s: Text, p: (Text, Text))
    requires p in AllMatches(s) && MatchHere(s) == NoMatch
    ensures s != [] && s == [s[0]] + s[1..] && p in AllMatches(s[1..])
  {
  }

  /** Each match is a `name="value"` of the text. */
  lemma {:induction false} MatchesOccur(s: Text, p: (Text, Text)) returns (before: Text, after: Text)
    requires p in AllMatches(s)
    ensures OccursIn(s, before, p, after)
    decreases |s|
  {
    match MatchHere(s)
    case NoMatch =>
      MatchedLater(s, p);
      before, after := MatchesOccur(s[1..], p);
      OccursLater([s[0]], s[1..], before, p, after);
      before := [s[0]] + before;
    case Match(name, value, rest) =>
      MatchedNow(s, p, name, value, rest);
      MatchIsThere(s);
      NothingBefore(Pair(name, value), rest);
      before, after := [], rest;
      if p != (name, value) {
        before, after := MatchesOccur(rest, p);
        OccursLater(Pair(name, value), rest, before, p, after);
        before := Pair(name, value) + before;
      }
  }

  lemma {:induction false} WordLengthIsWord(s: Text)
    ensures AllWord(s[..WordLength(s)])
  {
    if s != [] && IsWord(s[0]) {
      WordLengthIsWord(s[1..]);
      assert s[..WordLength(s)] == [s[0]] + s[1..][..WordLength(s[1..])];
    }
  }

  lemma MatchIsThere(s: Text)
    ensures var m := MatchHere(s); m.Match? ==> OccursIn(s, [], (m.name, m.value), m.rest)
  {
    var m := MatchHere(s);
    if m.Match? {
      var w := WordLength(s);
      var name, after := s[..w], s[w + 2..];
      var q := FirstIndex(QUOTE, after);
      WordLengthIsWord(s);
      assert m.name == name && m.value == after[..q] && m.rest == after[q + 1..];
      SplitAtQuotes(s, name, after, q);
    }
  }

  lemma SplitAtQuotes(s: Text, name: Text, after: Text, q: nat)
    requires |name| + 2 <= |s| && s[|name|] == EQUALS && s[|name| + 1] == QUOTE && q < |after| && after[q] == QUOTE
    requires name == s[..|name|] && after == s[|name| + 2..]
    ensures s == [] + Pair(name, after[..q]) + after[q + 1..]
  {
    assert after == after[..q] + [QUOTE] + after[q + 1..];
    assert s == name + [EQUALS, QUOTE] + after;
  }
}
