/** JavaScript strings: sequences of UTF-16 code units, their order, and decimal numerals. */
module Texts {
  type CodeUnit = u: int | 0 <= u < 0x1_0000
  type Text = seq<CodeUnit>

  datatype Option<+T> = None | Some(value: T)

  const NEWLINE: CodeUnit := 10
  const QUOTE: CodeUnit := 34
  const COMMA: CodeUnit := 44
  const MINUS: CodeUnit := 45
  const ZERO: CodeUnit := 48
  const COLON: CodeUnit := 58

  /** The code units of a text that is written out. */
  function Units(s: string): (t: Text)
    requires forall i :: 0 <= i < |s| ==> s[i] <= '~'
    ensures |t| == |s| && forall i :: 0 <= i < |s| ==> t[i] == s[i] as int
  {
    seq(|s|, i requires 0 <= i < |s| => s[i] as int)
  }

  /** The `<` operator on strings: lexicographic by code unit. */
  predicate Less(a: Text, b: Text) {
    if b == [] then false
    else if a == [] then true
    else if a[0] != b[0] then a[0] < b[0]
    else Less(a[1..], b[1..])
  }

  /** At the first place where `a` and `b` differ, `a` has the smaller code unit or has ended. */
  ghost predicate Precedes(a: Text, b: Text) {
    exists n: nat :: n <= |a| && n <= |b| && a[..n] == b[..n] && (n == |a| < |b| || (n < |a| && n < |b| && a[n] < b[n]))
  }

  lemma PrecedesAfterHead(a: Text, b: Text)
    requires a != [] && b != [] && a[0] == b[0]
    ensures Precedes(a, b) <==> Precedes(a[1..], b[1..])
  {
    if n: nat :| n <= |a| && n <= |b| && a[..n] == b[..n] && (n == |a| < |b| || (n < |a| && n < |b| && a[n] < b[n])) {
      assert n > 0;
      assert a[1..][..n - 1] == a[..n][1..] && b[1..][..n - 1] == b[..n][1..];
      assert Precedes(a[1..], b[1..]);
    }
    if Precedes(a[1..], b[1..]) {
      var c, d := a[1..], b[1..];
      var n: nat :| n <= |c| && n <= |d| && c[..n] == d[..n] && (n == |c| < |d| || (n < |c| && n < |d| && c[n] < d[n]));
      assert a[..n + 1] == [a[0]] + c[..n] && b[..n + 1] == [b[0]] + d[..n];
      assert Precedes(a, b);
    }
  }

  lemma PrecedesAtHead(a: Text, b: Text)
    requires a != [] && b != [] && a[0] != b[0]
    ensures Precedes(a, b) <==> a[0] < b[0]
  {
    assert a[..0] == b[..0];
    forall n: nat | 0 < n <= |a| && n <= |b| ensures a[..n] != b[..n] {
      assert a[..n][0] != b[..n][0];
    }
  }

  /** `Less` is the order by code units. */
  lemma {:induction false} LessIsUnitOrder(a: Text, b: Text)
    ensures Less(a, b) <==> Precedes(a, b)
  {
    if a == [] || b == [] {
      assert a == [] ==> a[..0] == b[..0];
    } else if a[0] == b[0] {
      LessIsUnitOrder(a[1..], b[1..]);
      PrecedesAfterHead(a, b);
    } else {
      PrecedesAtHead(a, b);
    }
  }

  lemma {:induction false} LessIsTotal(a: Text, b: Text)
    ensures a == b || Less(a, b) || Less(b, a)
  {
    if a != [] && b != [] && a[0] == b[0] {
      LessIsTotal(a[1..], b[1..]);
      assert a == [a[0]] + a[1..] && b == [b[0]] + b[1..];
    }
  }

  lemma {:induction false} LessIsTransitive(a: Text, b: Text, c: Text)
    requires Less(a, b) && Less(b, c)
    ensures Less(a, c)
  {
    if a != [] && a[0] == b[0] && b[0] == c[0] {
      LessIsTransitive(a[1..], b[1..], c[1..]);
    }
  }

  lemma {:induction false} LessIsIrreflexive(a: Text)
    ensures !Less(a, a)
  {
    if a != [] {
      LessIsIrreflexive(a[1..]);
    }
  }

  predicate IsDigit(u: CodeUnit) {
    ZERO <= u <= ZERO + 9
  }

  /** Decimal digits without leading zeros. */
  function Digits(n: nat): (s: Text)
    ensures s != [] && forall u :: u in s ==> IsDigit(u)
  {
    if n < 10 then [ZERO + n] else Digits(n / 10) + [ZERO + n % 10]
  }

  /** `String(n)` for an integer. */
  function Decimal(n: int): (s: Text)
    ensures s != [] && forall u :: u in s ==> IsDigit(u) || u == MINUS
  {
    if n < 0 then [MINUS] + Digits(-n) else Digits(n)
  }

  /** Reads leading digits onto `acc` and returns what follows them. */
  function ReadDigits(acc: int, s: Text): (r: (int, Text))
    ensures |r.1| <= |s|
    ensures s != [] && IsDigit(s[0]) ==> |r.1| < |s|
    decreases |s|
  {
    if s != [] && IsDigit(s[0]) then ReadDigits(10 * acc + (s[0] - ZERO), s[1..]) else (acc, s)
  }

  lemma {:induction false} ReadDigitsOfDigits(n: nat, rest: Text)
    ensures ReadDigits(0, Digits(n) + rest) == ReadDigits(n, rest)
  {
    if n < 10 {
      assert (Digits(n) + rest)[1..] == rest;
    } else {
      var last := [ZERO + n % 10];
      assert Digits(n) + rest == Digits(n / 10) + (last + rest);
      ReadDigitsOfDigits(n / 10, last + rest);
      assert (last + rest)[1..] == rest;
    }
  }

  /** Reads an integer numeral and returns what follows it. */
  function ReadInt(s: Text): (r: Option<(int, Text)>)
    ensures r.Some? ==> |r.value.1| < |s|
  {
    if s != [] && s[0] == MINUS then
      if |s| > 1 && IsDigit(s[1]) then
        var (n, rest) := ReadDigits(0, s[1..]);
        Some((-n, rest))
      else None
    else if s != [] && IsDigit(s[0]) then Some(ReadDigits(0, s))
    else None
  }

  lemma ReadIntOfDecimal(n: int, rest: Text)
    requires rest == [] || !IsDigit(rest[0])
    ensures ReadInt(Decimal(n) + rest) == Some((n, rest))
  {
    var m: nat := if n < 0 then -n else n;
    var digits := Digits(m);
    ReadDigitsOfDigits(m, rest);
    assert IsDigit(digits[0]);
    assert ReadDigits(m, rest) == (m, rest);
    if n < 0 {
      assert ([MINUS] + digits + rest)[1..] == digits + rest;
    }
  }

  lemma DecimalIsInjective(m: int, n: int)
    requires Decimal(m) == Decimal(n)
    ensures m == n
  {
    ReadIntOfDecimal(m, []);
    ReadIntOfDecimal(n, []);
  }

  // ---- Decimal places ----

  function Pow10(k: nat): (p: nat)
    ensures p > 0
  {
    if k == 0 then 1 else 10 * Pow10(k - 1)
  }

  lemma QuotientIsUnique(n: nat, d: nat, q: nat, r: nat)
    requires n == q * d + r && r < d
    ensures n / d == q
  {
    var p, s := n / d, n % d;
    assert (p - q) * d == r - s;
    assert p - q >= 1 ==> (p - q) * d >= d;
    assert q - p >= 1 ==> (q - p) * d >= d;
  }

  lemma TenthFirst(n: nat, p: nat)
    requires p > 0
    ensures n / (10 * p) == n / 10 / p
  {
    var m := n / 10;
    var q, r := m / p, m % p;
    assert n == 10 * m + n % 10 && m == q * p + r;
    assert n == q * (10 * p) + (10 * r + n % 10);
    QuotientIsUnique(n, 10 * p, q, 10 * r + n % 10);
  }

  /** The places of `n` in base ten, without leading zeros. */
  predicate ArePlaces(s: Text, n: nat) {
    && s != [] && n < Pow10(|s|) && (|s| > 1 ==> Pow10(|s| - 1) <= n)
    && forall i :: 0 <= i < |s| ==> s[i] == '0' as int + n / Pow10(|s| - 1 - i) % 10
  }

  lemma {:induction false} DigitsArePlaces(n: nat)
    ensures ArePlaces(Digits(n), n)
  {
    if n >= 10 {
      var s, t := Digits(n), Digits(n / 10);
      DigitsArePlaces(n / 10);
      forall i | 0 <= i < |s| ensures s[i] == '0' as int + n / Pow10(|s| - 1 - i) % 10 {
        if i < |t| {
          TenthFirst(n, Pow10(|t| - 1 - i));
          assert s[i] == t[i];
        }
      }
    }
  }

  /** A numeral is the places of the number, after a minus sign when it is negative. */
  lemma DecimalIsPlaces(n: int)
    ensures n >= 0 ==> ArePlaces(Decimal(n), n)
    ensures n < 0 ==> Decimal(n)[0] == '-' as int && ArePlaces(Decimal(n)[1..], -n)
  {
    if n >= 0 {
      DigitsArePlaces(n);
    } else {
      DigitsArePlaces(-n);
      assert Decimal(n)[1..] == Digits(-n);
    }
  }

  predicate Without(u: CodeUnit, s: Text) {
    u !in s
  }

  /** Splitting at the first occurrence of a separator is unambiguous. */
  lemma {:induction false} FirstSplitIsUnique(sep: CodeUnit, a: Text, s: Text, b: Text, t: Text)
    requires Without(sep, a) && Without(sep, b)
    requires a + [sep] + s == b + [sep] + t
    ensures a == b && s == t
  {
    var x, y := a + [sep] + s, b + [sep] + t;
    assert x[|a|] == sep && y[|b|] == sep;
    assert |a| == |b|;
    assert a == x[..|a|] && b == y[..|b|];
    assert s == x[|a| + 1..] && t == y[|b| + 1..];
  }

  /** Splitting at the last occurrence of a separator is unambiguous. */
  lemma {:induction false} LastSplitIsUnique(sep: CodeUnit, a: Text, s: Text, b: Text, t: Text)
    requires Without(sep, s) && Without(sep, t)
    requires a + [sep] + s == b + [sep] + t
    ensures a == b && s == t
  {
    var x, y := a + [sep] + s, b + [sep] + t;
    assert x[|a|] == sep && y[|b|] == sep;
    assert |a| == |b|;
    assert a == x[..|a|] && b == y[..|b|];
    assert s == x[|a| + 1..] && t == y[|b| + 1..];
  }

  /** Of two ways to split a text at a separator, the longer head goes on from the shorter one. */
  lemma LongerHeadGoesOn(sep: CodeUnit, k: Text, x: Text, l: Text, y: Text) returns (t: Text)
    requires k + [sep] + x == l + [sep] + y && k != l && |k| <= |l|
    ensures l == k + [sep] + t && x == t + [sep] + y
  {
    var z, w := k + [sep] + x, l + [sep] + y;
    assert z[..|k|] == k && w[..|l|] == l;
    assert l[..|k|] == k && l[..|l|] == l;
    assert |k| < |l|;
    assert z[|k|] == sep && w[|k|] == l[|k|];
    t := l[|k| + 1..];
    assert l == k + [sep] + t;
    assert z[|k| + 1..] == x && w[|k| + 1..] == t + [sep] + y;
  }
}
