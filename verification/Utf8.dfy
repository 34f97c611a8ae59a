/**
 The UTF-8 bytes that are signed (RFC 3629). `TextEncoder` replaces every surrogate without a partner
 by U+FFFD, so bytes determine a text exactly up to that replacement.
 */
module Utf8 {
  import opened Texts
  import opened Json
  import opened Utf16

  type Byte = b: int | 0 <= b < 256
  type Scalar = p: int | 0 <= p < 0xD800 || 0xE000 <= p < 0x11_0000

  const REPLACEMENT: Scalar := 0xFFFD

  predicate StartsPair(t: Text) {
    |t| > 1 && IsHigh(t[0]) && IsLow(t[1])
  }

  function Combined(high: CodeUnit, low: CodeUnit): Scalar
    requires IsHigh(high) && IsLow(low)
  {
    0x1_0000 + (high - 0xD800) * 0x400 + (low - 0xDC00)
  }

  /** The scalar values of a text, as the encoder reads them. */
  function Scalars(t: Text): seq<Scalar> {
    if t == [] then []
    else if StartsPair(t) then [Combined(t[0], t[1])] + Scalars(t[2..])
    else [if IsSurrogate(t[0]) then REPLACEMENT else t[0]] + Scalars(t[1..])
  }

  function EncodeScalar(p: Scalar): (bytes: seq<Byte>)
    ensures bytes != []
  {
    if p < 0x80 then [p]
    else if p < 0x800 then [0xC0 + p / 64, 0x80 + p % 64]
    else if p < 0x1_0000 then [0xE0 + p / 4096, 0x80 + p / 64 % 64, 0x80 + p % 64]
    else [0xF0 + p / 262144, 0x80 + p / 4096 % 64, 0x80 + p / 64 % 64, 0x80 + p % 64]
  }

  function EncodeScalars(ps: seq<Scalar>): seq<Byte> {
    if ps == [] then [] else EncodeScalar(ps[0]) + EncodeScalars(ps[1..])
  }

  /** `new TextEncoder().encode(t)` */
  function Encode(t: Text): seq<Byte> {
    EncodeScalars(Scalars(t))
  }

  predicate Continues(b: Byte) {
    0x80 <= b <= 0xBF
  }

  /** The shortest form of a scalar value in one to four bytes, as RFC 3629 (section 3) lays them out. */
  predicate IsUtf8Of(p: Scalar, s: seq<Byte>) {
    || (|s| == 1 && p <= 0x7F && s[0] == p)
    || (|s| == 2 && 0x80 <= p <= 0x7FF && 0xC0 <= s[0] <= 0xDF && Continues(s[1])
        && p == (s[0] as int - 0xC0) * 0x40 + (s[1] as int - 0x80))
    || (|s| == 3 && 0x800 <= p <= 0xFFFF && 0xE0 <= s[0] <= 0xEF && Continues(s[1]) && Continues(s[2])
        && p == (s[0] as int - 0xE0) * 0x1000 + (s[1] as int - 0x80) * 0x40 + (s[2] as int - 0x80))
    || (|s| == 4 && 0x1_0000 <= p <= 0x10_FFFF && 0xF0 <= s[0] <= 0xF7
        && Continues(s[1]) && Continues(s[2]) && Continues(s[3])
        && p == (s[0] as int - 0xF0) * 0x4_0000 + (s[1] as int - 0x80) * 0x1000
                + (s[2] as int - 0x80) * 0x40 + (s[3] as int - 0x80))
  }

  lemma EncodeScalarIsUtf8(p: Scalar)
    ensures IsUtf8Of(p, EncodeScalar(p))
  {
    DigitsOf64(p);
  }

  // ---- Back to UTF-16 ----

  function Units(p: Scalar): (u: Text)
    ensures u != []
  {
    if p < 0x1_0000 then [p] else [0xD800 + (p - 0x1_0000) / 0x400, 0xDC00 + (p - 0x1_0000) % 0x400]
  }

  function TextOf(ps: seq<Scalar>): Text {
    if ps == [] then [] else Units(ps[0]) + TextOf(ps[1..])
  }

  /** The text with every surrogate that has no partner replaced. */
  function Scrub(t: Text): Text {
    TextOf(Scalars(t))
  }

  // ---- Bytes determine the scrubbed text ----

  /** How many bytes a character that starts with `b` has. */
  function LengthFrom(b: Byte): nat {
    if b < 0x80 then 1 else if b < 0xE0 then 2 else if b < 0xF0 then 3 else 4
  }

  lemma FirstByteTellsLength(p: Scalar)
    ensures |EncodeScalar(p)| == LengthFrom(EncodeScalar(p)[0])
  {
  }

  lemma DigitsOf64(p: nat)
    ensures p == p / 64 * 64 + p % 64
    ensures p / 64 == p / 4096 * 64 + p / 64 % 64
    ensures p / 4096 == p / 262144 * 64 + p / 4096 % 64
  {
    assert p / 4096 == p / 64 / 64;
    assert p / 262144 == p / 4096 / 64;
  }

  lemma EncodeScalarIsInjective(p: Scalar, q: Scalar)
    requires EncodeScalar(p) == EncodeScalar(q)
    ensures p == q
  {
    var x, y := EncodeScalar(p), EncodeScalar(q);
    FirstByteTellsLength(p);
    FirstByteTellsLength(q);
    assert |x| == |y| && forall i :: 0 <= i < |x| ==> x[i] == y[i];
    DigitsOf64(p);
    DigitsOf64(q);
  }

  lemma FirstScalarIsUnique(p: Scalar, x: seq<Byte>, q: Scalar, y: seq<Byte>)
    requires EncodeScalar(p) + x == EncodeScalar(q) + y
    ensures p == q && x == y
  {
    var s, a, b := EncodeScalar(p) + x, EncodeScalar(p), EncodeScalar(q);
    assert s[0] == a[0] && s[0] == b[0];
    FirstByteTellsLength(p);
    FirstByteTellsLength(q);
    assert a == s[..|a|] && b == s[..|b|];
    EncodeScalarIsInjective(p, q);
    assert x == s[|a|..] && y == s[|b|..];
  }

  lemma {:induction false} EncodeScalarsIsInjective(ps: seq<Scalar>, qs: seq<Scalar>)
    requires EncodeScalars(ps) == EncodeScalars(qs)
    ensures ps == qs
  {
    if ps != [] && qs != [] {
      FirstScalarIsUnique(ps[0], EncodeScalars(ps[1..]), qs[0], EncodeScalars(qs[1..]));
      EncodeScalarsIsInjective(ps[1..], qs[1..]);
      assert ps == [ps[0]] + ps[1..] && qs == [qs[0]] + qs[1..];
    }
  }

  lemma {:induction false} ScalarsOfText(ps: seq<Scalar>)
    ensures Scalars(TextOf(ps)) == ps
  {
    if ps != [] {
      var t, p := TextOf(ps), ps[0];
      ScalarsOfText(ps[1..]);
      if p < 0x1_0000 {
        assert t[0] == p && !IsSurrogate(t[0]);
        assert t[1..] == TextOf(ps[1..]);
      } else {
        assert t[2..] == TextOf(ps[1..]);
      }
      assert ps == [p] + ps[1..];
    }
  }

  /** Two texts have the same bytes exactly when they agree once scrubbed. */
  lemma EncodeIsExact(a: Text, b: Text)
    ensures Encode(a) == Encode(b) <==> Scrub(a) == Scrub(b)
  {
    if Encode(a) == Encode(b) {
      EncodeScalarsIsInjective(Scalars(a), Scalars(b));
    }
    ScalarsOfText(Scalars(a));
    ScalarsOfText(Scalars(b));
  }

  /** Scrubbing leaves well-formed UTF-16 alone, so its encoding loses nothing. */
  lemma {:induction false} ScrubFixesWellPaired(t: Text)
    requires WellPaired(t)
    ensures Scrub(t) == t
  {
    if t != [] {
      var n := if StartsPair(t) then 2 else 1;
      assert !IsSurrogate(t[0]) || Paired(t, 0);
      forall i | 0 <= i < |t[n..]| && IsSurrogate(t[n..][i]) ensures Paired(t[n..], i) {
        assert Paired(t, i + n);
      }
      ScrubFixesWellPaired(t[n..]);
      if n == 2 {
        assert t == [t[0], t[1]] + t[2..];
      } else {
        assert t == [t[0]] + t[1..];
      }
    }
  }

  /** A surrogate at `i`, and not the half of any pair. */
  predicate IsLoneAt(t: Text, i: nat)
    requires i < |t|
  {
    || (0xD800 <= t[i] <= 0xDBFF && !(i + 1 < |t| && 0xDC00 <= t[i + 1] <= 0xDFFF))
    || (0xDC00 <= t[i] <= 0xDFFF && !(i > 0 && 0xD800 <= t[i - 1] <= 0xDBFF))
  }

  /** What is lone behind the first character is so without it. */
  lemma LoneBehind(t: Text, n: nat, i: nat)
    requires n == (if StartsPair(t) then 2 else 1) && n <= i < |t|
    ensures IsLoneAt(t, i) <==> IsLoneAt(t[n..], i - n)
  {
    assert t[n..][i - n] == t[i];
    if i + 1 < |t| {
      assert t[n..][i - n + 1] == t[i + 1];
    }
    if i > n {
      assert t[n..][i - n - 1] == t[i - 1];
    }
  }

  /** What stands for the unit at `i` in the scrubbed text. */
  function ScrubbedAt(t: Text, i: nat): CodeUnit
    requires i < |t|
  {
    if IsLoneAt(t, i) then 0xFFFD else t[i]
  }

  predicate IsScrubbed(t: Text, s: Text) {
    |s| == |t| && forall i :: 0 <= i < |t| ==> s[i] == ScrubbedAt(t, i)
  }

  lemma ScrubbedBehind(t: Text, n: nat, head: Text, rest: Text)
    requires t != [] && n == (if StartsPair(t) then 2 else 1) && |head| == n && IsScrubbed(t[n..], rest)
    requires forall i :: 0 <= i < n ==> head[i] == ScrubbedAt(t, i)
    ensures IsScrubbed(t, head + rest)
  {
    forall i | n <= i < |t| ensures (head + rest)[i] == ScrubbedAt(t, i) {
      LoneBehind(t, n, i);
      assert (head + rest)[i] == rest[i - n] == ScrubbedAt(t[n..], i - n);
    }
  }

  /** Scrubbing replaces exactly the surrogates without a partner, each by one U+FFFD. */
  lemma {:induction false} ScrubExactly(t: Text)
    ensures IsScrubbed(t, Scrub(t))
  {
    if t != [] {
      var n := if StartsPair(t) then 2 else 1;
      ScrubExactly(t[n..]);
      HeadIsScrubbed(t, n);
      ScrubbedBehind(t, n, if IsLoneAt(t, 0) then [0xFFFD] else t[..n], Scrub(t[n..]));
    }
  }

  lemma HeadIsScrubbed(t: Text, n: nat)
    requires t != [] && n == if StartsPair(t) then 2 else 1
    ensures Scrub(t) == (if IsLoneAt(t, 0) then [0xFFFD] else t[..n]) + Scrub(t[n..])
    ensures n == 2 ==> !IsLoneAt(t, 0) && !IsLoneAt(t, 1)
  {
    if n == 2 {
      assert Units(Combined(t[0], t[1])) == [t[0], t[1]];
    }
  }

  // ---- Lines ----

  lemma {:induction false} ScalarsAcross(a: Text, u: CodeUnit, b: Text)
    requires !IsSurrogate(u)
    ensures Scalars(a + [u] + b) == Scalars(a) + [u] + Scalars(b)
  {
    var t := a + [u] + b;
    if a == [] {
      assert t[1..] == b;
    } else if StartsPair(a) {
      assert t[2..] == a[2..] + [u] + b;
      ScalarsAcross(a[2..], u, b);
    } else {
      assert t[1..] == a[1..] + [u] + b;
      ScalarsAcross(a[1..], u, b);
    }
  }

  lemma TextOfFirst(p: Scalar, ps: seq<Scalar>)
    ensures TextOf([p] + ps) == Units(p) + TextOf(ps)
  {
    assert ([p] + ps)[1..] == ps;
  }

  lemma Regroup(a: Text, b: Text, c: Text)
    ensures a + (b + c) == a + b + c
  {
  }

  lemma {:induction false} TextOfConcat(ps: seq<Scalar>, qs: seq<Scalar>)
    ensures TextOf(ps + qs) == TextOf(ps) + TextOf(qs)
  {
    if ps == [] {
      assert ps + qs == qs;
    } else {
      var p, rest := ps[0], ps[1..];
      TextOfConcat(rest, qs);
      TextOfFirst(p, rest + qs);
      assert ps + qs == [p] + (rest + qs);
      Regroup(Units(p), TextOf(rest), TextOf(qs));
    }
  }

  /** Lines are scrubbed one by one. */
  lemma ScrubAcross(a: Text, u: CodeUnit, b: Text)
    requires !IsSurrogate(u)
    ensures Scrub(a + [u] + b) == Scrub(a) + [u] + Scrub(b)
  {
    ScalarsAcross(a, u, b);
    TextOfConcat(Scalars(a) + [u], Scalars(b));
    TextOfConcat(Scalars(a), [u]);
    assert TextOf([u]) == [u];
  }

  /** Scrubbing brings in no new unit but the replacement character. */
  lemma {:induction false} ScrubKeepsAway(u: CodeUnit, t: Text)
    requires Without(u, t) && u != REPLACEMENT && !IsSurrogate(u)
    ensures Without(u, Scrub(t))
  {
    if t != [] {
      ScrubKeepsAway(u, if StartsPair(t) then t[2..] else t[1..]);
    }
  }
}
