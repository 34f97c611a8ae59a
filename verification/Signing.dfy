/**
 Ed25519 as an ideal signature: the holders of keys have signed a set of messages, and verification
 succeeds on these alone. The shape checks on hexadecimal text are the program's own.
 */
module Signing {
  import opened Texts
  import opened Json
  import opened Utf8

  /** Key `key` (lower-case hexadecimal) was used to sign `bytes`. */
  datatype Sealed = Sealed(key: Text, bytes: seq<Byte>)

  predicate IsHexUnit(u: CodeUnit) {
    IsDigit(u) || 65 <= u <= 70 || 97 <= u <= 102
  }

  /** `assertHex`: hexadecimal text of `bytes` bytes. */
  predicate IsHex(s: Text, bytes: nat) {
    |s| == 2 * bytes && forall i :: 0 <= i < |s| ==> IsHexUnit(s[i])
  }

  function LowerHex(s: Text): Text {
    seq(|s|, i requires 0 <= i < |s| => if 65 <= s[i] <= 70 then s[i] + 32 else s[i])
  }

  /** Two hexadecimal texts name the same bytes exactly when they are the same in lower case. */
  lemma LowerHexExactly(a: Text, b: Text)
    requires |a| == |b|
    requires forall i :: 0 <= i < |a| ==> IsHexUnit(a[i]) && IsHexUnit(b[i])
    ensures LowerHex(a) == LowerHex(b) <==> forall i :: 0 <= i < |a| ==> HexValue(a[i]) == HexValue(b[i])
    ensures forall i :: 0 <= i < |a| ==> HexValue(a[i]).Some?
  {
    if forall i :: 0 <= i < |a| ==> HexValue(a[i]) == HexValue(b[i]) {
      assert forall i :: 0 <= i < |a| ==> LowerHex(a)[i] == LowerHex(b)[i];
    } else {
      var i :| 0 <= i < |a| && HexValue(a[i]) != HexValue(b[i]);
      assert LowerHex(a)[i] != LowerHex(b)[i];
    }
  }

  const PUBLIC_KEY_BYTES := 32
  const SIGNATURE_BYTES := 64

  /** `verify`: malformed signatures and keys are refused like wrong ones. */
  predicate Verify(signed: set<Sealed>, signature: Text, message: Text, publicKey: Text) {
    && IsHex(signature, SIGNATURE_BYTES)
    && IsHex(publicKey, PUBLIC_KEY_BYTES)
    && Sealed(LowerHex(publicKey), Encode(message)) in signed
  }

  /** `verifyCanonical`: a payload that cannot be serialized is refused. */
  predicate VerifyCanonical(signed: set<Sealed>, signature: Text, payload: Value, publicKey: Text) {
    match Canonical(payload)
    case Ok(text) => Verify(signed, signature, text, publicKey)
    case Err(_) => false
  }
}
