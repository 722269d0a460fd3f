/** Decoded JSON values, as far as the audit verifiers look at them. */
module Json {

  datatype Json =
    | Null
    | Bool(truth: bool)
    | Int(number: int)
    | Float(approx: real)
    | Str(text: string)
    | Composite(tag: nat)

  /** `value == n` for a decoded value: Python numbers compare across types and `true` is one. */
  predicate EqualsInt(value: Json, n: int) {
    match value
    case Int(m) => m == n
    case Bool(b) => (if b then 1 else 0) == n
    case Float(r) => r == n as real
    case _ => false
  }

  predicate IsHexDigit(c: char) {
    '0' <= c <= '9' || 'a' <= c <= 'f' || 'A' <= c <= 'F'
  }

  /** The pattern `[0-9a-f]{64}`: what `hexdigest` prints. */
  predicate IsLowerHex64(s: string) {
    |s| == 64 && forall i :: 0 <= i < |s| ==> '0' <= s[i] <= '9' || 'a' <= s[i] <= 'f'
  }

  /** `bytes.fromhex` also skips white space between the pairs. */
  predicate IsFromHexText(s: string) {
    if s == [] then true
    else if s[0] == ' ' || 9 as char <= s[0] <= 13 as char then IsFromHexText(s[1..])
    else |s| >= 2 && IsHexDigit(s[0]) && IsHexDigit(s[1]) && IsFromHexText(s[2..])
  }

  predicate IsHexDigest(s: string) {
    |s| == 64 && IsFromHexText(s)
  }

  lemma {:induction false} EvenHexIsFromHexText(s: string)
    requires |s| % 2 == 0
    requires forall i :: 0 <= i < |s| ==> '0' <= s[i] <= '9' || 'a' <= s[i] <= 'f'
    ensures IsFromHexText(s)
    decreases |s|
  {
    if s != [] {
      EvenHexIsFromHexText(s[2..]);
    }
  }

  /** Everything `hexdigest` prints is accepted by the looser digest check of the anchor. */
  lemma LowerHexIsHexDigest(s: string)
    requires IsLowerHex64(s)
    ensures IsHexDigest(s)
  {
    EvenHexIsFromHexText(s);
  }
}
