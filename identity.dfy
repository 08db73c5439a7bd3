/** The participant identity: `hashCode` over the joined environment string
    (script.js:614-622) and its decimal rendering (script.js:611). The
    environment probing itself (canvas, navigator, screen) is an input here:
    the UTF-16 code units of the joined string. */
module Identity {
  import opened Js

  /** `hash << 5`: both operands go through ToInt32 and the product wraps to 32 bits. */
  function ShiftLeft5(h: int): int {
    ToInt32(ToInt32(h) * 32)
  }

  /** One pass of the loop body: `hash = (hash << 5) - hash + char`, then
      `hash = hash & hash`, and `x & x` is ToInt32(x). The result is a signed
      32-bit value, and on a signed 32-bit accumulator it is 31 * h + c
      reduced to signed 32 bits. */
  function HashStep(h: int, c: CodeUnit): (r: int)
    ensures -TwoTo31 <= r < TwoTo31
    ensures -TwoTo31 <= h < TwoTo31 ==> r == ToInt32(31 * h + c)
  {
    var s := ShiftLeft5(h);
    if -TwoTo31 <= h < TwoTo31 then
      ToInt32InRange(h);
      var q := (h * 32 - s) / TwoTo32;
      assert h * 32 - s == TwoTo32 * q;
      ToInt32Congruent(s - h + c, 31 * h + c, -q);
      ToInt32(s - h + c)
    else
      ToInt32(s - h + c)
  }

  /** The value of `hash` after the loop has consumed `units`, starting from 0. */
  function HashOf(units: seq<CodeUnit>): (h: int)
    ensures -TwoTo31 <= h < TwoTo31
  {
    if units == [] then 0 else HashStep(HashOf(units[..|units| - 1]), units[|units| - 1])
  }

  /** The polynomial sum of units[i] * 31^(n-1-i), without any wrap-around:
      the reference definition the rolling hash approximates. */
  function Polynomial(units: seq<CodeUnit>): int {
    if units == [] then 0 else 31 * Polynomial(units[..|units| - 1]) + units[|units| - 1]
  }

  /** The rolling hash is the polynomial hash reduced to signed 32 bits. */
  lemma {:induction false} HashIsPolynomialModulo(units: seq<CodeUnit>)
    ensures HashOf(units) == ToInt32(Polynomial(units))
  {
    if units != [] {
      var init, c := units[..|units| - 1], units[|units| - 1];
      var h, p := HashOf(init), Polynomial(init);
      HashIsPolynomialModulo(init);
      var q := (p - h) / TwoTo32;
      assert p - h == TwoTo32 * q;
      ToInt32Congruent(31 * p + c, 31 * h + c, 31 * q);
    }
  }

  /** `hashCode(str)`: the loop over the code units, then `Math.abs`. */
  method HashCode(units: seq<CodeUnit>) returns (r: nat)
    ensures r == Abs(HashOf(units))
    ensures r <= TwoTo31
    ensures units == [] ==> r == 0
  {
    var hash := 0;
    var i := 0;
    while i < |units|
      invariant 0 <= i <= |units|
      invariant hash == HashOf(units[..i])
    {
      var code := units[i];
      assert units[..i + 1][..i] == units[..i];
      hash := ShiftLeft5(hash) - hash + code;
      hash := ToInt32(hash);
      i := i + 1;
    }
    assert units[..|units|] == units;
    r := Abs(hash);
  }

  /** The fingerprint string `hashCode(joined).toString()`: decimal digits
      that read back as the absolute hash, at most 2^31. */
  function Fingerprint(signals: seq<CodeUnit>): (fp: string)
    ensures fp != [] && AllDigits(fp)
    ensures DigitsValue(fp) == Abs(HashOf(signals)) && DigitsValue(fp) <= TwoTo31
  {
    NatToStringRoundTrip(Abs(HashOf(signals)));
    NatToString(Abs(HashOf(signals)))
  }

  /** `getUserFingerprint()` once the environment signals are joined. The
      result is a decimal string that reads back as the hash, at most 2^31. */
  method UserFingerprint(signals: seq<CodeUnit>) returns (fp: string)
    ensures fp == Fingerprint(signals)
    ensures fp != [] && AllDigits(fp) && DigitsValue(fp) <= TwoTo31
  {
    var h := HashCode(signals);
    fp := NatToString(h);
    NatToStringRoundTrip(h);
  }

  /** Two signal strings give the same fingerprint exactly when their hashes
      have the same absolute value. */
  lemma FingerprintsEqualIff(a: seq<CodeUnit>, b: seq<CodeUnit>)
    ensures Fingerprint(a) == Fingerprint(b) <==> Abs(HashOf(a)) == Abs(HashOf(b))
  {
    NatToStringRoundTrip(Abs(HashOf(a)));
    NatToStringRoundTrip(Abs(HashOf(b)));
  }
}
